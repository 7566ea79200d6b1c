/** The array-backed prefix tree of the grid solver. */
module Tries {
  import opened Text

  /** Child k of a node is the node reached on the k-th letter, or ABSENT. */
  datatype Node = Node(children: seq<int>, isWord: bool)

  const ABSENT := -1
  const ROOT := 0

  function NewNode(): Node {
    Node(seq(26, _ => ABSENT), false)
  }

  /** Every node has 26 slots, and what is in a slot lies beyond the node itself. */
  ghost predicate Ranged(nodes: seq<Node>) {
    && |nodes| > 0
    && (forall n :: 0 <= n < |nodes| ==> |nodes[n].children| == 26)
    && (forall n, k :: 0 <= n < |nodes| && 0 <= k < 26 ==>
          nodes[n].children[k] == ABSENT || n < nodes[n].children[k] < |nodes|)
  }

  /** A ranged table in which a node is in the slot of at most one parent. */
  ghost predicate WellShaped(nodes: seq<Node>) {
    && Ranged(nodes)
    && (forall n, k, n', k' ::
          (0 <= n < |nodes| && 0 <= k < 26 && 0 <= n' < |nodes| && 0 <= k' < 26
           && nodes[n].children[k] == nodes[n'].children[k'] != ABSENT) ==> n == n' && k == k')
  }

  /** Every node but the root hangs below some node. */
  ghost predicate HasParent(nodes: seq<Node>, m: int) {
    exists n, k :: 0 <= n < |nodes| && 0 <= k < |nodes[n].children| && nodes[n].children[k] == m
  }

  ghost predicate Connected(nodes: seq<Node>) {
    forall m :: 0 < m < |nodes| ==> HasParent(nodes, m)
  }

  /** The node below n on letter c, or ABSENT. */
  function Child(nodes: seq<Node>, n: int, c: char): int {
    if 0 <= n < |nodes| && IsLetter(c) && LetterIndex(c) < |nodes[n].children|
    then nodes[n].children[LetterIndex(c)]
    else ABSENT
  }

  /** The node that the letters of p lead to from the root, or ABSENT. */
  ghost function Walk(nodes: seq<Node>, p: string): int
    decreases |p|
  {
    if p == "" then ROOT else Child(nodes, Walk(nodes, p[..|p| - 1]), p[|p| - 1])
  }

  /** p is a path of the tree. */
  ghost predicate Holds(nodes: seq<Node>, p: string) {
    0 <= Walk(nodes, p) < |nodes|
  }

  /** w is one of the indexed words. */
  ghost predicate Accepts(nodes: seq<Node>, w: string) {
    Holds(nodes, w) && nodes[Walk(nodes, w)].isWord
  }

  lemma WalkInRange(nodes: seq<Node>, p: string)
    requires WellShaped(nodes)
    ensures Walk(nodes, p) == ABSENT || Holds(nodes, p)
  {
    if p != "" {
      var n := Walk(nodes, p[..|p| - 1]);
      assert Child(nodes, n, p[|p| - 1]) == Walk(nodes, p);
    }
  }

  lemma WalkStep(nodes: seq<Node>, p: string, c: char)
    ensures Walk(nodes, p + [c]) == Child(nodes, Walk(nodes, p), c)
  {
    assert (p + [c])[..|p|] == p;
  }

  /** Pruning is safe: what cannot be walked cannot be extended to something that can. */
  lemma {:induction false} PrefixHolds(nodes: seq<Node>, p: string, q: string)
    requires WellShaped(nodes)
    requires p <= q && Holds(nodes, q)
    ensures Holds(nodes, p)
    decreases |q|
  {
    if p != q {
      PrefixHolds(nodes, p, q[..|q| - 1]);
    }
  }

  /** Only A-Z strings are paths. */
  lemma {:induction false} HeldAreLetters(nodes: seq<Node>, p: string)
    requires WellShaped(nodes) && Holds(nodes, p)
    ensures AllLetters(p)
    decreases |p|
  {
    if p != "" {
      HeldAreLetters(nodes, p[..|p| - 1]);
    }
  }

  /** Distinct letter paths reach distinct nodes. */
  lemma {:induction false} WalkInjective(nodes: seq<Node>, p: string, q: string)
    requires WellShaped(nodes)
    requires Holds(nodes, p) && Walk(nodes, p) == Walk(nodes, q)
    ensures p == q
    decreases |p|
  {
    if p != "" && q != "" {
      var a, b := p[|p| - 1], q[|q| - 1];
      assert LetterIndex(a) == LetterIndex(b) ==> a == b;
      WalkInjective(nodes, p[..|p| - 1], q[..|q| - 1]);
      assert p == p[..|p| - 1] + [a];
      assert q == q[..|q| - 1] + [b];
    }
  }

  /** Every node is reached by some path. */
  lemma {:induction false} NodeHasPath(nodes: seq<Node>, m: int) returns (p: string)
    requires WellShaped(nodes) && Connected(nodes) && 0 <= m < |nodes|
    ensures Walk(nodes, p) == m
    decreases m
  {
    if m == ROOT {
      p := "";
    } else {
      assert HasParent(nodes, m);
      var n, k :| 0 <= n < |nodes| && 0 <= k < |nodes[n].children| && nodes[n].children[k] == m;
      var q := NodeHasPath(nodes, n);
      var c := (k + 'A' as int) as char;
      assert IsLetter(c) && LetterIndex(c) == k;
      p := q + [c];
      WalkStep(nodes, q, c);
    }
  }

  // --- growing the tree ---

  /** The node table after hanging a fresh node below n on letter c. */
  function Grown(nodes: seq<Node>, n: int, c: char): seq<Node>
    requires Ranged(nodes) && 0 <= n < |nodes| && IsLetter(c)
  {
    nodes[n := nodes[n].(children := nodes[n].children[LetterIndex(c) := |nodes|])] + [NewNode()]
  }

  lemma GrownRanged(nodes: seq<Node>, n: int, c: char)
    requires Ranged(nodes) && 0 <= n < |nodes| && IsLetter(c)
    ensures Ranged(Grown(nodes, n, c))
  {
  }

  lemma GrownShape(nodes: seq<Node>, n: int, c: char)
    requires WellShaped(nodes) && 0 <= n < |nodes| && IsLetter(c)
    ensures WellShaped(Grown(nodes, n, c))
  {
    GrownRanged(nodes, n, c);
    var after := Grown(nodes, n, c);
    forall a, k, a', k' | 0 <= a < |after| && 0 <= k < 26 && 0 <= a' < |after| && 0 <= k' < 26
                       && after[a].children[k] == after[a'].children[k'] != ABSENT
      ensures a == a' && k == k'
    {
      assert a < |nodes| && a' < |nodes|;
      if (a, k) != (n, LetterIndex(c)) && (a', k') != (n, LetterIndex(c)) {
        assert nodes[a].children[k] == nodes[a'].children[k'];
      }
    }
  }

  lemma GrownConnected(nodes: seq<Node>, n: int, c: char)
    requires WellShaped(nodes) && Connected(nodes) && 0 <= n < |nodes| && IsLetter(c)
    requires Child(nodes, n, c) == ABSENT
    ensures Connected(Grown(nodes, n, c))
  {
    var after := Grown(nodes, n, c);
    forall m | 0 < m < |after| ensures HasParent(after, m) {
      if m == |nodes| {
        assert after[n].children[LetterIndex(c)] == m;
      } else {
        assert HasParent(nodes, m);
        var a, k :| 0 <= a < |nodes| && 0 <= k < |nodes[a].children| && nodes[a].children[k] == m;
        assert after[a].children[k] == m;
      }
    }
  }

  /** Growing below the node of p adds the path p + c and disturbs no other. */
  lemma {:induction false} GrownWalk(nodes: seq<Node>, p: string, c: char, s: string)
    requires WellShaped(nodes) && Connected(nodes) && IsLetter(c)
    requires Holds(nodes, p) && !Holds(nodes, p + [c])
    requires WellShaped(Grown(nodes, Walk(nodes, p), c))
    ensures Walk(Grown(nodes, Walk(nodes, p), c), s) == if s == p + [c] then |nodes| else Walk(nodes, s)
    decreases |s|
  {
    var n := Walk(nodes, p);
    var after := Grown(nodes, n, c);
    WalkStep(nodes, p, c);
    if s != "" {
      var init, d := s[..|s| - 1], s[|s| - 1];
      assert s == init + [d];
      GrownWalk(nodes, p, c, init);
      if init == p + [c] {
        assert after[|nodes|] == NewNode();
        assert Child(after, |nodes|, d) == ABSENT;
        assert |s| != |p + [c]|;
      } else if Holds(nodes, init) {
        var m := Walk(nodes, init);
        if m == n {
          WalkInjective(nodes, init, p);
          assert LetterIndex(c) == LetterIndex(d) ==> c == d;
        }
      }
    }
  }

  /** The node table after flagging node n as the end of a word. */
  function Flagged(nodes: seq<Node>, n: int): seq<Node>
    requires 0 <= n < |nodes|
  {
    nodes[n := nodes[n].(isWord := true)]
  }

  lemma FlaggedShape(nodes: seq<Node>, n: int)
    requires WellShaped(nodes) && Connected(nodes) && 0 <= n < |nodes|
    ensures WellShaped(Flagged(nodes, n)) && Connected(Flagged(nodes, n))
  {
    var after := Flagged(nodes, n);
    forall m | 0 < m < |after| ensures HasParent(after, m) {
      assert HasParent(nodes, m);
      var a, k :| 0 <= a < |nodes| && 0 <= k < |nodes[a].children| && nodes[a].children[k] == m;
      assert after[a].children[k] == m;
    }
  }

  lemma {:induction false} FlaggedWalk(nodes: seq<Node>, n: int, s: string)
    requires WellShaped(nodes) && 0 <= n < |nodes| && WellShaped(Flagged(nodes, n))
    ensures Walk(Flagged(nodes, n), s) == Walk(nodes, s)
    decreases |s|
  {
    if s != "" {
      FlaggedWalk(nodes, n, s[..|s| - 1]);
    }
  }

  // --- the tree as an object ---

  /** The longest prefix of w made of A-Z letters: what an insertion walks before it stops. */
  function Lead(w: string): (p: string)
    ensures p <= w && AllLetters(p)
    ensures |p| < |w| ==> !IsLetter(w[|p|])
    decreases |w|
  {
    if w == "" then ""
    else
      var q := Lead(w[..|w| - 1]);
      if |q| == |w| - 1 && IsLetter(w[|w| - 1]) then w else q
  }

  /** The paths of a trie built from these words: the prefixes of the words' A-Z leads. */
  ghost predicate Indexed(words: seq<string>, p: string) {
    exists w :: w in words && p <= Lead(w)
  }

  /** `now` holds the paths of `was` and the prefixes of p, with the same words and with every
      old path still leading to the same node. */
  ghost predicate Adds(was: seq<Node>, now: seq<Node>, p: string) {
    && WellShaped(now) && Connected(now)
    && (forall s :: Accepts(now, s) <==> Accepts(was, s))
    && (forall s :: Holds(now, s) <==> Holds(was, s) || s <= p)
    && (forall s :: Holds(was, s) ==> Walk(now, s) == Walk(was, s))
  }

  /** The node table once node n has a child on the letter c. */
  ghost function Stepped(nodes: seq<Node>, n: int, c: char): (after: seq<Node>)
    requires Ranged(nodes) && 0 <= n < |nodes| && IsLetter(c)
    ensures Ranged(after) && 0 <= Child(after, n, c) < |after|
  {
    if Child(nodes, n, c) == ABSENT then Grown(nodes, n, c) else nodes
  }

  /** The node table after walking w from node n and flagging the end; the walk is given up at
      the first character that is not a letter. */
  ghost function Insertion(nodes: seq<Node>, n: int, w: string): seq<Node>
    requires Ranged(nodes) && 0 <= n < |nodes|
    decreases |w|
  {
    if w == "" then Flagged(nodes, n)
    else if !IsLetter(w[0]) then nodes
    else
      var after := Stepped(nodes, n, w[0]);
      Insertion(after, Child(after, n, w[0]), w[1..])
  }

  lemma AddsStepped(orig: seq<Node>, was: seq<Node>, p: string, c: char)
    requires Adds(orig, was, p) && IsLetter(c)
    requires Holds(was, p)
    ensures var now := Stepped(was, Walk(was, p), c);
            Adds(orig, now, p + [c]) && Walk(now, p + [c]) == Child(now, Walk(was, p), c)
  {
    var now := Stepped(was, Walk(was, p), c);
    WalkStep(was, p, c);
    if Child(was, Walk(was, p), c) == ABSENT {
      GrownShape(was, Walk(was, p), c);
      GrownConnected(was, Walk(was, p), c);
      GrownEffect(was, p, c);
    }
    forall s ensures Holds(now, s) <==> Holds(orig, s) || s <= p + [c] {
      PrefixOfExtension(s, p, c);
    }
  }

  /** The effect of inserting w: the words gain w if it is all A-Z and nothing otherwise, the
      paths gain the prefixes of w's A-Z lead, and no existing path moves. */
  ghost predicate Inserts(was: seq<Node>, now: seq<Node>, w: string) {
    && WellShaped(now) && Connected(now)
    && (forall s :: Accepts(now, s) <==> Accepts(was, s) || (AllLetters(w) && s == w))
    && (forall p :: Holds(now, p) <==> Holds(was, p) || p <= Lead(w))
    && (forall p :: Holds(was, p) ==> Walk(now, p) == Walk(was, p))
  }

  lemma InsertsAbandoned(was: seq<Node>, now: seq<Node>, w: string, i: nat)
    requires i < |w| && AllLetters(w[..i]) && !IsLetter(w[i]) && Adds(was, now, w[..i])
    ensures Inserts(was, now, w)
  {
    LeadStops(w, i);
  }

  /** What is still to be inserted of w once its first i letters have been walked. */
  ghost function Remaining(nodes: seq<Node>, w: string, i: nat): seq<Node>
    requires Ranged(nodes) && i <= |w| && Holds(nodes, w[..i])
  {
    Insertion(nodes, Walk(nodes, w[..i]), w[i..])
  }

  lemma OneLetterOn(orig: seq<Node>, nodes: seq<Node>, w: string, i: nat) returns (now: seq<Node>)
    requires i < |w| && IsLetter(w[i]) && AllLetters(w[..i])
    requires Adds(orig, nodes, w[..i]) && Holds(nodes, w[..i])
    ensures AllLetters(w[..i + 1]) && Adds(orig, now, w[..i + 1]) && Holds(now, w[..i + 1])
    ensures Remaining(now, w, i + 1) == Remaining(nodes, w, i)
  {
    assert w[..i + 1] == w[..i] + [w[i]] && w[i..][1..] == w[i + 1..];
    now := Stepped(nodes, Walk(nodes, w[..i]), w[i]);
    AddsStepped(orig, nodes, w[..i], w[i]);
  }

  /** Carrying an insertion on from any inserted prefix has the effect of inserting the whole word. */
  lemma {:induction false} InsertionEffect(orig: seq<Node>, nodes: seq<Node>, w: string, i: nat)
    requires i <= |w| && AllLetters(w[..i]) && Adds(orig, nodes, w[..i]) && Holds(nodes, w[..i])
    ensures Inserts(orig, Remaining(nodes, w, i), w)
    decreases |w| - i
  {
    if i == |w| {
      assert w[..i] == w && w[i..] == "";
      InsertsFlagged(orig, nodes, w);
    } else if !IsLetter(w[i]) {
      assert Remaining(nodes, w, i) == nodes;
      InsertsAbandoned(orig, nodes, w, i);
    } else {
      var now := OneLetterOn(orig, nodes, w, i);
      InsertionEffect(orig, now, w, i + 1);
    }
  }

  lemma InsertsFlagged(was: seq<Node>, now: seq<Node>, w: string)
    requires AllLetters(w) && Adds(was, now, w) && Holds(now, w)
    ensures Inserts(was, Flagged(now, Walk(now, w)), w)
  {
    FlaggedShape(now, Walk(now, w));
    FlaggedEffect(now, w);
    LeadOfLetters(w);
  }

  lemma {:induction false} LeadOfLetters(w: string)
    requires AllLetters(w)
    ensures Lead(w) == w
    decreases |w|
  {
    if w != "" {
      LeadOfLetters(w[..|w| - 1]);
    }
  }

  lemma PrefixOfExtension(s: string, p: string, c: char)
    ensures s <= p + [c] <==> s <= p || s == p + [c]
  {
    if s <= p + [c] {
      assert s == (p + [c])[..|s|];
      assert |s| <= |p| ==> s == p[..|s|];
    }
  }

  /** What a trie built from these words is: a tree whose words are the A-Z words among them,
      whose paths are the prefixes of their A-Z leads. */
  ghost predicate BuiltFrom(nodes: seq<Node>, words: seq<string>) {
    && WellShaped(nodes) && Connected(nodes)
    && (forall s :: Accepts(nodes, s) <==> s in words && AllLetters(s))
    && (forall p :: Holds(nodes, p) <==> p == "" || Indexed(words, p))
  }

  class Trie {
    var nodes: seq<Node>

    ghost predicate Valid()
      reads this
    {
      WellShaped(nodes) && Connected(nodes)
    }

    /** Builds the trie word by word. The words it recognises are exactly the A-Z inputs, in
        whatever order and number they come; its paths are the prefixes of their A-Z leads. */
    constructor (words: seq<string>)
      ensures Valid() && BuiltFrom(nodes, words)
    {
      nodes := [NewNode()];
      new;
      forall s ensures Walk(nodes, s) == if s == "" then ROOT else ABSENT {
        SingletonWalk(s);
      }
      for i := 0 to |words|
        invariant BuiltFrom(nodes, words[..i])
      {
        ghost var was := nodes;
        Insert(words[i]);
        assert words[..i + 1] == words[..i] + [words[i]];
        BuiltMore(was, nodes, words[..i], words[i]);
      }
      assert words[..|words|] == words;
    }

    /** Inserts w. A word that is not all A-Z is not recognised afterwards, but the nodes of its
        A-Z lead stay behind. */
    method Insert(w: string)
      requires Valid()
      modifies this
      ensures Valid() && Inserts(old(nodes), nodes, w)
    {
      ghost var goal := Insertion(nodes, ROOT, w);
      assert Inserts(nodes, goal, w) by {
        assert w[..0] == "" && w[0..] == w;
        InsertionEffect(nodes, nodes, w, 0);
      }
      var cur := ROOT;
      for i := 0 to |w|
        invariant Ranged(nodes) && 0 <= cur < |nodes|
        invariant Insertion(nodes, cur, w[i..]) == goal
      {
        var c := w[i];
        if c < 'A' || c > 'Z' {
          return;
        }
        assert w[i..][1..] == w[i + 1..];
        cur := ChildOrGrow(cur, c);
      }
      nodes := nodes[cur := nodes[cur].(isWord := true)];
    }

    /** The step of an insertion: cur's child on c, appended to the table if it is absent. */
    method ChildOrGrow(cur: int, c: char) returns (next: int)
      requires Ranged(nodes) && 0 <= cur < |nodes| && IsLetter(c)
      modifies this
      ensures nodes == Stepped(old(nodes), cur, c) && next == Child(nodes, cur, c)
    {
      var idx := LetterIndex(c);
      next := nodes[cur].children[idx];
      if next == ABSENT {
        nodes := nodes + [NewNode()];
        next := |nodes| - 1;
        nodes := nodes[cur := nodes[cur].(children := nodes[cur].children[idx := next])];
      }
    }

    /** Follows one letter; `ok` says whether the longer prefix is in the tree. */
    method Step(node: int, c: char) returns (next: int, ok: bool)
      requires Valid() && 0 <= node < |nodes|
      ensures ok <==> Child(nodes, node, c) != ABSENT
      ensures ok ==> next == Child(nodes, node, c)
    {
      if c < 'A' || c > 'Z' {
        return 0, false;
      }
      next := nodes[node].children[LetterIndex(c)];
      return next, next != ABSENT;
    }

    /** Whether the letters that lead to the node, whichever way it was reached, spell a word. */
    method IsWord(node: int) returns (yes: bool)
      requires Valid() && 0 <= node < |nodes|
      ensures forall s :: Walk(nodes, s) == node ==> (yes <==> Accepts(nodes, s))
    {
      return nodes[node].isWord;
    }
  }

  lemma IndexedMore(words: seq<string>, w: string, p: string)
    ensures Indexed(words + [w], p) <==> Indexed(words, p) || p <= Lead(w)
  {
    if Indexed(words, p) {
      var v :| v in words && p <= Lead(v);
      assert v in words + [w];
    }
    if p <= Lead(w) {
      assert w in words + [w];
    }
  }

  lemma BuiltMore(was: seq<Node>, now: seq<Node>, words: seq<string>, w: string)
    requires BuiltFrom(was, words) && Inserts(was, now, w)
    ensures BuiltFrom(now, words + [w])
  {
    forall p ensures Indexed(words + [w], p) <==> Indexed(words, p) || p <= Lead(w) {
      IndexedMore(words, w, p);
    }
  }

  lemma SingletonWalk(s: string)
    ensures WellShaped([NewNode()])
    ensures Walk([NewNode()], s) == if s == "" then ROOT else ABSENT
  {
  }

  lemma LeadStops(w: string, i: nat)
    requires i < |w| && AllLetters(w[..i]) && !IsLetter(w[i])
    ensures Lead(w) == w[..i] && !AllLetters(w)
  {
    assert forall k :: 0 <= k < i ==> w[..i][k] == w[k];
    assert forall k :: 0 <= k < |Lead(w)| ==> Lead(w)[k] == w[k];
  }

  lemma GrownEffect(nodes: seq<Node>, p: string, c: char)
    requires WellShaped(nodes) && Connected(nodes) && IsLetter(c)
    requires Holds(nodes, p) && !Holds(nodes, p + [c])
    requires WellShaped(Grown(nodes, Walk(nodes, p), c))
    ensures var after := Grown(nodes, Walk(nodes, p), c);
            && Walk(after, p + [c]) == |nodes|
            && (forall s :: Accepts(after, s) <==> Accepts(nodes, s))
            && (forall s :: Holds(after, s) <==> Holds(nodes, s) || s == p + [c])
            && (forall s :: Holds(nodes, s) ==> Walk(after, s) == Walk(nodes, s))
  {
    var after := Grown(nodes, Walk(nodes, p), c);
    forall s ensures Walk(after, s) == if s == p + [c] then |nodes| else Walk(nodes, s) {
      GrownWalk(nodes, p, c, s);
    }
  }

  lemma FlaggedEffect(nodes: seq<Node>, w: string)
    requires WellShaped(nodes) && Connected(nodes) && Holds(nodes, w)
    requires WellShaped(Flagged(nodes, Walk(nodes, w)))
    ensures var after := Flagged(nodes, Walk(nodes, w));
            && (forall s :: Walk(after, s) == Walk(nodes, s))
            && (forall s :: Accepts(after, s) <==> Accepts(nodes, s) || s == w)
  {
    var after := Flagged(nodes, Walk(nodes, w));
    forall s ensures Walk(after, s) == Walk(nodes, s) {
      FlaggedWalk(nodes, Walk(nodes, w), s);
    }
    forall s ensures Accepts(after, s) <==> Accepts(nodes, s) || s == w {
      if Holds(nodes, s) && Walk(nodes, s) == Walk(nodes, w) {
        WalkInjective(nodes, s, w);
      }
    }
  }

  // --- what a built trie means ---

  /** The trie of a single word. */
  lemma BuildOne(w: string) returns (nodes: seq<Node>)
    ensures BuiltFrom(nodes, [w])
  {
    var empty := [NewNode()];
    forall s ensures Walk(empty, s) == if s == "" then ROOT else ABSENT {
      SingletonWalk(s);
    }
    assert BuiltFrom(empty, []);
    assert w[..0] == "" && w[0..] == w && [] + [w] == [w];
    InsertionEffect(empty, empty, w, 0);
    nodes := Insertion(empty, ROOT, w);
    BuiltMore(empty, nodes, [], w);
  }

  /** Insertion order and repetition do not matter. */
  lemma OrderIrrelevant(nodes: seq<Node>, nodes': seq<Node>, words: seq<string>, words': seq<string>)
    requires BuiltFrom(nodes, words) && BuiltFrom(nodes', words')
    requires forall w :: w in words <==> w in words'
    ensures forall s :: Accepts(nodes, s) <==> Accepts(nodes', s)
    ensures forall p :: Holds(nodes, p) <==> Holds(nodes', p)
    ensures |nodes| == |nodes'|
  {
    forall p ensures Holds(nodes, p) <==> Holds(nodes', p) {
      assert Indexed(words, p) <==> Indexed(words', p);
    }
    NodeCount(nodes, words);
    NodeCount(nodes', words');
    assert Paths(words) == Paths(words') by {
      forall p ensures p in Paths(words) <==> p in Paths(words') {
        PathsAreIndexed(words, p);
        PathsAreIndexed(words', p);
        assert Indexed(words, p) <==> Indexed(words', p);
      }
    }
  }

  /** Stepping from the node of p on c succeeds exactly when p + c starts the A-Z lead of some
      inserted word. */
  lemma StepIffPrefix(nodes: seq<Node>, words: seq<string>, p: string, c: char)
    requires BuiltFrom(nodes, words) && Holds(nodes, p)
    ensures Child(nodes, Walk(nodes, p), c) != ABSENT <==> Indexed(words, p + [c])
  {
    WalkStep(nodes, p, c);
    WalkInRange(nodes, p + [c]);
  }

  /** The distinct prefixes of the words' A-Z leads, with the empty one. */
  ghost function Paths(words: seq<string>): set<string> {
    {""} + set w, n | w in words && 0 <= n <= |Lead(w)| :: Lead(w)[..n]
  }

  lemma PathsAreIndexed(words: seq<string>, p: string)
    ensures p in Paths(words) <==> p == "" || Indexed(words, p)
  {
    if Indexed(words, p) {
      var w :| w in words && p <= Lead(w);
      assert p == Lead(w)[..|p|];
    }
  }

  /** There is one node per distinct prefix: the root and one for every non-empty one. */
  lemma NodeCount(nodes: seq<Node>, words: seq<string>)
    requires BuiltFrom(nodes, words)
    ensures |nodes| == |Paths(words)|
    ensures "" in Paths(words) && |nodes| == 1 + |Paths(words) - {""}|
  {
    forall p ensures p in Paths(words) <==> Holds(nodes, p) {
      PathsAreIndexed(words, p);
    }
    NodesBelow(nodes, Paths(words), |nodes|);
    assert Paths(words) == PathsBelow(nodes, Paths(words), |nodes|);
  }

  ghost function PathsBelow(nodes: seq<Node>, paths: set<string>, k: int): set<string> {
    set p | p in paths && Walk(nodes, p) < k
  }

  lemma NodeIsOnePath(nodes: seq<Node>, paths: set<string>, k: nat) returns (q: string)
    requires WellShaped(nodes) && Connected(nodes) && k < |nodes|
    requires forall p :: p in paths <==> Holds(nodes, p)
    ensures q !in PathsBelow(nodes, paths, k)
    ensures PathsBelow(nodes, paths, k + 1) == PathsBelow(nodes, paths, k) + {q}
  {
    q := NodeHasPath(nodes, k);
    assert q in paths;
    forall p | p in paths && Walk(nodes, p) == k ensures p == q {
      WalkInjective(nodes, p, q);
    }
  }

  lemma {:induction false} NodesBelow(nodes: seq<Node>, paths: set<string>, k: nat)
    requires WellShaped(nodes) && Connected(nodes) && k <= |nodes|
    requires forall p :: p in paths <==> Holds(nodes, p)
    ensures |PathsBelow(nodes, paths, k)| == k
  {
    if k == 0 {
      assert PathsBelow(nodes, paths, 0) == {};
    } else {
      NodesBelow(nodes, paths, k - 1);
      var q := NodeIsOnePath(nodes, paths, k - 1);
    }
  }

  /** Every path leads on to a recognised word exactly when every abandoned insertion left only
      nodes that a complete word needs too. */
  lemma DeadNodes(nodes: seq<Node>, words: seq<string>)
    requires BuiltFrom(nodes, words)
    ensures (forall p :: Holds(nodes, p) && p != "" ==> LeadsToWord(nodes, p))
       <==> (forall w :: w in words && Lead(w) != "" ==> Completed(words, w))
  {
    forall w | w in words && Lead(w) != "" ensures LeadsToWord(nodes, Lead(w)) <==> Completed(words, w) {
      LeadLeadsToWord(nodes, words, w);
    }
    forall p | Holds(nodes, p) && p != ""
      ensures exists w :: w in words && Lead(w) != "" && (Completed(words, w) ==> LeadsToWord(nodes, p))
    {
      var w :| w in words && p <= Lead(w);
      if Completed(words, w) {
        var v :| v in words && AllLetters(v) && Lead(w) <= v;
        assert Accepts(nodes, v) && p <= v;
      }
    }
  }

  lemma LeadLeadsToWord(nodes: seq<Node>, words: seq<string>, w: string)
    requires BuiltFrom(nodes, words) && w in words
    ensures Holds(nodes, Lead(w))
    ensures LeadsToWord(nodes, Lead(w)) <==> Completed(words, w)
  {
    assert Indexed(words, Lead(w));
    if LeadsToWord(nodes, Lead(w)) {
      var s :| Accepts(nodes, s) && Lead(w) <= s;
      assert s in words && AllLetters(s);
    }
    if Completed(words, w) {
      var v :| v in words && AllLetters(v) && Lead(w) <= v;
      assert Accepts(nodes, v);
    }
  }

  lemma LettersComplete(words: seq<string>, w: string)
    requires w in words && AllLetters(w)
    ensures Lead(w) == w && Completed(words, w)
  {
    LeadOfLetters(w);
  }

  /** With A-Z inputs there is nothing to abandon: every path leads on to a word. */
  lemma NoDeadNodes(nodes: seq<Node>, words: seq<string>)
    requires BuiltFrom(nodes, words) && forall w :: w in words ==> AllLetters(w)
    ensures forall p :: Holds(nodes, p) && p != "" ==> LeadsToWord(nodes, p)
  {
    DeadNodes(nodes, words);
    forall w | w in words ensures Completed(words, w) {
      LettersComplete(words, w);
    }
  }

  /** An abandoned insertion can leave a path that leads nowhere. */
  lemma AbandonedInsertion() returns (nodes: seq<Node>)
    ensures BuiltFrom(nodes, ["CAt"]) && Holds(nodes, "CA") && !LeadsToWord(nodes, "CA")
  {
    nodes := BuildOne("CAt");
    var w := "CAt";
    assert !IsLetter(w[2]) && w[..2] == "CA";
    LeadStops(w, 2);
    LeadLeadsToWord(nodes, [w], w);
    assert forall v :: v in [w] ==> v == w;
  }

  // --- upper and lower case ---

  /** The trie indexes its words without regard to case exactly when every word that is alphabetic
      in upper case is also listed in upper case. */
  lemma CaseMatters(nodes: seq<Node>, words: seq<string>)
    requires BuiltFrom(nodes, words)
    ensures (forall w :: w in words && AllLetters(Upper(w)) ==> Accepts(nodes, Upper(w)))
       <==> (forall w :: w in words && AllLetters(Upper(w)) ==> Upper(w) in words)
  {
    forall w | w in words && AllLetters(Upper(w)) ensures Accepts(nodes, Upper(w)) <==> Upper(w) in words {
    }
  }

  /** A word given in lower case is not indexed, in either case. */
  lemma LowerCaseIsNotIndexed() returns (nodes: seq<Node>)
    ensures BuiltFrom(nodes, ["cat"]) && Upper("cat") == "CAT"
    ensures !Accepts(nodes, "CAT") && !Accepts(nodes, "cat")
  {
    nodes := BuildOne("cat");
    assert "cat"[0] == 'c' && "CAT"[0] == 'C';
    assert forall v :: v in ["cat"] ==> v == "cat";
    assert !AllLetters("cat");
  }

  ghost predicate LeadsToWord(nodes: seq<Node>, p: string) {
    exists s :: Accepts(nodes, s) && p <= s
  }

  ghost predicate Completed(words: seq<string>, w: string) {
    exists v :: v in words && AllLetters(v) && Lead(w) <= v
  }
}
