/** Facts about sequences that several components share. */
module Seqs {

  ghost predicate NoDuplicates<T>(s: seq<T>) {
    forall i, j :: 0 <= i < j < |s| ==> s[i] != s[j]
  }

  ghost function Elements<T>(s: seq<T>): set<T> {
    set x | x in s
  }

  /** Go ranges over a map in no fixed order: the elements of a set, in some order. */
  method Listed<T(==)>(elements: set<T>) returns (out: seq<T>)
    ensures NoDuplicates(out) && Elements(out) == elements
    ensures |out| == |elements|
  {
    out := [];
    var rest := elements;
    while rest != {}
      invariant rest <= elements && NoDuplicates(out)
      invariant Elements(out) == elements - rest && |out| == |elements| - |rest|
      decreases rest
    {
      var x :| x in rest;
      assert Elements(out + [x]) == Elements(out) + {x};
      out := out + [x];
      rest := rest - {x};
    }
  }

  /** Every finite set can be listed. */
  lemma {:induction false} Enumerated<T>(elements: set<T>) returns (out: seq<T>)
    ensures NoDuplicates(out) && Elements(out) == elements
    decreases elements
  {
    if elements == {} {
      out := [];
    } else {
      var x :| x in elements;
      var rest := Enumerated(elements - {x});
      out := rest + [x];
      assert Elements(out) == Elements(rest) + {x};
      assert x !in Elements(rest);
    }
  }

  /** A duplicate-free sequence is as long as its set of elements. */
  lemma {:induction false} DistinctCount<T>(s: seq<T>)
    requires NoDuplicates(s)
    ensures |s| == |Elements(s)|
    decreases |s|
  {
    if s == [] {
      assert Elements(s) == {};
    } else {
      var init, last := s[..|s| - 1], s[|s| - 1];
      DistinctCount(init);
      assert Elements(s) == Elements(init) + {last};
      assert last !in Elements(init);
    }
  }

  lemma {:induction false} SubsetCount<T>(few: set<T>, many: set<T>)
    requires few <= many
    ensures |few| <= |many|
    decreases many
  {
    if few != many {
      var x :| x in many && x !in few;
      SubsetCount(few, many - {x});
    }
  }
}
