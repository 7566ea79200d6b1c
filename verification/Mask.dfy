/** The solver's visited mask: a 64-bit word with one bit per board cell. */
module Mask {

  /** The bit of a cell: a shift past the width of the word leaves 0. */
  function Bit(cell: nat): bv64 {
    if cell < 64 then (1 as bv64) << (cell as bv6) else 0
  }

  predicate Marked(used: bv64, cell: nat) {
    used & Bit(cell) != 0
  }

  lemma OrOneBit(used: bv64, a: bv6, b: bv6)
    ensures (used | ((1 as bv64) << a)) & ((1 as bv64) << b) != 0
       <==> used & ((1 as bv64) << b) != 0 || a == b
  {
  }

  lemma NarrowAndBack(a: nat)
    requires a < 64
    ensures (a as bv6) as nat == a
  {
  }

  lemma WidenEqual(x: bv6, y: bv6)
    ensures x == y ==> x as nat == y as nat
  {
  }

  lemma NarrowInjective(a: nat, b: nat)
    requires a < 64 && b < 64
    ensures a as bv6 == b as bv6 ==> a == b
  {
    NarrowAndBack(a);
    NarrowAndBack(b);
    WidenEqual(a as bv6, b as bv6);
  }

  lemma OrOneCell(used: bv64, a: nat, b: nat)
    requires a < 64 && b < 64
    ensures (used | ((1 as bv64) << (a as bv6))) & ((1 as bv64) << (b as bv6)) != 0
       <==> used & ((1 as bv64) << (b as bv6)) != 0 || a == b
  {
    OrOneBit(used, a as bv6, b as bv6);
    NarrowInjective(a, b);
  }

  lemma NoBits(used: bv64)
    ensures used | 0 == used && used & 0 == 0 && 0 & used == 0
  {
  }

  /** Or-ing a cell's bit in marks that cell, if the word has room for it, and no other. */
  lemma MarkOne(used: bv64, a: nat, b: nat)
    ensures Marked(used | Bit(a), b) <==> Marked(used, b) || (a == b && a < 64)
  {
    if a < 64 && b < 64 {
      OrOneCell(used, a, b);
    } else {
      NoBits(used);
      NoBits(used | Bit(a));
    }
  }

  /** The mask denotes exactly the cells of the path that fit in it. */
  ghost predicate Denotes(used: bv64, path: seq<int>) {
    forall cell: nat :: Marked(used, cell) <==> cell in path && cell < 64
  }

  lemma DenotesNothing()
    ensures Denotes(0, [])
  {
    forall cell: nat ensures !Marked(0, cell) {
      NoBits(Bit(cell));
    }
  }

  lemma DenotesExtended(used: bv64, path: seq<int>, cell: nat)
    requires Denotes(used, path)
    ensures Denotes(used | Bit(cell), path + [cell])
  {
    forall b: nat ensures Marked(used | Bit(cell), b) <==> b in path + [cell] && b < 64 {
      MarkOne(used, cell, b);
    }
  }
}
