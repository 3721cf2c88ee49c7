/**
 * Where element i of a UramArray lives: block, line, and bit position within a 72-bit line, for every element
 * width and array size.
 */
module UramAddress {
  const LINE := 72
  const DEPTH := 4096

  /** Elements per 72-bit line, elements per block, 72-bit words per element. */
  function ElemPerLine(w: nat): nat
    requires w > 0
  {
    LINE / w
  }

  function ElemPerBlock(w: nat): nat
    requires w > 0
  {
    ElemPerLine(w) * DEPTH
  }

  function ParallelBlocks(w: nat): nat { (w + 71) / LINE }

  lemma PerLineBounds(w: nat)
    requires 0 < w <= LINE
    ensures 1 <= ElemPerLine(w) && ElemPerLine(w) * w <= LINE
  {
  }

  /** Number of blocks side by side. */
  function BlockCount(w: nat, n: nat): nat
    requires w > 0
  {
    if w <= LINE then
      PerLineBounds(w);
      (n + ElemPerBlock(w) - 1) / ElemPerBlock(w)
    else (n + DEPTH - 1) / DEPTH
  }

  function Times(slot: nat, w: nat): nat { slot * w }

  function Quotient(a: nat, d: nat): nat
    requires d > 0
  {
    a / d
  }

  function Remainder(a: nat, d: nat): nat
    requires d > 0
  {
    a % d
  }

  datatype Address = Address(block: nat, line: nat, begin: nat)

  /** The address arithmetic of `read` and `write`. */
  function Locate(w: nat, i: nat): Address
    requires w > 0
  {
    if w <= LINE then
      PerLineBounds(w);
      var per, block := ElemPerLine(w), ElemPerBlock(w);
      var inBlock := Remainder(i, block);
      Address(Quotient(i, block), Quotient(inBlock, per), Times(Remainder(inBlock, per), w))
    else Address(i / DEPTH, i % DEPTH, 0)
  }

  /** Packed elements fill slots of a line, lines of 4096, blocks; wider elements take a line number each. */
  lemma LocateFills(w: nat, i: nat)
    requires w > 0
    ensures var a := Locate(w, i);
            && a.line < 4096
            && (w > 72 ==> i == 4096 * a.block + a.line && a.begin == 0)
            && (w <= 72 ==> exists slot :: 0 <= slot < 72 / w && a.begin == slot * w
                                           && i == (4096 * a.block + a.line) * (72 / w) + slot)
  {
    if w <= 72 {
      PerLineBounds(w);
      var per, block := ElemPerLine(w), ElemPerBlock(w);
      var a, inBlock, slot := Locate(w, i), i % block, i % block % per;
      DivSmall(inBlock, DEPTH, per);
      assert i == a.block * block + inBlock && inBlock == a.line * per + slot;
      Regroup(a.block, a.line, per, slot);
      assert a.begin == slot * w && i == (4096 * a.block + a.line) * (72 / w) + slot;
    }
  }

  lemma Regroup(block: nat, line: nat, per: nat, slot: nat)
    ensures block * (per * DEPTH) + (line * per + slot) == (DEPTH * block + line) * per + slot
  {
    assert block * (per * DEPTH) == DEPTH * (block * per);
    assert (DEPTH * block + line) * per == DEPTH * (block * per) + line * per;
  }

  /** There are as many blocks as the elements need and no more. */
  lemma BlocksNeeded(w: nat, n: nat)
    requires w > 0
    ensures var capacity := if w <= 72 then 72 / w * 4096 else 4096;
            (BlockCount(w, n) - 1) * capacity < n <= BlockCount(w, n) * capacity || n == BlockCount(w, n) == 0
    ensures 72 * ParallelBlocks(w) >= w > 72 * (ParallelBlocks(w) - 1)
  {
    if w <= 72 {
      PerLineBounds(w);
    }
    var capacity := if w <= 72 then 72 / w * 4096 else 4096;
    assert capacity > 0 by { if w <= 72 { TimesMonotone(1, 72 / w, 4096); } }
    CeilingOf(n, capacity);
  }

  lemma CeilingOf(n: nat, d: nat)
    requires d > 0
    ensures var q := (n + d - 1) / d; (q - 1) * d < n <= q * d || n == q == 0
  {
    var q, r := (n + d - 1) / d, (n + d - 1) % d;
    assert n + d - 1 == q * d + r;
    assert (q - 1) * d == q * d - d;
    if n == 0 {
      DivSmall(d - 1, 1, d);
    }
  }

  lemma SlotEnds(slot: nat, per: nat, w: nat)
    requires slot < per && per * w <= LINE
    ensures slot * w + w <= LINE
  {
    assert (slot + 1) * w <= per * w;
  }

  lemma DivBound(i: nat, n: nat, d: nat)
    requires i < n && d > 0
    ensures i / d < (n + d - 1) / d
  {
    var q, r := i / d, i % d;
    assert i == q * d + r;
    assert n + d - 1 >= (q + 1) * d;
    DivAtLeast(n + d - 1, q + 1, d);
  }

  lemma DivAtLeast(a: nat, q: nat, d: nat)
    requires d > 0 && a >= q * d
    ensures a / d >= q
  {
    var e := a / d;
    assert a == e * d + a % d;
    if e < q {
      TimesMonotone(e + 1, q, d);
    }
  }

  lemma TimesMonotone(a: nat, b: nat, d: nat)
    requires a <= b
    ensures a * d <= b * d
  {
  }

  lemma DivSmall(a: nat, q: nat, d: nat)
    requires d > 0 && a < q * d
    ensures a / d < q
  {
  }

  /** Every index in range has a legal address. */
  lemma LocateInRange(w: nat, n: nat, i: nat)
    requires w > 0 && i < n
    ensures var a := Locate(w, i);
            a.block < BlockCount(w, n) && a.line < DEPTH && (w <= LINE ==> a.begin + w <= LINE)
  {
    if w <= LINE {
      PerLineBounds(w);
      var per, block := ElemPerLine(w), ElemPerBlock(w);
      DivBound(i, n, block);
      DivSmall(i % block, DEPTH, per);
      SlotEnds(i % block % per, per, w);
    } else {
      DivBound(i, n, DEPTH);
    }
  }

  lemma SlotOrder(a: nat, b: nat, w: nat)
    requires w > 0 && a < b
    ensures a * w + w <= b * w
  {
    assert (a + 1) * w <= b * w;
  }

  /** Two elements never share a bit: on the same line their bit ranges are disjoint. */
  lemma LocateInjective(w: nat, i: nat, j: nat)
    requires w > 0 && i != j
    ensures var a, b := Locate(w, i), Locate(w, j);
            (a.block, a.line) == (b.block, b.line) ==>
            w <= LINE && (a.begin + w <= b.begin || b.begin + w <= a.begin)
  {
    if w <= LINE {
      PerLineBounds(w);
      var per, block := ElemPerLine(w), ElemPerBlock(w);
      SameDivMod(i, j, block);
      SameDivMod(i % block, j % block, per);
      SlotsApart(i % block % per, j % block % per, w);
    } else {
      SameDivMod(i, j, DEPTH);
    }
  }

  lemma SlotsApart(a: nat, b: nat, w: nat)
    requires w > 0
    ensures a != b ==> a * w + w <= b * w || b * w + w <= a * w
  {
    if a < b {
      SlotOrder(a, b, w);
    } else if b < a {
      SlotOrder(b, a, w);
    }
  }

  lemma SameDivMod(i: nat, j: nat, d: nat)
    requires d > 0
    ensures i / d == j / d && i % d == j % d ==> i == j
  {
    assert i == i / d * d + i % d && j == j / d * d + j % d;
  }
}
