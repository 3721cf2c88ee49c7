/**
 * UramArray: elements of any width packed into 72-bit memory lines, behind a cache of the latest writes, refine a
 * plain array.
 */
module UramMemory {
  import opened Bits
  import opened UramAddress

  type Line = b: Bits | |b| == 72 witness Zeros(72)

  /** The first m lines of an element wider than a line. */
  function Joined(ls: seq<Line>, m: nat): (b: Bits)
    requires m <= |ls|
    ensures |b| == 72 * m
  {
    if m == 0 then [] else Joined(ls, m - 1) + ls[m - 1]
  }

  /** The slice of a wide element that goes to its m-th line, zero extended in the last one. */
  function Chunk(d: Bits, m: nat): Line
    requires |d| > LINE && m < ParallelBlocks(|d|)
  {
    if m == ParallelBlocks(|d|) - 1 then d[72 * m..] + Zeros(72 - (|d| - 72 * m)) else d[72 * m..72 * m + 72]
  }

  lemma {:induction false} JoinedChunks(ls: seq<Line>, d: Bits, m: nat)
    requires |d| > LINE && m <= |ls| == ParallelBlocks(|d|) && forall k :: 0 <= k < m ==> ls[k] == Chunk(d, k)
    ensures m < |ls| ==> Joined(ls, m) == d[..72 * m]
    ensures m == |ls| ==> Joined(ls, m)[..|d|] == d
    decreases m
  {
    hide ParallelBlocks, Chunk;
    if m > 0 {
      JoinedChunks(ls, d, m - 1);
      assert ls[m - 1] == Chunk(d, m - 1);
      ChunkJoins(d, m - 1);
    } else {
      ChunkEnds(d);
    }
  }

  /** A prefix of whole lines and the line behind it. */
  lemma ChunkJoins(d: Bits, k: nat)
    requires |d| > LINE && k < ParallelBlocks(|d|)
    ensures 72 * k <= |d|
    ensures k < ParallelBlocks(|d|) - 1 ==> 72 * k + 72 <= |d| && d[..72 * k] + Chunk(d, k) == d[..72 * k + 72]
    ensures k == ParallelBlocks(|d|) - 1 ==> (d[..72 * k] + Chunk(d, k))[..|d|] == d
  {
    ChunkEnds(d);
    hide ParallelBlocks;
  }

  /** The last line of a wide element is its only partial one. */
  lemma ChunkEnds(d: Bits)
    requires |d| > LINE
    ensures var p := ParallelBlocks(|d|); p > 1 && 72 * (p - 1) < |d| <= 72 * p
  {
  }

  /** What a client does to the array. */
  datatype Op = SetAll(value: Bits) | Put(i: nat, value: Bits)

  /** The plain array after one call and after a history of calls, as the contracts of `MemSet` and `Write` say. */
  function Effect(v: seq<Bits>, op: Op): (r: seq<Bits>)
    ensures |r| == |v|
  {
    match op
    case SetAll(d) => seq(|v|, _ => d)
    case Put(i, d) => if i < |v| then v[i := d] else v
  }

  function History(v: seq<Bits>, ops: seq<Op>): (r: seq<Bits>)
    ensures |r| == |v|
    decreases |ops|
  {
    if ops == [] then v else History(Effect(v, ops[0]), ops[1..])
  }

  /** The last value a history stored at i, scanning back from its end; `first` if it stored none. */
  function LastStored(ops: seq<Op>, i: nat, first: Bits): Bits
    decreases |ops|
  {
    if ops == [] then first
    else
      var op := ops[|ops| - 1];
      if op.SetAll? || op.i == i then op.value else LastStored(ops[..|ops| - 1], i, first)
  }

  lemma {:induction false} HistoryLast(v: seq<Bits>, ops: seq<Op>)
    requires ops != []
    ensures History(v, ops) == Effect(History(v, ops[..|ops| - 1]), ops[|ops| - 1])
    decreases |ops|
  {
    if |ops| > 1 {
      HistoryLast(Effect(v, ops[0]), ops[1..]);
      assert ops[1..][..|ops| - 2] == ops[..|ops| - 1][1..];
    }
  }

  /** After any history of calls the element read at i is the last one stored there. */
  lemma {:induction false} ReadsLastStored(v: seq<Bits>, ops: seq<Op>, i: nat)
    requires i < |v|
    ensures History(v, ops)[i] == LastStored(ops, i, v[i])
    decreases |ops|
  {
    if ops != [] {
      HistoryLast(v, ops);
      ReadsLastStored(v, ops[..|ops| - 1], i);
    }
  }

  /** An array without blocks has no elements. */
  lemma NoBlocks(w: nat, n: nat)
    requires w > 0 && BlockCount(w, n) * ParallelBlocks(w) == 0
    ensures n == 0
  {
    if n > 0 {
      LocateInRange(w, n, 0);
      assert ParallelBlocks(w) > 0 && BlockCount(w, n) > 0;
      Positive(BlockCount(w, n), ParallelBlocks(w));
    }
  }

  lemma Positive(a: nat, b: nat)
    requires a > 0 && b > 0
    ensures a * b > 0
  {
  }

  /** Replacing a range of a line leaves the ranges beside it. */
  lemma SpliceKeeps(line: Line, at: nat, d: Bits, from: nat)
    requires at + |d| <= 72 && from + |d| <= 72 && (at + |d| <= from || from + |d| <= at)
    ensures (line[..at] + d + line[at + |d|..])[from..from + |d|] == line[from..from + |d|]
  {
  }

  class UramArray {
    /** The template parameters: element width, number of elements, cache depth. */
    const w: nat
    const n: nat
    const depth: nat

    const blocks: array3<Line>
    const index: array<int>
    const state: array<Bits>

    ghost predicate Sized() {
      && w > 0 && depth > 0
      && blocks.Length0 == BlockCount(w, n) && blocks.Length1 == ParallelBlocks(w) && blocks.Length2 == DEPTH
      && index.Length == depth && state.Length == depth
    }

    /** The lines that lie side by side at an address. */
    ghost function Lines(x: nat, l: nat): (ls: seq<Line>)
      requires Sized() && x < blocks.Length0 && l < DEPTH
      reads blocks
      ensures |ls| == blocks.Length1 && forall y :: 0 <= y < blocks.Length1 ==> ls[y] == blocks[x, y, l]
    {
      seq(blocks.Length1, y requires 0 <= y < blocks.Length1 reads blocks => blocks[x, y, l])
    }

    /** The element stored at an address. */
    ghost function Stored(a: Address): (b: Bits)
      requires Sized() && a.block < blocks.Length0 && a.line < DEPTH && (w <= LINE ==> a.begin + w <= LINE)
      reads blocks
      ensures |b| == w
    {
      if w <= LINE then blocks[a.block, 0, a.line][a.begin..a.begin + w]
      else Joined(Lines(a.block, a.line), ParallelBlocks(w))[..w]
    }

    ghost function Elem(i: nat): (b: Bits)
      requires Sized() && i < n
      reads blocks
      ensures |b| == w
    {
      LocateInRange(w, n, i);
      Stored(Locate(w, i))
    }

    /** The plain array this object stands for. */
    ghost function View(): (v: seq<Bits>)
      requires Sized()
      reads blocks
      ensures |v| == n && forall i :: 0 <= i < n ==> v[i] == Elem(i)
    {
      seq(n, i requires 0 <= i < n reads blocks => Elem(i))
    }

    /** The newest cache entry of an index holds the element. */
    ghost predicate Coherent(v: seq<Bits>)
      requires Sized() && |v| == n
      reads index, state
    {
      forall k :: 0 <= k < depth && 0 <= index[k] < n && Newest(k) ==> state[k] == v[index[k]]
    }

    ghost predicate Newest(k: nat)
      requires k < index.Length
      reads index
    {
      forall j :: 0 <= j < k ==> index[j] != index[k]
    }

    ghost predicate Valid()
      reads blocks, index, state
    {
      Sized() && Coherent(View())
    }

    /** The memory holds arbitrary lines until it is written. */
    constructor (w: nat, n: nat, depth: nat, garbage: (nat, nat, nat) -> Line)
      requires w > 0 && depth > 0
      ensures this.w == w && this.n == n && this.depth == depth && Valid()
      ensures fresh(blocks) && fresh(index) && fresh(state)
    {
      this.w, this.n, this.depth := w, n, depth;
      blocks := new Line[BlockCount(w, n), ParallelBlocks(w), DEPTH](garbage);
      index := new int[depth](_ => -1);
      state := new Bits[depth](_ => Zeros(w));
    }

    /** A line of block column y in which every element is d. */
    ghost predicate Filled(line: Line, y: nat, d: Bits)
      requires w > 0 && |d| == w && y < ParallelBlocks(w)
    {
      if w <= LINE then forall k :: 0 <= k < ElemPerLine(w) ==> HasAt(line, k * w, d) else line == Chunk(d, y)
    }

    ghost predicate HasAt(line: Line, begin: nat, d: Bits) { begin + |d| <= LINE && line[begin..begin + |d|] == d }

    /** The inner loop of `memSet` for packed elements. */
    method FillLine(t: Line, d: Bits) returns (r: Line)
      requires 0 < w <= LINE && |d| == w
      ensures Filled(r, 0, d)
    {
      PerLineBounds(w);
      r := t;
      for j := 0 to ElemPerLine(w)
        invariant forall k :: 0 <= k < j ==> HasAt(r, k * w, d)
      {
        SlotEnds(j, ElemPerLine(w), w);
        ghost var before := r;
        r := r[..j * w] + d + r[j * w + w..];
        forall k | 0 <= k < j ensures HasAt(r, k * w, d) {
          SlotOrder(k, j, w);
          assert HasAt(before, k * w, d);
          assert r[k * w..k * w + w] == before[k * w..k * w + w];
        }
        assert r[j * w..j * w + w] == d;
      }
    }

    /** The two inner loops of `memSet`: line i of every block. */
    method SetLine(i: nat, d: Bits, t: Line)
      requires Sized() && |d| == w && i < DEPTH
      modifies blocks
      ensures forall x, y :: 0 <= x < blocks.Length0 && 0 <= y < blocks.Length1 ==> Filled(blocks[x, y, i], y, d)
      ensures forall x, y, l :: 0 <= x < blocks.Length0 && 0 <= y < blocks.Length1 && 0 <= l < DEPTH && l != i ==>
                blocks[x, y, l] == old(blocks[x, y, l])
    {
      for nx := 0 to blocks.Length0
        invariant forall x, y :: 0 <= x < nx && 0 <= y < blocks.Length1 ==> Filled(blocks[x, y, i], y, d)
        invariant forall x, y, l :: 0 <= x < blocks.Length0 && 0 <= y < blocks.Length1 && 0 <= l < DEPTH && l != i ==>
                    blocks[x, y, l] == old(blocks[x, y, l])
      {
        for ny := 0 to blocks.Length1
          invariant forall x, y :: 0 <= x < nx && 0 <= y < blocks.Length1 ==> Filled(blocks[x, y, i], y, d)
          invariant forall y :: 0 <= y < ny ==> Filled(blocks[nx, y, i], y, d)
          invariant forall x, y, l :: 0 <= x < blocks.Length0 && 0 <= y < blocks.Length1 && 0 <= l < DEPTH && l != i ==>
                      blocks[x, y, l] == old(blocks[x, y, l])
        {
          if w <= LINE {
            var line := FillLine(t, d);
            blocks[nx, ny, i] := line;
          } else {
            blocks[nx, ny, i] := Chunk(d, ny);
          }
        }
      }
    }

    /** Every element becomes d; returns the number of 4096-line blocks written. */
    method MemSet(d: Bits, uninitialised: Line) returns (count: nat)
      requires Valid() && |d| == w
      modifies blocks, index, state
      ensures count == BlockCount(w, n) * ParallelBlocks(w)
      ensures Valid() && forall i :: 0 <= i < n ==> View()[i] == d
    {
      hide Filled, Elem, BlockCount, ParallelBlocks;
      count := BlockCount(w, n) * ParallelBlocks(w);
      if count == 0 {
        NoBlocks(w, n);
        return;
      }
      SetLines(d, uninitialised);
      forall i | 0 <= i < n ensures View()[i] == d { FilledElem(i, d); }
      ResetCache(d);
    }

    /** The outer loop of `memSet`. */
    method SetLines(d: Bits, uninitialised: Line)
      requires Sized() && |d| == w
      modifies blocks
      ensures forall x, y, l :: 0 <= x < blocks.Length0 && 0 <= y < blocks.Length1 && 0 <= l < DEPTH ==>
                Filled(blocks[x, y, l], y, d)
    {
      hide Filled, BlockCount, ParallelBlocks;
      for i := 0 to DEPTH
        invariant forall x, y, l :: 0 <= x < blocks.Length0 && 0 <= y < blocks.Length1 && 0 <= l < i ==>
                    Filled(blocks[x, y, l], y, d)
      {
        SetLine(i, d, uninitialised);
      }
    }

    /** The cache loop of `memSet`. */
    method ResetCache(d: Bits)
      requires Sized() && |d| == w && forall i :: 0 <= i < n ==> View()[i] == d
      modifies index, state
      ensures Valid()
    {
      for i := 0 to depth
        invariant forall k :: 0 <= k < i ==> state[k] == d && index[k] == 0
      {
        state[i] := d;
        index[i] := 0;
      }
    }

    lemma FilledElem(i: nat, d: Bits)
      requires Sized() && i < n && |d| == w
      requires forall x, y, l :: 0 <= x < blocks.Length0 && 0 <= y < ParallelBlocks(w) && 0 <= l < DEPTH ==>
                 Filled(blocks[x, y, l], y, d)
      ensures Elem(i) == d
    {
      LocateInRange(w, n, i);
      var a := Locate(w, i);
      if w <= LINE {
        PerLineBounds(w);
        assert Filled(blocks[a.block, 0, a.line], 0, d);
        assert HasAt(blocks[a.block, 0, a.line], i % ElemPerBlock(w) % ElemPerLine(w) * w, d);
      } else {
        var ls := Lines(a.block, a.line);
        assert forall y :: 0 <= y < |ls| ==> Filled(ls[y], y, d);
        JoinedChunks(ls, d, |ls|);
      }
    }

    method Read(i: nat) returns (value: Bits)
      requires Valid() && i < n
      ensures value == View()[i]
    {
      for k := 0 to depth
        invariant forall j :: 0 <= j < k ==> index[j] != i
      {
        if i == index[k] {
          return state[k];
        }
      }
      LocateInRange(w, n, i);
      var a := Locate(w, i);
      if w <= LINE {
        value := blocks[a.block, 0, a.line][a.begin..a.begin + w];
      } else {
        value := ReadLines(a);
      }
    }

    /** The loop over the lines of a wide element. */
    method ReadLines(a: Address) returns (value: Bits)
      requires Sized() && w > LINE && a.block < blocks.Length0 && a.line < DEPTH
      ensures value == Stored(a)
    {
      value := Zeros(w);
      var p := ParallelBlocks(w);
      for y := 0 to p
        invariant |value| == w && 72 * y <= w + 71
        invariant value[..ReadBits(y)] == Joined(Lines(a.block, a.line), y)[..ReadBits(y)]
      {
        var begin := y * 72;
        var line := blocks[a.block, y, a.line];
        ghost var ls := Lines(a.block, a.line);
        assert Joined(ls, y + 1) == Joined(ls, y) + line && Joined(ls, y)[..begin] == Joined(ls, y);
        value := if y == p - 1 then value[..begin] + line[..w - begin]
                 else value[..begin] + line + value[begin + 72..];
      }
    }

    /** Bits of a wide element read from its first y lines. */
    function ReadBits(y: nat): nat { if 72 * y >= w then w else 72 * y }

    method Write(i: nat, d: Bits)
      requires Valid() && i < n && |d| == w
      modifies blocks, index, state
      ensures Valid() && View() == old(View())[i := d]
    {
      ghost var before := View();
      Store(i, d);
      label Stored:
      Remember(i, d);
      forall k | 1 <= k < depth && 0 <= index[k] < n && Newest(k) ensures state[k] == View()[index[k]] {
        forall j | 0 <= j < k - 1 ensures old(index[j]) != old(index[k - 1]) {
          assert index[j + 1] != index[k];
        }
        assert old@Stored(Newest(k - 1));
        assert index[0] != index[k];
      }
    }

    /** The cache shift: the new element becomes the newest entry. */
    method Remember(i: nat, d: Bits)
      requires Sized() && i < n && |d| == w
      modifies index, state
      ensures index[0] == i && state[0] == d
      ensures forall k :: 1 <= k < depth ==> index[k] == old(index[k - 1]) && state[k] == old(state[k - 1])
    {
      var k := depth - 1;
      while k >= 1
        invariant 0 <= k < depth
        invariant forall j :: 0 <= j <= k ==> index[j] == old(index[j]) && state[j] == old(state[j])
        invariant forall j :: k < j < depth ==> index[j] == old(index[j - 1]) && state[j] == old(state[j - 1])
      {
        state[k] := state[k - 1];
        index[k] := index[k - 1];
        k := k - 1;
      }
      state[0] := d;
      index[0] := i;
    }

    /** The memory part of `write`. */
    method Store(i: nat, d: Bits)
      requires Sized() && i < n && |d| == w
      modifies blocks
      ensures View() == old(View())[i := d]
    {
      hide Elem;
      if w <= LINE {
        StorePacked(i, d);
      } else {
        StoreWide(i, d);
      }
      assert forall j :: 0 <= j < n ==> View()[j] == old(View())[i := d][j];
    }

    /** An element inside a line. */
    method StorePacked(i: nat, d: Bits)
      requires Sized() && i < n && |d| == w <= LINE
      modifies blocks
      ensures forall j :: 0 <= j < n ==> Elem(j) == if j == i then d else old(Elem(j))
    {
      hide Locate, BlockCount, ElemPerLine;
      LocateInRange(w, n, i);
      var a := Locate(w, i);
      var tmp := blocks[a.block, 0, a.line];
      var line: Line := tmp[..a.begin] + d + tmp[a.begin + w..];
      blocks[a.block, 0, a.line] := line;
      assert line[a.begin..a.begin + w] == d;
      forall j | 0 <= j < n && j != i ensures Elem(j) == old(Elem(j)) {
        LocateInRange(w, n, j);
        LocateInjective(w, i, j);
        var b := Locate(w, j);
        if (a.block, a.line) == (b.block, b.line) {
          SpliceKeeps(tmp, a.begin, d, b.begin);
        }
      }
    }

    /** An element over several lines. */
    method StoreWide(i: nat, d: Bits)
      requires Sized() && i < n && |d| == w > LINE
      modifies blocks
      ensures forall j :: 0 <= j < n ==> Elem(j) == if j == i then d else old(Elem(j))
    {
      hide Locate, BlockCount, ElemPerLine, Chunk;
      LocateInRange(w, n, i);
      var a := Locate(w, i);
      StoreLines(a, d);
      JoinedChunks(Lines(a.block, a.line), d, ParallelBlocks(w));
      forall j | 0 <= j < n && j != i ensures Elem(j) == old(Elem(j)) {
        LocateInRange(w, n, j);
        LocateInjective(w, i, j);
        var b := Locate(w, j);
        assert Lines(b.block, b.line) == old(Lines(b.block, b.line));
      }
    }

    /** The loop over the lines of a wide element. */
    method StoreLines(a: Address, d: Bits)
      requires Sized() && |d| == w > LINE && a.block < blocks.Length0 && a.line < DEPTH
      modifies blocks
      ensures forall x, m, l :: 0 <= x < blocks.Length0 && 0 <= m < blocks.Length1 && 0 <= l < DEPTH ==>
                blocks[x, m, l] == if x == a.block && l == a.line then Chunk(d, m) else old(blocks[x, m, l])
    {
      hide Chunk;
      for y := 0 to ParallelBlocks(w)
        invariant forall x, m, l :: 0 <= x < blocks.Length0 && 0 <= m < blocks.Length1 && 0 <= l < DEPTH ==>
                    blocks[x, m, l] == if x == a.block && l == a.line && m < y then Chunk(d, m)
                                       else old(blocks[x, m, l])
      {
        blocks[a.block, y, a.line] := Chunk(d, y);
      }
    }

    /** What the element width and the number of elements ask of a client. */
    ghost predicate Legal(op: Op) { |op.value| == w && (op.Put? ==> op.i < n) }

    /** A client: any history of calls on one array. */
    method Replay(ops: seq<Op>, uninitialised: Line)
      requires Valid() && forall k :: 0 <= k < |ops| ==> Legal(ops[k])
      modifies blocks, index, state
      ensures Valid() && View() == History(old(View()), ops)
    {
      hide Elem, Coherent, Effect;
      for k := 0 to |ops|
        invariant Valid() && View() == History(old(View()), ops[..k])
      {
        assert Legal(ops[k]);
        assert ops[..k + 1][..k] == ops[..k];
        HistoryLast(old(View()), ops[..k + 1]);
        Call(ops[k], uninitialised);
      }
      assert ops[..|ops|] == ops;
    }

    /** One call of the client. */
    method Call(op: Op, uninitialised: Line)
      requires Valid() && Legal(op)
      modifies blocks, index, state
      ensures Valid() && View() == Effect(old(View()), op)
    {
      hide Elem, Coherent;
      match op {
        case SetAll(d) =>
          var _ := MemSet(d, uninitialised);
        case Put(i, d) =>
          Write(i, d);
      }
    }

    /** After any history of calls a read returns the value last stored at its index. */
    method ReadBack(ops: seq<Op>, i: nat, uninitialised: Line) returns (value: Bits)
      requires Valid() && i < n && forall k :: 0 <= k < |ops| ==> Legal(ops[k])
      modifies blocks, index, state
      ensures Valid() && value == LastStored(ops, i, old(View())[i])
    {
      hide Elem, Coherent, History, LastStored;
      ReadsLastStored(View(), ops, i);
      Replay(ops, uninitialised);
      value := Read(i);
    }
  }
}
