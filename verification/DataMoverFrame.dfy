/**
 * Which octets a write changes: the natural frame of a byte mover, when it holds, and what breaks it at the head and
 * at the tail of a transfer.
 */
module DataMoverFrame {
  import opened Bits
  import opened DataMoverSpec
  import opened DataMoverWrite

  /** Lane k of memory word i is one of the octets addressed. */
  predicate Addressed(saddr: nat, len: nat, i: nat, k: nat) {
    var start := 8 * FirstWord(saddr) + saddr % 8;
    start <= 8 * i + k < start + len
  }

  /** A write changes no octet but those addressed, whatever it stores and whatever was in the memory. */
  ghost predicate KeepsOthers(saddr: nat, len: nat)
    requires InWindow(saddr, len) && SessionFits(saddr)
  {
    forall m: Memory, input: seq<Word>, u: Word, i: nat, k: nat ::
      |input| >= InputWords(len) && i < MEMORY_WORDS && k < 8 && !Addressed(saddr, len, i, k) ==>
        LaneOf(WriteMem(m, saddr, len, input, u), i, k) == LaneOf(m, i, k)
  }

  function LaneOf(m: Memory, i: nat, k: nat): Octet
    requires i < MEMORY_WORDS && k < 8
  {
    WordBytes(m[i])[k]
  }

  /** The transfer ends with a word, and starts with one or in the first word of its session's buffer. */
  predicate Bounded(saddr: nat, len: nat) {
    (saddr + len) % 8 == 0 && (saddr % 8 == 0 || saddr % WINDOW < 8)
  }

  /** A word the loop wrote is not written again. */
  lemma WordWritten(m: Memory, saddr: nat, len: nat, input: seq<Word>, u: Word, j: nat)
    requires Writable(saddr, len, input) && j < InputWords(len)
    ensures FirstWord(saddr) + j < MEMORY_WORDS
    ensures WriteMem(m, saddr, len, input, u)[FirstWord(saddr) + j] == Written(m, saddr, len, input, j)
  {
    hide SetCommon, SessionFits, InWindow, Written, Merge, TailFill, LastShifted, FirstWord, TailLanes, WriteMem,
      Stored;
    SpillInRange(saddr, len);
    StoredWord(m, saddr, len, input, j);
    AsStored(m, saddr, len, input, u, FirstWord(saddr) + j);
  }

  lemma StoredWord(m: Memory, saddr: nat, len: nat, input: seq<Word>, j: nat)
    requires Writable(saddr, len, input) && j < InputWords(len) && FirstWord(saddr) + j < MEMORY_WORDS
    ensures Stored(m, saddr, len, input, InputWords(len))[FirstWord(saddr) + j] == Written(m, saddr, len, input, j)
  {
    hide SetCommon, SessionFits, InWindow, Written, FirstWord;
  }

  /** Only the word behind the last input word may differ from what the loop stored. */
  lemma AsStored(m: Memory, saddr: nat, len: nat, input: seq<Word>, u: Word, i: nat)
    requires Writable(saddr, len, input) && i < MEMORY_WORDS && i != FirstWord(saddr) + InputWords(len)
    ensures WriteMem(m, saddr, len, input, u)[i] == Stored(m, saddr, len, input, InputWords(len))[i]
  {
    hide SetCommon, SessionFits, InWindow, Stored, Merge, TailFill, LastShifted, FirstWord, TailLanes;
  }

  /** An octet of the words of the transfer that is not addressed lies before its start or behind its end. */
  lemma Unaddressed(saddr: nat, len: nat, j: nat, k: nat)
    requires k < 8 && !Addressed(saddr, len, FirstWord(saddr) + j, k)
    ensures 8 * j + k < saddr % 8 || saddr % 8 + len <= 8 * j + k
  {
    hide FirstWord;
  }

  /** In a bounded transfer the only such octets stand in the first word of the buffer, before the start. */
  lemma BoundedEnds(saddr: nat, len: nat, j: nat, k: nat)
    requires Bounded(saddr, len) && len > 0 && k < 8 && j < (saddr % 8 + len + 7) / 8
    requires 8 * j + k < saddr % 8 || saddr % 8 + len <= 8 * j + k
    ensures j == 0 && k < saddr % 8 && saddr % WINDOW / 8 == 0
  {
    AlignedEnd(saddr, len);
  }

  /** A transfer ends where its last word ends exactly when its octets fill up whole words from its first word on. */
  lemma AlignedEnd(saddr: nat, len: nat)
    ensures (saddr + len) % 8 == (saddr % 8 + len) % 8
  {
    AlignedSum(saddr / 8, saddr % 8 + len);
  }

  /** At the start of the buffer the word fetched for the head is the right one. */
  lemma HeadOfBuffer(m: Memory, saddr: nat, len: nat)
    requires InWindow(saddr, len) && SessionFits(saddr) && saddr % 8 > 0 && saddr % WINDOW / 8 == 0
    ensures FirstWord(saddr) < MEMORY_WORDS && HeadFill(m, saddr, len) == m[FirstWord(saddr)]
  {
    CommonFields(saddr, len);
    SpillInRange(saddr, len);
    WordAndByte(saddr);
    hide SetCommon, SessionFits;
  }

  // ---------------------------------------------------------------- what a write leaves in its transfer

  /** The lanes of the spill word that belong to the transfer are those before its end. */
  lemma SpillLaneCount(saddr: nat, len: nat)
    requires InWindow(saddr, len) && Spills(saddr, len) && len > 0
    ensures TailLanes(saddr, len) == saddr % 8 + len - 8 * InputWords(len) <= saddr % 8
  {
    CommonFields(saddr, len);
    hide SetCommon;
    WordAndByte(saddr);
  }

  /** Lane k of the last aligned word, below the offset: the input octet eight before, or zero in the first word. */
  lemma StaleLane(input: seq<Word>, n: nat, off: nat, k: nat)
    requires 0 < n <= |input| && k < off < 8
    ensures WordBytes(Shifted(input, n - 1, off))[k] ==
            if n > 1 then Bytes(input)[8 * (n - 1) + k - off] else Zeros(8)
  {
    hide WordBytes, Bytes, Shifted;
    if n > 1 {
      ShiftedLane(input, n - 1, off, k);
    } else {
      ShiftedBytes(input, 0, off);
      LowSlice(WordBytes(Before(input, 0)), WordBytes(input[0]), off, k);
      ConstantLanes(8 + k - off);
    }
  }

  /**
   * Every octet of a transfer after any write, aligned or not: what the input says up to the end of the last input
   * word; behind it the octet eight places before, or zero if the transfer has no such octet.
   */
  lemma WritesExactly(m: Memory, saddr: nat, len: nat, input: seq<Word>, u: Word, p: nat)
    requires Writable(saddr, len, input) && p < len
    ensures Region(WriteMem(m, saddr, len, input, u), saddr, len)[p] ==
            if saddr % 8 + p < (len + 7) / 8 * 8 then Bytes(input)[p]
            else if p >= 8 then Bytes(input)[p - 8] else Zeros(8)
  {
    hide WriteMem, SetCommon, SessionFits, InWindow, Written, WordBytes, Bytes, Region, TailLanes, TailFill, Merge,
      Shifted, FirstWord;
    var off, n, q := saddr % 8, InputWords(len), saddr % 8 + p;
    RegionAt(WriteMem(m, saddr, len, input, u), saddr, len, p);
    if q < 8 * n {
      WordWritten(m, saddr, len, input, u, q / 8);
      WrittenLane(m, saddr, len, input, q / 8, q % 8);
    } else {
      SpillWord(m, saddr, len, input, u);
      SpillLaneCount(saddr, len);
      MergeLane(TailFill(m, saddr, len), Shifted(input, n - 1, off), 0, TailLanes(saddr, len), q % 8);
      assert q / 8 == n && q % 8 == q - 8 * n;
      StaleLane(input, n, off, q - 8 * n);
    }
  }

  lemma BoundedLane(m: Memory, saddr: nat, len: nat, input: seq<Word>, u: Word, i: nat, k: nat)
    requires Writable(saddr, len, input) && len > 0 && Bounded(saddr, len)
    requires i < MEMORY_WORDS && k < 8 && !Addressed(saddr, len, i, k)
    ensures LaneOf(WriteMem(m, saddr, len, input, u), i, k) == LaneOf(m, i, k)
  {
    hide WriteMem, SetCommon, SessionFits, InWindow, Written, WordBytes, Bounded, Addressed;
    var first := FirstWord(saddr);
    if first <= i < first + (saddr % 8 + len + 7) / 8 {
      var j := i - first;
      Unaddressed(saddr, len, j, k);
      BoundedEnds(saddr, len, j, k);
      HeadLane(m, saddr, len, input, u, k);
    } else {
      WriteFrame(m, saddr, len, input, u, i);
    }
  }

  /** The lanes of the first word before the start come from the word fetched for the head. */
  lemma HeadLane(m: Memory, saddr: nat, len: nat, input: seq<Word>, u: Word, k: nat)
    requires Writable(saddr, len, input) && len > 0 && k < saddr % 8
    ensures FirstWord(saddr) < MEMORY_WORDS
    ensures LaneOf(WriteMem(m, saddr, len, input, u), FirstWord(saddr), k) == WordBytes(HeadFill(m, saddr, len))[k]
    ensures saddr % WINDOW / 8 == 0 ==> HeadFill(m, saddr, len) == m[FirstWord(saddr)]
  {
    WordWritten(m, saddr, len, input, u, 0);
    WordAndByte(saddr);
    MergeLane(HeadFill(m, saddr, len), Shifted(input, 0, saddr % 8), saddr % 8, 8, k);
    if saddr % WINDOW / 8 == 0 {
      HeadOfBuffer(m, saddr, len);
    }
    hide WriteMem, SetCommon, SessionFits, WordBytes, FirstWord, Merge, HeadFill, Shifted;
  }

  // ---------------------------------------------------------------- what else a write changes

  /** A memory of zeros but for one word of ones. */
  function OnesAt(x: nat): Memory {
    seq(MEMORY_WORDS, i => if i == x then ONES_WORD else ZERO_WORD)
  }

  lemma OnesAtLane(x: nat, i: nat, k: nat)
    requires i < MEMORY_WORDS && k < 8
    ensures LaneOf(OnesAt(x), i, k) == if i == x then Ones(8) else Zeros(8)
    ensures Ones(8) != Zeros(8)
  {
    ConstantLanes(k);
    assert Ones(8)[0] != Zeros(8)[0];
  }

  /** An unaligned start behind the first word of the buffer: the head is filled from the word of another address. */
  lemma HeadBroken(saddr: nat, len: nat)
    requires InWindow(saddr, len) && SessionFits(saddr) && len > 0 && saddr % 8 > 0 && saddr % WINDOW >= 8
    ensures !KeepsOthers(saddr, len)
  {
    hide WriteMem, WordBytes, OnesAt, KeepsOthers, SessionFits, InWindow, LaneOf, Addressed;
    var x := HeadAddress(saddr, len);
    var m, input, u := OnesAt(x), seq(InputWords(len), _ => ZERO_WORD), ZERO_WORD;
    HeadWord(m, saddr, len, x);
    HeadLane(m, saddr, len, input, u, 0);
    OnesAtLane(x, FirstWord(saddr), 0);
    OnesAtLane(x, x, 0);
    assert LaneOf(m, x, 0) == WordBytes(m[x])[0] by { LaneIs(m, x, 0); }
    assert !Addressed(saddr, len, FirstWord(saddr), 0) by { BeforeStart(saddr, len); }
    Refutes(saddr, len, m, input, u, FirstWord(saddr), 0);
  }

  lemma LaneIs(m: Memory, i: nat, k: nat)
    requires i < MEMORY_WORDS && k < 8
    ensures LaneOf(m, i, k) == WordBytes(m[i])[k]
  {
  }

  lemma BeforeStart(saddr: nat, len: nat)
    requires saddr % 8 > 0
    ensures !Addressed(saddr, len, FirstWord(saddr), 0)
  {
    hide FirstWord;
  }

  /** The address fetched from: an octet offset taken for a word index. */
  function HeadAddress(saddr: nat, len: nat): (x: nat)
    requires InWindow(saddr, len) && SessionFits(saddr)
    ensures x < MEMORY_WORDS
  {
    TailFillInRange(saddr, len);
    SetCommon(saddr, len).nCurrWordAddr + SetCommon(saddr, len).nBufferAddr
  }

  lemma HeadWord(m: Memory, saddr: nat, len: nat, x: nat)
    requires InWindow(saddr, len) && SessionFits(saddr) && saddr % 8 > 0 && x == HeadAddress(saddr, len)
    ensures HeadFill(m, saddr, len) == m[x]
    ensures saddr % WINDOW >= 8 ==> x != FirstWord(saddr)
  {
    CommonFields(saddr, len);
    WordAndByte(saddr);
    hide SetCommon, SessionFits;
  }

  lemma Refutes(saddr: nat, len: nat, m: Memory, input: seq<Word>, u: Word, i: nat, k: nat)
    requires Writable(saddr, len, input) && i < MEMORY_WORDS && k < 8 && !Addressed(saddr, len, i, k)
    requires LaneOf(WriteMem(m, saddr, len, input, u), i, k) != LaneOf(m, i, k)
    ensures !KeepsOthers(saddr, len)
  {
    hide WriteMem, LaneOf, Addressed;
  }

  /** The lane behind the last octet, in the last word of a transfer that ends inside a word. */
  function EndWord(saddr: nat, len: nat): nat { (saddr % 8 + len) / 8 }

  function EndLane(saddr: nat, len: nat): nat { (saddr % 8 + len) % 8 }

  lemma BehindEnd(saddr: nat, len: nat)
    ensures !Addressed(saddr, len, FirstWord(saddr) + EndWord(saddr, len), EndLane(saddr, len))
  {
    hide FirstWord;
  }

  /** A transfer that ends inside its last input word: the rest of that word is stored as well. */
  lemma TailOverwritten(saddr: nat, len: nat)
    requires InWindow(saddr, len) && SessionFits(saddr) && len > 0 && EndLane(saddr, len) > 0 && !Spills(saddr, len)
    ensures !KeepsOthers(saddr, len)
  {
    hide WriteMem, WordBytes, Bytes, OnesAt, KeepsOthers, SessionFits, InWindow, LaneOf, Addressed, FirstWord, Written;
    var n, j, k := InputWords(len), EndWord(saddr, len), EndLane(saddr, len);
    var m, input, u := OnesAt(MEMORY_WORDS), seq(n, _ => ONES_WORD), ZERO_WORD;
    EndInside(saddr, len);
    WordWritten(m, saddr, len, input, u, j);
    WrittenLane(m, saddr, len, input, j, k);
    BytesAt(input, len);
    ConstantLanes(len % 8);
    OnesAtLane(MEMORY_WORDS, FirstWord(saddr) + j, k);
    LaneIs(WriteMem(m, saddr, len, input, u), FirstWord(saddr) + j, k);
    BehindEnd(saddr, len);
    Refutes(saddr, len, m, input, u, FirstWord(saddr) + j, k);
  }

  lemma EndInside(saddr: nat, len: nat)
    requires len > 0 && EndLane(saddr, len) > 0 && !Spills(saddr, len)
    ensures EndWord(saddr, len) < InputWords(len) && len < 8 * InputWords(len)
    ensures 8 * EndWord(saddr, len) + EndLane(saddr, len) == saddr % 8 + len
  {
  }

  /** A transfer that spills: the rest of its last word is filled from the word of another address. */
  lemma TailBroken(saddr: nat, len: nat)
    requires InWindow(saddr, len) && SessionFits(saddr) && len > 0 && EndLane(saddr, len) > 0 && Spills(saddr, len)
    ensures !KeepsOthers(saddr, len)
  {
    hide WriteMem, WordBytes, OnesAt, KeepsOthers, SessionFits, InWindow, LaneOf, Addressed, FirstWord, TailFill,
      Shifted, Merge, TailLanes;
    var n, k := InputWords(len), EndLane(saddr, len);
    var x := TailAddress(saddr, len);
    var m, input, u := OnesAt(x), seq(n, _ => ZERO_WORD), ZERO_WORD;
    SpillEnds(saddr, len);
    TailWord(m, saddr, len, x);
    SpillWord(m, saddr, len, input, u);
    MergeLane(TailFill(m, saddr, len), Shifted(input, n - 1, saddr % 8), 0, TailLanes(saddr, len), k);
    OnesAtLane(x, FirstWord(saddr) + n, k);
    OnesAtLane(x, x, k);
    LaneIs(m, x, k);
    LaneIs(WriteMem(m, saddr, len, input, u), FirstWord(saddr) + n, k);
    BehindEnd(saddr, len);
    Refutes(saddr, len, m, input, u, FirstWord(saddr) + n, k);
  }

  /** A spilling transfer ends in the word behind its last input word; the merge keeps the lanes behind its end. */
  lemma SpillEnds(saddr: nat, len: nat)
    requires InWindow(saddr, len) && len > 0 && EndLane(saddr, len) > 0 && Spills(saddr, len)
    ensures EndWord(saddr, len) == InputWords(len) && TailLanes(saddr, len) == EndLane(saddr, len)
  {
    CommonFields(saddr, len);
    WordAndByte(saddr);
    hide SetCommon;
  }

  function TailAddress(saddr: nat, len: nat): (x: nat)
    requires InWindow(saddr, len) && SessionFits(saddr)
    ensures x < MEMORY_WORDS
  {
    TailFillInRange(saddr, len);
    SetCommon(saddr, len).nCurrWordAddr + SetCommon(saddr, len).nTransferWords + SetCommon(saddr, len).nBufferAddr
  }

  lemma TailWord(m: Memory, saddr: nat, len: nat, x: nat)
    requires InWindow(saddr, len) && SessionFits(saddr) && len > 0 && EndLane(saddr, len) > 0 && Spills(saddr, len)
    requires x == TailAddress(saddr, len)
    ensures TailFill(m, saddr, len) == m[x] && x != FirstWord(saddr) + InputWords(len)
  {
    hide SetCommon, SessionFits, TailLanes;
    CommonFields(saddr, len);
    WordAndByte(saddr);
    SpillEnds(saddr, len);
    AlignedSum(saddr % WINDOW / 8, saddr % 8 + len - 1);
  }

  /** Behind the transfer, in the spill word: the lanes of the word fetched for the tail. */
  lemma TailLane(m: Memory, saddr: nat, len: nat, input: seq<Word>, u: Word, k: nat)
    requires Writable(saddr, len, input) && len > 0 && Spills(saddr, len)
    requires saddr % 8 + len - 8 * InputWords(len) <= k < 8
    ensures var i, x := FirstWord(saddr) + InputWords(len),
                        saddr / 0x10000 % 256 * 0x10000 + saddr % 0x10000 / 8 * 8 + (saddr % 8 + len + 7) / 8;
            i < |m| && x < |m| && LaneOf(WriteMem(m, saddr, len, input, u), i, k) == LaneOf(m, x, k)
  {
    hide WriteMem, SetCommon, SessionFits, InWindow, WordBytes, TailLanes, TailFill, Merge, Shifted, FirstWord;
    var n := InputWords(len);
    CommonFields(saddr, len);
    SpillWord(m, saddr, len, input, u);
    SpillLaneCount(saddr, len);
    EndsInSpill(saddr, len, k);
    TailWord(m, saddr, len, TailAddress(saddr, len));
    MergeLane(TailFill(m, saddr, len), Shifted(input, n - 1, saddr % 8), 0, TailLanes(saddr, len), k);
    LaneIs(WriteMem(m, saddr, len, input, u), FirstWord(saddr) + n, k);
    LaneIs(m, TailAddress(saddr, len), k);
  }

  lemma EndsInSpill(saddr: nat, len: nat, k: nat)
    requires Spills(saddr, len) && saddr % 8 + len - 8 * InputWords(len) <= k < 8
    ensures EndLane(saddr, len) > 0
  {
  }

  /** What octet k of the x-th octet group a write touches becomes, counted from the word the transfer starts in. */
  function Becomes(m: Memory, saddr: nat, len: nat, input: seq<Word>, x: nat): Octet
    requires Writable(saddr, len, input) && len > 0 && x < (saddr % 8 + len + 7) / 8 * 8
  {
    var base, n, off := saddr / 0x10000 % 256 * 0x10000 + saddr % 0x10000 / 8 * 8, (len + 7) / 8 * 8, saddr % 8;
    FillsInRange(saddr, len);
    if x < off then WordBytes(m[base])[x]
    else if x < n then Bytes(input)[x - off]
    else if x < off + len then (if x - off >= 8 then Bytes(input)[x - off - 8] else Zeros(8))
    else WordBytes(m[base + (off + len + 7) / 8])[x % 8]
  }

  lemma FillsInRange(saddr: nat, len: nat)
    requires InWindow(saddr, len) && SessionFits(saddr)
    ensures saddr / 0x10000 % 256 * 0x10000 + saddr % 0x10000 / 8 * 8 + (saddr % 8 + len + 7) / 8 < MEMORY_WORDS
  {
    CommonFields(saddr, len);
    TailFillInRange(saddr, len);
    hide SetCommon, SessionFits;
  }

  /**
   * The memory after any write that is not empty, octet for octet.  Words outside the transfer stay.  Of the words it
   * touches, the octets before its start are those of the word whose index is the byte address of the first word;
   * then come the octets of the input words, whether they belong to the transfer or not; what is left of the transfer
   * repeats the octets eight places before; and behind it come the octets of a word whose index is that byte address
   * plus the number of words touched.
   */
  lemma WriteOctet(m: Memory, saddr: nat, len: nat, input: seq<Word>, u: Word, i: nat, k: nat)
    requires Writable(saddr, len, input) && len > 0 && i < |m| && k < 8
    ensures var first, words := FirstWord(saddr), (saddr % 8 + len + 7) / 8;
            LaneOf(WriteMem(m, saddr, len, input, u), i, k) ==
            if first <= i < first + words then Becomes(m, saddr, len, input, 8 * (i - first) + k) else LaneOf(m, i, k)
  {
    hide WriteMem, SetCommon, SessionFits, InWindow, Becomes, WordBytes, Bytes;
    var first, words := FirstWord(saddr), (saddr % 8 + len + 7) / 8;
    if first <= i < first + words {
      TouchedOctet(m, saddr, len, input, u, 8 * (i - first) + k);
    } else {
      LaneIs(m, i, k);
      LaneIs(WriteMem(m, saddr, len, input, u), i, k);
      WriteFrame(m, saddr, len, input, u, i);
    }
  }

  lemma InSpill(saddr: nat, len: nat, x: nat)
    requires 8 * InputWords(len) <= x < (saddr % 8 + len + 7) / 8 * 8
    ensures Spills(saddr, len) && x / 8 == InputWords(len) && x % 8 == x - 8 * InputWords(len)
  {
  }

  /** Before the start, in the first word: the lanes of the word fetched for the head. */
  lemma HeadOctet(m: Memory, saddr: nat, len: nat, input: seq<Word>, u: Word, k: nat)
    requires Writable(saddr, len, input) && len > 0 && k < saddr % 8
    ensures var x := saddr / 0x10000 % 256 * 0x10000 + saddr % 0x10000 / 8 * 8;
            FirstWord(saddr) < |m| && x < |m| &&
            LaneOf(WriteMem(m, saddr, len, input, u), FirstWord(saddr), k) == WordBytes(m[x])[k]
  {
    hide WriteMem, SetCommon, SessionFits, InWindow, WordBytes, HeadFill, FirstWord;
    HeadLane(m, saddr, len, input, u, k);
    HeadWord(m, saddr, len, HeadAddress(saddr, len));
    CommonFields(saddr, len);
  }

  lemma TouchedOctet(m: Memory, saddr: nat, len: nat, input: seq<Word>, u: Word, x: nat)
    requires Writable(saddr, len, input) && len > 0 && x < (saddr % 8 + len + 7) / 8 * 8
    ensures var i := FirstWord(saddr) + x / 8;
            i < |m| && LaneOf(WriteMem(m, saddr, len, input, u), i, x % 8) == Becomes(m, saddr, len, input, x)
  {
    hide WriteMem, SetCommon, SessionFits, InWindow, Written, WordBytes, Bytes, Region, TailLanes, TailFill, Merge,
      Shifted, HeadFill, Spills;
    var i, off, n, w := FirstWord(saddr) + x / 8, saddr % 8, InputWords(len), WriteMem(m, saddr, len, input, u);
    SpillInRange(saddr, len);
    FillsInRange(saddr, len);
    LaneIs(w, i, x % 8);
    if x < off {
      assert x / 8 == 0 && x % 8 == x;
      HeadOctet(m, saddr, len, input, u, x);
    } else if x < 8 * n {
      WordWritten(m, saddr, len, input, u, x / 8);
      WrittenLane(m, saddr, len, input, x / 8, x % 8);
    } else if x < off + len {
      WritesExactly(m, saddr, len, input, u, x - off);
      RegionAt(w, saddr, len, x - off);
    } else {
      InSpill(saddr, len, x);
      TailLane(m, saddr, len, input, u, x % 8);
      LaneIs(m, saddr / 0x10000 % 256 * 0x10000 + saddr % 0x10000 / 8 * 8 + (off + len + 7) / 8, x % 8);
    }
  }

  /** An empty write from an aligned address stores nothing. */
  lemma EmptyKeeps(m: Memory, saddr: nat, input: seq<Word>, u: Word)
    requires Writable(saddr, 0, input) && saddr % 8 == 0
    ensures WriteMem(m, saddr, 0, input, u) == m
  {
    WriteAligned(m, saddr, 0, input, u);
    hide WriteMem, FirstWord;
  }

  /** From an unaligned address it spills: the octets of its word before the address come from nowhere. */
  lemma EmptySpills(m: Memory, saddr: nat, input: seq<Word>, u: Word)
    requires Writable(saddr, 0, input) && saddr % 8 > 0
    ensures FirstWord(saddr) < MEMORY_WORDS && TailLanes(saddr, 0) == saddr % 8
    ensures WriteMem(m, saddr, 0, input, u)[FirstWord(saddr)] == Merge(TailFill(m, saddr, 0), u, 0, TailLanes(saddr, 0))
  {
    SpillInRange(saddr, 0);
    EmptyLanes(saddr);
    hide SetCommon, SessionFits, Merge, TailFill, Stored, TailLanes, FirstWord;
  }

  lemma EmptyLanes(saddr: nat)
    requires saddr % 8 > 0
    ensures TailLanes(saddr, 0) == saddr % 8
  {
    WordAndByte(saddr);
    NoWrap(saddr % WINDOW - 1);
  }

  lemma EmptyBroken(saddr: nat)
    requires InWindow(saddr, 0) && SessionFits(saddr) && saddr % 8 > 0
    ensures !KeepsOthers(saddr, 0)
  {
    hide WriteMem, WordBytes, OnesAt, KeepsOthers, SessionFits, InWindow, LaneOf, Addressed, FirstWord, TailFill,
      Merge, TailLanes;
    var m := OnesAt(MEMORY_WORDS);
    EmptySpills(m, saddr, [], ONES_WORD);
    MergeLane(TailFill(m, saddr, 0), ONES_WORD, 0, TailLanes(saddr, 0), 0);
    ConstantLanes(0);
    OnesAtLane(MEMORY_WORDS, FirstWord(saddr), 0);
    LaneIs(WriteMem(m, saddr, 0, [], ONES_WORD), FirstWord(saddr), 0);
    BeforeStart(saddr, 0);
    Refutes(saddr, 0, m, [], ONES_WORD, FirstWord(saddr), 0);
  }

  /**
   * A write leaves every other octet alone exactly when it ends with a word and starts with one, or in the first word
   * of its buffer; an empty write, when its address is aligned.
   */
  lemma KeepsOthersIffBounded(saddr: nat, len: nat)
    requires InWindow(saddr, len) && SessionFits(saddr)
    ensures KeepsOthers(saddr, len) <==> Bounded(saddr, len)
  {
    hide WriteMem, SessionFits, InWindow, LaneOf, Addressed, Spills;
    AlignedEnd(saddr, len);
    if Bounded(saddr, len) {
      forall m: Memory, input: seq<Word>, u: Word, i: nat, k: nat
        | |input| >= InputWords(len) && i < MEMORY_WORDS && k < 8 && !Addressed(saddr, len, i, k)
        ensures LaneOf(WriteMem(m, saddr, len, input, u), i, k) == LaneOf(m, i, k)
      {
        if len == 0 {
          EmptyKeeps(m, saddr, input, u);
        } else {
          BoundedLane(m, saddr, len, input, u, i, k);
        }
      }
    } else {
      hide KeepsOthers;
      if len == 0 {
        EmptyBroken(saddr);
      } else if EndLane(saddr, len) == 0 {
        HeadBroken(saddr, len);
      } else if Spills(saddr, len) {
        TailBroken(saddr, len);
      } else {
        TailOverwritten(saddr, len);
      }
    }
  }

  /** Seven octets written at address 9 put the first octet of word 8 in place of octet 8. */
  lemma HeadInstance(m: Memory, input: seq<Word>, u: Word)
    requires |input| >= 1
    ensures Writable(9, 7, input) && !Addressed(9, 7, 1, 0)
    ensures LaneOf(WriteMem(m, 9, 7, input, u), 1, 0) == LaneOf(m, 8, 0)
  {
    hide WriteMem, WordBytes;
    assert HeadAddress(9, 7) == 8 && FirstWord(9) == 1;
    HeadWord(m, 9, 7, 8);
    HeadLane(m, 9, 7, input, u, 0);
  }

  /** Three octets written at address 0 put the fourth octet of the input in place of octet 3. */
  lemma TailInstance(m: Memory, input: seq<Word>, u: Word)
    requires |input| >= 1
    ensures Writable(0, 3, input) && !Addressed(0, 3, 0, 3)
    ensures LaneOf(WriteMem(m, 0, 3, input, u), 0, 3) == WordBytes(input[0])[3]
  {
    hide WriteMem, WordBytes, Written, Bytes;
    assert FirstWord(0) == 0;
    WordWritten(m, 0, 3, input, u, 0);
    WrittenLane(m, 0, 3, input, 0, 3);
    BytesAt(input, 3);
  }
}
