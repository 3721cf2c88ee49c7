/**
 * The write command of the data mover: what it leaves in the memory for every start address and length, and when
 * that is what was asked for.
 */
module DataMoverWrite {
  import opened Bits
  import opened DataMoverSpec

  /** Words on the slave interface. */
  function InputWords(len: nat): nat { (len + 7) / 8 }

  /** Octet lanes lo..hi of one word over another. */
  function Merge(base: Word, over: Word, lo: nat, hi: nat): Word {
    seq(64, b requires 0 <= b < 64 => if lo <= b / 8 < hi then over[b] else base[b])
  }

  /** The octets of the previous input word that spill into this one. */
  function Carry(input: seq<Word>, j: nat, off: nat): Word
    requires j <= |input|
  {
    if j == 0 || off == 0 then Zeros(64) else RightShiftOctets(input[j - 1], (8 - off) % 8)
  }

  /** Input word j as aligned for memory. */
  function Shifted(input: seq<Word>, j: nat, off: nat): Word
    requires j < |input|
  {
    Or(LeftShiftOctets(input[j], off), Carry(input, j, off))
  }

  /** A write that can be carried out: inside its session buffer, with its data on the interface. */
  predicate Writable(saddr: nat, len: nat, input: seq<Word>) {
    InWindow(saddr, len) && SessionFits(saddr) && |input| >= InputWords(len)
  }

  /** The word fetched to fill the lanes before an unaligned start. The address is in octets, the memory in words. */
  function HeadFill(m: Memory, saddr: nat, len: nat): Word
    requires InWindow(saddr, len) && SessionFits(saddr)
  {
    TailFillInRange(saddr, len);
    var cv := SetCommon(saddr, len);
    if saddr % WINDOW > cv.nCurrWordAddr then m[cv.nCurrWordAddr + cv.nBufferAddr] else Zeros(64)
  }

  /** Inside a session buffer none of the counters wraps. */
  lemma CommonFields(saddr: nat, len: nat)
    requires InWindow(saddr, len)
    ensures var cv := SetCommon(saddr, len);
            cv.nTransferWords == (saddr % 8 + len + 7) / 8 && cv.nBufferAddr == saddr / 0x10000 % 256 * 0x10000
            && cv.nCurrWordAddr == saddr % WINDOW / 8 * 8
    ensures len > 0 ==> SetCommon(saddr, len).taddr == saddr % WINDOW + len - 1
  {
    BufferAddress(saddr, len);
    WordCount(saddr % 8, len);
    if len > 0 {
      NoWrap(saddr % WINDOW + len - 1);
    }
  }

  lemma WordCount(start: nat, len: nat)
    requires start < 8 && len <= WINDOW
    ensures ((len + start) % 0x80_0000 + 7) / 8 % 0x10000 == (start + len + 7) / 8
  {
  }

  lemma NoWrap(x: nat)
    requires x < WINDOW
    ensures x % WINDOW == x
  {
  }

  lemma TailFillInRange(saddr: nat, len: nat)
    requires InWindow(saddr, len) && SessionFits(saddr)
    ensures var cv := SetCommon(saddr, len);
            cv.nCurrWordAddr + cv.nTransferWords + cv.nBufferAddr < MEMORY_WORDS
            && cv.nCurrWordAddr / 8 + cv.nTransferWords <= 8192
  {
    CommonFields(saddr, len);
    BufferFits(saddr);
    hide SetCommon, SessionFits;
    WindowWords(saddr % WINDOW, len);
    WordAndByte(saddr);
  }

  lemma BufferFits(saddr: nat)
    requires SessionFits(saddr)
    ensures SetCommon(saddr, 0).nBufferAddr == saddr / 0x10000 % 256 * 0x10000 <= 3 * WINDOW
  {
    BufferAddress(saddr, 0);
  }

  lemma WindowWords(a: nat, len: nat)
    requires a + len <= WINDOW
    ensures a / 8 + (a % 8 + len + 7) / 8 <= 8192
    ensures a / 8 * 8 + (a % 8 + len + 7) / 8 < WINDOW || a == WINDOW
  {
    var q := a / 8;
    assert a == 8 * q + a % 8;
  }

  function TailFill(m: Memory, saddr: nat, len: nat): Word
    requires InWindow(saddr, len) && SessionFits(saddr)
  {
    TailFillInRange(saddr, len);
    var cv := SetCommon(saddr, len);
    if cv.taddr % 8 != 7 then m[cv.nCurrWordAddr + cv.nTransferWords + cv.nBufferAddr] else Zeros(64)
  }

  /** The word that replaces word j of the transfer. */
  function Written(m: Memory, saddr: nat, len: nat, input: seq<Word>, j: nat): Word
    requires Writable(saddr, len, input) && j < InputWords(len)
  {
    var s := Shifted(input, j, saddr % 8);
    if saddr % WINDOW / 8 * 8 + 8 * j < saddr % WINDOW then Merge(HeadFill(m, saddr, len), s, saddr % 8, 8) else s
  }

  /** The memory once n input words have been stored. */
  function Stored(m: Memory, saddr: nat, len: nat, input: seq<Word>, n: nat): Memory
    requires Writable(saddr, len, input) && n <= InputWords(len)
  {
    seq(MEMORY_WORDS, i requires 0 <= i < MEMORY_WORDS => StoredAt(m, saddr, len, input, n, i))
  }

  function StoredAt(m: Memory, saddr: nat, len: nat, input: seq<Word>, n: nat, i: nat): Word
    requires Writable(saddr, len, input) && n <= InputWords(len) && i < MEMORY_WORDS
  {
    var first := FirstWord(saddr);
    if first <= i < first + n then Written(m, saddr, len, input, i - first) else m[i]
  }

  /** Whether the transfer reaches into a word behind the last input word. */
  predicate Spills(saddr: nat, len: nat) { (saddr % 8 + len + 7) / 8 > InputWords(len) }

  /** The last aligned input word; the variable is uninitialised when there was none. */
  function LastShifted(saddr: nat, len: nat, input: seq<Word>, uninitialised: Word): Word
    requires Writable(saddr, len, input)
  {
    if InputWords(len) == 0 then uninitialised else Shifted(input, InputWords(len) - 1, saddr % 8)
  }

  /** Lanes of the spill word that belong to the transfer. */
  function TailLanes(saddr: nat, len: nat): nat {
    var cv := SetCommon(saddr, len);
    var next := cv.nCurrWordAddr + 8 * InputWords(len);
    if cv.taddr < next then 0 else cv.taddr + 1 - next
  }

  /** The memory after a write command. */
  function WriteMem(m: Memory, saddr: nat, len: nat, input: seq<Word>, uninitialised: Word): Memory
    requires Writable(saddr, len, input)
  {
    var n := InputWords(len);
    var stored := Stored(m, saddr, len, input, n);
    if Spills(saddr, len) then
      SpillInRange(saddr, len);
      stored[FirstWord(saddr) + n := Merge(TailFill(m, saddr, len), LastShifted(saddr, len, input, uninitialised), 0,
                                           TailLanes(saddr, len))]
    else stored
  }

  lemma SpillInRange(saddr: nat, len: nat)
    requires InWindow(saddr, len) && SessionFits(saddr)
    ensures FirstWord(saddr) + InputWords(len) <= FirstWord(saddr) + (saddr % 8 + len + 7) / 8
    ensures FirstWord(saddr) + (saddr % 8 + len + 7) / 8 <= SetCommon(saddr, 0).nBufferAddr + 8192 < MEMORY_WORDS
  {
    hide SetCommon, SessionFits;
    TailFillInRange(saddr, len);
    CommonFields(saddr, len);
    BufferFits(saddr);
    InputWithin(saddr % 8, len);
  }

  lemma InputWithin(start: nat, len: nat)
    ensures InputWords(len) <= (start + len + 7) / 8
  {
  }

  /** No write, aligned or not, touches a word outside its transfer. */
  lemma WriteFrame(m: Memory, saddr: nat, len: nat, input: seq<Word>, u: Word, i: nat)
    requires Writable(saddr, len, input) && i < |m|
    requires var first := saddr / 0x10000 % 256 * 0x10000 + saddr % 0x10000 / 8;
             !(first <= i < first + (saddr % 8 + len + 7) / 8)
    ensures WriteMem(m, saddr, len, input, u)[i] == m[i]
  {
    SpillInRange(saddr, len);
    hide Written, Merge, TailFill, SetCommon;
  }

  /** Reads of another session see the same octets. */
  lemma OtherSessionUnchanged(m: Memory, saddr: nat, len: nat, input: seq<Word>, u: Word, saddr2: nat, len2: nat)
    requires Writable(saddr, len, input) && InWindow(saddr2, len2) && SessionFits(saddr2)
    requires saddr / 0x10000 % 256 != saddr2 / 0x10000 % 256
    ensures Region(WriteMem(m, saddr, len, input, u), saddr2, len2) == Region(m, saddr2, len2)
  {
    var w, first, k := WriteMem(m, saddr, len, input, u), FirstWord(saddr2), (saddr2 % 8 + len2 + 7) / 8;
    SpillInRange(saddr, len);
    SpillInRange(saddr2, len2);
    TailFillInRange(saddr2, len2);
    hide WriteMem;
    forall i | first <= i < first + k ensures w[i] == m[i] { WriteFrame(m, saddr, len, input, u, i); }
    assert w[first..first + k] == m[first..first + k];
  }

  // ---------------------------------------------------------------- aligned writes

  lemma ShiftedAligned(input: seq<Word>, j: nat)
    requires j < |input|
    ensures Shifted(input, j, 0) == input[j]
  {
    LeftShifts(input[j], 0);
    ShiftByZero(input[j]);
  }

  /** An aligned write stores the input words, whole. */
  lemma WriteAligned(m: Memory, saddr: nat, len: nat, input: seq<Word>, u: Word)
    requires Writable(saddr, len, input) && saddr % 8 == 0
    ensures var first, n := FirstWord(saddr), InputWords(len);
            first + n <= MEMORY_WORDS && WriteMem(m, saddr, len, input, u) == m[..first] + input[..n] + m[first + n..]
  {
    hide SetCommon, WriteMem, SessionFits, InWindow;
    var first, n, w := FirstWord(saddr), InputWords(len), WriteMem(m, saddr, len, input, u);
    SpillInRange(saddr, len);
    forall i | 0 <= i < MEMORY_WORDS ensures w[i] == if first <= i < first + n then input[i - first] else m[i] {
      if first <= i < first + n {
        WriteAlignedAt(m, saddr, len, input, u, i);
      } else {
        WriteFrame(m, saddr, len, input, u, i);
      }
    }
    assert w == m[..first] + input[..n] + m[first + n..];
  }

  lemma WriteAlignedAt(m: Memory, saddr: nat, len: nat, input: seq<Word>, u: Word, i: nat)
    requires Writable(saddr, len, input) && saddr % 8 == 0
    requires FirstWord(saddr) <= i < FirstWord(saddr) + InputWords(len) && i < MEMORY_WORDS
    ensures WriteMem(m, saddr, len, input, u)[i] == input[i - FirstWord(saddr)]
  {
    SpillInRange(saddr, len);
    hide SetCommon, Shifted;
    ShiftedAligned(input, i - FirstWord(saddr));
    WordAndByte(saddr);
  }

  lemma {:induction false} BytesAt(ws: seq<Word>, p: nat)
    requires p < 8 * |ws|
    ensures Bytes(ws)[p] == WordBytes(ws[p / 8])[p % 8]
    decreases |ws|
  {
    hide WordBytes;
    if p >= 8 {
      BytesAt(ws[1..], p - 8);
    }
  }

  /** Octet p of a region, counted from the word it starts in. */
  lemma RegionAt(m: Memory, saddr: nat, len: nat, p: nat)
    requires InWindow(saddr, len) && SessionFits(saddr) && p < len
    ensures var q := saddr % 8 + p;
            FirstWord(saddr) + q / 8 < MEMORY_WORDS
            && Region(m, saddr, len)[p] == WordBytes(m[FirstWord(saddr) + q / 8])[q % 8]
  {
    hide SetCommon, WordBytes, Bytes, SessionFits;
    SpillInRange(saddr, len);
    CommonFields(saddr, len);
    var first, k := FirstWord(saddr), (saddr % 8 + len + 7) / 8;
    BytesAt(m[first..first + k], saddr % 8 + p);
  }

  /** Octet p of a transfer: eight bits of a word that the raw address names. */
  lemma RegionOctet(m: Memory, saddr: nat, len: nat, p: nat)
    requires saddr / 0x10000 % 256 < 4 && saddr % 0x10000 + len <= 0x10000 && p < len
    ensures var word, lane := saddr / 0x10000 % 256 * 0x10000 + (saddr % 0x10000 + p) / 8, (saddr + p) % 8;
            word < |m| && Region(m, saddr, len)[p] == m[word][8 * lane..8 * lane + 8]
  {
    assert InWindow(saddr, len) && SessionFits(saddr);
    hide Region, SessionFits, InWindow;
    RegionAt(m, saddr, len, p);
    WordAndByte(saddr);
    AlignedSum(saddr % WINDOW / 8, saddr % 8 + p);
    AlignedSum(saddr / 8, saddr % 8 + p);
  }

  lemma SameBuffer(saddr: nat, at: nat)
    requires SessionFits(saddr) && saddr % WINDOW + at < WINDOW
    ensures SessionFits(saddr + at) && (saddr + at) % WINDOW == saddr % WINDOW + at
    ensures (saddr + at) / 0x10000 % 256 == saddr / 0x10000 % 256
  {
    assert (saddr + at) / WINDOW == saddr / WINDOW;
  }

  /** Octet p of a transfer that starts `at` octets behind an aligned address. */
  lemma SameWord(saddr: nat, at: nat, p: nat)
    requires SessionFits(saddr) && saddr % 8 == 0 && saddr % WINDOW + at < WINDOW
    ensures var q := (saddr + at) % 8 + p;
            FirstWord(saddr + at) + q / 8 == FirstWord(saddr) + (at + p) / 8 && q % 8 == (at + p) % 8
  {
    SameBuffer(saddr, at);
    hide SetCommon, SessionFits;
    WordAndByte(saddr);
    AlignedSum(saddr % WINDOW / 8, at);
    AlignedSum(saddr / 8, at);
    CarryInto(at, p);
  }

  lemma CarryInto(at: nat, p: nat)
    ensures at / 8 + (at % 8 + p) / 8 == (at + p) / 8 && (at % 8 + p) % 8 == (at + p) % 8
  {
    AlignedSum(at / 8, at % 8 + p);
  }

  /** After an aligned write, any read inside its range returns the written octets. */
  lemma ReadsWhatWasWritten(m: Memory, saddr: nat, len: nat, input: seq<Word>, u: Word, at: nat, len2: nat)
    requires Writable(saddr, len, input) && saddr % 8 == 0 && len2 > 0 && at + len2 <= len
    ensures InWindow(saddr + at, len2) && SessionFits(saddr + at)
    ensures Region(WriteMem(m, saddr, len, input, u), saddr + at, len2) == Bytes(input)[at..at + len2]
  {
    SameBuffer(saddr, at);
    var r := Region(WriteMem(m, saddr, len, input, u), saddr + at, len2);
    forall p | 0 <= p < len2 ensures r[p] == Bytes(input)[at..at + len2][p] {
      ReadsOctet(m, saddr, len, input, u, at, len2, p);
    }
  }

  lemma ReadsOctet(m: Memory, saddr: nat, len: nat, input: seq<Word>, u: Word, at: nat, len2: nat, p: nat)
    requires Writable(saddr, len, input) && saddr % 8 == 0 && at + len2 <= len && p < len2
    ensures InWindow(saddr + at, len2) && SessionFits(saddr + at)
    ensures Region(WriteMem(m, saddr, len, input, u), saddr + at, len2)[p] == Bytes(input)[at + p]
  {
    hide Region, SetCommon, SessionFits, WordBytes, Bytes, WriteMem, FirstWord;
    SameBuffer(saddr, at);
    RegionAt(WriteMem(m, saddr, len, input, u), saddr + at, len2, p);
    SameWord(saddr, at, p);
    BytesAt(input, at + p);
    AlignedWord(m, saddr, len, input, u, (at + p) / 8);
  }

  lemma AlignedWord(m: Memory, saddr: nat, len: nat, input: seq<Word>, u: Word, j: nat)
    requires Writable(saddr, len, input) && saddr % 8 == 0 && j < InputWords(len)
    ensures FirstWord(saddr) + j < MEMORY_WORDS && WriteMem(m, saddr, len, input, u)[FirstWord(saddr) + j] == input[j]
  {
    hide WriteMem, SetCommon, SessionFits;
    WriteAligned(m, saddr, len, input, u);
  }

  // ---------------------------------------------------------------- unaligned writes

  /** The octets a write is asked to store arrive, whatever they are and whatever was in the memory. */
  ghost predicate Delivers(saddr: nat, len: nat)
    requires InWindow(saddr, len) && SessionFits(saddr)
  {
    forall m: Memory, input: seq<Word>, u: Word :: |input| >= InputWords(len) ==>
      Region(WriteMem(m, saddr, len, input, u), saddr, len) == Bytes(input)[..len]
  }

  lemma ZeroShifts(n: nat)
    requires n < 8
    ensures RightShiftOctets(Zeros(64), n) == Zeros(64)
  {
    RightShifts(Zeros(64), n);
  }

  /** The input word before word j; zeros before the first. */
  function Before(input: seq<Word>, j: nat): Word
    requires j <= |input|
  {
    if j == 0 then Zeros(64) else input[j - 1]
  }

  /** Each aligned word is the end of one input word and the beginning of the next. */
  lemma ShiftedBytes(input: seq<Word>, j: nat, off: nat)
    requires j < |input| && 0 < off < 8
    ensures WordBytes(Shifted(input, j, off)) == (WordBytes(Before(input, j)) + WordBytes(input[j]))[8 - off..16 - off]
  {
    hide WordBytes, RightShiftOctets, LeftShiftOctets, Or;
    ZeroShifts(8 - off);
    RealignedBytes(Before(input, j), input[j], 8 - off);
    assert (8 - (8 - off)) % 8 == off && (8 - off) % 8 == 8 - off;
  }

  /** Lane k of an aligned word is input octet 8j + k - off. */
  lemma ShiftedLane(input: seq<Word>, j: nat, off: nat, k: nat)
    requires j < |input| && off < 8 && k < 8 && 8 * j + k >= off
    ensures WordBytes(Shifted(input, j, off))[k] == Bytes(input)[8 * j + k - off]
  {
    hide WordBytes, Bytes, Shifted, Before;
    InputLane(input, j, k, off);
    if off == 0 {
      ShiftedAligned(input, j);
    } else {
      ShiftedBytes(input, j, off);
      if k < off {
        BeforeIs(input, j);
        LowSlice(WordBytes(Before(input, j)), WordBytes(input[j]), off, k);
      } else {
        HighSlice(WordBytes(Before(input, j)), WordBytes(input[j]), off, k);
      }
    }
  }

  /** Input octet 8j + k - off, by the word it is in. */
  lemma InputLane(input: seq<Word>, j: nat, k: nat, off: nat)
    requires j < |input| && off < 8 && k < 8 && 8 * j + k >= off
    ensures k < off ==> j > 0 && Bytes(input)[8 * j + k - off] == WordBytes(input[j - 1])[8 + k - off]
    ensures k >= off ==> Bytes(input)[8 * j + k - off] == WordBytes(input[j])[k - off]
  {
    hide WordBytes, Bytes;
    LaneIndex(j, k, off);
    BytesAt(input, 8 * j + k - off);
  }

  lemma BeforeIs(input: seq<Word>, j: nat)
    requires 0 < j <= |input|
    ensures Before(input, j) == input[j - 1]
  {
  }

  lemma LowSlice(a: seq<Octet>, b: seq<Octet>, off: nat, k: nat)
    requires |a| == |b| == 8 && k < off < 8
    ensures (a + b)[8 - off..16 - off][k] == a[8 + k - off]
  {
  }

  lemma HighSlice(a: seq<Octet>, b: seq<Octet>, off: nat, k: nat)
    requires |a| == |b| == 8 && off <= k < 8
    ensures (a + b)[8 - off..16 - off][k] == b[k - off]
  {
  }

  lemma LaneIndex(j: nat, k: nat, off: nat)
    requires off < 8 && k < 8 && 8 * j + k >= off
    ensures var i := 8 * j + k - off;
            if k < off then i / 8 == j - 1 && i % 8 == 8 + k - off else i / 8 == j && i % 8 == k - off
  {
  }

  lemma MergeLane(base: Word, over: Word, lo: nat, hi: nat, k: nat)
    requires k < 8
    ensures WordBytes(Merge(base, over, lo, hi))[k] == if lo <= k < hi then WordBytes(over)[k] else WordBytes(base)[k]
  {
    var w := Merge(base, over, lo, hi);
    assert forall b :: 8 * k <= b < 8 * k + 8 ==> b / 8 == k;
    assert w[8 * k..8 * k + 8] == (if lo <= k < hi then over else base)[8 * k..8 * k + 8];
  }

  /** Lane k of a word written by the loop, from the start address on. */
  lemma WrittenLane(m: Memory, saddr: nat, len: nat, input: seq<Word>, j: nat, k: nat)
    requires Writable(saddr, len, input) && j < InputWords(len) && k < 8 && 8 * j + k >= saddr % 8
    ensures WordBytes(Written(m, saddr, len, input, j))[k] == Bytes(input)[8 * j + k - saddr % 8]
  {
    hide WordBytes, Bytes, Shifted, Merge, HeadFill;
    WordAndByte(saddr);
    MergeLane(HeadFill(m, saddr, len), Shifted(input, j, saddr % 8), saddr % 8, 8, k);
    ShiftedLane(input, j, saddr % 8, k);
  }

  lemma DeliversWithoutSpill(m: Memory, saddr: nat, len: nat, input: seq<Word>, u: Word)
    requires Writable(saddr, len, input) && !Spills(saddr, len)
    ensures Region(WriteMem(m, saddr, len, input, u), saddr, len) == Bytes(input)[..len]
  {
    var r := Region(WriteMem(m, saddr, len, input, u), saddr, len);
    hide WriteMem, Region, Bytes;
    forall p | 0 <= p < len ensures r[p] == Bytes(input)[..len][p] { DeliversOctet(m, saddr, len, input, u, p); }
  }

  lemma DeliversOctet(m: Memory, saddr: nat, len: nat, input: seq<Word>, u: Word, p: nat)
    requires Writable(saddr, len, input) && !Spills(saddr, len) && p < len
    ensures Region(WriteMem(m, saddr, len, input, u), saddr, len)[p] == Bytes(input)[p]
  {
    hide WordBytes, Bytes, Region, Written, SetCommon, SessionFits;
    var q := saddr % 8 + p;
    RegionAt(WriteMem(m, saddr, len, input, u), saddr, len, p);
    WrittenLane(m, saddr, len, input, q / 8, q % 8);
  }

  /** An input whose spilled octets are all ones, everything before them zero. */
  function Witness(n: nat): seq<Word>
    requires n > 0
  {
    seq(n, j => if j == n - 1 then ONES_WORD else ZERO_WORD)
  }

  const ONES_WORD: Word := Ones(64)
  const ZERO_WORD: Word := Zeros(64)

  /** The first spilled octet is lost: its place gets an octet of the word before. */
  lemma SpillLosesOctet(m: Memory, saddr: nat, len: nat, u: Word)
    requires InWindow(saddr, len) && SessionFits(saddr) && Spills(saddr, len) && len > 0
    ensures var input := Witness(InputWords(len)); var p := 8 * InputWords(len) - saddr % 8;
            p < len && WordBytes(WriteMem(m, saddr, len, input, u)[FirstWord(saddr) + InputWords(len)])[0] == Zeros(8)
            && Bytes(input)[p] == Ones(8)
  {
    hide SetCommon, SessionFits, InWindow, Merge, TailFill, Shifted, Stored, WordBytes, Bytes, WriteMem, TailLanes,
      FirstWord;
    var n, off := InputWords(len), saddr % 8;
    var input := Witness(n);
    TailHasLane(saddr, len);
    SpillWord(m, saddr, len, input, u);
    MergeLane(TailFill(m, saddr, len), Shifted(input, n - 1, off), 0, TailLanes(saddr, len), 0);
    SpillLanes(n, off);
    SpillsInside(saddr, len);
  }

  lemma SpillsInside(saddr: nat, len: nat)
    requires Spills(saddr, len) && len > 0
    ensures saddr % 8 > 0 && InputWords(len) > 0 && 8 * InputWords(len) - saddr % 8 < len
  {
  }

  /** The word behind the last input word. */
  lemma SpillWord(m: Memory, saddr: nat, len: nat, input: seq<Word>, u: Word)
    requires Writable(saddr, len, input) && Spills(saddr, len) && len > 0
    ensures FirstWord(saddr) + InputWords(len) < MEMORY_WORDS
    ensures WriteMem(m, saddr, len, input, u)[FirstWord(saddr) + InputWords(len)] ==
            Merge(TailFill(m, saddr, len), Shifted(input, InputWords(len) - 1, saddr % 8), 0, TailLanes(saddr, len))
  {
    SpillInRange(saddr, len);
    hide SetCommon, SessionFits, Merge, TailFill, Shifted, Stored, TailLanes, FirstWord;
  }

  lemma TailHasLane(saddr: nat, len: nat)
    requires InWindow(saddr, len) && Spills(saddr, len) && len > 0
    ensures TailLanes(saddr, len) > 0
  {
    CommonFields(saddr, len);
    hide SetCommon;
    WordAndByte(saddr);
  }

  lemma SpillLanes(n: nat, off: nat)
    requires n > 0 && 0 < off < 8
    ensures WordBytes(Shifted(Witness(n), n - 1, off))[0] == Zeros(8)
    ensures Bytes(Witness(n))[8 * n - off] == Ones(8)
  {
    hide Bytes, Shifted, WordBytes;
    ShiftedBytes(Witness(n), n - 1, off);
    BytesAt(Witness(n), 8 * n - off);
    ConstantLanes(8 - off);
  }

  lemma ConstantLanes(k: nat)
    requires k < 8
    ensures WordBytes(ZERO_WORD)[k] == Zeros(8) && WordBytes(ONES_WORD)[k] == Ones(8)
  {
  }

  /** A write that spills loses an octet of the witness. */
  lemma SpillFails(saddr: nat, len: nat)
    requires InWindow(saddr, len) && SessionFits(saddr) && len > 0 && Spills(saddr, len)
    ensures !Delivers(saddr, len)
  {
    hide WriteMem, Region, Bytes, WordBytes, SessionFits, SetCommon, InWindow;
    var m: Memory := seq(MEMORY_WORDS, _ => Zeros(64));
    var n, u := InputWords(len), Zeros(64);
    var p := 8 * n - saddr % 8;
    SpillLosesOctet(m, saddr, len, u);
    var lost := Region(WriteMem(m, saddr, len, Witness(n), u), saddr, len);
    RegionAt(WriteMem(m, saddr, len, Witness(n), u), saddr, len, p);
    assert Ones(8)[0] != Zeros(8)[0];
    assert |lost| == len && lost[p] != Bytes(Witness(n))[..len][p];
  }

  /**
   * The octets of a write always arrive exactly when there are none, or the transfer does not reach into a word behind
   * its last input word: aligned starts, and unaligned ones whose last octets still fit.
   */
  lemma DeliversIffNoSpill(saddr: nat, len: nat)
    requires InWindow(saddr, len) && SessionFits(saddr)
    ensures Delivers(saddr, len) <==> len == 0 || !Spills(saddr, len)
  {
    hide WriteMem, Region, Bytes, WordBytes, SessionFits, SetCommon;
    if len == 0 {
      assert Delivers(saddr, len);
    } else if Spills(saddr, len) {
      SpillFails(saddr, len);
    } else {
      forall m: Memory, input: seq<Word>, u: Word | |input| >= InputWords(len)
        ensures Region(WriteMem(m, saddr, len, input, u), saddr, len) == Bytes(input)[..len]
      {
        DeliversWithoutSpill(m, saddr, len, input, u);
      }
    }
  }
}
