/**
 * The byte data mover as a function of its memory: the burst it reads and the words it writes, for every byte
 * offset and length inside a session buffer.
 */
module DataMoverSpec {
  import opened Bits

  const WINDOW := 0x10000
  const MAX_SESSIONS := 32
  const MEMORY_WORDS := 0x10000 / 8 * MAX_SESSIONS

  type Word = w: Bits | |w| == 64 witness Zeros(64)
  type Octet = o: Bits | |o| == 8 witness Zeros(8)
  type Memory = m: seq<Word> | |m| == MEMORY_WORDS witness seq(MEMORY_WORDS, _ => Zeros(64))

  /** The octets of a word, least significant first. */
  function WordBytes(w: Word): (b: seq<Octet>)
    ensures |b| == 8
  {
    seq(8, k requires 0 <= k < 8 => w[8 * k..8 * k + 8])
  }

  function Bytes(ws: seq<Word>): (b: seq<Octet>)
    ensures |b| == 8 * |ws|
  {
    if ws == [] then [] else WordBytes(ws[0]) + Bytes(ws[1..])
  }

  // ---------------------------------------------------------------- the shifters

  /** rightShiftOctets and leftShiftOctets: a shift by four, two and one octets as the bits of n say. */
  function RightShiftOctets(w: Word, n: nat): Word {
    var a, n1 := if n >= 4 then ShiftRight(w, 32) else w, if n >= 4 then n - 4 else n;
    var b, n2 := if n1 >= 2 then ShiftRight(a, 16) else a, if n1 >= 2 then n1 - 2 else n1;
    if n2 >= 1 then ShiftRight(b, 8) else b
  }

  function LeftShiftOctets(w: Word, n: nat): Word {
    var a, n1 := if n >= 4 then ShiftLeft(w, 32) else w, if n >= 4 then n - 4 else n;
    var b, n2 := if n1 >= 2 then ShiftLeft(a, 16) else a, if n1 >= 2 then n1 - 2 else n1;
    if n2 >= 1 then ShiftLeft(b, 8) else b
  }

  lemma ShiftRightTwice(w: Word, m: nat, n: nat)
    requires m + n <= 64
    ensures ShiftRight(ShiftRight(w, m), n) == ShiftRight(w, m + n)
  {
  }

  lemma ShiftLeftTwice(w: Word, m: nat, n: nat)
    requires m + n <= 64
    ensures ShiftLeft(ShiftLeft(w, m), n) == ShiftLeft(w, m + n)
  {
  }

  lemma ShiftByZero(w: Word)
    ensures ShiftRight(w, 0) == w && ShiftLeft(w, 0) == w
  {
  }

  /** The three-stage shifters shift by n octets. */
  lemma RightShifts(w: Word, n: nat)
    requires n < 8
    ensures RightShiftOctets(w, n) == ShiftRight(w, 8 * n)
  {
    hide ShiftRight;
    ShiftByZero(w);
    ShiftRightTwice(w, 32, 16);
    ShiftRightTwice(w, 32, 8);
    ShiftRightTwice(w, 48, 8);
    ShiftRightTwice(w, 16, 8);
  }

  lemma LeftShifts(w: Word, n: nat)
    requires n < 8
    ensures LeftShiftOctets(w, n) == ShiftLeft(w, 8 * n)
  {
    hide ShiftLeft;
    ShiftByZero(w);
    ShiftLeftTwice(w, 32, 16);
    ShiftLeftTwice(w, 32, 8);
    ShiftLeftTwice(w, 48, 8);
    ShiftLeftTwice(w, 16, 8);
  }

  /** A word shifted right by `off` octets, joined with the next one shifted left by the rest. */
  function Realigned(lo: Word, hi: Word, off: nat): Word
    requires off < 8
  {
    Or(if off > 0 then LeftShiftOctets(hi, (8 - off) % 8) else Zeros(64), RightShiftOctets(lo, off))
  }

  lemma OrJoins(lo: Word, hi: Word, m: nat)
    requires m <= 64
    ensures Or(ShiftLeft(hi, 64 - m), ShiftRight(lo, m)) == lo[m..] + hi[..m]
    ensures m == 0 ==> Or(Zeros(64), ShiftRight(lo, m)) == lo[m..] + hi[..m]
  {
  }

  lemma RealignedBits(lo: Word, hi: Word, off: nat)
    requires off < 8
    ensures Realigned(lo, hi, off) == lo[8 * off..] + hi[..8 * off]
  {
    hide RightShiftOctets, LeftShiftOctets, ShiftRight, ShiftLeft, Or;
    RightShifts(lo, off);
    LeftShifts(hi, (8 - off) % 8);
    assert off > 0 ==> 8 * ((8 - off) % 8) == 64 - 8 * off;
    OrJoins(lo, hi, 8 * off);
  }

  lemma ConcatSlice(a: Bits, b: Bits, i: nat, n: nat)
    requires i + n <= |a| + |b|
    ensures i + n <= |a| ==> (a + b)[i..i + n] == a[i..i + n]
    ensures |a| <= i ==> (a + b)[i..i + n] == b[i - |a|..i - |a| + n]
  {
  }

  lemma DropSlice(a: Bits, m: nat, i: nat, n: nat)
    requires m + i + n <= |a|
    ensures a[m..][i..i + n] == a[m + i..m + i + n]
  {
  }

  /** Realigning selects eight consecutive octets. */
  lemma RealignedBytes(lo: Word, hi: Word, off: nat)
    requires off < 8
    ensures WordBytes(Realigned(lo, hi, off)) == (WordBytes(lo) + WordBytes(hi))[off..off + 8]
  {
    hide Realigned;
    RealignedBits(lo, hi, off);
    var w, m := lo[8 * off..] + hi[..8 * off], 8 * off;
    forall k | 0 <= k < 8 ensures WordBytes(w)[k] == (WordBytes(lo) + WordBytes(hi))[off..off + 8][k] {
      if off + k < 8 {
        ConcatSlice(lo[m..], hi[..m], 8 * k, 8);
        DropSlice(lo, m, 8 * k, 8);
        assert m + 8 * k == 8 * (off + k);
      } else {
        var i := m + 8 * k - 64;
        ConcatSlice(lo[m..], hi[..m], 8 * k, 8);
        assert hi[..m][i..i + 8] == hi[i..i + 8];
      }
    }
  }

  // ---------------------------------------------------------------- set_common

  datatype CommonVars = CommonVars(rshiftWord: Word, nBuffer: nat, nBufferAddr: nat, nStartWordByte: nat,
                                   nCurrWordAddr: nat, btt: nat, nTransferWords: nat, taddr: nat, nShift: nat)

  /** An eight-bit buffer number, a 23-bit byte count, a sixteen-bit word count and last address. */
  function SetCommon(saddr: nat, btt: nat): CommonVars {
    var start, total := saddr % 8, (btt + saddr % 8) % 0x80_0000;
    var buffer := saddr / WINDOW % 512 % 256;
    CommonVars(Zeros(64), buffer, buffer * WINDOW, start, saddr % WINDOW / 8 * 8, total, (total + 7) / 8 % 0x10000,
               (saddr % WINDOW + btt - 1) % WINDOW, (8 - start) % 8)
  }

  function CalculateTrailBytes(btt: nat): nat { if btt % 8 > 0 then 8 - btt % 8 else 0 }

  /** The number of words the read loop fetches. */
  function ReadTransfers(saddr: nat, cv: CommonVars): nat {
    var trail := CalculateTrailBytes(cv.btt);
    var shared := cv.taddr / 8 != saddr % WINDOW / 8 && 8 - trail <= cv.nStartWordByte;
    ((if shared then cv.nTransferWords - 1 else cv.nTransferWords) + 1) % 0x10000
  }

  /** A transfer that stays inside a session buffer. */
  predicate InWindow(saddr: nat, len: nat) { saddr % 0x10000 + len <= 0x10000 }

  /** The window is a whole number of words. */
  lemma WordAndByte(saddr: nat)
    ensures saddr % WINDOW == 8 * (saddr % WINDOW / 8) + saddr % 8 && saddr % WINDOW % 8 == saddr % 8
  {
    var b, a := saddr / WINDOW, saddr % WINDOW;
    assert saddr == 8 * (8192 * b) + a;
    AlignedSum(8192 * b, a);
  }

  lemma AlignedSum(q: nat, at: nat)
    ensures (8 * q + at) / 8 == q + at / 8 && (8 * q + at) % 8 == at % 8
  {
  }

  /**
   * The session number is bits 16 to 23 of the address.  Sessions whose region lies inside the memory, and sessions
   * the command is refused for.
   */
  predicate SessionFits(saddr: nat) { saddr / 0x10000 % 256 < 4 }

  predicate SessionRefused(saddr: nat) { saddr / 0x10000 % 256 >= 32 }

  /** Memory index of the first word of a transfer. */
  function FirstWord(saddr: nat): nat { saddr / 0x10000 % 256 * 0x10000 + saddr % 0x10000 / 8 }

  /** Regions start at nBuffer << 16 in word index, so only four of the 32 accepted sessions lie in the memory. */
  lemma SessionsThatFit(m: Memory, saddr: nat)
    ensures SessionFits(saddr) <==> saddr / 0x10000 % 256 * 0x10000 + 0x2000 <= |m|
    ensures SessionRefused(saddr) <==> SetCommon(saddr, 0).nBuffer >= MAX_SESSIONS
  {
    BufferAddress(saddr, 0);
  }

  /** The session number and where its region starts, for any length of the transfer. */
  lemma BufferAddress(saddr: nat, len: nat)
    ensures var cv := SetCommon(saddr, len);
            cv.nBuffer == saddr / 0x10000 % 256 && cv.nBufferAddr == saddr / 0x10000 % 256 * 0x10000
  {
    LowByte(saddr / 0x10000);
  }

  lemma LowByte(x: nat)
    ensures x % 512 % 256 == x % 256
  {
    assert x == 256 * (2 * (x / 512)) + x % 512;
  }

  /** One more word is fetched than is put out; an empty unaligned transfer still fetches two. */
  lemma ReadCount(saddr: nat, len: nat)
    requires InWindow(saddr, len)
    ensures ReadTransfers(saddr, SetCommon(saddr, len)) ==
            (if len == 0 && saddr % 8 > 0 then 2 else (len + 7) / 8 + 1)
  {
    hide SetCommon, CalculateTrailBytes;
    WordAndByte(saddr);
    if len > 0 {
      TransferFields(saddr, len);
      TransferWords(saddr % WINDOW, len);
    } else {
      EmptyFields(saddr);
    }
  }

  /** Nothing to transfer: the last address lies before the first, in the word before when that one is aligned. */
  lemma EmptyFields(saddr: nat)
    ensures var cv := SetCommon(saddr, 0);
            cv.btt == cv.nStartWordByte == saddr % 8 && cv.nTransferWords == (if saddr % 8 > 0 then 1 else 0)
            && (saddr % 8 > 0 ==> cv.taddr / 8 == saddr % WINDOW / 8)
            && CalculateTrailBytes(cv.btt) <= 7 && (saddr % 8 == 0 ==> CalculateTrailBytes(cv.btt) == 0)
  {
    WordAndByte(saddr);
  }

  lemma TransferFields(saddr: nat, len: nat)
    requires InWindow(saddr, len) && len > 0
    ensures var cv := SetCommon(saddr, len);
            cv.btt == saddr % 8 + len && cv.nTransferWords == (cv.btt + 7) / 8
            && cv.taddr == saddr % WINDOW + len - 1 && cv.nStartWordByte == saddr % 8
  {
  }

  /** The last word's octets fit behind the shifted previous word exactly when one word less is put out. */
  lemma TransferWords(a: nat, len: nat)
    requires len > 0
    ensures var off := a % 8; var total := off + len; var words := (total + 7) / 8;
            (if (a + len - 1) / 8 != a / 8 && 8 - CalculateTrailBytes(total) <= off then words - 1 else words) ==
            (len + 7) / 8
  {
    var off, q := a % 8, a / 8;
    assert a == 8 * q + off;
    assert (a + len - 1) / 8 == q + (off + len - 1) / 8;
  }

  // ---------------------------------------------------------------- the read burst

  datatype Beat = Beat(data: Word, keep: Bits, last: bool)

  /** The keep mask of the final word. */
  function LastKeep(len: nat): (k: Bits)
    ensures |k| == 8
  {
    if len % 8 > 0 then ShiftRight(Ones(8), 8 - len % 8) else Ones(8)
  }

  /** What the loop writes for the words it has fetched. */
  function Burst(ws: seq<Word>, off: nat, len: nat): (out: seq<Beat>)
    requires |ws| > 0 && off < 8
    ensures |out| == |ws| - 1
  {
    seq(|ws| - 1, j requires 0 <= j < |ws| - 1 =>
      var last := j == |ws| - 2;
      Beat(Realigned(ws[j], ws[j + 1], off), if last then LastKeep(len) else Ones(8), last))
  }

  /** The octets a stream of words carries: those its keep masks select. */
  function KeptOf(b: seq<Octet>, keep: Bits): seq<Octet>
    requires |b| == |keep|
  {
    if b == [] then [] else (if keep[0] then [b[0]] else []) + KeptOf(b[1..], keep[1..])
  }

  function Kept(out: seq<Beat>): seq<Octet>
    requires forall j :: 0 <= j < |out| ==> |out[j].keep| == 8
  {
    if out == [] then [] else KeptOf(WordBytes(out[0].data), out[0].keep) + Kept(out[1..])
  }

  lemma {:induction false} KeptPrefix(b: seq<Octet>, keep: Bits, m: nat)
    requires |b| == |keep| && m <= |b| && forall i :: 0 <= i < |b| ==> keep[i] == (i < m)
    ensures KeptOf(b, keep) == b[..m]
    decreases |b|
  {
    if b != [] {
      KeptPrefix(b[1..], keep[1..], if m == 0 then 0 else m - 1);
    }
  }

  lemma LastKeepSelects(len: nat)
    ensures forall i :: 0 <= i < 8 ==> LastKeep(len)[i] == (i < if len % 8 > 0 then len % 8 else 8)
  {
  }

  lemma BurstTail(ws: seq<Word>, off: nat, len: nat)
    requires |ws| > 2 && off < 8 && len >= 8
    ensures Burst(ws, off, len)[1..] == Burst(ws[1..], off, len - 8)
  {
    assert LastKeep(len) == LastKeep(len - 8);
  }

  /** The first word of a burst contributes its first m octets. */
  lemma BurstHead(ws: seq<Word>, off: nat, len: nat)
    requires |ws| > 1 && off < 8
    ensures var m := if |ws| > 2 || len % 8 == 0 then 8 else len % 8;
            Kept(Burst(ws, off, len)) ==
            (WordBytes(ws[0]) + WordBytes(ws[1]))[off..off + 8][..m] + Kept(Burst(ws, off, len)[1..])
  {
    hide Realigned;
    RealignedBytes(ws[0], ws[1], off);
    LastKeepSelects(len);
    var out := Burst(ws, off, len);
    KeptPrefix(WordBytes(out[0].data), out[0].keep, if |ws| > 2 || len % 8 == 0 then 8 else len % 8);
  }

  /** The kept octets of a burst are exactly the octets from `off` on, whatever the word behind them holds. */
  lemma {:induction false} BurstIsExact(ws: seq<Word>, off: nat, len: nat)
    requires off < 8 && len > 0 && |ws| == (len + 7) / 8 + 1
    ensures Kept(Burst(ws, off, len)) == Bytes(ws)[off..off + len]
    decreases |ws|
  {
    hide Burst, Kept, WordBytes, Bytes;
    var two := WordBytes(ws[0]) + WordBytes(ws[1]);
    BurstHead(ws, off, len);
    BytesHead(ws);
    if |ws| == 2 {
      KeptNothing(ws, off, len);
      TakeOfSlice(Bytes(ws), two, off, len);
    } else {
      BurstTail(ws, off, len);
      BurstIsExact(ws[1..], off, len - 8);
      JoinSlices(Bytes(ws), two, Bytes(ws[1..]), off, len);
    }
  }

  lemma KeptNothing(ws: seq<Word>, off: nat, len: nat)
    requires |ws| == 2 && off < 8
    ensures Kept(Burst(ws, off, len)[1..]) == []
  {
    hide Realigned;
  }

  lemma TakeOfSlice(all: seq<Octet>, two: seq<Octet>, off: nat, len: nat)
    requires |two| == 16 <= |all| && all[..16] == two && off < 8 && 0 < len <= 8
    ensures two[off..off + 8][..if len % 8 == 0 then 8 else len % 8] + [] == all[off..off + len]
  {
    assert forall i :: 0 <= i < 16 ==> two[i] == all[..16][i];
    assert two[off..off + 8][..len] + [] == two[off..off + len];
  }

  lemma JoinSlices(all: seq<Octet>, two: seq<Octet>, tail: seq<Octet>, off: nat, len: nat)
    requires |two| == 16 <= |all| && all[..16] == two && all[8..] == tail
    requires off < 8 < len && off + len <= |all|
    ensures two[off..off + 8][..8] + tail[off..off + len - 8] == all[off..off + len]
  {
    assert forall i :: 0 <= i < 16 ==> two[i] == all[..16][i];
    assert forall i :: 0 <= i < |tail| ==> tail[i] == all[8..][i];
    assert two[off..off + 8][..8] == all[off..off + 8];
    assert tail[off..off + len - 8] == all[off + 8..off + len];
  }

  lemma BytesHead(ws: seq<Word>)
    requires |ws| > 1
    ensures Bytes(ws) == WordBytes(ws[0]) + Bytes(ws[1..]) && Bytes(ws)[..16] == WordBytes(ws[0]) + WordBytes(ws[1])
    ensures Bytes(ws)[8..] == Bytes(ws[1..])
  {
    hide WordBytes;
    assert Bytes(ws[1..]) == WordBytes(ws[1]) + Bytes(ws[1..][1..]);
  }

  lemma FetchInRange(saddr: nat, len: nat)
    requires InWindow(saddr, len) && SessionFits(saddr)
    ensures FirstWord(saddr) + (len + 7) / 8 + 2 <= MEMORY_WORDS
    ensures saddr % 8 + len <= 8 * ((len + 7) / 8 + 1)
  {
  }

  /** The words fetched, and the whole read. */
  function Fetched(m: Memory, saddr: nat, len: nat): (ws: seq<Word>)
    requires InWindow(saddr, len) && SessionFits(saddr)
    ensures |ws| > 0 && 8 * |ws| >= saddr % 8 + len
  {
    ReadCount(saddr, len);
    FetchInRange(saddr, len);
    hide SetCommon, ReadTransfers;
    m[FirstWord(saddr)..FirstWord(saddr) + ReadTransfers(saddr, SetCommon(saddr, len))]
  }

  function ReadBurst(m: Memory, saddr: nat, len: nat): seq<Beat>
    requires InWindow(saddr, len) && SessionFits(saddr)
  {
    Burst(Fetched(m, saddr, len), saddr % 8, len)
  }

  /** The octets a transfer names: those of its session's region of the memory. */
  function Region(m: Memory, saddr: nat, len: nat): (b: seq<Octet>)
    requires InWindow(saddr, len) && SessionFits(saddr)
    ensures |b| == len
  {
    var first := FirstWord(saddr);
    Bytes(m[first..first + (saddr % 8 + len + 7) / 8])[saddr % 8..saddr % 8 + len]
  }

  /** A correct answer to a read command. */
  ghost predicate ExactRead(m: Memory, saddr: nat, len: nat, out: seq<Beat>)
    requires InWindow(saddr, len) && SessionFits(saddr)
  {
    && |out| == (len + 7) / 8 && (forall j :: 0 <= j < |out| ==> |out[j].keep| == 8)
    && (forall j :: 0 <= j < |out| ==> out[j].last == (j == |out| - 1))
    && Kept(out) == Region(m, saddr, len)
  }

  lemma {:induction false} BytesPrefix(ws: seq<Word>, k: nat)
    requires k <= |ws|
    ensures Bytes(ws[..k]) == Bytes(ws)[..8 * k]
    decreases |ws|
  {
    if k > 0 {
      BytesPrefix(ws[1..], k - 1);
      assert ws[..k][1..] == ws[1..][..k - 1];
    }
  }

  /**
   * For every byte offset and length inside a session buffer the read is exact, one `last` on the final word,
   * except that an empty transfer from an unaligned address puts out a word it should not.
   */
  lemma ReadIsExact(m: Memory, saddr: nat, len: nat)
    requires InWindow(saddr, len) && SessionFits(saddr)
    ensures ExactRead(m, saddr, len, ReadBurst(m, saddr, len)) <==> len > 0 || saddr % 8 == 0
  {
    hide ReadBurst, SetCommon, Region, SessionFits;
    ReadCount(saddr, len);
    if len > 0 {
      ReadNonEmpty(m, saddr, len);
    } else {
      ReadEmpty(m, saddr);
    }
  }

  lemma ReadNonEmpty(m: Memory, saddr: nat, len: nat)
    requires InWindow(saddr, len) && SessionFits(saddr) && len > 0
    ensures ExactRead(m, saddr, len, ReadBurst(m, saddr, len))
  {
    hide Fetched, Burst, Kept, Bytes, Region, SetCommon, SessionFits, ReadTransfers;
    ReadCount(saddr, len);
    var ws := Fetched(m, saddr, len);
    FetchedCovers(m, saddr, len);
    FetchedCount(m, saddr, len);
    BurstFlags(ws, saddr % 8, len);
    BurstIsExact(ws, saddr % 8, len);
  }

  lemma FetchedCount(m: Memory, saddr: nat, len: nat)
    requires InWindow(saddr, len) && SessionFits(saddr)
    ensures |Fetched(m, saddr, len)| == ReadTransfers(saddr, SetCommon(saddr, len))
  {
    ReadCount(saddr, len);
    hide SetCommon, ReadTransfers;
  }

  /** A command for no octets: one beat too many from an unaligned address. */
  lemma ReadEmpty(m: Memory, saddr: nat)
    requires InWindow(saddr, 0) && SessionFits(saddr)
    ensures |ReadBurst(m, saddr, 0)| == if saddr % 8 == 0 then 0 else 1
  {
    hide SetCommon, SessionFits, ReadTransfers;
    ReadCount(saddr, 0);
    FetchedCount(m, saddr, 0);
  }

  /** The fetched words start with those of the region. */
  lemma FetchedCovers(m: Memory, saddr: nat, len: nat)
    requires InWindow(saddr, len) && SessionFits(saddr) && len > 0
    ensures Bytes(Fetched(m, saddr, len))[saddr % 8..saddr % 8 + len] == Region(m, saddr, len)
  {
    hide Bytes, Fetched, ReadTransfers, SetCommon, SessionFits, InWindow;
    var ws, off, k := Fetched(m, saddr, len), saddr % 8, (saddr % 8 + len + 7) / 8;
    FetchedStart(m, saddr, len);
    BytesPrefix(ws, k);
    SlicePrefix(Bytes(ws), 8 * k, off, len);
  }

  lemma SlicePrefix(b: seq<Octet>, n: nat, off: nat, len: nat)
    requires off + len <= n <= |b|
    ensures b[..n][off..off + len] == b[off..off + len]
  {
  }

  /** The region lies in the first words fetched. */
  lemma FetchedStart(m: Memory, saddr: nat, len: nat)
    requires InWindow(saddr, len) && SessionFits(saddr) && len > 0
    ensures var k := (saddr % 8 + len + 7) / 8;
            k <= |Fetched(m, saddr, len)|
            && Region(m, saddr, len) == Bytes(Fetched(m, saddr, len)[..k])[saddr % 8..saddr % 8 + len]
  {
    ReadCount(saddr, len);
    FetchedCount(m, saddr, len);
    hide Bytes, SetCommon, ReadTransfers;
    var first, k := FirstWord(saddr), (saddr % 8 + len + 7) / 8;
    assert Fetched(m, saddr, len)[..k] == m[first..first + k];
  }

  lemma BurstFlags(ws: seq<Word>, off: nat, len: nat)
    requires |ws| > 0 && off < 8
    ensures var out := Burst(ws, off, len);
            forall j :: 0 <= j < |out| ==> |out[j].keep| == 8 && out[j].last == (j == |out| - 1)
  {
  }
}
