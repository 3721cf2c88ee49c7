/**
 * The sender's view of the IPv4 header checksum: `compute_ipv4_checksum` sums the header while the datagram
 * streams past and `insert_ip_checksum` stores the folded sum back into it.
 */
module IpHeader {
  import opened Wrappers
  import opened OnesComplement
  import opened AxiStream
  import opened LaneSums

  /** Every pair of octets of the word, whatever its keep mask. */
  function AllTerms(w: Word): Terms {
    [Some(BigEndian(w, 0)), Some(BigEndian(w, 1)), Some(BigEndian(w, 2)), Some(BigEndian(w, 3))]
  }

  /** The first two pairs: the last header word when the header is an odd number of 32-bit words. */
  function HalfTerms(w: Word): Terms { [Some(BigEndian(w, 0)), Some(BigEndian(w, 1)), None, None] }

  /** Word 1 without the checksum field. */
  function SkipTerms(w: Word): Terms { [Some(BigEndian(w, 0)), None, Some(BigEndian(w, 2)), Some(BigEndian(w, 3))] }

  lemma AllTermsSum(w: Word)
    ensures Sixteen(AllTerms(w)) && TermTotal(AllTerms(w)) == WordSum(w.data)
    ensures Sixteen(HalfTerms(w)) && TermTotal(HalfTerms(w)) == WordSum(w.data[..4])
    ensures Sixteen(SkipTerms(w)) && TermTotal(SkipTerms(w)) == WordSum(w.data[2 := 0][3 := 0])
  {
    WordSumOfLanes(w.data, 8);
    WordSumOfLanes(w.data, 4);
    var z: Lanes := w.data[2 := 0][3 := 0];
    WordSumOfLanes(z, 8);
    assert w.data[..8] == w.data && z[..8] == z;
  }

  /** Two less in a register that counts modulo `size`. */
  function LessTwo(x: nat, size: nat): nat
    requires size >= 2
  {
    var v, n := x, size;
    if v >= 2 then v - 2 else v + (n - 2)
  }

  // ---------------------------------------------------------------- compute_ipv4_checksum

  /** `headerLen` is a four-bit count of 32-bit header words still to come; `wordCount` stops at 2. */
  datatype Sender = Sender(sums: Sums, headerLen: nat, wordCount: nat)

  function SenderTerms(skip: bool, s: Sender, w: Word): Terms {
    if s.wordCount == 0 then AllTerms(w)
    else if s.wordCount == 1 then (if skip then SkipTerms(w) else AllTerms(w))
    else if s.headerLen == 0 then NO_TERMS
    else if s.headerLen == 1 then HalfTerms(w)
    else AllTerms(w)
  }

  function SenderLength(s: Sender, w: Word): nat {
    if s.wordCount == 0 then LessTwo(LowNibble(w.data[0]), 16)
    else if s.wordCount == 1 then LessTwo(s.headerLen, 16)
    else if s.headerLen <= 1 then 0
    else LessTwo(s.headerLen, 16)
  }

  function SenderNext(skip: bool, s: Sender, w: Word): (Sender, Option<Sums>) {
    var sums := AddTerms(s.sums, SenderTerms(skip, s, w));
    var sent := if s.wordCount >= 2 && 1 <= s.headerLen <= 2 then Some(sums) else None;
    var count := if s.wordCount < 2 then s.wordCount + 1 else s.wordCount;
    (Sender(if w.last then NO_SUMS else sums, SenderLength(s, w), if w.last then 0 else count), sent)
  }

  function SenderRun(skip: bool, s: Sender, ws: seq<Word>): (Sender, seq<Sums>)
    decreases |ws|
  {
    if ws == [] then (s, [])
    else
      var (s', out) := SenderNext(skip, s, ws[0]);
      var (s'', more) := SenderRun(skip, s', ws[1..]);
      (s'', if out.Some? then [out.value] + more else more)
  }

  class ComputeChecksumStage {
    const sums: array<nat>
    var headerLen: nat
    var wordCount: nat

    constructor ()
      ensures fresh(sums) && sums.Length == 4 && State() == Sender([0, 0, 0, 0], 0, 0)
    {
      sums := new nat[4](_ => 0);
      headerLen, wordCount := 0, 0;
    }

    function State(): Sender
      requires sums.Length == 4
      reads this, sums
    {
      Sender(sums[..], headerLen, wordCount)
    }

    method Step(input: seq<Word>, skipChecksum: bool)
      returns (rest: seq<Word>, output: seq<Word>, subSums: Option<Sums>)
      requires sums.Length == 4
      modifies this, sums
      ensures input == [] ==> rest == input && output == [] && subSums.None? && State() == old(State())
      ensures input != [] ==> rest == input[1..] && output == [input[0]]
                              && (State(), subSums) == SenderNext(skipChecksum, old(State()), input[0])
    {
      hide AddTerms, AllTerms, SkipTerms, HalfTerms;
      rest, output, subSums := input, [], None;
      if input != [] {
        var currWord := input[0];
        rest, output := input[1..], [currWord];
        match wordCount {
          case 0 =>
            headerLen := LowNibble(currWord.data[0]);
            AddLanes(sums, AllTerms(currWord));
            headerLen := LessTwo(headerLen, 16);
            wordCount := wordCount + 1;
          case 1 =>
            AddLanes(sums, if skipChecksum then SkipTerms(currWord) else AllTerms(currWord));
            headerLen := LessTwo(headerLen, 16);
            wordCount := wordCount + 1;
          case _ =>
            match headerLen {
              case 0 =>
                NoTerms(sums[..]);
              case 1 =>
                AddLanes(sums, HalfTerms(currWord));
                headerLen := 0;
                subSums := Some(sums[..]);
              case _ =>
                AddLanes(sums, AllTerms(currWord));
                if headerLen == 2 {
                  subSums := Some(sums[..]);
                }
                headerLen := LessTwo(headerLen, 16);
            }
        }
        if currWord.last {
          ClearLanes(sums);
          wordCount := 0;
        }
      }
    }
  }

  /** The header length of a datagram in 32-bit words, and its header octets. */
  function Ihl(b: seq<Octet>): nat { if |b| == 0 then 0 else LowNibble(b[0]) }

  predicate HasHeader(b: seq<Octet>) { 5 <= Ihl(b) && 4 * Ihl(b) <= |b| }

  function Header(b: seq<Octet>): seq<Octet>
    requires HasHeader(b)
  {
    b[..4 * Ihl(b)]
  }

  /** The same octets with the checksum field, octets 10 and 11, replaced. */
  function WithChecksum(b: seq<Octet>, c: nat): seq<Octet>
    requires |b| >= 12 && c <= 65535
  {
    b[10 := c / 256][11 := c % 256]
  }

  /** The octet sum a word contributes, by the state it arrives in. */
  ghost function SenderWorth(skip: bool, s: Sender, w: Word): nat {
    if s.wordCount == 0 then WordSum(w.data)
    else if s.wordCount == 1 then WordSum(if skip then w.data[2 := 0][3 := 0] else w.data)
    else if s.headerLen == 0 then 0
    else if s.headerLen == 1 then WordSum(w.data[..4])
    else WordSum(w.data)
  }

  lemma SenderAdds(skip: bool, s: Sender, w: Word)
    requires Folded(s.sums)
    ensures Folded(AddTerms(s.sums, SenderTerms(skip, s, w)))
    ensures Fold(Total(AddTerms(s.sums, SenderTerms(skip, s, w)))) == Fold(Total(s.sums) + SenderWorth(skip, s, w))
  {
    AllTermsSum(w);
    AddTermsFolds(s.sums, SenderTerms(skip, s, w));
  }

  /** A header of `r` further 32-bit words is taken from the words that follow. */
  lemma {:induction false} SenderTail(skip: bool, s: Sender, ws: seq<Word>, r: nat)
    requires IsPacket(ws) && Folded(s.sums) && s.wordCount == 2 && s.headerLen == r
    requires 1 <= r <= 15 && 4 * r <= |Octets(ws)|
    ensures HandsOn(SenderRun(skip, s, ws), Total(s.sums) + WordSum(Octets(ws)[..4 * r]))
    decreases |ws|
  {
    hide AddTerms, SenderRun, Total, Fold, WordSum, Folded, SenderTerms;
    if r <= 2 {
      SenderTailEnds(skip, s, ws, r);
    } else {
      var s' := SenderNext(skip, s, ws[0]).0;
      SenderAdds(skip, s, ws[0]);
      HeaderSplits(ws, r);
      SenderTail(skip, s', ws[1..], r - 2);
      SenderUnfold(skip, s, ws);
      SameFold(Total(s'.sums), Total(s.sums) + WordSum(ws[0].data), WordSum(Octets(ws[1..])[..4 * (r - 2)]));
    }
  }

  /** A run that handed on exactly one set of folded sums of the given worth, and is back at a packet start. */
  ghost predicate HandsOn(run: (Sender, seq<Sums>), worth: nat) {
    |run.1| == 1 && Folded(run.1[0]) && Fold(Total(run.1[0])) == Fold(worth)
    && run.0.sums == NO_SUMS && run.0.wordCount == 0
  }

  lemma SenderTailEnds(skip: bool, s: Sender, ws: seq<Word>, r: nat)
    requires IsPacket(ws) && Folded(s.sums) && s.wordCount == 2 && s.headerLen == r
    requires 1 <= r <= 2 && 4 * r <= |Octets(ws)|
    ensures HandsOn(SenderRun(skip, s, ws), Total(s.sums) + WordSum(Octets(ws)[..4 * r]))
  {
    hide AddTerms, SenderRun, Total, Fold, WordSum, Folded, SenderTerms;
    var s' := SenderNext(skip, s, ws[0]).0;
    SenderAdds(skip, s, ws[0]);
    SenderPayload(skip, s', ws);
    HeaderInOneWord(ws, r);
    SenderUnfold(skip, s, ws);
    assert ws[0].data[..8] == ws[0].data;
  }

  lemma SenderUnfold(skip: bool, s: Sender, ws: seq<Word>)
    requires ws != []
    ensures var (s', out) := SenderNext(skip, s, ws[0]);
            SenderRun(skip, s, ws) == (SenderRun(skip, s', ws[1..]).0,
                                       (if out.Some? then [out.value] else []) + SenderRun(skip, s', ws[1..]).1)
  {
    var more := SenderRun(skip, SenderNext(skip, s, ws[0]).0, ws[1..]).1;
    assert [] + more == more;
  }

  lemma HeaderInOneWord(ws: seq<Word>, r: nat)
    requires IsPacket(ws) && 1 <= r <= 2 && 4 * r <= |Octets(ws)|
    ensures Octets(ws)[..4 * r] == ws[0].data[..4 * r]
  {
    forall k | 0 <= k < 4 * r ensures Octets(ws)[k] == ws[0].data[k] { OctetAt(ws, k); }
  }

  /** A header of more than two 32-bit words fills the first word of the packet. */
  lemma HeaderSplits(ws: seq<Word>, r: nat)
    requires IsPacket(ws) && 3 <= r && 4 * r <= |Octets(ws)|
    ensures |ws| > 1 && !ws[0].last && Octets(ws) == ws[0].data + Octets(ws[1..])
    ensures IsPacket(ws[1..]) && 4 * (r - 2) <= |Octets(ws[1..])|
    ensures WordSum(Octets(ws)[..4 * r]) == WordSum(ws[0].data) + WordSum(Octets(ws[1..])[..4 * (r - 2)])
  {
    hide WordSum, Octets, KeepLen;
    PacketLength(ws);
    PacketHead(ws);
    var tail := Octets(ws[1..]);
    assert (ws[0].data + tail)[..4 * r] == ws[0].data + tail[..4 * (r - 2)];
    WordSumConcat(ws[0].data, tail[..4 * (r - 2)]);
  }

  /** Behind the header the stage only waits for the end of the packet. */
  lemma {:induction false} SenderPayload(skip: bool, s: Sender, ws: seq<Word>)
    requires IsPacket(ws)
    requires if ws[0].last then s.sums == NO_SUMS && s.wordCount == 0 else s.wordCount == 2 && s.headerLen == 0
    ensures SenderRun(skip, s, ws[1..]).1 == []
    ensures SenderRun(skip, s, ws[1..]).0.sums == NO_SUMS && SenderRun(skip, s, ws[1..]).0.wordCount == 0
    decreases |ws|
  {
    if |ws| > 1 {
      var (s', out) := SenderNext(skip, s, ws[1]);
      SenderUnfold(skip, s, ws[1..]);
      SenderPayload(skip, s', ws[1..]);
    }
  }

  /**
   * Every datagram with a full header, whatever its options and payload, hands on one set of sums worth the one's
   * complement sum of its header octets, the checksum field counting as zero when it is skipped.
   */
  lemma SenderPacket(skip: bool, s: Sender, ws: seq<Word>)
    requires IsPacket(ws) && s.sums == NO_SUMS && s.wordCount == 0 && HasHeader(Octets(ws))
    ensures HandsOn(SenderRun(skip, s, ws), WordSum(Header(if skip then WithChecksum(Octets(ws), 0) else Octets(ws))))
  {
    hide SenderRun, SenderNext, Total, Fold, WordSum, Octets, IsPacket, Header, WithChecksum, Folded;
    DatagramSplits(ws);
    var h, w0, w1, tail := Ihl(Octets(ws)), ws[0], ws[1], ws[2..];
    SenderFirstTwo(skip, s, w0, w1);
    var s2 := SenderNext(skip, SenderNext(skip, s, w0).0, w1).0;
    SenderTail(skip, s2, tail, h - 4);
    SenderTwoSteps(skip, s, ws);
    HeaderSum(w0.data, w1.data, Octets(tail), skip, h);
    var w1Sum := WordSum(if skip then w1.data[2 := 0][3 := 0] else w1.data);
    SameFold(Total(s2.sums), WordSum(w0.data) + w1Sum, WordSum(Octets(tail)[..4 * (h - 4)]));
  }

  lemma SenderFirstTwo(skip: bool, s: Sender, w0: Word, w1: Word)
    requires s.sums == NO_SUMS && s.wordCount == 0 && !w0.last && !w1.last
    ensures var s2 := SenderNext(skip, SenderNext(skip, s, w0).0, w1).0;
            && s2.wordCount == 2 && Folded(s2.sums) && s2.headerLen == LessTwo(LessTwo(LowNibble(w0.data[0]), 16), 16)
            && Fold(Total(s2.sums)) ==
               Fold(WordSum(w0.data) + WordSum(if skip then w1.data[2 := 0][3 := 0] else w1.data))
  {
    hide AddTerms, SenderTerms, Fold, WordSum, Folded;
    var s1 := SenderNext(skip, s, w0).0;
    SenderAdds(skip, s, w0);
    SenderAdds(skip, s1, w1);
    SameFold(Total(s1.sums), WordSum(w0.data), SenderWorth(skip, s1, w1));
  }

  /** The first sixteen octets of a datagram fill its first two words; the rest of its header follows. */
  lemma DatagramSplits(ws: seq<Word>)
    requires IsPacket(ws) && HasHeader(Octets(ws))
    ensures |ws| > 2 && !ws[0].last && !ws[1].last && IsPacket(ws[2..]) && Ihl(Octets(ws)) == LowNibble(ws[0].data[0])
    ensures Octets(ws) == ws[0].data + (ws[1].data + Octets(ws[2..]))
    ensures 4 * (Ihl(Octets(ws)) - 4) <= |Octets(ws[2..])|
  {
    var h := Ihl(Octets(ws));
    OctetAt(ws, 0);
    HeaderSplits(ws, h);
    HeaderSplits(ws[1..], h - 2);
    assert ws[1..][1..] == ws[2..];
  }

  lemma SenderTwoSteps(skip: bool, s: Sender, ws: seq<Word>)
    requires |ws| > 2 && s.wordCount == 0 && !ws[0].last
    ensures var s1 := SenderNext(skip, s, ws[0]).0;
            SenderRun(skip, s, ws) == SenderRun(skip, SenderNext(skip, s1, ws[1]).0, ws[2..])
  {
    assert ws[1..][1..] == ws[2..];
  }

  lemma BlankField(d0: Lanes, d1: Lanes, t: seq<Octet>)
    ensures WithChecksum(d0 + (d1 + t), 0) == d0 + (d1[2 := 0][3 := 0] + t)
  {
  }

  lemma PrefixOfThree(d0: Lanes, d1: Lanes, t: seq<Octet>, n: nat)
    requires n <= |t|
    ensures (d0 + (d1 + t))[..16 + n] == d0 + (d1 + t[..n])
  {
  }

  /** The exact header sum, word by word. */
  lemma HeaderSum(d0: Lanes, d1: Lanes, t: seq<Octet>, skip: bool, h: nat)
    requires 5 <= h == LowNibble(d0[0]) && 4 * (h - 4) <= |t|
    ensures var b := d0 + (d1 + t); HasHeader(b) && HasHeader(WithChecksum(b, 0))
    ensures var b := d0 + (d1 + t);
            WordSum(Header(if skip then WithChecksum(b, 0) else b)) ==
            WordSum(d0) + WordSum(if skip then d1[2 := 0][3 := 0] else d1) + WordSum(t[..4 * (h - 4)])
  {
    var b, e1: Lanes := d0 + (d1 + t), if skip then d1[2 := 0][3 := 0] else d1;
    BlankField(d0, d1, t);
    PrefixOfThree(d0, e1, t, 4 * (h - 4));
    assert b[0] == WithChecksum(b, 0)[0] == d0[0];
    hide WordSum, LowNibble, WithChecksum;
    assert Header(if skip then WithChecksum(b, 0) else b) == d0 + (e1 + t[..4 * (h - 4)]);
    WordSumConcat(d0, e1 + t[..4 * (h - 4)]);
    WordSumConcat(e1, t[..4 * (h - 4)]);
  }

  lemma {:induction false} SenderSplit(skip: bool, s: Sender, a: seq<Word>, b: seq<Word>)
    ensures SenderRun(skip, s, a + b) ==
            (SenderRun(skip, SenderRun(skip, s, a).0, b).0,
             SenderRun(skip, s, a).1 + SenderRun(skip, SenderRun(skip, s, a).0, b).1)
    decreases |a|
  {
    hide SenderNext;
    if a == [] {
      assert a + b == b;
      assert [] + SenderRun(skip, s, b).1 == SenderRun(skip, s, b).1;
    } else {
      var s' := SenderNext(skip, s, a[0]).0;
      assert (a + b)[1..] == a[1..] + b;
      SenderUnfold(skip, s, a);
      SenderUnfold(skip, s, a + b);
      SenderSplit(skip, s', a[1..], b);
      var out := SenderNext(skip, s, a[0]).1;
      var head, mid, tail := if out.Some? then [out.value] else [], SenderRun(skip, s', a[1..]).1,
        SenderRun(skip, SenderRun(skip, s', a[1..]).0, b).1;
      assert head + (mid + tail) == (head + mid) + tail;
    }
  }

  // ---------------------------------------------------------------- insert_ip_checksum

  /** `wordCount` is 0, 1 or 2 (any later word). */
  datatype Inserter = Inserter(wordCount: nat, checksum: nat)

  type Checksum = c: nat | c <= 65535

  /** Octets 2 and 3 of word 1 of a datagram take the checksum in network order. */
  function PutChecksum(w: Word, c: Checksum): Word { w.(data := w.data[2 := c / 256][3 := c % 256]) }

  /** One call: state, words left, checksums left, words written. */
  function InsertNext(s: Inserter, ws: seq<Word>, cs: seq<Checksum>): (Inserter, seq<Word>, seq<Checksum>, seq<Word>)
    requires s.checksum <= 65535
  {
    if ws == [] || (s.wordCount == 0 && cs == []) then (s, ws, cs, [])
    else
      var w := ws[0];
      match s.wordCount
      case 0 => (Inserter(if w.last then 0 else 1, cs[0]), ws[1..], cs[1..], [w])
      case 1 => (Inserter(if w.last then 0 else 2, s.checksum), ws[1..], cs, [PutChecksum(w, s.checksum)])
      case _ => (Inserter(if w.last then 0 else s.wordCount, s.checksum), ws[1..], cs, [w])
  }

  class InsertChecksumStage {
    var wordCount: nat
    var checksum: Checksum

    constructor ()
      ensures State() == Inserter(0, 0)
    {
      wordCount, checksum := 0, 0;
    }

    function State(): Inserter
      reads this
    {
      Inserter(wordCount, checksum)
    }

    method Step(words: seq<Word>, checksums: seq<Checksum>)
      returns (restWords: seq<Word>, restChecksums: seq<Checksum>, output: seq<Word>)
      modifies this
      ensures (State(), restWords, restChecksums, output) == InsertNext(old(State()), words, checksums)
    {
      restWords, restChecksums, output := words, checksums, [];
      match wordCount {
        case 0 =>
          if words != [] && checksums != [] {
            var currWord := words[0];
            checksum := checksums[0];
            restWords, restChecksums, output := words[1..], checksums[1..], [currWord];
            wordCount := if currWord.last then 0 else 1;
          }
        case 1 =>
          if words != [] {
            var currWord := words[0];
            restWords, output := words[1..], [PutChecksum(currWord, checksum)];
            wordCount := if currWord.last then 0 else 2;
          }
        case _ =>
          if words != [] {
            var currWord := words[0];
            restWords, output := words[1..], [currWord];
            if currWord.last {
              wordCount := 0;
            }
          }
      }
    }
  }

  /** Calls the stage until it is blocked on an empty stream. */
  function InsertRun(s: Inserter, ws: seq<Word>, cs: seq<Checksum>): (Inserter, seq<Word>, seq<Checksum>, seq<Word>)
    requires s.checksum <= 65535
    decreases |ws|
  {
    if ws == [] || (s.wordCount == 0 && cs == []) then (s, ws, cs, [])
    else
      var (s', ws', cs', out) := InsertNext(s, ws, cs);
      var (t, restWs, restCs, more) := InsertRun(s', ws', cs');
      (t, restWs, restCs, out + more)
  }

  /** Once the header words have passed, a packet passes unchanged. */
  lemma {:induction false} InsertPayload(s: Inserter, ws: seq<Word>, more: seq<Word>, cs: seq<Checksum>)
    requires s.checksum <= 65535 && s.wordCount == 2 && IsPacket(ws)
    ensures var next := InsertRun(Inserter(0, s.checksum), more, cs);
            InsertRun(s, ws + more, cs) == (next.0, next.1, next.2, ws + next.3)
    decreases |ws|
  {
    var next := InsertRun(Inserter(0, s.checksum), more, cs);
    assert (ws + more)[1..] == ws[1..] + more;
    if |ws| == 1 {
      assert ws[1..] + more == more;
      assert [ws[0]] == ws;
    } else {
      InsertPayload(s, ws[1..], more, cs);
      assert ws + next.3 == [ws[0]] + (ws[1..] + next.3);
    }
  }

  /** The packet with the checksum stored in its second word. */
  function Stamped(ws: seq<Word>, c: Checksum): seq<Word>
    requires |ws| > 1
  {
    ws[1 := PutChecksum(ws[1], c)]
  }

  lemma StampedOctets(ws: seq<Word>, c: Checksum)
    requires IsPacket(ws) && HasHeader(Octets(ws))
    ensures |ws| > 2 && IsPacket(Stamped(ws, c)) && Octets(Stamped(ws, c)) == WithChecksum(Octets(ws), c)
  {
    hide Ihl, WithChecksum, KeepLen;
    DatagramSplits(ws);
    StampedWords(ws, c);
    StampedBytes(ws[0].data, ws[1], Octets(ws[2..]), c);
  }

  lemma StampedWords(ws: seq<Word>, c: Checksum)
    requires IsPacket(ws) && |ws| > 2
    ensures IsPacket(Stamped(ws, c))
    ensures Octets(Stamped(ws, c)) == ws[0].data + (PutChecksum(ws[1], c).data + Octets(ws[2..]))
  {
    hide Octets, KeepLen, IsPacket, Mask;
    var w1 := PutChecksum(ws[1], c);
    ThreeWords(ws);
    assert Stamped(ws, c) == [ws[0]] + ([w1] + ws[2..]);
    PacketCons(w1, ws[2..]);
    PacketCons(ws[0], [w1] + ws[2..]);
  }

  lemma StampedBytes(d0: Lanes, w1: Word, rest: seq<Octet>, c: Checksum)
    ensures WithChecksum(d0 + (w1.data + rest), c) == d0 + (PutChecksum(w1, c).data + rest)
  {
  }

  /** The first packet of a stream takes the first checksum; the rest of the stream goes on from there. */
  lemma InsertPacket(s: Inserter, ws: seq<Word>, more: seq<Word>, c: Checksum, cs: seq<Checksum>)
    requires s.checksum <= 65535 && s.wordCount == 0 && IsPacket(ws) && |ws| > 2
    ensures var next := InsertRun(Inserter(0, c), more, cs);
            InsertRun(s, ws + more, [c] + cs) == (next.0, next.1, next.2, Stamped(ws, c) + next.3)
  {
    hide InsertRun, InsertNext, IsPacket;
    var tail, next := ws[2..], InsertRun(Inserter(0, c), more, cs);
    ThreeWords(ws);
    InsertPayload(Inserter(2, c), tail, more, cs);
    InsertTwo(s, ws[0], ws[1], tail + more, c, cs);
    RegroupThree(ws, ws[1], more);
    RegroupThree(ws, PutChecksum(ws[1], c), next.3);
    assert ws[1 := ws[1]] == ws;
  }

  lemma RegroupThree(ws: seq<Word>, w1: Word, more: seq<Word>)
    requires |ws| > 2
    ensures ws[1 := w1] + more == [ws[0]] + ([w1] + (ws[2..] + more))
  {
  }

  lemma ThreeWords(ws: seq<Word>)
    requires IsPacket(ws) && |ws| > 2
    ensures !ws[0].last && !ws[1].last && ws[0].keep == ws[1].keep == Full() && IsPacket(ws[2..])
  {
    assert IsPacket(ws[1..]) && IsPacket(ws[1..][1..]) && ws[1..][1..] == ws[2..];
  }

  lemma InsertTwo(s: Inserter, w0: Word, w1: Word, rest: seq<Word>, c: Checksum, cs: seq<Checksum>)
    requires s.checksum <= 65535 && s.wordCount == 0 && !w0.last && !w1.last
    ensures var next := InsertRun(Inserter(2, c), rest, cs);
            InsertRun(s, [w0] + ([w1] + rest), [c] + cs) ==
            (next.0, next.1, next.2, [w0] + ([PutChecksum(w1, c)] + next.3))
  {
    var s1, ws := Inserter(1, c), [w0] + ([w1] + rest);
    assert ws[1..] == [w1] + rest && ([w1] + rest)[1..] == rest && ([c] + cs)[1..] == cs;
    assert InsertNext(s, ws, [c] + cs) == (s1, [w1] + rest, cs, [w0]);
    assert InsertNext(s1, [w1] + rest, cs).3 == [PutChecksum(w1, c)];
  }

  /** finalize_ipv4_checksum over everything a sender handed on. */
  function FinalizeAll(out: seq<Sums>): seq<Checksum>
    ensures |FinalizeAll(out)| == |out|
  {
    if out == [] then [] else [Finalize(out[0])] + FinalizeAll(out[1..])
  }

  predicate IsDatagrams(ps: seq<seq<Word>>) {
    forall i :: 0 <= i < |ps| ==> IsPacket(ps[i]) && HasHeader(Octets(ps[i]))
  }

  /** The checksum the header of a datagram must carry. */
  function HeaderChecksum(b: seq<Octet>): Checksum
    requires HasHeader(b)
  {
    Rfc1071Checksum(Header(WithChecksum(b, 0)))
  }

  /** `q` is `p` with the header checksum field filled in. */
  ghost predicate Checksummed(p: seq<Word>, q: seq<Word>) {
    IsPacket(q) && HasHeader(Octets(p)) && Octets(q) == WithChecksum(Octets(p), HeaderChecksum(Octets(p)))
  }

  lemma {:induction false} SendTraffic(a: Sender, s: Inserter, ps: seq<seq<Word>>) returns (qs: seq<seq<Word>>)
    requires IsDatagrams(ps) && a.sums == NO_SUMS && a.wordCount == 0 && s.wordCount == 0 && s.checksum <= 65535
    ensures var run := InsertRun(s, Flatten(ps), FinalizeAll(SenderRun(true, a, Flatten(ps)).1));
            run.1 == [] && run.2 == [] && run.3 == Flatten(qs)
    ensures |qs| == |ps| && forall i :: 0 <= i < |ps| ==> Checksummed(ps[i], qs[i])
    decreases |ps|
  {
    if ps == [] {
      qs := [];
    } else {
      var p, more := ps[0], Flatten(ps[1..]);
      var c := HeaderChecksum(Octets(p));
      SendFirst(a, p, more);
      StampedOctets(p, c);
      InsertPacket(s, p, more, c, FinalizeAll(SenderRun(true, SenderRun(true, a, p).0, more).1));
      var rest := SendTraffic(SenderRun(true, a, p).0, Inserter(0, c), ps[1..]);
      qs := [Stamped(p, c)] + rest;
      assert qs[1..] == rest;
    }
  }

  lemma SendFirst(a: Sender, p: seq<Word>, more: seq<Word>)
    requires IsPacket(p) && HasHeader(Octets(p)) && a.sums == NO_SUMS && a.wordCount == 0
    ensures SenderRun(true, a, p).0.sums == NO_SUMS && SenderRun(true, a, p).0.wordCount == 0
    ensures FinalizeAll(SenderRun(true, a, p + more).1) ==
            [HeaderChecksum(Octets(p))] + FinalizeAll(SenderRun(true, SenderRun(true, a, p).0, more).1)
  {
    SenderPacket(true, a, p);
    SenderSplit(true, a, p, more);
    var first := SenderRun(true, a, p).1[0];
    FinalizeInverts(first);
    assert SenderRun(true, a, p).1 == [first];
  }

  /** The checksum a sender stores makes the header verify. */
  lemma StoredChecksumVerifies(b: seq<Octet>)
    requires HasHeader(b)
    ensures HasHeader(WithChecksum(b, HeaderChecksum(b))) && Verifies(Header(WithChecksum(b, HeaderChecksum(b))))
  {
    hide WordSum, Fold, Verifies, Rfc1071Checksum;
    var c, h := HeaderChecksum(b), 4 * Ihl(b);
    var z, q := Header(WithChecksum(b, 0)), Header(WithChecksum(b, c));
    assert z == b[..10] + ([0, 0] + b[12..h]) && q == b[..10] + ([c / 256, c % 256] + b[12..h]);
    ChecksumField(b[..10], b[12..h], 0);
    ChecksumField(b[..10], b[12..h], c);
    ComplementVerifies(z, q, c);
  }

  /** What a checksum field adds to the sum of the octets around it. */
  lemma ChecksumField(before: seq<Octet>, after: seq<Octet>, c: Checksum)
    requires |before| % 2 == 0
    ensures WordSum(before + ([c / 256, c % 256] + after)) == WordSum(before) + c + WordSum(after)
  {
    hide WordSum;
    WordSumConcat(before, [c / 256, c % 256] + after);
    WordSumPair([c / 256, c % 256] + after);
    assert ([c / 256, c % 256] + after)[2..] == after;
  }

  lemma ComplementVerifies(z: seq<Octet>, q: seq<Octet>, c: Checksum)
    requires c == Rfc1071Checksum(z) && WordSum(q) == WordSum(z) + c
    ensures Verifies(q)
  {
    hide WordSum, Fold;
    FoldAdd(WordSum(z), c);
    FoldRange(WordSum(z));
    FoldRange(65535);
  }
}
