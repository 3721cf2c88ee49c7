/**
 * The receiver's view of the IPv4 header: `check_ip_checksum` sums it while the datagram streams past and
 * `iph_check_ip_checksum` turns the sums into a verdict.
 */
module IpReceive {
  import opened Wrappers
  import opened OnesComplement
  import opened AxiStream
  import opened LaneSums
  import opened IpHeader

  /** An IPv4 address in network order, first octet first. */
  type Address = a: seq<Octet> | |a| == 4 witness [0, 0, 0, 0]

  datatype HeaderSums = HeaderSums(sums: Sums, ipMatch: bool, hdrValid: bool)
  datatype Verdict = Verdict(ipMatch: bool, hdrValid: bool)

  predicate IsMulticast(a: Address) { HighNibble(a[0]) == 0xE }

  predicate IsBroadcast(a: Address) { a == [255, 255, 255, 255] }

  predicate IsMatch(mine: Address, dst: Address) { dst == mine || IsMulticast(dst) || IsBroadcast(dst) }

  /** Pairs of which both octets are kept. */
  function PairTerm(w: Word, i: nat): Option<nat>
    requires i < 4
  {
    if w.keep[2 * i] && w.keep[2 * i + 1] then Some(BigEndian(w, i)) else None
  }

  function PairTerms(w: Word): Terms { [PairTerm(w, 0), PairTerm(w, 1), PairTerm(w, 2), PairTerm(w, 3)] }

  /** The static state: an eight-bit header length and a word count that stops at 3. */
  datatype Receiver = Receiver(sums: Sums, headerLen: nat, wordCount: nat, dst: Address, version: nat,
                               sent: bool, send: bool, held: HeaderSums)

  function RecvTerms(s: Receiver, w: Word): Terms {
    if s.wordCount <= 1 then AllTerms(w)
    else if s.headerLen == 0 then NO_TERMS
    else if s.headerLen == 1 then HalfTerms(w)
    else PairTerms(w)
  }

  /** The state after the word has been summed, before the sums are handed on. */
  function RecvSum(mine: Address, s: Receiver, w: Word): Receiver {
    var sums := AddTerms(s.sums, RecvTerms(s, w));
    if s.wordCount == 0 then
      s.(sums := sums, headerLen := LessTwo(LowNibble(w.data[0]), 256), version := HighNibble(w.data[0]),
         wordCount := 1)
    else if s.wordCount == 1 then
      s.(sums := sums, headerLen := LessTwo(s.headerLen, 256), wordCount := 2)
    else
      var dst := if s.wordCount == 2 then w.data[..4] else s.dst;
      var held := HeaderSums(sums, IsMatch(mine, dst), s.version == 4);
      var t := s.(sums := sums, wordCount := if s.wordCount == 2 then 3 else s.wordCount, dst := dst);
      if s.headerLen == 0 then t
      else if s.headerLen == 1 then t.(headerLen := 0, held := held, send := true)
      else if s.headerLen == 2 then t.(headerLen := 0, held := held, send := true)
      else t.(headerLen := LessTwo(s.headerLen, 256))
  }

  function RecvNext(mine: Address, s: Receiver, w: Word): (Receiver, Option<HeaderSums>) {
    var t := RecvSum(mine, s, w);
    var out :=
      if t.sent then None
      else if t.send then Some(t.held)
      else if w.last then Some(HeaderSums(t.sums, false, true))
      else None;
    var u := if !t.sent && t.send then t.(sent := true) else t;
    (if w.last then u.(send := false, sent := false, wordCount := 0, sums := NO_SUMS) else u, out)
  }

  function RecvRun(mine: Address, s: Receiver, ws: seq<Word>): (Receiver, seq<HeaderSums>)
    decreases |ws|
  {
    if ws == [] then (s, [])
    else
      var (s', out) := RecvNext(mine, s, ws[0]);
      var (s'', more) := RecvRun(mine, s', ws[1..]);
      (s'', (if out.Some? then [out.value] else []) + more)
  }

  class CheckChecksumStage {
    const sums: array<nat>
    var headerLen: nat
    var wordCount: nat
    var dstIpAddress: Address
    var ipVersion: nat
    var csumSent: bool
    var csumSend: bool
    var held: HeaderSums

    constructor (uninitialised: HeaderSums)
      ensures fresh(sums) && sums.Length == 4
      ensures State() == Receiver(NO_SUMS, 0, 0, [0, 0, 0, 0], 0, false, false, uninitialised)
    {
      sums := new nat[4](_ => 0);
      headerLen, wordCount, dstIpAddress, ipVersion := 0, 0, [0, 0, 0, 0], 0;
      csumSent, csumSend, held := false, false, uninitialised;
    }

    function State(): Receiver
      requires sums.Length == 4
      reads this, sums
    {
      Receiver(sums[..], headerLen, wordCount, dstIpAddress, ipVersion, csumSent, csumSend, held)
    }

    method Step(input: seq<Word>, myIpAddress: Address)
      returns (rest: seq<Word>, output: seq<Word>, subSums: Option<HeaderSums>)
      requires sums.Length == 4
      modifies this, sums
      ensures input == [] ==> rest == input && output == [] && subSums.None? && State() == old(State())
      ensures input != [] ==> rest == input[1..] && output == [input[0]]
                              && (State(), subSums) == RecvNext(myIpAddress, old(State()), input[0])
    {
      hide AddTerms, AllTerms, HalfTerms, PairTerms, IsMatch;
      rest, output, subSums := input, [], None;
      if input != [] {
        var currWord := input[0];
        rest, output := input[1..], [currWord];
        SumWord(currWord, myIpAddress);
        if !csumSent {
          if csumSend {
            subSums := Some(held);
            csumSent := true;
          } else if currWord.last {
            subSums := Some(HeaderSums(sums[..], false, true));
          }
        }
        if currWord.last {
          csumSend, csumSent, wordCount := false, false, 0;
          ClearLanes(sums);
        }
      }
    }

    /** The switch on the word count. */
    method SumWord(currWord: Word, myIpAddress: Address)
      requires sums.Length == 4
      modifies this, sums
      ensures State() == RecvSum(myIpAddress, old(State()), currWord)
    {
      hide AddTerms, AllTerms, HalfTerms, PairTerms, IsMatch;
      if wordCount <= 1 {
        if wordCount == 0 {
          headerLen, ipVersion := LowNibble(currWord.data[0]), HighNibble(currWord.data[0]);
        }
        AddLanes(sums, AllTerms(currWord));
        headerLen, wordCount := LessTwo(headerLen, 256), wordCount + 1;
      } else {
        if wordCount == 2 {
          wordCount, dstIpAddress := wordCount + 1, currWord.data[..4];
        }
        if headerLen == 0 {
          NoTerms(sums[..]);
        } else if headerLen == 1 {
          AddLanes(sums, HalfTerms(currWord));
          headerLen := 0;
          held := HeaderSums(sums[..], IsMatch(myIpAddress, dstIpAddress), ipVersion == 4);
          csumSend := true;
        } else {
          AddLanes(sums, PairTerms(currWord));
          if headerLen == 2 {
            held := HeaderSums(sums[..], IsMatch(myIpAddress, dstIpAddress), ipVersion == 4);
            csumSend := true;
          }
          headerLen := LessTwo(headerLen, 256);
        }
      }
    }
  }

  /** iph_check_ip_checksum. */
  function Judge(h: HeaderSums): Verdict { Verdict(h.ipMatch, h.hdrValid && Finalize(h.sums) == 0) }

  /** At a packet start. */
  ghost predicate RecvIdle(s: Receiver) { s.sums == NO_SUMS && s.wordCount == 0 && !s.sent && !s.send }

  lemma RecvUnfold(mine: Address, s: Receiver, ws: seq<Word>)
    requires ws != []
    ensures var (s', out) := RecvNext(mine, s, ws[0]);
            RecvRun(mine, s, ws) == (RecvRun(mine, s', ws[1..]).0,
                                     (if out.Some? then [out.value] else []) + RecvRun(mine, s', ws[1..]).1)
  {
  }

  lemma {:induction false} RecvSplit(mine: Address, s: Receiver, a: seq<Word>, b: seq<Word>)
    ensures RecvRun(mine, s, a + b) ==
            (RecvRun(mine, RecvRun(mine, s, a).0, b).0,
             RecvRun(mine, s, a).1 + RecvRun(mine, RecvRun(mine, s, a).0, b).1)
    decreases |a|
  {
    hide RecvNext;
    if a == [] {
      assert a + b == b;
      assert [] + RecvRun(mine, s, b).1 == RecvRun(mine, s, b).1;
    } else {
      var s' := RecvNext(mine, s, a[0]).0;
      assert (a + b)[1..] == a[1..] + b;
      RecvUnfold(mine, s, a);
      RecvUnfold(mine, s, a + b);
      RecvSplit(mine, s', a[1..], b);
      var out := RecvNext(mine, s, a[0]).1;
      var head, mid, tail := if out.Some? then [out.value] else [], RecvRun(mine, s', a[1..]).1,
        RecvRun(mine, RecvRun(mine, s', a[1..]).0, b).1;
      assert head + (mid + tail) == (head + mid) + tail;
    }
  }

  /** Once a verdict has been sent, or the header is over, the rest of the packet hands nothing more on. */
  lemma {:induction false} RecvPayload(mine: Address, s: Receiver, ws: seq<Word>)
    requires IsPacket(ws) && if ws[0].last then RecvIdle(s) else s.wordCount == 3 && s.sent && s.headerLen == 0
    ensures RecvRun(mine, s, ws[1..]).1 == [] && RecvIdle(RecvRun(mine, s, ws[1..]).0)
    decreases |ws|
  {
    if |ws| > 1 {
      NoTerms(s.sums);
      hide AddTerms, AllTerms, HalfTerms, PairTerms;
      RecvUnfold(mine, s, ws[1..]);
      RecvPayload(mine, RecvNext(mine, s, ws[1]).0, ws[1..]);
    }
  }

  function Even(n: nat): nat {
    var v := n;
    v - v % 2
  }

  predicate Odd(n: nat) {
    var v := n;
    v % 2 == 1
  }

  /** How many lanes of a word are summed, by the state it arrives in. */
  ghost function LanesTaken(s: Receiver, w: Word): (n: nat)
    ensures n <= 8
  {
    if s.wordCount <= 1 then 8
    else if s.headerLen == 0 then 0
    else if s.headerLen == 1 then 4
    else Even(KeepLen(w.keep))
  }

  lemma PairTermsSum(w: Word)
    requires w.keep == Mask(KeepLen(w.keep))
    ensures Sixteen(PairTerms(w)) && TermTotal(PairTerms(w)) == WordSum(w.data[..Even(KeepLen(w.keep))])
  {
    WordSumOfLanes(w.data, Even(KeepLen(w.keep)));
  }

  lemma RecvAdds(s: Receiver, w: Word)
    requires Folded(s.sums) && (s.wordCount >= 2 && s.headerLen >= 2 ==> w.keep == Mask(KeepLen(w.keep)))
    ensures Folded(AddTerms(s.sums, RecvTerms(s, w)))
    ensures Fold(Total(AddTerms(s.sums, RecvTerms(s, w)))) == Fold(Total(s.sums) + WordSum(w.data[..LanesTaken(s, w)]))
  {
    hide Fold, AddTerms, Total, TermTotal, PairTerms, AllTerms, HalfTerms, KeepLen, Mask;
    if s.wordCount <= 1 || s.headerLen < 2 {
      AllTermsSum(w);
      assert w.data[..8] == w.data;
    } else {
      PairTermsSum(w);
    }
    NoTermsSum();
    AddTermsFolds(s.sums, RecvTerms(s, w));
  }

  lemma NoTermsSum()
    ensures Sixteen(NO_TERMS) && TermTotal(NO_TERMS) == 0
  {
  }

  /** A run that handed on one verdict, based on sums of the given worth. */
  ghost predicate Hands(run: (Receiver, seq<HeaderSums>), worth: nat, ipMatch: bool, hdrValid: bool) {
    RecvIdle(run.0) && |run.1| == 1 && Folded(run.1[0].sums) && Fold(Total(run.1[0].sums)) == Fold(worth)
    && run.1[0].ipMatch == ipMatch && run.1[0].hdrValid == hdrValid
  }

  /** The destination address in force once the next word has been seen. */
  ghost function NextDst(s: Receiver, w: Word): Address { if s.wordCount == 2 then w.data[..4] else s.dst }

  /** Whether the word in which r further 32-bit header words end is among the given number of words. */
  predicate Reaches(r: nat, words: nat) { 0 < r <= 2 * words }

  /**
   * How many lanes are summed of words in which r 32-bit header words are left: an odd last one is summed kept or
   * not, of everything else only the pairs that are kept.
   */
  function TailSummed(r: nat, words: nat, octets: nat): nat {
    if r == 0 then 0
    else if Odd(r) && r <= 2 * words then 4 * r
    else if 4 * r < Even(octets) then 4 * r
    else Even(octets)
  }

  /** The lanes summed of the word in which the header or the packet ends. */
  lemma TailLast(s: Receiver, ws: seq<Word>, r: nat)
    requires IsPacket(ws) && s.wordCount >= 2 && s.headerLen == r && (1 <= r <= 2 || |ws| == 1)
    ensures var n := TailSummed(r, |ws|, |Octets(ws)|);
            && n <= 8 * |ws| && AllLanes(ws)[..n] == ws[0].data[..LanesTaken(s, ws[0])]
            && Reaches(r, |ws|) == (1 <= r <= 2)
  {
    assert |ws| > 0;
    hide IsPacket, Octets, Mask, KeepLen, AllLanes, LanesTaken;
    PacketBounds(ws);
    LastNumbers(r, |ws|, |Octets(ws)|);
    LanesCons(ws);
    TakenLanes(s, ws);
    PrefixWithin(ws[0].data, AllLanes(ws[1..]), TailSummed(r, |ws|, |Octets(ws)|));
  }

  /** The lanes summed of any other word and of those behind it. */
  lemma TailInner(s: Receiver, ws: seq<Word>, r: nat, r': nat)
    requires IsPacket(ws) && s.wordCount >= 2 && s.headerLen == r && |ws| > 1
    requires if r == 0 then r' == 0 else r == r' + 2 && r' > 0
    ensures var n, m := TailSummed(r, |ws|, |Octets(ws)|), TailSummed(r', |ws| - 1, |Octets(ws[1..])|);
            && n <= 8 * |ws| && m <= 8 * (|ws| - 1) && Reaches(r', |ws| - 1) == Reaches(r, |ws|)
            && AllLanes(ws)[..n] == ws[0].data[..LanesTaken(s, ws[0])] + AllLanes(ws[1..])[..m]
            && (m > 0 ==> LanesTaken(s, ws[0]) % 2 == 0)
  {
    hide IsPacket, Octets, Mask, KeepLen, AllLanes, LanesTaken, TailSummed, Reaches;
    PacketBounds(ws);
    InnerNumbers(r, r', |ws|, |Octets(ws)|);
    TakenLanes(s, ws);
    NothingSummed(|ws|, |Octets(ws)|);
    NothingSummed(|ws| - 1, |Octets(ws)| - 8);
    TailSlices(ws, LanesTaken(s, ws[0]), TailSummed(r', |ws| - 1, |Octets(ws)| - 8));
  }

  lemma PacketBounds(ws: seq<Word>)
    requires IsPacket(ws)
    ensures 8 * |ws| - 8 < |Octets(ws)| <= 8 * |ws|
  {
    PacketLength(ws);
  }

  lemma TailSlices(ws: seq<Word>, k: nat, m: nat)
    requires |ws| > 1 && k <= 8 && m <= 8 * (|ws| - 1) && (m > 0 ==> k == 8)
    ensures AllLanes(ws)[..k + m] == ws[0].data[..k] + AllLanes(ws[1..])[..m]
  {
    hide AllLanes;
    LanesCons(ws);
    PrefixBeyond(ws[0].data, AllLanes(ws[1..]), k, m);
  }

  lemma NothingSummed(words: nat, octets: nat)
    ensures TailSummed(0, words, octets) == 0
  {
  }

  lemma LanesCons(ws: seq<Word>)
    requires ws != []
    ensures AllLanes(ws) == ws[0].data + AllLanes(ws[1..])
  {
  }

  lemma TakenLanes(s: Receiver, ws: seq<Word>)
    requires IsPacket(ws) && s.wordCount >= 2
    ensures LanesTaken(s, ws[0]) == if s.headerLen == 0 then 0 else if s.headerLen == 1 then 4
                                    else if |ws| > 1 then 8 else Even(|Octets(ws)|)
    ensures |ws| > 1 ==> |Octets(ws[1..])| == |Octets(ws)| - 8
  {
    hide Octets, Mask, KeepLen;
    if |ws| == 1 {
      LastWord(ws[0], KeepLen(ws[0].keep));
      assert ws == [ws[0]];
    } else {
      PacketHead(ws);
      KeepLenOfMask(8);
    }
  }

  lemma LastNumbers(r: nat, words: nat, octets: nat)
    requires words >= 1 && 8 * words - 8 < octets <= 8 * words && (words == 1 || 1 <= r <= 2)
    ensures var n := TailSummed(r, words, octets);
            && n == (if r == 0 then 0 else if r == 1 then 4 else if words > 1 then 8 else Even(octets))
            && n <= 8 * words && Reaches(r, words) == (1 <= r <= 2)
  {
    EvenBounds(octets);
    hide Even;
  }

  lemma OddStep(n: nat)
    ensures Odd(n + 2) == Odd(n)
  {
  }

  lemma EvenBounds(n: nat)
    ensures Even(n) <= n && Even(n + 8) == Even(n) + 8
    ensures n >= 8 ==> Even(n) >= 8
  {
  }

  lemma InnerNumbers(r: nat, r': nat, words: nat, octets: nat)
    requires words > 1 && 8 * words - 8 < octets <= 8 * words
    requires if r == 0 then r' == 0 else r == r' + 2 && r' > 0
    ensures var n, m := TailSummed(r, words, octets), TailSummed(r', words - 1, octets - 8);
            && n == m + (if r == 0 then 0 else 8) && m <= 8 * (words - 1) && n <= 8 * words
            && Reaches(r', words - 1) == Reaches(r, words)
  {
    EvenBounds(octets - 8);
    OddStep(r');
    hide Even, Odd;
  }

  lemma PrefixWithin(d: seq<Octet>, t: seq<Octet>, n: nat)
    requires n <= |d|
    ensures (d + t)[..n] == d[..n]
  {
  }

  lemma PrefixBeyond(d: seq<Octet>, t: seq<Octet>, k: nat, m: nat)
    requires k <= |d| && m <= |t| && (m > 0 ==> k == |d|)
    ensures (d + t)[..k + m] == d[..k] + t[..m]
  {
  }

  /** The word that completes the header hands the sums on. */
  lemma RecvEndWord(mine: Address, s: Receiver, w: Word)
    requires 2 <= s.wordCount <= 3 && 1 <= s.headerLen <= 2 && !s.sent && !s.send
    ensures RecvNext(mine, s, w).1 == Some(HeaderSums(AddTerms(s.sums, RecvTerms(s, w)), IsMatch(mine, NextDst(s, w)),
                                                      s.version == 4))
    ensures var t := RecvNext(mine, s, w).0;
            if w.last then RecvIdle(t) else t.wordCount == 3 && t.sent && t.headerLen == 0
  {
    hide AddTerms, RecvTerms, IsMatch;
  }

  /** Any other word is summed only; at the end of the packet the sums are handed on as those of a stranger. */
  lemma RecvInnerWord(mine: Address, s: Receiver, w: Word)
    requires 2 <= s.wordCount <= 3 && (s.headerLen == 0 || 3 <= s.headerLen <= 255) && !s.sent && !s.send
    ensures var (t, out) := RecvNext(mine, s, w);
            var sums := AddTerms(s.sums, RecvTerms(s, w));
            if w.last then out == Some(HeaderSums(sums, false, true)) && RecvIdle(t)
            else out == None && t.sums == sums && !t.sent && !t.send && t.wordCount == 3 && t.version == s.version
                 && t.dst == NextDst(s, w) && t.headerLen == if s.headerLen == 0 then 0 else s.headerLen - 2
  {
    hide AddTerms, RecvTerms, IsMatch;
  }

  /** What the words behind the first two make of the verdict, with r 32-bit words of header left. */
  lemma {:induction false} RecvTail(mine: Address, s: Receiver, ws: seq<Word>, r: nat)
    requires IsPacket(ws) && Folded(s.sums) && 2 <= s.wordCount <= 3 && s.headerLen == r <= 255 && !s.sent && !s.send
    ensures TailSummed(r, |ws|, |Octets(ws)|) <= 8 * |ws|
    ensures Hands(RecvRun(mine, s, ws), Total(s.sums) + WordSum(AllLanes(ws)[..TailSummed(r, |ws|, |Octets(ws)|)]),
                  Reaches(r, |ws|) && IsMatch(mine, NextDst(s, ws[0])), Reaches(r, |ws|) ==> s.version == 4)
    decreases |ws|
  {
    hide RecvNext, RecvRun, RecvTerms, AddTerms, Total, Fold, Folded, WordSum, IsMatch, Octets, AllLanes, TailSummed,
      Mask, LanesTaken;
    KeptPrefix(ws);
    RecvAdds(s, ws[0]);
    RecvUnfold(mine, s, ws);
    var s' := RecvNext(mine, s, ws[0]).0;
    if 1 <= r <= 2 || |ws| == 1 {
      TailLast(s, ws, r);
    } else {
      TailInner(s, ws, r, if r == 0 then 0 else r - 2);
    }
    if 1 <= r <= 2 {
      RecvEndWord(mine, s, ws[0]);
      RecvPayload(mine, s', ws);
    } else {
      RecvInnerWord(mine, s, ws[0]);
      if |ws| == 1 {
        NothingMore(mine, s');
        assert ws[1..] == [];
      } else {
        var r' := if r == 0 then 0 else r - 2;
        RecvTail(mine, s', ws[1..], r');
        var m := TailSummed(r', |ws| - 1, |Octets(ws[1..])|);
        var a, b := ws[0].data[..LanesTaken(s, ws[0])], AllLanes(ws[1..])[..m];
        SumOfBoth(a, b);
        SameFold(Total(s'.sums), Total(s.sums) + WordSum(a), WordSum(b));
      }
    }
  }

  lemma NothingMore(mine: Address, s: Receiver)
    ensures RecvRun(mine, s, []) == (s, [])
  {
  }

  lemma SumOfBoth(a: seq<Octet>, b: seq<Octet>)
    requires |a| % 2 == 0 || b == []
    ensures WordSum(a + b) == WordSum(a) + WordSum(b)
  {
    if b == [] {
      assert a + b == a;
    } else {
      WordSumConcat(a, b);
    }
  }

  lemma KeptPrefix(ws: seq<Word>)
    requires IsPacket(ws)
    ensures ws[0].keep == Mask(KeepLen(ws[0].keep)) && (|ws| > 1 ==> IsPacket(ws[1..])) && ws[0].last == (|ws| == 1)
  {
    KeepLenOfMask(8);
  }

  lemma NoSumsFolded()
    ensures Folded(NO_SUMS) && Total(NO_SUMS) == 0
  {
  }

  /** One of the first two words: at the end of the packet the sums are handed on as those of a stranger. */
  lemma RecvFirst(mine: Address, s: Receiver, w: Word)
    requires RecvIdle(s)
    ensures var sums, (t, out) := AddTerms(NO_SUMS, AllTerms(w)), RecvNext(mine, s, w);
            && Folded(sums) && Fold(Total(sums)) == Fold(WordSum(w.data))
            && if w.last then out == Some(HeaderSums(sums, false, true)) && RecvIdle(t)
               else out == None && t == s.(sums := sums, headerLen := LessTwo(LowNibble(w.data[0]), 256),
                                           version := HighNibble(w.data[0]), wordCount := 1)
  {
    NoSumsFolded();
    RecvAdds(s, w);
    assert w.data[..8] == w.data;
    hide AddTerms, Fold, WordSum, AllTerms;
  }

  lemma RecvSecond(mine: Address, s: Receiver, w: Word)
    requires s.wordCount == 1 && !s.sent && !s.send && Folded(s.sums)
    ensures var sums, (t, out) := AddTerms(s.sums, AllTerms(w)), RecvNext(mine, s, w);
            && Folded(sums) && Fold(Total(sums)) == Fold(Total(s.sums) + WordSum(w.data))
            && if w.last then out == Some(HeaderSums(sums, false, true)) && RecvIdle(t)
               else out == None && t == s.(sums := sums, headerLen := LessTwo(s.headerLen, 256), wordCount := 2)
  {
    RecvAdds(s, w);
    assert w.data[..8] == w.data;
    hide AddTerms, Fold, WordSum, AllTerms, Total;
  }

  /** How many 32-bit words of header are left after the first four, in the stage's eight-bit arithmetic. */
  function RestLength(b: seq<Octet>): nat { LessTwo(LessTwo(Ihl(b), 256), 256) }

  /** The octets the stage sums: the header, or 4 * (256 + IHL) octets when IHL is less than 4. */
  function Summed(b: seq<Octet>): seq<Octet>
    requires 16 + 4 * RestLength(b) <= |b|
  {
    b[..16 + 4 * RestLength(b)]
  }

  /** A packet whose summed octets are all present. */
  predicate Complete(b: seq<Octet>) { RestLength(b) > 0 && 16 + 4 * RestLength(b) <= |b| }

  function Destination(b: seq<Octet>): Address
    requires |b| >= 20
  {
    b[16..20]
  }

  /** Whether the packet has the word in which its header ends, by the stage's count. */
  predicate HeaderReached(ws: seq<Word>) { |ws| > 2 && Reaches(RestLength(AllLanes(ws)), |ws| - 2) }

  /** How many lanes of a packet the stage sums: all of the first two words, kept or not, and then what is kept. */
  function SummedLanes(ws: seq<Word>): nat {
    if |ws| <= 2 then 8 * |ws| else 16 + TailSummed(RestLength(AllLanes(ws)), |ws| - 2, |Octets(ws[2..])|)
  }

  /** A packet of one or two words: everything is summed and nothing matches. */
  lemma RecvTiny(mine: Address, s: Receiver, ws: seq<Word>)
    requires EndsOnce(ws) && RecvIdle(s) && |ws| <= 2
    ensures Hands(RecvRun(mine, s, ws), WordSum(AllLanes(ws)), false, true)
  {
    hide RecvRun, RecvNext, Total, Fold, WordSum, Folded, AddTerms, IsMatch, Octets;
    var s1 := RecvNext(mine, s, ws[0]).0;
    assert ws[0].last == (|ws| == 1);
    RecvUnfold(mine, s, ws);
    RecvFirst(mine, s, ws[0]);
    NothingMore(mine, s1);
    if |ws| == 1 {
      assert ws[1..] == [] && AllLanes(ws) == ws[0].data + AllLanes([]) == ws[0].data;
    } else {
      assert ws[1..][0] == ws[1] && ws[1..][1..] == [] && ws[1].last;
      RecvUnfold(mine, s1, ws[1..]);
      RecvSecond(mine, s1, ws[1]);
      NothingMore(mine, RecvNext(mine, s1, ws[1]).0);
      SameFold(Total(s1.sums), WordSum(ws[0].data), WordSum(ws[1].data));
      WordSumConcat(ws[0].data, ws[1].data);
      assert AllLanes(ws[1..]) == ws[1].data + AllLanes([]) == ws[1].data;
      assert AllLanes(ws) == ws[0].data + ws[1].data;
    }
  }

  lemma LanesOfThree(ws: seq<Word>)
    requires |ws| > 2
    ensures AllLanes(ws) == ws[0].data + (ws[1].data + AllLanes(ws[2..]))
    ensures AllLanes(ws)[0] == ws[0].data[0] && AllLanes(ws)[16..20] == ws[2].data[..4]
  {
    hide AllLanes;
    assert ws[1..][1..] == ws[2..];
    LanesCons(ws);
    LanesCons(ws[1..]);
    LanesCons(ws[2..]);
    SixteenOn(ws[0].data, ws[1].data, ws[2].data, AllLanes(ws[2..][1..]));
  }

  lemma SixteenOn(a: Lanes, b: Lanes, c: Lanes, t: seq<Octet>)
    ensures (a + (b + (c + t)))[16..20] == c[..4]
  {
  }

  lemma SummedBound(ws: seq<Word>)
    requires IsPacketOrBare(ws)
    ensures SummedLanes(ws) <= 8 * |ws|
  {
    if |ws| > 2 {
      KeptPrefix(ws);
      KeptPrefix(ws[1..]);
      assert ws[1..][1..] == ws[2..];
      PacketLength(ws[2..]);
    }
  }

  /** The verdict sums of one packet. */
  lemma RecvPacket(mine: Address, s: Receiver, ws: seq<Word>)
    requires IsPacketOrBare(ws) && RecvIdle(s)
    ensures SummedLanes(ws) <= 8 * |ws|
    ensures Hands(RecvRun(mine, s, ws), WordSum(AllLanes(ws)[..SummedLanes(ws)]),
                  HeaderReached(ws) && IsMatch(mine, AllLanes(ws)[16..20]),
                  HeaderReached(ws) ==> HighNibble(AllLanes(ws)[0]) == 4)
  {
    hide RecvRun, RecvNext, Total, Fold, WordSum, Octets, Folded, AddTerms, IsMatch, Hands, AllLanes, Mask, KeepLen;
    SummedBound(ws);
    if |ws| <= 2 {
      PacketEnds(ws);
      RecvTiny(mine, s, ws);
      assert AllLanes(ws)[..8 * |ws|] == AllLanes(ws);
    } else {
      RecvLong(mine, s, ws);
    }
  }

  lemma RecvLong(mine: Address, s: Receiver, ws: seq<Word>)
    requires IsPacket(ws) && RecvIdle(s) && |ws| > 2 && SummedLanes(ws) <= 8 * |ws|
    ensures Hands(RecvRun(mine, s, ws), WordSum(AllLanes(ws)[..SummedLanes(ws)]),
                  HeaderReached(ws) && IsMatch(mine, AllLanes(ws)[16..20]),
                  HeaderReached(ws) ==> HighNibble(AllLanes(ws)[0]) == 4)
  {
    hide RecvRun, RecvNext, Total, Fold, WordSum, Octets, IsPacket, Folded, AddTerms, IsMatch, Hands, AllLanes,
      RecvIdle, TailSummed, KeepLen, Mask;
    KeptPrefix(ws);
    KeptPrefix(ws[1..]);
    assert ws[1..][1..] == ws[2..];
    RecvFirstTwo(mine, s, ws[0], ws[1]);
    RecvTwoSteps(mine, s, ws);
    LanesOfThree(ws);
    var s2, r := RecvNext(mine, RecvNext(mine, s, ws[0]).0, ws[1]).0, RestLength(AllLanes(ws));
    var n := TailSummed(r, |ws| - 2, |Octets(ws[2..])|);
    var rest := WordSum(AllLanes(ws[2..])[..n]);
    SummedSplits(ws[0].data, ws[1].data, AllLanes(ws[2..]), n);
    RecvTail(mine, s2, ws[2..], r);
    SameFold(Total(s2.sums), WordSum(ws[0].data) + WordSum(ws[1].data), rest);
    var reached := Reaches(r, |ws| - 2);
    HandsSame(RecvRun(mine, s, ws), Total(s2.sums) + rest, WordSum(ws[0].data) + WordSum(ws[1].data) + rest,
              reached && IsMatch(mine, NextDst(s2, ws[2])), reached ==> s2.version == 4);
  }

  lemma HandsSame(run: (Receiver, seq<HeaderSums>), worth: nat, same: nat, ipMatch: bool, hdrValid: bool)
    requires Hands(run, worth, ipMatch, hdrValid) && Fold(worth) == Fold(same)
    ensures Hands(run, same, ipMatch, hdrValid)
  {
  }

  lemma RecvFirstTwo(mine: Address, s: Receiver, w0: Word, w1: Word)
    requires RecvIdle(s) && !w0.last && !w1.last
    ensures RecvNext(mine, s, w0).1 == None && RecvNext(mine, RecvNext(mine, s, w0).0, w1).1 == None
    ensures var s2 := RecvNext(mine, RecvNext(mine, s, w0).0, w1).0;
            && s2.wordCount == 2 && s2.headerLen == LessTwo(LessTwo(LowNibble(w0.data[0]), 256), 256)
            && s2.version == HighNibble(w0.data[0])
            && !s2.sent && !s2.send && Folded(s2.sums)
            && Fold(Total(s2.sums)) == Fold(WordSum(w0.data) + WordSum(w1.data))
  {
    hide RecvNext, Total, Fold, WordSum, Folded, AddTerms;
    RecvFirst(mine, s, w0);
    var s1 := RecvNext(mine, s, w0).0;
    RecvSecond(mine, s1, w1);
    SameFold(Total(s1.sums), WordSum(w0.data), WordSum(w1.data));
  }

  lemma SummedSplits(d0: Lanes, d1: Lanes, t: seq<Octet>, n: nat)
    requires n <= |t|
    ensures WordSum((d0 + (d1 + t))[..16 + n]) == WordSum(d0) + WordSum(d1) + WordSum(t[..n])
  {
    assert (d0 + (d1 + t))[..16 + n] == d0 + (d1 + t[..n]);
    WordSumConcat(d0, d1 + t[..n]);
    WordSumConcat(d1, t[..n]);
  }

  lemma RecvTwoSteps(mine: Address, s: Receiver, ws: seq<Word>)
    requires |ws| > 2
    requires RecvNext(mine, s, ws[0]).1 == None && RecvNext(mine, RecvNext(mine, s, ws[0]).0, ws[1]).1 == None
    ensures RecvRun(mine, s, ws) == RecvRun(mine, RecvNext(mine, RecvNext(mine, s, ws[0]).0, ws[1]).0, ws[2..])
  {
    hide RecvNext;
    var s1 := RecvNext(mine, s, ws[0]).0;
    RecvUnfold(mine, s, ws);
    RecvUnfold(mine, s1, ws[1..]);
    assert ws[1..][1..] == ws[2..];
    var more := RecvRun(mine, RecvNext(mine, s1, ws[1]).0, ws[2..]).1;
    assert [] + more == more;
  }

  /** Every packet, malformed or not, gets exactly one verdict and leaves the stage at a packet start. */
  lemma {:induction false} RecvOneVerdict(mine: Address, s: Receiver, ws: seq<Word>)
    requires IsPacket(ws) && (s.send ==> s.sent)
    ensures |RecvRun(mine, s, ws).1| == (if s.sent then 0 else 1) && RecvIdle(RecvRun(mine, s, ws).0)
    decreases |ws|
  {
    hide AddTerms, RecvTerms, IsMatch;
    RecvUnfold(mine, s, ws);
    if |ws| > 1 {
      RecvOneVerdict(mine, RecvNext(mine, s, ws[0]).0, ws[1..]);
    } else {
      assert RecvRun(mine, RecvNext(mine, s, ws[0]).0, ws[1..]).1 == [];
    }
  }

  /**
   * What the verdict says of any packet: it matches only if the word in which the header ends has come, and the
   * header is valid if the summed lanes add up to all ones and, once that word has come, the version is 4.
   */
  ghost predicate VerdictOf(mine: Address, ws: seq<Word>, v: Verdict) {
    IsPacketOrBare(ws) &&
    (SummedBound(ws);
     var b := AllLanes(ws);
     v == Verdict(HeaderReached(ws) && IsMatch(mine, b[16..20]),
                  (HeaderReached(ws) ==> HighNibble(b[0]) == 4) && Verifies(b[..SummedLanes(ws)])))
  }

  lemma RecvVerdict(mine: Address, s: Receiver, ws: seq<Word>)
    requires IsPacketOrBare(ws) && RecvIdle(s)
    ensures |RecvRun(mine, s, ws).1| == 1 && RecvIdle(RecvRun(mine, s, ws).0)
    ensures VerdictOf(mine, ws, Judge(RecvRun(mine, s, ws).1[0]))
  {
    hide RecvRun, WordSum, IsPacket, IsMatch, Total, Fold, Finalize, AllLanes, SummedLanes, HeaderReached;
    RecvPacket(mine, s, ws);
    FinalizeInverts(RecvRun(mine, s, ws).1[0].sums);
  }

  /**
   * For a packet that carries all summed octets: it matches by its destination, and its header is valid exactly
   * when its version is 4 and the one's complement sum of the summed octets is all ones.
   */
  lemma CompleteVerdict(mine: Address, ws: seq<Word>, v: Verdict)
    requires VerdictOf(mine, ws, v) && Complete(Octets(ws))
    ensures var b := Octets(ws);
            v == Verdict(IsMatch(mine, Destination(b)), HighNibble(b[0]) == 4 && Verifies(Summed(b)))
  {
    hide Verifies, IsMatch, AllLanes, SummedLanes, HeaderReached, RestLength;
    var b, all := Octets(ws), AllLanes(ws);
    if |ws| == 1 {
      BareOctets(ws);
    }
    hide Octets;
    LanesCarryOctets(ws);
    PacketLength(ws);
    hide IsPacket;
    CompleteSummed(ws);
    CompleteSlices(all, |b|, 16 + 4 * RestLength(b));
  }

  /**
   * The verdict on a packet whose header is at least five words, in octets: it matches if its destination is this
   * host, a group from 224 to 239, or all ones; its header, 4 * IHL octets, is valid if its first octet is 64 to 79
   * and its one's complement sum is all ones.
   */
  lemma VerdictInOctets(mine: Address, ws: seq<Word>, v: Verdict)
    requires VerdictOf(mine, ws, v) && HasHeader(Octets(ws))
    ensures var b := Octets(ws);
            && |b| >= 20 && b[0] % 16 * 4 <= |b|
            && (v.ipMatch <==> b[16..20] == mine || 224 <= b[16] <= 239 || b[16] == b[17] == b[18] == b[19] == 255)
            && (v.hdrValid <==> 64 <= b[0] < 80 && Verifies(b[..b[0] % 16 * 4]))
  {
    hide VerdictOf, Verifies, IsMatch, HighNibble, Octets;
    SummedIsHeader(Octets(ws));
    CompleteVerdict(mine, ws, v);
    MatchInOctets(mine, Octets(ws)[16..20]);
    VersionInOctets(Octets(ws)[0]);
  }

  lemma MatchInOctets(mine: Address, dst: Address)
    ensures IsMatch(mine, dst) <==> dst == mine || 224 <= dst[0] <= 239 || dst[0] == dst[1] == dst[2] == dst[3] == 255
  {
  }

  lemma VersionInOctets(x: Octet)
    ensures HighNibble(x) == 4 <==> 64 <= x < 80
  {
  }

  lemma CompleteSlices(all: seq<Octet>, n: nat, m: nat)
    requires 20 <= m <= n <= |all|
    ensures all[..n][0] == all[0] && all[..m] == all[..n][..m] && all[16..20] == all[..n][16..20]
  {
  }

  lemma CompleteSummed(ws: seq<Word>)
    requires IsPacket(ws) && Complete(Octets(ws)) && |Octets(ws)| <= 8 * |ws| && |ws| > 2
    requires Octets(ws)[0] == AllLanes(ws)[0]
    ensures HeaderReached(ws) && SummedLanes(ws) == 16 + 4 * RestLength(Octets(ws))
  {
    hide Octets, AllLanes, IsPacket, LessTwo, LowNibble;
    TailCarried(ws);
    FourTimesEven(RestLength(Octets(ws)), |Octets(ws)| - 16);
  }

  lemma FourTimesEven(r: nat, n: nat)
    requires 4 * r <= n
    ensures 4 * r <= Even(n)
  {
  }

  lemma BareOctets(ws: seq<Word>)
    requires |ws| == 1
    ensures |Octets(ws)| <= 8
  {
    assert Octets(ws[1..]) == [];
  }

  lemma TailCarried(ws: seq<Word>)
    requires IsPacket(ws) && |ws| > 2
    ensures |Octets(ws[2..])| == |Octets(ws)| - 16
  {
    hide Octets, Mask, KeepLen;
    PacketHead(ws);
    PacketHead(ws[1..]);
    assert ws[1..][1..] == ws[2..];
  }

  /** Over any traffic, malformed packets included, the receiver gives one verdict per packet, in order. */
  lemma {:induction false} RecvTraffic(mine: Address, s: Receiver, ps: seq<seq<Word>>)
    requires RecvIdle(s) && forall i :: 0 <= i < |ps| ==> IsPacketOrBare(ps[i])
    ensures RecvIdle(RecvRun(mine, s, Flatten(ps)).0) && |RecvRun(mine, s, Flatten(ps)).1| == |ps|
    ensures forall i :: 0 <= i < |ps| ==> VerdictOf(mine, ps[i], Judge(RecvRun(mine, s, Flatten(ps)).1[i]))
    decreases |ps|
  {
    hide VerdictOf, RecvNext, IsPacketOrBare, Judge, RecvIdle;
    if ps != [] {
      var s', first := RecvRun(mine, s, ps[0]).0, RecvRun(mine, s, ps[0]).1;
      RecvVerdict(mine, s, ps[0]);
      RecvSplit(mine, s, ps[0], Flatten(ps[1..]));
      RecvTraffic(mine, s', ps[1..]);
      var more := RecvRun(mine, s', Flatten(ps[1..])).1;
      forall i | 0 <= i < |ps| ensures VerdictOf(mine, ps[i], Judge(RecvRun(mine, s, Flatten(ps)).1[i])) {
        if i > 0 {
          assert ps[i] == ps[1..][i - 1] && (first + more)[i] == more[i - 1];
        }
      }
    }
  }

  /** For a header of at least five words the summed octets are the header itself. */
  lemma SummedIsHeader(b: seq<Octet>)
    requires HasHeader(b)
    ensures Complete(b) && Summed(b) == Header(b)
  {
  }

  /**
   * Sender to receiver: whatever header options and payload a datagram has, once the sender has stored its checksum
   * the receiver finds the header valid exactly when its version is 4.
   */
  lemma SentHeaderAccepted(mine: Address, a: Sender, i: Inserter, s: Receiver, ps: seq<seq<Word>>)
    returns (qs: seq<seq<Word>>)
    requires IsDatagrams(ps) && RecvIdle(s)
    requires a.sums == NO_SUMS && a.wordCount == 0 && i.wordCount == 0 && i.checksum <= 65535
    ensures InsertRun(i, Flatten(ps), FinalizeAll(SenderRun(true, a, Flatten(ps)).1)).3 == Flatten(qs)
    ensures |qs| == |ps| == |RecvRun(mine, s, Flatten(qs)).1|
    ensures forall k :: 0 <= k < |ps| ==>
              Checksummed(ps[k], qs[k])
              && Judge(RecvRun(mine, s, Flatten(qs)).1[k]).hdrValid == (HighNibble(Octets(ps[k])[0]) == 4)
  {
    hide RecvRun, InsertRun, SenderRun, Judge, Verifies, HeaderChecksum, Flatten, RecvIdle, FinalizeAll;
    qs := SendTraffic(a, i, ps);
    assert IsTraffic(qs) by { assert forall k :: 0 <= k < |ps| ==> Checksummed(ps[k], qs[k]); }
    RecvTraffic(mine, s, qs);
    forall k | 0 <= k < |ps|
      ensures Judge(RecvRun(mine, s, Flatten(qs)).1[k]).hdrValid == (HighNibble(Octets(ps[k])[0]) == 4)
    {
      assert Checksummed(ps[k], qs[k]);
      StoredChecksumVerifies(Octets(ps[k]));
      SummedIsHeader(Octets(qs[k]));
      assert VerdictOf(mine, qs[k], Judge(RecvRun(mine, s, Flatten(qs)).1[k]));
      CompleteVerdict(mine, qs[k], Judge(RecvRun(mine, s, Flatten(qs)).1[k]));
    }
  }
}