/**
 * `check_icmp_checksum`: while an echo request streams past, its addresses are swapped, its type changed, its
 * ICMP sum taken and the replacement checksum prepared.
 */
module IcmpCheck {
  import opened Wrappers
  import opened OnesComplement
  import opened AxiStream
  import opened LaneSums
  import opened IcmpReply

  /** The static state; `computeState` is a two-bit and `wordCount` a sixteen-bit counter. */
  datatype Checker = Checker(sums: Sums, wordCount: nat, prev: Word, writeLastOne: bool, computeCs: bool,
                             computeState: nat, checksum: nat, kind: Octet, code: Octet, multicast: bool)

  /** What one call leaves in the input and writes to its three outputs. */
  datatype Effect = Effect(rest: seq<Word>, words: seq<Word>, valid: seq<bool>, checksums: seq<Octets16>)

  function Lanes4(a: seq<Octet>, b: seq<Octet>): Lanes
    requires |a| == 4 && |b| == 4
  {
    a + b
  }

  /** Only the ICMP half of word 2. */
  function UpperTerms(w: Word): Terms { [None, None, Some(BigEndian(w, 2)), Some(BigEndian(w, 3))] }

  function TtlWord(w: Word): Word { w.(data := PatchTtl(w.data)) }

  /** Bitwise inversion of a 17-bit register. */
  function Not17(x: nat): nat {
    var v := x;
    0x1FFFF - Low17(v)
  }

  /** What compute state 3 asks of the folded sum and the fields noted on the way. */
  predicate IsEcho(s: Checker) { Low16(s.sums[0]) == 0 && s.kind == ECHO_REQUEST && s.code == 0 && !s.multicast }

  /** Whether the next call counts an echo request, enabled or not. */
  predicate CountsEcho(s: Checker) { !s.writeLastOne && s.computeCs && s.computeState >= 3 && IsEcho(s) }

  /** One of the four calls that fold the sums and update the checksum. */
  function ComputeNext(enable: bool, s: Checker): (Checker, seq<bool>, seq<Octets16>) {
    var t := s.(computeState := (s.computeState + 1) % 4);
    match s.computeState
    case 0 =>
      (t.(sums := [Accumulate(s.sums[0], s.sums[2]), Accumulate(s.sums[1], s.sums[3]), s.sums[2], s.sums[3]],
          checksum := Not17(s.checksum)), [], [])
    case 1 =>
      (t.(sums := s.sums[0 := Accumulate(s.sums[0], s.sums[1])], checksum := Borrowed(s.checksum)), [], [])
    case 2 =>
      (t.(sums := s.sums[0 := Not17(s.sums[0])], checksum := Not17(s.checksum)), [], [])
    case _ =>
      var ok := IsEcho(s) && enable;
      (t.(computeCs := false), [ok], if ok then [Low16(s.checksum)] else [])
  }

  /** A word read from the stream. */
  function ReadNext(s: Checker, w: Word): (r: (Checker, seq<Word>))
    ensures r.0.computeState == s.computeState && r.0.computeCs == r.0.writeLastOne == w.last
  {
    var count := if w.last then 0 else Low16(s.wordCount + 1);
    var t := s.(prev := w, wordCount := count, writeLastOne := w.last, computeCs := w.last);
    match s.wordCount
    case 0 => (t.(sums := NO_SUMS), [])
    case 1 => (t.(prev := TtlWord(w)), [s.prev])
    case 2 =>
      (t.(sums := AddTerms(s.sums, UpperTerms(w)),
          prev := w.(data := Lanes4(s.prev.data[4..], [ECHO_REPLY] + w.data[5..])),
          kind := w.data[4], code := w.data[5], multicast := HighNibble(w.data[0]) == 0xE,
          checksum := 0x10000 + Pair(w.data[7], w.data[6])),
       [Word(Lanes4(s.prev.data[..4], w.data[..4]), Full(), false)])
    case _ => (t.(sums := AddTerms(s.sums, KeptTerms(w))), [s.prev])
  }

  function CheckNext(enable: bool, s: Checker, input: seq<Word>): (Checker, Effect) {
    if s.writeLastOne then (s.(writeLastOne := false), Effect(input, [s.prev], [], []))
    else if s.computeCs then
      var (t, valid, checksums) := ComputeNext(enable, s);
      (t, Effect(input, [], valid, checksums))
    else if input != [] then
      var (t, words) := ReadNext(s, input[0]);
      (t, Effect(input[1..], words, [], []))
    else (s, Effect(input, [], [], []))
  }

  predicate Pending(s: Checker) { s.writeLastOne || s.computeCs }

  /** Calls left before the stage reads again. */
  function PendingCalls(s: Checker): nat {
    (if s.writeLastOne then 1 else 0) + (if s.computeCs then 4 - s.computeState % 4 else 0)
  }

  function Then(e: Effect, more: Effect): Effect {
    Effect(more.rest, e.words + more.words, e.valid + more.valid, e.checksums + more.checksums)
  }

  /** Calls the stage until its input is consumed and nothing is pending. */
  function CheckRun(enable: bool, s: Checker, input: seq<Word>): Effect
    requires s.computeState < 4
    decreases |input|, PendingCalls(s)
  {
    if !Pending(s) && input == [] then Effect([], [], [], [])
    else
      var (t, e) := CheckNext(enable, s, input);
      Then(e, CheckRun(enable, t, e.rest))
  }

  class CheckIcmpChecksumStage {
    const sums: array<nat>
    var wordCount: nat
    var prevWord: Word
    var writeLastOne: bool
    var computeCs: bool
    var computeState: nat
    var icmpChecksum: nat
    var icmpType: Octet
    var icmpCode: Octet
    var isMulticast: bool
    var cntIcmpInEchos: nat

    constructor (uninitialised: Word)
      ensures fresh(sums) && sums.Length == 4 && Idle(State()) && cntIcmpInEchos == 0
    {
      sums := new nat[4](_ => 0);
      wordCount, prevWord, writeLastOne, computeCs, computeState := 0, uninitialised, false, false, 0;
      icmpChecksum, icmpType, icmpCode, isMulticast, cntIcmpInEchos := 0, 0, 0, false, 0;
    }

    function State(): Checker
      requires sums.Length == 4
      reads this, sums
    {
      Checker(sums[..], wordCount, prevWord, writeLastOne, computeCs, computeState, icmpChecksum, icmpType, icmpCode,
              isMulticast)
    }

    /** The four compute states. */
    method Compute(enable: bool) returns (valid: seq<bool>, checksums: seq<Octets16>)
      requires sums.Length == 4
      modifies this, sums
      ensures (State(), valid, checksums) == ComputeNext(enable, old(State()))
      ensures cntIcmpInEchos == if old(computeState) >= 3 && IsEcho(old(State()))
                                then (old(cntIcmpInEchos) + 1) % 0x1_0000_0000 else old(cntIcmpInEchos)
    {
      hide Accumulate, Borrowed;
      valid, checksums := [], [];
      match computeState {
        case 0 =>
          sums[0] := Accumulate(sums[0], sums[2]);
          sums[1] := Accumulate(sums[1], sums[3]);
          icmpChecksum := Not17(icmpChecksum);
        case 1 =>
          sums[0] := Accumulate(sums[0], sums[1]);
          icmpChecksum := Borrowed(icmpChecksum);
        case 2 =>
          sums[0] := Not17(sums[0]);
          icmpChecksum := Not17(icmpChecksum);
        case _ =>
          if Low16(sums[0]) == 0 && icmpType == ECHO_REQUEST && icmpCode == 0 && !isMulticast {
            cntIcmpInEchos := (cntIcmpInEchos + 1) % 0x1_0000_0000;
            if enable {
              valid, checksums := [true], [Low16(icmpChecksum)];
            } else {
              valid := [false];
            }
          } else {
            valid := [false];
          }
          computeCs := false;
      }
      computeState := (computeState + 1) % 4;
      assert sums[..] == ComputeNext(enable, old(State())).0.sums;
    }

    /** The switch on the word count. */
    method Read(word: Word) returns (words: seq<Word>)
      requires sums.Length == 4
      modifies this, sums
      ensures (State(), words) == ReadNext(old(State()), word) && cntIcmpInEchos == old(cntIcmpInEchos)
    {
      hide AddTerms, KeptTerms, UpperTerms, PatchTtl;
      words := [];
      var currWord := word;
      match wordCount {
        case 0 =>
          ClearLanes(sums);
        case 1 =>
          words := [prevWord];
          currWord := TtlWord(currWord);
        case 2 =>
          isMulticast := HighNibble(word.data[0]) == 0xE;
          icmpType, icmpCode := word.data[4], word.data[5];
          icmpChecksum := 0x10000 + Pair(word.data[7], word.data[6]);
          words := [Word(Lanes4(prevWord.data[..4], word.data[..4]), Full(), false)];
          AddLanes(sums, UpperTerms(word));
          currWord := word.(data := Lanes4(prevWord.data[4..], [ECHO_REPLY] + word.data[5..]));
        case _ =>
          AddLanes(sums, KeptTerms(word));
          words := [prevWord];
      }
      prevWord := currWord;
      wordCount := Low16(wordCount + 1);
      writeLastOne, computeCs := false, false;
      if word.last {
        wordCount, writeLastOne, computeCs := 0, true, true;
      }
    }

    method Step(input: seq<Word>, enable: bool)
      returns (rest: seq<Word>, words: seq<Word>, valid: seq<bool>, checksums: seq<Octets16>)
      requires sums.Length == 4
      modifies this, sums
      ensures (State(), Effect(rest, words, valid, checksums)) == CheckNext(enable, old(State()), input)
      ensures cntIcmpInEchos == if CountsEcho(old(State())) then (old(cntIcmpInEchos) + 1) % 0x1_0000_0000
                                else old(cntIcmpInEchos)
    {
      hide ComputeNext, ReadNext;
      rest, words, valid, checksums := input, [], [], [];
      if writeLastOne {
        words := [prevWord];
        writeLastOne := false;
      } else if computeCs {
        valid, checksums := Compute(enable);
      } else if input != [] {
        rest := input[1..];
        words := Read(input[0]);
      }
    }
  }

  /** Between packets. */
  ghost predicate Idle(s: Checker) { !Pending(s) && s.computeState == 0 && s.wordCount == 0 }

  // ---------------------------------------------------------------- a packet at a time

  lemma RunReads(enable: bool, s: Checker, w: Word, more: seq<Word>)
    requires !Pending(s) && s.computeState < 4
    ensures var (t, words) := ReadNext(s, w);
            CheckRun(enable, s, [w] + more) == Then(Effect([], words, [], []), CheckRun(enable, t, more))
  {
    hide ReadNext;
    assert ([w] + more)[1..] == more;
    var e := CheckRun(enable, ReadNext(s, w).0, more);
    RunDrains(enable, ReadNext(s, w).0, more);
  }

  lemma {:induction false} RunDrains(enable: bool, s: Checker, input: seq<Word>)
    requires s.computeState < 4
    ensures CheckRun(enable, s, input).rest == []
    decreases |input|, PendingCalls(s)
  {
    hide ReadNext;
    if Pending(s) || input != [] {
      var (t, e) := CheckNext(enable, s, input);
      RunDrains(enable, t, e.rest);
    }
  }

  /** Whether the request read so far will be answered, and the answer's checksum. */
  ghost predicate Answers(enable: bool, s: Checker) {
    enable && Finalize(s.sums) == 0 && s.kind == ECHO_REQUEST && s.code == 0 && !s.multicast
  }

  /** The state after three compute calls. */
  ghost function Computed(enable: bool, s: Checker): Checker {
    ComputeNext(enable, ComputeNext(enable, ComputeNext(enable, s).0).0).0
  }

  lemma ComputedState(enable: bool, s: Checker, c: Octets16)
    requires s.computeState == 0 && Folded(s.sums)
    ensures var t := Computed(enable, s);
            && t == s.(computeState := 3, sums := t.sums, checksum := t.checksum)
            && Low16(t.sums[0]) == Finalize(s.sums)
            && (s.checksum == 0x10000 + c ==> Low16(t.checksum) == NewChecksum(c))
  {
    hide Accumulate, Borrowed;
    var x := Accumulate(Accumulate(s.sums[0], s.sums[2]), Accumulate(s.sums[1], s.sums[3]));
    var y := Borrowed(Complemented(c));
    AccumulateBound(Accumulate(s.sums[0], s.sums[2]), Accumulate(s.sums[1], s.sums[3]));
    BorrowedBound(Complemented(c));
    BorrowIsNew(c);
    LowNot(x);
    LowNot(y);
    assert Computed(enable, s).sums[0] == Not17(x);
    assert Not17(0x10000 + c) == Complemented(c);
    assert s.checksum == 0x10000 + c ==> Computed(enable, s).checksum == Not17(y);
  }

  lemma LowNot(x: nat)
    requires x <= 65535
    ensures Low16(Not17(x)) == Low16(0x1FFFF - x)
  {
  }

  lemma AccumulateBound(a: nat, b: nat)
    ensures Accumulate(a, b) <= 65535
  {
  }

  lemma BorrowedBound(a: nat)
    ensures Borrowed(a) <= 65535
  {
  }

  lemma RunSilent(enable: bool, s: Checker, more: seq<Word>)
    requires s.computeState < 3 && s.computeCs && !s.writeLastOne
    ensures CheckRun(enable, s, more) == CheckRun(enable, ComputeNext(enable, s).0, more)
    ensures ComputeNext(enable, s).0.computeState == s.computeState + 1
    ensures ComputeNext(enable, s).0.computeCs && !ComputeNext(enable, s).0.writeLastOne
  {
    hide CheckRun, Then, Accumulate, Borrowed, Not17;
    RunComputes(enable, s, more);
    ThenNothing(CheckRun(enable, ComputeNext(enable, s).0, more));
  }

  lemma ThenNothing(e: Effect)
    ensures Then(Effect([], [], [], []), e) == e
  {
  }

  lemma RunComputes(enable: bool, s: Checker, more: seq<Word>)
    requires s.computeState < 4 && s.computeCs && !s.writeLastOne
    ensures var c := ComputeNext(enable, s);
            CheckRun(enable, s, more) == Then(Effect([], [], c.1, c.2), CheckRun(enable, c.0, more))
  {
    hide ComputeNext;
    RunDrains(enable, s, more);
  }

  /** At the end of a packet the stage writes its last word, one verdict and, for an answer, one checksum. */
  lemma RunFlush(enable: bool, s: Checker, c: Octets16, more: seq<Word>) returns (t: Checker)
    requires s.computeState == 0 && s.computeCs && s.writeLastOne && s.wordCount == 0
    requires Folded(s.sums) && (s.checksum == 0x10000 + c || !Answers(enable, s))
    ensures Idle(t)
    ensures var ok := Answers(enable, s);
            CheckRun(enable, s, more) ==
            Then(Effect([], [s.prev], [ok], if ok then [NewChecksum(c)] else []), CheckRun(enable, t, more))
  {
    hide ComputeNext, CheckRun, Then, Finalize, NewChecksum, Answers, Folded;
    var s0 := s.(writeLastOne := false);
    var s1 := ComputeNext(enable, s0).0;
    var s2 := ComputeNext(enable, s1).0;
    RunSilent(enable, s0, more);
    RunSilent(enable, s1, more);
    RunSilent(enable, s2, more);
    ComputedState(enable, s0, c);
    SameAnswer(enable, s, s0);
    t := RunVerdict(enable, s0, Computed(enable, s0), c, more);
    RunLastWord(enable, s, more);
    var ok := Answers(enable, s);
    ThenJoin(s.prev, [ok], if ok then [NewChecksum(c)] else [], CheckRun(enable, t, more));
  }

  lemma SameAnswer(enable: bool, s: Checker, t: Checker)
    requires t == s.(writeLastOne := false)
    ensures Answers(enable, s) == Answers(enable, t)
  {
  }

  lemma RunLastWord(enable: bool, s: Checker, more: seq<Word>)
    requires s.computeState < 4 && s.writeLastOne
    ensures CheckRun(enable, s, more) ==
            Then(Effect([], [s.prev], [], []), CheckRun(enable, s.(writeLastOne := false), more))
  {
    RunDrains(enable, s, more);
  }

  lemma ThenJoin(w: Word, valid: seq<bool>, checksums: seq<Octets16>, e: Effect)
    ensures Then(Effect([], [w], [], []), Then(Effect([], [], valid, checksums), e)) ==
            Then(Effect([], [w], valid, checksums), e)
  {
    assert [w] + ([] + e.words) == ([w] + []) + e.words;
  }

  lemma RunVerdict(enable: bool, s: Checker, u: Checker, c: Octets16, more: seq<Word>) returns (t: Checker)
    requires !s.writeLastOne && s.computeCs && s.wordCount == 0
    requires u == s.(computeState := 3, sums := u.sums, checksum := u.checksum)
    requires Low16(u.sums[0]) == Finalize(s.sums)
    requires Low16(u.checksum) == NewChecksum(c) || !Answers(enable, s)
    ensures Idle(t)
    ensures var ok := Answers(enable, s);
            CheckRun(enable, u, more) ==
            Then(Effect([], [], [ok], if ok then [NewChecksum(c)] else []), CheckRun(enable, t, more))
  {
    hide NewChecksum, Finalize;
    t := ComputeNext(enable, u).0;
    RunComputes(enable, u, more);
  }

  /** Whether the request will be answered once octets of the given exact sum have been added. */
  ghost predicate Accepts(enable: bool, s: Checker, worth: nat) {
    enable && Fold(Total(s.sums) + worth) == 65535 && s.kind == ECHO_REQUEST && s.code == 0 && !s.multicast
  }

  /** The effect of one packet on the three outputs. */
  ghost function PacketEffect(words: seq<Word>, ok: bool, c: Octets16): Effect {
    Effect([], words, [ok], if ok then [NewChecksum(c)] else [])
  }

  lemma AnswersIsAccepts(enable: bool, s: Checker)
    requires Folded(s.sums)
    ensures Answers(enable, s) == Accepts(enable, s, 0)
  {
    FinalizeInverts(s.sums);
  }

  ghost predicate InPacket(s: Checker, c: Octets16) {
    !Pending(s) && s.computeState == 0 && 3 <= s.wordCount && s.checksum == 0x10000 + c && Folded(s.sums)
  }

  /** One word of ICMP data. */
  lemma RunData(enable: bool, s: Checker, w: Word, c: Octets16, worth: nat)
    requires InPacket(s, c) && s.wordCount < 0x10000 && w.keep == Mask(KeepLen(w.keep))
    requires !w.last ==> s.wordCount < 0xFFFF
    ensures var t := ReadNext(s, w).0;
            && ReadNext(s, w).1 == [s.prev] && t.prev == w && t.checksum == s.checksum && Folded(t.sums)
            && Accepts(enable, t, worth) == Accepts(enable, s, WordSum(Payload(w)) + worth)
            && (!w.last ==> InPacket(t, c) && t.wordCount == s.wordCount + 1)
            && (w.last ==> t.computeCs && t.writeLastOne && t.wordCount == 0)
  {
    WordFolds(s.sums, w, worth);
  }

  lemma {:induction false} RunTail(enable: bool, s: Checker, ws: seq<Word>, c: Octets16, more: seq<Word>)
    returns (t: Checker)
    requires InPacket(s, c) && IsPacket(ws) && s.wordCount + |ws| <= 0x10000
    ensures Idle(t)
    ensures CheckRun(enable, s, ws + more) ==
            Then(PacketEffect([s.prev] + ws, Accepts(enable, s, WordSum(Octets(ws))), c), CheckRun(enable, t, more))
    decreases |ws|
  {
    hide ReadNext, CheckRun, Accepts, Answers, NewChecksum, Fold, WordSum, AddTerms;
    var w, s' := ws[0], ReadNext(s, ws[0]).0;
    KeepLenOfMask(8);
    RunData(enable, s, w, c, WordSum(Octets(ws[1..])));
    WordSumHead(ws);
    assert ws + more == [w] + (ws[1..] + more);
    RunReads(enable, s, w, ws[1..] + more);
    if |ws| == 1 {
      t := RunFlush(enable, s', c, more);
      assert ws[1..] + more == more && ws == [w];
      AnswersIsAccepts(enable, s');
      EmptySum();
      ThenWords([s.prev], [w], Answers(enable, s'), c, CheckRun(enable, t, more));
    } else {
      t := RunTail(enable, s', ws[1..], c, more);
      ThenWords([s.prev], [w] + ws[1..], Accepts(enable, s', WordSum(Octets(ws[1..]))), c, CheckRun(enable, t, more));
      assert ws == [w] + ws[1..];
    }
  }

  lemma EmptySum()
    ensures WordSum(Octets([])) == 0
  {
  }

  lemma ThenWords(a: seq<Word>, b: seq<Word>, ok: bool, c: Octets16, e: Effect)
    ensures Then(Effect([], a, [], []), Then(PacketEffect(b, ok, c), e)) == Then(PacketEffect(a + b, ok, c), e)
  {
    hide NewChecksum;
  }

  // ---------------------------------------------------------------- the whole packet

  /** The packet as it leaves the stage: everything but the new checksum is in place. */
  function Swapped(ws: seq<Word>): seq<Word>
    requires |ws| >= 3
  {
    [ws[0], Word(Lanes4(PatchTtl(ws[1].data)[..4], ws[2].data[..4]), Full(), false), SwappedTwo(ws[1], ws[2])] + ws[3..]
  }

  function SwappedTwo(w1: Word, w2: Word): Word {
    w2.(data := Lanes4(w1.data[4..], [ECHO_REPLY] + w2.data[5..]))
  }

  /** What the stage makes of any packet; short ones never reach the word that holds the ICMP header. */
  function Passed(ws: seq<Word>): (r: seq<Word>)
    ensures |r| == |ws|
  {
    if |ws| < 2 then ws else if |ws| == 2 then [ws[0], TtlWord(ws[1])] else Swapped(ws)
  }

  /**
   * The octets the stage goes by: those the packet carries, except that word 2 is taken with all its lanes, kept or
   * not, when it is the last word.
   */
  function Content(ws: seq<Word>): (r: seq<Octet>)
    requires |ws| >= 3
    ensures |r| >= 24
  {
    ws[0].data + (ws[1].data + (ws[2].data + Octets(ws[3..])))
  }

  /** Whether the stage finds an echo request worth an answer in the packet. */
  predicate IsRequest(ws: seq<Word>) { |ws| >= 3 && IsEchoRequest(Content(ws)) }

  function OldChecksum(ws: seq<Word>): Octets16
    requires |ws| >= 3
  {
    Pair(ws[2].data[7], ws[2].data[6])
  }

  /** The two words before the one that holds the ICMP header are full. */
  lemma FirstWords(ws: seq<Word>)
    requires IsPacket(ws) && |ws| >= 3
    ensures !ws[0].last && !ws[1].last && ws[0].keep == ws[1].keep == Full() && ws[2].last == (|ws| == 3)
    ensures |ws| > 3 ==> ws[2].keep == Full() && IsPacket(ws[3..])
    ensures IsPacket(ws[2..]) && Octets(ws) == ws[0].data + (ws[1].data + Octets(ws[2..]))
    ensures ws == [ws[0]] + ([ws[1]] + ([ws[2]] + ws[3..])) && ws[2..] == [ws[2]] + ws[3..]
  {
    hide Octets, Mask;
    PacketHead(ws);
    PacketHead(ws[1..]);
    assert ws[1..][1..] == ws[2..] && ws[2..][1..] == ws[3..];
    assert IsPacket(ws[2..]) && ws[2..][0] == ws[2];
  }

  /** With 24 octets the content is what the packet carries. */
  lemma ContentIsOctets(ws: seq<Word>)
    requires IsPacket(ws) && |Octets(ws)| >= 24
    ensures |ws| >= 3 && Content(ws) == Octets(ws)
  {
    hide Octets, Mask;
    PacketLength(ws);
    FirstWords(ws);
    if |ws| == 3 {
      assert ws[3..] == [] && ws[2..] == [ws[2]];
      LastWord(ws[2], KeepLen(ws[2].keep));
      assert Octets(ws[2..]) == ws[2].data;
      NoOctets();
      assert ws[2].data + Octets(ws[3..]) == ws[2].data;
    } else {
      PacketHead(ws[2..]);
      assert ws[2..][1..] == ws[3..];
    }
  }

  lemma NoOctets()
    ensures Octets([]) == []
  {
  }

  /** The registers behind the word that holds the ICMP header. */
  ghost predicate HeaderRead(u: Checker, w1: Word, w2: Word) {
    && u.checksum == 0x10000 + Pair(w2.data[7], w2.data[6]) && u.prev == SwappedTwo(w1, w2)
    && u.kind == w2.data[4] && u.code == w2.data[5] && u.multicast == (HighNibble(w2.data[0]) == 0xE)
    && u.computeState == 0 && u.wordCount == (if w2.last then 0 else 3) && u.writeLastOne == u.computeCs == w2.last
    && Folded(u.sums) && Fold(Total(u.sums)) == Fold(WordSum(w2.data[4..]))
  }

  /** What reading the word that holds the ICMP header does. */
  lemma ThirdRead(s: Checker, w1: Word, w2: Word)
    requires !Pending(s) && s.computeState == 0 && s.wordCount == 2 && s.sums == NO_SUMS && s.prev == TtlWord(w1)
    ensures HeaderRead(ReadNext(s, w2).0, w1, w2)
    ensures ReadNext(s, w2).1 == [Word(Lanes4(PatchTtl(w1.data)[..4], w2.data[..4]), Full(), false)]
  {
    hide AddTerms, PatchTtl, Fold, WordSum, Folded, Total;
    UpperSum(w2);
    PatchTail(w1.data);
    assert ReadNext(s, w2).0.prev == SwappedTwo(w1, w2);
  }

  lemma FirstReads(s: Checker, w0: Word, w1: Word)
    requires Idle(s) && !w0.last && !w1.last
    ensures var s1 := ReadNext(s, w0).0;
            var s2 := ReadNext(s1, w1).0;
            && !Pending(s1) && s1.computeState == 0 && ReadNext(s, w0).1 == [] && ReadNext(s1, w1).1 == [w0]
            && !Pending(s2) && s2.computeState == 0 && s2.wordCount == 2 && s2.sums == NO_SUMS && s2.prev == TtlWord(w1)
  {
    hide PatchTtl;
  }

  /** The state behind the first three words. */
  lemma RunThree(enable: bool, s: Checker, w0: Word, w1: Word, w2: Word, more: seq<Word>) returns (u: Checker)
    requires Idle(s) && !w0.last && !w1.last
    ensures HeaderRead(u, w1, w2)
    ensures CheckRun(enable, s, [w0] + ([w1] + ([w2] + more))) ==
            Then(Effect([], [w0, Word(Lanes4(PatchTtl(w1.data)[..4], w2.data[..4]), Full(), false)], [], []),
                 CheckRun(enable, u, more))
  {
    hide CheckRun, ReadNext, PatchTtl;
    FirstReads(s, w0, w1);
    var s1 := ReadNext(s, w0).0;
    var s2 := ReadNext(s1, w1).0;
    ThirdRead(s2, w1, w2);
    u := ReadNext(s2, w2).0;
    RunReads(enable, s, w0, [w1] + ([w2] + more));
    RunReads(enable, s1, w1, [w2] + more);
    RunReads(enable, s2, w2, more);
    ThenThree(w0, ReadNext(s2, w2).1[0], CheckRun(enable, u, more));
  }

  lemma PatchTail(d: Lanes)
    ensures PatchTtl(d)[4..] == d[4..]
  {
  }

  lemma ThenThree(a: Word, b: Word, e: Effect)
    ensures Then(Effect([], [], [], []), Then(Effect([], [a], [], []), Then(Effect([], [b], [], []), e))) ==
            Then(Effect([], [a, b], [], []), e)
  {
    assert [] + ([a] + ([b] + e.words)) == [a, b] + e.words;
  }

  lemma UpperSum(w: Word)
    ensures Folded(AddTerms(NO_SUMS, UpperTerms(w)))
    ensures Fold(Total(AddTerms(NO_SUMS, UpperTerms(w)))) == Fold(WordSum(w.data[4..]))
  {
    var d := w.data[4..];
    WordSumPair(d);
    WordSumPair(d[2..]);
    AddTermsFolds(NO_SUMS, UpperTerms(w));
  }

  /** The ICMP message of a datagram, as the words carry it. */
  lemma MessageSum(ws: seq<Word>)
    requires |ws| >= 3
    ensures var b, d := Content(ws), ws[2].data;
            && b[16] == d[0] && b[20] == d[4] && b[21] == d[5] && b[22] == d[6] && b[23] == d[7]
            && WordSum(b[20..]) == WordSum(d[4..]) + WordSum(Octets(ws[3..]))
  {
    hide WordSum, Octets;
    assert Content(ws)[20..] == ws[2].data[4..] + Octets(ws[3..]);
    WordSumConcat(ws[2].data[4..], Octets(ws[3..]));
  }

  /** The registers and what is still to come decide whether the packet is a request. */
  lemma RequestAccepted(enable: bool, u: Checker, ws: seq<Word>)
    requires |ws| >= 3 && HeaderRead(u, ws[1], ws[2])
    ensures Accepts(enable, u, WordSum(Octets(ws[3..]))) == (enable && IsRequest(ws))
  {
    hide Fold, WordSum, Octets, Content, Folded, Total;
    MessageSum(ws);
    SameFold(Total(u.sums), WordSum(ws[2].data[4..]), WordSum(Octets(ws[3..])));
  }

  /** The number of words of a packet that the stage's sixteen-bit word counter can tell apart. */
  const MAX_WORDS := 0x10000

  /** What follows the third word: data words, or the end of the packet at once. */
  lemma RunRest(enable: bool, u: Checker, ws: seq<Word>, more: seq<Word>) returns (t: Checker)
    requires IsPacket(ws) && 3 <= |ws| <= MAX_WORDS && HeaderRead(u, ws[1], ws[2])
    ensures Idle(t)
    ensures CheckRun(enable, u, ws[3..] + more) ==
            Then(PacketEffect([u.prev] + ws[3..], enable && IsRequest(ws), OldChecksum(ws)), CheckRun(enable, t, more))
  {
    hide CheckRun, WordSum, Octets, NewChecksum, Answers, Accepts, IsRequest, Fold, Folded, Total;
    FirstWords(ws);
    RequestAccepted(enable, u, ws);
    if |ws| == 3 {
      t := RunFlush(enable, u, OldChecksum(ws), more);
      assert ws[3..] == [] && ws[3..] + more == more && [u.prev] + ws[3..] == [u.prev];
      AnswersIsAccepts(enable, u);
      EmptySum();
    } else {
      t := RunTail(enable, u, ws[3..], OldChecksum(ws), more);
    }
  }

  /** A packet of one or two words never gets a good verdict: its sums are zero. */
  lemma RunOne(enable: bool, s: Checker, w: Word, more: seq<Word>) returns (t: Checker)
    requires Idle(s) && w.last
    ensures Idle(t)
    ensures CheckRun(enable, s, [w] + more) == Then(PacketEffect([w], false, 0), CheckRun(enable, t, more))
  {
    hide CheckRun, NewChecksum, Answers, Folded;
    var s1 := ReadNext(s, w).0;
    NoSumsSilent(enable, s1);
    RunReads(enable, s, w, more);
    t := RunFlush(enable, s1, 0, more);
    ThenWords([], [w], false, 0, CheckRun(enable, t, more));
    assert [] + [w] == [w];
  }

  lemma RunTwo(enable: bool, s: Checker, w0: Word, w1: Word, more: seq<Word>) returns (t: Checker)
    requires Idle(s) && !w0.last && w1.last
    ensures Idle(t)
    ensures CheckRun(enable, s, [w0] + ([w1] + more)) ==
            Then(PacketEffect([w0, TtlWord(w1)], false, 0), CheckRun(enable, t, more))
  {
    hide CheckRun, NewChecksum, Answers, Folded, PatchTtl;
    var s1 := ReadNext(s, w0).0;
    var s2 := ReadNext(s1, w1).0;
    RunReads(enable, s, w0, [w1] + more);
    RunReads(enable, s1, w1, more);
    NoSumsSilent(enable, s2);
    t := RunFlush(enable, s2, 0, more);
    var e := CheckRun(enable, t, more);
    ThenWords([w0], [TtlWord(w1)], false, 0, e);
    ThenWords([], [w0] + [TtlWord(w1)], false, 0, e);
    assert [] + ([w0] + [TtlWord(w1)]) == [w0, TtlWord(w1)];
  }

  lemma NoSumsSilent(enable: bool, s: Checker)
    requires s.sums == NO_SUMS
    ensures Folded(s.sums) && !Answers(enable, s)
  {
  }

  lemma KeptLast(ws: seq<Word>)
    requires IsPacket(ws)
    ensures |ws| > 0 && ws[0].last == (|ws| == 1) && (|ws| == 2 ==> ws[1].last)
  {
  }

  /** One packet: its words leave with addresses and type changed, one verdict, and a checksum for an answer. */
  lemma CheckPacket(enable: bool, s: Checker, ws: seq<Word>, more: seq<Word>) returns (t: Checker)
    requires Idle(s) && IsPacket(ws) && |ws| <= MAX_WORDS
    ensures Idle(t)
    ensures CheckRun(enable, s, ws + more) ==
            Then(PacketEffect(Passed(ws), enable && IsRequest(ws), if |ws| < 3 then 0 else OldChecksum(ws)),
                 CheckRun(enable, t, more))
  {
    hide CheckRun, NewChecksum, PatchTtl, IsRequest, HeaderRead, IsPacket, Then, PacketEffect;
    ShortIsNoRequest(ws);
    KeptLast(ws);
    if |ws| == 1 {
      assert ws == [ws[0]];
      t := RunOne(enable, s, ws[0], more);
    } else if |ws| == 2 {
      assert ws + more == [ws[0]] + ([ws[1]] + more);
      t := RunTwo(enable, s, ws[0], ws[1], more);
    } else {
      FirstWords(ws);
      var two := [ws[0], Word(Lanes4(PatchTtl(ws[1].data)[..4], ws[2].data[..4]), Full(), false)];
      var u := RunThree(enable, s, ws[0], ws[1], ws[2], ws[3..] + more);
      t := RunRest(enable, u, ws, more);
      ThenWords(two, [u.prev] + ws[3..], enable && IsRequest(ws), OldChecksum(ws), CheckRun(enable, t, more));
      RegroupPacket(ws, more);
      HeaderPrev(u, ws[1], ws[2]);
      assert two + ([u.prev] + ws[3..]) == Swapped(ws);
    }
  }

  lemma ShortIsNoRequest(ws: seq<Word>)
    ensures |ws| < 3 ==> !IsRequest(ws)
  {
  }

  lemma HeaderPrev(u: Checker, w1: Word, w2: Word)
    requires HeaderRead(u, w1, w2)
    ensures u.prev == SwappedTwo(w1, w2)
  {
  }

  lemma RegroupPacket(ws: seq<Word>, more: seq<Word>)
    requires |ws| >= 3
    ensures ws + more == [ws[0]] + ([ws[1]] + ([ws[2]] + (ws[3..] + more)))
  {
  }

  // ---------------------------------------------------------------- the words of a reply

  lemma SameHead(p: seq<Word>, q: seq<Word>)
    requires IsPacket(p) && |q| == |p| && q[0].keep == p[0].keep && q[0].last == p[0].last
    requires |p| > 1 ==> IsPacket(q[1..]) && |Octets(q[1..])| == |Octets(p[1..])|
    ensures IsPacket(q) && |Octets(q)| == |Octets(p)|
  {
    hide Mask, KeepLen;
    if |p| == 1 {
      assert p[1..] == q[1..] == [];
    }
    assert Octets(p) == Payload(p[0]) + Octets(p[1..]) && Octets(q) == Payload(q[0]) + Octets(q[1..]);
  }

  /** A packet with the masks of another in its first three words, and its tail. */
  lemma SameShape(ws: seq<Word>, q: seq<Word>)
    requires IsPacket(ws) && |ws| >= 3 && |q| == |ws| && q[3..] == ws[3..]
    requires forall i :: 0 <= i < 3 ==> q[i].keep == ws[i].keep && q[i].last == ws[i].last
    ensures IsPacket(q) && |Octets(q)| == |Octets(ws)|
  {
    FirstWords(ws);
    hide IsPacket, Octets;
    var p1, p2, q1, q2 := ws[1..], ws[2..], q[1..], q[2..];
    assert q1[1..] == q2 && q2[1..] == q[3..] && p1[1..] == p2 && p2[1..] == ws[3..];
    SameHead(p2, q2);
    TailPacket(ws);
    SameHead(p1, q1);
    SameHead(ws, q);
  }

  lemma TailPacket(ws: seq<Word>)
    requires IsPacket(ws) && |ws| > 1
    ensures IsPacket(ws[1..])
  {
  }

  /** Whatever the packet, what leaves the stage is a packet of the same length. */
  lemma PassedIsPacket(ws: seq<Word>)
    requires IsPacket(ws)
    ensures IsPacket(Passed(ws))
  {
    hide PatchTtl;
    if |ws| == 2 {
      assert Passed(ws)[1..] == [TtlWord(ws[1])] && ws[1..] == [ws[1]];
    } else if |ws| >= 3 {
      SwappedShape(ws);
    }
  }

  lemma SwappedShape(ws: seq<Word>)
    requires IsPacket(ws) && |ws| >= 3
    ensures IsPacket(Swapped(ws)) && |Octets(Swapped(ws))| == |Octets(ws)|
  {
    hide PatchTtl;
    FirstWords(ws);
    hide IsPacket, Octets;
    SameShape(ws, Swapped(ws));
  }

  /** With the new checksum stored, the swapped packet carries exactly the reply. */
  lemma SwappedOctets(ws: seq<Word>, c: Octets16)
    requires IsPacket(ws) && |ws| >= 3
    ensures var q := Stored(Swapped(ws), c);
            && IsPacket(q) && |q| == |ws| && |Octets(q)| == |Octets(ws)|
            && (c == NewChecksum(OldChecksum(ws)) ==> Content(q) == Reply(Content(ws)))
  {
    var q := Stored(Swapped(ws), c);
    FirstWords(ws);
    StoredWords(ws, c);
    hide Swapped, Stored, IsPacket, NewChecksum, PatchTtl;
    SameShape(ws, q);
    ReplyInWords(ws[0].data, ws[1].data, ws[2].data, Octets(ws[3..]));
    RegroupOctets(ws[0].data, PatchTtl(ws[1].data)[..4] + ws[2].data[..4],
                  ws[1].data[4..] + [ECHO_REPLY, ws[2].data[5], Low(c), High(c)], Octets(ws[3..]));
  }

  lemma RegroupOctets(a: seq<Octet>, b: seq<Octet>, c: seq<Octet>, d: seq<Octet>)
    ensures a + (b + (c + d)) == a + b + c + d
  {
  }

  /** The three words before the data of a reply. */
  lemma StoredWords(ws: seq<Word>, c: Octets16)
    requires |ws| >= 3 && ws[1].keep == Full() && !ws[1].last
    ensures var q := Stored(Swapped(ws), c);
            && |q| == |ws| && q[3..] == ws[3..] && q[0] == ws[0]
            && q[1] == Word(PatchTtl(ws[1].data)[..4] + ws[2].data[..4], ws[1].keep, ws[1].last)
            && q[2] == ws[2].(data := ws[1].data[4..] + [ECHO_REPLY, ws[2].data[5], Low(c), High(c)])
  {
    hide PatchTtl;
  }

  /** Octets 6 and 7 of word 2 take the checksum, least significant octet first. */
  function PutLow(w: Word, c: Octets16): Word { w.(data := w.data[6 := Low(c)][7 := High(c)]) }

  function Stored(ws: seq<Word>, c: Octets16): seq<Word>
    requires |ws| > 2
  {
    ws[2 := PutLow(ws[2], c)]
  }

  lemma ReplyInWords(d0: Lanes, d1: Lanes, d2: Lanes, t: seq<Octet>)
    ensures var c := NewChecksum(Pair(d2[7], d2[6]));
            Reply(d0 + (d1 + (d2 + t))) ==
            d0 + ((PatchTtl(d1)[..4] + d2[..4]) + ((d1[4..] + [ECHO_REPLY, d2[5], Low(c), High(c)]) + t))
  {
    hide NewChecksum, PatchTtl;
    var b := d0 + (d1 + (d2 + t));
    assert b[..8] == d0 && b[8..16] == d1 && b[16..20] == d2[..4] && b[12..16] == d1[4..] && b[24..] == t;
  }
}
