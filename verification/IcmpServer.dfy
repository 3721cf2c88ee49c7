/**
 * The ICMP server: the checked requests pass the `dropper`, `insertChecksum` stores the new checksum, and the
 * whole pipeline turns every acceptable echo request into its reply.
 */
module IcmpServer {
  import opened OnesComplement
  import opened AxiStream
  import opened IcmpReply
  import opened IcmpCheck

  // ---------------------------------------------------------------- dropper

  datatype DropState = GetValid | Forward | Drop

  /** One call: state, words left, verdicts left, words written. */
  function DropNext(s: DropState, ws: seq<Word>, vs: seq<bool>): (DropState, seq<Word>, seq<bool>, seq<Word>) {
    match s
    case GetValid => if vs == [] then (s, ws, vs, []) else (if vs[0] then Forward else Drop, ws, vs[1..], [])
    case Forward => if ws == [] then (s, ws, vs, []) else (if ws[0].last then GetValid else s, ws[1..], vs, [ws[0]])
    case Drop => if ws == [] then (s, ws, vs, []) else (if ws[0].last then GetValid else s, ws[1..], vs, [])
  }

  function DropRun(s: DropState, ws: seq<Word>, vs: seq<bool>): seq<Word>
    decreases |ws| + |vs|
  {
    if (if s.GetValid? then vs == [] else ws == []) then []
    else
      var (s', ws', vs', out) := DropNext(s, ws, vs);
      out + DropRun(s', ws', vs')
  }

  class DropperStage {
    var state: DropState
    var cntIcmpOutEchoReps: nat

    constructor ()
      ensures state == GetValid && cntIcmpOutEchoReps == 0
    {
      state, cntIcmpOutEchoReps := GetValid, 0;
    }

    method Step(words: seq<Word>, valid: seq<bool>)
      returns (restWords: seq<Word>, restValid: seq<bool>, output: seq<Word>)
      modifies this
      ensures (state, restWords, restValid, output) == DropNext(old(state), words, valid)
      ensures cntIcmpOutEchoReps == if old(state).Forward? && state.GetValid?
                                    then (old(cntIcmpOutEchoReps) + 1) % 0x1_0000_0000 else old(cntIcmpOutEchoReps)
    {
      restWords, restValid, output := words, valid, [];
      match state {
        case GetValid =>
          if valid != [] {
            restValid := valid[1..];
            state := if valid[0] then Forward else Drop;
          }
        case Forward =>
          if words != [] {
            restWords, output := words[1..], [words[0]];
            if words[0].last {
              state := GetValid;
              cntIcmpOutEchoReps := (cntIcmpOutEchoReps + 1) % 0x1_0000_0000;
            }
          }
        case Drop =>
          if words != [] {
            restWords := words[1..];
            if words[0].last {
              state := GetValid;
            }
          }
      }
    }
  }

  lemma {:induction false} DropPacket(s: DropState, ws: seq<Word>, more: seq<Word>, vs: seq<bool>)
    requires IsPacket(ws) && !s.GetValid?
    ensures DropRun(s, ws + more, vs) == (if s.Forward? then ws else []) + DropRun(GetValid, more, vs)
    decreases |ws|
  {
    var rest := DropRun(GetValid, more, vs);
    assert (ws + more)[1..] == ws[1..] + more;
    if |ws| == 1 {
      assert ws[1..] + more == more && ws == [ws[0]];
    } else {
      DropPacket(s, ws[1..], more, vs);
      assert [ws[0]] + (ws[1..] + rest) == ws + rest;
    }
    assert [] + rest == rest;
  }

  // ---------------------------------------------------------------- insertChecksum

  /** One call: the two-bit word count, words left, checksums left, words written. */
  function StoreNext(n: nat, ws: seq<Word>, cs: seq<Octets16>): (nat, seq<Word>, seq<Octets16>, seq<Word>) {
    if ws == [] || (n == 2 && cs == []) then (n, ws, cs, [])
    else
      match n
      case 0 => (1, ws[1..], cs, [ws[0]])
      case 2 => (3, ws[1..], cs[1..], [PutLow(ws[0], cs[0])])
      case _ => (if ws[0].last then 0 else if n < 3 then n + 1 else n, ws[1..], cs, [ws[0]])
  }

  function StoreRun(n: nat, ws: seq<Word>, cs: seq<Octets16>): seq<Word>
    decreases |ws|
  {
    if ws == [] || (n == 2 && cs == []) then []
    else
      var (n', ws', cs', out) := StoreNext(n, ws, cs);
      out + StoreRun(n', ws', cs')
  }

  class InsertChecksumStage {
    var wordCount: nat

    constructor ()
      ensures wordCount == 0
    {
      wordCount := 0;
    }

    method Step(words: seq<Word>, checksums: seq<Octets16>)
      returns (restWords: seq<Word>, restChecksums: seq<Octets16>, output: seq<Word>)
      modifies this
      ensures (wordCount, restWords, restChecksums, output) == StoreNext(old(wordCount), words, checksums)
    {
      restWords, restChecksums, output := words, checksums, [];
      match wordCount {
        case 0 =>
          if words != [] {
            restWords, output := words[1..], [words[0]];
            wordCount := wordCount + 1;
          }
        case 2 =>
          if words != [] && checksums != [] {
            restWords, restChecksums := words[1..], checksums[1..];
            output := [PutLow(words[0], checksums[0])];
            wordCount := wordCount + 1;
          }
        case _ =>
          if words != [] {
            restWords, output := words[1..], [words[0]];
            if words[0].last {
              wordCount := 0;
            } else if wordCount < 3 {
              wordCount := wordCount + 1;
            }
          }
      }
    }
  }

  lemma {:induction false} StoreTail(ws: seq<Word>, more: seq<Word>, cs: seq<Octets16>)
    requires IsPacket(ws)
    ensures StoreRun(3, ws + more, cs) == ws + StoreRun(0, more, cs)
    decreases |ws|
  {
    var rest := StoreRun(0, more, cs);
    assert (ws + more)[1..] == ws[1..] + more;
    if |ws| == 1 {
      assert ws[1..] + more == more && ws == [ws[0]];
    } else {
      StoreTail(ws[1..], more, cs);
      assert [ws[0]] + (ws[1..] + rest) == ws + rest;
    }
  }

  lemma StoreThree(w0: Word, w1: Word, w2: Word, more: seq<Word>, c: Octets16, cs: seq<Octets16>)
    requires !w1.last
    ensures StoreRun(0, [w0] + ([w1] + ([w2] + more)), [c] + cs) ==
            [w0] + ([w1] + ([PutLow(w2, c)] + StoreRun(3, more, cs)))
  {
    var two := [w2] + more;
    var one := [w1] + two;
    assert ([w0] + one)[1..] == one && one[1..] == two && two[1..] == more && ([c] + cs)[1..] == cs;
    assert StoreRun(2, two, [c] + cs) == [PutLow(w2, c)] + StoreRun(3, more, cs);
    assert StoreRun(1, one, [c] + cs) == [w1] + StoreRun(2, two, [c] + cs);
  }

  lemma StorePacket(ws: seq<Word>, more: seq<Word>, c: Octets16, cs: seq<Octets16>)
    requires IsPacket(ws) && |ws| >= 3
    ensures StoreRun(0, ws + more, [c] + cs) ==
            Stored(ws, c) + StoreRun(if |ws| == 3 then 3 else 0, more, cs)
  {
    FirstWords(ws);
    hide StoreRun, PutLow, IsPacket;
    RegroupPacket(ws, more);
    StoreThree(ws[0], ws[1], ws[2], ws[3..] + more, c, cs);
    assert Stored(ws, c)[3..] == ws[3..];
    if |ws| == 3 {
      assert ws[3..] + more == more;
      RegroupPacket(Stored(ws, c), StoreRun(3, more, cs));
      assert ws[3..] + StoreRun(3, more, cs) == StoreRun(3, more, cs);
    } else {
      StoreTail(ws[3..], more, cs);
      RegroupPacket(Stored(ws, c), StoreRun(0, more, cs));
    }
  }

  // ---------------------------------------------------------------- the server

  /** A traffic of option-free ICMP datagrams, any lengths and contents. */
  predicate IsDatagrams(ps: seq<seq<Word>>) { forall i :: 0 <= i < |ps| ==> IsPacket(ps[i]) && |ps[i]| <= 0x10000 }

  predicate AreRequests(ps: seq<seq<Word>>) { forall i :: 0 <= i < |ps| ==> IsPacket(ps[i]) && IsRequest(ps[i]) }

  /** The pipeline: check, drop, insert. */
  function Serve(enable: bool, s: Checker, ws: seq<Word>): seq<Word>
    requires s.computeState < 4
  {
    var e := CheckRun(enable, s, ws);
    StoreRun(0, DropRun(GetValid, e.words, e.valid), e.checksums)
  }

  /**
   * What the server takes for a request, in octets: at least 24 of them, type 8, code 0, no multicast
   * destination (octets 16 to 19), and an ICMP checksum that verifies.
   */
  lemma RequestInOctets(p: seq<Word>)
    requires IsPacket(p)
    ensures IsRequest(p) <==> |p| >= 3 && var b := Content(p);
                              b[20] == 8 && b[21] == 0 && !(224 <= b[16] <= 239) && Verifies(b[20..])
  {
    hide Content, Verifies, IsPacket;
  }

  /** The requests that deserve an answer. */
  function Answered(enable: bool, ps: seq<seq<Word>>): (r: seq<seq<Word>>)
    requires IsDatagrams(ps)
    ensures AreRequests(r)
  {
    if ps == [] then []
    else if enable && IsRequest(ps[0]) then [ps[0]] + Answered(enable, ps[1..])
    else Answered(enable, ps[1..])
  }

  /** What insertChecksum finds in its two queues for the answered packets. */
  function SwappedAll(ps: seq<seq<Word>>): seq<seq<Word>>
    requires AreRequests(ps)
  {
    if ps == [] then [] else [Swapped(ps[0])] + SwappedAll(ps[1..])
  }

  function Checksums(ps: seq<seq<Word>>): (cs: seq<Octets16>)
    requires AreRequests(ps)
    ensures |cs| == |ps| && forall i :: 0 <= i < |ps| ==> cs[i] == NewChecksum(OldChecksum(ps[i]))
  {
    if ps == [] then [] else [NewChecksum(OldChecksum(ps[0]))] + Checksums(ps[1..])
  }

  /**
   * What goes out for each of the packets: the next checksum of the queue is stored in its third word, but a packet
   * right behind one that ended in its third word passes as it is, and takes no checksum from the queue.
   */
  function Sent(late: bool, ps: seq<seq<Word>>, cs: seq<Octets16>): (qs: seq<seq<Word>>)
    requires AreRequests(ps) && |cs| >= |ps|
    ensures |qs| == |ps|
    decreases |ps|
  {
    if ps == [] then []
    else if late then [Swapped(ps[0])] + Sent(false, ps[1..], cs)
    else [Stored(Swapped(ps[0]), cs[0])] + Sent(|ps[0]| == 3, ps[1..], cs[1..])
  }

  ghost predicate IsReplyTo(p: seq<Word>, q: seq<Word>)
    requires |p| >= 3
  {
    IsPacket(q) && |q| == |p| && |Octets(q)| == |Octets(p)| && Content(q) == Reply(Content(p))
  }

  ghost predicate AreReplies(ps: seq<seq<Word>>, qs: seq<seq<Word>>)
    requires AreRequests(ps)
  {
    |qs| == |ps| && forall i :: 0 <= i < |qs| ==> IsReplyTo(ps[i], qs[i])
  }

  /** What the server is for: the right reply to each request, in order, and nothing else. */
  ghost predicate AnswersRight(enable: bool, s: Checker, ps: seq<seq<Word>>)
    requires s.computeState < 4 && IsDatagrams(ps)
  {
    exists qs :: Serve(enable, s, Flatten(ps)) == Flatten(qs) && AreReplies(Answered(enable, ps), qs)
  }

  /** No packet of three words has another behind it. */
  predicate InStep(ps: seq<seq<Word>>) { forall i :: 0 <= i < |ps| - 1 ==> |ps[i]| != 3 }

  lemma DropVerdict(v: bool, ws: seq<Word>, vs: seq<bool>)
    ensures DropRun(GetValid, ws, [v] + vs) == DropRun(if v then Forward else Drop, ws, vs)
  {
    assert ([v] + vs)[1..] == vs;
    var rest := DropRun(if v then Forward else Drop, ws, vs);
    assert [] + rest == rest;
  }

  /** A packet and its verdict at the dropper. */
  lemma DropOne(p: seq<Word>, v: bool, words: seq<Word>, valid: seq<bool>)
    requires IsPacket(p)
    ensures DropRun(GetValid, p + words, [v] + valid) == (if v then p else []) + DropRun(GetValid, words, valid)
  {
    DropVerdict(v, p + words, valid);
    DropPacket(if v then Forward else Drop, p, words, valid);
  }

  /** Check and drop leave the swapped requests and one checksum for each. */
  lemma {:induction false} CheckTraffic(enable: bool, s: Checker, ps: seq<seq<Word>>)
    requires Idle(s) && IsDatagrams(ps)
    ensures var e, a := CheckRun(enable, s, Flatten(ps)), Answered(enable, ps);
            DropRun(GetValid, e.words, e.valid) == Flatten(SwappedAll(a)) && e.checksums == Checksums(a)
    decreases |ps|
  {
    hide CheckRun, DropRun, Swapped, IsRequest, NewChecksum, IsPacket, Passed;
    if ps == [] {
      CheckNothing(enable, s);
    } else {
      var p, more := ps[0], Flatten(ps[1..]);
      var t := CheckPacket(enable, s, p, more);
      CheckTraffic(enable, t, ps[1..]);
      var e := CheckRun(enable, t, more);
      PassedIsPacket(p);
      DropOne(Passed(p), enable && IsRequest(p), e.words, e.valid);
      if enable && IsRequest(p) {
        PassedRequest(p);
        var a := Answered(enable, ps[1..]);
        assert ([p] + a)[1..] == a && ([Swapped(p)] + SwappedAll(a))[1..] == SwappedAll(a);
      } else {
        var rest := Flatten(SwappedAll(Answered(enable, ps[1..])));
        assert [] + rest == rest && [] + e.checksums == e.checksums;
      }
    }
  }

  lemma PassedRequest(p: seq<Word>)
    requires IsRequest(p)
    ensures |p| >= 3 && Passed(p) == Swapped(p)
  {
  }

  lemma CheckNothing(enable: bool, s: Checker)
    requires Idle(s)
    ensures CheckRun(enable, s, []) == Effect([], [], [], []) && DropRun(GetValid, [], []) == []
  {
  }

  /** insertChecksum over the swapped requests, in step or not. */
  lemma {:induction false} StoreTraffic(late: bool, ps: seq<seq<Word>>, cs: seq<Octets16>)
    requires AreRequests(ps) && |cs| >= |ps|
    ensures StoreRun(if late then 3 else 0, Flatten(SwappedAll(ps)), cs) == Flatten(Sent(late, ps, cs))
    decreases |ps|
  {
    hide StoreRun, Swapped, Stored, IsPacket;
    if ps == [] {
      StoreNothing(if late then 3 else 0, cs);
    } else {
      var more := Flatten(SwappedAll(ps[1..]));
      RequestWords(ps[0]);
      SwappedShape(ps[0]);
      assert Flatten(SwappedAll(ps)) == Swapped(ps[0]) + more by {
        assert SwappedAll(ps)[1..] == SwappedAll(ps[1..]);
      }
      if late {
        StoreTail(Swapped(ps[0]), more, cs);
        StoreTraffic(false, ps[1..], cs);
        assert Sent(late, ps, cs)[1..] == Sent(false, ps[1..], cs);
      } else {
        assert cs == [cs[0]] + cs[1..];
        StorePacket(Swapped(ps[0]), more, cs[0], cs[1..]);
        StoreTraffic(|ps[0]| == 3, ps[1..], cs[1..]);
        assert Sent(late, ps, cs)[1..] == Sent(|ps[0]| == 3, ps[1..], cs[1..]);
      }
    }
  }

  lemma RequestWords(p: seq<Word>)
    requires IsRequest(p)
    ensures |p| >= 3 && |Swapped(p)| == |p|
  {
  }

  lemma StoreNothing(n: nat, cs: seq<Octets16>)
    ensures StoreRun(n, [], cs) == []
  {
  }

  /** All that leaves the server, whatever comes in: everything but the requests is dropped whole. */
  lemma ServeTraffic(enable: bool, s: Checker, ps: seq<seq<Word>>)
    requires Idle(s) && IsDatagrams(ps)
    ensures var a := Answered(enable, ps);
            && IsTraffic(Sent(false, a, Checksums(a)))
            && Serve(enable, s, Flatten(ps)) == Flatten(Sent(false, a, Checksums(a)))
  {
    hide CheckRun, DropRun, StoreRun, Flatten, Answered, Sent;
    var a := Answered(enable, ps);
    CheckTraffic(enable, s, ps);
    StoreTraffic(false, a, Checksums(a));
    SentTraffic(false, a, Checksums(a));
  }

  lemma {:induction false} SentTraffic(late: bool, ps: seq<seq<Word>>, cs: seq<Octets16>)
    requires AreRequests(ps) && |cs| >= |ps|
    ensures IsTraffic(Sent(late, ps, cs))
    decreases |ps|
  {
    hide Swapped, Stored, IsPacket;
    if ps != [] {
      RequestWords(ps[0]);
      SwappedShape(ps[0]);
      if late {
        SentTraffic(false, ps[1..], cs);
      } else {
        SwappedOctets(ps[0], cs[0]);
        SentTraffic(|ps[0]| == 3, ps[1..], cs[1..]);
      }
    }
  }

  // ---------------------------------------------------------------- the request counter

  /** How many calls count an echo request while the stage works off its input. */
  function EchoesCounted(enable: bool, s: Checker, input: seq<Word>): nat
    requires s.computeState < 4
    decreases |input|, PendingCalls(s)
  {
    if !Pending(s) && input == [] then 0
    else
      var (t, e) := CheckNext(enable, s, input);
      (if CountsEcho(s) then 1 else 0) + EchoesCounted(enable, t, e.rest)
  }

  function Trues(vs: seq<bool>): nat { if vs == [] then 0 else (if vs[0] then 1 else 0) + Trues(vs[1..]) }

  lemma {:induction false} TruesConcat(a: seq<bool>, b: seq<bool>)
    ensures Trues(a + b) == Trues(a) + Trues(b)
    decreases |a|
  {
    if a == [] {
      assert a + b == b;
    } else {
      assert (a + b)[1..] == a[1..] + b;
      TruesConcat(a[1..], b);
    }
  }

  /** Enabled or not, the counter counts what an enabled stage would find valid. */
  lemma CountsVerdict(enable: bool, s: Checker, input: seq<Word>)
    requires s.computeState < 4
    ensures CheckNext(enable, s, input).0 == CheckNext(true, s, input).0
    ensures CheckNext(enable, s, input).1.rest == CheckNext(true, s, input).1.rest
    ensures Trues(CheckNext(true, s, input).1.valid) == if CountsEcho(s) then 1 else 0
  {
    hide PatchTtl;
  }

  lemma {:induction false} EchoesAreVerdicts(enable: bool, s: Checker, input: seq<Word>)
    requires s.computeState < 4
    ensures EchoesCounted(enable, s, input) == Trues(CheckRun(true, s, input).valid)
    decreases |input|, PendingCalls(s)
  {
    hide CheckNext, CountsEcho, Trues;
    if !Pending(s) && input == [] {
      NoTrues();
    } else {
      var (t, e) := CheckNext(true, s, input);
      CountsVerdict(enable, s, input);
      CallDecreases(s, input);
      EchoesAreVerdicts(enable, t, e.rest);
      TruesConcat(e.valid, CheckRun(true, t, e.rest).valid);
    }
  }

  lemma NoTrues()
    ensures Trues([]) == 0
  {
  }

  lemma CallDecreases(s: Checker, input: seq<Word>)
    requires s.computeState < 4 && (Pending(s) || input != [])
    ensures var (t, e) := CheckNext(true, s, input);
            t.computeState < 4 && |e.rest| <= |input| && (|e.rest| == |input| ==> PendingCalls(t) < PendingCalls(s))
  {
    hide PatchTtl;
  }

  /** Over any traffic the counter counts exactly the requests, whether or not they are answered. */
  lemma {:induction false} EchoesCountRequests(enable: bool, s: Checker, ps: seq<seq<Word>>)
    requires Idle(s) && IsDatagrams(ps)
    ensures EchoesCounted(enable, s, Flatten(ps)) == |Answered(true, ps)|
    decreases |ps|
  {
    hide CheckRun, EchoesCounted, IsRequest, IsPacket, Passed, NewChecksum, Trues;
    EchoesAreVerdicts(enable, s, Flatten(ps));
    if ps == [] {
      CheckNothing(true, s);
      NoTrues();
    } else {
      var p, more := ps[0], Flatten(ps[1..]);
      var t := CheckPacket(true, s, p, more);
      EchoesCountRequests(enable, t, ps[1..]);
      EchoesAreVerdicts(enable, t, more);
      OneVerdict(IsRequest(p), CheckRun(true, t, more).valid);
    }
  }

  lemma OneVerdict(v: bool, more: seq<bool>)
    ensures Trues([v] + more) == (if v then 1 else 0) + Trues(more)
  {
    assert ([v] + more)[1..] == more;
  }

  // ---------------------------------------------------------------- replies

  lemma RepliesCons(p: seq<Word>, ps: seq<seq<Word>>, q: seq<Word>, qs: seq<seq<Word>>)
    requires AreRequests([p] + ps) && AreRequests(ps) && IsRequest(p) && IsReplyTo(p, q) && AreReplies(ps, qs)
    ensures AreReplies([p] + ps, [q] + qs)
  {
    hide IsReplyTo, IsEchoRequest, Content, IsPacket;
    var p', q' := [p] + ps, [q] + qs;
    forall i | 0 <= i < |q'|
      ensures IsReplyTo(p'[i], q'[i])
    {
      if i > 0 {
        assert p'[i] == ps[i - 1] && q'[i] == qs[i - 1];
      }
    }
  }

  /** As long as no request of three words has another behind it, each goes out with its own checksum. */
  lemma {:induction false} InStepReplies(ps: seq<seq<Word>>)
    requires AreRequests(ps) && InStep(ps)
    ensures AreReplies(ps, Sent(false, ps, Checksums(ps)))
    decreases |ps|
  {
    hide Swapped, Stored, IsPacket, Content, Reply, NewChecksum, Octets;
    if ps != [] {
      RequestWords(ps[0]);
      SwappedOctets(ps[0], Checksums(ps)[0]);
      var qs := Sent(false, ps, Checksums(ps));
      assert Checksums(ps)[1..] == Checksums(ps[1..]);
      assert IsReplyTo(ps[0], qs[0]);
      hide IsReplyTo, IsEchoRequest;
      assert ps == [ps[0]] + ps[1..] && qs == [qs[0]] + qs[1..];
      if |ps| == 1 {
        RepliesCons(ps[0], [], qs[0], []);
      } else {
        InStepReplies(ps[1..]);
        RepliesCons(ps[0], ps[1..], qs[0], Sent(false, ps[1..], Checksums(ps[1..])));
      }
    }
  }

  /** The packet behind a request of three words is no reply. */
  lemma {:induction false} OutOfStep(ps: seq<seq<Word>>)
    requires AreRequests(ps) && !InStep(ps)
    ensures !AreReplies(ps, Sent(false, ps, Checksums(ps)))
    decreases |ps|
  {
    hide Swapped, Stored, IsPacket, Content, Reply, NewChecksum, Octets, IsReplyTo;
    var cs := Checksums(ps);
    var qs := Sent(false, ps, cs);
    assert cs[1..] == Checksums(ps[1..]);
    if |ps[0]| == 3 {
      assert qs[1..] == Sent(true, ps[1..], cs[1..]);
      assert qs[1] == Swapped(ps[1..][0]);
      SwappedIsNoReply(ps[1]);
    } else {
      OutOfStep(ps[1..]);
      assert qs[1..] == Sent(false, ps[1..], cs[1..]);
      LaterFails(ps, qs);
    }
  }

  lemma LaterFails(ps: seq<seq<Word>>, qs: seq<seq<Word>>)
    requires AreRequests(ps) && |qs| == |ps| > 0 && !AreReplies(ps[1..], qs[1..])
    ensures !AreReplies(ps, qs)
  {
    hide IsReplyTo, IsPacket, IsEchoRequest, Content;
    var i :| 0 <= i < |qs| - 1 && !IsReplyTo(ps[1..][i], qs[1..][i]);
    assert !IsReplyTo(ps[i + 1], qs[i + 1]);
  }

  /** The content of the packet without its new checksum. */
  lemma SwappedContent(p: seq<Word>)
    requires |p| >= 3
    ensures var d := p[2].data;
            && Content(Swapped(p))[20..] == [ECHO_REPLY, d[5], d[6], d[7]] + Octets(p[3..])
            && Content(p)[20..] == [d[4], d[5], d[6], d[7]] + Octets(p[3..])
  {
    hide PatchTtl, Octets;
  }

  /** A request whose type alone is changed does not verify any more. */
  lemma SwappedFails(p: seq<Word>)
    requires IsRequest(p)
    ensures |p| >= 3 && !Verifies(Content(Swapped(p))[20..])
  {
    hide Swapped, WordSumLittle, Octets;
    RequestWords(p);
    SwappedContent(p);
    var q, r := Content(p)[20..], Content(Swapped(p))[20..];
    hide Content;
    WordSumLittleFour(q);
    WordSumLittleFour(r);
    assert q[4..] == r[4..];
    ByteOrderIndependence(q);
    ByteOrderIndependence(r);
    FoldRange(WordSumLittle(q));
    FoldRange(WordSumLittle(r));
  }

  lemma SwappedIsNoReply(p: seq<Word>)
    requires IsRequest(p)
    ensures |p| >= 3 && !IsReplyTo(p, Swapped(p))
  {
    hide Swapped, Reply, Content, Verifies, IsPacket;
    SwappedFails(p);
    ReplyVerifies(Content(p));
  }

  lemma IdleReady(s: Checker)
    requires Idle(s)
    ensures s.computeState < 4
  {
  }

  lemma RepliesAreTraffic(ps: seq<seq<Word>>, qs: seq<seq<Word>>)
    requires AreRequests(ps) && AreReplies(ps, qs)
    ensures IsTraffic(qs)
  {
  }

  /**
   * Over any traffic of option-free ICMP packets, any lengths and contents: what leaves the server is the right
   * reply to each acceptable request, in order, if and only if no answered packet of three words (17 to 24 octets)
   * is followed by another answered packet.
   */
  lemma AnswersRightIff(enable: bool, s: Checker, ps: seq<seq<Word>>)
    requires Idle(s) && IsDatagrams(ps)
    ensures AnswersRight(enable, s, ps) <==> InStep(Answered(enable, ps))
  {
    hide Serve, Flatten, Answered, Sent, AreReplies, InStep, IsTraffic, AreRequests, IsDatagrams, Idle;
    IdleReady(s);
    var a := Answered(enable, ps);
    var sent := Sent(false, a, Checksums(a));
    ServeTraffic(enable, s, ps);
    if InStep(a) {
      InStepReplies(a);
    } else {
      OutOfStep(a);
      if AnswersRight(enable, s, ps) {
        var qs :| Serve(enable, s, Flatten(ps)) == Flatten(qs) && AreReplies(a, qs);
        RepliesAreTraffic(a, qs);
        FlattenUnique(sent, qs);
        assert false;
      }
    }
  }

  /**
   * The failure at its smallest: a request of three words and any request behind it.  The second leaves with type 0
   * but its old checksum, and its ICMP message does not verify.
   */
  lemma ThreeWordRequestSpoilsNext(s: Checker, p: seq<Word>, q: seq<Word>)
    requires Idle(s) && IsDatagrams([p, q]) && IsRequest(p) && IsRequest(q) && |p| == 3
    ensures |q| >= 3 && Serve(true, s, Flatten([p, q])) == Stored(Swapped(p), NewChecksum(OldChecksum(p))) + Swapped(q)
    ensures Content(Swapped(q))[20] == ECHO_REPLY && !Verifies(Content(Swapped(q))[20..])
  {
    hide Serve, Swapped, NewChecksum, IsRequest, Content, Stored, IsPacket, Verifies;
    var a := [p, q];
    assert a[1..] == [q] && [q][1..] == [];
    assert Answered(true, [q]) == [q] + Answered(true, []);
    assert Answered(true, a) == [p] + [q] == a;
    ServeTraffic(true, s, a);
    var cs := Checksums(a);
    RequestWords(p);
    RequestWords(q);
    assert Sent(true, [q], cs[1..]) == [Swapped(q)] + Sent(false, [q][1..], cs[1..]) == [Swapped(q)];
    var first := Stored(Swapped(p), cs[0]);
    assert Sent(false, a, cs) == [first] + [Swapped(q)];
    FlattenTwo(first, Swapped(q));
    SwappedFails(q);
    SwappedType(q);
  }

  lemma FlattenTwo(a: seq<Word>, b: seq<Word>)
    ensures Flatten([a] + [b]) == a + b
  {
    assert ([a] + [b])[1..] == [b] && [b][1..] == [];
    assert Flatten([b]) == b + Flatten<Word>([]) == b;
  }

  lemma SwappedType(q: seq<Word>)
    requires |q| >= 3
    ensures Content(Swapped(q))[20] == ECHO_REPLY
  {
    hide PatchTtl, Octets;
  }

  /** A datagram of 24 octets from 10.0.0.1 to 10.0.0.2 whose ICMP part is 08 00 F7 FF. */
  function SmallRequest(): seq<Word> {
    [Word([0x45, 0, 0, 24, 0, 0, 0, 0], Full(), false), Word([0x40, 1, 0x66, 0xE3, 10, 0, 0, 1], Full(), false),
     Word([10, 0, 0, 2, 8, 0, 0xF7, 0xFF], Full(), true)]
  }

  const SMALL_HEADER: seq<Octet> :=
    [0x45, 0, 0, 24, 0, 0, 0, 0, 0x40, 1, 0x66, 0xE3, 10, 0, 0, 1, 10, 0, 0, 2]

  lemma SmallRequestOctets()
    ensures IsPacket(SmallRequest()) && |SmallRequest()| == 3
    ensures Octets(SmallRequest()) == Content(SmallRequest()) == SMALL_HEADER + [8, 0, 0xF7, 0xFF]
  {
    var p := SmallRequest();
    LastWord(p[2], 8);
    PacketCons(p[1], [p[2]]);
    PacketCons(p[0], [p[1]] + [p[2]]);
    assert p == [p[0]] + ([p[1]] + [p[2]]);
    NoOctets();
    assert p[3..] == [];
  }

  lemma SumOfTen(b: seq<Octet>)
    requires |b| == 20
    ensures WordSum(b) == Pair(b[0], b[1]) + Pair(b[2], b[3]) + Pair(b[4], b[5]) + Pair(b[6], b[7]) + Pair(b[8], b[9])
                          + WordSum(b[10..])
    ensures WordSum(b[10..]) == Pair(b[10], b[11]) + Pair(b[12], b[13]) + Pair(b[14], b[15]) + Pair(b[16], b[17])
                                + Pair(b[18], b[19])
  {
    hide Pair, WordSum;
    WordSumTwo(b);
    WordSumTwo(b[4..]);
    WordSumTwo(b[8..]);
    WordSumTwo(b[10..]);
    WordSumTwo(b[14..]);
    WordSumTwo(b[16..]);
    assert b[4..][4..] == b[8..] && b[10..][4..] == b[14..] && b[16..][4..] == [] && b[8..][2..] == b[10..];
    assert b[14..][2..] == b[16..];
    NoSum();
  }

  lemma NoSum()
    ensures WordSum([]) == 0
  {
  }

  lemma WordSumTwo(b: seq<Octet>)
    requires |b| >= 4
    ensures WordSum(b) == Pair(b[0], b[1]) + WordSum(b[2..])
    ensures WordSum(b) == Pair(b[0], b[1]) + Pair(b[2], b[3]) + WordSum(b[4..])
  {
    assert b[2..][2..] == b[4..];
  }

  /** Its IP header is in order: version 4, five words, total length 24, and a checksum that verifies. */
  lemma SmallRequestHeader()
    ensures var b := Octets(SmallRequest());
            |b| == 24 && HighNibble(b[0]) == 4 && LowNibble(b[0]) == 5 && Pair(b[2], b[3]) == 24 && Verifies(b[..20])
  {
    hide SmallRequest, WordSum, Pair, HighNibble, LowNibble, Fold, Octets;
    SmallRequestOctets();
    assert Octets(SmallRequest())[..20] == SMALL_HEADER;
    SmallHeaderVerifies();
  }

  lemma SmallHeaderVerifies()
    ensures Verifies(SMALL_HEADER) && |SMALL_HEADER| == 20
    ensures var b := SMALL_HEADER; HighNibble(b[0]) == 4 && LowNibble(b[0]) == 5 && Pair(b[2], b[3]) == 24
  {
    hide WordSum, Pair, HighNibble, LowNibble, Fold;
    SumOfTen(SMALL_HEADER);
    SmallNumbers();
    FoldRange(65535);
  }

  lemma SmallNumbers()
    ensures Pair(0x45, 0) + Pair(0, 24) + Pair(0, 0) + Pair(0, 0) + Pair(0x40, 1) == 34073
    ensures Pair(0x66, 0xE3) + Pair(10, 0) + Pair(0, 1) + Pair(10, 0) + Pair(0, 2) == 31462
    ensures Pair(0, 24) == 24 && HighNibble(0x45) == 4 && LowNibble(0x45) == 5
  {
  }

  lemma SmallRequestIsRequest()
    ensures IsRequest(SmallRequest())
  {
    hide SmallRequest, WordSum, Pair, HighNibble, Fold, Content, Octets;
    SmallRequestOctets();
    var m: seq<Octet> := [8, 0, 0xF7, 0xFF];
    assert Content(SmallRequest())[20..] == m;
    assert Content(SmallRequest())[16] == 10;
    WordSumTwo(m);
    NoSum();
    assert m[4..] == [];
    SmallIcmpNumbers();
    FoldRange(65535);
  }

  lemma SmallIcmpNumbers()
    ensures Pair(8, 0) + Pair(0xF7, 0xFF) == 65535 && HighNibble(10) == 0
  {
  }

  /** The server answers it, from every idle state, with a packet of 24 octets that carries its reply. */
  lemma SmallRequestIsAnswered(s: Checker) returns (q: seq<Word>)
    requires Idle(s)
    ensures Serve(true, s, SmallRequest()) == q && |SmallRequest()| == 3 && IsReplyTo(SmallRequest(), q)
    ensures var b := Octets(SmallRequest());
            |b| == 24 && HighNibble(b[0]) == 4 && LowNibble(b[0]) == 5 && Pair(b[2], b[3]) == 24 && Verifies(b[..20])
  {
    hide Serve, SmallRequest, Swapped, Stored, NewChecksum, IsRequest, Content, IsPacket, Verifies, Octets, Reply;
    SmallRequestOctets();
    SmallRequestIsRequest();
    SmallRequestHeader();
    var p := SmallRequest();
    var a := [p];
    assert a[1..] == [] && Answered(true, a) == [p] + [] == a;
    ServeTraffic(true, s, a);
    InStepReplies(a);
    var qs := Sent(false, a, Checksums(a));
    q := qs[0];
    assert IsReplyTo(a[0], q);
    assert qs == [q];
    FlattenSingle(p);
    FlattenSingle(q);
  }

  lemma FlattenSingle(p: seq<Word>)
    ensures Flatten([p]) == p
  {
    assert [p][1..] == [] && p + [] == p;
  }

  /** Once behind, the queue stays behind: every longer request takes the checksum made for the one before it. */
  lemma {:induction false} QueueStaysBehind(ps: seq<seq<Word>>, k: nat)
    requires AreRequests(ps) && 2 <= k < |ps| && |ps[0]| == 3 && forall i :: 1 <= i < |ps| ==> |ps[i]| > 3
    ensures Sent(false, ps, Checksums(ps))[k] == Stored(Swapped(ps[k]), NewChecksum(OldChecksum(ps[k - 1])))
  {
    hide Swapped, Stored, NewChecksum, IsPacket, IsEchoRequest, Content;
    var cs, two := Checksums(ps), ps[2..];
    RequestWords(ps[k]);
    LongTail(ps);
    SentAfterThree(ps, cs);
    hide AreRequests, Sent;
    LongSent(two, cs[1..], k - 2);
    assert two[k - 2] == ps[k] && cs[1..][k - 2] == cs[k - 1];
  }

  lemma LongTail(ps: seq<seq<Word>>)
    requires AreRequests(ps) && |ps| >= 2 && forall i :: 1 <= i < |ps| ==> |ps[i]| > 3
    ensures AreRequests(ps[2..]) && forall i :: 0 <= i < |ps[2..]| ==> |ps[2..][i]| > 3
  {
    hide IsPacket, IsRequest;
  }

  lemma SentAfterThree(ps: seq<seq<Word>>, cs: seq<Octets16>)
    requires AreRequests(ps) && |cs| >= |ps| >= 2 && |ps[0]| == 3
    ensures AreRequests(ps[2..]) && Sent(false, ps, cs)[2..] == Sent(false, ps[2..], cs[1..])
  {
    assert ps[1..][1..] == ps[2..];
    hide Swapped, Stored, IsPacket, IsEchoRequest, Content;
    assert Sent(false, ps, cs)[1..] == Sent(true, ps[1..], cs[1..]);
  }

  lemma {:induction false} LongSent(ps: seq<seq<Word>>, cs: seq<Octets16>, k: nat)
    requires AreRequests(ps) && |cs| >= |ps| && k < |ps| && forall i :: 0 <= i < |ps| ==> |ps[i]| > 3
    ensures Sent(false, ps, cs)[k] == Stored(Swapped(ps[k]), cs[k])
    decreases |ps|
  {
    hide Swapped, Stored, IsPacket, IsRequest;
    if k > 0 {
      LongSent(ps[1..], cs[1..], k - 1);
    }
  }

  /** End to end: every packet the server sends verifies again, type 0, with the request's addresses swapped. */
  lemma ServedRepliesVerify(enable: bool, s: Checker, ps: seq<seq<Word>>) returns (qs: seq<seq<Word>>)
    requires Idle(s) && IsDatagrams(ps) && InStep(Answered(enable, ps))
    ensures Serve(enable, s, Flatten(ps)) == Flatten(qs) && IsTraffic(qs) && |qs| == |Answered(enable, ps)|
    ensures forall i :: 0 <= i < |qs| ==>
              var p, q := Answered(enable, ps)[i], qs[i];
              && |q| == |p| >= 3 && |Octets(q)| == |Octets(p)|
              && var b, r := Content(p), Content(q);
                 |r| == |b| && Verifies(r[20..]) && r[20] == 0 && r[21] == 0 && r[12..16] == b[16..20]
                 && r[16..20] == b[12..16] && r[24..] == b[24..]
                 && r[..8] == b[..8] && r[8] == 64 && r[9] == b[9]
  {
    hide Serve, Reply, Verifies, Idle, Flatten, Content, Octets, Answered, IsPacket, Sent, IsRequest;
    var a := Answered(enable, ps);
    ServeTraffic(enable, s, ps);
    InStepReplies(a);
    qs := Sent(false, a, Checksums(a));
    forall i | 0 <= i < |qs|
      ensures |qs[i]| == |a[i]| >= 3 && |Octets(qs[i])| == |Octets(a[i])|
      ensures var b, r := Content(a[i]), Content(qs[i]);
              |r| == |b| && Verifies(r[20..]) && r[20] == 0 && r[21] == 0 && r[12..16] == b[16..20]
              && r[16..20] == b[12..16] && r[24..] == b[24..]
              && r[..8] == b[..8] && r[8] == 64 && r[9] == b[9]
    {
      RequestContent(a[i]);
      assert IsReplyTo(a[i], qs[i]);
      ReplyVerifies(Content(a[i]));
    }
  }

  lemma RequestContent(p: seq<Word>)
    requires IsRequest(p)
    ensures |p| >= 3 && IsEchoRequest(Content(p))
  {
  }
}
