/**
 * `ip_invalid_dropper`: datagrams whose verdict is good pass whole, the others vanish whole, and the counters say
 * what became of each.
 */
module IpDropper {
  import opened AxiStream
  import opened IpReceive

  const COUNTER := 0x1_0000_0000

  datatype Phase = GetValid | Forward | Drop

  datatype Counts = Counts(receives: nat, hdrErrors: nat, addrErrors: nat)

  datatype Dropper = Dropper(phase: Phase, counts: Counts)

  predicate Good(v: Verdict) { v.hdrValid && v.ipMatch }

  function Inc(x: nat): nat {
    var v := x;
    (v + 1) % COUNTER
  }

  function Counted(c: Counts, v: Verdict): Counts {
    Counts(Inc(c.receives), if !v.hdrValid then Inc(c.hdrErrors) else c.hdrErrors,
           if v.hdrValid && !v.ipMatch then Inc(c.addrErrors) else c.addrErrors)
  }

  /** One call: state, words left, verdicts left, words written. */
  function DropNext(s: Dropper, ws: seq<Word>, vs: seq<Verdict>): (Dropper, seq<Word>, seq<Verdict>, seq<Word>) {
    if s.phase.GetValid? then
      if vs == [] then (s, ws, vs, [])
      else (Dropper(if Good(vs[0]) then Forward else Drop, Counted(s.counts, vs[0])), ws, vs[1..], [])
    else if ws == [] then (s, ws, vs, [])
    else (s.(phase := if ws[0].last then GetValid else s.phase), ws[1..], vs, if s.phase.Forward? then [ws[0]] else [])
  }

  /** Calls the stage until it is blocked: the final state and the words it has written. */
  function DropRun(s: Dropper, ws: seq<Word>, vs: seq<Verdict>): (Dropper, seq<Word>)
    decreases |ws| + |vs|
  {
    if (if s.phase.GetValid? then vs == [] else ws == []) then (s, [])
    else
      var (s', ws', vs', out) := DropNext(s, ws, vs);
      var (t, more) := DropRun(s', ws', vs');
      (t, out + more)
  }

  class IpInvalidDropperStage {
    var state: Phase
    var cntIpInReceives: nat
    var cntIpInHdrErrors: nat
    var cntIpInAddrErrors: nat

    constructor ()
      ensures State() == Dropper(GetValid, Counts(0, 0, 0))
    {
      state, cntIpInReceives, cntIpInHdrErrors, cntIpInAddrErrors := GetValid, 0, 0, 0;
    }

    function State(): Dropper
      reads this
    {
      Dropper(state, Counts(cntIpInReceives, cntIpInHdrErrors, cntIpInAddrErrors))
    }

    method Step(words: seq<Word>, valid: seq<Verdict>)
      returns (restWords: seq<Word>, restValid: seq<Verdict>, output: seq<Word>)
      modifies this
      ensures (State(), restWords, restValid, output) == DropNext(old(State()), words, valid)
    {
      restWords, restValid, output := words, valid, [];
      match state {
        case GetValid =>
          if valid != [] {
            var v := valid[0];
            restValid := valid[1..];
            cntIpInReceives := (cntIpInReceives + 1) % COUNTER;
            if !v.hdrValid {
              cntIpInHdrErrors := (cntIpInHdrErrors + 1) % COUNTER;
            } else if !v.ipMatch {
              cntIpInAddrErrors := (cntIpInAddrErrors + 1) % COUNTER;
            }
            state := if v.hdrValid && v.ipMatch then Forward else Drop;
          }
        case Forward =>
          if words != [] {
            restWords, output := words[1..], [words[0]];
            if words[0].last {
              state := GetValid;
            }
          }
        case Drop =>
          if words != [] {
            restWords := words[1..];
            if words[0].last {
              state := GetValid;
            }
          }
      }
    }
  }

  lemma {:induction false} DropBody(s: Dropper, ws: seq<Word>, more: seq<Word>, vs: seq<Verdict>)
    requires EndsOnce(ws) && !s.phase.GetValid?
    ensures var rest := DropRun(s.(phase := GetValid), more, vs);
            DropRun(s, ws + more, vs) == (rest.0, (if s.phase.Forward? then ws else []) + rest.1)
    decreases |ws|
  {
    var rest := DropRun(s.(phase := GetValid), more, vs);
    assert (ws + more)[1..] == ws[1..] + more;
    if |ws| == 1 {
      assert ws[1..] + more == more && ws == [ws[0]];
    } else {
      DropBody(s, ws[1..], more, vs);
      assert [ws[0]] + (ws[1..] + rest.1) == ws + rest.1;
    }
    assert [] + rest.1 == rest.1;
  }

  lemma DropVerdict(s: Dropper, ws: seq<Word>, v: Verdict, vs: seq<Verdict>)
    requires s.phase.GetValid?
    ensures DropRun(s, ws, [v] + vs) ==
            DropRun(Dropper(if Good(v) then Forward else Drop, Counted(s.counts, v)), ws, vs)
  {
    assert ([v] + vs)[1..] == vs;
    var rest := DropRun(Dropper(if Good(v) then Forward else Drop, Counted(s.counts, v)), ws, vs);
    assert [] + rest.1 == rest.1;
  }

  /** The packets whose verdict is good. */
  function Passed(vs: seq<Verdict>, ps: seq<seq<Word>>): (r: seq<seq<Word>>)
    requires |vs| == |ps|
    ensures IsTraffic(ps) ==> IsTraffic(r)
  {
    if ps == [] then []
    else if Good(vs[0]) then [ps[0]] + Passed(vs[1..], ps[1..])
    else Passed(vs[1..], ps[1..])
  }

  /** Verdicts on invalid headers, and on valid ones for somebody else. */
  function HeaderErrors(vs: seq<Verdict>): nat {
    if vs == [] then 0 else (if vs[0].hdrValid then 0 else 1) + HeaderErrors(vs[1..])
  }

  function AddressErrors(vs: seq<Verdict>): nat {
    if vs == [] then 0 else (if vs[0].hdrValid && !vs[0].ipMatch then 1 else 0) + AddressErrors(vs[1..])
  }

  /** Every received datagram is counted as such, and as a header error or an address error if it is one. */
  ghost predicate Accounted(before: Counts, after: Counts, vs: seq<Verdict>) {
    && after.receives == (before.receives + |vs|) % 0x1_0000_0000
    && after.hdrErrors == (before.hdrErrors + HeaderErrors(vs)) % 0x1_0000_0000
    && after.addrErrors == (before.addrErrors + AddressErrors(vs)) % 0x1_0000_0000
  }

  predicate InRange(c: Counts) { c.receives < COUNTER && c.hdrErrors < COUNTER && c.addrErrors < COUNTER }

  lemma CountedAccounts(c: Counts, after: Counts, vs: seq<Verdict>)
    requires vs != [] && Accounted(Counted(c, vs[0]), after, vs[1..])
    ensures Accounted(c, after, vs)
  {
    IncThen(c.receives, |vs| - 1);
    IncThen(c.hdrErrors, HeaderErrors(vs[1..]));
    IncThen(c.addrErrors, AddressErrors(vs[1..]));
  }

  lemma IncThen(x: nat, n: nat)
    ensures (Inc(x) + n) % COUNTER == (x + 1 + n) % COUNTER
  {
    assert x + 1 + n == COUNTER * ((x + 1) / COUNTER) + ((x + 1) % COUNTER + n);
  }

  /** A datagram is a header error, an address error, or passed. */
  lemma {:induction false} OneOfThree(vs: seq<Verdict>, ps: seq<seq<Word>>)
    requires |vs| == |ps|
    ensures HeaderErrors(vs) + AddressErrors(vs) + |Passed(vs, ps)| == |ps|
    decreases |ps|
  {
    if ps != [] {
      OneOfThree(vs[1..], ps[1..]);
    }
  }

  /** Over any traffic exactly the packets with a good verdict go on, in order, and every packet is counted. */
  lemma {:induction false} DropTraffic(s: Dropper, vs: seq<Verdict>, ps: seq<seq<Word>>)
    requires s.phase.GetValid? && InRange(s.counts) && |vs| == |ps|
    requires forall i :: 0 <= i < |ps| ==> IsPacketOrBare(ps[i])
    ensures var (t, out) := DropRun(s, Flatten(ps), vs);
            t.phase.GetValid? && out == Flatten(Passed(vs, ps))
            && Accounted(s.counts, t.counts, vs) && HeaderErrors(vs) + AddressErrors(vs) + |Passed(vs, ps)| == |ps|
    decreases |ps|
  {
    hide IsPacketOrBare, EndsOnce, Accounted, Counted, InRange;
    OneOfThree(vs, ps);
    if ps == [] {
      NothingCounted(s.counts);
    } else {
      var u := Dropper(if Good(vs[0]) then Forward else Drop, Counted(s.counts, vs[0]));
      var next := u.(phase := GetValid);
      hide DropRun;
      assert vs == [vs[0]] + vs[1..];
      DropVerdict(s, Flatten(ps), vs[0], vs[1..]);
      PacketEnds(ps[0]);
      DropBody(u, ps[0], Flatten(ps[1..]), vs[1..]);
      CountedInRange(s.counts, vs[0]);
      DropTraffic(next, vs[1..], ps[1..]);
      CountedAccounts(s.counts, DropRun(next, Flatten(ps[1..]), vs[1..]).0.counts, vs);
      PassedFlatten(vs, ps);
    }
  }

  lemma CountedInRange(c: Counts, v: Verdict)
    requires InRange(c)
    ensures InRange(Counted(c, v))
  {
  }

  lemma NothingCounted(c: Counts)
    requires InRange(c)
    ensures Accounted(c, c, [])
  {
  }

  lemma PassedFlatten(vs: seq<Verdict>, ps: seq<seq<Word>>)
    requires |vs| == |ps| && ps != []
    ensures Flatten(Passed(vs, ps)) == (if Good(vs[0]) then ps[0] else []) + Flatten(Passed(vs[1..], ps[1..]))
  {
    var more := Passed(vs[1..], ps[1..]);
    assert ([ps[0]] + more)[1..] == more;
    assert [] + Flatten(more) == Flatten(more);
  }
}
