/**
 * The unframing half of ip_handler: the Ethernet type is read off each frame, frames are routed by it, and IP
 * frames lose their Ethernet header.
 */
module EthernetReceive {
  import opened OnesComplement
  import opened AxiStream
  import opened PacketHeaders
  import opened EthernetSend

  // ---------------------------------------------------------------- detect_eth_protocol

  datatype Phase = First | Middle | Last

  datatype Detector = Detector(phase: Phase, header: Header, prev: Word, metaWritten: bool)

  predicate ValidDetector(s: Detector) { |s.header.raw| == 14 && ValidHeader(s.header) }

  /** getEthertype: octets 12 and 13 in network order. */
  function BufferedType(h: Header): nat
    requires |h.raw| == 14
  {
    Pair(h.raw[12], h.raw[13])
  }

  /** One call: state, words left, types written, words written. */
  function DetectNext(s: Detector, ws: seq<Word>): (r: (Detector, seq<Word>, seq<nat>, seq<Word>))
    requires ValidDetector(s)
    ensures ValidDetector(r.0)
  {
    match s.phase
    case First =>
      if ws == [] then (s, ws, [], [])
      else
        (s.(header := Parse(s.header, ws[0].data), prev := ws[0], phase := if ws[0].last then Last else Middle),
         ws[1..], [], [])
    case Middle =>
      if ws == [] then (s, ws, [], [])
      else
        var h := Parse(s.header, ws[0].data);
        (Detector(if ws[0].last then Last else Middle, h, ws[0], true), ws[1..],
         if s.metaWritten then [] else [BufferedType(h)],
         if s.metaWritten || BufferedType(h) == ARP then [s.prev] else [])
    case Last =>
      (Detector(First, Header(false, 0, s.header.raw), s.prev, false), ws,
       if s.metaWritten then [] else [BufferedType(s.header)], [s.prev])
  }

  function DetectRun(s: Detector, ws: seq<Word>): (seq<nat>, seq<Word>)
    requires ValidDetector(s)
    decreases |ws|, if s.phase.Last? then 1 else 0
  {
    if ws == [] && !s.phase.Last? then ([], [])
    else
      var (s', ws', types, out) := DetectNext(s, ws);
      var (moreTypes, more) := DetectRun(s', ws');
      (types + moreTypes, out + more)
  }

  class DetectEthProtocolStage {
    var phase: Phase
    const header: PacketHeader
    var prevWord: Word
    var metaWritten: bool

    constructor (uninitialised: Word)
      ensures fresh(header) && Ready() && phase == First && !metaWritten
    {
      phase, prevWord, metaWritten := First, uninitialised, false;
      header := new PacketHeader(14);
    }

    function State(): Detector
      reads this, header
    {
      Detector(phase, header.Value(), prevWord, metaWritten)
    }

    ghost predicate Ready()
      reads this, header
    {
      header.Valid() && header.size == 14 && ValidDetector(State())
    }

    method Step(input: seq<Word>) returns (rest: seq<Word>, types: seq<nat>, output: seq<Word>)
      requires Ready()
      modifies this, header
      ensures Ready() && (State(), rest, types, output) == DetectNext(old(State()), input)
    {
      rest, types, output := input, [], [];
      match phase {
        case First =>
          if input != [] {
            rest := input[1..];
            header.ParseWord(input[0].data);
            prevWord := input[0];
            phase := if prevWord.last then Last else Middle;
          }
        case Middle =>
          if input != [] {
            rest := input[1..];
            header.ParseWord(input[0].data);
            if !metaWritten {
              types := [BufferedType(header.Value())];
              metaWritten := true;
              if types[0] == ARP {
                output := [prevWord];
              }
            } else {
              output := [prevWord];
            }
            prevWord := input[0];
            if prevWord.last {
              phase := Last;
            }
          }
        case Last =>
          if !metaWritten {
            types := [BufferedType(header.Value())];
          }
          output := [prevWord];
          header.Clear();
          metaWritten := false;
          phase := First;
      }
    }
  }

  ghost predicate DetectIdle(s: Detector) {
    s.phase.First? && !s.metaWritten && s.header.idx == 0 && !s.header.ready && |s.header.raw| == 14
  }

  lemma {:induction false} DetectMiddle(s: Detector, ws: seq<Word>, more: seq<Word>) returns (t: Detector)
    requires ValidDetector(s) && s.phase.Middle? && s.metaWritten && s.header.ready && IsPacket(ws)
    ensures DetectIdle(t) && t.header.raw == s.header.raw
    ensures var rest := DetectRun(t, more); DetectRun(s, ws + more) == (rest.0, ([s.prev] + ws) + rest.1)
    decreases |ws|
  {
    hide DetectNext, DetectRun, KeepLen, Mask;
    var s' := s.(prev := ws[0], phase := if ws[0].last then Last else Middle);
    DetectUnfold(s, ws[0], ws[1..] + more);
    assert ws + more == [ws[0]] + (ws[1..] + more);
    if |ws| == 1 {
      assert ws[1..] + more == more && ws == [ws[0]];
      t := DetectNext(s', more).0;
      DetectLast(s', more);
      assert [s.prev] + ([ws[0]] + DetectRun(t, more).1) == ([s.prev] + ws) + DetectRun(t, more).1;
    } else {
      t := DetectMiddle(s', ws[1..], more);
      assert [s.prev] + (([ws[0]] + ws[1..]) + DetectRun(t, more).1) == ([s.prev] + ws) + DetectRun(t, more).1;
    }
  }

  lemma DetectUnfold(s: Detector, w: Word, tail: seq<Word>)
    requires ValidDetector(s) && s.phase.Middle? && s.metaWritten && s.header.ready
    ensures var next := DetectRun(s.(prev := w, phase := if w.last then Last else Middle), tail);
            DetectRun(s, [w] + tail) == (next.0, [s.prev] + next.1)
  {
    assert ([w] + tail)[1..] == tail;
    var next := DetectRun(DetectNext(s, [w] + tail).0, tail);
    assert [] + next.0 == next.0;
  }

  /** The closing call writes the last word and clears the stage for the next frame. */
  lemma DetectLast(s: Detector, more: seq<Word>)
    requires ValidDetector(s) && s.phase.Last? && s.metaWritten
    ensures var t := DetectNext(s, more).0; var rest := DetectRun(t, more);
            DetectIdle(t) && t.header.raw == s.header.raw && DetectRun(s, more) == (rest.0, [s.prev] + rest.1)
  {
    var rest := DetectRun(DetectNext(s, more).0, more);
    assert [] + rest.0 == rest.0;
  }

  /** The Ethernet type of a frame. */
  function EtherType(b: seq<Octet>): nat
    requires |b| >= 14
  {
    Pair(b[12], b[13])
  }

  /** The type the stage takes: lanes 4 and 5 of the second word, or for a frame of one word still the last type. */
  function TypeOf(last: nat, ws: seq<Word>): nat {
    if |ws| < 2 then last else Pair(ws[1].data[4], ws[1].data[5])
  }

  /** What leaves the stage: the whole frame if it is ARP or has one word, else all but its first word. */
  function Stripped(kind: nat, ws: seq<Word>): seq<Word> { if kind == ARP || |ws| < 2 then ws else ws[1..] }

  lemma TypeIsEtherType(last: nat, ws: seq<Word>)
    requires IsPacket(ws) && |Octets(ws)| >= 14
    ensures TypeOf(last, ws) == EtherType(Octets(ws)) && |ws| > 1
  {
    hide Octets;
    PacketLength(ws);
    OctetAt(ws, 12);
    OctetAt(ws, 13);
  }

  /** A frame with a whole header is IPv4 or ARP by its octets 12 and 13. */
  lemma TypeInOctets(last: nat, ws: seq<Word>)
    requires IsPacket(ws) && |Octets(ws)| >= 14
    ensures var f := Octets(ws);
            && (TypeOf(last, ws) == 0x0800 <==> f[12] == 8 && f[13] == 0)
            && (TypeOf(last, ws) == 0x0806 <==> f[12] == 8 && f[13] == 6)
  {
    hide Octets;
    TypeIsEtherType(last, ws);
  }

  lemma DetectFrame(s: Detector, ws: seq<Word>, more: seq<Word>) returns (t: Detector)
    requires DetectIdle(s) && IsPacket(ws)
    ensures var kind := TypeOf(BufferedType(s.header), ws);
            && DetectIdle(t) && BufferedType(t.header) == kind
            && var rest := DetectRun(t, more); DetectRun(s, ws + more) == ([kind] + rest.0, Stripped(kind, ws) + rest.1)
  {
    hide KeepLen, Mask, DetectNext, DetectRun;
    if |ws| == 1 {
      assert ws == [ws[0]];
      t := DetectOne(s, ws[0], more);
    } else {
      t := DetectLong(s, ws, more);
    }
  }

  /** A frame of one word closes at once, with the type of the frame before it. */
  lemma DetectOne(s: Detector, w: Word, more: seq<Word>) returns (t: Detector)
    requires DetectIdle(s) && w.last
    ensures DetectIdle(t) && BufferedType(t.header) == BufferedType(s.header)
    ensures var rest := DetectRun(t, more);
            DetectRun(s, [w] + more) == ([BufferedType(s.header)] + rest.0, [w] + rest.1)
  {
    assert ([w] + more)[1..] == more;
    var s1 := DetectNext(s, [w] + more).0;
    t := DetectNext(s1, more).0;
    var next := DetectRun(s1, more);
    assert [] + next.0 == next.0 && [] + next.1 == next.1;
  }

  lemma DetectLong(s: Detector, ws: seq<Word>, more: seq<Word>) returns (t: Detector)
    requires DetectIdle(s) && IsPacket(ws) && |ws| > 1
    ensures var kind := Pair(ws[1].data[4], ws[1].data[5]);
            && DetectIdle(t) && BufferedType(t.header) == kind
            && var rest := DetectRun(t, more); DetectRun(s, ws + more) == ([kind] + rest.0, Stripped(kind, ws) + rest.1)
  {
    hide KeepLen, Mask, DetectNext, DetectRun;
    var tail := ws[2..] + more;
    assert ws + more == [ws[0], ws[1]] + tail;
    var s1 := DetectNext(s, [ws[0], ws[1]] + tail).0;
    var s2 := DetectNext(s1, [ws[1]] + tail).0;
    assert IsPacket(ws[1..]) && ws[1..] == [ws[1]] + ws[2..];
    DetectTwo(s, ws[0], ws[1], tail);
    if |ws| == 2 {
      t := DetectNext(s2, more).0;
      DetectLast(s2, more);
      assert tail == more && ws[1..] == [s2.prev];
    } else {
      assert IsPacket(ws[1..][1..]) && ws[1..][1..] == ws[2..];
      t := DetectMiddle(s2, ws[2..], more);
    }
    var rest := DetectRun(t, more);
    assert DetectRun(s2, tail) == (rest.0, ws[1..] + rest.1);
    var kind := Pair(ws[1].data[4], ws[1].data[5]);
    var head := if kind == ARP then [ws[0]] else [];
    assert head + (ws[1..] + rest.1) == Stripped(kind, ws) + rest.1;
  }

  lemma DetectTwo(s: Detector, w0: Word, w1: Word, more: seq<Word>)
    requires DetectIdle(s) && !w0.last
    ensures var s1 := DetectNext(s, [w0, w1] + more).0; var s2 := DetectNext(s1, [w1] + more).0;
            var rest := DetectRun(s2, more); var kind := Pair(w1.data[4], w1.data[5]);
            && s1.phase.Middle? && s2.metaWritten && s2.prev == w1 && s2.phase == (if w1.last then Last else Middle)
            && s2.header.ready && ValidDetector(s2) && BufferedType(s2.header) == kind
            && DetectRun(s, [w0, w1] + more) == ([kind] + rest.0, (if kind == ARP then [w0] else []) + rest.1)
  {
    var ws := [w0, w1] + more;
    var s1 := DetectNext(s, ws).0;
    assert ws[1..] == [w1] + more && ([w1] + more)[1..] == more;
    var h := Parse(s1.header, w1.data);
    assert h.raw[12] == w1.data[4] && h.raw[13] == w1.data[5];
    assert BufferedType(h) == Pair(w1.data[4], w1.data[5]);
    var next := DetectRun(s1, [w1] + more);
    assert [] + next.0 == next.0 && [] + next.1 == next.1;
  }

  /** The types, and the stripped frames. */
  function Types(last: nat, fs: seq<seq<Word>>): (ts: seq<nat>)
    ensures |ts| == |fs|
    decreases |fs|
  {
    if fs == [] then []
    else
      var kind := TypeOf(last, fs[0]);
      [kind] + Types(kind, fs[1..])
  }

  function StrippedAll(last: nat, fs: seq<seq<Word>>): (gs: seq<seq<Word>>)
    requires IsTraffic(fs)
    ensures |gs| == |fs| && IsTraffic(gs)
    decreases |fs|
  {
    if fs == [] then []
    else
      var kind := TypeOf(last, fs[0]);
      [Stripped(kind, fs[0])] + StrippedAll(kind, fs[1..])
  }

  /** Any frames, one-word ones included: one type for each, and the frame with or without its first word. */
  lemma {:induction false} DetectTraffic(s: Detector, fs: seq<seq<Word>>)
    requires DetectIdle(s) && IsTraffic(fs)
    ensures var last := BufferedType(s.header);
            DetectRun(s, Flatten(fs)) == (Types(last, fs), Flatten(StrippedAll(last, fs)))
    decreases |fs|
  {
    hide Stripped, IsPacket, DetectNext, TypeOf, BufferedType;
    if fs != [] {
      var last := BufferedType(s.header);
      var kind := TypeOf(last, fs[0]);
      var t := DetectFrame(s, fs[0], Flatten(fs[1..]));
      DetectTraffic(t, fs[1..]);
      assert ([Stripped(kind, fs[0])] + StrippedAll(kind, fs[1..]))[1..] == StrippedAll(kind, fs[1..]);
    }
  }

  // ---------------------------------------------------------------- route_by_eth_protocol

  datatype Router = Router(inPacket: bool, etherType: nat)

  /** One call: state, types left, words left, words to ARP, words to IP. */
  function RouteNext(s: Router, ts: seq<nat>, ws: seq<Word>): (Router, seq<nat>, seq<Word>, seq<Word>, seq<Word>) {
    if ws == [] || (!s.inPacket && ts == []) then (s, ts, ws, [], [])
    else
      var kind := if s.inPacket then s.etherType else ts[0];
      (Router(!ws[0].last, kind), if s.inPacket then ts else ts[1..], ws[1..],
       if kind == ARP then [ws[0]] else [], if kind == IPV4 then [ws[0]] else [])
  }

  function RouteRun(s: Router, ts: seq<nat>, ws: seq<Word>): (seq<Word>, seq<Word>)
    decreases |ws|
  {
    if ws == [] || (!s.inPacket && ts == []) then ([], [])
    else
      var (s', ts', ws', arp, ip) := RouteNext(s, ts, ws);
      var (moreArp, moreIp) := RouteRun(s', ts', ws');
      (arp + moreArp, ip + moreIp)
  }

  class RouteByEthProtocolStage {
    var inPacket: bool
    var etherType: nat

    constructor (uninitialised: nat)
      ensures State() == Router(false, uninitialised)
    {
      inPacket, etherType := false, uninitialised;
    }

    function State(): Router
      reads this
    {
      Router(inPacket, etherType)
    }

    method Step(types: seq<nat>, words: seq<Word>)
      returns (restTypes: seq<nat>, restWords: seq<Word>, arpOut: seq<Word>, ipOut: seq<Word>)
      modifies this
      ensures (State(), restTypes, restWords, arpOut, ipOut) == RouteNext(old(State()), types, words)
    {
      restTypes, restWords, arpOut, ipOut := types, words, [], [];
      if !inPacket {
        if types != [] && words != [] {
          etherType, restTypes := types[0], types[1..];
          var word := words[0];
          restWords := words[1..];
          if etherType == ARP {
            arpOut := [word];
          } else if etherType == IPV4 {
            ipOut := [word];
          }
          if !word.last {
            inPacket := true;
          }
        }
      } else if words != [] {
        var word := words[0];
        restWords := words[1..];
        if etherType == ARP {
          arpOut := [word];
        } else if etherType == IPV4 {
          ipOut := [word];
        }
        if word.last {
          inPacket := false;
        }
      }
    }
  }

  function Take(b: bool, ws: seq<Word>): seq<Word> { if b then ws else [] }

  lemma {:induction false} RouteBody(s: Router, ts: seq<nat>, ws: seq<Word>, more: seq<Word>)
    requires IsPacket(ws) && s.inPacket
    ensures var rest := RouteRun(Router(false, s.etherType), ts, more);
            RouteRun(s, ts, ws + more) == (Take(s.etherType == ARP, ws) + rest.0,
                                           Take(s.etherType == IPV4, ws) + rest.1)
    decreases |ws|
  {
    hide RouteRun, KeepLen;
    RouteWord(s, ts, ws[0], ws[1..] + more);
    assert ws + more == [ws[0]] + (ws[1..] + more);
    if |ws| == 1 {
      assert ws[1..] + more == more && ws == [ws[0]];
    } else {
      RouteBody(s, ts, ws[1..], more);
      TakeCons(s.etherType == ARP, ws, RouteRun(Router(false, s.etherType), ts, more).0);
      TakeCons(s.etherType == IPV4, ws, RouteRun(Router(false, s.etherType), ts, more).1);
    }
  }

  lemma TakeCons(b: bool, ws: seq<Word>, rest: seq<Word>)
    requires ws != []
    ensures Take(b, [ws[0]]) + (Take(b, ws[1..]) + rest) == Take(b, ws) + rest
  {
  }

  /** Inside a packet one call routes one word by the type already taken. */
  lemma RouteWord(s: Router, ts: seq<nat>, w: Word, tail: seq<Word>)
    requires s.inPacket
    ensures var next := RouteRun(Router(!w.last, s.etherType), ts, tail);
            RouteRun(s, ts, [w] + tail) ==
            (Take(s.etherType == ARP, [w]) + next.0, Take(s.etherType == IPV4, [w]) + next.1)
  {
    assert ([w] + tail)[1..] == tail;
  }

  /** A packet goes whole to the port of its type; packets of other types vanish whole. */
  lemma RoutePacket(s: Router, kind: nat, ts: seq<nat>, ws: seq<Word>, more: seq<Word>)
    requires IsPacket(ws) && !s.inPacket
    ensures var rest := RouteRun(Router(false, kind), ts, more);
            RouteRun(s, [kind] + ts, ws + more) == (Take(kind == ARP, ws) + rest.0, Take(kind == IPV4, ws) + rest.1)
  {
    hide RouteRun;
    var rest := RouteRun(Router(false, kind), ts, more);
    assert ws == [ws[0]] + ws[1..];
    assert ws + more == [ws[0]] + (ws[1..] + more);
    RouteFirst(s, kind, ts, ws[0], ws[1..] + more);
    if |ws| == 1 {
      assert ws[1..] + more == more && ws == [ws[0]];
    } else {
      RouteBody(Router(true, kind), ts, ws[1..], more);
      TakeCons(kind == ARP, ws, rest.0);
      TakeCons(kind == IPV4, ws, rest.1);
    }
  }

  lemma RouteFirst(s: Router, kind: nat, ts: seq<nat>, w: Word, tail: seq<Word>)
    requires !s.inPacket
    ensures var next := RouteRun(Router(!w.last, kind), ts, tail);
            RouteRun(s, [kind] + ts, [w] + tail) ==
            (Take(kind == ARP, [w]) + next.0, Take(kind == IPV4, [w]) + next.1)
  {
    assert ([w] + tail)[1..] == tail && ([kind] + ts)[1..] == ts;
  }

  /** The packets of one kind. */
  function Select(kind: nat, ts: seq<nat>, ps: seq<seq<Word>>): (r: seq<seq<Word>>)
    requires |ts| == |ps|
    ensures IsTraffic(ps) ==> IsTraffic(r)
    decreases |ps|
  {
    if ps == [] then []
    else if ts[0] == kind then [ps[0]] + Select(kind, ts[1..], ps[1..])
    else Select(kind, ts[1..], ps[1..])
  }

  lemma SelectFlatten(kind: nat, ts: seq<nat>, ps: seq<seq<Word>>)
    requires |ts| == |ps| && ps != []
    ensures Flatten(Select(kind, ts, ps)) == Take(ts[0] == kind, ps[0]) + Flatten(Select(kind, ts[1..], ps[1..]))
  {
    var more := Select(kind, ts[1..], ps[1..]);
    assert ([ps[0]] + more)[1..] == more;
    assert [] + Flatten(more) == Flatten(more);
  }

  lemma {:induction false} RouteTraffic(s: Router, ts: seq<nat>, ps: seq<seq<Word>>)
    requires |ts| == |ps| && IsTraffic(ps) && !s.inPacket
    ensures RouteRun(s, ts, Flatten(ps)) == (Flatten(Select(ARP, ts, ps)), Flatten(Select(IPV4, ts, ps)))
    decreases |ps|
  {
    if ps != [] {
      assert ts == [ts[0]] + ts[1..];
      RoutePacket(s, ts[0], ts[1..], ps[0], Flatten(ps[1..]));
      RouteTraffic(Router(false, ts[0]), ts[1..], ps[1..]);
      SelectFlatten(ARP, ts, ps);
      SelectFlatten(IPV4, ts, ps);
    }
  }
}
