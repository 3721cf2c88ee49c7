/**
 * The framing half of mac_ip_encode: the ARP reply gates each datagram, the datagram is shifted to make room, and
 * the Ethernet header is laid in front of it.
 */
module EthernetSend {
  import opened OnesComplement
  import opened AxiStream
  import opened WordShift
  import opened PacketHeaders

  type Mac = m: seq<Octet> | |m| == 6 witness [0, 0, 0, 0, 0, 0]

  /** The 112 bits of an Ethernet header. */
  type RawHeader = h: seq<Octet> | |h| == 14 witness [0, 0, 0, 0, 0, 0, 0, 0, 0, 0, 0, 0, 0, 0]

  datatype ArpReply = ArpReply(mac: Mac, hit: bool)

  const IPV4 := 0x0800
  const ARP := 0x0806

  /** The header built for a hit: destination, source, and the type in network order. */
  function MacHeader(dst: Mac, src: Mac): RawHeader {
    dst + src + [IPV4 / 256, IPV4 % 256]
  }

  // ---------------------------------------------------------------- handle_arp_reply

  datatype Gate = AwaitReply | Forward | Drop

  /** One call: state, replies left, words left, headers written, words written. */
  function GateNext(me: Mac, s: Gate, rs: seq<ArpReply>, ws: seq<Word>)
    : (Gate, seq<ArpReply>, seq<Word>, seq<RawHeader>, seq<Word>)
  {
    match s
    case AwaitReply =>
      if rs == [] then (s, rs, ws, [], [])
      else if rs[0].hit then (Forward, rs[1..], ws, [MacHeader(rs[0].mac, me)], [])
      else (Drop, rs[1..], ws, [], [])
    case Forward =>
      if ws == [] then (s, rs, ws, [], [])
      else (if ws[0].last then AwaitReply else s, rs, ws[1..], [], [ws[0]])
    case Drop =>
      if ws == [] then (s, rs, ws, [], [])
      else (if ws[0].last then AwaitReply else s, rs, ws[1..], [], [])
  }

  /** Calls the stage until it is blocked: the headers and the words it has written. */
  function GateRun(me: Mac, s: Gate, rs: seq<ArpReply>, ws: seq<Word>): (seq<RawHeader>, seq<Word>)
    decreases |rs| + |ws|
  {
    if s.AwaitReply? then
      if rs == [] then ([], [])
      else
        var (s', rs', ws', hs, out) := GateNext(me, s, rs, ws);
        var (moreHs, more) := GateRun(me, s', rs', ws');
        (hs + moreHs, out + more)
    else if ws == [] then ([], [])
    else
      var (s', rs', ws', hs, out) := GateNext(me, s, rs, ws);
      var (moreHs, more) := GateRun(me, s', rs', ws');
      (hs + moreHs, out + more)
  }

  class HandleArpReplyStage {
    var state: Gate
    var dropPktCnt: nat

    constructor ()
      ensures state == AwaitReply && dropPktCnt == 0
    {
      state, dropPktCnt := AwaitReply, 0;
    }

    method Step(replies: seq<ArpReply>, words: seq<Word>, myMacAddress: Mac)
      returns (restReplies: seq<ArpReply>, restWords: seq<Word>, headers: seq<RawHeader>, output: seq<Word>)
      modifies this
      ensures (state, restReplies, restWords, headers, output) ==
              GateNext(myMacAddress, old(state), replies, words)
      ensures dropPktCnt == if old(state).AwaitReply? && state.Drop? then (old(dropPktCnt) + 1) % 0x1_0000_0000
                            else old(dropPktCnt)
    {
      restReplies, restWords, headers, output := replies, words, [], [];
      match state {
        case AwaitReply =>
          if replies != [] {
            var reply := replies[0];
            restReplies := replies[1..];
            if reply.hit {
              headers := [MacHeader(reply.mac, myMacAddress)];
              state := Forward;
            } else {
              dropPktCnt := (dropPktCnt + 1) % 0x1_0000_0000;
              state := Drop;
            }
          }
        case Forward =>
          if words != [] {
            output, restWords := [words[0]], words[1..];
            if words[0].last {
              state := AwaitReply;
            }
          }
        case Drop =>
          if words != [] {
            restWords := words[1..];
            if words[0].last {
              state := AwaitReply;
            }
          }
      }
    }
  }

  lemma {:induction false} GatePacket(me: Mac, s: Gate, rs: seq<ArpReply>, ws: seq<Word>, more: seq<Word>)
    requires IsPacket(ws) && !s.AwaitReply?
    ensures var rest := GateRun(me, AwaitReply, rs, more);
            GateRun(me, s, rs, ws + more) == (rest.0, (if s.Forward? then ws else []) + rest.1)
    decreases |ws|
  {
    var rest := GateRun(me, AwaitReply, rs, more);
    assert (ws + more)[1..] == ws[1..] + more;
    if |ws| == 1 {
      assert ws[1..] + more == more && ws == [ws[0]];
    } else {
      GatePacket(me, s, rs, ws[1..], more);
      assert [ws[0]] + (ws[1..] + rest.1) == ws + rest.1;
    }
    assert [] + rest.0 == rest.0 && [] + rest.1 == rest.1;
  }

  /** The packets whose lookup hit, and the headers of those lookups. */
  function Hits(rs: seq<ArpReply>, ps: seq<seq<Word>>): (hits: seq<seq<Word>>)
    requires |rs| == |ps|
    ensures IsTraffic(ps) ==> IsTraffic(hits)
  {
    if rs == [] then []
    else if rs[0].hit then [ps[0]] + Hits(rs[1..], ps[1..])
    else Hits(rs[1..], ps[1..])
  }

  /** The replies that hit. */
  function HitReplies(rs: seq<ArpReply>): (hits: seq<ArpReply>)
    ensures forall i :: 0 <= i < |hits| ==> hits[i] in rs && hits[i].hit
  {
    if rs == [] then [] else (if rs[0].hit then [rs[0]] else []) + HitReplies(rs[1..])
  }

  function HitHeaders(me: Mac, rs: seq<ArpReply>): (hs: seq<RawHeader>)
    ensures forall i :: 0 <= i < |hs| ==> hs[i][12..] == [IPV4 / 256, IPV4 % 256]
  {
    if rs == [] then []
    else if rs[0].hit then [MacHeader(rs[0].mac, me)] + HitHeaders(me, rs[1..])
    else HitHeaders(me, rs[1..])
  }

  /** A header: the address the lookup returned, the host's own, the type of IPv4. */
  ghost predicate Addresses(h: seq<Octet>, dst: Mac, src: Mac) {
    |h| >= 14 && h[..6] == dst && h[6..12] == src && h[12..14] == [8, 0]
  }

  lemma MacHeaderAddresses(dst: Mac, src: Mac)
    ensures Addresses(MacHeader(dst, src), dst, src)
  {
  }

  lemma {:induction false} HeadersAddress(me: Mac, rs: seq<ArpReply>)
    ensures |HitHeaders(me, rs)| == |HitReplies(rs)|
    ensures forall i :: 0 <= i < |HitReplies(rs)| ==> Addresses(HitHeaders(me, rs)[i], HitReplies(rs)[i].mac, me)
    decreases |rs|
  {
    hide MacHeader, Addresses;
    if rs != [] {
      HeadersAddress(me, rs[1..]);
      MacHeaderAddresses(rs[0].mac, me);
    }
  }

  lemma {:induction false} HitsMatch(me: Mac, rs: seq<ArpReply>, ps: seq<seq<Word>>)
    requires |rs| == |ps|
    ensures |Hits(rs, ps)| == |HitHeaders(me, rs)|
    decreases |rs|
  {
    if rs != [] {
      HitsMatch(me, rs[1..], ps[1..]);
    }
  }

  /** Exactly the packets whose lookup hit go on, each with a header; the others vanish whole. */
  lemma {:induction false} GateTraffic(me: Mac, rs: seq<ArpReply>, ps: seq<seq<Word>>)
    requires |rs| == |ps| && IsTraffic(ps)
    ensures GateRun(me, AwaitReply, rs, Flatten(ps)) == (HitHeaders(me, rs), Flatten(Hits(rs, ps)))
    decreases |ps|
  {
    if ps != [] {
      GateTraffic(me, rs[1..], ps[1..]);
      GatePacket(me, if rs[0].hit then Forward else Drop, rs[1..], ps[0], Flatten(ps[1..]));
      GateReply(me, rs, Flatten(ps));
      if rs[0].hit {
        assert ([ps[0]] + Hits(rs[1..], ps[1..]))[1..] == Hits(rs[1..], ps[1..]);
      } else {
        assert [] + Flatten(Hits(rs[1..], ps[1..])) == Flatten(Hits(rs[1..], ps[1..]));
        assert [] + HitHeaders(me, rs[1..]) == HitHeaders(me, rs[1..]);
      }
    }
  }

  lemma GateReply(me: Mac, rs: seq<ArpReply>, ws: seq<Word>)
    requires rs != []
    ensures var rest := GateRun(me, if rs[0].hit then Forward else Drop, rs[1..], ws);
            GateRun(me, AwaitReply, rs, ws) ==
            ((if rs[0].hit then [MacHeader(rs[0].mac, me)] else []) + rest.0, rest.1)
  {
    var rest := GateRun(me, if rs[0].hit then Forward else Drop, rs[1..], ws);
    assert [] + rest.1 == rest.1;
  }

  // ---------------------------------------------------------------- insert_ethernet_header

  datatype Stage = HeaderWord | PartialHeader | Body

  datatype Framer = Framer(stage: Stage, header: Header)

  predicate ValidFramer(s: Framer) { |s.header.raw| == 14 }

  /** One call: state, headers left, words left, words written. */
  function FrameNext(s: Framer, hs: seq<RawHeader>, ws: seq<Word>): (Framer, seq<RawHeader>, seq<Word>, seq<Word>)
    requires ValidFramer(s)
  {
    match s.stage
    case HeaderWord =>
      if hs == [] then (s, hs, ws, [])
      else
        var (h, d) := Consume(Header(false, 0, hs[0]), ZeroOctets(8));
        (Framer(PartialHeader, h), hs[1..], ws, [Word(d, Full(), false)])
    case PartialHeader =>
      if ws == [] then (s, hs, ws, [])
      else
        var (h, d) := Consume(s.header, ws[0].data);
        (Framer(if ws[0].last then HeaderWord else Body, h), hs, ws[1..], [ws[0].(data := d)])
    case Body =>
      if ws == [] then (s, hs, ws, [])
      else (s.(stage := if ws[0].last then HeaderWord else Body), hs, ws[1..], [ws[0]])
  }

  function FrameRun(s: Framer, hs: seq<RawHeader>, ws: seq<Word>): seq<Word>
    requires ValidFramer(s)
    decreases |hs| + |ws|
  {
    if (s.stage.HeaderWord? && hs == []) || (!s.stage.HeaderWord? && ws == []) then []
    else
      var (s', hs', ws', out) := FrameNext(s, hs, ws);
      out + FrameRun(s', hs', ws')
  }

  class InsertHeaderStage {
    var stage: Stage
    const header: PacketHeader
    var packetsSent: nat

    constructor ()
      ensures stage == HeaderWord && fresh(header) && header.Valid() && header.size == 14 && packetsSent == 0
    {
      stage, packetsSent := HeaderWord, 0;
      header := new PacketHeader(14);
    }

    function State(): Framer
      reads this, header
    {
      Framer(stage, header.Value())
    }

    method Step(headers: seq<RawHeader>, words: seq<Word>)
      returns (restHeaders: seq<RawHeader>, restWords: seq<Word>, output: seq<Word>)
      requires header.Valid() && header.size == 14
      modifies this, header
      ensures header.Valid()
      ensures (State(), restHeaders, restWords, output) == FrameNext(old(State()), headers, words)
      ensures packetsSent == if old(stage).Body? && stage.HeaderWord? then (old(packetsSent) + 1) % 0x1_0000_0000
                             else old(packetsSent)
    {
      restHeaders, restWords, output := headers, words, [];
      match stage {
        case HeaderWord =>
          if headers != [] {
            header.Assign(Header(false, 0, headers[0]));
            restHeaders := headers[1..];
            var data, _ := header.ConsumeWord(ZeroOctets(8));
            stage := PartialHeader;
            output := [Word(data, Full(), false)];
          }
        case PartialHeader =>
          if words != [] {
            var currWord := words[0];
            restWords := words[1..];
            var data, _ := header.ConsumeWord(currWord.data);
            output := [currWord.(data := data)];
            stage := if !currWord.last then Body else HeaderWord;
          }
        case Body =>
          if words != [] {
            output, restWords := [words[0]], words[1..];
            if words[0].last {
              stage := HeaderWord;
              packetsSent := (packetsSent + 1) % 0x1_0000_0000;
            }
          }
      }
    }
  }

  lemma {:induction false} FrameBody(s: Framer, hs: seq<RawHeader>, ws: seq<Word>, more: seq<Word>)
    requires ValidFramer(s) && IsPacket(ws) && s.stage.Body?
    ensures FrameRun(s, hs, ws + more) == ws + FrameRun(s.(stage := HeaderWord), hs, more)
    decreases |ws|
  {
    var rest := FrameRun(s.(stage := HeaderWord), hs, more);
    assert (ws + more)[1..] == ws[1..] + more;
    if |ws| == 1 {
      assert ws[1..] + more == more && ws == [ws[0]];
    } else {
      FrameBody(s, hs, ws[1..], more);
      assert [ws[0]] + (ws[1..] + rest) == ws + rest;
    }
  }

  /** The frame made of a header and a packet that was shifted to leave room for the header's last six octets. */
  function Framed(h: RawHeader, ws: seq<Word>): seq<Word>
    requires ws != []
  {
    [Word(h[..8], Full(), false)] + ([ws[0].(data := h[8..] + ws[0].data[6..])] + ws[1..])
  }

  lemma FramePacket(s: Framer, h: RawHeader, hs: seq<RawHeader>, ws: seq<Word>, more: seq<Word>) returns (t: Framer)
    requires ValidFramer(s) && s.stage.HeaderWord? && IsPacket(ws)
    ensures ValidFramer(t) && t.stage.HeaderWord?
    ensures FrameRun(s, [h] + hs, ws + more) == Framed(h, ws) + FrameRun(t, hs, more)
  {
    var h1, h2 := Header(false, 1, h), Header(false, 2, h);
    t := Framer(HeaderWord, h2);
    var s1 := Framer(PartialHeader, h1);
    assert ([h] + hs)[1..] == hs;
    assert FrameRun(s, [h] + hs, ws + more) == [Word(h[..8], Full(), false)] + FrameRun(s1, hs, ws + more);
    FramePartial(s1, hs, ws, more);
  }

  lemma FramePartial(s: Framer, hs: seq<RawHeader>, ws: seq<Word>, more: seq<Word>)
    requires ValidFramer(s) && s.stage.PartialHeader? && s.header.idx == 1 && IsPacket(ws)
    ensures FrameRun(s, hs, ws + more) ==
            ([ws[0].(data := s.header.raw[8..] + ws[0].data[6..])] + ws[1..])
            + FrameRun(Framer(HeaderWord, s.header.(idx := 2)), hs, more)
  {
    hide FrameRun, KeepLen, Mask;
    var h, w := s.header.(idx := 2), ws[0].(data := s.header.raw[8..] + ws[0].data[6..]);
    FrameSecond(s, hs, ws[0], ws[1..] + more);
    assert ws + more == [ws[0]] + (ws[1..] + more);
    var rest := FrameRun(Framer(HeaderWord, h), hs, more);
    if |ws| == 1 {
      assert ws[1..] + more == more && [w] + ws[1..] == [w];
    } else {
      FrameBody(Framer(Body, h), hs, ws[1..], more);
      assert [w] + (ws[1..] + rest) == ([w] + ws[1..]) + rest;
    }
  }

  /** The word that takes the last six octets of the header. */
  lemma FrameSecond(s: Framer, hs: seq<RawHeader>, w: Word, tail: seq<Word>)
    requires ValidFramer(s) && s.stage.PartialHeader? && s.header.idx == 1
    ensures FrameRun(s, hs, [w] + tail) ==
            [w.(data := s.header.raw[8..] + w.data[6..])]
            + FrameRun(Framer(if w.last then HeaderWord else Body, s.header.(idx := 2)), hs, tail)
  {
    assert ([w] + tail)[1..] == tail;
    assert s.header.raw[8..14] == s.header.raw[8..];
    assert Consume(s.header, w.data) == (s.header.(idx := 2), s.header.raw[8..] + w.data[6..]);
  }

  lemma FramedOctets(h: RawHeader, p: seq<Word>, ws: seq<Word>)
    requires IsPacket(p) && Prepended(6, p, ws)
    ensures IsPacket(Framed(h, ws)) && Octets(Framed(h, ws)) == h + Octets(p)
  {
    hide KeepLen;
    var w := ws[0].(data := h[8..] + ws[0].data[6..]);
    PacketLength(p);
    LongFirst(ws);
    Relaid(ws, w);
    assert Octets(ws)[6..] == Octets(p);
    FramedTail(h, ws, w);
    KeepLenOfMask(8);
    PacketCons(Word(h[..8], Full(), false), [w] + ws[1..]);
    assert h[..8] + (h[8..] + Octets(p)) == h + Octets(p);
  }

  /** A packet of more than six octets fills the first six lanes. */
  lemma LongFirst(ws: seq<Word>)
    requires IsPacket(ws) && |Octets(ws)| > 6
    ensures KeepLen(ws[0].keep) > 6
  {
    KeepLenOfMask(8);
    PacketLength(ws);
    assert Octets(ws) == Payload(ws[0]) + Octets(ws[1..]);
  }

  /** Only the data of the first word is replaced. */
  lemma Relaid(ws: seq<Word>, w: Word)
    requires IsPacket(ws) && w.keep == ws[0].keep && w.last == ws[0].last
    ensures IsPacket([w] + ws[1..]) && Octets([w] + ws[1..]) == Payload(w) + Octets(ws[1..])
    ensures Octets(ws) == Payload(ws[0]) + Octets(ws[1..])
  {
    assert ([w] + ws[1..])[1..] == ws[1..];
  }

  lemma FramedTail(h: RawHeader, ws: seq<Word>, w: Word)
    requires ws != [] && KeepLen(ws[0].keep) > 6 && w == ws[0].(data := h[8..] + ws[0].data[6..])
    ensures Payload(w) + Octets(ws[1..]) == h[8..] + (Payload(ws[0]) + Octets(ws[1..]))[6..]
  {
    assert Payload(w) == h[8..] + Payload(ws[0])[6..];
  }
}
