/**
 * Framing and unframing together: what mac_ip_encode sends, ip_handler hands to the IP stages octet for octet.
 */
module Ethernet {
  import opened OnesComplement
  import opened AxiStream
  import opened WordShift
  import opened EthernetSend
  import opened EthernetReceive

  /** `f` is the datagram `p` behind the header `h`. */
  ghost predicate IsFrameOf(h: RawHeader, p: seq<Word>, f: seq<Word>) {
    IsPacket(f) && IsPacket(p) && Octets(f) == h + Octets(p)
  }

  /** insert_ethernet_header over a shifted traffic. */
  lemma {:induction false} FrameTraffic(s: Framer, hs: seq<RawHeader>, ps: seq<seq<Word>>, shifted: seq<seq<Word>>)
    returns (fs: seq<seq<Word>>)
    requires ValidFramer(s) && s.stage.HeaderWord? && |hs| == |ps| == |shifted| && IsTraffic(ps)
    requires forall i :: 0 <= i < |ps| ==> Prepended(6, ps[i], shifted[i])
    ensures FrameRun(s, hs, Flatten(shifted)) == Flatten(fs)
    ensures |fs| == |ps| && forall i :: 0 <= i < |ps| ==> IsFrameOf(hs[i], ps[i], fs[i])
    decreases |ps|
  {
    hide FrameNext, Octets;
    if ps == [] {
      fs := [];
      assert hs == [];
    } else {
      assert Prepended(6, ps[0], shifted[0]);
      var t := FramePacket(s, hs[0], hs[1..], shifted[0], Flatten(shifted[1..]));
      FramedOctets(hs[0], ps[0], shifted[0]);
      assert [hs[0]] + hs[1..] == hs;
      var more := FrameTraffic(t, hs[1..], ps[1..], shifted[1..]);
      fs := [Framed(hs[0], shifted[0])] + more;
      assert fs[1..] == more;
      assert forall i :: 1 <= i < |ps| ==> ps[i] == ps[1..][i - 1] && hs[i] == hs[1..][i - 1];
    }
  }

  /** The sender: gate by the ARP replies, shift by six octets, lay the header over the gap. */
  function Transmit(me: Mac, l: LeftState, f: Framer, rs: seq<ArpReply>, ws: seq<Word>): seq<Word>
    requires ValidFramer(f)
  {
    var (hs, gated) := GateRun(me, AwaitReply, rs, ws);
    FrameRun(f, hs, LeftRun(6, l, gated).1)
  }

  /** Every datagram whose lookup hit leaves as one frame: its Ethernet header, then its octets. */
  lemma TransmitTraffic(me: Mac, l: LeftState, f: Framer, rs: seq<ArpReply>, ps: seq<seq<Word>>)
    returns (fs: seq<seq<Word>>)
    requires ValidFramer(f) && f.stage.HeaderWord? && LeftIdle(l) && |rs| == |ps| && IsTraffic(ps)
    ensures Transmit(me, l, f, rs, Flatten(ps)) == Flatten(fs)
    ensures |fs| == |Hits(rs, ps)| == |HitHeaders(me, rs)|
    ensures forall i :: 0 <= i < |fs| ==> IsFrameOf(HitHeaders(me, rs)[i], Hits(rs, ps)[i], fs[i])
    ensures |fs| == |HitReplies(rs)|
    ensures forall i :: 0 <= i < |fs| ==>
              var f := Octets(fs[i]);
              && |f| >= 14 && f[..6] == HitReplies(rs)[i].mac && f[6..12] == me && f[12..14] == [8, 0]
              && f[14..] == Octets(Hits(rs, ps)[i])
  {
    hide IsPacket, FrameRun, LeftRun, GateRun, LeftIdle, IsFrameOf, HitHeaders, HitReplies, Hits, Octets;
    HitsMatch(me, rs, ps);
    GateTraffic(me, rs, ps);
    var shifted := LeftTraffic(6, l, Hits(rs, ps));
    fs := FrameTraffic(f, HitHeaders(me, rs), Hits(rs, ps), shifted);
    HeadersAddress(me, rs);
    forall i | 0 <= i < |fs| ensures Addresses(Octets(fs[i]), HitReplies(rs)[i].mac, me)
      ensures Octets(fs[i])[14..] == Octets(Hits(rs, ps)[i])
    {
      FrameAddresses(HitHeaders(me, rs)[i], Hits(rs, ps)[i], fs[i], HitReplies(rs)[i].mac, me);
    }
  }

  lemma FrameAddresses(h: RawHeader, p: seq<Word>, f: seq<Word>, dst: Mac, src: Mac)
    requires IsFrameOf(h, p, f) && Addresses(h, dst, src)
    ensures Addresses(Octets(f), dst, src) && Octets(f)[14..] == Octets(p)
  {
    hide Octets;
    var b := h + Octets(p);
    assert b[..6] == h[..6] && b[6..12] == h[6..12] && b[12..14] == h[12..14];
  }

  /** The receiver up to the IP stages: detect, route, shift out the last six octets of the Ethernet header. */
  function Receive(d: Detector, r: Router, s: RightState, ws: seq<Word>): (seq<Word>, seq<Word>)
    requires ValidDetector(d)
  {
    var (types, words) := DetectRun(d, ws);
    var (arp, ip) := RouteRun(r, types, words);
    (arp, RightRun(6, s, ip).1)
  }

  /** The frames of one type. */
  function OfType(kind: nat, last: nat, fs: seq<seq<Word>>): (r: seq<seq<Word>>)
    requires IsTraffic(fs)
    ensures IsTraffic(r)
    decreases |fs|
  {
    if fs == [] then []
    else
      var next := TypeOf(last, fs[0]);
      (if next == kind then [fs[0]] else []) + OfType(kind, next, fs[1..])
  }

  /** The stripped frames of one type. */
  function Selected(kind: nat, last: nat, fs: seq<seq<Word>>): (r: seq<seq<Word>>)
    requires IsTraffic(fs)
    ensures IsTraffic(r) && |r| == |OfType(kind, last, fs)|
    ensures forall i :: 0 <= i < |r| ==> r[i] == Stripped(kind, OfType(kind, last, fs)[i])
    decreases |fs|
  {
    if fs == [] then []
    else
      var next := TypeOf(last, fs[0]);
      (if next == kind then [Stripped(kind, fs[0])] else []) + Selected(kind, next, fs[1..])
  }

  /** Selecting the stripped frames is stripping the selected frames. */
  lemma {:induction false} SelectStripped(kind: nat, last: nat, fs: seq<seq<Word>>)
    requires IsTraffic(fs)
    ensures Select(kind, Types(last, fs), StrippedAll(last, fs)) == Selected(kind, last, fs)
    decreases |fs|
  {
    hide Stripped, TypeOf, IsPacket;
    if fs != [] {
      var next := TypeOf(last, fs[0]);
      SelectStripped(kind, next, fs[1..]);
      assert Types(last, fs)[1..] == Types(next, fs[1..]) && StrippedAll(last, fs)[1..] == StrippedAll(next, fs[1..]);
    }
  }

  /** What is left of an IPv4 frame: its Ethernet header is gone, and of a frame of one word its first six octets. */
  ghost predicate IsContentOf(f: seq<Word>, q: seq<Word>)
    requires f != []
  {
    Dropped(6, Stripped(IPV4, f), q)
  }

  /** A frame that is longer than its header leaves exactly what is behind it. */
  lemma ContentOfFrame(f: seq<Word>, q: seq<Word>)
    requires IsPacket(f) && |Octets(f)| > 14 && IsContentOf(f, q)
    ensures IsPacket(q) && Octets(q) == Octets(f)[14..]
  {
    hide Octets;
    PacketLength(f);
    PacketHead(f);
    assert Octets(f)[8..][6..] == Octets(f)[14..] && Octets(f)[8..] == Octets(f[1..]);
  }

  /**
   * From any mixture of back-to-back frames the ARP port gets the ARP frames unchanged and the IP stages get the
   * content of the IPv4 frames, in order.
   */
  lemma ReceiveTraffic(d: Detector, r: Router, s: RightState, fs: seq<seq<Word>>) returns (qs: seq<seq<Word>>)
    requires DetectIdle(d) && !r.inPacket && RightIdle(6, s) && IsTraffic(fs)
    ensures var last := BufferedType(d.header); var ip := OfType(0x0800, last, fs);
            && Receive(d, r, s, Flatten(fs)) == (Flatten(OfType(0x0806, last, fs)), Flatten(qs))
            && |qs| == |ip| && forall i :: 0 <= i < |qs| ==> IsContentOf(ip[i], qs[i])
  {
    hide IsPacket, DetectRun, RouteRun, RightRun, Stripped, Octets, RightIdle, BufferedType, Dropped, OfType, Selected,
      TypeOf;
    var last := BufferedType(d.header);
    DetectTraffic(d, fs);
    RouteTraffic(r, Types(last, fs), StrippedAll(last, fs));
    SelectStripped(ARP, last, fs);
    SelectStripped(IPV4, last, fs);
    ArpUnstripped(last, fs);
    qs := RightTraffic(6, s, Selected(IPV4, last, fs));
  }

  lemma ArpUnstripped(last: nat, fs: seq<seq<Word>>)
    requires IsTraffic(fs)
    ensures Selected(ARP, last, fs) == OfType(ARP, last, fs)
  {
    hide OfType, Selected, IsPacket;
  }

  /** Packet by packet the same octets, with any number of octets behind them. */
  ghost predicate Extended(fs: seq<seq<Word>>, ws: seq<seq<Word>>) {
    |fs| == |ws| && forall i :: 0 <= i < |fs| ==> Octets(fs[i]) <= Octets(ws[i])
  }

  /** What is on the wire after the words `sent`: the frames as they were sent, each with or without padding. */
  ghost predicate OnWire(sent: seq<Word>, wires: seq<seq<Word>>) {
    IsTraffic(wires) && exists fs :: IsTraffic(fs) && sent == Flatten(fs) && Extended(fs, wires)
  }

  /** The frames of a word stream are the only ones that can be on the wire. */
  lemma WireExtends(fs: seq<seq<Word>>, wires: seq<seq<Word>>)
    requires IsTraffic(fs) && OnWire(Flatten(fs), wires)
    ensures Extended(fs, wires)
  {
    hide Extended, IsTraffic, Flatten;
    var gs :| IsTraffic(gs) && Flatten(fs) == Flatten(gs) && Extended(gs, wires);
    FlattenUnique(fs, gs);
  }

  lemma UnpaddedOnWire(fs: seq<seq<Word>>)
    requires IsTraffic(fs)
    ensures OnWire(Flatten(fs), fs)
  {
    hide IsTraffic;
    assert Extended(fs, fs);
  }

  /** The receiver behind the wire hands on exactly the datagrams whose lookup hit, each with its padding if any. */
  lemma WireRoundTrip(me: Mac, l: LeftState, f: Framer, d: Detector, r: Router, s: RightState,
                      rs: seq<ArpReply>, ps: seq<seq<Word>>, wires: seq<seq<Word>>)
    returns (qs: seq<seq<Word>>)
    requires ValidFramer(f) && f.stage.HeaderWord? && LeftIdle(l)
    requires DetectIdle(d) && !r.inPacket && RightIdle(6, s)
    requires |rs| == |ps| && IsTraffic(ps) && OnWire(Transmit(me, l, f, rs, Flatten(ps)), wires)
    ensures Receive(d, r, s, Flatten(wires)) == ([], Flatten(qs))
    ensures |qs| == |Hits(rs, ps)| == |wires| && IsTraffic(qs) && Extended(Hits(rs, ps), qs)
    ensures forall i :: 0 <= i < |qs| ==> |Octets(wires[i])| > 14 && Octets(qs[i]) == Octets(wires[i])[14..]
  {
    hide Transmit, Receive, RightIdle, LeftIdle, ValidFramer, Octets, IsPacket, OnWire, IsContentOf, BufferedType,
      OfType;
    var hs, hits := HitHeaders(me, rs), Hits(rs, ps);
    var fs := TransmitTraffic(me, l, f, rs, ps);
    FramesArePackets(hs, hits, fs);
    WireExtends(fs, wires);
    WireTraffic(Flatten(fs), wires);
    forall i | 0 <= i < |fs| ensures Carries(hs[i], hits[i], wires[i]) {
      assert IsFrameOf(hs[i], hits[i], fs[i]);
    }
    FramesOfHits(BufferedType(d.header), hs, hits, wires);
    qs := ReceiveTraffic(d, r, s, wires);
    forall i | 0 <= i < |qs|
      ensures IsPacket(qs[i]) && |Octets(wires[i])| > 14 && Octets(qs[i]) == Octets(wires[i])[14..]
      ensures Octets(hits[i]) <= Octets(qs[i])
    {
      assert Carries(hs[i], hits[i], wires[i]);
      FrameOfHit(BufferedType(d.header), hs[i], hits[i], wires[i]);
      ContentOfFrame(wires[i], qs[i]);
      PrefixBehind(hs[i], Octets(hits[i]), Octets(wires[i]));
    }
  }

  lemma PrefixBehind(h: seq<Octet>, a: seq<Octet>, b: seq<Octet>)
    requires h + a <= b
    ensures |h| <= |b| && a <= b[|h|..]
  {
    assert (h + a)[|h|..] == a;
  }

  lemma WireTraffic(sent: seq<Word>, wires: seq<seq<Word>>)
    requires OnWire(sent, wires)
    ensures IsTraffic(wires)
  {
  }

  lemma FramesArePackets(hs: seq<RawHeader>, ps: seq<seq<Word>>, fs: seq<seq<Word>>)
    requires |hs| == |ps| == |fs| && forall i :: 0 <= i < |fs| ==> IsFrameOf(hs[i], ps[i], fs[i])
    ensures IsTraffic(fs)
  {
  }

  /**
   * Round trip: over any sequence of back-to-back datagrams and any ARP replies, the receiver hands on exactly the
   * datagrams whose lookup hit, octet for octet and in order, and nothing reaches its ARP port.
   */
  lemma FrameRoundTrip(me: Mac, l: LeftState, f: Framer, d: Detector, r: Router, s: RightState,
                       rs: seq<ArpReply>, ps: seq<seq<Word>>)
    returns (qs: seq<seq<Word>>)
    requires ValidFramer(f) && f.stage.HeaderWord? && LeftIdle(l)
    requires DetectIdle(d) && !r.inPacket && RightIdle(6, s)
    requires |rs| == |ps| && IsTraffic(ps)
    ensures Receive(d, r, s, Transmit(me, l, f, rs, Flatten(ps))) == ([], Flatten(qs))
    ensures |qs| == |Hits(rs, ps)| && IsTraffic(qs)
    ensures forall i :: 0 <= i < |qs| ==> Octets(qs[i]) == Octets(Hits(rs, ps)[i])
  {
    hide Transmit, Receive, RightIdle, LeftIdle, DetectIdle, ValidFramer, Octets, IsPacket, OnWire;
    var hs, hits := HitHeaders(me, rs), Hits(rs, ps);
    var fs := TransmitTraffic(me, l, f, rs, ps);
    FramesArePackets(hs, hits, fs);
    UnpaddedOnWire(fs);
    qs := WireRoundTrip(me, l, f, d, r, s, rs, ps, fs);
    forall i | 0 <= i < |qs| ensures Octets(qs[i]) == Octets(hits[i]) {
      assert IsFrameOf(hs[i], hits[i], fs[i]);
      assert (hs[i] + Octets(hits[i]))[14..] == Octets(hits[i]);
    }
  }

  /** `f` holds the datagram `p` behind the header `h`, with or without padding. */
  ghost predicate Carries(h: RawHeader, p: seq<Word>, f: seq<Word>) {
    IsPacket(f) && IsPacket(p) && h + Octets(p) <= Octets(f)
  }

  lemma FramesOfHits(last: nat, hs: seq<RawHeader>, ps: seq<seq<Word>>, fs: seq<seq<Word>>)
    requires |hs| == |ps| == |fs| && forall i :: 0 <= i < |fs| ==> Carries(hs[i], ps[i], fs[i])
    requires forall i :: 0 <= i < |hs| ==> hs[i][12..] == [IPV4 / 256, IPV4 % 256]
    ensures IsTraffic(fs) && OfType(IPV4, last, fs) == fs && OfType(ARP, last, fs) == []
    decreases |fs|
  {
    hide Octets, IsPacket, TypeOf;
    if fs != [] {
      assert Carries(hs[0], ps[0], fs[0]);
      FrameOfHit(last, hs[0], ps[0], fs[0]);
      FramesOfHits(IPV4, hs[1..], ps[1..], fs[1..]);
      assert fs == [fs[0]] + fs[1..];
      assert forall i :: 1 <= i < |fs| ==> fs[i] == fs[1..][i - 1];
    }
  }

  lemma FrameOfHit(last: nat, h: RawHeader, p: seq<Word>, f: seq<Word>)
    requires Carries(h, p, f) && h[12..] == [IPV4 / 256, IPV4 % 256]
    ensures f != [] && IsPacket(f) && |Octets(f)| > 14 && TypeOf(last, f) == IPV4 != ARP
  {
    hide Octets;
    PacketLength(p);
    var b := h + Octets(p);
    assert h[12..][0] == b[12] == Octets(f)[12] && h[12..][1] == b[13] == Octets(f)[13];
    TypeIsEtherType(last, f);
  }
}
