/**
 * The whole way of a datagram: through mac_ip_encode onto the wire and through ip_handler to the protocol stages.
 */
module Delivery {
  import opened OnesComplement
  import opened AxiStream
  import opened WordShift
  import IpHeader
  import opened IpReceive
  import IpDropper
  import opened EthernetSend
  import opened EthernetReceive
  import opened Ethernet
  import opened CutLength

  /** The static state of every stage on the way. */
  datatype Path = Path(compute: IpHeader.Sender, insert: IpHeader.Inserter, shiftOut: LeftState, frame: Framer,
                       detect: Detector, route: Router, shiftIn: RightState, check: Receiver,
                       drop: IpDropper.Dropper, cut: Cutter)

  predicate ValidPath(s: Path) {
    s.insert.checksum <= 65535 && ValidFramer(s.frame) && ValidDetector(s.detect)
  }

  /** Every stage between packets. */
  ghost predicate IdlePath(s: Path) {
    && ValidPath(s) && IdleSender(s) && IdleReceiver(s)
  }

  ghost predicate IdleSender(s: Path) {
    && s.compute.sums == [0, 0, 0, 0] && s.compute.wordCount == 0 && s.insert.wordCount == 0
    && LeftIdle(s.shiftOut) && s.frame.stage.HeaderWord?
  }

  ghost predicate IdleReceiver(s: Path) {
    && DetectIdle(s.detect) && !s.route.inPacket && RightIdle(6, s.shiftIn) && RecvIdle(s.check)
    && s.drop.phase.GetValid? && IpDropper.InRange(s.drop.counts) && CutIdle(s.cut)
  }

  /** mac_ip_encode: sum the header, store the checksum, gate by the ARP replies, shift, frame. */
  function Encode(me: Mac, s: Path, rs: seq<ArpReply>, ws: seq<Word>): seq<Word>
    requires ValidPath(s)
  {
    var checksums := IpHeader.FinalizeAll(IpHeader.SenderRun(true, s.compute, ws).1);
    Transmit(me, s.shiftOut, s.frame, rs, IpHeader.InsertRun(s.insert, ws, checksums).3)
  }

  function JudgeAll(hs: seq<HeaderSums>): (vs: seq<Verdict>)
    ensures |vs| == |hs| && forall i :: 0 <= i < |hs| ==> vs[i] == Judge(hs[i])
  {
    seq(|hs|, i requires 0 <= i < |hs| => Judge(hs[i]))
  }

  /** ip_handler up to the protocol stages: detect, route, shift, check, drop, cut. */
  function Handle(mine: Address, s: Path, ws: seq<Word>): seq<Word>
    requires ValidPath(s)
  {
    var ip := Receive(s.detect, s.route, s.shiftIn, ws).1;
    CutRun(s.cut, IpDropper.DropRun(s.drop, ip, JudgeAll(RecvRun(mine, s.check, ip).1)).1).1
  }

  /** What the last three stages make of a traffic of datagrams. */
  lemma HandleDatagrams(mine: Address, s: Path, gs: seq<seq<Word>>) returns (vs: seq<Verdict>, os: seq<seq<Word>>)
    requires ValidPath(s) && IdleReceiver(s) && forall i :: 0 <= i < |gs| ==> IsPacketOrBare(gs[i])
    ensures |vs| == |gs| && forall i :: 0 <= i < |gs| ==> VerdictOf(mine, gs[i], vs[i])
    ensures CutRun(s.cut, IpDropper.DropRun(s.drop, Flatten(gs), JudgeAll(RecvRun(mine, s.check, Flatten(gs)).1)).1).1
            == Flatten(os)
    ensures var kept := IpDropper.Passed(vs, gs);
            IsTraffic(kept) && |os| == |kept| && forall i :: 0 <= i < |os| ==> IsPacket(os[i]) && CutTo(kept[i], os[i])
  {
    hide IsPacketOrBare, VerdictOf, RecvRun, CutRun, CutTo, Flatten, DetectIdle, RightIdle, RecvIdle, CutIdle, Judge;
    RecvTraffic(mine, s.check, gs);
    vs := JudgeAll(RecvRun(mine, s.check, Flatten(gs)).1);
    IpDropper.DropTraffic(s.drop, vs, gs);
    PassedArePackets(mine, vs, gs);
    os := CutTraffic(s.cut, IpDropper.Passed(vs, gs));
  }

  /** A verdict is good only for a packet that has come with its whole header. */
  lemma GoodIsPacket(mine: Address, g: seq<Word>, v: Verdict)
    requires VerdictOf(mine, g, v) && IpDropper.Good(v)
    ensures IsPacket(g) && |g| > 2
  {
    hide IsPacket, AllLanes, SummedLanes, IsMatch, Verifies;
  }

  lemma {:induction false} PassedArePackets(mine: Address, vs: seq<Verdict>, gs: seq<seq<Word>>)
    requires |vs| == |gs| && forall i :: 0 <= i < |gs| ==> VerdictOf(mine, gs[i], vs[i])
    ensures IsTraffic(IpDropper.Passed(vs, gs))
    decreases |gs|
  {
    hide VerdictOf, IpDropper.Good, IsPacket;
    if gs != [] {
      PassedArePackets(mine, vs[1..], gs[1..]);
      if IpDropper.Good(vs[0]) {
        GoodIsPacket(mine, gs[0], vs[0]);
      }
    }
  }

  /** The frames of the given words that the router takes for IPv4. */
  function IpFrames(s: Path, fs: seq<seq<Word>>): (r: seq<seq<Word>>)
    requires ValidPath(s) && IsTraffic(fs)
    ensures IsTraffic(r)
  {
    OfType(IPV4, BufferedType(s.detect.header), fs)
  }

  /** What is left of a frame is a packet, or a last word without octets. */
  lemma ContentShape(f: seq<Word>, g: seq<Word>)
    requires IsPacket(f) && IsContentOf(f, g)
    ensures IsPacketOrBare(g)
    ensures |Octets(f)| > 14 ==> IsPacket(g) && Octets(g) == Octets(f)[14..]
    ensures |Octets(f)| <= 14 ==> |g| == 1
  {
    hide Octets;
    if |Octets(f)| > 14 {
      ContentOfFrame(f, g);
    } else {
      PacketLength(f);
      var t := Stripped(IPV4, f);
      assert IsPacket(t) && |t| == 1;
      PacketLength(t);
      if |Octets(t)| > 6 {
        PacketLength(g);
      }
    }
  }

  /** A frame that is not longer than its header never gets a good verdict. */
  lemma RuntDropped(mine: Address, f: seq<Word>, g: seq<Word>, v: Verdict)
    requires IsPacket(f) && IsContentOf(f, g) && VerdictOf(mine, g, v) && |Octets(f)| <= 14
    ensures !IpDropper.Good(v)
  {
    hide IsContentOf, VerdictOf, Octets, IsPacket, IpDropper.Good;
    ContentShape(f, g);
    if IpDropper.Good(v) {
      GoodIsPacket(mine, g, v);
    }
  }

  /**
   * Any mixture of back-to-back frames, however short: what reaches the protocol stages are, in order, the contents of
   * the IPv4 frames whose verdict is good, cut to their total length; a frame without a content never gets one.
   */
  lemma HandleTraffic(mine: Address, s: Path, fs: seq<seq<Word>>)
    returns (gs: seq<seq<Word>>, vs: seq<Verdict>, os: seq<seq<Word>>)
    requires ValidPath(s) && IdleReceiver(s) && IsTraffic(fs)
    ensures |vs| == |gs| == |IpFrames(s, fs)|
    ensures forall i :: 0 <= i < |gs| ==>
              var f := IpFrames(s, fs)[i];
              && VerdictOf(mine, gs[i], vs[i])
              && if |Octets(f)| > 14 then IsPacket(gs[i]) && Octets(gs[i]) == Octets(f)[14..]
                 else !IpDropper.Good(vs[i])
    ensures Handle(mine, s, Flatten(fs)) == Flatten(os) && |os| == |IpDropper.Passed(vs, gs)|
    ensures var kept := IpDropper.Passed(vs, gs);
            IsTraffic(kept) && forall i :: 0 <= i < |os| ==> IsPacket(os[i]) && CutTo(kept[i], os[i])
  {
    hide VerdictOf, RecvRun, CutRun, CutTo, Flatten, DetectIdle, RightIdle, RecvIdle, CutIdle, Judge, Receive, OfType,
      IsPacket, IsPacketOrBare, Octets, IsContentOf, BufferedType, IpDropper.Good;
    gs := ReceiveTraffic(s.detect, s.route, s.shiftIn, fs);
    var ip := IpFrames(s, fs);
    forall i | 0 <= i < |gs| ensures IsPacketOrBare(gs[i]) { ContentShape(ip[i], gs[i]); }
    vs, os := HandleDatagrams(mine, s, gs);
    forall i | 0 <= i < |gs|
      ensures if |Octets(ip[i])| > 14 then IsPacket(gs[i]) && Octets(gs[i]) == Octets(ip[i])[14..]
              else !IpDropper.Good(vs[i])
    {
      ContentShape(ip[i], gs[i]);
      if |Octets(ip[i])| <= 14 {
        RuntDropped(mine, ip[i], gs[i], vs[i]);
      }
    }
  }

  // ---------------------------------------------------------------- end to end

  predicate IsDatagram(p: seq<Word>) { IsPacket(p) && IpHeader.HasHeader(Octets(p)) }

  /** The total length field of a datagram. */
  function Announced(b: seq<Octet>): nat
    requires |b| >= 20
  {
    Pair(b[2], b[3])
  }

  /** The datagram with the header checksum it must carry. */
  function Stamped(b: seq<Octet>): (r: seq<Octet>)
    requires IpHeader.HasHeader(b)
    ensures |r| == |b| >= 20
  {
    IpHeader.WithChecksum(b, IpHeader.HeaderChecksum(b))
  }

  /** A version 4 datagram for this host, or for a group or broadcast address. */
  predicate Wanted(mine: Address, p: seq<Word>) {
    var b := Octets(p);
    |b| >= 20 && HighNibble(b[0]) == 4 && IsMatch(mine, Destination(b))
  }

  /** In octets: a first octet of 64 to 79, and this host, a group from 224 to 239 or all ones as destination. */
  lemma WantedInOctets(mine: Address, p: seq<Word>)
    ensures Wanted(mine, p) <==>
            var b := Octets(p);
            && |b| >= 20 && 64 <= b[0] < 80
            && (b[16..20] == mine || 224 <= b[16] <= 239 || b[16] == b[17] == b[18] == b[19] == 255)
  {
    hide Octets, IsMatch;
    var b := Octets(p);
    if |b| >= 20 {
      MatchInOctets(mine, b[16..20]);
    }
  }

  function Addressed(mine: Address, ps: seq<seq<Word>>): (r: seq<seq<Word>>)
    ensures (forall i :: 0 <= i < |ps| ==> IsDatagram(ps[i])) ==> forall i :: 0 <= i < |r| ==> IsDatagram(r[i])
  {
    if ps == [] then []
    else if Wanted(mine, ps[0]) then [ps[0]] + Addressed(mine, ps[1..])
    else Addressed(mine, ps[1..])
  }

  /** `g` starts with the datagram `h` and its right checksum; padding may follow. */
  ghost predicate Arrived(h: seq<Word>, g: seq<Word>) {
    IsDatagram(h) && IsPacket(g) && Stamped(Octets(h)) <= Octets(g)
  }

  lemma {:induction false} HitsStayPaired(rs: seq<ArpReply>, ps: seq<seq<Word>>, cs: seq<seq<Word>>)
    requires |rs| == |ps| == |cs|
    requires forall i :: 0 <= i < |ps| ==> IsDatagram(ps[i]) && IpHeader.Checksummed(ps[i], cs[i])
    ensures |Hits(rs, ps)| == |Hits(rs, cs)|
    ensures forall i :: 0 <= i < |Hits(rs, ps)| ==>
              IsDatagram(Hits(rs, ps)[i]) && IpHeader.Checksummed(Hits(rs, ps)[i], Hits(rs, cs)[i])
    decreases |ps|
  {
    hide IsDatagram, IpHeader.Checksummed;
    if ps != [] {
      HitsStayPaired(rs[1..], ps[1..], cs[1..]);
    }
  }

  /** A datagram that has arrived keeps its version, header length, total length and destination. */
  lemma ArrivedFields(h: seq<Word>, g: seq<Word>)
    requires Arrived(h, g)
    ensures var a, b := Stamped(Octets(h)), Octets(g);
            && |Octets(h)| == |a| <= |b| && Octets(h)[0] == a[0] == b[0] && Destination(Octets(h)) == Destination(b)
            && TotalLength(g) == Announced(Octets(h))
    ensures |g| > 1
  {
    hide IpHeader.HeaderChecksum, Octets, IsPacket;
    PacketLength(g);
    OctetAt(g, 2);
    OctetAt(g, 3);
  }

  /** The verdict on a datagram that has arrived. */
  lemma VerdictOnSent(mine: Address, h: seq<Word>, g: seq<Word>, v: Verdict)
    requires Arrived(h, g) && VerdictOf(mine, g, v)
    ensures IpDropper.Good(v) <==> Wanted(mine, h)
  {
    hide Verifies, IsMatch, IpHeader.HeaderChecksum, Octets, VerdictOf, Stamped, IsPacket;
    var a, b := Stamped(Octets(h)), Octets(g);
    ArrivedFields(h, g);
    StampedHeader(Octets(h));
    SummedIsHeader(a);
    assert RestLength(a) == RestLength(b) && Summed(a) == Summed(b);
    CompleteVerdict(mine, g, v);
  }

  lemma StampedHeader(b: seq<Octet>)
    requires IpHeader.HasHeader(b)
    ensures IpHeader.HasHeader(Stamped(b)) && Verifies(IpHeader.Header(Stamped(b)))
  {
    IpHeader.StoredChecksumVerifies(b);
  }

  predicate SameLengths(hs: seq<seq<Word>>, gs: seq<seq<Word>>) {
    |hs| == |gs| && forall i :: 0 <= i < |hs| ==> |Octets(hs[i])| == |Octets(gs[i])|
  }

  lemma {:induction false} PassedAreAddressed(mine: Address, hs: seq<seq<Word>>, gs: seq<seq<Word>>, vs: seq<Verdict>)
    requires |hs| == |gs| == |vs|
    requires forall i :: 0 <= i < |hs| ==> Arrived(hs[i], gs[i]) && VerdictOf(mine, gs[i], vs[i])
    ensures |Addressed(mine, hs)| == |IpDropper.Passed(vs, gs)|
    ensures forall i :: 0 <= i < |Addressed(mine, hs)| ==>
              Arrived(Addressed(mine, hs)[i], IpDropper.Passed(vs, gs)[i])
    ensures SameLengths(hs, gs) ==> SameLengths(Addressed(mine, hs), IpDropper.Passed(vs, gs))
    decreases |hs|
  {
    hide Arrived, VerdictOf, Wanted, IpDropper.Good, IsDatagram, Octets;
    if hs != [] {
      VerdictOnSent(mine, hs[0], gs[0], vs[0]);
      PassedAreAddressed(mine, hs[1..], gs[1..], vs[1..]);
    }
  }

  /** Cut to a total length between 9 and the datagram's own, exactly that much of it is left. */
  lemma CutArrived(h: seq<Word>, g: seq<Word>, o: seq<Word>)
    requires Arrived(h, g) && CutTo(g, o)
    ensures var b := Octets(h); 8 < Announced(b) <= |b| ==> Octets(o) == Stamped(b)[..Announced(b)]
  {
    hide Octets, Stamped, TotalLength, CutTo, IsPacket;
    ArrivedFields(h, g);
    CutIsExact(g, o);
    var n := Announced(Octets(h));
    if 8 < n <= |Octets(h)| {
      assert Octets(g)[..n] == Stamped(Octets(h))[..n];
    }
  }

  /** What reaches the protocol stages of a datagram: what has arrived of it, cut to its total length. */
  ghost predicate Delivered(h: seq<Word>, o: seq<Word>) {
    && IsDatagram(h) && IsPacket(o)
    && (exists g :: Arrived(h, g) && CutTo(g, o))
    && var b := Octets(h);
       && (8 < Announced(b) <= |b| ==> Octets(o) == Stamped(b)[..Announced(b)])
       && (Announced(b) == |b| ==> Octets(o) == Stamped(b))
  }

  lemma ArrivedDelivered(h: seq<Word>, g: seq<Word>, o: seq<Word>)
    requires Arrived(h, g) && IsPacket(o) && CutTo(g, o)
    ensures Delivered(h, o)
  {
    hide Octets, CutTo, IsPacket, Stamped;
    CutArrived(h, g, o);
    assert Stamped(Octets(h))[..|Octets(h)|] == Stamped(Octets(h));
  }

  lemma StampedAre(hs: seq<seq<Word>>, cs: seq<seq<Word>>, gs: seq<seq<Word>>)
    requires |hs| == |cs| && Extended(cs, gs) && IsTraffic(gs)
    requires forall i :: 0 <= i < |hs| ==> IsDatagram(hs[i]) && IpHeader.Checksummed(hs[i], cs[i])
    ensures forall i :: 0 <= i < |hs| ==> Arrived(hs[i], gs[i])
  {
    hide Octets, IsPacket, IpHeader.HasHeader, IpHeader.WithChecksum, IpHeader.HeaderChecksum;
    forall i | 0 <= i < |hs| ensures Arrived(hs[i], gs[i]) {
      assert IpHeader.Checksummed(hs[i], cs[i]);
    }
  }

  /**
   * End to end, over a wire that may pad every frame: of any back-to-back datagrams and any ARP replies, exactly
   * those whose lookup hit, of version 4 and for this host or a group or broadcast address, reach the protocol
   * stages, in order and with the right header checksum, cut to their total length.
   */
  lemma PaddedEndToEnd(me: Mac, mine: Address, s: Path, rs: seq<ArpReply>, ps: seq<seq<Word>>, wires: seq<seq<Word>>)
    returns (os: seq<seq<Word>>)
    requires IdlePath(s) && |rs| == |ps| && forall i :: 0 <= i < |ps| ==> IsDatagram(ps[i])
    requires OnWire(Encode(me, s, rs, Flatten(ps)), wires)
    ensures Handle(mine, s, Flatten(wires)) == Flatten(os)
    ensures var hs := Addressed(mine, Hits(rs, ps));
            |os| == |hs| && forall i :: 0 <= i < |os| ==> Delivered(hs[i], os[i])
  {
    hide Flatten, Receive, Transmit, IpHeader.InsertRun, IpHeader.SenderRun, IpHeader.FinalizeAll, RecvRun, CutRun,
      LeftIdle, RightIdle, DetectIdle, RecvIdle, CutIdle, VerdictOf, CutTo, Stamped, OnWire, Arrived, Octets, IsPacket,
      IpHeader.HasHeader, Delivered;
    var cs := IpHeader.SendTraffic(s.compute, s.insert, ps);
    HitsStayPaired(rs, ps, cs);
    assert IsTraffic(cs) by { assert forall i :: 0 <= i < |ps| ==> IpHeader.Checksummed(ps[i], cs[i]); }
    var gs := WireRoundTrip(me, s.shiftOut, s.frame, s.detect, s.route, s.shiftIn, rs, cs, wires);
    var hs := Hits(rs, ps);
    StampedAre(hs, Hits(rs, cs), gs);
    var vs;
    vs, os := HandleDatagrams(mine, s, gs);
    PassedAreAddressed(mine, hs, gs, vs);
    forall i | 0 <= i < |os| ensures Delivered(Addressed(mine, hs)[i], os[i]) {
      ArrivedDelivered(Addressed(mine, hs)[i], IpDropper.Passed(vs, gs)[i], os[i]);
    }
  }

  /**
   * What reaches the protocol stages of a datagram when the wire adds nothing: all of it if its total length ends
   * behind its last word, otherwise as much as that says, and 16 octets if it says 8 or less.  A total length that
   * ends in the last word behind the octets adds what the unused lanes hold.
   */
  ghost predicate DeliveredAlone(h: seq<Word>, o: seq<Word>) {
    && IsDatagram(h) && IsPacket(o)
    && var b := Octets(h);
       var n, total := |b|, Announced(b);
       if total <= 8 then Octets(o) == Stamped(b)[..16]
       else if total <= n then Octets(o) == Stamped(b)[..total]
       else if total <= (n + 7) / 8 * 8 then |Octets(o)| == total && Stamped(b) <= Octets(o)
       else Octets(o) == Stamped(b)
  }

  lemma CutAlone(h: seq<Word>, g: seq<Word>, o: seq<Word>)
    requires Arrived(h, g) && |Octets(g)| == |Octets(h)| && CutTo(g, o) && IsPacket(o)
    ensures DeliveredAlone(h, o)
  {
    ArrivedFields(h, g);
    PacketLength(g);
    LanesCarryOctets(g);
    hide IsPacket, Octets, Stamped, AllLanes, TotalLength, Announced;
    var b, total := Octets(h), Announced(Octets(h));
    assert Octets(g) == Stamped(b) == AllLanes(g)[..|b|];
    WordCount(|g|, |b|);
    if total <= 8 {
      CutSlice(AllLanes(g), |b|, 16);
    } else if total <= 8 * |g| {
      CutSlice(AllLanes(g), |b|, total);
    }
  }

  lemma WordCount(words: nat, n: nat)
    requires 8 * words - 8 < n <= 8 * words
    ensures (n + 7) / 8 == words
  {
  }

  lemma CutSlice(all: seq<Octet>, n: nat, m: nat)
    requires n <= |all| && m <= |all|
    ensures m <= n ==> all[..m] == all[..n][..m]
    ensures n <= m ==> all[..n] <= all[..m]
  {
  }

  lemma StampedAlone(hs: seq<seq<Word>>, cs: seq<seq<Word>>, gs: seq<seq<Word>>)
    requires |hs| == |cs| == |gs| && forall i :: 0 <= i < |gs| ==> Octets(gs[i]) == Octets(cs[i])
    requires forall i :: 0 <= i < |hs| ==> IsDatagram(hs[i]) && IpHeader.Checksummed(hs[i], cs[i])
    ensures Extended(cs, gs) && SameLengths(hs, gs)
  {
    hide Octets, IpHeader.HeaderChecksum, IsPacket;
    forall i | 0 <= i < |gs| ensures |Octets(hs[i])| == |Octets(gs[i])| && Octets(cs[i]) <= Octets(gs[i]) {
      assert IpHeader.Checksummed(hs[i], cs[i]);
    }
  }

  /** The same when the wire adds nothing, with every datagram delivered exactly as its total length says. */
  lemma EndToEnd(me: Mac, mine: Address, s: Path, rs: seq<ArpReply>, ps: seq<seq<Word>>) returns (os: seq<seq<Word>>)
    requires IdlePath(s) && |rs| == |ps| && forall i :: 0 <= i < |ps| ==> IsDatagram(ps[i])
    ensures Handle(mine, s, Encode(me, s, rs, Flatten(ps))) == Flatten(os)
    ensures var hs := Addressed(mine, Hits(rs, ps));
            |os| == |hs| && forall i :: 0 <= i < |os| ==> DeliveredAlone(hs[i], os[i])
  {
    hide Flatten, Receive, Transmit, IpHeader.InsertRun, IpHeader.SenderRun, IpHeader.FinalizeAll, RecvRun, CutRun,
      LeftIdle, RightIdle, DetectIdle, RecvIdle, CutIdle, VerdictOf, CutTo, Stamped, Arrived, Octets, IsPacket,
      IpHeader.HasHeader, DeliveredAlone, SameLengths;
    var cs := IpHeader.SendTraffic(s.compute, s.insert, ps);
    HitsStayPaired(rs, ps, cs);
    assert IsTraffic(cs) by { assert forall i :: 0 <= i < |ps| ==> IpHeader.Checksummed(ps[i], cs[i]); }
    var gs := FrameRoundTrip(me, s.shiftOut, s.frame, s.detect, s.route, s.shiftIn, rs, cs);
    var hs := Hits(rs, ps);
    StampedAlone(hs, Hits(rs, cs), gs);
    StampedAre(hs, Hits(rs, cs), gs);
    var vs;
    vs, os := HandleDatagrams(mine, s, gs);
    PassedAreAddressed(mine, hs, gs, vs);
    AllAlone(Addressed(mine, hs), IpDropper.Passed(vs, gs), os);
  }

  lemma AllAlone(hs: seq<seq<Word>>, gs: seq<seq<Word>>, os: seq<seq<Word>>)
    requires SameLengths(hs, gs) && |os| == |hs|
    requires forall i :: 0 <= i < |os| ==> Arrived(hs[i], gs[i]) && CutTo(gs[i], os[i]) && IsPacket(os[i])
    ensures forall i :: 0 <= i < |os| ==> DeliveredAlone(hs[i], os[i])
  {
    hide Arrived, CutTo, IsPacket, DeliveredAlone, Octets;
    forall i | 0 <= i < |os| ensures DeliveredAlone(hs[i], os[i]) { CutAlone(hs[i], gs[i], os[i]); }
  }
}
