/**
 * The header buffer of packet.hpp: `parseWord` collects the first octets of a packet, `consumeWord` lays the
 * buffered header over outgoing words.
 */
module PacketHeaders {
  import opened OnesComplement
  import opened AxiStream

  datatype Header = Header(ready: bool, idx: nat, raw: seq<Octet>)

  /** While the header is incomplete the next word still reaches into it. */
  predicate ValidHeader(h: Header) { !h.ready ==> 8 * h.idx < |h.raw| }

  function Parse(h: Header, d: Lanes): (r: Header)
    requires ValidHeader(h)
    ensures ValidHeader(r) && |r.raw| == |h.raw|
  {
    var i, n := 8 * h.idx, |h.raw|;
    if h.ready then h
    else if i + 8 < n then Header(false, h.idx + 1, h.raw[..i] + d + h.raw[i + 8..])
    else Header(true, h.idx + 1, h.raw[..i] + d[..n - i])
  }

  function Consume(h: Header, d: Lanes): (Header, Lanes) {
    var i, n := 8 * h.idx, |h.raw|;
    if i + 8 <= n then (h.(idx := h.idx + 1), h.raw[i..i + 8])
    else if i < n then (h.(idx := h.idx + 1), h.raw[i..n] + d[n % 8..])
    else (h, d)
  }

  lemma PartialWord(size: nat, idx: nat)
    requires 8 * idx < size < 8 * idx + 8
    ensures size % 8 == size - 8 * idx
  {
  }

  class PacketHeader {
    const size: nat
    var ready: bool
    var idx: nat
    var header: seq<Octet>

    ghost predicate Valid()
      reads this
    {
      |header| == size
    }

    function Value(): Header
      reads this
    {
      Header(ready, idx, header)
    }

    constructor (size: nat)
      requires size > 0
      ensures Valid() && this.size == size && !ready && idx == 0 && ValidHeader(Value())
    {
      this.size := size;
      ready, idx, header := false, 0, seq(size, _ => 0);
    }

    /** The assignment operator. */
    method Assign(other: Header)
      requires |other.raw| == size
      modifies this
      ensures Valid() && Value() == other
    {
      ready, idx, header := other.ready, other.idx, other.raw;
    }

    method ParseWord(w: Lanes)
      requires Valid() && ValidHeader(Value())
      modifies this
      ensures Valid() && ValidHeader(Value()) && Value() == Parse(old(Value()), w)
    {
      if ready {
        return;
      }
      if 8 * idx + 8 < size {
        header := header[..8 * idx] + w + header[8 * idx + 8..];
      } else {
        header := header[..8 * idx] + w[..size - 8 * idx];
        ready := true;
      }
      idx := idx + 1;
    }

    /** Also returns how many octets of the header are left, in eight bits. */
    method ConsumeWord(w: Lanes) returns (r: Lanes, left: nat)
      requires Valid()
      modifies this
      ensures Valid() && (Value(), r) == Consume(old(Value()), w)
      ensures left == if 8 * old(idx) + 8 <= size then (size - 8 * idx) % 256 else 0
    {
      r, left := w, 0;
      if 8 * (idx + 1) <= size {
        r := header[8 * idx..8 * idx + 8];
        idx := idx + 1;
        left := (size - 8 * idx) % 256;
      } else if 8 * idx < size {
        PartialWord(size, idx);
        r := header[8 * idx..size] + w[size % 8..];
        idx := idx + 1;
      }
    }

    method Clear()
      requires Valid()
      modifies this
      ensures Valid() && Value() == Header(false, 0, old(header))
    {
      ready, idx := false, 0;
    }
  }

  function Concat(ds: seq<Lanes>): (b: seq<Octet>)
    ensures |b| == 8 * |ds|
  {
    if ds == [] then [] else ds[0] + Concat(ds[1..])
  }

  function ParseAll(h: Header, ds: seq<Lanes>): Header
    requires ValidHeader(h)
    decreases |ds|
  {
    if ds == [] then h else ParseAll(Parse(h, ds[0]), ds[1..])
  }

  function ConsumeAll(h: Header, ds: seq<Lanes>): (out: seq<Lanes>)
    ensures |out| == |ds|
    decreases |ds|
  {
    if ds == [] then []
    else
      var (h', d) := Consume(h, ds[0]);
      [d] + ConsumeAll(h', ds[1..])
  }

  /** `a` laid over the front of `b`. */
  function Overlay(a: seq<Octet>, b: seq<Octet>): (r: seq<Octet>)
    ensures |r| == |b|
  {
    if |a| <= |b| then a + b[|a|..] else a[..|b|]
  }

  lemma {:induction false} ParsedStays(h: Header, ds: seq<Lanes>)
    requires h.ready
    ensures ParseAll(h, ds) == h
    decreases |ds|
  {
    if ds != [] {
      ParsedStays(h, ds[1..]);
    }
  }

  /** Parsing collects the first octets of the packet, for every header size, and is ready exactly when it has all. */
  lemma {:induction false} ParseCollects(h: Header, ds: seq<Lanes>)
    requires ValidHeader(h) && !h.ready
    ensures var r, i := ParseAll(h, ds), 8 * h.idx;
            && |r.raw| == |h.raw| && (r.ready <==> |h.raw| <= i + 8 * |ds|)
            && r.raw == h.raw[..i] + Overlay(Concat(ds), h.raw[i..])
    decreases |ds|
  {
    hide Overlay;
    var i := 8 * h.idx;
    if ds == [] {
      ParseNone(h.raw, i);
    } else {
      var r := Parse(h, ds[0]);
      if r.ready {
        ParsedStays(r, ds[1..]);
        ParseLast(h.raw, i, ds[0], Concat(ds[1..]));
      } else {
        ParseCollects(r, ds[1..]);
        ParseMore(h.raw, i, ds[0], Concat(ds[1..]));
      }
    }
  }

  lemma ParseNone(raw: seq<Octet>, i: nat)
    requires i <= |raw|
    ensures raw == raw[..i] + Overlay([], raw[i..])
  {
  }

  lemma ParseLast(raw: seq<Octet>, i: nat, d: Lanes, rest: seq<Octet>)
    requires i < |raw| <= i + 8
    ensures raw[..i] + d[..|raw| - i] == raw[..i] + Overlay(d + rest, raw[i..])
  {
  }

  lemma ParseMore(raw: seq<Octet>, i: nat, d: Lanes, rest: seq<Octet>)
    requires i + 8 < |raw|
    ensures var next := raw[..i] + d + raw[i + 8..];
            next[..i + 8] + Overlay(rest, next[i + 8..]) == raw[..i] + Overlay(d + rest, raw[i..])
  {
    hide Overlay;
    var next := raw[..i] + d + raw[i + 8..];
    assert next[i + 8..] == raw[i..][8..] && next[..i + 8] == raw[..i] + d;
    OverlayCons(d, rest, raw[i..]);
  }

  lemma OverlayCons(d: Lanes, rest: seq<Octet>, b: seq<Octet>)
    requires |b| >= 8
    ensures Overlay(d + rest, b) == d + Overlay(rest, b[8..])
  {
  }

  /** What is left of a header to be consumed. */
  function Unconsumed(h: Header): seq<Octet> { if 8 * h.idx < |h.raw| then h.raw[8 * h.idx..] else [] }

  /** Consuming lays what is left of the header over the outgoing words, for every header size. */
  lemma {:induction false} ConsumeOverlays(h: Header, ds: seq<Lanes>)
    requires 8 * h.idx <= |h.raw| + 7
    ensures Concat(ConsumeAll(h, ds)) == Overlay(if 8 * h.idx < |h.raw| then h.raw[8 * h.idx..] else [], Concat(ds))
    decreases |ds|
  {
    assert Unconsumed(h) == if 8 * h.idx < |h.raw| then h.raw[8 * h.idx..] else [];
    ConsumeLays(h, ds);
  }

  lemma {:induction false} ConsumeLays(h: Header, ds: seq<Lanes>)
    requires 8 * h.idx <= |h.raw| + 7
    ensures Concat(ConsumeAll(h, ds)) == Overlay(Unconsumed(h), Concat(ds))
    decreases |ds|
  {
    hide Unconsumed;
    if ds == [] {
      OverlayNothing(Unconsumed(h));
    } else {
      hide Overlay, Consume, ConsumeAll, Concat;
      OverlayStep(Unconsumed(h), ds[0], Concat(ds[1..]));
      ConsumeStep(h, ds[0]);
      ConsumeFirst(h, ds);
      ConsumeLays(Consume(h, ds[0]).0, ds[1..]);
    }
  }

  lemma OverlayNothing(a: seq<Octet>)
    ensures Overlay(a, []) == []
  {
  }

  lemma ConsumeFirst(h: Header, ds: seq<Lanes>)
    requires ds != []
    ensures var (t, d) := Consume(h, ds[0]); Concat(ConsumeAll(h, ds)) == d + Concat(ConsumeAll(t, ds[1..]))
    ensures Concat(ds) == ds[0] + Concat(ds[1..])
  {
    hide Consume;
    var (t, d) := Consume(h, ds[0]);
    assert ConsumeAll(h, ds)[1..] == ConsumeAll(t, ds[1..]);
  }

  lemma OverlayStep(a: seq<Octet>, d: Lanes, rest: seq<Octet>)
    ensures Overlay(a, d + rest) ==
            (if |a| >= 8 then a[..8] + Overlay(a[8..], rest) else (a + d[|a|..]) + Overlay([], rest))
  {
  }

  lemma ConsumeStep(h: Header, d: Lanes)
    ensures var (t, r) := Consume(h, d); var a := Unconsumed(h);
            && Unconsumed(t) == (if |a| >= 8 then a[8..] else [])
            && (r == if |a| >= 8 then a[..8] else a + d[|a|..])
            && (8 * h.idx <= |h.raw| + 7 ==> 8 * t.idx <= |t.raw| + 7)
  {
    if 8 * h.idx < |h.raw| {
      assert h.raw[8 * h.idx..|h.raw|] == h.raw[8 * h.idx..];
      assert |h.raw| - 8 * h.idx < 8 ==> |h.raw| % 8 == |h.raw| - 8 * h.idx;
    }
  }

  /** A header laid over enough words is parsed back unchanged. */
  lemma HeaderRoundTrip(raw: seq<Octet>, blank: seq<Octet>, ds: seq<Lanes>)
    requires 0 < |raw| == |blank| <= 8 * |ds|
    ensures ParseAll(Header(false, 0, blank), ConsumeAll(Header(false, 0, raw), ds)).raw == raw
  {
    hide ParseAll, ConsumeAll;
    ConsumeOverlays(Header(false, 0, raw), ds);
    ParseCollects(Header(false, 0, blank), ConsumeAll(Header(false, 0, raw), ds));
    assert raw[0..] == raw && blank[..0] == [] && blank[0..] == blank;
  }
}
