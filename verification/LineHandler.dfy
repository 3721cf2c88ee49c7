/**
 * The line arbitrator as the repository keeps it: static registers and an array of expected sequence numbers,
 * advanced by one call.
 */
module LineHandlerCore {
  import opened Wrappers
  import opened AxiStream
  import opened Arbitration

  /** What a call sees of the port and split streams. */
  function CallOf(reset: bool, interval: Word32, port0: seq<Word>, port1: seq<Word>,
                  split0: seq<SplitId>, split1: seq<SplitId>): Call {
    Tick(reset, interval,
         [if port0 == [] then None else Some(port0[0]), if port1 == [] then None else Some(port1[0])],
         [if split0 == [] then 0 else split0[0], if split1 == [] then 0 else split1[0]])
  }

  function Behind(ids: seq<SplitId>): seq<SplitId> { if ids == [] then [] else ids[1..] }

  /** The streams of a port at the heads of which a call finds this word and this identifier. */
  predicate Heads(t: Call, p: Port, port: seq<Word>, split: seq<SplitId>) {
    && (t.words[p] == if port == [] then None else Some(port[0]))
    && (split != [] ==> t.splits[p] == split[0])
  }

  lemma CallHeads(reset: bool, interval: Word32, port0: seq<Word>, port1: seq<Word>,
                  split0: seq<SplitId>, split1: seq<SplitId>)
    ensures var t := CallOf(reset, interval, port0, port1, split0, split1);
            t.reset == reset && t.interval == interval && Heads(t, 0, port0, split0) && Heads(t, 1, port1, split1)
  {
  }

  class LineHandler {
    var iidState: Phase
    var wordIn: Word
    var resetTimerCounter: Word32
    var activePort: Port
    var splitId: SplitId
    var seqNumReceived: Word32
    const seqNumExpected: array<Word32>
    var countTotalSent: Word32
    var countTotalWordSent: Word32
    var countTotalMissed: Word32
    var countRxFeed: PerPort
    var countTxFeed: PerPort
    var countDiscarded: PerPort

    ghost predicate Valid()
      reads this
    {
      seqNumExpected.Length == NUM_SPLITS
    }

    ghost function View(): State
      reads this, seqNumExpected
      requires Valid()
    {
      State(iidState, wordIn, resetTimerCounter, activePort, splitId, seqNumReceived, seqNumExpected[..],
            countTotalSent, countTotalWordSent, countTotalMissed, countRxFeed, countTxFeed, countDiscarded)
    }

    constructor ()
      ensures Valid() && fresh(seqNumExpected) && Initial(View())
    {
      iidState, resetTimerCounter, activePort, splitId, seqNumReceived := Fetch, 0, 1, 0, 0;
      wordIn := Word([0, 0, 0, 0, 0, 0, 0, 0], Mask(0), false);
      seqNumExpected := new Word32[NUM_SPLITS](_ => 0);
      countTotalSent, countTotalWordSent, countTotalMissed := 0, 0, 0;
      countRxFeed, countTxFeed, countDiscarded := [0, 0], [0, 0], [0, 0];
    }

    /** The sequence reset loop. */
    method ClearExpected()
      requires Valid()
      modifies seqNumExpected
      ensures seqNumExpected[..] == NO_SPLITS
    {
      for i := 0 to NUM_SPLITS
        invariant forall k :: 0 <= k < i ==> seqNumExpected[k] == 0
      {
        seqNumExpected[i] := 0;
      }
    }

    /** The decision on the packet in hand; true when it is to be forwarded. */
    method Arbitrate(interval: Word32) returns (arbForward: bool)
      requires Valid()
      modifies seqNumExpected, `resetTimerCounter, `countTotalMissed
      ensures var v := VerdictOf(old(View()));
              && arbForward == Forwards(v)
              && seqNumExpected[..] == (if arbForward then old(seqNumExpected[..])[splitId := Inc(seqNumReceived)]
                                        else old(seqNumExpected[..]))
              && resetTimerCounter == (if v.Restart? then interval else old(resetTimerCounter))
              && countTotalMissed == if v.Gap? then Inc(old(countTotalMissed)) else old(countTotalMissed)
    {
      if 0 == seqNumReceived {
        if resetTimerCounter != 0 {
          arbForward := false;
        } else {
          seqNumExpected[splitId] := Inc(seqNumReceived);
          resetTimerCounter := interval;
          arbForward := true;
        }
      } else if seqNumReceived < seqNumExpected[splitId] {
        arbForward := false;
      } else if seqNumReceived == seqNumExpected[splitId] {
        seqNumExpected[splitId] := Inc(seqNumReceived);
        arbForward := true;
      } else {
        if resetTimerCounter != 0 {
          arbForward := false;
        } else {
          seqNumExpected[splitId] := Inc(seqNumReceived);
          arbForward := true;
          countTotalMissed := Inc(countTotalMissed);
        }
      }
    }

    /** What every call does first: run the timer down, serve the sequence reset register. */
    method RefreshRegisters(reset: bool, ghost t: Call)
      requires Valid() && t.reset == reset
      modifies seqNumExpected, `resetTimerCounter
      ensures View() == Refresh(old(View()), t)
    {
      if resetTimerCounter != 0 {
        resetTimerCounter := resetTimerCounter - 1;
      }
      if reset {
        ClearExpected();
      }
    }

    /** ARB_FETCH: wait for a first word, the port opposite the last one first. */
    method FetchPacket(port0Strm: seq<Word>, port1Strm: seq<Word>, split0: seq<SplitId>, split1: seq<SplitId>,
                       ghost t: Call)
      returns (rest0: seq<Word>, rest1: seq<Word>, restId0: seq<SplitId>, restId1: seq<SplitId>)
      requires Valid() && iidState.Fetch? && t == CallOf(t.reset, t.interval, port0Strm, port1Strm, split0, split1)
      requires (port0Strm != [] ==> split0 != []) && (port1Strm != [] ==> split1 != [])
      modifies `iidState, `activePort, `wordIn, `splitId, `seqNumReceived
      ensures View() == FetchStep(old(View()), t)
      ensures TakenOn(old(View()), t, 0) + rest0 == port0Strm && TakenOn(old(View()), t, 1) + rest1 == port1Strm
      ensures restId0 == if iidState.Decode? && activePort == 0 then Behind(split0) else split0
      ensures restId1 == if iidState.Decode? && activePort == 1 then Behind(split1) else split1
    {
      hide SequenceNumber;
      rest0, rest1, restId0, restId1 := port0Strm, port1Strm, split0, split1;
      if 1 == activePort {
        if port0Strm != [] {
          Accept(0, port0Strm[0], split0[0]);
          rest0, restId0 := port0Strm[1..], split0[1..];
        } else if port1Strm != [] {
          Accept(1, port1Strm[0], split1[0]);
          rest1, restId1 := port1Strm[1..], split1[1..];
        }
      } else {
        if port1Strm != [] {
          Accept(1, port1Strm[0], split1[0]);
          rest1, restId1 := port1Strm[1..], split1[1..];
        } else if port0Strm != [] {
          Accept(0, port0Strm[0], split0[0]);
          rest0, restId0 := port0Strm[1..], split0[1..];
        }
      }
    }

    /** The first word of a packet and its split identifier are taken into the registers. */
    method Accept(p: Port, word: Word, id: SplitId)
      requires Valid()
      modifies `iidState, `activePort, `wordIn, `splitId, `seqNumReceived
      ensures View() == old(View()).(phase := Decode, activePort := p, wordIn := word, splitId := id,
                                     seqNumReceived := SequenceNumber(word))
    {
      activePort, wordIn, splitId := p, word, id;
      seqNumReceived := SequenceNumber(wordIn);
      iidState := Decode;
    }

    /** ARB_DECODE: decide, count, and write the first word of a forwarded packet. */
    method DecodePacket(interval: Word32, ghost t: Call) returns (outputFeed: seq<Word>)
      requires Valid() && iidState.Decode? && t.interval == interval
      modifies this, seqNumExpected
      ensures View() == DecodeStep(old(View()), t)
      ensures outputFeed == if Forwards(VerdictOf(old(View()))) then [old(wordIn)] else []
    {
      outputFeed := [];
      var arbForward := Arbitrate(interval);
      countRxFeed := Bump(countRxFeed, activePort);
      if arbForward {
        outputFeed := [wordIn];
        countTotalWordSent := Inc(countTotalWordSent);
        countTotalSent := Inc(countTotalSent);
        iidState := Forward(activePort);
      } else {
        iidState := Drop(activePort);
      }
    }

    /** ARB_FORWARD_0 and ARB_FORWARD_1. */
    method ForwardWord(portStrm: seq<Word>, p: Port, ghost t: Call) returns (rest: seq<Word>, outputFeed: seq<Word>)
      requires Valid() && iidState == Forward(p) && t.words[p] == if portStrm == [] then None else Some(portStrm[0])
      modifies `iidState, `wordIn, `countTotalWordSent, `countTxFeed, `countTotalSent
      ensures View() == ForwardStep(old(View()), t, p)
      ensures outputFeed == TakenOn(old(View()), t, p) && outputFeed + rest == portStrm
    {
      rest, outputFeed := portStrm, [];
      if portStrm != [] {
        wordIn, rest := portStrm[0], portStrm[1..];
        outputFeed := [wordIn];
        countTotalWordSent := Inc(countTotalWordSent);
      }
      if wordIn.last {
        iidState := Fetch;
        countTxFeed := Bump(countTxFeed, p);
        countTotalSent := Inc(countTotalSent);
      }
    }

    /** ARB_DROP_0 and ARB_DROP_1. */
    method DropWord(portStrm: seq<Word>, p: Port, ghost t: Call) returns (rest: seq<Word>)
      requires Valid() && iidState == Drop(p) && t.words[p] == if portStrm == [] then None else Some(portStrm[0])
      modifies `iidState, `wordIn, `countDiscarded
      ensures View() == DropStep(old(View()), t, p)
      ensures TakenOn(old(View()), t, p) + rest == portStrm
    {
      rest := portStrm;
      if portStrm != [] {
        wordIn, rest := portStrm[0], portStrm[1..];
      }
      if wordIn.last {
        iidState := Fetch;
        countDiscarded := Bump(countDiscarded, p);
      }
    }

    method LineArbitrator(reset: bool, interval: Word32, port0Strm: seq<Word>, port1Strm: seq<Word>,
                          splitIdStrm0: seq<SplitId>, splitIdStrm1: seq<SplitId>)
      returns (rest0: seq<Word>, rest1: seq<Word>, restId0: seq<SplitId>, restId1: seq<SplitId>, outputFeed: seq<Word>)
      requires Valid()
      requires iidState.Fetch? ==> (port0Strm != [] ==> splitIdStrm0 != []) && (port1Strm != [] ==> splitIdStrm1 != [])
      modifies this, seqNumExpected
      ensures Valid()
      ensures var t := CallOf(reset, interval, port0Strm, port1Strm, splitIdStrm0, splitIdStrm1);
              && t.reset == reset && t.interval == interval
              && Heads(t, 0, port0Strm, splitIdStrm0) && Heads(t, 1, port1Strm, splitIdStrm1)
              && View() == Next(old(View()), t)
              && outputFeed == Emitted(old(View()), t)
              && TakenOn(old(View()), t, 0) + rest0 == port0Strm && TakenOn(old(View()), t, 1) + rest1 == port1Strm
      ensures restId0 == if old(iidState).Fetch? && iidState.Decode? && activePort == 0 && splitIdStrm0 != []
                         then splitIdStrm0[1..] else splitIdStrm0
      ensures restId1 == if old(iidState).Fetch? && iidState.Decode? && activePort == 1 && splitIdStrm1 != []
                         then splitIdStrm1[1..] else splitIdStrm1
    {
      CallHeads(reset, interval, port0Strm, port1Strm, splitIdStrm0, splitIdStrm1);
      hide Chosen, FetchStep, DecodeStep, ForwardStep, DropStep, VerdictOf, Refresh, Forwards, CallOf;
      rest0, rest1, restId0, restId1, outputFeed := port0Strm, port1Strm, splitIdStrm0, splitIdStrm1, [];
      ghost var t := CallOf(reset, interval, port0Strm, port1Strm, splitIdStrm0, splitIdStrm1);
      RefreshInvisible(View(), t, 0);
      RefreshInvisible(View(), t, 1);
      assert [] + port0Strm == port0Strm && [] + port1Strm == port1Strm;
      RefreshRegisters(reset, t);
      match iidState {
        case Fetch =>
          rest0, rest1, restId0, restId1 := FetchPacket(port0Strm, port1Strm, splitIdStrm0, splitIdStrm1, t);
        case Decode =>
          outputFeed := DecodePacket(interval, t);
        case Forward(p) =>
          if p == 0 {
            rest0, outputFeed := ForwardWord(port0Strm, 0, t);
          } else {
            rest1, outputFeed := ForwardWord(port1Strm, 1, t);
          }
        case Drop(p) =>
          if p == 0 {
            rest0 := DropWord(port0Strm, 0, t);
          } else {
            rest1 := DropWord(port1Strm, 1, t);
          }
      }
    }
  }
}
