/**
 * The data mover: its command state machine and its read and write loops over a UramArray.
 */
module DataMover {
  import opened Bits
  import opened UramMemory
  import opened DataMoverSpec
  import opened DataMoverWrite

  datatype Command = Command(saddr: nat, btt: nat)

  datatype Fsm = Idle | Write | ReadError | WriteError

  /** What the source asks of a command: its session is refused, or lies in the memory with the whole transfer. */
  predicate Legal(c: Command) {
    SessionRefused(c.saddr) || (SessionFits(c.saddr) && InWindow(c.saddr, c.btt))
  }

  /** In address bits: the session is 32 or more, or below 4 with the transfer inside its 64 KiB. */
  lemma LegalInBits(c: Command)
    ensures Legal(c) <==> var session := c.saddr / 0x10000 % 256;
                          session >= 32 || (session < 4 && c.saddr % 0x10000 + c.btt <= 0x10000)
  {
  }

  class UramDataMover {
    const mem: UramArray
    var state: Fsm
    var cVars: CommonVars
    var currCmd: Command

    ghost predicate Sized() {
      mem.w == 64 && mem.n == MEMORY_WORDS && mem.depth == 1 && mem.Sized()
    }

    ghost predicate Valid()
      reads this, mem.blocks, mem.index, mem.state
    {
      && Sized() && mem.Valid()
      && (state == Write ==> cVars == SetCommon(currCmd.saddr, currCmd.btt) && SessionFits(currCmd.saddr)
                             && InWindow(currCmd.saddr, currCmd.btt))
    }

    /** The memory contents, cache and packing aside. */
    ghost function Contents(): (m: Memory)
      requires Sized()
      reads mem.blocks
      ensures m == mem.View()
    {
      var v := mem.View();
      assert forall i :: 0 <= i < |v| ==> |v[i]| == 64;
      seq(MEMORY_WORDS, i requires 0 <= i < |v| => v[i])
    }

    constructor (garbage: (nat, nat, nat) -> Line)
      ensures Valid() && state == Idle && fresh(mem) && fresh(mem.blocks) && fresh(mem.index) && fresh(mem.state)
    {
      mem := new UramArray(64, MEMORY_WORDS, 1, garbage);
      state, cVars, currCmd := Idle, SetCommon(0, 0), Command(0, 0);
    }

    /** One call of the state machine. */
    method Step(cmdRead: seq<Command>, cmdWrite: seq<Command>, dataIn: seq<Word>, uninitialised: Word)
      returns (restRead: seq<Command>, restWrite: seq<Command>, restData: seq<Word>, status: seq<bool>,
               dataOut: seq<Beat>)
      requires Valid()
      requires state == Idle && cmdRead != [] ==> Legal(cmdRead[0])
      requires state == Idle && cmdRead == [] && cmdWrite != [] ==> Legal(cmdWrite[0])
      requires state == Write ==> |dataIn| >= InputWords(currCmd.btt)
      modifies this, mem.blocks, mem.index, mem.state
      ensures Valid()
      ensures old(state) != Write ==> Contents() == old(Contents()) && restData == dataIn
      ensures old(state) == Idle && cmdRead != [] ==>
                restRead == cmdRead[1..] && restWrite == cmdWrite && status == []
                && (SessionRefused(cmdRead[0].saddr) ==> state == ReadError && dataOut == [])
                && (SessionFits(cmdRead[0].saddr) ==>
                      state == Idle && dataOut == ReadBurst(Contents(), cmdRead[0].saddr, cmdRead[0].btt))
      ensures old(state) == Idle && cmdRead == [] && cmdWrite != [] ==>
                restRead == cmdRead && restWrite == cmdWrite[1..] && status == [] && dataOut == []
                && currCmd == cmdWrite[0]
                && state == if SessionRefused(cmdWrite[0].saddr) then WriteError else Write
      ensures old(state) == Idle && cmdRead == [] && cmdWrite == [] ==>
                restRead == cmdRead && restWrite == cmdWrite && status == [] && dataOut == [] && state == Idle
      ensures old(state) == Write ==>
                state == Idle && restRead == cmdRead && restWrite == cmdWrite && dataOut == [] && status == [true]
                && restData == dataIn[InputWords(old(currCmd).btt)..]
                && Contents() == WriteMem(old(Contents()), old(currCmd).saddr, old(currCmd).btt, dataIn, uninitialised)
      ensures old(state) == WriteError ==> state == Idle && status == [false] && dataOut == []
                                           && restRead == cmdRead && restWrite == cmdWrite
      ensures old(state) == ReadError ==> state == Idle && status == [] && dataOut == []
                                          && restRead == cmdRead && restWrite == cmdWrite
    {
      hide SetCommon, ReadBurst, WriteMem, SessionFits, SessionRefused, InWindow;
      restRead, restWrite, restData, status, dataOut := cmdRead, cmdWrite, dataIn, [], [];
      match state {
        case Idle =>
          if cmdRead != [] {
            currCmd, restRead := cmdRead[0], cmdRead[1..];
            dataOut := StartRead();
          } else if cmdWrite != [] {
            currCmd, restWrite := cmdWrite[0], cmdWrite[1..];
            cVars := SetCommon(currCmd.saddr, currCmd.btt);
            BufferOf(currCmd.saddr, currCmd.btt);
            if cVars.nBuffer >= MAX_SESSIONS {
              state := WriteError;
            } else {
              state := Write;
            }
          }
        case Write =>
          WriteLoop(dataIn, uninitialised);
          restData, status := dataIn[InputWords(currCmd.btt)..], [true];
          state := Idle;
        case WriteError =>
          status := [false];
          state := Idle;
        case ReadError =>
          state := Idle;
      }
    }

    lemma BufferOf(saddr: nat, btt: nat)
      ensures SessionRefused(saddr) <==> SetCommon(saddr, btt).nBuffer >= MAX_SESSIONS
      ensures SessionFits(saddr) ==> !SessionRefused(saddr)
    {
      BufferAddress(saddr, btt);
    }

    /** The read half of the IDLE state, for the command just taken. */
    method StartRead() returns (dataOut: seq<Beat>)
      requires Valid() && state == Idle && Legal(currCmd)
      modifies `state, `cVars
      ensures Valid()
      ensures SessionRefused(currCmd.saddr) ==> state == ReadError && dataOut == []
      ensures SessionFits(currCmd.saddr) ==>
                state == Idle && dataOut == ReadBurst(Contents(), currCmd.saddr, currCmd.btt)
    {
      hide SetCommon, ReadBurst, SessionFits, SessionRefused;
      var cv := SetCommon(currCmd.saddr, currCmd.btt);
      var transfers := ReadTransfers(currCmd.saddr, cv);
      BufferOf(currCmd.saddr, currCmd.btt);
      dataOut := [];
      if cv.nBuffer >= MAX_SESSIONS {
        cVars := cv.(nTransferWords := transfers);
        state := ReadError;
      } else {
        var shifted;
        dataOut, shifted := ReadLoop(cv, transfers);
        cVars := cv.(nTransferWords := transfers, rshiftWord := shifted,
                     nCurrWordAddr := cv.nCurrWordAddr + 8 * transfers);
      }
    }

    /** The read loop; returns what it wrote and the final shift register. */
    method ReadLoop(cv: CommonVars, transfers: nat) returns (dataOut: seq<Beat>, rshiftWord: Word)
      requires Valid() && InWindow(currCmd.saddr, currCmd.btt) && SessionFits(currCmd.saddr)
      requires cv == SetCommon(currCmd.saddr, currCmd.btt) && transfers == ReadTransfers(currCmd.saddr, cv)
      ensures dataOut == ReadBurst(Contents(), currCmd.saddr, currCmd.btt)
    {
      ghost var ws := Fetched(Contents(), currCmd.saddr, currCmd.btt);
      ghost var off := currCmd.saddr % 8;
      ReadFields(currCmd.saddr, currCmd.btt);
      FetchedCount(Contents(), currCmd.saddr, currCmd.btt);
      hide SetCommon, ReadTransfers, Realigned, SessionFits, Fetched, Burst, InWindow, LeftShiftOctets,
        RightShiftOctets, Or;
      dataOut, rshiftWord := [], cv.rshiftWord;
      var nCurrWordAddr := cv.nCurrWordAddr;
      for jj := 0 to transfers
        invariant nCurrWordAddr == cv.nCurrWordAddr + 8 * jj
        invariant jj > 0 ==> rshiftWord == RightShiftOctets(ws[jj - 1], off)
        invariant dataOut == BurstUpTo(ws, off, currCmd.btt, jj)
      {
        var word := Fetch(cv, nCurrWordAddr, jj);
        var lshiftWord := if cv.nStartWordByte > 0 then LeftShiftOctets(word, cv.nShift) else Zeros(64);
        lshiftWord := Or(lshiftWord, rshiftWord);
        rshiftWord := RightShiftOctets(word, cv.nStartWordByte);
        nCurrWordAddr := nCurrWordAddr + 8;
        var last := jj == transfers - 1;
        if jj > 0 {
          JoinIsRealigned(ws[jj - 1], word, off, cv.nShift);
          BurstGrows(ws, off, currCmd.btt, jj);
          dataOut := dataOut + [Beat(lshiftWord, if last then LastKeep(currCmd.btt) else Ones(8), last)];
        }
      }
    }

    /** One word of the burst. */
    method Fetch(cv: CommonVars, nCurrWordAddr: nat, ghost jj: nat) returns (word: Word)
      requires Valid() && InWindow(currCmd.saddr, currCmd.btt) && SessionFits(currCmd.saddr)
      requires cv == SetCommon(currCmd.saddr, currCmd.btt) && jj < ReadTransfers(currCmd.saddr, cv)
      requires nCurrWordAddr == cv.nCurrWordAddr + 8 * jj
      ensures jj < |Fetched(Contents(), currCmd.saddr, currCmd.btt)|
      ensures word == Fetched(Contents(), currCmd.saddr, currCmd.btt)[jj]
    {
      hide SetCommon, ReadTransfers, SessionFits, Fetched, InWindow;
      FetchedAt(Contents(), currCmd.saddr, currCmd.btt, jj);
      word := mem.Read(cv.nBufferAddr + nCurrWordAddr / 8);
    }

    /** The beats written once j words have been fetched. */
    ghost function BurstUpTo(ws: seq<Word>, off: nat, len: nat, j: nat): seq<Beat>
      requires off < 8 && 0 < |ws| && j <= |ws|
    {
      Burst(ws, off, len)[..if j == 0 then 0 else j - 1]
    }

    lemma BurstGrows(ws: seq<Word>, off: nat, len: nat, j: nat)
      requires off < 8 && 0 < j < |ws|
      ensures var last := j == |ws| - 1;
              BurstUpTo(ws, off, len, j + 1) == BurstUpTo(ws, off, len, j) +
                [Beat(Realigned(ws[j - 1], ws[j], off), if last then LastKeep(len) else Ones(8), last)]
      ensures BurstUpTo(ws, off, len, |ws|) == Burst(ws, off, len)
    {
      hide Realigned;
    }

    lemma ReadFields(saddr: nat, btt: nat)
      requires InWindow(saddr, btt)
      ensures var cv := SetCommon(saddr, btt);
              cv.nStartWordByte == saddr % 8 && cv.nShift == (8 - saddr % 8) % 8 && cv.nCurrWordAddr % 8 == 0
    {
    }

    lemma FetchedAt(m: Memory, saddr: nat, btt: nat, jj: nat)
      requires InWindow(saddr, btt) && SessionFits(saddr) && jj < ReadTransfers(saddr, SetCommon(saddr, btt))
      ensures var cv := SetCommon(saddr, btt); var at := cv.nBufferAddr + (cv.nCurrWordAddr + 8 * jj) / 8;
              at < MEMORY_WORDS && jj < |Fetched(m, saddr, btt)| && m[at] == Fetched(m, saddr, btt)[jj]
    {
      ReadCount(saddr, btt);
      FetchedCount(m, saddr, btt);
      CommonFields(saddr, btt);
      BufferFits(saddr);
      hide ReadTransfers, SetCommon;
    }

    lemma JoinIsRealigned(lo: Word, hi: Word, off: nat, shift: nat)
      requires off < 8 && shift == (8 - off) % 8
      ensures Or(if off > 0 then LeftShiftOctets(hi, shift) else Zeros(64), RightShiftOctets(lo, off)) ==
              Realigned(lo, hi, off)
    {
    }

    /** The words fetched in case the transfer starts or ends inside a word. */
    method Fills() returns (firstWord: Word, lastWord: Word)
      requires Valid() && state == Write
      ensures firstWord == HeadFill(Contents(), currCmd.saddr, currCmd.btt)
      ensures lastWord == TailFill(Contents(), currCmd.saddr, currCmd.btt)
    {
      hide SetCommon, SessionFits, InWindow;
      TailFillInRange(currCmd.saddr, currCmd.btt);
      firstWord, lastWord := Zeros(64), Zeros(64);
      if currCmd.saddr % WINDOW > cVars.nCurrWordAddr {
        firstWord := mem.Read(cVars.nCurrWordAddr + cVars.nBufferAddr);
      }
      if cVars.taddr % 8 != 7 {
        lastWord := mem.Read(cVars.nCurrWordAddr + cVars.nTransferWords + cVars.nBufferAddr);
      }
    }

    /** The octet loops that merge a word. */
    method MergeLoop(base: Word, over: Word, lo: nat, hi: nat) returns (w: Word)
      ensures w == Merge(base, over, lo, hi)
    {
      w := base;
      for ii := 0 to 8
        invariant forall b :: 0 <= b < 64 ==> w[b] == if b < 8 * ii && lo <= b / 8 < hi then over[b] else base[b]
      {
        if lo <= ii < hi {
          w := w[..8 * ii] + over[8 * ii..8 * ii + 8] + w[8 * ii + 8..];
        }
      }
    }

    /** The write loop; returns the last aligned word. */
    method AlignedLoop(dataIn: seq<Word>, firstWord: Word, uninitialised: Word) returns (lshiftWord: Word)
      requires Valid() && state == Write && Writable(currCmd.saddr, currCmd.btt, dataIn)
      requires firstWord == HeadFill(Contents(), currCmd.saddr, currCmd.btt)
      modifies `cVars, mem.blocks, mem.index, mem.state
      ensures Sized() && mem.Valid()
      ensures Contents() == Stored(old(Contents()), currCmd.saddr, currCmd.btt, dataIn, InputWords(currCmd.btt))
      ensures lshiftWord == LastShifted(currCmd.saddr, currCmd.btt, dataIn, uninitialised)
      ensures cVars == old(cVars).(rshiftWord := cVars.rshiftWord,
                                   nCurrWordAddr := old(cVars).nCurrWordAddr + 8 * InputWords(currCmd.btt))
    {
      hide SetCommon, SessionFits, HeadFill, InWindow, Shifted, Carry, Stored, LastShifted;
      var saddr, len, n := currCmd.saddr, currCmd.btt, InputWords(currCmd.btt);
      ghost var m, cv := Contents(), cVars;
      CarryNothing(saddr, len, dataIn);
      LastShiftedCases(saddr, len, dataIn, uninitialised);
      lshiftWord := uninitialised;
      StoredNothing(m, saddr, len, dataIn);
      for jj := 0 to n
        invariant Sized() && mem.Valid() && Contents() == Stored(m, saddr, len, dataIn, jj)
        invariant cVars == cv.(rshiftWord := Carry(dataIn, jj, saddr % 8), nCurrWordAddr := cv.nCurrWordAddr + 8 * jj)
        invariant jj == 0 ==> lshiftWord == uninitialised
        invariant jj > 0 ==> lshiftWord == Shifted(dataIn, jj - 1, saddr % 8)
      {
        lshiftWord := AlignedWord(dataIn, firstWord, jj, m);
      }
    }

    /** One turn of the write loop. */
    method AlignedWord(dataIn: seq<Word>, firstWord: Word, jj: nat, ghost m: Memory) returns (lshiftWord: Word)
      requires Sized() && mem.Valid() && Writable(currCmd.saddr, currCmd.btt, dataIn) && jj < InputWords(currCmd.btt)
      requires firstWord == HeadFill(m, currCmd.saddr, currCmd.btt)
      requires Contents() == Stored(m, currCmd.saddr, currCmd.btt, dataIn, jj)
      requires var cv := SetCommon(currCmd.saddr, currCmd.btt);
               cVars == cv.(rshiftWord := Carry(dataIn, jj, currCmd.saddr % 8),
                            nCurrWordAddr := cv.nCurrWordAddr + 8 * jj)
      modifies `cVars, mem.blocks, mem.index, mem.state
      ensures Sized() && mem.Valid()
      ensures Contents() == Stored(m, currCmd.saddr, currCmd.btt, dataIn, jj + 1)
      ensures lshiftWord == Shifted(dataIn, jj, currCmd.saddr % 8)
      ensures cVars == old(cVars).(rshiftWord := Carry(dataIn, jj + 1, currCmd.saddr % 8),
                                   nCurrWordAddr := old(cVars).nCurrWordAddr + 8)
    {
      var saddr, len := currCmd.saddr, currCmd.btt;
      hide SetCommon, SessionFits, Merge, HeadFill, InWindow, Shifted, Carry, Stored;
      ReadFields(saddr, len);
      CommonFields(saddr, len);
      lshiftWord := AlignInput(dataIn, jj);
      var tmpWrWord := lshiftWord;
      if cVars.nCurrWordAddr < saddr % WINDOW {
        FirstLanes(saddr, jj, cVars.nCurrWordAddr);
        tmpWrWord := MergeLoop(firstWord, lshiftWord, saddr % WINDOW - cVars.nCurrWordAddr, 8);
      }
      assert tmpWrWord == Written(m, saddr, len, dataIn, jj);
      StoredOneMore(m, saddr, len, dataIn, jj);
      StoreWord(cVars.nCurrWordAddr / 8 + cVars.nBufferAddr, tmpWrWord);
      cVars := cVars.(nCurrWordAddr := cVars.nCurrWordAddr + 8);
    }

    /** The shift registers of the write loop: this word joined with what the previous one left behind. */
    method AlignInput(dataIn: seq<Word>, jj: nat) returns (lshiftWord: Word)
      requires jj < |dataIn| && cVars.nStartWordByte < 8 && cVars.nShift == (8 - cVars.nStartWordByte) % 8
      requires cVars.rshiftWord == Carry(dataIn, jj, cVars.nStartWordByte)
      modifies `cVars
      ensures lshiftWord == Shifted(dataIn, jj, old(cVars).nStartWordByte)
      ensures cVars == old(cVars).(rshiftWord := Carry(dataIn, jj + 1, old(cVars).nStartWordByte))
    {
      hide LeftShiftOctets, RightShiftOctets, Or;
      lshiftWord := Or(LeftShiftOctets(dataIn[jj], cVars.nStartWordByte), cVars.rshiftWord);
      cVars := cVars.(rshiftWord := if cVars.nStartWordByte == 0 then Zeros(64)
                                    else RightShiftOctets(dataIn[jj], cVars.nShift));
    }

    method StoreWord(at: nat, word: Word)
      requires Sized() && mem.Valid() && at < MEMORY_WORDS
      modifies mem.blocks, mem.index, mem.state
      ensures mem.Valid() && Contents() == old(Contents())[at := word]
    {
      mem.Write(at, word);
    }

    lemma CarryNothing(saddr: nat, len: nat, input: seq<Word>)
      ensures SetCommon(saddr, len).rshiftWord == Carry(input, 0, saddr % 8)
    {
    }

    lemma LastShiftedCases(saddr: nat, len: nat, input: seq<Word>, u: Word)
      requires Writable(saddr, len, input)
      ensures InputWords(len) == 0 ==> LastShifted(saddr, len, input, u) == u
      ensures InputWords(len) > 0 ==>
                LastShifted(saddr, len, input, u) == Shifted(input, InputWords(len) - 1, saddr % 8)
    {
    }

    lemma FirstLanes(saddr: nat, jj: nat, curr: nat)
      requires curr == saddr % WINDOW / 8 * 8 + 8 * jj < saddr % WINDOW
      ensures saddr % WINDOW - curr == saddr % 8
    {
      assert saddr % WINDOW % 8 == saddr % 8;
    }

    lemma StoredNothing(m: Memory, saddr: nat, len: nat, input: seq<Word>)
      requires Writable(saddr, len, input)
      ensures Stored(m, saddr, len, input, 0) == m
    {
      hide SetCommon, SessionFits;
    }

    lemma StoredOneMore(m: Memory, saddr: nat, len: nat, input: seq<Word>, j: nat)
      requires Writable(saddr, len, input) && j < InputWords(len)
      ensures FirstWord(saddr) + j < MEMORY_WORDS
      ensures Stored(m, saddr, len, input, j + 1) ==
              Stored(m, saddr, len, input, j)[FirstWord(saddr) + j := Written(m, saddr, len, input, j)]
    {
      SpillInRange(saddr, len);
      hide SetCommon, SessionFits, Written;
    }

    /** The WRITE state. */
    method WriteLoop(dataIn: seq<Word>, uninitialised: Word)
      requires Valid() && state == Write && Writable(currCmd.saddr, currCmd.btt, dataIn)
      modifies `cVars, mem.blocks, mem.index, mem.state
      ensures Sized() && mem.Valid()
      ensures Contents() == WriteMem(old(Contents()), currCmd.saddr, currCmd.btt, dataIn, uninitialised)
    {
      hide SetCommon, SessionFits, Merge, Shifted, Stored, TailFill, HeadFill, InWindow, LastShifted, TailLanes,
        WriteMem;
      var saddr, len := currCmd.saddr, currCmd.btt;
      ghost var m, cv := Contents(), cVars;
      var firstWord, lastWord := Fills();
      var nInputWords := InputWords(len);
      var lshiftWord := AlignedLoop(dataIn, firstWord, uninitialised);
      WriteMemCases(m, saddr, len, dataIn, uninitialised);
      if cVars.nTransferWords > nInputWords {
        var lanes := if cVars.taddr < cVars.nCurrWordAddr then 0 else cVars.taddr + 1 - cVars.nCurrWordAddr;
        var tmpWrWord := MergeLoop(lastWord, lshiftWord, 0, lanes);
        StoreWord(cVars.nCurrWordAddr / 8 + cVars.nBufferAddr, tmpWrWord);
      }
    }

    /** WriteMem in terms of the common variables as they stand behind the write loop. */
    lemma WriteMemCases(m: Memory, saddr: nat, len: nat, input: seq<Word>, u: Word)
      requires Writable(saddr, len, input)
      ensures var cv := SetCommon(saddr, len); var n := InputWords(len);
              var next := cv.nCurrWordAddr + 8 * n; var at := next / 8 + cv.nBufferAddr;
              var lanes := if cv.taddr < next then 0 else cv.taddr + 1 - next;
              && (cv.nTransferWords <= n ==> WriteMem(m, saddr, len, input, u) == Stored(m, saddr, len, input, n))
              && (cv.nTransferWords > n ==>
                    at < MEMORY_WORDS && WriteMem(m, saddr, len, input, u) ==
                    Stored(m, saddr, len, input, n)[at := Merge(TailFill(m, saddr, len),
                                                                LastShifted(saddr, len, input, u), 0, lanes)])
    {
      CommonFields(saddr, len);
      SpillInRange(saddr, len);
      hide SetCommon, SessionFits, Merge, Stored, TailFill, LastShifted, InWindow;
    }
  }
}
