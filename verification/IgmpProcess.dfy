/** `igmp_process_timer`: the static timer table and pass registers, advanced one entry per call. */
module IgmpProcess {
  import opened Wrappers
  import opened IgmpTimer

  class IgmpTimerTable {
    const igmpTimerTable: array<Entry>
    var igmpTimerState: Phase
    var currQuery: Query
    var fExisting: bool
    var v3Query: bool
    var nCount: nat

    ghost function View(): State
      reads this, igmpTimerTable
      requires igmpTimerTable.Length == MAX_IGMP_TIMERS
    {
      State(igmpTimerState, igmpTimerTable[..], currQuery, fExisting, v3Query, nCount)
    }

    ghost predicate Valid()
      reads this, igmpTimerTable
    {
      igmpTimerTable.Length == MAX_IGMP_TIMERS && Sound(View())
    }

    constructor ()
      ensures Valid() && fresh(igmpTimerTable) && Initial(View())
    {
      igmpTimerTable := new Entry[MAX_IGMP_TIMERS](_ => Entry(0, 0, false));
      igmpTimerState, currQuery, fExisting, v3Query, nCount := Idle, Query(0, 0), false, true, 0;
    }

    /** One entry of a decrement pass. */
    method DecrementTimer(ghost x: Input) returns (outIgmpReport: Option<Word32>)
      requires igmpTimerTable.Length == MAX_IGMP_TIMERS && InPass(View()) && igmpTimerState == DecrementTimers
      modifies igmpTimerTable, `nCount, `igmpTimerState
      ensures View() == Next(old(View()), x) && outIgmpReport == Reported(old(View()))
    {
      outIgmpReport := None;
      var entry := igmpTimerTable[nCount];
      if entry.fActive {
        if entry.time == 0 {
          igmpTimerTable[nCount] := entry.(fActive := false);
          outIgmpReport := Some(entry.groupAddr);
        } else {
          igmpTimerTable[nCount] := entry.(time := entry.time - 1);
        }
      }
      nCount := nCount + 1;
      if nCount == MAX_IGMP_TIMERS {
        igmpTimerState := Idle;
      }
    }

    /** One entry of the search for the group of the query. */
    method CheckTimer(ghost x: Input)
      requires igmpTimerTable.Length == MAX_IGMP_TIMERS && InPass(View()) && igmpTimerState == CheckTimers
      modifies igmpTimerTable, `fExisting, `nCount, `igmpTimerState
      ensures View() == Next(old(View()), x)
    {
      var entry := igmpTimerTable[nCount];
      if entry.fActive && entry.groupAddr == currQuery.groupAddr {
        if entry.time > currQuery.maxRespTime {
          igmpTimerTable[nCount] := entry.(time := currQuery.maxRespTime);
        }
        fExisting := true;
      }
      nCount := nCount + 1;
      if nCount == MAX_IGMP_TIMERS {
        if !fExisting {
          nCount, igmpTimerState := 0, InsertEntry;
        } else {
          igmpTimerState := Idle;
        }
      }
    }

    /** One entry of the search for a free entry. */
    method InsertTimer(ghost x: Input)
      requires igmpTimerTable.Length == MAX_IGMP_TIMERS && InPass(View()) && igmpTimerState == InsertEntry
      modifies igmpTimerTable, `nCount, `igmpTimerState
      ensures View() == Next(old(View()), x)
    {
      if !igmpTimerTable[nCount].fActive {
        igmpTimerTable[nCount] := Entry(currQuery.maxRespTime, currQuery.groupAddr, true);
        igmpTimerState := Idle;
      }
      nCount := nCount + 1;
      if nCount == MAX_IGMP_TIMERS {
        igmpTimerState := Idle;
      }
    }

    method ProcessTimer(tick100ms: seq<bool>, isV3: seq<bool>, inIgmpQuery: seq<Query>)
      returns (ticks: seq<bool>, versions: seq<bool>, queries: seq<Query>, outIgmpReport: Option<Word32>)
      requires Valid()
      modifies this, igmpTimerTable
      ensures Valid()
      ensures View() == Next(old(View()), Input(if isV3 == [] then None else Some(isV3[0]),
                                               if inIgmpQuery == [] then None else Some(inIgmpQuery[0]),
                                               tick100ms != []))
      ensures outIgmpReport == Reported(old(View()))
      ensures versions == if old(igmpTimerState) == Idle && isV3 != [] then isV3[1..] else isV3
      ensures queries == if old(igmpTimerState) == Idle && isV3 == [] && inIgmpQuery != [] then inIgmpQuery[1..]
                         else inIgmpQuery
      ensures ticks == if old(igmpTimerState) == Idle && isV3 == [] && inIgmpQuery == [] && tick100ms != []
                       then tick100ms[1..]
                       else tick100ms
    {
      hide Sound, RespTime;
      ghost var x := Input(if isV3 == [] then None else Some(isV3[0]),
                           if inIgmpQuery == [] then None else Some(inIgmpQuery[0]), tick100ms != []);
      assert InPass(View()) by { SoundInPass(View()); }
      SoundStep(View(), x);
      ticks, versions, queries, outIgmpReport := tick100ms, isV3, inIgmpQuery, None;
      match igmpTimerState {
        case Idle =>
          if isV3 != [] {
            v3Query, versions := isV3[0], isV3[1..];
          } else if inIgmpQuery != [] {
            currQuery, queries := inIgmpQuery[0], inIgmpQuery[1..];
            currQuery := currQuery.(maxRespTime := RespTime(v3Query, currQuery.maxRespTime));
            fExisting, nCount, igmpTimerState := false, 0, CheckTimers;
          } else if tick100ms != [] {
            ticks, nCount, igmpTimerState := tick100ms[1..], 0, DecrementTimers;
          }
        case DecrementTimers => outIgmpReport := DecrementTimer(x);
        case CheckTimers => CheckTimer(x);
        case InsertEntry => InsertTimer(x);
      }
    }
  }
}
