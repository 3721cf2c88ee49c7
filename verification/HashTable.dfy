/**
 * The hash table itself: `cuckooTables` overwritten in place by `insert` and `remove`, against CuckooSpec and
 * CuckooRuns.
 */
module HashTable {
  import opened Wrappers
  import opened Bits
  import opened CuckooSpec
  import opened CuckooRuns

  datatype LookupResponse = LookupResponse(key: Key, value: Option<Value>)

  class CuckooHashTable {
    const c: Config
    const tables: array2<Entry>
    var victimBit: nat
    var insertFailureCounter: nat

    ghost predicate Valid()
      reads this
    {
      Sized() && victimBit <= 1
    }

    ghost predicate Sized() {
      ValidConfig(c) && tables.Length0 == NUM_TABLES && tables.Length1 == Pow2(c.addressBits)
    }

    ghost function Row(i: nat): (r: seq<Entry>)
      requires i < tables.Length0
      reads tables
      ensures |r| == tables.Length1 && forall j :: 0 <= j < tables.Length1 ==> r[j] == tables[i, j]
    {
      seq(tables.Length1, j requires 0 <= j < tables.Length1 reads tables => tables[i, j])
    }

    ghost function View(): (t: Tables)
      requires Sized()
      reads tables
      ensures Shaped(c, t)
      ensures forall i, j :: 0 <= i < NUM_TABLES && 0 <= j < tables.Length1 ==> t[i][j] == tables[i, j]
    {
      seq(NUM_TABLES, i requires 0 <= i < tables.Length0 reads tables => Row(i))
    }

    /** The static tables start out with no valid entry. */
    constructor (c: Config)
      requires ValidConfig(c)
      ensures Valid() && fresh(tables) && this.c == c && victimBit == 0 && insertFailureCounter == 0
      ensures Placed(c, View()) && forall i, j :: 0 <= i < NUM_TABLES && 0 <= j < |View()[i]| ==> !View()[i][j].valid
    {
      this.c := c;
      var n := Pow2(c.addressBits);
      tables := new Entry[NUM_TABLES, n]((i, j) => Entry(Zeros(64), Zeros(16), false));
      victimBit, insertFailureCounter := 0, 0;
    }

    method CalculateHashes(key: Key, hashes: array<nat>)
      requires ValidConfig(c) && hashes.Length == NUM_TABLES
      modifies hashes
      ensures forall i :: 0 <= i < NUM_TABLES ==> hashes[i] == Hash(c, i, key)
    {
      for i := 0 to NUM_TABLES
        invariant forall k :: 0 <= k < i ==> hashes[k] == Hash(c, k, key)
      {
        var hash := Zeros(c.addressBits);
        for k := 0 to KEY_SIZE
          invariant hash == HashBits(c, i, key, k)
        {
          var randomValue := c.tabulation(i, key[k], k);
          hash := Xor(hash, randomValue[..c.addressBits]);
        }
        hashes[i] := ToNat(hash);
      }
    }

    method Lookup(key: Key) returns (response: LookupResponse)
      requires Valid()
      ensures response == LookupResponse(key, Find(c, View(), key))
    {
      var hashes := new nat[NUM_TABLES];
      CalculateHashes(key, hashes);
      var currentEntries := new Entry[NUM_TABLES](_ => Entry(Zeros(64), Zeros(16), false));
      var slot := -1;
      for i := 0 to NUM_TABLES
        invariant forall k :: 0 <= k < NUM_TABLES ==> hashes[k] == Hash(c, k, key)
        invariant -1 <= slot < i
        invariant slot >= 0 ==> currentEntries[slot] == Candidate(c, View(), slot, key)
        invariant FindIn(c, View(), key, i) == if slot < 0 then None else Some(currentEntries[slot].value)
      {
        currentEntries[i] := tables[i, hashes[i]];
        if currentEntries[i].valid && currentEntries[i].key == key {
          slot := i;
        }
      }
      response := LookupResponse(key, if slot != -1 then Some(currentEntries[slot].value) else None);
    }

    /** Reads the nine candidate slots of a key and looks for the last free one. */
    method LoadCandidates(key: Key, hashes: array<nat>, currentEntries: array<Entry>) returns (slot: int)
      requires Valid() && hashes.Length == NUM_TABLES && currentEntries.Length == NUM_TABLES
      requires forall i :: 0 <= i < NUM_TABLES ==> hashes[i] == Hash(c, i, key)
      modifies currentEntries
      ensures forall i :: 0 <= i < NUM_TABLES ==> currentEntries[i] == Candidate(c, View(), i, key)
      ensures slot == FreeSlot(c, View(), key, NUM_TABLES)
    {
      hide Hash;
      slot := -1;
      ghost var t := View();
      for i := 0 to NUM_TABLES
        invariant slot == FreeSlot(c, t, key, i)
        invariant forall k :: 0 <= k < i ==> currentEntries[k] == Candidate(c, t, k, key)
      {
        currentEntries[i] := tables[i, hashes[i]];
        assert currentEntries[i] == t[i][hashes[i]];
        if !currentEntries[i].valid {
          slot := i;
        }
      }
    }

    /** Writes all nine candidate slots back; `slot` is the only one that changed. */
    method WriteBack(key: Key, hashes: array<nat>, currentEntries: array<Entry>, ghost slot: nat)
      requires Valid() && hashes.Length == NUM_TABLES && currentEntries.Length == NUM_TABLES && slot < NUM_TABLES
      requires forall i :: 0 <= i < NUM_TABLES ==> hashes[i] == Hash(c, i, key)
      requires forall i :: 0 <= i < NUM_TABLES && i != slot ==> currentEntries[i] == Candidate(c, View(), i, key)
      modifies tables
      ensures View() == Put(c, old(View()), slot, key, currentEntries[slot])
    {
      hide Hash;
      for i := 0 to NUM_TABLES
        invariant forall k, j :: 0 <= k < NUM_TABLES && 0 <= j < tables.Length1 ==>
                    tables[k, j] == if k < i && j == hashes[k] then currentEntries[k] else old(tables[k, j])
      {
        tables[i, hashes[i]] := currentEntries[i];
      }
      forall k | 0 <= k < NUM_TABLES ensures View()[k] == Put(c, old(View()), slot, key, currentEntries[slot])[k] {
        assert forall j :: 0 <= j < tables.Length1 ==>
                             View()[k][j] == Put(c, old(View()), slot, key, currentEntries[slot])[k][j];
      }
    }

    /** `insert`; `hand` is the entry the failure message names. */
    method Insert(key: Key, value: Value) returns (success: bool, hand: Entry)
      requires Valid()
      modifies this, tables
      ensures Valid()
      ensures var o := CuckooRuns.Insert(c, old(View()), old(victimBit), key, value);
              View() == o.tables && success == o.success && victimBit == o.victimBit && hand == o.hand
      ensures insertFailureCounter == if success then old(insertFailureCounter)
                                      else (old(insertFailureCounter) + 1) % 0x10000
    {
      hide Hash, Candidate, Put, FreeSlot, VictimPos;
      var hashes := new nat[NUM_TABLES];
      var currentEntries := new Entry[NUM_TABLES](_ => Entry(Zeros(64), Zeros(16), false));
      success, hand := false, Entry(key, value, true);
      var victimIdx := 0;
      var j := 0;
      while j < MAX_TRIALS && !success
        invariant j <= MAX_TRIALS && Valid() && 0 <= victimIdx < NUM_TABLES
        invariant insertFailureCounter == old(insertFailureCounter)
        invariant CuckooRuns.Insert(c, old(View()), old(victimBit), key, value) ==
                  if success then Outcome(View(), true, hand, victimBit)
                  else InsertFrom(c, View(), hand, victimIdx, victimBit, MAX_TRIALS - j)
        decreases MAX_TRIALS - j, !success
      {
        success, hand, victimIdx := Trial(hashes, currentEntries, hand, victimIdx, MAX_TRIALS - j);
        j := j + 1;
      }
      if !success {
        insertFailureCounter := (insertFailureCounter + 1) % 0x10000;
      }
    }

    /** One pass of the insertion loop. */
    method Trial(hashes: array<nat>, currentEntries: array<Entry>, currentEntry: Entry, idx: nat, ghost left: nat)
      returns (success: bool, hand: Entry, victimIdx: nat)
      requires Valid() && hashes.Length == NUM_TABLES && currentEntries.Length == NUM_TABLES
      requires idx < NUM_TABLES && left > 0
      modifies this`victimBit, tables, hashes, currentEntries
      ensures Valid() && victimIdx < NUM_TABLES
      ensures InsertFrom(c, old(View()), currentEntry, idx, old(victimBit), left) ==
              if success then Outcome(View(), true, hand, victimBit)
              else InsertFrom(c, View(), hand, victimIdx, victimBit, left - 1)
    {
      hide Hash, Candidate, Put, FreeSlot, InsertFrom;
      ghost var before := View();
      victimIdx, hand, success := idx, currentEntry, false;
      CalculateHashes(currentEntry.key, hashes);
      var slot := LoadCandidates(currentEntry.key, hashes, currentEntries);
      assert View() == before;
      if slot != -1 {
        currentEntries[slot] := currentEntry;
        success := true;
        WriteBack(currentEntry.key, hashes, currentEntries, slot);
      } else {
        var victimPos := hashes[victimIdx] % (NUM_TABLES - 1) + victimBit;
        assert victimPos == VictimPos(c, currentEntry.key, idx, victimBit);
        hand := currentEntries[victimPos];
        currentEntries[victimPos] := currentEntry;
        victimIdx := victimIdx + 1;
        if victimIdx == NUM_TABLES {
          victimIdx := 0;
        }
        WriteBack(currentEntry.key, hashes, currentEntries, victimPos);
      }
      victimBit := (victimBit + 1) % 2;
      StepOfInsertFrom(before, currentEntry, idx, old(victimBit), left, slot);
    }

    /** One unfolding of InsertFrom. */
    lemma StepOfInsertFrom(t: Tables, hand: Entry, idx: nat, bit: nat, left: nat, slot: int)
      requires ValidConfig(c) && Shaped(c, t) && idx < NUM_TABLES && bit <= 1 && left > 0
      requires slot == FreeSlot(c, t, hand.key, NUM_TABLES)
      ensures slot >= 0 ==> InsertFrom(c, t, hand, idx, bit, left) ==
                            Outcome(Put(c, t, slot, hand.key, hand), true, hand, (bit + 1) % 2)
      ensures slot < 0 ==>
                var pos := VictimPos(c, hand.key, idx, bit);
                InsertFrom(c, t, hand, idx, bit, left) ==
                InsertFrom(c, Put(c, t, pos, hand.key, hand), Candidate(c, t, pos, hand.key),
                           if idx + 1 == NUM_TABLES then 0 else idx + 1, (bit + 1) % 2, left - 1)
    {
      hide Hash, Candidate, Put, FreeSlot, VictimPos;
    }

    method Remove(key: Key) returns (success: bool)
      requires Valid()
      modifies tables
      ensures View() == CuckooRuns.Remove(c, old(View()), key)
      ensures success == Find(c, old(View()), key).Some?
    {
      hide Hash;
      var hashes := new nat[NUM_TABLES];
      CalculateHashes(key, hashes);
      success := false;
      for i := 0 to NUM_TABLES
        invariant forall k :: 0 <= k < NUM_TABLES ==> hashes[k] == Hash(c, k, key)
        invariant View() == RemoveIn(c, old(View()), key, i)
        invariant success == FindIn(c, old(View()), key, i).Some?
      {
        ghost var before := View();
        var currentEntry := tables[i, hashes[i]];
        assert currentEntry == Candidate(c, old(View()), i, key);
        if currentEntry.valid && currentEntry.key == key {
          currentEntry := currentEntry.(valid := false);
          success := true;
        }
        tables[i, hashes[i]] := currentEntry;
        assert forall k :: 0 <= k < NUM_TABLES ==> View()[k] == Put(c, before, i, key, currentEntry)[k];
      }
    }
  }
}
