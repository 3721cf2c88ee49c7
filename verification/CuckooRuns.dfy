/**
 * Insertion, removal and whole runs of the cuckoo hash table.
 */
module CuckooRuns {
  import opened Wrappers
  import opened CuckooSpec

  // ---------------------------------------------------------------- insertion

  /** The last of the first n tables whose candidate slot is free, or -1. */
  function FreeSlot(c: Config, t: Tables, key: Key, n: nat): (slot: int)
    requires ValidConfig(c) && Shaped(c, t) && n <= NUM_TABLES
    ensures -1 <= slot < n
    ensures slot >= 0 ==> !Candidate(c, t, slot, key).valid
    ensures slot < 0 ==> forall i :: 0 <= i < n ==> Candidate(c, t, i, key).valid
  {
    if n == 0 then -1
    else if !Candidate(c, t, n - 1, key).valid then n - 1
    else FreeSlot(c, t, key, n - 1)
  }

  /** The table to evict from is always a legal table number. */
  function VictimPos(c: Config, key: Key, victimIdx: nat, victimBit: nat): (pos: nat)
    requires ValidConfig(c) && victimIdx < NUM_TABLES && victimBit <= 1
    ensures pos < NUM_TABLES
  {
    Hash(c, victimIdx, key) % (NUM_TABLES - 1) + victimBit
  }

  /** The tables, whether the entry found a place, and the entry left in hand if not. */
  datatype Outcome = Outcome(tables: Tables, success: bool, hand: Entry, victimBit: nat)

  function InsertFrom(c: Config, t: Tables, hand: Entry, victimIdx: nat, victimBit: nat, trials: nat): (o: Outcome)
    requires ValidConfig(c) && Shaped(c, t) && victimIdx < NUM_TABLES && victimBit <= 1
    ensures Shaped(c, o.tables) && o.victimBit <= 1
    decreases trials
  {
    if trials == 0 then Outcome(t, false, hand, victimBit)
    else
      var slot := FreeSlot(c, t, hand.key, NUM_TABLES);
      if slot >= 0 then Outcome(Put(c, t, slot, hand.key, hand), true, hand, (victimBit + 1) % 2)
      else
        var pos := VictimPos(c, hand.key, victimIdx, victimBit);
        InsertFrom(c, Put(c, t, pos, hand.key, hand), Candidate(c, t, pos, hand.key),
                   (victimIdx + 1) % NUM_TABLES, (victimBit + 1) % 2, trials - 1)
  }

  function Insert(c: Config, t: Tables, victimBit: nat, key: Key, value: Value): (o: Outcome)
    requires ValidConfig(c) && Shaped(c, t) && victimBit <= 1
    ensures Shaped(c, o.tables) && o.victimBit <= 1
  {
    InsertFrom(c, t, Entry(key, value, true), 0, victimBit, MAX_TRIALS)
  }

  lemma PutKeepsPlaced(c: Config, t: Tables, i: nat, e: Entry)
    requires ValidConfig(c) && Shaped(c, t) && Placed(c, t) && i < NUM_TABLES
    ensures Placed(c, Put(c, t, i, e.key, e))
    ensures Contents(Put(c, t, i, e.key, e)) + One(Candidate(c, t, i, e.key)) == Contents(t) + One(e)
  {
    hide Contents, One, Hash;
    TablesPut(t, i, Hash(c, i, e.key), e);
  }

  /** What the eviction chain may do: place the entry, or drop exactly the entry it ends up holding. */
  ghost predicate Conserved(before: multiset<(Key, Value)>, hand: Entry, o: Outcome) {
    if o.success then Contents(o.tables) == before + One(hand)
    else o.hand.valid && Contents(o.tables) + One(o.hand) == before + One(hand)
  }

  /**
   * However many evictions happen, placement holds and no binding is lost or invented: at every trial the tables
   * and the entry in hand together are what they were.
   */
  lemma {:induction false} InsertConserves(c: Config, t: Tables, hand: Entry, victimIdx: nat, victimBit: nat,
                                           trials: nat)
    requires ValidConfig(c) && Shaped(c, t) && Placed(c, t) && victimIdx < NUM_TABLES && victimBit <= 1 && hand.valid
    ensures var o := InsertFrom(c, t, hand, victimIdx, victimBit, trials);
            Placed(c, o.tables) && Conserved(Contents(t), hand, o)
    decreases trials
  {
    hide Placed, Contents, Hash, Put, Candidate;
    if trials > 0 {
      var slot := FreeSlot(c, t, hand.key, NUM_TABLES);
      if slot >= 0 {
        PutKeepsPlaced(c, t, slot, hand);
        assert One(Candidate(c, t, slot, hand.key)) == multiset{};
      } else {
        var pos := VictimPos(c, hand.key, victimIdx, victimBit);
        PutKeepsPlaced(c, t, pos, hand);
        InsertConserves(c, Put(c, t, pos, hand.key, hand), Candidate(c, t, pos, hand.key),
                        (victimIdx + 1) % NUM_TABLES, (victimBit + 1) % 2, trials - 1);
      }
    }
  }

  /** Success adds one binding; failure keeps the number of bindings. */
  lemma InsertCount(c: Config, t: Tables, victimBit: nat, key: Key, value: Value)
    requires ValidConfig(c) && Shaped(c, t) && Placed(c, t) && victimBit <= 1
    ensures var o := Insert(c, t, victimBit, key, value);
            |Contents(o.tables)| == |Contents(t)| + if o.success then 1 else 0
  {
    var e := Entry(key, value, true);
    InsertConserves(c, t, e, 0, victimBit, MAX_TRIALS);
    var o := Insert(c, t, victimBit, key, value);
    if !o.success {
      assert |Contents(o.tables) + One(o.hand)| == |Contents(t) + One(e)|;
    }
  }

  /** The same of unique bindings, from what the eviction chain conserves. */
  lemma BindingsAfter(before: multiset<(Key, Value)>, e: Entry, o: Outcome, k: Key, v: Value)
    requires Conserved(before, e, o) && e.valid && Unique(before) && forall w :: (e.key, w) !in before
    ensures Unique(Contents(o.tables))
    ensures (k, v) in Contents(o.tables) <==>
            ((k, v) == (e.key, e.value) || (k, v) in before) && (!o.success ==> k != o.hand.key)
  {
    hide Contents;
    var n, m := Contents(o.tables), before + multiset{(e.key, e.value)};
    ExtendUnique(before, e.key, e.value);
    if !o.success {
      var d := (o.hand.key, o.hand.value);
      assert n == m - multiset{d} && d in m;
      assert k == o.hand.key && (k, v) in m ==> (k, v).0 == d.0;
      ShrinkUnique(m, n);
    }
  }

  /** A binding of the tables after an insertion: the new one, or an old one that was not dropped. */
  lemma InsertedBindings(c: Config, t: Tables, victimBit: nat, key: Key, value: Value, k: Key, v: Value)
    requires ValidConfig(c) && Shaped(c, t) && Placed(c, t) && victimBit <= 1 && Unique(Contents(t))
    requires Find(c, t, key).None?
    ensures var o := Insert(c, t, victimBit, key, value);
            && Placed(c, o.tables) && Unique(Contents(o.tables))
            && ((k, v) in Contents(o.tables) <==>
                ((k, v) == (key, value) || (k, v) in Contents(t)) && (!o.success ==> k != o.hand.key))
  {
    hide Contents, Placed, Find, InsertFrom, Unique, Conserved;
    var e := Entry(key, value, true);
    InsertConserves(c, t, e, 0, victimBit, MAX_TRIALS);
    FindIsContents(c, t, key);
    BindingsAfter(Contents(t), e, Insert(c, t, victimBit, key, value), k, v);
  }

  lemma ExtendUnique(m: multiset<(Key, Value)>, key: Key, value: Value)
    requires Unique(m) && forall v :: (key, v) !in m
    ensures Unique(m + multiset{(key, value)})
  {
    forall p, q | p in m + multiset{(key, value)} && q in m + multiset{(key, value)} && p.0 == q.0 ensures p == q {
      assert p in m ==> (p.0, p.1) in m;
      assert q in m ==> (q.0, q.1) in m;
    }
  }

  lemma ShrinkUnique(m: multiset<(Key, Value)>, n: multiset<(Key, Value)>)
    requires Unique(m) && n <= m
    ensures Unique(n)
  {
  }

  /** The value a lookup returns after the insertion of a key not present before, for every key. */
  function ExpectedAfter(before: Option<Value>, key: Key, value: Value, o: Outcome, k: Key): Option<Value> {
    if !o.success && k == o.hand.key then None else if k == key then Some(value) else before
  }

  /**
   * Inserting a key not yet present extends the map by that one binding, for every key and however many evictions
   * happened; a failed insertion in addition loses exactly the key left in hand.
   */
  lemma InsertExtendsMap(c: Config, t: Tables, victimBit: nat, key: Key, value: Value, k: Key)
    requires ValidConfig(c) && Shaped(c, t) && Placed(c, t) && victimBit <= 1 && Unique(Contents(t))
    requires Find(c, t, key).None?
    ensures var o := Insert(c, t, victimBit, key, value);
            && Placed(c, o.tables) && Unique(Contents(o.tables))
            && Find(c, o.tables, k) == ExpectedAfter(Find(c, t, k), key, value, o, k)
  {
    hide Insert, Find, Placed, Unique, Contents;
    var o := Insert(c, t, victimBit, key, value);
    InsertedBindings(c, t, victimBit, key, value, k, value);
    FindIsContents(c, o.tables, k);
    FindIsContents(c, t, k);
    var now, was := Find(c, o.tables, k), Find(c, t, k);
    if now.Some? {
      InsertedBindings(c, t, victimBit, key, value, k, now.value);
      FindIsMap(c, t, k, now.value);
      if k == key {
        FindIsContents(c, t, key);
      }
    }
    if was.Some? {
      InsertedBindings(c, t, victimBit, key, value, k, was.value);
    }
  }

  /** The last match among the tables from lo up to the first n. */
  function FindBetween(c: Config, t: Tables, key: Key, lo: nat, n: nat): (r: Option<Value>)
    requires ValidConfig(c) && Shaped(c, t) && lo <= n <= NUM_TABLES
    ensures r.None? <==> forall i :: lo <= i < n ==> !Matches(Candidate(c, t, i, key), key)
    decreases n
  {
    if n == lo then None
    else if Matches(Candidate(c, t, n - 1, key), key) then Some(Candidate(c, t, n - 1, key).value)
    else FindBetween(c, t, key, lo, n - 1)
  }

  lemma {:induction false} FindAbove(c: Config, t: Tables, u: Tables, key: Key, slot: nat, value: Value, n: nat)
    requires ValidConfig(c) && Shaped(c, t) && Shaped(c, u) && slot < n <= NUM_TABLES
    requires u == Put(c, t, slot, key, Entry(key, value, true))
    ensures var r := FindBetween(c, t, key, slot + 1, n);
            FindIn(c, u, key, n) == if r.Some? then r else Some(value)
    decreases n
  {
    hide Hash;
    if n - 1 > slot {
      assert Candidate(c, u, n - 1, key) == Candidate(c, t, n - 1, key);
      FindAbove(c, t, u, key, slot, value, n - 1);
    }
  }

  /**
   * Why keys must be new, while a slot is free: the entry goes to the last free slot, and a lookup returns the copy
   * of the last table behind that slot, if there is one, or else the new value.
   */
  lemma ReinsertedKey(c: Config, t: Tables, victimBit: nat, key: Key, value: Value)
    requires ValidConfig(c) && Shaped(c, t) && victimBit <= 1 && FreeSlot(c, t, key, NUM_TABLES) >= 0
    ensures var o, hidden := Insert(c, t, victimBit, key, value),
                             FindBetween(c, t, key, FreeSlot(c, t, key, NUM_TABLES) + 1, NUM_TABLES);
            && o.success && Find(c, o.tables, key) == (if hidden.Some? then hidden else Some(value))
            && (Find(c, o.tables, key) == Some(value) <==> hidden.None? || hidden == Some(value))
  {
    hide Hash, Candidate;
    var slot := FreeSlot(c, t, key, NUM_TABLES);
    FindAbove(c, t, Put(c, t, slot, key, Entry(key, value, true)), key, slot, value, NUM_TABLES);
  }

  predicate Empty(t: Tables) { forall i, j :: 0 <= i < |t| && 0 <= j < |t[i]| ==> !t[i][j].valid }

  lemma LastSlotFree(c: Config, t: Tables, key: Key)
    requires ValidConfig(c) && Shaped(c, t) && Empty(t)
    ensures FreeSlot(c, t, key, NUM_TABLES) == NUM_TABLES - 1
    ensures forall i :: 0 <= i < NUM_TABLES ==> !Candidate(c, t, i, key).valid
  {
  }

  /** For every configuration and key: inserted twice into empty tables, the key is found with its first value. */
  lemma SecondInsertHidden(c: Config, t: Tables, victimBit: nat, key: Key, v1: Value, v2: Value)
    requires ValidConfig(c) && Shaped(c, t) && Empty(t) && victimBit <= 1 && v1 != v2
    ensures var o := Insert(c, t, victimBit, key, v1);
            var o' := Insert(c, o.tables, o.victimBit, key, v2);
            && o.success && Find(c, o.tables, key) == Some(v1)
            && o'.success && Find(c, o'.tables, key) == Some(v1) != Some(v2)
  {
    hide Hash, Empty;
    LastSlotFree(c, t, key);
    ReinsertedKey(c, t, victimBit, key, v1);
    var o := Insert(c, t, victimBit, key, v1);
    var last := NUM_TABLES - 1;
    assert o.tables == Put(c, t, last, key, Entry(key, v1, true));
    assert Candidate(c, o.tables, last, key) == Entry(key, v1, true);
    assert Candidate(c, o.tables, last - 1, key) == Candidate(c, t, last - 1, key);
    hide Candidate;
    assert FreeSlot(c, o.tables, key, last) == last - 1;
    ReinsertedKey(c, o.tables, o.victimBit, key, v2);
  }

  /**
   * With or without a free slot, and however many evictions: unless the entry left in hand is one of its copies, the
   * key is found, with the new value or an old one; so with the new value whenever no other was stored before.
   */
  lemma ReinsertedFound(c: Config, t: Tables, victimBit: nat, key: Key, value: Value)
    requires ValidConfig(c) && Shaped(c, t) && Placed(c, t) && victimBit <= 1
    ensures var o := Insert(c, t, victimBit, key, value);
            o.success || o.hand.key != key ==>
              var r := Find(c, o.tables, key);
              && r.Some? && (r.value == value || (key, r.value) in Contents(t))
              && ((forall v :: (key, v) in Contents(t) ==> v == value) ==> r == Some(value))
  {
    hide InsertFrom, Find, Placed, Contents;
    var e, o := Entry(key, value, true), Insert(c, t, victimBit, key, value);
    InsertConserves(c, t, e, 0, victimBit, MAX_TRIALS);
    FindIsContents(c, o.tables, key);
    if o.success || o.hand.key != key {
      KeptBinding(Contents(t), e, o, value);
      var r := Find(c, o.tables, key);
      assert r.Some?;
      KeptBinding(Contents(t), e, o, r.value);
    }
  }

  /** What conservation says of the bindings of a key that is not left in hand. */
  lemma KeptBinding(before: multiset<(Key, Value)>, e: Entry, o: Outcome, v: Value)
    requires Conserved(before, e, o) && e.valid && (o.success || o.hand.key != e.key)
    ensures (e.key, v) in Contents(o.tables) <==> v == e.value || (e.key, v) in before
  {
    hide Contents;
    var p := (e.key, v);
    if !o.success {
      assert (Contents(o.tables) + One(o.hand))[p] == (before + One(e))[p];
    }
  }

  // ---------------------------------------------------------------- removal

  /** The first n tables with every copy of the key invalidated. */
  function RemoveIn(c: Config, t: Tables, key: Key, n: nat): (r: Tables)
    requires ValidConfig(c) && Shaped(c, t) && n <= NUM_TABLES
    ensures Shaped(c, r)
    ensures forall i :: n <= i < NUM_TABLES ==> r[i] == t[i]
  {
    if n == 0 then t
    else
      var u, e := RemoveIn(c, t, key, n - 1), Candidate(c, t, n - 1, key);
      Put(c, u, n - 1, key, if Matches(e, key) then e.(valid := false) else e)
  }

  function Remove(c: Config, t: Tables, key: Key): (r: Tables)
    requires ValidConfig(c) && Shaped(c, t)
    ensures Shaped(c, r)
  {
    RemoveIn(c, t, key, NUM_TABLES)
  }

  /** Slot by slot: a matching candidate is invalidated, everything else stays. */
  lemma {:induction false} RemoveInAt(c: Config, t: Tables, key: Key, n: nat, i: nat, j: nat)
    requires ValidConfig(c) && Shaped(c, t) && n <= NUM_TABLES && i < NUM_TABLES && j < |t[i]|
    ensures RemoveIn(c, t, key, n)[i][j] ==
            (if i < n && j == Hash(c, i, key) && Matches(t[i][j], key) then t[i][j].(valid := false) else t[i][j])
    decreases n
  {
    hide Hash;
    if n > 0 {
      RemoveInAt(c, t, key, n - 1, i, j);
    }
  }

  /** Placement survives, every copy of the key is gone, and every other binding keeps its multiplicity. */
  lemma RemovePlaced(c: Config, t: Tables, key: Key)
    requires ValidConfig(c) && Shaped(c, t) && Placed(c, t)
    ensures Placed(c, Remove(c, t, key))
  {
    hide Hash;
    forall i, j | 0 <= i < NUM_TABLES && 0 <= j < |t[i]| && Remove(c, t, key)[i][j].valid
      ensures j == Hash(c, i, Remove(c, t, key)[i][j].key)
    {
      RemoveInAt(c, t, key, NUM_TABLES, i, j);
    }
  }

  lemma {:induction false} RemoveInCounts(c: Config, t: Tables, key: Key, n: nat, p: (Key, Value))
    requires ValidConfig(c) && Shaped(c, t) && n <= NUM_TABLES && p.0 != key
    ensures Contents(RemoveIn(c, t, key, n))[p] == Contents(t)[p]
    decreases n
  {
    hide Hash, Contents, One;
    if n > 0 {
      var u, e := RemoveIn(c, t, key, n - 1), Candidate(c, t, n - 1, key);
      RemoveInCounts(c, t, key, n - 1, p);
      var e' := if Matches(e, key) then e.(valid := false) else e;
      TablesPut(u, n - 1, Hash(c, n - 1, key), e');
      OtherKeyCount(e, key, p);
      CountShift(Contents(RemoveIn(c, t, key, n)), One(e), Contents(u), One(e'), p);
    }
  }

  lemma OtherKeyCount(e: Entry, key: Key, p: (Key, Value))
    requires p.0 != key
    ensures One(if Matches(e, key) then e.(valid := false) else e)[p] == One(e)[p]
  {
  }

  lemma CountShift<T>(a: multiset<T>, x: multiset<T>, b: multiset<T>, y: multiset<T>, p: T)
    requires a + x == b + y && x[p] == y[p]
    ensures a[p] == b[p]
  {
    assert (a + x)[p] == (b + y)[p];
  }

  lemma RemovedGone(c: Config, t: Tables, key: Key, v: Value)
    requires ValidConfig(c) && Shaped(c, t) && Placed(c, t)
    ensures (key, v) !in Contents(Remove(c, t, key))
  {
    hide Hash;
    var r := Remove(c, t, key);
    if (key, v) in Contents(r) {
      ContentsHolds(r, (key, v));
      var i: nat, j: nat :| HoldsAt(r, i, j, (key, v));
      RemoveInAt(c, t, key, NUM_TABLES, i, j);
      assert false;
    }
  }

  lemma RemoveCounts(c: Config, t: Tables, key: Key, p: (Key, Value))
    requires ValidConfig(c) && Shaped(c, t) && Placed(c, t)
    ensures Contents(Remove(c, t, key))[p] == if p.0 == key then 0 else Contents(t)[p]
  {
    if p.0 == key {
      RemovedGone(c, t, key, p.1);
    } else {
      RemoveInCounts(c, t, key, NUM_TABLES, p);
    }
  }

  /** Lookup of another key sees the same candidates. */
  lemma {:induction false} FindAfterRemove(c: Config, t: Tables, key: Key, k: Key, n: nat)
    requires ValidConfig(c) && Shaped(c, t) && n <= NUM_TABLES && k != key
    ensures FindIn(c, Remove(c, t, key), k, n) == FindIn(c, t, k, n)
    decreases n
  {
    hide Hash, RemoveIn;
    if n > 0 {
      FindAfterRemove(c, t, key, k, n - 1);
      RemoveInAt(c, t, key, NUM_TABLES, n - 1, Hash(c, n - 1, k));
    }
  }

  /**
   * Removal erases the key even after repeated insertions of it, and changes no other lookup; the table may hold
   * keys twice.
   */
  lemma RemoveErases(c: Config, t: Tables, key: Key, k: Key)
    requires ValidConfig(c) && Shaped(c, t) && Placed(c, t)
    ensures Placed(c, Remove(c, t, key))
    ensures Find(c, Remove(c, t, key), k) == if k == key then None else Find(c, t, k)
  {
    RemovePlaced(c, t, key);
    if k == key {
      FindIsContents(c, Remove(c, t, key), key);
      var r := Find(c, Remove(c, t, key), key);
      if r.Some? {
        RemovedGone(c, t, key, r.value);
      }
    } else {
      FindAfterRemove(c, t, key, k, NUM_TABLES);
    }
  }

  // ---------------------------------------------------------------- runs

  datatype Op = InsertOp(key: Key, value: Value) | RemoveOp(key: Key)

  /** The tables and the bit that survives between insertions. */
  datatype State = State(tables: Tables, victimBit: nat)

  predicate ValidState(c: Config, s: State) {
    ValidConfig(c) && Shaped(c, s.tables) && s.victimBit <= 1
  }

  function Apply(c: Config, s: State, op: Op): (r: State)
    requires ValidState(c, s)
    ensures ValidState(c, r)
  {
    match op
    case InsertOp(key, value) =>
      var o := Insert(c, s.tables, s.victimBit, key, value);
      State(o.tables, o.victimBit)
    case RemoveOp(key) => s.(tables := Remove(c, s.tables, key))
  }

  function Run(c: Config, s: State, ops: seq<Op>): (r: State)
    requires ValidState(c, s)
    ensures ValidState(c, r)
    decreases |ops|
  {
    if ops == [] then s else Run(c, Apply(c, s, ops[0]), ops[1..])
  }

  lemma ApplyPlaced(c: Config, s: State, op: Op)
    requires ValidState(c, s) && Placed(c, s.tables)
    ensures Placed(c, Apply(c, s, op).tables)
  {
    match op
    case InsertOp(key, value) => InsertConserves(c, s.tables, Entry(key, value, true), 0, s.victimBit, MAX_TRIALS);
    case RemoveOp(key) => RemovePlaced(c, s.tables, key);
  }

  /** Across any run, with duplicates and failures, the placement invariant holds. */
  lemma {:induction false} RunPlaced(c: Config, s: State, ops: seq<Op>)
    requires ValidState(c, s) && Placed(c, s.tables)
    ensures Placed(c, Run(c, s, ops).tables)
    decreases |ops|
  {
    hide Placed, Apply;
    if ops != [] {
      ApplyPlaced(c, s, ops[0]);
      RunPlaced(c, Apply(c, s, ops[0]), ops[1..]);
    }
  }

  /** A run whose every insertion is of a key that a lookup just missed. */
  predicate Disciplined(c: Config, s: State, ops: seq<Op>)
    requires ValidState(c, s)
    decreases |ops|
  {
    ops == [] ||
    ((ops[0].InsertOp? ==> Find(c, s.tables, ops[0].key).None?) && Disciplined(c, Apply(c, s, ops[0]), ops[1..]))
  }

  /** What one operation does to a simple map; a failed insertion drops the key left in hand. */
  function MapStep(c: Config, s: State, m: map<Key, Value>, op: Op): map<Key, Value>
    requires ValidState(c, s)
  {
    match op
    case InsertOp(key, value) =>
      var o := Insert(c, s.tables, s.victimBit, key, value);
      if o.success then m[key := value] else m[key := value] - {o.hand.key}
    case RemoveOp(key) => m - {key}
  }

  function MapRun(c: Config, s: State, m: map<Key, Value>, ops: seq<Op>): map<Key, Value>
    requires ValidState(c, s)
    decreases |ops|
  {
    if ops == [] then m else MapRun(c, Apply(c, s, ops[0]), MapStep(c, s, m, ops[0]), ops[1..])
  }

  function Get(m: map<Key, Value>, k: Key): Option<Value> { if k in m then Some(m[k]) else None }

  /** Lookup in the tables is lookup in the map. */
  ghost predicate Agrees(c: Config, t: Tables, m: map<Key, Value>)
    requires ValidConfig(c) && Shaped(c, t)
  {
    Placed(c, t) && Unique(Contents(t)) && forall k: Key :: Find(c, t, k) == Get(m, k)
  }

  lemma InsertAgrees(c: Config, s: State, m: map<Key, Value>, op: Op)
    requires ValidState(c, s) && Agrees(c, s.tables, m)
    requires op.InsertOp? && Find(c, s.tables, op.key).None?
    ensures Agrees(c, Apply(c, s, op).tables, MapStep(c, s, m, op))
  {
    hide Placed, Unique, Find, Insert;
    var key, value := op.key, op.value;
    InsertExtendsMap(c, s.tables, s.victimBit, key, value, key);
    var o := Insert(c, s.tables, s.victimBit, key, value);
    forall k: Key ensures Find(c, o.tables, k) == Get(MapStep(c, s, m, op), k) {
      InsertExtendsMap(c, s.tables, s.victimBit, key, value, k);
    }
  }

  /** A key inserted again is stored twice, or is lost from the map while a copy stays in the tables. */
  lemma ReinsertDisagrees(c: Config, s: State, m: map<Key, Value>, op: Op)
    requires ValidState(c, s) && Agrees(c, s.tables, m)
    requires op.InsertOp? && Find(c, s.tables, op.key).Some?
    ensures !Agrees(c, Apply(c, s, op).tables, MapStep(c, s, m, op))
  {
    hide Placed, Find, InsertFrom, Contents;
    var t, key, e := s.tables, op.key, Entry(op.key, op.value, true);
    var o := Insert(c, t, s.victimBit, key, op.value);
    InsertConserves(c, t, e, 0, s.victimBit, MAX_TRIALS);
    FindIsContents(c, t, key);
    FindIsContents(c, o.tables, key);
    var v := Find(c, t, key).value;
    CopyLeft(Contents(t), e, o, v);
    if !o.success && o.hand.key == key {
      assert key !in MapStep(c, s, m, op);
    }
  }

  lemma CopyLeft(before: multiset<(Key, Value)>, e: Entry, o: Outcome, v: Value)
    requires Conserved(before, e, o) && e.valid && (e.key, v) in before
    ensures o.success || o.hand.key != e.key ==> !Unique(Contents(o.tables))
    ensures !o.success && o.hand.key == e.key ==> exists w :: (e.key, w) in Contents(o.tables)
  {
    hide Contents;
    var p, q, n := (e.key, v), (e.key, e.value), Contents(o.tables);
    var all := before + One(e);
    if !o.success {
      assert (n + One(o.hand))[p] == all[p] && (n + One(o.hand))[q] == all[q];
    }
    assert p == q ==> all[p] >= 2;
    if o.success || o.hand.key != e.key {
      assert p in n && q in n && p.0 == q.0;
    } else {
      assert p in n || q in n;
    }
  }

  lemma RemoveAgrees(c: Config, s: State, m: map<Key, Value>, op: Op)
    requires ValidState(c, s) && Agrees(c, s.tables, m) && op.RemoveOp?
    ensures Agrees(c, Apply(c, s, op).tables, MapStep(c, s, m, op))
  {
    hide Placed, Unique, Find, Remove;
    var key := op.key;
    RemoveUnique(c, s.tables, key);
    RemovePlaced(c, s.tables, key);
    forall k: Key ensures Find(c, Remove(c, s.tables, key), k) == Get(m - {key}, k) {
      RemoveErases(c, s.tables, key, k);
    }
  }

  /** One operation keeps the tables a map exactly when it is no insertion of a key that a lookup finds. */
  lemma StepAgreesIff(c: Config, s: State, m: map<Key, Value>, op: Op)
    requires ValidState(c, s) && Agrees(c, s.tables, m)
    ensures Agrees(c, Apply(c, s, op).tables, MapStep(c, s, m, op)) <==>
            (op.InsertOp? ==> Find(c, s.tables, op.key).None?)
  {
    hide Agrees, Apply, MapStep, Find;
    match op
    case InsertOp(key, _) =>
      if Find(c, s.tables, key).None? {
        InsertAgrees(c, s, m, op);
      } else {
        ReinsertDisagrees(c, s, m, op);
      }
    case RemoveOp(_) => RemoveAgrees(c, s, m, op);
  }

  lemma RemoveUnique(c: Config, t: Tables, key: Key)
    requires ValidConfig(c) && Shaped(c, t) && Placed(c, t) && Unique(Contents(t))
    ensures Unique(Contents(Remove(c, t, key)))
  {
    forall p: (Key, Value) ensures Contents(Remove(c, t, key))[p] <= Contents(t)[p] { RemoveCounts(c, t, key, p); }
    ShrinkUnique(Contents(t), Contents(Remove(c, t, key)));
  }

  /** The tables are the map after every operation of the run. */
  ghost predicate AgreesThroughout(c: Config, s: State, m: map<Key, Value>, ops: seq<Op>)
    requires ValidState(c, s)
    decreases |ops|
  {
    Agrees(c, s.tables, m) &&
    (ops != [] ==> AgreesThroughout(c, Apply(c, s, ops[0]), MapStep(c, s, m, ops[0]), ops[1..]))
  }

  /** A run keeps the tables a map throughout, with any evictions and failures, if and only if it is disciplined. */
  lemma {:induction false} RunAgreesIff(c: Config, s: State, m: map<Key, Value>, ops: seq<Op>)
    requires ValidState(c, s) && Agrees(c, s.tables, m)
    ensures AgreesThroughout(c, s, m, ops) <==> Disciplined(c, s, ops)
    decreases |ops|
  {
    hide Agrees, Apply, MapStep, Find;
    if ops != [] {
      StepAgreesIff(c, s, m, ops[0]);
      if ops[0].InsertOp? ==> Find(c, s.tables, ops[0].key).None? {
        RunAgreesIff(c, Apply(c, s, ops[0]), MapStep(c, s, m, ops[0]), ops[1..]);
      }
    }
  }

  /** Over every disciplined run, of any length and with any evictions and failures, the tables are the map. */
  lemma {:induction false} RunAgrees(c: Config, s: State, m: map<Key, Value>, ops: seq<Op>)
    requires ValidState(c, s) && Agrees(c, s.tables, m) && Disciplined(c, s, ops)
    ensures Agrees(c, Run(c, s, ops).tables, MapRun(c, s, m, ops))
    decreases |ops|
  {
    hide Agrees, Apply, MapStep, Find;
    if ops != [] {
      StepAgreesIff(c, s, m, ops[0]);
      RunAgrees(c, Apply(c, s, ops[0]), MapStep(c, s, m, ops[0]), ops[1..]);
    }
  }
}
