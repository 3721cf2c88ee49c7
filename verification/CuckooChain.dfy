/**
 * Insertion in terms of table slots: which entries are in hand one after another, where each is put, and which
 * occupant it displaces.
 */
module CuckooChain {
  import opened CuckooSpec
  import opened CuckooRuns

  /** The tables and the entry in hand at the beginning of a trial. */
  datatype Trial = Trial(tables: Tables, hand: Entry)

  /** Every candidate slot of the key is taken. */
  predicate AllTaken(c: Config, t: Tables, key: Key)
    requires ValidConfig(c) && Shaped(c, t)
  {
    forall i :: 0 <= i < 9 ==> t[i][Hash(c, i, key)].valid
  }

  /** Of the candidate slots of the key, that of table i is the last free one. */
  predicate LastFree(c: Config, t: Tables, key: Key, i: nat)
    requires ValidConfig(c) && Shaped(c, t)
  {
    i < 9 && !t[i][Hash(c, i, key)].valid && forall j :: i < j < 9 ==> t[j][Hash(c, j, key)].valid
  }

  /** The tables with `e` at its candidate slot of table i. */
  function Stored(c: Config, t: Tables, i: nat, e: Entry): (r: Tables)
    requires ValidConfig(c) && Shaped(c, t) && i < 9
    ensures Shaped(c, r)
  {
    t[i := t[i][Hash(c, i, e.key) := e]]
  }

  /** The table that trial k evicts from. */
  function VictimTable(c: Config, key: Key, k: nat, victimBit: nat): (n: nat)
    requires ValidConfig(c)
    ensures n < 9
  {
    Hash(c, k % 9, key) % 8 + (victimBit + k) % 2
  }

  /** Trial k finds no free slot: the entry in hand takes a slot whose occupant is in hand next. */
  predicate Displaces(c: Config, x: Trial, y: Trial, k: nat, victimBit: nat)
    requires ValidConfig(c) && Shaped(c, x.tables)
  {
    var n := VictimTable(c, x.hand.key, k, victimBit);
    && AllTaken(c, x.tables, x.hand.key)
    && y == Trial(Stored(c, x.tables, n, x.hand), x.tables[n][Hash(c, n, x.hand.key)])
  }

  /** n evictions in a row, with the entry e in hand first. */
  ghost predicate Evictions(c: Config, t: Tables, victimBit: nat, e: Entry, n: nat, xs: seq<Trial>)
    requires ValidConfig(c)
  {
    && |xs| == n + 1 && xs[0] == Trial(t, e)
    && (forall k :: 0 <= k <= n ==> Shaped(c, xs[k].tables))
    && forall k :: 0 <= k < n ==> Displaces(c, xs[k], xs[k + 1], k, victimBit)
  }

  lemma TakenHasNoSlot(c: Config, t: Tables, key: Key, n: nat)
    requires ValidConfig(c) && Shaped(c, t) && n <= 9 && AllTaken(c, t, key)
    ensures FreeSlot(c, t, key, n) == -1
  {
    hide Hash;
    var slot := FreeSlot(c, t, key, n);
    assert slot >= 0 ==> !Candidate(c, t, slot, key).valid;
  }

  lemma {:induction false} LastFreeIsSlot(c: Config, t: Tables, key: Key, i: nat, n: nat)
    requires ValidConfig(c) && Shaped(c, t) && i < n <= 9 && LastFree(c, t, key, i)
    ensures FreeSlot(c, t, key, n) == i
    decreases n
  {
    hide Hash;
    if n - 1 > i {
      assert Candidate(c, t, n - 1, key).valid;
      LastFreeIsSlot(c, t, key, i, n - 1);
    }
  }

  lemma {:induction false} FindLastFree(c: Config, t: Tables, key: Key, n: nat) returns (i: nat)
    requires ValidConfig(c) && Shaped(c, t) && !AllTaken(c, t, key) && n <= 9
    requires forall j :: n <= j < 9 ==> t[j][Hash(c, j, key)].valid
    ensures LastFree(c, t, key, i)
    decreases n
  {
    hide Hash;
    if n > 0 && t[n - 1][Hash(c, n - 1, key)].valid {
      i := FindLastFree(c, t, key, n - 1);
    } else {
      i := n - 1;
    }
  }

  /** After n evictions the insertion goes on with the n-th trial. */
  lemma {:induction false} GoesOn(c: Config, t: Tables, victimBit: nat, e: Entry, n: nat, xs: seq<Trial>, trials: nat)
    requires ValidConfig(c) && Shaped(c, t) && victimBit <= 1 && n <= trials && Evictions(c, t, victimBit, e, n, xs)
    ensures InsertFrom(c, t, e, 0, victimBit, trials) ==
            InsertFrom(c, xs[n].tables, xs[n].hand, n % 9, (victimBit + n) % 2, trials - n)
    decreases n
  {
    hide Hash, InsertFrom, AllTaken, Stored, VictimTable;
    if n > 0 {
      assert Evictions(c, t, victimBit, e, n - 1, xs[..n]);
      GoesOn(c, t, victimBit, e, n - 1, xs[..n], trials);
      assert Displaces(c, xs[n - 1], xs[n], n - 1, victimBit);
      OneTrial(c, xs[n - 1], xs[n], n - 1, victimBit, trials - n + 1);
    }
  }

  /** One trial that evicts. */
  lemma OneTrial(c: Config, x: Trial, y: Trial, k: nat, victimBit: nat, left: nat)
    requires ValidConfig(c) && Shaped(c, x.tables) && Shaped(c, y.tables) && victimBit <= 1 && left > 0
    requires Displaces(c, x, y, k, victimBit)
    ensures InsertFrom(c, x.tables, x.hand, k % 9, (victimBit + k) % 2, left) ==
            InsertFrom(c, y.tables, y.hand, (k + 1) % 9, (victimBit + k + 1) % 2, left - 1)
  {
    hide Hash, FreeSlot, AllTaken, Shaped;
    TakenHasNoSlot(c, x.tables, x.hand.key, 9);
    assert (k % 9 + 1) % 9 == (k + 1) % 9 && ((victimBit + k) % 2 + 1) % 2 == (victimBit + k + 1) % 2;
  }

  /** Twelve evictions: the insertion fails, and the last occupant displaced is dropped. */
  lemma FailsAfterTwelve(c: Config, t: Tables, victimBit: nat, key: Key, value: Value, xs: seq<Trial>)
    requires ValidConfig(c) && Shaped(c, t) && victimBit <= 1
    requires Evictions(c, t, victimBit, Entry(key, value, true), 12, xs)
    ensures Insert(c, t, victimBit, key, value) == Outcome(xs[12].tables, false, xs[12].hand, victimBit)
  {
    hide Evictions, InsertFrom, Shaped;
    var e := Entry(key, value, true);
    ShapedAt(c, t, victimBit, e, 12, xs);
    GoesOn(c, t, victimBit, e, 12, xs, 12);
    OutOfTrials(c, xs[12], 12 % 9, (victimBit + 12) % 2);
  }

  lemma OutOfTrials(c: Config, x: Trial, victimIdx: nat, victimBit: nat)
    requires ValidConfig(c) && Shaped(c, x.tables) && victimIdx < 9 && victimBit <= 1
    ensures InsertFrom(c, x.tables, x.hand, victimIdx, victimBit, 0) == Outcome(x.tables, false, x.hand, victimBit)
  {
    hide Shaped;
  }

  lemma ShapedAt(c: Config, t: Tables, victimBit: nat, e: Entry, n: nat, xs: seq<Trial>)
    requires ValidConfig(c) && Evictions(c, t, victimBit, e, n, xs)
    ensures |xs| == n + 1 && Shaped(c, xs[n].tables)
  {
    hide Displaces;
  }

  /** Fewer evictions and then a free slot: the insertion succeeds, and the entry in hand takes the last free slot. */
  lemma SucceedsAfter(c: Config, t: Tables, victimBit: nat, key: Key, value: Value, n: nat, xs: seq<Trial>, i: nat)
    requires ValidConfig(c) && Shaped(c, t) && victimBit <= 1 && n < 12
    requires Evictions(c, t, victimBit, Entry(key, value, true), n, xs)
    requires LastFree(c, xs[n].tables, xs[n].hand.key, i)
    ensures Insert(c, t, victimBit, key, value) ==
            Outcome(Stored(c, xs[n].tables, i, xs[n].hand), true, xs[n].hand, (victimBit + n + 1) % 2)
  {
    hide Hash, FreeSlot, Evictions, InsertFrom, Stored, Shaped;
    var e := Entry(key, value, true);
    ShapedAt(c, t, victimBit, e, n, xs);
    GoesOn(c, t, victimBit, e, n, xs, 12);
    LastFreeIsSlot(c, xs[n].tables, xs[n].hand.key, i, 9);
    assert ((victimBit + n) % 2 + 1) % 2 == (victimBit + n + 1) % 2;
    PlacesAtOnce(c, xs[n], n % 9, (victimBit + n) % 2, 12 - n, i);
  }

  lemma PlacesAtOnce(c: Config, x: Trial, victimIdx: nat, victimBit: nat, left: nat, i: nat)
    requires ValidConfig(c) && Shaped(c, x.tables) && victimIdx < 9 && victimBit <= 1 && left > 0
    requires i < 9 && FreeSlot(c, x.tables, x.hand.key, 9) == i
    ensures InsertFrom(c, x.tables, x.hand, victimIdx, victimBit, left) ==
            Outcome(Stored(c, x.tables, i, x.hand), true, x.hand, (victimBit + 1) % 2)
  {
    hide Hash, FreeSlot;
  }

  /** The trials of an insertion: at most n evictions, fewer only when a free slot ends them. */
  lemma {:induction false} Trials(c: Config, t: Tables, victimBit: nat, e: Entry, n: nat)
    returns (m: nat, xs: seq<Trial>)
    requires ValidConfig(c) && Shaped(c, t)
    ensures m <= n && Evictions(c, t, victimBit, e, m, xs)
    ensures m < n ==> !AllTaken(c, xs[m].tables, xs[m].hand.key)
    decreases n
  {
    hide Hash, AllTaken, Stored, VictimTable;
    if n == 0 {
      m, xs := 0, [Trial(t, e)];
    } else {
      m, xs := Trials(c, t, victimBit, e, n - 1);
      if m == n - 1 && AllTaken(c, xs[m].tables, xs[m].hand.key) {
        var x := xs[m];
        var table := VictimTable(c, x.hand.key, m, victimBit);
        var y := Trial(Stored(c, x.tables, table, x.hand), x.tables[table][Hash(c, table, x.hand.key)]);
        assert Displaces(c, x, y, m, victimBit);
        var ys := xs + [y];
        assert forall k :: 0 <= k < m ==> Displaces(c, xs[k], xs[k + 1], k, victimBit) && ys[k] == xs[k];
        assert ys[m] == x && ys[m + 1] == y;
        m, xs := n, ys;
      }
    }
  }

  /**
   * An insertion fails if and only if twelve entries are in hand one after another, the new one first, and none of
   * them finds a free slot among its nine candidates.
   */
  lemma FailsIff(c: Config, t: Tables, victimBit: nat, key: Key, value: Value)
    requires ValidConfig(c) && Shaped(c, t) && victimBit <= 1
    ensures !Insert(c, t, victimBit, key, value).success <==>
            exists xs :: Evictions(c, t, victimBit, Entry(key, value, true), 12, xs)
  {
    hide Insert, Evictions, LastFree, AllTaken, Stored;
    var e := Entry(key, value, true);
    if xs :| Evictions(c, t, victimBit, e, 12, xs) {
      FailsAfterTwelve(c, t, victimBit, key, value, xs);
    } else {
      var n, xs := Trials(c, t, victimBit, e, 12);
      assert n < 12;
      ShapedAt(c, t, victimBit, e, n, xs);
      var i := FindLastFree(c, xs[n].tables, xs[n].hand.key, 9);
      SucceedsAfter(c, t, victimBit, key, value, n, xs, i);
    }
  }

  /**
   * One relocation: the candidates of a new key are all taken, and the occupant in its way has a free slot of its
   * own.  The insertion succeeds, and both entries are in the tables.
   */
  lemma OneRelocation(c: Config, t: Tables, victimBit: nat, key: Key, value: Value, i: nat)
    requires ValidConfig(c) && Shaped(c, t) && victimBit <= 1 && AllTaken(c, t, key)
    requires var n := Hash(c, 0, key) % 8 + victimBit; LastFree(c, t, t[n][Hash(c, n, key)].key, i)
    ensures var n := Hash(c, 0, key) % 8 + victimBit; var occupant := t[n][Hash(c, n, key)];
            Insert(c, t, victimBit, key, value) ==
            Outcome(Stored(c, Stored(c, t, n, Entry(key, value, true)), i, occupant), true, occupant, victimBit)
  {
    hide Insert, Hash;
    var e, n := Entry(key, value, true), Hash(c, 0, key) % 8 + victimBit;
    var h := Hash(c, n, key);
    assert t[n][h].valid;
    assert VictimTable(c, key, 0, victimBit) == n;
    var x, y := Trial(t, e), Trial(Stored(c, t, n, e), t[n][h]);
    assert Displaces(c, x, y, 0, victimBit);
    assert Evictions(c, t, victimBit, e, 1, [x, y]);
    assert LastFree(c, y.tables, y.hand.key, i) by { hide Evictions, Displaces; }
    SucceedsAfter(c, t, victimBit, key, value, 1, [x, y], i);
    assert (victimBit + 1 + 1) % 2 == victimBit;
  }
}
