/**
 * The cuckoo hash table as a function of its contents: nine tables with tabulation hashing, insertion with
 * eviction, removal and lookup, and what these promise for every table contents and every run.
 */
module CuckooSpec {
  import opened Wrappers
  import opened Bits

  const NUM_TABLES := 9
  const KEY_SIZE := 64
  const MAX_TRIALS := 12

  type Key = k: Bits | |k| == 64 witness Zeros(64)
  type Value = v: Bits | |v| == 16 witness Zeros(16)
  type Random = r: Bits | |r| == 16 witness Zeros(16)

  /** The generated random table, by table number, key bit and bit position, and the address width. */
  datatype Config = Config(tabulation: (nat, bool, nat) -> Random, addressBits: nat)

  predicate ValidConfig(c: Config) { c.addressBits <= 16 }

  datatype Entry = Entry(key: Key, value: Value, valid: bool)

  type Tables = seq<seq<Entry>>

  predicate Shaped(c: Config, t: Tables) {
    |t| == NUM_TABLES && forall i :: 0 <= i < NUM_TABLES ==> |t[i]| == Pow2(c.addressBits)
  }

  // ---------------------------------------------------------------- hashing

  /** The XOR of the random numbers that the first n key bits select in table i. */
  function HashBits(c: Config, i: nat, key: Key, n: nat): (h: Bits)
    requires ValidConfig(c) && n <= KEY_SIZE
    ensures |h| == c.addressBits
  {
    if n == 0 then Zeros(c.addressBits)
    else Xor(HashBits(c, i, key, n - 1), c.tabulation(i, key[n - 1], n - 1)[..c.addressBits])
  }

  function Hash(c: Config, i: nat, key: Key): (h: nat)
    requires ValidConfig(c)
    ensures h < Pow2(c.addressBits)
  {
    ToNat(HashBits(c, i, key, KEY_SIZE))
  }

  /** Changing one key bit changes the hash by the XOR of the two random numbers of that position. */
  lemma {:induction false} HashFlip(c: Config, i: nat, key: Key, k: nat, n: nat)
    requires ValidConfig(c) && k < KEY_SIZE && n <= KEY_SIZE
    ensures var flipped: Key := key[k := !key[k]]; var a := c.addressBits;
            HashBits(c, i, flipped, n) ==
            (if n <= k then HashBits(c, i, key, n)
             else Xor(HashBits(c, i, key, n), Xor(c.tabulation(i, false, k)[..a], c.tabulation(i, true, k)[..a])))
    decreases n
  {
    if n > 0 {
      HashFlip(c, i, key, k, n - 1);
    }
  }

  /** The key positions below n whose random number has bit b set. */
  ghost function Drawn(c: Config, i: nat, key: Key, b: nat, n: nat): set<nat>
    requires ValidConfig(c) && b < c.addressBits && n <= 64
  {
    set k: nat | k < n && c.tabulation(i, key[k], k)[b]
  }

  lemma {:induction false} ParityOfDrawn(c: Config, i: nat, key: Key, b: nat, n: nat)
    requires ValidConfig(c) && b < c.addressBits && n <= 64
    ensures HashBits(c, i, key, n)[b] <==> |Drawn(c, i, key, b, n)| % 2 == 1
    decreases n
  {
    hide Drawn;
    if n == 0 {
      assert Drawn(c, i, key, b, 0) == {} by { NoneDrawn(c, i, key, b); }
    } else {
      ParityOfDrawn(c, i, key, b, n - 1);
      DrawnStep(c, i, key, b, n);
      assert HashBits(c, i, key, n)[b] == (HashBits(c, i, key, n - 1)[b] != c.tabulation(i, key[n - 1], n - 1)[b]);
    }
  }

  lemma NoneDrawn(c: Config, i: nat, key: Key, b: nat)
    requires ValidConfig(c) && b < c.addressBits
    ensures Drawn(c, i, key, b, 0) == {}
  {
  }

  lemma DrawnStep(c: Config, i: nat, key: Key, b: nat, n: nat)
    requires ValidConfig(c) && b < c.addressBits && 0 < n <= 64
    ensures |Drawn(c, i, key, b, n)| ==
            |Drawn(c, i, key, b, n - 1)| + if c.tabulation(i, key[n - 1], n - 1)[b] then 1 else 0
  {
    var drawn := c.tabulation(i, key[n - 1], n - 1)[b];
    assert Drawn(c, i, key, b, n) == Drawn(c, i, key, b, n - 1) + if drawn then {n - 1} else {};
    assert n - 1 !in Drawn(c, i, key, b, n - 1);
  }

  /**
   * Tabulation hashing: bit b of the i-th hash is the parity of the key bits, of all 64, whose random number in
   * table i has bit b set.
   */
  lemma HashIsTabulation(c: Config, i: nat, key: Key, b: nat)
    requires b < c.addressBits <= 16
    ensures Hash(c, i, key) / Pow2(b) % 2 == |Drawn(c, i, key, b, 64)| % 2
  {
    ParityOfDrawn(c, i, key, b, 64);
    BitOfValue(HashBits(c, i, key, 64), b);
  }

  // ---------------------------------------------------------------- the tables as a collection of bindings

  function One(e: Entry): multiset<(Key, Value)> { if e.valid then multiset{(e.key, e.value)} else multiset{} }

  function RowContents(row: seq<Entry>): multiset<(Key, Value)> {
    if row == [] then multiset{} else One(row[0]) + RowContents(row[1..])
  }

  /** Every binding stored anywhere, with multiplicity. */
  function Contents(t: Tables): multiset<(Key, Value)> {
    if t == [] then multiset{} else RowContents(t[0]) + Contents(t[1..])
  }

  /** A valid entry of table i sits at the i-th hash of its key. */
  predicate Placed(c: Config, t: Tables)
    requires ValidConfig(c) && Shaped(c, t)
  {
    forall i, j :: 0 <= i < NUM_TABLES && 0 <= j < |t[i]| && t[i][j].valid ==> j == Hash(c, i, t[i][j].key)
  }

  function Candidate(c: Config, t: Tables, i: nat, key: Key): Entry
    requires ValidConfig(c) && Shaped(c, t) && i < NUM_TABLES
  {
    t[i][Hash(c, i, key)]
  }

  function Put(c: Config, t: Tables, i: nat, key: Key, e: Entry): (r: Tables)
    requires ValidConfig(c) && Shaped(c, t) && i < NUM_TABLES
    ensures Shaped(c, r)
  {
    t[i := t[i][Hash(c, i, key) := e]]
  }

  lemma {:induction false} RowPut(row: seq<Entry>, j: nat, e: Entry)
    requires j < |row|
    ensures RowContents(row[j := e]) + One(row[j]) == RowContents(row) + One(e)
    decreases |row|
  {
    hide One;
    var next := row[j := e];
    if j == 0 {
      assert next[1..] == row[1..];
      assert RowContents(next) == One(e) + RowContents(row[1..]);
      assert RowContents(row) == One(row[0]) + RowContents(row[1..]);
    } else {
      assert next[1..] == row[1..][j - 1 := e];
      RowPut(row[1..], j - 1, e);
      Exchange(RowContents(next[1..]), One(row[j]), RowContents(row[1..]), One(e), One(row[0]));
    }
  }

  lemma {:induction false} TablesPut(t: Tables, i: nat, j: nat, e: Entry)
    requires i < |t| && j < |t[i]|
    ensures Contents(t[i := t[i][j := e]]) + One(t[i][j]) == Contents(t) + One(e)
    decreases |t|
  {
    hide RowContents, One;
    var next := t[i := t[i][j := e]];
    if i == 0 {
      RowPut(t[0], j, e);
      assert next[1..] == t[1..];
      Exchange(RowContents(next[0]), One(t[0][j]), RowContents(t[0]), One(e), Contents(t[1..]));
    } else {
      assert next[1..] == t[1..][i - 1 := t[1..][i - 1][j := e]];
      TablesPut(t[1..], i - 1, j, e);
      Exchange(Contents(next[1..]), One(t[i][j]), Contents(t[1..]), One(e), RowContents(t[0]));
    }
  }

  lemma Exchange<T>(a: multiset<T>, x: multiset<T>, b: multiset<T>, y: multiset<T>, rest: multiset<T>)
    requires a + x == b + y
    ensures (a + rest) + x == (b + rest) + y && (rest + a) + x == (rest + b) + y
  {
    assert (a + rest) + x == (a + x) + rest;
    assert (b + rest) + y == (b + y) + rest;
    assert rest + a == a + rest && rest + b == b + rest;
  }

  lemma {:induction false} RowHolds(row: seq<Entry>, p: (Key, Value))
    ensures p in RowContents(row) <==> exists j :: 0 <= j < |row| && row[j].valid && (row[j].key, row[j].value) == p
    decreases |row|
  {
    if row != [] {
      RowHolds(row[1..], p);
      if p in RowContents(row[1..]) {
        var j :| 0 <= j < |row| - 1 && row[1..][j].valid && (row[1..][j].key, row[1..][j].value) == p;
        assert row[j + 1].valid;
      }
      if j :| 0 <= j < |row| && row[j].valid && (row[j].key, row[j].value) == p {
        if j > 0 { assert row[1..][j - 1].valid; }
      }
    }
  }

  predicate HoldsAt(t: Tables, i: nat, j: nat, p: (Key, Value)) {
    i < |t| && j < |t[i]| && t[i][j].valid && (t[i][j].key, t[i][j].value) == p
  }

  /** A binding is in the contents exactly when some valid entry holds it. */
  lemma {:induction false} ContentsHolds(t: Tables, p: (Key, Value))
    ensures p in Contents(t) <==> exists i: nat, j: nat :: HoldsAt(t, i, j, p)
    decreases |t|
  {
    if t != [] {
      RowHolds(t[0], p);
      ContentsHolds(t[1..], p);
      if p in RowContents(t[0]) {
        var j :| 0 <= j < |t[0]| && t[0][j].valid && (t[0][j].key, t[0][j].value) == p;
        assert HoldsAt(t, 0, j, p);
      } else if p in Contents(t[1..]) {
        var i: nat, j: nat :| HoldsAt(t[1..], i, j, p);
        assert HoldsAt(t, i + 1, j, p);
      }
      if i: nat, j: nat :| HoldsAt(t, i, j, p) {
        if i == 0 { assert t[0][j].valid; } else { assert HoldsAt(t[1..], i - 1, j, p); }
      }
    }
  }

  // ---------------------------------------------------------------- lookup

  predicate Matches(e: Entry, key: Key) { e.valid && e.key == key }

  /** The last match among the first n tables. */
  function FindIn(c: Config, t: Tables, key: Key, n: nat): Option<Value>
    requires ValidConfig(c) && Shaped(c, t) && n <= NUM_TABLES
  {
    if n == 0 then None
    else if Matches(Candidate(c, t, n - 1, key), key) then Some(Candidate(c, t, n - 1, key).value)
    else FindIn(c, t, key, n - 1)
  }

  function Find(c: Config, t: Tables, key: Key): Option<Value>
    requires ValidConfig(c) && Shaped(c, t)
  {
    FindIn(c, t, key, NUM_TABLES)
  }

  lemma {:induction false} FindInMeans(c: Config, t: Tables, key: Key, n: nat)
    requires ValidConfig(c) && Shaped(c, t) && n <= NUM_TABLES
    ensures var r := FindIn(c, t, key, n);
            && (r.Some? ==> (key, r.value) in Contents(t))
            && (r.None? ==> forall i :: 0 <= i < n ==> !Matches(Candidate(c, t, i, key), key))
    decreases n
  {
    hide Hash, Contents;
    if n > 0 {
      FindInMeans(c, t, key, n - 1);
      var e := Candidate(c, t, n - 1, key);
      if Matches(e, key) {
        assert HoldsAt(t, n - 1, Hash(c, n - 1, key), (key, e.value));
        ContentsHolds(t, (key, e.value));
      }
    }
  }

  /** Lookup hits exactly the keys that are stored, and what it returns is stored under the key. */
  lemma FindIsContents(c: Config, t: Tables, key: Key)
    requires ValidConfig(c) && Shaped(c, t) && Placed(c, t)
    ensures Find(c, t, key).Some? ==> (key, Find(c, t, key).value) in Contents(t)
    ensures Find(c, t, key).None? ==> forall v :: (key, v) !in Contents(t)
  {
    FindInMeans(c, t, key, NUM_TABLES);
    if Find(c, t, key).None? {
      forall v | (key, v) in Contents(t) ensures false {
        ContentsHolds(t, (key, v));
        var i: nat, j: nat :| HoldsAt(t, i, j, (key, v));
        assert j == Hash(c, i, t[i][j].key);
        assert Matches(Candidate(c, t, i, key), key);
      }
    }
  }

  /** No key is stored twice. */
  ghost predicate Unique(m: multiset<(Key, Value)>) {
    (forall p :: m[p] <= 1) && forall p, q :: p in m && q in m && p.0 == q.0 ==> p == q
  }

  /** With unique keys lookup is the map the contents describe. */
  lemma FindIsMap(c: Config, t: Tables, key: Key, v: Value)
    requires ValidConfig(c) && Shaped(c, t) && Placed(c, t) && Unique(Contents(t))
    ensures Find(c, t, key) == Some(v) <==> (key, v) in Contents(t)
  {
    FindIsContents(c, t, key);
    var r := Find(c, t, key);
    if (key, v) in Contents(t) && r.Some? {
      assert (key, r.value) in Contents(t);
      assert (key, r.value).0 == (key, v).0;
    }
  }
}
