/** The stake-address cache in front of the stake_addresses table (processors/stake_address_cache.go). */
module StakeCache {
  import opened Bytes
  import opened Maps
  import opened Numbers
  import opened Recency
  import opened Lru

  /** stake_addresses: hash_raw -> view. */
  type Table = map<Bytes, string>

  datatype Result = Ok(value: Bytes) | Err

  const HASH_LENGTH := 28

  /** Get-or-insert without a cache. */
  function Uncached(t: Table, h: Bytes): (Result, Table) {
    if |h| != HASH_LENGTH then (Err, t)
    else (Ok(h), if h in t then t else t[h := Hex(h)])
  }

  type Cached = seq<Entry<Bytes>>

  /** GetOrCreateStakeAddressFromBytesWithTx when no database operation fails. */
  function ThroughCache(capacity: int, s: Cached, t: Table, h: Bytes): (Result, Cached, Table) {
    if |h| != HASH_LENGTH then (Err, s, t)
    else
      match Lookup(s, Hex(h))
      case Some(v) => (Ok(v), AfterGet(s, Hex(h)), t)
      case None => (Ok(h), AfterPut(capacity, s, Hex(h), h), if h in t then t else t[h := Hex(h)])
  }

  /** Every cached key is the hex of its 28-byte value, and the value has a row. */
  ghost predicate Sound(s: Cached, t: Table) {
    forall e | e in s :: |e.value| == HASH_LENGTH && e.key == Hex(e.value) && e.value in t
  }

  // ---- agreement ----

  lemma LookupMember(s: Cached, t: Table, h: Bytes)
    requires Sound(s, t) && Lookup(s, Hex(h)).Some?
    ensures Lookup(s, Hex(h)) == Some(h) && h in t
  {
    LookupKeys(s, Hex(h));
    var v := Lookup(s, Hex(h)).value;
    assert Entry(Hex(h), v) in s;
    HexInjective(v, h);
  }

  /** One call: the same result and the same table as without the cache, and the cache stays sound. */
  lemma StepAgrees(capacity: int, s: Cached, t: Table, h: Bytes)
    requires Sound(s, t)
    ensures var (r, s', t') := ThroughCache(capacity, s, t, h);
            (r, t') == Uncached(t, h) && Sound(s', t')
  {
    var k := Hex(h);
    PutMembers(capacity, s, k, h);
    GetMembers(s, k);
    hide Hex, AfterPut, AfterGet, Lookup;
    if Lookup(s, k).Some? { LookupMember(s, t, h); }
  }

  function RunUncached(t: Table, hs: seq<Bytes>): (seq<Result>, Table)
    decreases |hs|
  {
    if hs == [] then ([], t)
    else
      var (r, t') := Uncached(t, hs[0]);
      var (rs, t'') := RunUncached(t', hs[1..]);
      ([r] + rs, t'')
  }

  /** What get-or-insert means over a run: each 28-byte hash is answered with itself and has a row afterwards, any
      other is refused; nothing else is inserted, the rows are named by the hex of their hash, and none changes. */
  lemma {:induction false} UncachedMeaning(t: Table, hs: seq<Bytes>)
    ensures var (rs, t') := RunUncached(t, hs);
            && |rs| == |hs| && (forall i | 0 <= i < |hs| :: rs[i] == if |hs[i]| == 28 then Ok(hs[i]) else Err)
            && (forall h :: h in t' <==> h in t || (h in hs && |h| == 28))
            && (forall h | h in t' :: t'[h] == if h in t then t[h] else Hex(h))
    decreases |hs|
  {
    hide Hex;
    if hs != [] { UncachedMeaning(Uncached(t, hs[0]).1, hs[1..]); }
  }

  function RunCached(capacity: int, s: Cached, t: Table, hs: seq<Bytes>): (seq<Result>, Cached, Table)
    decreases |hs|
  {
    if hs == [] then ([], s, t)
    else
      var (r, s', t') := ThroughCache(capacity, s, t, hs[0]);
      var (rs, s'', t'') := RunCached(capacity, s', t', hs[1..]);
      ([r] + rs, s'', t'')
  }

  /** Over any run of committed calls, for every capacity and whatever is evicted on the way, the cached version
      returns the same results and leaves the same table as the uncached one, and the cache stays sound. */
  lemma {:induction false} CacheAgrees(capacity: int, s: Cached, t: Table, hs: seq<Bytes>)
    requires Sound(s, t)
    ensures var (rs, s', t') := RunCached(capacity, s, t, hs);
            (rs, t') == RunUncached(t, hs) && Sound(s', t')
    decreases |hs|
  {
    if hs != [] {
      StepAgrees(capacity, s, t, hs[0]);
      var (r, s', t') := ThroughCache(capacity, s, t, hs[0]);
      CacheAgrees(capacity, s', t', hs[1..]);
    }
  }

  /** The cache keys of the valid requests, in order. */
  function Requested(hs: seq<Bytes>): seq<Key>
    decreases |hs|
  {
    if hs == [] then [] else (if |hs[0]| == HASH_LENGTH then [Hex(hs[0])] else []) + Requested(hs[1..])
  }

  /** What is cached is what was asked for last: after any run of calls the keys are those of the most recently
      requested addresses, as many as the capacity allows, the latest first. */
  lemma {:induction false} CachesMostRecent(capacity: int, s: Cached, t: Table, hs: seq<Bytes>, before: seq<Key>)
    requires Keys(s) == Take(Recent(before), Room(capacity))
    ensures Keys(RunCached(capacity, s, t, hs).1) == Take(Recent(before + Requested(hs)), Room(capacity))
    decreases |hs|
  {
    hide Hex, ThroughCache, Recent, Take;
    if hs == [] {
      assert before + Requested(hs) == before;
    } else {
      var (_, s', t') := ThroughCache(capacity, s, t, hs[0]);
      var now := before + if |hs[0]| == HASH_LENGTH then [Hex(hs[0])] else [];
      StepKeys(capacity, s, t, hs[0], before);
      CachesMostRecent(capacity, s', t', hs[1..], now);
      assert before + Requested(hs) == now + Requested(hs[1..]);
    }
  }

  lemma StepKeys(capacity: int, s: Cached, t: Table, h: Bytes, before: seq<Key>)
    requires Keys(s) == Take(Recent(before), Room(capacity))
    ensures var now := before + if |h| == HASH_LENGTH then [Hex(h)] else [];
            Keys(ThroughCache(capacity, s, t, h).1) == Take(Recent(now), Room(capacity))
  {
    RequestKeys(capacity, s, h, before);
    hide Hex, Recent, Take, AfterGet, AfterPut, Lookup;
    assert before + [] == before;
  }

  lemma RequestKeys(capacity: int, s: Cached, h: Bytes, before: seq<Key>)
    requires Keys(s) == Take(Recent(before), Room(capacity))
    ensures var k := Hex(h);
            Keys(if Lookup(s, k).Some? then AfterGet(s, k) else AfterPut(capacity, s, k, h)) == Take(Recent(before + [k]), Room(capacity))
  {
    var k := Hex(h);
    RecentByLastUse(before);
    GetKeys(s, Recent(before), Room(capacity), k);
    PutKeys(capacity, s, Recent(before), k, h);
    assert (before + [k])[..|before|] == before;
    hide Hex, Lookup, AfterGet, AfterPut, Drop;
  }

  /** The cache is filled before the transaction commits. After an abort the table is back at `t` while the
      cache stays at `s`; from then on every call still leaves the table the uncached call would leave exactly
      when each cached value has a row in `t`. */
  lemma AgreementAfterAbort(capacity: int, s: Cached, t: Table)
    requires forall e | e in s :: |e.value| == HASH_LENGTH && e.key == Hex(e.value)
    ensures (forall h :: ThroughCache(capacity, s, t, h).2 == Uncached(t, h).1) <==> forall e | e in s :: e.value in t
  {
    if forall h :: ThroughCache(capacity, s, t, h).2 == Uncached(t, h).1 {
      forall e | e in s ensures e.value in t {
        FoundByKey(s, e);
        assert ThroughCache(capacity, s, t, e.value).2 == Uncached(t, e.value).1;
      }
    }
    if forall e | e in s :: e.value in t {
      forall h ensures ThroughCache(capacity, s, t, h).2 == Uncached(t, h).1 { StepAgrees(capacity, s, t, h); }
    }
  }

  lemma FoundByKey(s: Cached, e: Entry<Bytes>)
    requires e in s
    ensures Lookup(s, e.key).Some?
  {
    LookupKeys(s, e.key);
    var i :| 0 <= i < |s| && s[i] == e;
    assert Keys(s)[i] == e.key;
  }

  /** A transaction that creates an address and then aborts leaves it cached without a row, unless nothing is
      ever cached: the next call returns it without inserting it. */
  lemma AbortedInsertIsLost(capacity: int, t: Table, h: Bytes)
    requires capacity > 0 && |h| == HASH_LENGTH && h !in t
    ensures var (_, s, _) := ThroughCache(capacity, [], t, h);
            ThroughCache(capacity, s, t, h).0 == Ok(h) && h !in ThroughCache(capacity, s, t, h).2
  {}

  // ---- the code ----

  class StakeTable {
    var rows: Table
  }

  datatype Fetch = Found | Missing | Failed

  /** How the database answers: does the query fail, does the insert fail, does it report an affected row, and
      what do the re-reads after a reported conflict return. */
  datatype Env = Env(queryFails: bool, createFails: bool, affected: bool, fetches: nat -> Fetch)

  /** The re-read loop ends with an error other than "not found". */
  function FetchFails(fetches: nat -> Fetch, i: nat): bool
    decreases 3 - i
  {
    if i >= 3 then false
    else if fetches(i).Missing? then FetchFails(fetches, i + 1)
    else fetches(i).Failed?
  }

  /** At most three re-reads, each made only if the ones before found nothing; the call fails exactly if one of them
      ends with another error. Three times "not found" is taken for success. */
  lemma FetchFailsExact(fetches: nat -> Fetch)
    ensures FetchFails(fetches, 0) <==> exists i: nat | i < 3 :: fetches(i).Failed? && forall j: nat | j < i :: fetches(j).Missing?
  {
    if fetches(0).Missing? && fetches(1).Missing? && fetches(2).Missing? {
      assert !FetchFails(fetches, 2);
      assert !FetchFails(fetches, 1);
    }
    assert FetchFails(fetches, 2) == fetches(2).Failed?;
    assert FetchFails(fetches, 1) == if fetches(1).Missing? then fetches(2).Failed? else fetches(1).Failed?;
  }

  function CallFails(s: Cached, t: Table, h: Bytes, env: Env): bool {
    |h| == HASH_LENGTH && Lookup(s, Hex(h)).None?
    && (env.queryFails || (h !in t && (env.createFails || (!env.affected && FetchFails(env.fetches, 0)))))
  }

  class StakeAddressCache {
    const cache: LruCache<Bytes>

    constructor (capacity: int)
      ensures cache.Valid() && cache.contents == [] && cache.capacity == capacity && fresh(cache.Repr())
    {
      cache := new LruCache(capacity, []);
    }

    method GetOrCreateStakeAddressFromBytesWithTx(table: StakeTable, h: Bytes, env: Env) returns (r: Result)
      requires cache.Valid()
      modifies table, cache.Repr()
      ensures cache.Valid() && fresh(cache.Repr() - old(cache.Repr()))
      ensures !old(CallFails(cache.contents, table.rows, h, env)) ==>
                (r, cache.contents, table.rows) == old(ThroughCache(cache.capacity, cache.contents, table.rows, h))
      ensures old(CallFails(cache.contents, table.rows, h, env)) ==>
                r == Err && cache.contents == old(cache.contents)
                && table.rows == if env.queryFails || env.createFails then old(table.rows) else old(table.rows)[h := Hex(h)]
    {
      hide Hex, Without, AfterPut, Lookup, FetchFails, Linked, Indexed, Holding, NoTwice;
      if |h| != HASH_LENGTH { return Err; }
      var cacheKey := Hex(h);
      var cachedValue := cache.Get(cacheKey);
      if cachedValue.Some? { return Ok(cachedValue.value); }
      if env.queryFails { return Err; }
      if h !in table.rows {
        if env.createFails { return Err; }
        assert map[h := cacheKey] + table.rows == table.rows[h := cacheKey];
        table.rows := map[h := cacheKey] + table.rows;
        if !env.affected {
          var failed := FetchAfterConflict(env.fetches);
          if failed { return Err; }
        }
      }
      cache.Put(cacheKey, h);
      r := Ok(h);
    }

    /** Re-reads up to three times, stopping at a row or at an error other than "not found". */
    method FetchAfterConflict(fetches: nat -> Fetch) returns (failed: bool)
      ensures failed == FetchFails(fetches, 0)
    {
      var i := 0;
      while i < 3
        invariant i <= 3
        invariant FetchFails(fetches, 0) == FetchFails(fetches, i)
      {
        if !fetches(i).Missing? { return fetches(i).Failed?; }
        i := i + 1;
      }
      failed := false;
    }

    /** PreloadCache puts every row of the table, in some order: afterwards as many rows are cached as fit, and all of
        them exactly if the table is no larger than the capacity. */
    method PreloadCache(table: StakeTable)
      requires cache.Valid() && Sound(cache.contents, table.rows)
      requires forall h | h in table.rows :: |h| == HASH_LENGTH
      requires table !in cache.Repr()
      modifies cache.Repr()
      ensures cache.Valid() && Sound(cache.contents, table.rows) && fresh(cache.Repr() - old(cache.Repr()))
      ensures |cache.contents| == Min(Room(cache.capacity), |table.rows|)
      ensures CachesAll(cache.contents, table.rows.Keys) <==> |table.rows| <= Room(cache.capacity)
    {
      hide Linked, Indexed, Holding, NoTwice, Sound, AfterPut, Hex, Lookup;
      var rest := table.rows.Keys;
      ghost var put: set<Bytes> := {};
      KeysOnce(cache);
      while rest != {}
        invariant cache.Valid() && rest <= table.rows.Keys && table.rows == old(table.rows)
        invariant Sound(cache.contents, table.rows) && fresh(cache.Repr() - old(cache.Repr()))
        invariant put == table.rows.Keys - rest && Distinct(Keys(cache.contents))
        invariant |cache.contents| == Room(cache.capacity) || CachesAll(cache.contents, put)
        decreases rest
      {
        var h :| h in rest;
        PutSound(cache.capacity, cache.contents, table.rows, h);
        PutKeeps(cache.capacity, cache.contents, put, h);
        cache.Put(Hex(h), h);
        KeysOnce(cache);
        rest := rest - {h};
        put := put + {h};
      }
      CachedRows(cache.contents, table.rows);
    }
  }

  /** Every given address is found in the cache. */
  ghost predicate CachesAll(s: Cached, hs: set<Bytes>) { forall h | h in hs :: Lookup(s, Hex(h)).Some? }

  lemma KeysOnce(cache: LruCache<Bytes>)
    requires cache.Valid()
    ensures Distinct(Keys(cache.contents))
  {
    KeysDistinct(cache.list.nodes, cache.contents, cache.cache);
  }

  /** A Put into a cache that is not full and stays so evicts nothing; a full cache stays full. */
  lemma PutKeeps(capacity: int, s: Cached, put: set<Bytes>, h: Bytes)
    requires |s| <= Room(capacity) && Distinct(Keys(s))
    requires |s| == Room(capacity) || CachesAll(s, put)
    ensures var s' := AfterPut(capacity, s, Hex(h), h);
            |s'| == Room(capacity) || CachesAll(s', put + {h})
  {
    var k := Hex(h);
    var s' := AfterPut(capacity, s, k, h);
    LookupKeys(s, k);
    if k in Keys(s) {
      MovedSize(s, k);
      hide Hex, Without;
      if |s| != Room(capacity) {
        forall x | x in put + {h} ensures Lookup(s', Hex(x)).Some? { FrontFound(s, k, h, Hex(x)); }
      }
    } else if |s'| != Room(capacity) {
      hide Hex;
      assert s' == [Entry(k, h)] + s;
      forall x | x in put + {h} ensures Lookup(s', Hex(x)).Some? {}
    }
  }

  lemma FrontFound(s: Cached, k: Key, h: Bytes, x: Key)
    ensures x == k || Lookup(s, x).Some? ==> Lookup([Entry(k, h)] + Without(s, k), x).Some?
  {
    var t := [Entry(k, h)] + Without(s, k);
    LookupKeys(s, x);
    LookupKeys(t, x);
    KeysWithout(s, k);
    DropMembers(Keys(s), k);
    FrontKey(Entry(k, h), Without(s, k));
  }

  lemma MovedSize(s: Cached, k: Key)
    requires Distinct(Keys(s)) && k in Keys(s)
    ensures |Without(s, k)| == |s| - 1
  {
    KeysWithout(s, k);
    var i :| 0 <= i < |Keys(s)| && Keys(s)[i] == k;
    DropAt(Keys(s), i);
    assert |Keys(Without(s, k))| == |Without(s, k)|;
  }

  ghost function Values(s: Cached): set<Bytes> { set e | e in s :: e.value }

  lemma {:induction false} ValuesSize(s: Cached)
    requires Distinct(Keys(s)) && forall e | e in s :: e.key == Hex(e.value)
    ensures |Values(s)| == |s|
  {
    hide Hex;
    if s != [] {
      var n := |s| - 1;
      assert Keys(s)[..n] == Keys(s[..n]);
      ValuesSize(s[..n]);
      assert Values(s) == Values(s[..n]) + {s[n].value} by {
        assert s == s[..n] + [s[n]];
      }
      forall e | e in s[..n] ensures e.value != s[n].value {
        var i :| 0 <= i < n && s[i] == e;
        assert Keys(s)[i] != Keys(s)[n];
      }
    }
  }

  lemma CachedValue(s: Cached, t: Table, h: Bytes)
    requires Sound(s, t)
    ensures h in Values(s) <==> Lookup(s, Hex(h)).Some?
  {
    LookupKeys(s, Hex(h));
    if Lookup(s, Hex(h)).Some? {
      LookupMember(s, t, h);
      assert Entry(Hex(h), h) in s;
    }
    hide Lookup;
    if h in Values(s) {
      var e :| e in s && e.value == h;
      assert e.key == Hex(h);
      hide Hex;
      FoundByKey(s, e);
    }
  }

  /** A sound cache holds as many addresses as entries; with as many as there are rows, it holds them all. */
  lemma CachedRows(s: Cached, t: Table)
    requires Sound(s, t) && Distinct(Keys(s)) && forall h | h in t :: |h| == HASH_LENGTH
    ensures |s| <= |t| && (CachesAll(s, t.Keys) <==> |s| == |t|)
  {
    ValuesSize(s);
    assert Values(s) <= t.Keys;
    SubsetSize(Values(s), t.Keys);
    hide Hex, Lookup, Distinct, Sound, Values;
    forall h | h in t ensures h in Values(s) <==> Lookup(s, Hex(h)).Some? { CachedValue(s, t, h); }
    if CachesAll(s, t.Keys) { assert Values(s) == t.Keys; }
  }

  lemma PutSound(capacity: int, s: Cached, t: Table, h: Bytes)
    requires Sound(s, t) && |h| == HASH_LENGTH && h in t
    ensures Sound(AfterPut(capacity, s, Hex(h), h), t)
  {
    PutMembers(capacity, s, Hex(h), h);
    hide Hex, AfterPut;
  }
}
