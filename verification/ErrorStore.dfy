/** The bounded, deduplicating error store (errors/unified_error_system.go). */
module ErrorStore {
  import opened Maps
  import opened Numbers
  import opened Text

  /** The duplicate-key texts that are never to reach the store or the dashboard. */
  predicate DuplicateKey(message: string) { Contains(message, "Error 1062") || Contains(message, "Duplicate entry") }

  /** shouldFilterError */
  predicate Filtered(errType: string, component: string, operation: string, message: string) {
    || DuplicateKey(message) || Contains(message, "duplicate key")
    || Contains(message, "already processed")
    || (errType == "Constraint" && operation == "DuplicateKey")
    || Contains(message, "Error 1568") || Contains(message, "Transaction characteristics can't be changed")
    || (Contains(message, "connection reset by peer") && errType == "Database")
    || Contains(message, "Pool metadata fetch failed") || Contains(message, "hash mismatch")
    || (component == "MetadataFetcher" && errType == "Network")
    || (errType == "Processing" && Contains(message, "metadata"))
    || Contains(message, "Historical sync detected")
    || Contains(message, "Error 9007") || Contains(message, "Write conflict")
    || Contains(message, "Error 1213") || Contains(message, "Deadlock found")
    || (component == "BlockProcessor" && operation == "CollateralAddressLength" && Contains(message, "Collateral address too long"))
    || Contains(message, "SLOW QUERY") || Contains(message, "slow SQL")
  }

  function Signature(errType: string, component: string, operation: string, message: string): string {
    errType + ":" + component + ":" + operation + ":" + message
  }

  // ---- signatures ----

  /** Deduplication never merges different errors whose type, component and operation are free of colons. */
  lemma SignatureInjective(t1: string, c1: string, o1: string, m1: string, t2: string, c2: string, o2: string, m2: string)
    requires ':' !in t1 + c1 + o1 && ':' !in t2 + c2 + o2
    requires Signature(t1, c1, o1, m1) == Signature(t2, c2, o2, m2)
    ensures t1 == t2 && c1 == c2 && o1 == o2 && m1 == m2
  {
    assert t1 + ":" + (c1 + ":" + (o1 + ":" + m1)) == Signature(t1, c1, o1, m1);
    assert t2 + ":" + (c2 + ":" + (o2 + ":" + m2)) == Signature(t2, c2, o2, m2);
    SplitAtColon(t1, c1 + ":" + (o1 + ":" + m1), t2, c2 + ":" + (o2 + ":" + m2));
    assert c1 + ":" + (o1 + ":" + m1) == c2 + ":" + (o2 + ":" + m2);
    SplitAtColon(c1, o1 + ":" + m1, c2, o2 + ":" + m2);
    SplitAtColon(o1, m1, o2, m2);
  }

  /** Two different errors share a signature as soon as a part of one of them contains a colon. */
  lemma SignaturesCollide(t: string, c: string, o: string, p: string, m: string)
    ensures Signature(t + ":" + c, o, p, m) == Signature(t, c + ":" + o, p, m)
    ensures Signature(t, c + ":" + o, p, m) == Signature(t, c, o + ":" + p, m)
    ensures Signature(t, c, o + ":" + p, m) == Signature(t, c, o, p + ":" + m)
  {
    var s := t + ":" + c + ":" + o + ":" + p + ":" + m;
    assert Signature(t + ":" + c, o, p, m) == s;
    assert Signature(t, c + ":" + o, p, m) == s;
    assert Signature(t, c, o + ":" + p, m) == s;
    assert Signature(t, c, o, p + ":" + m) == s;
  }

  datatype Parts = Parts(errType: string, component: string, operation: string, message: string) {
    function Sig(): string { Signature(errType, component, operation, message) }
  }

  predicate NoColon(p: Parts) {
    ':' !in p.errType && ':' !in p.component && ':' !in p.operation && ':' !in p.message
  }

  function Colons(s: string): nat { multiset(s)[':'] }

  lemma ColonsAdd(a: string, b: string)
    ensures Colons(a + b) == Colons(a) + Colons(b)
    ensures Colons(":") == 1 && (Colons(a) == 0 <==> ':' !in a)
  {
    assert multiset(a + b) == multiset(a) + multiset(b);
    assert ':' in multiset(a) <==> ':' in a;
    assert multiset(":") == multiset{':'};
  }

  /** A signature has three colons more than the parts. */
  lemma SigColons(p: Parts)
    ensures Colons(p.Sig()) >= 3 && (Colons(p.Sig()) == 3 <==> NoColon(p))
  {
    var Parts(t, c, o, m) := p;
    ColonsAdd(t + ":" + c + ":" + o + ":", m);
    ColonsAdd(t + ":" + c + ":" + o, ":");
    ColonsAdd(t + ":" + c + ":", o);
    ColonsAdd(t + ":" + c, ":");
    ColonsAdd(t + ":", c);
    ColonsAdd(t, ":");
    ColonsAdd(c, []);
    ColonsAdd(o, []);
    ColonsAdd(m, []);
    hide Colons;
  }

  lemma Cut(s: string) returns (x: string, y: string)
    requires ':' in s
    ensures s == x + ":" + y && |x| < |s| && |y| < |s|
  {
    var i :| 0 <= i < |s| && s[i] == ':';
    x, y := s[..i], s[i + 1..];
  }

  /** Another error with the same signature, for an error with a colon in some part. */
  lemma Twin(p: Parts) returns (q: Parts)
    requires !NoColon(p)
    ensures q != p && q.Sig() == p.Sig()
  {
    var Parts(t, c, o, m) := p;
    if ':' in t {
      var x, y := Cut(t);
      SignaturesCollide(x, y, c, o, m);
      q := Parts(x, y + ":" + c, o, m);
    } else if ':' in c {
      var x, y := Cut(c);
      SignaturesCollide(t, x, y, o, m);
      q := Parts(t, x, y + ":" + o, m);
    } else if ':' in o {
      var x, y := Cut(o);
      SignaturesCollide(t, c, x, y, m);
      q := Parts(t, c, x, y + ":" + m);
    } else {
      var x, y := Cut(m);
      SignaturesCollide(t, c, o, x, y);
      q := Parts(t, c, o + ":" + x, y);
    }
  }

  /** A signature tells the error exactly if no part of it contains a colon. */
  lemma SignatureDetermines(p: Parts)
    ensures (forall q: Parts :: q.Sig() == p.Sig() ==> q == p) <==> NoColon(p)
  {
    if NoColon(p) {
      forall q: Parts | q.Sig() == p.Sig() ensures q == p {
        SigColons(p);
        SigColons(q);
        SignatureInjective(p.errType, p.component, p.operation, p.message, q.errType, q.component, q.operation, q.message);
      }
    } else {
      var q := Twin(p);
    }
  }

  // ---- eviction ----

  datatype Age = Age(signature: string, lastSeen: int)

  function EvictionCount(n: nat): nat { var tenth := if n / 10 < 1 then 1 else n / 10; if n < tenth then n else tenth }

  /** A tenth of the entries, rounded down, but at least one of them. */
  lemma EvictsTenth(n: nat)
    ensures n == 0 ==> EvictionCount(n) == 0
    ensures 0 < n < 10 ==> EvictionCount(n) == 1
    ensures n >= 10 ==> 10 * EvictionCount(n) <= n < 10 * (EvictionCount(n) + 1)
  {}

  /** The live part of the slice lists each signature of the map once, with its time. */
  ghost predicate Lists(ages: seq<Age>, seen: map<string, int>) {
    && (forall i | 0 <= i < |ages| :: ages[i].signature in seen && seen[ages[i].signature] == ages[i].lastSeen)
    && (forall i, j | 0 <= i < j < |ages| :: ages[i].signature != ages[j].signature)
    && (forall s | s in seen :: exists i :: 0 <= i < |ages| && ages[i].signature == s)
  }

  /** Nothing evicted was seen later than anything kept. */
  ghost predicate OldestGone(seen: map<string, int>, gone: set<string>) {
    forall g, k | g in gone && k in seen && k !in gone && g in seen :: seen[g] <= seen[k]
  }

  method OldestIndex(ages: array<Age>, n: nat) returns (oldestIdx: nat)
    requires 0 < n <= ages.Length
    ensures oldestIdx < n && forall i | 0 <= i < n :: ages[oldestIdx].lastSeen <= ages[i].lastSeen
  {
    oldestIdx := 0;
    var oldestTime := ages[0].lastSeen;
    for j := 1 to n
      invariant oldestIdx < n && oldestTime == ages[oldestIdx].lastSeen
      invariant forall i | 0 <= i < j :: oldestTime <= ages[i].lastSeen
    {
      if ages[j].lastSeen < oldestTime {
        oldestIdx := j;
        oldestTime := ages[j].lastSeen;
      }
    }
  }

  /** Overwriting entry i with the last one and cutting the slice removes exactly entry i. */
  lemma SwapRemoveLists(ages: seq<Age>, seen: map<string, int>, i: nat)
    requires Lists(ages, seen) && i < |ages|
    ensures Lists(ages[i := ages[|ages| - 1]][..|ages| - 1], seen - {ages[i].signature})
  {
    var n := |ages| - 1;
    var cut := ages[i := ages[n]][..n];
    var gone := ages[i].signature;
    forall s | s in seen - {gone} ensures exists j :: 0 <= j < |cut| && cut[j].signature == s {
      var j :| 0 <= j < |ages| && ages[j].signature == s;
      if j == n { assert cut[i].signature == s; } else { assert cut[j].signature == s; }
    }
  }

  ghost function Without(seen: map<string, int>, rest: set<string>): map<string, int> {
    map s | s in seen && s !in rest :: seen[s]
  }

  lemma WithoutStep(seen: map<string, int>, rest: set<string>, s: string)
    requires s in rest && s in seen
    ensures s !in Without(seen, rest) && Without(seen, rest)[s := seen[s]] == Without(seen, rest - {s})
  {}

  lemma WithoutEnds(seen: map<string, int>)
    ensures Without(seen, seen.Keys) == map[] && Without(seen, {}) == seen && Lists([], map[])
  {}

  method ListAges(seen: map<string, int>) returns (ages: array<Age>)
    ensures fresh(ages) && ages.Length == |seen| && Lists(ages[..], seen)
  {
    hide Lists, Without;
    ages := new Age[|seen|](_ => Age("", 0));
    var rest := seen.Keys;
    var n := 0;
    WithoutEnds(seen);
    assert ages[..n] == [];
    while rest != {}
      invariant rest <= seen.Keys && n + |rest| == |seen|
      invariant Lists(ages[..n], Without(seen, rest))
      decreases rest
    {
      var s :| s in rest;
      WithoutStep(seen, rest, s);
      AppendLists(ages[..n], Without(seen, rest), s, seen[s]);
      ages[n] := Age(s, seen[s]);
      assert ages[..n + 1] == ages[..n] + [Age(s, seen[s])];
      rest := rest - {s};
      n := n + 1;
    }
    assert ages[..n] == ages[..];
  }

  lemma AppendLists(ages: seq<Age>, seen: map<string, int>, s: string, t: int)
    requires Lists(ages, seen) && s !in seen
    ensures Lists(ages + [Age(s, t)], seen[s := t])
  {
    var more, moreSeen := ages + [Age(s, t)], seen[s := t];
    forall x | x in moreSeen ensures exists i :: 0 <= i < |more| && more[i].signature == x {
      if x == s {
        assert more[|ages|].signature == x;
      } else {
        var i :| 0 <= i < |ages| && ages[i].signature == x;
        assert more[i].signature == x;
      }
    }
  }

  /** One round of the selection loop: finds an oldest live entry and removes it by overwriting it with the
      last one. */
  method RemoveOldest(ages: array<Age>, n: nat, ghost live: map<string, int>) returns (s: string)
    requires 0 < n <= ages.Length && Lists(ages[..n], live)
    modifies ages
    ensures s in live && (forall k | k in live :: live[s] <= live[k])
    ensures Lists(ages[..n - 1], live - {s})
  {
    hide Lists;
    var oldestIdx := OldestIndex(ages, n);
    ghost var before := ages[..n];
    s := ages[oldestIdx].signature;
    SwapRemoveLists(before, live, oldestIdx);
    ListedOldest(before, live, oldestIdx);
    ages[oldestIdx] := ages[n - 1];
    assert ages[..n - 1] == before[oldestIdx := before[n - 1]][..n - 1];
  }

  lemma ListedOldest(ages: seq<Age>, live: map<string, int>, i: nat)
    requires Lists(ages, live) && i < |ages|
    requires forall j | 0 <= j < |ages| :: ages[i].lastSeen <= ages[j].lastSeen
    ensures ages[i].signature in live && forall k | k in live :: live[ages[i].signature] <= live[k]
  {
    forall k | k in live ensures live[ages[i].signature] <= live[k] {
      var j :| 0 <= j < |ages| && ages[j].signature == k;
    }
  }

  lemma NothingGone(seen: map<string, int>)
    ensures OldestGone(seen, {})
  {}

  lemma NothingCounted(counts: map<string, nat>)
    ensures Total(Restrict(counts, {})) == 0
  {
    assert Restrict(counts, {}) == map[];
  }

  lemma OldestExtends(seen: map<string, int>, gone: set<string>, s: string)
    requires OldestGone(seen, gone) && s in seen && s !in gone
    requires forall k | k in seen - gone :: seen[s] <= seen[k]
    ensures OldestGone(seen, gone + {s})
  {
    forall g, k | g in gone + {s} && k in seen && k !in gone + {s} && g in seen ensures seen[g] <= seen[k] {
      assert k in seen - gone;
    }
  }

  /** The selection loop of cleanupOldErrors: which signatures it deletes. */
  method SelectOldest(seen: map<string, int>) returns (gone: set<string>)
    ensures gone <= seen.Keys && |gone| == EvictionCount(|seen|) && OldestGone(seen, gone)
  {
    hide Lists, OldestGone;
    NothingGone(seen);
    var toRemove := |seen| / 10;
    if toRemove < 1 { toRemove := 1; }
    var ages := ListAges(seen);
    var n, i := ages.Length, 0;
    gone := {};
    ghost var live := seen;
    assert ages[..n] == ages[..];
    while i < toRemove && i < n
      invariant i <= toRemove && i + n == |seen| && n <= ages.Length
      invariant gone <= seen.Keys && |gone| == i && OldestGone(seen, gone)
      invariant live == seen - gone && Lists(ages[..n], live)
      decreases n
    {
      var s := RemoveOldest(ages, n, live);
      OldestExtends(seen, gone, s);
      gone := gone + {s};
      live := live - {s};
      n := n - 1;
      i := i + 1;
    }
  }

  // ---- the store ----

  class UnifiedError {
    const errType: string
    const component: string
    const operation: string
    const message: string
    var details: string
    var count: nat
    const firstSeen: int
    var lastSeen: int

    constructor (errType: string, component: string, operation: string, message: string, details: string, now: int)
      ensures this.errType == errType && this.component == component && this.operation == operation && this.message == message
      ensures this.details == details && count == 1 && firstSeen == now && lastSeen == now
    {
      this.errType, this.component, this.operation, this.message := errType, component, operation, message;
      this.details, count, firstSeen, lastSeen := details, 1, now, now;
    }

    function Sig(): string { Signature(errType, component, operation, message) }

    predicate Accepted() { !Filtered(errType, component, operation, message) }
  }

  /** The second filter of LogError and the final filter of GetRecentErrors never find anything left. */
  lemma FilteredDuplicate(errType: string, component: string, operation: string, message: string)
    ensures DuplicateKey(message) ==> Filtered(errType, component, operation, message)
  {}

  lemma EvictedSize<V>(all: map<string, V>, gone: set<string>)
    requires gone <= all.Keys
    ensures |all - gone| == |all| - |gone|
  {
    assert (all - gone).Keys == all.Keys - gone;
  }

  ghost function Recent(list: seq<UnifiedError>, cutoff: int): seq<UnifiedError>
    reads list
  {
    if list == [] then []
    else
      var last := list[|list| - 1];
      (if last.lastSeen > cutoff then [last] else []) + Recent(list[..|list| - 1], cutoff)
  }

  lemma RecentStep(list: seq<UnifiedError>, i: nat, cutoff: int)
    requires 0 < i <= |list|
    ensures Recent(list[..i], cutoff) == (if list[i - 1].lastSeen > cutoff then [list[i - 1]] else []) + Recent(list[..i - 1], cutoff)
  {
    assert list[..i][..i - 1] == list[..i - 1];
  }

  lemma RecentNone(list: seq<UnifiedError>, cutoff: int)
    ensures Recent(list[..0], cutoff) == []
  {}

  /** Where the recent entries of list[..n] are: each that was seen after the cutoff once, from the end. */
  ghost predicate Located(list: seq<UnifiedError>, n: nat, cutoff: int, recent: seq<UnifiedError>, at: seq<nat>)
    requires n <= |list|
    reads list
  {
    && |at| == |recent| && (forall i | 0 <= i < |at| :: at[i] < n && recent[i] == list[at[i]])
    && (forall i, j | 0 <= i < j < |at| :: at[i] > at[j])
    && forall k: nat | k < n :: k in at <==> list[k].lastSeen > cutoff
  }

  lemma LocateNext(list: seq<UnifiedError>, n: nat, cutoff: int, recent: seq<UnifiedError>, at: seq<nat>)
    requires n < |list| && Located(list, n, cutoff, recent, at)
    ensures list[n].lastSeen > cutoff ==> Located(list, n + 1, cutoff, [list[n]] + recent, [n] + at)
    ensures list[n].lastSeen <= cutoff ==> Located(list, n + 1, cutoff, recent, at)
  {
    assert forall k: nat :: k in [n] + at <==> k == n || k in at;
  }

  lemma {:induction false} RecentPositions(list: seq<UnifiedError>, n: nat, cutoff: int) returns (at: seq<nat>)
    requires n <= |list|
    ensures Located(list, n, cutoff, Recent(list[..n], cutoff), at)
  {
    hide Located, Recent;
    if n == 0 {
      RecentNone(list, cutoff);
      at := [];
      NoneLocated(list, cutoff);
    } else {
      at := RecentPositions(list, n - 1, cutoff);
      LocateNext(list, n - 1, cutoff, Recent(list[..n - 1], cutoff), at);
      RecentStep(list, n, cutoff);
      if list[n - 1].lastSeen > cutoff {
        at := [n - 1] + at;
      } else {
        assert [] + Recent(list[..n - 1], cutoff) == Recent(list[..n - 1], cutoff);
      }
    }
  }

  lemma NoneLocated(list: seq<UnifiedError>, cutoff: int)
    ensures Located(list, 0, cutoff, [], [])
  {}

  /** The last elements of `all`, as many as the limit allows. */
  ghost predicate Latest(list: seq<UnifiedError>, all: seq<UnifiedError>, limit: nat) {
    |list| == Min(|all|, limit) && list == all[|all| - |list|..]
  }

  lemma LatestAppend(list: seq<UnifiedError>, all: seq<UnifiedError>, limit: nat, x: UnifiedError, next: seq<UnifiedError>)
    requires Latest(list, all, limit) && Latest(next, list + [x], limit)
    ensures Latest(next, all + [x], limit)
  {}

  /** What the list keeps when an error is appended: as many of the latest as the limit allows, in order; the new
      one is among them, at the end, unless the limit is zero, and of the others only the oldest can go. */
  lemma KeepsNewest(list: seq<UnifiedError>, before: seq<UnifiedError>, limit: nat, err: UnifiedError)
    requires Latest(list, before + [err], limit) && |before| <= limit
    ensures |list| == Min(|before| + 1, limit)
    ensures limit > 0 ==> list != [] && list[|list| - 1] == err
    ensures list == if limit == 0 then [] else if |before| < limit then before + [err] else before[1..] + [err]
  {}

  /** The list of a valid store: the latest errors created since the last clear, the last one at the end. */
  lemma HoldsNewest(list: seq<UnifiedError>, created: seq<UnifiedError>, limit: nat)
    requires Latest(list, created, limit)
    ensures |list| == Min(|created|, limit)
    ensures list == created[|created| - |list|..]
    ensures list != [] ==> list[|list| - 1] == created[|created| - 1]
  {}

  /** Appending one element and dropping the first if there are then too many. */
  lemma LatestTrim(list: seq<UnifiedError>, all: seq<UnifiedError>, max: int, x: UnifiedError)
    requires Latest(list, all, Limit(max))
    ensures var longer := list + [x];
            var next := if |longer| > max then longer[1..] else longer;
            Latest(next, longer, Limit(max)) && Latest(next, all + [x], Limit(max)) && forall y | y in next :: y in list || y == x
  {
    var longer := list + [x];
    LatestAppend(list, all, Limit(max), x, if |longer| > max then longer[1..] else longer);
  }

  function Limit(n: int): nat { if n < 0 then 0 else n }

  class UnifiedErrorSystem {
    const maxErrors: int
    const maxListSize: int
    var errors: map<string, UnifiedError>
    var errorList: seq<UnifiedError>
    var totalErrors: nat
    ghost var created: seq<UnifiedError>   // every new error since the last clear, in order
    ghost var evicted: nat     // occurrences counted by entries that were evicted since the last clear

    ghost function Counts(): map<string, nat>
      reads this`errors, errors.Values
    { map s | s in errors :: errors[s].count }

    /** The map is within its limit, the list holds the latest-created errors within its own, entries are filed under their own signature, no filtered
        error was stored, and the accepted calls are the live counts plus the evicted ones. */
    ghost predicate Valid()
      reads this, errors.Values, errorList
    {
      && |errors| <= Limit(maxErrors) && Latest(errorList, created, Limit(maxListSize))
      && Filed() && (forall e | e in errorList :: e.Accepted())
      && totalErrors == Total(Counts()) + evicted
    }

    ghost predicate Filed()
      reads this`errors, errors.Values
    { forall s | s in errors :: errors[s].Sig() == s && errors[s].Accepted() && errors[s].count > 0 }

    constructor (maxErrors: int, maxListSize: int)
      ensures Valid() && errors == map[] && errorList == [] && created == [] && totalErrors == 0
    {
      this.maxErrors, this.maxListSize := maxErrors, maxListSize;
      errors, errorList, created, totalErrors, evicted := map[], [], [], 0, 0;
    }

    ghost function Seen(): map<string, int>
      reads this`errors, errors.Values
    { map s | s in errors :: errors[s].lastSeen }

    /** cleanupOldErrors removes the oldest tenth, at least one entry, despite the swap-removal. */
    method CleanupOldErrors() returns (ghost gone: set<string>)
      modifies this`errors, this`evicted
      ensures gone <= old(errors.Keys) && |gone| == EvictionCount(|old(errors)|) && OldestGone(old(Seen()), gone)
      ensures errors == old(errors) - gone && (old(Filed()) ==> Filed())
      ensures evicted == old(evicted) + Total(Restrict(old(Counts()), gone))
      ensures Total(Counts()) + evicted == old(Total(Counts()) + evicted)
    {
      hide OldestGone, Total, UnifiedError.Sig, UnifiedError.Accepted;
      var seen := map s | s in errors :: errors[s].lastSeen;
      assert seen.Keys == errors.Keys;
      var oldest := SelectOldest(seen);
      gone := oldest;
      assert |seen.Keys| == |seen| && |errors.Keys| == |errors|;
      ghost var counts := Counts();
      TotalRemove(counts, oldest);
      errors := errors - oldest;
      evicted := evicted + Total(Restrict(counts, oldest));
      assert Counts() == counts - oldest;
    }

    /** A repeated error: its entry, which the list may share, counts one more. */
    method Bump(s: string, details: string, now: int)
      requires Valid() && s in errors
      modifies errors[s], this`totalErrors
      ensures Valid() && totalErrors == old(totalErrors) + 1
      ensures errors[s].count == old(errors[s].count) + 1 && errors[s].lastSeen == now
      ensures errors[s].details == if details != "" then details else old(errors[s].details)
    {
      hide Filtered, Signature, Total, UnifiedError.Sig, UnifiedError.Accepted;
      ghost var counts := Counts();
      var existing := errors[s];
      existing.count := existing.count + 1;
      existing.lastSeen := now;
      if details != "" && existing.details != details {
        existing.details := details;
      }
      totalErrors := totalErrors + 1;
      TotalUpdate(counts, s, counts[s] + 1);
      assert Counts() == counts[s := counts[s] + 1];
    }

    /** A new error: appended to the list, which drops its oldest element, and filed in the map, which evicts. */
    method Add(err: UnifiedError) returns (ghost gone: set<string>)
      requires Valid() && err.Accepted() && err.count == 1 && err.Sig() !in errors
      requires err !in errors.Values && err !in errorList
      modifies this
      ensures Valid() && totalErrors == old(totalErrors) + 1 && created == old(created) + [err]
      ensures Latest(errorList, old(errorList) + [err], Limit(maxListSize))
      ensures var all := old(errors)[err.Sig() := err];
              && errors == all - gone && gone <= all.Keys
              && |gone| == (if |all| > maxErrors then EvictionCount(|all|) else 0)
              && OldestGone(old(Seen())[err.Sig() := err.lastSeen], gone)
      ensures evicted == old(evicted) + Total(Restrict(old(Counts())[err.Sig() := 1], gone))
    {
      hide Filtered, Signature, OldestGone, Total, Counts, Seen, Filed, UnifiedError.Sig, UnifiedError.Accepted,
           Latest, Limit, EvictionCount, Restrict;
      Insert(err);
      gone := EnforceLimit();
      totalErrors := totalErrors + 1;
    }

    /** Files a new error and appends it. */
    method Insert(err: UnifiedError)
      requires Filed() && err.Accepted() && err.count == 1 && err.Sig() !in errors
      requires Latest(errorList, created, Limit(maxListSize)) && forall e | e in errorList :: e.Accepted()
      modifies this`errors, this`errorList, this`created
      ensures errors == old(errors)[err.Sig() := err] && |errors| == |old(errors)| + 1 && Filed()
      ensures Seen() == old(Seen())[err.Sig() := err.lastSeen]
      ensures Counts() == old(Counts())[err.Sig() := 1] && Total(Counts()) == old(Total(Counts())) + 1
      ensures Latest(errorList, old(errorList) + [err], Limit(maxListSize)) && created == old(created) + [err]
      ensures Latest(errorList, created, Limit(maxListSize)) && forall e | e in errorList :: e.Accepted()
    {
      hide Filtered, Signature, Total, Counts, Seen, Filed, UnifiedError.Sig, UnifiedError.Accepted, Latest, Limit;
      File(err);
      Append(err);
    }

    method EnforceLimit() returns (ghost gone: set<string>)
      modifies this`errors, this`evicted
      ensures errors == old(errors) - gone && gone <= old(errors.Keys) && |errors| == |old(errors)| - |gone|
      ensures |gone| == (if |old(errors)| > maxErrors then EvictionCount(|old(errors)|) else 0)
      ensures |old(errors)| <= Limit(maxErrors) + 1 ==> |errors| <= Limit(maxErrors)
      ensures OldestGone(old(Seen()), gone) && (old(Filed()) ==> Filed())
      ensures evicted == old(evicted) + Total(Restrict(old(Counts()), gone))
      ensures Total(Counts()) + evicted == old(Total(Counts()) + evicted)
    {
      hide OldestGone, Total, Counts, Seen;
      gone := {};
      NothingCounted(Counts());
      NothingGone(Seen());
      assert errors - {} == errors;
      if |errors| > maxErrors {
        gone := CleanupOldErrors();
        EvictedSize(old(errors), gone);
      }
    }

    method File(err: UnifiedError)
      requires err.count == 1 && err.Sig() !in errors
      requires Filed() && err.Accepted()
      modifies this`errors
      ensures errors == old(errors)[err.Sig() := err] && |errors| == |old(errors)| + 1 && Filed()
      ensures Seen() == old(Seen())[err.Sig() := err.lastSeen]
      ensures Counts() == old(Counts())[err.Sig() := 1] && Total(Counts()) == old(Total(Counts())) + 1
    {
      hide Signature, Filtered, Total, UnifiedError.Sig, UnifiedError.Accepted;
      ghost var counts, seen, s := Counts(), Seen(), err.Sig();
      errors := errors[err.Sig() := err];
      TotalInsert(counts, s, 1);
      assert Counts() == counts[s := 1];
      assert Seen() == seen[s := err.lastSeen];
    }

    /** Appends to the list and keeps its size. */
    method Append(err: UnifiedError)
      requires Latest(errorList, created, Limit(maxListSize))
      modifies this`errorList, this`created
      ensures Latest(errorList, old(errorList) + [err], Limit(maxListSize)) && created == old(created) + [err]
      ensures Latest(errorList, created, Limit(maxListSize))
      ensures forall e | e in errorList :: e in old(errorList) || e == err
    {
      LatestTrim(errorList, created, maxListSize, err);
      hide Latest, Limit;
      errorList := errorList + [err];
      if |errorList| > maxListSize {
        errorList := errorList[1..];
      }
      created := created + [err];
    }

    /** LogError. The arguments are the error, its joined details and the clock. */
    method LogError(errType: string, component: string, operation: string, message: string, details: string, now: int)
        returns (accepted: bool, ghost err: UnifiedError?, ghost gone: set<string>)
      requires Valid()
      modifies this, errors.Values
      ensures Valid()
      ensures accepted <==> !Filtered(errType, component, operation, message)
      ensures !accepted ==> unchanged(this) && unchanged(old(errors.Values))
      ensures accepted ==> totalErrors == old(totalErrors) + 1
      ensures var s := Signature(errType, component, operation, message);
              accepted && s in old(errors) ==>
                && errors == old(errors) && errorList == old(errorList) && created == old(created) && evicted == old(evicted)
                && errors[s].count == old(errors[s].count) + 1 && errors[s].lastSeen == now
                && errors[s].details == (if details != "" then details else old(errors[s].details))
                && unchanged(old(errors.Values) - {errors[s]})
      ensures var s := Signature(errType, component, operation, message);
              accepted && s !in old(errors) ==>
                && err != null && fresh(err) && err.Sig() == s && err.count == 1 && err.lastSeen == now
                && err.firstSeen == now && err.details == details
                && Latest(errorList, old(errorList) + [err], Limit(maxListSize)) && created == old(created) + [err]
                && errors == old(errors)[s := err] - gone && gone <= old(errors.Keys) + {s}
                && |gone| == (if |old(errors)| + 1 > maxErrors then EvictionCount(|old(errors)| + 1) else 0)
                && OldestGone(old(Seen())[s := now], gone)
                && unchanged(old(errors.Values)) && evicted == old(evicted) + Total(Restrict(old(Counts())[s := 1], gone))
    {
      hide Filtered, Signature, OldestGone, Total, Counts, Filed, Latest, Limit;
      if Filtered(errType, component, operation, message) || DuplicateKey(message) {
        FilteredDuplicate(errType, component, operation, message);
        return false, null, {};
      }
      err, gone := null, {};
      var s := Signature(errType, component, operation, message);
      if s in errors {
        Bump(s, details, now);
      } else {
        err, gone := LogNew(errType, component, operation, message, details, now);
      }
      accepted := true;
    }

    method LogNew(errType: string, component: string, operation: string, message: string, details: string, now: int)
        returns (err: UnifiedError, ghost gone: set<string>)
      requires Valid() && !Filtered(errType, component, operation, message)
      requires Signature(errType, component, operation, message) !in errors
      modifies this
      ensures Valid() && totalErrors == old(totalErrors) + 1
      ensures var s := Signature(errType, component, operation, message);
              && fresh(err) && err.Sig() == s && err.count == 1 && err.lastSeen == now
              && err.firstSeen == now && err.details == details
              && Latest(errorList, old(errorList) + [err], Limit(maxListSize)) && created == old(created) + [err]
              && errors == old(errors)[s := err] - gone && gone <= old(errors.Keys) + {s}
              && |gone| == (if |old(errors)| + 1 > maxErrors then EvictionCount(|old(errors)| + 1) else 0)
              && OldestGone(old(Seen())[s := now], gone)
              && evicted == old(evicted) + Total(Restrict(old(Counts())[s := 1], gone))
    {
      hide Filtered, Signature, OldestGone, Total, Counts, Filed, Seen, Latest;
      err := new UnifiedError(errType, component, operation, message, details, now);
      gone := Add(err);
    }

    /** Maintenance runs the eviction early, when the map is nine tenths full. */
    method BackgroundMaintenance() returns (ghost gone: set<string>)
      requires Valid() && maxErrors >= 0
      modifies this`errors, this`evicted
      ensures Valid() && gone <= old(errors.Keys) && errors == old(errors) - gone
      ensures |gone| == (if |old(errors)| > maxErrors * 9 / 10 then EvictionCount(|old(errors)|) else 0)
      ensures OldestGone(old(Seen()), gone) && evicted == old(evicted) + Total(Restrict(old(Counts()), gone))
    {
      hide OldestGone, Total, Counts, Seen, Filed, Filtered, Signature;
      gone := {};
      NothingCounted(Counts());
      NothingGone(Seen());
      assert errors - {} == errors;
      if |errors| > maxErrors * 9 / 10 {
        gone := CleanupOldErrors();
        EvictedSize(old(errors), gone);
      }
    }

    /** GetRecentErrors: the list from its end, the entries seen after the cutoff. The final duplicate-key filter
        drops nothing, because no such error was ever stored. */
    method GetRecentErrors(cutoff: int) returns (recent: seq<UnifiedError>, ghost at: seq<nat>)
      requires Valid()
      ensures recent == Recent(errorList, cutoff)
      ensures Located(errorList, |errorList|, cutoff, recent, at)
    {
      hide Filtered, DuplicateKey, Recent, Located, Counts, Filed, Latest, Limit;
      recent := [];
      var i := |errorList|;
      assert errorList[..i] == errorList;
      while i > 0
        invariant i <= |errorList|
        invariant recent + Recent(errorList[..i], cutoff) == Recent(errorList, cutoff)
      {
        RecentStep(errorList, i, cutoff);
        i := i - 1;
        var e := errorList[i];
        FilteredDuplicate(e.errType, e.component, e.operation, e.message);
        assert e.Accepted();
        if e.lastSeen > cutoff {
          if !DuplicateKey(e.message) {
            recent := recent + [e];
          }
        }
      }
      RecentNone(errorList, cutoff);
      assert errorList[..|errorList|] == errorList;
      at := RecentPositions(errorList, |errorList|, cutoff);
    }

    method ClearErrors()
      modifies this
      ensures Valid() && errors == map[] && errorList == [] && created == [] && totalErrors == 0
    {
      errors, errorList, created, totalErrors, evicted := map[], [], [], 0, 0;
    }
  }
}
