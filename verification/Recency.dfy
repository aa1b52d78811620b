/** What an LRU cache of a given capacity holds: a plain list of entries, most recently used first. */
module Recency {
  import opened Bytes
  import opened Numbers

  type Key = string
  datatype Entry<V> = Entry(key: Key, value: V)

  /** The list without the entries of a key. */
  function Without<V>(s: seq<Entry<V>>, k: Key): seq<Entry<V>> {
    if s == [] then []
    else if s[0].key == k then Without(s[1..], k)
    else [s[0]] + Without(s[1..], k)
  }

  function Lookup<V>(s: seq<Entry<V>>, k: Key): Option<V> {
    if s == [] then None else if s[0].key == k then Some(s[0].value) else Lookup(s[1..], k)
  }

  /** Get: a hit moves the entry to the front. */
  function AfterGet<V>(s: seq<Entry<V>>, k: Key): seq<Entry<V>> {
    match Lookup(s, k)
    case Some(v) => [Entry(k, v)] + Without(s, k)
    case None => s
  }

  /** Put: an update moves the entry to the front; a new entry pushes out the last one if there are too many. */
  function AfterPut<V>(capacity: int, s: seq<Entry<V>>, k: Key, v: V): seq<Entry<V>> {
    if Lookup(s, k).Some? then [Entry(k, v)] + Without(s, k)
    else
      var t := [Entry(k, v)] + s;
      if |t| > capacity then t[..|t| - 1] else t
  }

  datatype Op<V> = Get(key: Key) | Put(key: Key, value: V)

  /** The contents after a run of operations on an empty cache. */
  function Run<V>(capacity: int, ops: seq<Op<V>>): seq<Entry<V>> {
    if ops == [] then []
    else
      var s := Run(capacity, ops[..|ops| - 1]);
      match ops[|ops| - 1]
      case Get(k) => AfterGet(s, k)
      case Put(k, v) => AfterPut(capacity, s, k, v)
  }

  /** The keys touched, in order: a touch is a Put, or a Get that hits. */
  function Touches<V>(capacity: int, ops: seq<Op<V>>): seq<Key> {
    if ops == [] then []
    else
      var init := ops[..|ops| - 1];
      var op := ops[|ops| - 1];
      if op.Put? || Lookup(Run(capacity, init), op.key).Some? then Touches(capacity, init) + [op.key]
      else Touches(capacity, init)
  }

  function Keys<V>(s: seq<Entry<V>>): seq<Key> { seq(|s|, i requires 0 <= i < |s| => s[i].key) }

  // ---- the reference: keys by their last touch ----

  /** The position of the last occurrence, -1 if there is none. */
  function LastUse(t: seq<Key>, k: Key): int {
    if t == [] then -1 else if t[|t| - 1] == k then |t| - 1 else LastUse(t[..|t| - 1], k)
  }

  /** The distinct keys of `t`, the latest touched first. */
  ghost predicate ByLastUse(t: seq<Key>, l: seq<Key>) {
    && (forall k :: k in l <==> k in t)
    && (forall i, j | 0 <= i < j < |l| :: LastUse(t, l[i]) > LastUse(t, l[j]))
  }

  function Drop(l: seq<Key>, k: Key): seq<Key> {
    if l == [] then [] else if l[0] == k then Drop(l[1..], k) else [l[0]] + Drop(l[1..], k)
  }

  /** The distinct keys of `t`, the latest touched first. */
  function Recent(t: seq<Key>): seq<Key> {
    if t == [] then [] else [t[|t| - 1]] + Drop(Recent(t[..|t| - 1]), t[|t| - 1])
  }

  ghost predicate Distinct(l: seq<Key>) { forall i, j | 0 <= i < j < |l| :: l[i] != l[j] }

  function Take<T>(l: seq<T>, n: nat): seq<T> { l[..Min(n, |l|)] }

  lemma {:induction false} DropAt(l: seq<Key>, i: nat)
    requires Distinct(l) && i < |l|
    ensures Drop(l, l[i]) == l[..i] + l[i + 1..]
  {
    if i == 0 {
      DropAbsent(l[1..], l[0]);
    } else {
      DropAt(l[1..], i - 1);
      assert l[1..][..i - 1] == l[1..i] && l[1..][i..] == l[i + 1..];
    }
  }

  lemma {:induction false} DropAbsent(l: seq<Key>, k: Key)
    requires k !in l
    ensures Drop(l, k) == l
  {
    if l != [] { DropAbsent(l[1..], k); }
  }

  lemma {:induction false} DropMembers(l: seq<Key>, k: Key)
    ensures forall x :: x in Drop(l, k) <==> x in l && x != k
  {
    if l != [] { DropMembers(l[1..], k); }
  }

  /** An earlier element of what is left is an earlier element of the whole. */
  lemma {:induction false} DropOrder(l: seq<Key>, k: Key, i: nat, j: nat) returns (a: nat, b: nat)
    requires i < j < |Drop(l, k)|
    ensures a < b < |l| && l[a] == Drop(l, k)[i] && l[b] == Drop(l, k)[j]
  {
    if l[0] == k {
      a, b := DropOrder(l[1..], k, i, j);
      a, b := a + 1, b + 1;
    } else if i == 0 {
      a := 0;
      assert Drop(l[1..], k)[j - 1] in Drop(l[1..], k);
      DropMembers(l[1..], k);
      b :| 0 <= b < |l[1..]| && l[1..][b] == Drop(l[1..], k)[j - 1];
      b := b + 1;
    } else {
      a, b := DropOrder(l[1..], k, i - 1, j - 1);
      a, b := a + 1, b + 1;
    }
  }

  lemma LastUseAppend(init: seq<Key>, k: Key, x: Key)
    ensures LastUse(init + [k], x) == if x == k then |init| else LastUse(init, x)
    ensures LastUse(init, x) < |init|
  {
    assert (init + [k])[..|init|] == init;
    LastUseBound(init, x);
  }

  /** Touching a key moves it to the front of the list by last use. */
  lemma TouchByLastUse(init: seq<Key>, l: seq<Key>, k: Key)
    requires ByLastUse(init, l)
    ensures ByLastUse(init + [k], [k] + Drop(l, k))
  {
    hide Drop, LastUse;
    var t, d := init + [k], Drop(l, k);
    DropMembers(l, k);
    forall i, j | 0 <= i < j < |d| ensures LastUse(t, d[i]) > LastUse(t, d[j]) {
      var a, b := DropOrder(l, k, i, j);
      assert d[i] in d && d[j] in d;
      LastUseAppend(init, k, d[i]);
      LastUseAppend(init, k, d[j]);
    }
    forall j | 0 <= j < |d| ensures LastUse(t, k) > LastUse(t, d[j]) {
      assert d[j] in d;
      LastUseAppend(init, k, k);
      LastUseAppend(init, k, d[j]);
    }
  }

  lemma ByLastUseDistinct(t: seq<Key>, l: seq<Key>)
    requires ByLastUse(t, l)
    ensures Distinct(l)
  {}

  /** Recent lists the touched keys by their last use. */
  lemma {:induction false} RecentByLastUse(t: seq<Key>)
    ensures ByLastUse(t, Recent(t)) && Distinct(Recent(t))
  {
    if t != [] {
      var n := |t| - 1;
      RecentByLastUse(t[..n]);
      TouchByLastUse(t[..n], Recent(t[..n]), t[n]);
      assert t[..n] + [t[n]] == t;
    }
    ByLastUseDistinct(t, Recent(t));
  }

  lemma {:induction false} LastUseBound(t: seq<Key>, k: Key)
    ensures -1 <= LastUse(t, k) < |t|
  {
    if t != [] { LastUseBound(t[..|t| - 1], k); }
  }

  /** There is only one such list. */
  lemma {:induction false} ByLastUseUnique(t: seq<Key>, l: seq<Key>, m: seq<Key>)
    requires ByLastUse(t, l) && ByLastUse(t, m)
    ensures l == m
  {
    SameUpto(t, l, m, |l|);
    SameUpto(t, m, l, |m|);
  }

  lemma {:induction false} SameUpto(t: seq<Key>, l: seq<Key>, m: seq<Key>, n: nat)
    requires ByLastUse(t, l) && ByLastUse(t, m) && n <= |l|
    ensures n <= |m| && l[..n] == m[..n]
  {
    if n > 0 {
      SameUpto(t, l, m, n - 1);
      forall q | 0 <= q < n - 1 ensures l[q] == m[q] { assert l[..n - 1][q] == m[..n - 1][q]; }
      assert l[n - 1] in m;
      var j :| 0 <= j < |m| && m[j] == l[n - 1];
      assert m[n - 1] in l;
      var i :| 0 <= i < |l| && l[i] == m[n - 1];
    }
  }

  // ---- a cache holds the most recently touched keys ----

  /** Touching a key on the list cut to `c` is cutting the list after touching the key. */
  lemma TouchCut(l: seq<Key>, c: nat, k: Key)
    requires Distinct(l)
    ensures k in Take(l, c) ==> [k] + Drop(Take(l, c), k) == Take([k] + Drop(l, k), c)
    ensures k !in Take(l, c) ==> Take([k] + Take(l, c), c) == Take([k] + Drop(l, k), c)
  {
    var cut := Take(l, c);
    if k in l {
      var i :| 0 <= i < |l| && l[i] == k;
      DropAt(l, i);
      if i < |cut| {
        assert cut[i] == k;
        DropAt(cut, i);
        TakeCut(l, c, i);
      } else {
        assert l[..i][..|cut|] == cut;
      }
    } else {
      DropAbsent(l, k);
    }
  }

  lemma TakeCut(l: seq<Key>, c: nat, i: nat)
    requires i < |Take(l, c)|
    ensures [l[i]] + (Take(l, c)[..i] + Take(l, c)[i + 1..]) == Take([l[i]] + (l[..i] + l[i + 1..]), c)
  {}

  lemma FrontKey<V>(e: Entry<V>, s: seq<Entry<V>>)
    ensures Keys([e] + s) == [e.key] + Keys(s)
  {}

  lemma {:induction false} KeysWithout<V>(s: seq<Entry<V>>, k: Key)
    ensures Keys(Without(s, k)) == Drop(Keys(s), k)
    ensures forall e | e in Without(s, k) :: e in s && e.key != k
  {
    if s != [] {
      KeysWithout(s[1..], k);
      FrontKey(s[0], s[1..]);
      FrontKey(s[0], Without(s[1..], k));
      assert [s[0]] + s[1..] == s;
      hide Keys;
      assert ([s[0].key] + Keys(s[1..]))[1..] == Keys(s[1..]);
    }
  }

  lemma PutMembers<V>(capacity: int, s: seq<Entry<V>>, k: Key, v: V)
    ensures forall e | e in AfterPut(capacity, s, k, v) :: e == Entry(k, v) || e in s
  {
    KeysWithout(s, k);
    hide Without, Lookup;
  }

  lemma GetMembers<V>(s: seq<Entry<V>>, k: Key)
    ensures forall e | e in AfterGet(s, k) :: e in s
  {
    KeysWithout(s, k);
    LookupKeys(s, k);
    hide Without, Lookup;
  }

  lemma {:induction false} LookupKeys<V>(s: seq<Entry<V>>, k: Key)
    ensures Lookup(s, k).Some? <==> k in Keys(s)
    ensures Lookup(s, k).Some? ==> Entry(k, Lookup(s, k).value) in s
  {
    if s != [] {
      LookupKeys(s[1..], k);
      assert Keys(s) == [s[0].key] + Keys(s[1..]);
    }
  }

  lemma GetKeys<V>(s: seq<Entry<V>>, l: seq<Key>, c: nat, k: Key)
    requires Distinct(l) && Keys(s) == Take(l, c)
    ensures Keys(AfterGet(s, k)) == if Lookup(s, k).Some? then Take([k] + Drop(l, k), c) else Take(l, c)
  {
    LookupKeys(s, k);
    KeysWithout(s, k);
    TouchCut(l, c, k);
    hide Lookup, Drop, Without, Distinct;
    if Lookup(s, k).Some? {
      FrontKey(Entry(k, Lookup(s, k).value), Without(s, k));
    }
  }

  lemma PutKeys<V>(capacity: int, s: seq<Entry<V>>, l: seq<Key>, k: Key, v: V)
    requires Distinct(l) && Keys(s) == Take(l, Room(capacity))
    ensures Keys(AfterPut(capacity, s, k, v)) == Take([k] + Drop(l, k), Room(capacity))
  {
    LookupKeys(s, k);
    TouchCut(l, Room(capacity), k);
    if Lookup(s, k).Some? {
      UpdateKeys(s, k, v);
    } else {
      hide Drop, Lookup;
      var t := [Entry(k, v)] + s;
      assert Keys(t) == [k] + Keys(s);
      CutKeys(capacity, t);
    }
  }

  lemma UpdateKeys<V>(s: seq<Entry<V>>, k: Key, v: V)
    ensures Keys([Entry(k, v)] + Without(s, k)) == [k] + Drop(Keys(s), k)
  {
    KeysWithout(s, k);
    hide Drop, Without;
  }

  /** At most one entry is too many: dropping the last one cuts the list to its capacity. */
  lemma CutKeys<V>(capacity: int, t: seq<Entry<V>>)
    requires 0 < |t| <= Room(capacity) + 1
    ensures Keys(if |t| > capacity then t[..|t| - 1] else t) == Take(Keys(t), Room(capacity))
  {}

  /** A negative capacity holds nothing, like capacity 0. */
  function Room(capacity: int): nat { if capacity < 0 then 0 else capacity }

  /** The value of the last Put on a key. */
  function LastPut<V>(ops: seq<Op<V>>, k: Key): Option<V> {
    if ops == [] then None
    else
      var op := ops[|ops| - 1];
      if op.Put? && op.key == k then Some(op.value) else LastPut(ops[..|ops| - 1], k)
  }

  /** After any run of Get and Put the cache holds the `capacity` most recently touched distinct keys, in
      order of recency. */
  lemma {:induction false} HoldsMostRecent<V>(capacity: int, ops: seq<Op<V>>)
    ensures Keys(Run(capacity, ops)) == Take(Recent(Touches(capacity, ops)), Room(capacity))
  {
    if ops != [] {
      var n := |ops| - 1;
      var init, s, t := ops[..n], Run(capacity, ops[..n]), Touches(capacity, ops[..n]);
      HoldsMostRecent(capacity, init);
      RecentByLastUse(t);
      assert forall k: Key :: (t + [k])[..|t|] == t;
      match ops[n]
      case Get(k) => GetKeys(s, Recent(t), Room(capacity), k);
      case Put(k, v) => PutKeys(capacity, s, Recent(t), k, v);
    }
  }

  /** ... each with the value of its last Put. */
  lemma {:induction false} HoldsLastPut<V>(capacity: int, ops: seq<Op<V>>)
    ensures forall e | e in Run(capacity, ops) :: LastPut(ops, e.key) == Some(e.value)
  {
    if ops != [] {
      var n := |ops| - 1;
      var s := Run(capacity, ops[..n]);
      HoldsLastPut(capacity, ops[..n]);
      LookupKeys(s, ops[n].key);
      KeysWithout(s, ops[n].key);
      forall e | e in Run(capacity, ops) ensures LastPut(ops, e.key) == Some(e.value) {
        match ops[n]
        case Get(k) =>
          assert e in s || (e.key == k && Lookup(s, k) == Some(e.value));
        case Put(k, v) =>
          if e != Entry(k, v) {
            assert e in s;
            if e.key == k { PutOnce(s, capacity, k, v, e); }
          }
      }
    }
  }

  /** After a Put the only entry of its key is the new one. */
  lemma PutOnce<V>(s: seq<Entry<V>>, capacity: int, k: Key, v: V, e: Entry<V>)
    requires e in AfterPut(capacity, s, k, v) && e.key == k
    ensures e == Entry(k, v)
  {
    KeysWithout(s, k);
    LookupKeys(s, k);
    if Lookup(s, k).None? {
      forall x | x in s ensures x.key != k {
        var i :| 0 <= i < |s| && s[i] == x;
        assert Keys(s)[i] == x.key;
      }
    }
  }

  /** The size never exceeds the capacity. */
  lemma SizeBound<V>(capacity: int, ops: seq<Op<V>>)
    ensures |Run(capacity, ops)| <= Room(capacity)
  {
    HoldsMostRecent(capacity, ops);
    assert |Keys(Run(capacity, ops))| == |Run(capacity, ops)|;
  }

  // ---- larger caches never do worse ----

  /** Get-or-create accesses: a Get, and on a miss a Put of the value made for the key. */
  function Accesses<V>(capacity: int, keys: seq<Key>, make: Key -> V): seq<Entry<V>> {
    if keys == [] then []
    else
      var s, k := Accesses(capacity, keys[..|keys| - 1], make), keys[|keys| - 1];
      if Lookup(s, k).Some? then AfterGet(s, k) else AfterPut(capacity, s, k, make(k))
  }

  function Hits<V>(capacity: int, keys: seq<Key>, make: Key -> V): nat {
    if keys == [] then 0
    else
      var init, k := keys[..|keys| - 1], keys[|keys| - 1];
      Hits(capacity, init, make) + if Lookup(Accesses(capacity, init, make), k).Some? then 1 else 0
  }

  lemma {:induction false} AccessesRecent<V>(capacity: int, keys: seq<Key>, make: Key -> V)
    ensures Keys(Accesses(capacity, keys, make)) == Take(Recent(keys), Room(capacity))
  {
    if keys != [] {
      var n := |keys| - 1;
      var s := Accesses(capacity, keys[..n], make);
      AccessesRecent(capacity, keys[..n], make);
      RecentByLastUse(keys[..n]);
      GetKeys(s, Recent(keys[..n]), Room(capacity), keys[n]);
      PutKeys(capacity, s, Recent(keys[..n]), keys[n], make(keys[n]));
    }
  }

  /** Inclusion: the keys at a capacity are a prefix of the keys at any larger capacity. */
  lemma Inclusion<V>(small: int, large: int, keys: seq<Key>, make: Key -> V)
    requires small <= large
    ensures Keys(Accesses(small, keys, make)) <= Keys(Accesses(large, keys, make))
  {
    AccessesRecent(small, keys, make);
    AccessesRecent(large, keys, make);
  }

  /** ... so the number of hits never decreases with the capacity. */
  lemma {:induction false} HitsMonotone<V>(small: int, large: int, keys: seq<Key>, make: Key -> V)
    requires small <= large
    ensures Hits(small, keys, make) <= Hits(large, keys, make)
  {
    if keys != [] {
      var n := |keys| - 1;
      HitsMonotone(small, large, keys[..n], make);
      Inclusion(small, large, keys[..n], make);
      LookupKeys(Accesses(small, keys[..n], make), keys[n]);
      LookupKeys(Accesses(large, keys[..n], make), keys[n]);
    }
  }
}
