/** The LRU caches (processors/generic_lru_cache.go, processors/byte_lru_cache.go): a ring of list elements and
    a map from key to element, refining the recency list of module Recency. */
module Lru {
  import opened Bytes
  import opened Recency

  /** An element of container/list, holding a cache entry. */
  class Element<V> {
    var key: Key
    var value: V
    var prev: Element<V>
    var next: Element<V>

    constructor (key: Key, value: V)
      ensures this.key == key && this.value == value && next == this && prev == this
    {
      this.key := key;
      this.value := value;
      prev := this;
      next := this;
    }
  }

  /** A ring of elements, read from one place round to the same place. */
  ghost predicate Linked<V>(ring: seq<Element<V>>)
    reads ring`next, ring`prev
  {
    && (forall i {:trigger ring[i].next} | 0 <= i < |ring| - 1 :: ring[i].next == ring[i + 1])
    && (forall i {:trigger ring[i].prev} | 1 <= i < |ring| :: ring[i].prev == ring[i - 1])
  }

  ghost predicate NoTwice<V>(nodes: seq<Element<V>>) { forall i, j | 0 <= i < j < |nodes| :: nodes[i] != nodes[j] }

  lemma RemoveNoTwice<V>(nodes: seq<Element<V>>, k: nat)
    requires NoTwice(nodes) && k < |nodes|
    ensures NoTwice(nodes[..k] + nodes[k + 1..]) && nodes[k] !in nodes[..k] + nodes[k + 1..]
  {}

  /** Only the ends of the ring are the same element. */
  lemma RingDistinct<V>(root: Element<V>, nodes: seq<Element<V>>)
    requires NoTwice(nodes) && root !in nodes
    ensures var ring := [root] + nodes + [root];
            forall i, j | 0 <= i < j < |ring| && !(i == 0 && j == |ring| - 1) :: ring[i] != ring[j]
  {
    var ring := [root] + nodes + [root];
    assert forall i | 1 <= i < |ring| - 1 :: ring[i] == nodes[i - 1] && ring[i] in nodes;
  }

  /** container/list: a sentinel and the elements between its next and its prev. */
  class ElementList<V> {
    const root: Element<V>
    var len: nat
    ghost var nodes: seq<Element<V>>

    ghost function Ring(): seq<Element<V>>
      reads this
    { [root] + nodes + [root] }

    ghost predicate Valid()
      reads this, root, nodes
    {
      && root !in nodes && NoTwice(nodes) && len == |nodes|
      && Linked(Ring())
    }

    constructor (zero: V)
      ensures Valid() && nodes == [] && fresh(root)
    {
      root := new Element("", zero);
      len := 0;
      nodes := [];
    }

    /** Takes the element at position k out of the ring. */
    method Unlink(e: Element<V>, ghost k: nat)
      requires Valid() && k < |nodes| && nodes[k] == e
      modifies this, root`next, root`prev, nodes`next, nodes`prev
      ensures Valid() && nodes == old(nodes[..k] + nodes[k + 1..])
    {
      ghost var ring := Ring();
      RemoveNoTwice(nodes, k);
      RingDistinct(root, nodes);
      hide NoTwice;
      assert ring[k + 1] == e && e.prev == ring[k] && e.next == ring[k + 2];
      e.prev.next := e.next;
      e.next.prev := e.prev;
      len := len - 1;
      nodes := nodes[..k] + nodes[k + 1..];
      ghost var rest := Ring();
      assert rest == ring[..k + 1] + ring[k + 2..];
      forall i | 0 <= i < |rest| - 1 ensures rest[i].next == rest[i + 1] {
        assert rest[i] == if i <= k then ring[i] else ring[i + 1];
      }
      forall i | 1 <= i < |rest| ensures rest[i].prev == rest[i - 1] {
        assert rest[i] == if i <= k then ring[i] else ring[i + 1];
      }
    }

    method InsertFront(e: Element<V>)
      requires Valid() && e != root && e !in nodes
      modifies this, root`next, root`prev, nodes`next, nodes`prev, e`next, e`prev
      ensures Valid() && nodes == [e] + old(nodes)
    {
      ghost var ring := Ring();
      assert ring[0].next == ring[1];
      e.prev := root;
      e.next := root.next;
      root.next := e;
      e.next.prev := e;
      len := len + 1;
      nodes := [e] + nodes;
      assert Ring() == [root, e] + ring[1..];
    }

    method MoveToFront(e: Element<V>, ghost k: nat)
      requires Valid() && k < |nodes| && nodes[k] == e
      modifies this, root`next, root`prev, nodes`next, nodes`prev
      ensures Valid() && nodes == Moved(old(nodes), k)
    {
      assert Ring()[1] == nodes[0] && Ring()[0].next == Ring()[1];
      if root.next == e {
        assert k == 0;
        assert nodes == [e] + (nodes[..0] + nodes[1..]);
        return;
      }
      Unlink(e, k);
      InsertFront(e);
    }

    /** list.Init: the sentinel alone. */
    method Init()
      modifies this, root`next, root`prev
      ensures Valid() && nodes == []
    {
      root.next := root;
      root.prev := root;
      len := 0;
      nodes := [];
    }

    /** The last element; there is one unless the list is empty. */
    method Back() returns (e: Element<V>)
      requires Valid() && nodes != []
      ensures e == nodes[|nodes| - 1]
    {
      assert Ring()[|nodes| + 1].prev == Ring()[|nodes|];
      e := root.prev;
    }
  }

  // ---- entries with distinct keys ----

  lemma {:induction false} AtKey<V>(s: seq<Entry<V>>, i: nat)
    requires i < |s| && forall a, b | 0 <= a < b < |s| :: s[a].key != s[b].key
    ensures Lookup(s, s[i].key) == Some(s[i].value)
    ensures Without(s, s[i].key) == s[..i] + s[i + 1..]
  {
    if i == 0 {
      AbsentKey(s[1..], s[0].key);
    } else {
      AtKey(s[1..], i - 1);
      assert s[1..][..i - 1] == s[1..i] && s[1..][i..] == s[i + 1..];
      assert [s[0]] + s[1..i] == s[..i];
    }
  }

  lemma {:induction false} AbsentKey<V>(s: seq<Entry<V>>, k: Key)
    requires forall i | 0 <= i < |s| :: s[i].key != k
    ensures Lookup(s, k).None? && Without(s, k) == s
  {
    if s != [] { AbsentKey(s[1..], k); }
  }

  /** The elements hold the given entries, in order. */
  ghost predicate Holding<V>(nodes: seq<Element<V>>, s: seq<Entry<V>>)
    reads nodes`key, nodes`value
  {
    |s| == |nodes| && forall i | 0 <= i < |nodes| :: s[i] == Entry(nodes[i].key, nodes[i].value)
  }

  /** The map finds each element of the list under its key, and nothing else. */
  ghost predicate Indexed<V>(nodes: seq<Element<V>>, cache: map<Key, Element<V>>)
    reads nodes`key
  {
    && (forall k | k in cache :: cache[k] in nodes && cache[k].key == k)
    && (forall i | 0 <= i < |nodes| :: nodes[i].key in cache && cache[nodes[i].key] == nodes[i])
  }

  /** The sequence with its i-th element moved to the front. */
  ghost function Moved<T>(s: seq<T>, i: nat): seq<T>
    requires i < |s|
  { [s[i]] + (s[..i] + s[i + 1..]) }

  lemma MovedMembers<T>(s: seq<T>, i: nat)
    requires i < |s|
    ensures |Moved(s, i)| == |s| && Moved(s, i)[0] == s[i] && forall x :: x in Moved(s, i) <==> x in s
  {
    assert s == s[..i] + [s[i]] + s[i + 1..];
  }

  lemma MovedIndexed<V>(nodes: seq<Element<V>>, i: nat, cache: map<Key, Element<V>>)
    requires i < |nodes| && Indexed(nodes, cache)
    ensures Indexed(Moved(nodes, i), cache)
  {
    MovedMembers(nodes, i);
    forall j | 0 <= j < |Moved(nodes, i)| ensures Moved(nodes, i)[j].key in cache && cache[Moved(nodes, i)[j].key] == Moved(nodes, i)[j] {
      assert Moved(nodes, i)[j] in nodes;
    }
  }

  lemma MovedHolding<V>(nodes: seq<Element<V>>, s: seq<Entry<V>>, i: nat)
    requires i < |nodes| && Holding(nodes, s)
    ensures Holding(Moved(nodes, i), Moved(s, i))
  {}

  lemma KeysDistinct<V>(nodes: seq<Element<V>>, s: seq<Entry<V>>, cache: map<Key, Element<V>>)
    requires NoTwice(nodes) && Indexed(nodes, cache) && Holding(nodes, s)
    ensures forall a, b | 0 <= a < b < |s| :: s[a].key != s[b].key
  {}

  lemma Position<V>(nodes: seq<Element<V>>, s: seq<Entry<V>>, cache: map<Key, Element<V>>, k: Key) returns (i: nat)
    requires NoTwice(nodes) && Indexed(nodes, cache) && Holding(nodes, s) && k in cache
    ensures i < |nodes| == |s| && nodes[i] == cache[k]
    ensures Lookup(s, k) == Some(cache[k].value)
    ensures forall v :: Moved(s, i)[0 := Entry(k, v)] == [Entry(k, v)] + Without(s, k)
  {
    i :| 0 <= i < |nodes| && nodes[i] == cache[k];
    KeysDistinct(nodes, s, cache);
    AtKey(s, i);
  }

  lemma FrontIndexed<V>(nodes: seq<Element<V>>, s: seq<Entry<V>>, cache: map<Key, Element<V>>, e: Element<V>)
    requires Indexed(nodes, cache) && Holding(nodes, s) && e !in nodes && e.key !in cache
    ensures Indexed([e] + nodes, cache[e.key := e]) && Holding([e] + nodes, [Entry(e.key, e.value)] + s)
  {}

  lemma Absent<V>(nodes: seq<Element<V>>, s: seq<Entry<V>>, cache: map<Key, Element<V>>, k: Key)
    requires Indexed(nodes, cache) && Holding(nodes, s) && k !in cache
    ensures Lookup(s, k).None?
  {
    AbsentKey(s, k);
  }

  lemma Evicted<V>(nodes: seq<Element<V>>, s: seq<Entry<V>>, cache: map<Key, Element<V>>)
    requires nodes != [] && NoTwice(nodes) && Indexed(nodes, cache) && Holding(nodes, s)
    ensures var n := |nodes| - 1;
            Indexed(nodes[..n], cache - {nodes[n].key}) && Holding(nodes[..n], s[..n])
  {
    var n := |nodes| - 1;
    KeysDistinct(nodes, s, cache);
    assert forall i | 0 <= i < n :: nodes[i].key == s[i].key;
    forall k | k in cache - {nodes[n].key} ensures cache[k] in nodes[..n] {
      var i :| 0 <= i < |nodes| && nodes[i] == cache[k];
      assert nodes[..n][i] == cache[k];
    }
  }

  class LruCache<V> {
    const capacity: int
    const list: ElementList<V>
    var cache: map<Key, Element<V>>
    ghost var contents: seq<Entry<V>>   // most recently used first

    ghost function Repr(): set<object>
      reads this, list
    { {this, list, list.root} + set e | e in list.nodes }

    ghost predicate Valid()
      reads this, list, list.root, list.nodes
    {
      && list.Valid() && Indexed(list.nodes, cache) && Holding(list.nodes, contents)
      && |contents| == |list.nodes| <= Room(capacity)
    }

    constructor (capacity: int, zero: V)
      ensures Valid() && contents == [] && this.capacity == capacity && fresh(Repr())
    {
      this.capacity := capacity;
      list := new ElementList(zero);
      cache := map[];
      contents := [];
    }

    /** Moves a cached element to the front. */
    method Touch(elem: Element<V>, ghost i: nat)
      requires Valid() && i < |list.nodes| && list.nodes[i] == elem
      modifies this`contents, list, list.root`next, list.root`prev, list.nodes`next, list.nodes`prev
      ensures Valid() && list.nodes == Moved(old(list.nodes), i) && contents == Moved(old(contents), i)
      ensures Repr() == old(Repr())
    {
      hide Linked, Indexed, Holding, NoTwice;
      MovedIndexed(list.nodes, i, cache);
      MovedHolding(list.nodes, contents, i);
      MovedMembers(list.nodes, i);
      contents := Moved(contents, i);
      list.MoveToFront(elem, i);
    }

    method Get(k: Key) returns (r: Option<V>)
      requires Valid()
      modifies Repr()
      ensures Valid() && Repr() == old(Repr())
      ensures r == Lookup(old(contents), k)
      ensures contents == AfterGet(old(contents), k)
    {
      hide Linked, Without, Lookup, Indexed, Holding, NoTwice;
      if k in cache {
        var elem := cache[k];
        ghost var i := Position(list.nodes, contents, cache, k);
        ghost var v := elem.value;
        assert Moved(contents, i)[0 := Entry(k, v)] == [Entry(k, v)] + Without(contents, k);
        assert contents[i] == Entry(k, v) by { HeldEntry(list.nodes, contents, cache, i, k); }
        assert Moved(contents, i)[0 := Entry(k, v)] == Moved(contents, i);
        Touch(elem, i);
        return Some(elem.value);
      }
      Absent(list.nodes, contents, cache, k);
      r := None;
    }

    method Put(k: Key, v: V)
      requires Valid()
      modifies Repr()
      ensures Valid() && fresh(Repr() - old(Repr()))
      ensures contents == AfterPut(capacity, old(contents), k, v)
    {
      hide Linked, Without, Lookup, Indexed, Holding, NoTwice;
      if k in cache {
        ghost var i := Position(list.nodes, contents, cache, k);
        assert Moved(contents, i)[0 := Entry(k, v)] == [Entry(k, v)] + Without(contents, k);
        HeldEntry(list.nodes, contents, cache, i, k);
        Update(cache[k], i, v);
      } else {
        Absent(list.nodes, contents, cache, k);
        PutNew(k, v);
      }
    }

    method Update(elem: Element<V>, ghost i: nat, v: V)
      requires Valid() && i < |list.nodes| && list.nodes[i] == elem
      modifies this`contents, list, list.root, list.nodes
      ensures Valid() && Repr() == old(Repr())
      ensures contents == Moved(old(contents), i)[0 := Entry(old(elem.key), v)]
    {
      hide Linked, Indexed, Holding, Moved;
      Touch(elem, i);
      MovedMembers(old(list.nodes), i);
      MovedMembers(old(contents), i);
      SetFront(v, elem);
    }

    /** elem.Value.value = value, for the element in front. */
    method SetFront(v: V, elem: Element<V>)
      requires Valid() && list.nodes != [] && elem == list.nodes[0]
      modifies this`contents, elem`value
      ensures Valid() && contents == old(contents)[0 := Entry(elem.key, v)]
    {
      hide Linked, Indexed;
      assert forall i | 1 <= i < |list.nodes| :: list.nodes[i] != elem;
      elem.value := v;
      contents := contents[0 := Entry(elem.key, v)];
    }

    method PutNew(k: Key, v: V)
      requires Valid() && k !in cache
      modifies this, list, list.root, list.nodes
      ensures Valid() && fresh(Repr() - old(Repr()))
      ensures var t := [Entry(k, v)] + old(contents); contents == if |t| > capacity then t[..|t| - 1] else t
    {
      hide Linked, Indexed, Holding, NoTwice;
      var elem := new Element(k, v);
      AddFront(elem);
      if list.len > capacity {
        var oldest := list.Back();
        Evict(oldest);
      }
    }

    /** Adds a new element in front; the list may then be one too long. */
    method AddFront(elem: Element<V>)
      requires Valid() && elem != list.root && elem !in list.nodes && elem.key !in cache
      modifies this, list, list.root`next, list.root`prev, list.nodes`next, list.nodes`prev, elem`next, elem`prev
      ensures list.Valid() && list.nodes == [elem] + old(list.nodes)
      ensures Indexed(list.nodes, cache) && Holding(list.nodes, contents)
      ensures |contents| == |list.nodes| <= Room(capacity) + 1
      ensures contents == [Entry(elem.key, elem.value)] + old(contents)
    {
      hide Linked, Indexed, Holding, NoTwice;
      FrontIndexed(list.nodes, contents, cache, elem);
      list.InsertFront(elem);
      cache := cache[elem.key := elem];
      contents := [Entry(elem.key, elem.value)] + contents;
    }

    /** Removes the last element and its key. */
    method Evict(oldest: Element<V>)
      requires list.Valid() && list.nodes != [] && oldest == list.nodes[|list.nodes| - 1]
      requires Indexed(list.nodes, cache) && Holding(list.nodes, contents)
      requires |list.nodes| <= Room(capacity) + 1
      modifies this, list, list.root, list.nodes
      ensures Valid() && list.nodes == old(list.nodes)[..|old(list.nodes)| - 1]
      ensures contents == old(contents)[..|old(contents)| - 1]
    {
      hide Linked, Indexed, NoTwice;
      ghost var n := |list.nodes| - 1;
      Evicted(list.nodes, contents, cache);
      assert list.nodes[..n] + list.nodes[n + 1..] == list.nodes[..n];
      contents := contents[..n];
      cache := cache - {oldest.key};
      list.Unlink(oldest, n);
    }

    /** The number of cached keys is the number of list elements (len of the map, Len of the list). */
    method Size() returns (n: nat)
      requires Valid()
      ensures n == |contents| && n == |cache| && n <= Room(capacity)
    {
      n := list.len;
      NodesAreKeys(list.nodes, cache);
    }

    method Clear()
      requires Valid()
      modifies this, list, list.root
      ensures Valid() && contents == [] && Repr() <= old(Repr())
    {
      cache := map[];
      contents := [];
      list.Init();
    }
  }

  lemma HeldEntry<V>(nodes: seq<Element<V>>, s: seq<Entry<V>>, cache: map<Key, Element<V>>, i: nat, k: Key)
    requires Indexed(nodes, cache) && Holding(nodes, s) && i < |nodes| && k in cache && nodes[i] == cache[k]
    ensures s[i] == Entry(k, cache[k].value) && cache[k].key == k && |s| == |nodes|
  {}

  lemma NodesAreKeys<V>(nodes: seq<Element<V>>, cache: map<Key, Element<V>>)
    requires NoTwice(nodes) && Indexed(nodes, cache)
    ensures |cache| == |nodes|
  {
    KeySet(nodes);
    assert cache.Keys == set e | e in nodes :: e.key;
  }

  lemma {:induction false} KeySet<V>(nodes: seq<Element<V>>)
    requires forall i, j | 0 <= i < j < |nodes| :: nodes[i].key != nodes[j].key
    ensures |set e | e in nodes :: e.key| == |nodes|
  {
    if nodes != [] {
      var init, last := nodes[..|nodes| - 1], nodes[|nodes| - 1];
      KeySet(init);
      assert (set e | e in nodes :: e.key) == (set e | e in init :: e.key) + {last.key};
      assert last.key !in set e | e in init :: e.key;
    }
  }
}
