/**
 The cache object: a hash index over list elements and a recency list of the same elements.
 Every method is proved to do what the sequence of Lru says.

 A pointer to a list element is a handle; `store` says what each handle points to.
 */
module LruCache {
  import opened Options
  import opened Lru

  type Handle = nat

  function Entries(list: seq<Handle>, store: map<Handle, Entry>): (s: seq<Entry>)
    requires forall i :: 0 <= i < |list| ==> list[i] in store
    ensures |s| == |list|
  {
    seq(|list|, i requires 0 <= i < |list| => store[list[i]])
  }

  /** The index and the list hold the same elements, each key once. */
  ghost predicate Linked(list: seq<Handle>, items: map<Key, Handle>, store: map<Handle, Entry>) {
    && (forall i :: 0 <= i < |list| ==> list[i] in store)
    && DistinctKeys(Entries(list, store))
    && (forall i :: 0 <= i < |list| ==> store[list[i]].key in items && items[store[list[i]].key] == list[i])
    && (forall k :: k in items ==> items[k] in list && store[items[k]].key == k)
  }

  function CutAt(list: seq<Handle>, i: nat): seq<Handle>
    requires i < |list|
  {
    list[..i] + list[i + 1..]
  }

  /** A key is indexed exactly when the list has it. */
  lemma Indexed(list: seq<Handle>, items: map<Key, Handle>, store: map<Handle, Entry>, k: Key)
    requires Linked(list, items, store)
    ensures Lookup(Entries(list, store), k) == if k in items then Some(store[items[k]].value) else None
  {
    var s := Entries(list, store);
    if k in items {
      var j :| 0 <= j < |list| && list[j] == items[k];
      DropAt(s, j);
    } else {
      assert forall i :: 0 <= i < |s| ==> s[i] == store[list[i]];
      LookupAbsent(s, k);
    }
  }

  lemma UnlinkKeeps(list: seq<Handle>, items: map<Key, Handle>, store: map<Handle, Entry>, i: nat)
    requires Linked(list, items, store) && i < |list|
    ensures Linked(CutAt(list, i), items - {store[list[i]].key}, store)
    ensures Entries(CutAt(list, i), store) == Drop(Entries(list, store), store[list[i]].key)
  {
    var s, rest := Entries(list, store), CutAt(list, i);
    DropAt(s, i);
    DropKeepsDistinct(s, s[i].key);
    assert Entries(rest, store) == s[..i] + s[i + 1..];
    var items' := items - {store[list[i]].key};
    forall k | k in items'
      ensures items'[k] in rest && store[items'[k]].key == k
    {
      var j :| 0 <= j < |list| && list[j] == items[k];
      assert j != i;
      assert if j < i then rest[j] == items[k] else rest[j - 1] == items[k];
    }
    forall j | 0 <= j < |rest|
      ensures store[rest[j]].key in items' && items'[store[rest[j]].key] == rest[j]
    {
      var j' := if j < i then j else j + 1;
      assert rest[j] == list[j'] && s[j'].key != s[i].key;
    }
  }

  lemma FrontKeeps(list: seq<Handle>, items: map<Key, Handle>, store: map<Handle, Entry>, i: nat)
    requires Linked(list, items, store) && i < |list|
    ensures
      var list' := [list[i]] + CutAt(list, i);
      && Linked(list', items, store)
      && Entries(list', store) == [store[list[i]]] + Drop(Entries(list, store), store[list[i]].key)
  {
    UnlinkKeeps(list, items, store, i);
    var h := list[i];
    var rest := CutAt(list, i);
    var s := Entries(rest, store);
    DropKeepsDistinct(Entries(list, store), store[h].key);
    DistinctCons(s, store[h]);
    assert Entries([h] + rest, store) == [store[h]] + s;
    assert items == (items - {store[h].key})[store[h].key := h];
  }

  lemma PushKeeps(list: seq<Handle>, items: map<Key, Handle>, store: map<Handle, Entry>, h: Handle, e: Entry)
    requires Linked(list, items, store) && e.key !in items && h !in store
    ensures Linked([h] + list, items[e.key := h], store[h := e])
    ensures Entries([h] + list, store[h := e]) == [e] + Entries(list, store)
  {
    var s := Entries(list, store);
    Indexed(list, items, store, e.key);
    DistinctCons(s, e);
    assert Entries([h] + list, store[h := e]) == [e] + s;
  }

  lemma SetKeeps(list: seq<Handle>, items: map<Key, Handle>, store: map<Handle, Entry>, v: Value)
    requires Linked(list, items, store) && list != []
    ensures
      var store' := store[list[0] := Entry(store[list[0]].key, v)];
      && Linked(list, items, store')
      && Entries(list, store') == [store'[list[0]]] + Entries(list, store)[1..]
  {
    var store' := store[list[0] := Entry(store[list[0]].key, v)];
    var s, s' := Entries(list, store), Entries(list, store');
    forall i | 0 < i < |list|
      ensures s'[i] == s[i]
    {
      assert s[0].key != s[i].key;
    }
    assert s' == [store'[list[0]]] + s[1..];
    assert forall i :: 0 <= i < |s| ==> s'[i].key == s[i].key;
  }

  class LruCache {
    var size: int
    var list: seq<Handle>
    var items: map<Key, Handle>
    var store: map<Handle, Entry>
    var next: Handle
    /** The calls of the eviction callback, in order. */
    var evictions: seq<Entry>
    /** Keys that were not in the cache when they were added. */
    ghost var entered: multiset<Key>

    ghost predicate Valid()
      reads this
    {
      Linked(list, items, store) && forall h :: h in store ==> h < next
    }

    ghost function View(): (c: Cache)
      reads this
      requires Valid()
    {
      Cache(Entries(list, store), size, Keys(evictions), entered)
    }

    constructor (size: int)
      ensures Valid() && View() == Empty(if size <= 0 then 10000 else size)
    {
      this.size := if size <= 0 then 10000 else size;
      list, items, store, next, evictions, entered := [], map[], map[], 0, [], multiset{};
    }

    /** Takes the element out of the list and the index, and tells the callback. */
    method RemoveElement(h: Handle)
      requires Valid() && h in list
      modifies this
      ensures Valid() && size == old(size) && entered == old(entered)
      ensures Entries(list, store) == Drop(old(View()).entries, old(store)[h].key)
      ensures evictions == old(evictions) + [old(store)[h]]
    {
      var i :| 0 <= i < |list| && list[i] == h;
      UnlinkKeeps(list, items, store, i);
      list := list[..i] + list[i + 1..];
      items := items - {store[h].key};
      evictions := evictions + [store[h]];
    }

    method MoveToFront(h: Handle)
      requires Valid() && h in list
      modifies this`list
      ensures Valid() && list != [] && list[0] == h
      ensures Entries(list, store) == [store[h]] + Drop(old(View()).entries, store[h].key)
    {
      var i :| 0 <= i < |list| && list[i] == h;
      FrontKeeps(list, items, store, i);
      list := [h] + (list[..i] + list[i + 1..]);
    }

    /** Evicts the back of the list, if there is one. */
    method EvictOldest()
      requires Valid()
      modifies this
      ensures Valid() && View() == CutOldest(old(View()), 1)
    {
      if list != [] {
        CutLast(View(), evictions);
        RemoveElement(list[|list| - 1]);
      } else {
        CutNone(View());
      }
    }

    method Add(k: Key, v: Value) returns (evicted: bool)
      requires Valid()
      modifies this
      ensures Valid() && View() == Apply(old(View()), Lru.Add(k, v))
      ensures evicted <==> Lookup(old(View()).entries, k).None? && |old(list)| + 1 > size
    {
      Indexed(list, items, store, k);
      if k in items {
        Refresh(k, v);
        return false;
      }
      PushFront(k, v);
      evicted := |list| > size;
      if evicted {
        EvictOldest();
      }
    }

    /** The entry of a key that is there moves to the front and takes the new value. */
    method Refresh(k: Key, v: Value)
      requires Valid() && k in items
      modifies this
      ensures Valid() && View() == Apply(old(View()), Lru.Add(k, v)) && size == old(size)
      ensures Lookup(old(View()).entries, k).Some?
    {
      Indexed(list, items, store, k);
      var h := items[k];
      MoveToFront(h);
      SetKeeps(list, items, store, v);
      store := store[h := Entry(k, v)];
    }

    method PushFront(k: Key, v: Value)
      requires Valid() && k !in items
      modifies this
      ensures Valid() && |list| == |old(list)| + 1
      ensures
        var c := old(View());
        View() == c.(entries := [Entry(k, v)] + c.entries, entered := c.entered + multiset{k})
    {
      PushKeeps(list, items, store, next, Entry(k, v));
      list, items, store := [next] + list, items[k := next], store[next := Entry(k, v)];
      next, entered := next + 1, entered + multiset{k};
    }

    method Get(k: Key) returns (r: Option<Value>)
      requires Valid()
      modifies this`list
      ensures Valid() && View() == Apply(old(View()), Lru.Get(k)) && r == Lookup(old(View()).entries, k)
    {
      Indexed(list, items, store, k);
      if k in items {
        MoveToFront(items[k]);
        return Some(store[items[k]].value);
      }
      r := None;
    }

    method Contains(k: Key) returns (ok: bool)
      requires Valid()
      ensures ok <==> Lookup(View().entries, k).Some?
    {
      Indexed(list, items, store, k);
      ok := k in items;
    }

    method Peek(k: Key) returns (r: Option<Value>)
      requires Valid()
      ensures r == Lookup(View().entries, k)
    {
      Indexed(list, items, store, k);
      r := if k in items then Some(store[items[k]].value) else None;
    }

    method Remove(k: Key) returns (present: bool)
      requires Valid()
      modifies this
      ensures Valid() && View() == Apply(old(View()), Lru.Remove(k))
      ensures present <==> Lookup(old(View()).entries, k).Some?
    {
      Indexed(list, items, store, k);
      if k in items {
        KeysConcat(evictions, [store[items[k]]]);
        KeysOne(store[items[k]]);
        RemoveElement(items[k]);
        return true;
      }
      present := false;
    }

    method RemoveOldest() returns (r: Option<Entry>)
      requires Valid()
      modifies this
      ensures Valid() && View() == Apply(old(View()), Lru.RemoveOldest)
      ensures
        var s := old(View()).entries;
        r == if s == [] then None else Some(s[|s| - 1])
    {
      r := GetOldest();
      EvictOldest();
    }

    method GetOldest() returns (r: Option<Entry>)
      requires Valid()
      ensures
        var s := View().entries;
        r == if s == [] then None else Some(s[|s| - 1])
    {
      r := if list == [] then None else Some(store[list[|list| - 1]]);
    }

    /** From the oldest to the newest. */
    method KeyList() returns (keys: seq<Key>)
      requires Valid()
      ensures
        var s := View().entries;
        |keys| == |s| && forall i :: 0 <= i < |s| ==> keys[i] == s[|s| - 1 - i].key
    {
      keys := [];
      var i := |list|;
      while i > 0
        invariant 0 <= i <= |list| && |keys| == |list| - i
        invariant forall j :: 0 <= j < |keys| ==> keys[j] == store[list[|list| - 1 - j]].key
      {
        i := i - 1;
        keys := keys + [store[list[i]].key];
      }
    }

    /** Evicts down to the new size; the count it returns is not capped by what is there. */
    method Resize(newSize: int) returns (evicted: int)
      requires Valid()
      modifies this
      ensures Valid() && View() == Apply(old(View()), Lru.Resize(newSize))
      ensures evicted == if |old(list)| > newSize then |old(list)| - newSize else 0
    {
      var diff := |list| - newSize;
      if diff < 0 {
        diff := 0;
      }
      ResizeCuts(View(), newSize);
      EvictMany(diff);
      SetSize(newSize);
      evicted := diff;
    }

    method SetSize(newSize: int)
      requires Valid()
      modifies this`size
      ensures Valid() && View() == old(View()).(size := newSize)
    {
      size := newSize;
    }

    method EvictMany(n: nat)
      requires Valid()
      modifies this
      ensures Valid() && View() == CutOldest(old(View()), n)
    {
      ghost var c := View();
      CutNone(c);
      for i := 0 to n
        invariant Valid() && View() == CutOldest(c, i)
      {
        CutOneMore(c, i);
        EvictOldest();
      }
    }

    /** The callback sees every entry once, in the index's own order. */
    method EvictAll()
      requires Valid()
      modifies this`evictions
      ensures Keys(evictions) == Keys(old(evictions)) + Keys(Entries(list, store)) && Valid()
      ensures old(evictions) <= evictions
      ensures forall i :: |old(evictions)| <= i < |evictions| ==> evictions[i] in Entries(list, store)
    {
      ghost var s := Entries(list, store);
      IndexKeys(list, items, store);
      var left := items.Keys;
      while left != {}
        invariant left <= items.Keys
        invariant Keys(evictions) + multiset(left) == Keys(old(evictions)) + Keys(s)
        invariant old(evictions) <= evictions
        invariant forall i :: |old(evictions)| <= i < |evictions| ==> evictions[i] in s
        decreases |left|
      {
        var k := PickKey(left);
        var e := store[items[k]];
        IndexedEntry(list, items, store, k);
        Logged(evictions, e, left);
        evictions := evictions + [e];
        left := left - {k};
      }
    }

    method Purge()
      requires Valid()
      modifies this
      ensures Valid() && View() == Apply(old(View()), Lru.Purge)
      ensures old(evictions) <= evictions
      ensures forall i :: |old(evictions)| <= i < |evictions| ==> evictions[i] in old(View()).entries
    {
      EvictAll();
      Unlink();
    }

    /** Forgets every entry without a word to the callback. */
    method Unlink()
      requires Valid()
      modifies this`items, this`list
      ensures Valid() && View() == old(View()).(entries := [])
    {
      items, list := map[], [];
      assert Entries(list, store) == [];
    }
  }

  lemma IndexedEntry(list: seq<Handle>, items: map<Key, Handle>, store: map<Handle, Entry>, k: Key)
    requires Linked(list, items, store) && k in items
    ensures store[items[k]] in Entries(list, store)
  {
    var j :| 0 <= j < |list| && list[j] == items[k];
    assert Entries(list, store)[j] == store[items[k]];
  }

  /** Go ranges over a map in no particular order. */
  method PickKey(keys: set<Key>) returns (k: Key)
    requires keys != {}
    ensures k in keys
  {
    k :| k in keys;
  }

  lemma Logged(log: seq<Entry>, e: Entry, keys: set<Key>)
    requires e.key in keys
    ensures Keys(log + [e]) + multiset(keys - {e.key}) == Keys(log) + multiset(keys)
  {
    KeysConcat(log, [e]);
    KeysOne(e);
    assert keys == (keys - {e.key}) + {e.key};
  }

  lemma IndexKeys(list: seq<Handle>, items: map<Key, Handle>, store: map<Handle, Entry>)
    requires Linked(list, items, store)
    ensures Keys(Entries(list, store)) == multiset(items.Keys)
  {
    var s := Entries(list, store);
    KeysAreSet(s);
    forall k | k in items
      ensures k in KeySet(s)
    {
      var j :| 0 <= j < |list| && list[j] == items[k];
      assert s[j].key == k;
    }
    forall k | k in KeySet(s)
      ensures k in items
    {
      var i :| 0 <= i < |s| && s[i].key == k;
      assert store[list[i]].key in items;
    }
    assert KeySet(s) == items.Keys;
  }

  lemma ResizeCuts(c: Cache, newSize: int)
    ensures
      var diff := |c.entries| - newSize;
      Apply(c, Lru.Resize(newSize)) == CutOldest(c, if diff < 0 then 0 else diff).(size := newSize)
  {
    assert Oldest(c.entries, |c.entries| - newSize) ==
           Oldest(c.entries, if |c.entries| - newSize < 0 then 0 else |c.entries| - newSize);
  }

  lemma CutNone(c: Cache)
    ensures CutOldest(c, 0) == c
    ensures c.entries == [] ==> CutOldest(c, 1) == c
  {
    assert c.entries[..|c.entries|] == c.entries;
    assert c.entries[|c.entries|..] == [];
  }

  lemma CutLast(c: Cache, log: seq<Entry>)
    requires c.entries != [] && DistinctKeys(c.entries) && Keys(log) == c.gone
    ensures
      var last := c.entries[|c.entries| - 1];
      CutOldest(c, 1) == c.(entries := Drop(c.entries, last.key), gone := Keys(log + [last]))
  {
    var n := |c.entries|;
    DropAt(c.entries, n - 1);
    assert c.entries[n - 1..] == [c.entries[n - 1]];
    KeysConcat(log, [c.entries[n - 1]]);
  }

  lemma CutOneMore(c: Cache, i: nat)
    ensures CutOldest(CutOldest(c, i), 1) == CutOldest(c, i + 1)
  {
    var s, n := c.entries, |c.entries|;
    if i < n {
      var keep := n - i;
      assert s[..keep][..keep - 1] == s[..keep - 1];
      assert s[keep - 1..] == s[..keep][keep - 1..] + s[keep..];
      KeysConcat(s[..keep][keep - 1..], s[keep..]);
      assert Keys(s[keep - 1..]) == Keys(s[..keep][keep - 1..]) + Keys(s[keep..]);
    } else {
      CutNone(CutOldest(c, i));
    }
  }
}
