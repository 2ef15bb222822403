/**
 The least-recently-used cache as a plain sequence of entries, most recent first: what each
 operation does, what a trace of them conserves, and how caches of different sizes compare.
 */
module Lru {
  import opened Options

  /** The cache holds values of any type; of keys it only needs equality. */
  datatype Key = Key(name: string)
  datatype Value = Value(content: string)

  datatype Entry = Entry(key: Key, value: Value)

  ghost predicate DistinctKeys(s: seq<Entry>) {
    forall i, j :: 0 <= i < j < |s| ==> s[i].key != s[j].key
  }

  function KeySet(s: seq<Entry>): set<Key> { set i | 0 <= i < |s| :: s[i].key }

  /** Where the key is, or |s|. */
  function Position(s: seq<Entry>, k: Key): (i: nat)
    ensures i <= |s| && (i < |s| ==> s[i].key == k)
    ensures forall j :: 0 <= j < i ==> s[j].key != k
  {
    if s == [] || s[0].key == k then 0 else 1 + Position(s[1..], k)
  }

  function Lookup(s: seq<Entry>, k: Key): Option<Value> {
    var i := Position(s, k);
    if i < |s| then Some(s[i].value) else None
  }

  /** Keys are distinct in a cache, so at most one entry goes. */
  function Drop(s: seq<Entry>, k: Key): (r: seq<Entry>)
    ensures |r| <= |s|
  {
    if s == [] then []
    else Drop(s[..|s| - 1], k) + (if s[|s| - 1].key == k then [] else [s[|s| - 1]])
  }

  /** A hit moves to the front; a miss changes nothing. */
  function Touch(s: seq<Entry>, k: Key): seq<Entry> {
    match Lookup(s, k)
    case Some(v) => [Entry(k, v)] + Drop(s, k)
    case None => s
  }

  /******* Traces *******/

  datatype Op =
    | Add(key: Key, value: Value)
    | Get(key: Key)
    | Peek(key: Key)
    | Contains(key: Key)
    | Remove(key: Key)
    | RemoveOldest
    | Resize(size: int)
    | Purge

  /** `gone` are the entries passed to the eviction callback, and `entered` the keys newly inserted. */
  datatype Cache = Cache(entries: seq<Entry>, size: int, gone: multiset<Key>, entered: multiset<Key>)

  function KeySeq(s: seq<Entry>): (keys: seq<Key>)
    ensures |keys| == |s|
  {
    seq(|s|, i requires 0 <= i < |s| => s[i].key)
  }

  function Keys(s: seq<Entry>): multiset<Key> { multiset(KeySeq(s)) }

  /** The oldest `n` entries go, or all there are. */
  function Oldest(s: seq<Entry>, n: int): nat {
    if n < 0 then 0 else if n > |s| then |s| else n
  }

  function CutOldest(c: Cache, n: int): Cache {
    var keep := |c.entries| - Oldest(c.entries, n);
    c.(entries := c.entries[..keep], gone := c.gone + Keys(c.entries[keep..]))
  }

  function Apply(c: Cache, op: Op): Cache {
    match op
    case Add(k, v) =>
      if Lookup(c.entries, k).Some? then c.(entries := [Entry(k, v)] + Drop(c.entries, k))
      else
        var c' := c.(entries := [Entry(k, v)] + c.entries, entered := c.entered + multiset{k});
        if |c'.entries| > c.size then CutOldest(c', 1) else c'
    case Get(k) => c.(entries := Touch(c.entries, k))
    case Peek(_) => c
    case Contains(_) => c
    case Remove(k) =>
      if Lookup(c.entries, k).Some? then c.(entries := Drop(c.entries, k), gone := c.gone + multiset{k}) else c
    case RemoveOldest => CutOldest(c, 1)
    case Resize(size) => CutOldest(c, |c.entries| - size).(size := size)
    case Purge => c.(entries := [], gone := c.gone + Keys(c.entries))
  }

  function Run(c: Cache, ops: seq<Op>): Cache {
    if ops == [] then c else Apply(Run(c, ops[..|ops| - 1]), ops[|ops| - 1])
  }

  function Empty(size: int): Cache { Cache([], size, multiset{}, multiset{}) }

  /******* No duplicates, bounded size, conservation *******/

  lemma KeysConcat(a: seq<Entry>, b: seq<Entry>)
    ensures Keys(a + b) == Keys(a) + Keys(b)
  {
    assert KeySeq(a + b) == KeySeq(a) + KeySeq(b);
  }

  lemma KeysOne(e: Entry)
    ensures Keys([e]) == multiset{e.key}
  {
    assert KeySeq([e]) == [e.key];
  }

  lemma {:induction false} DropMembers(s: seq<Entry>, k: Key)
    ensures forall e :: e in Drop(s, k) <==> e in s && e.key != k
  {
    if s != [] {
      DropMembers(s[..|s| - 1], k);
      assert s == s[..|s| - 1] + [s[|s| - 1]];
    }
  }

  lemma {:induction false} DropAbsent(s: seq<Entry>, k: Key)
    requires Lookup(s, k).None?
    ensures Drop(s, k) == s
  {
    if s != [] {
      PositionSnoc(s[..|s| - 1], s[|s| - 1], k);
      assert s == s[..|s| - 1] + [s[|s| - 1]];
      DropAbsent(s[..|s| - 1], k);
    }
  }

  lemma DistinctSnoc(s: seq<Entry>, e: Entry)
    ensures DistinctKeys(s + [e]) <==> DistinctKeys(s) && Position(s, e.key) == |s|
  {
    if DistinctKeys(s) && Position(s, e.key) == |s| {
      assert forall i :: 0 <= i < |s| ==> s[i].key != e.key;
    }
    if DistinctKeys(s + [e]) {
      assert forall i :: 0 <= i < |s| ==> (s + [e])[i] == s[i] && (s + [e])[|s|] == e;
    }
  }

  lemma LookupAbsent(s: seq<Entry>, k: Key)
    requires forall e :: e in s ==> e.key != k
    ensures Lookup(s, k).None?
  {
    assert forall i :: 0 <= i < |s| ==> s[i] in s;
  }

  lemma {:induction false} DropKeepsDistinct(s: seq<Entry>, k: Key)
    requires DistinctKeys(s)
    ensures DistinctKeys(Drop(s, k)) && Lookup(Drop(s, k), k).None?
  {
    DropMembers(s, k);
    LookupAbsent(Drop(s, k), k);
    if s != [] {
      var init, last := s[..|s| - 1], s[|s| - 1];
      assert s == init + [last];
      DistinctSnoc(init, last);
      DropKeepsDistinct(init, k);
      DropMembers(init, k);
      LookupAbsent(Drop(init, k), last.key);
      DistinctSnoc(Drop(init, k), last);
    }
  }

  lemma {:induction false} DropSize(s: seq<Entry>, k: Key)
    requires DistinctKeys(s) && Lookup(s, k).Some?
    ensures |Drop(s, k)| == |s| - 1
  {
    var init, last := s[..|s| - 1], s[|s| - 1];
    FoundInInit(s, k);
    if last.key == k {
      DropAbsent(init, k);
    } else {
      DropSize(init, k);
    }
  }

  /** Where the key of a list without repeats is: at its end, or before it and only there. */
  lemma FoundInInit(s: seq<Entry>, k: Key)
    requires DistinctKeys(s) && Lookup(s, k).Some?
    ensures s != [] && DistinctKeys(s[..|s| - 1])
    ensures Lookup(s[..|s| - 1], k).Some? <==> s[|s| - 1].key != k
  {
    var init, last := s[..|s| - 1], s[|s| - 1];
    assert s == init + [last];
    PositionSnoc(init, last, k);
    DistinctSnoc(init, last);
  }

  /** With distinct keys, taking out the entry at an index is dropping its key. */
  lemma {:induction false} DropAt(s: seq<Entry>, i: nat)
    requires DistinctKeys(s) && i < |s|
    ensures Drop(s, s[i].key) == s[..i] + s[i + 1..]
    ensures Lookup(s, s[i].key) == Some(s[i].value)
  {
    LookupAt(s, i);
    FoundInInit(s, s[i].key);
    var init, last := s[..|s| - 1], s[|s| - 1];
    if i == |s| - 1 {
      DropAbsent(init, last.key);
    } else {
      assert init[i] == s[i];
      DropAt(init, i);
      assert s[..i] + s[i + 1..] == init[..i] + init[i + 1..] + [last];
    }
  }

  lemma LookupAt(s: seq<Entry>, i: nat)
    requires DistinctKeys(s) && i < |s|
    ensures Lookup(s, s[i].key) == Some(s[i].value)
  {
    assert Position(s, s[i].key) == i;
  }

  lemma KeysDrop(s: seq<Entry>, k: Key)
    requires DistinctKeys(s) && Lookup(s, k).Some?
    ensures Keys(s) == Keys(Drop(s, k)) + multiset{k}
  {
    var i := Position(s, k);
    DropAt(s, i);
    assert s == s[..i] + [s[i]] + s[i + 1..];
    KeysConcat(s[..i] + [s[i]], s[i + 1..]);
    KeysConcat(s[..i], [s[i]]);
    KeysOne(s[i]);
    KeysConcat(s[..i], s[i + 1..]);
  }

  /** Moving an entry to the front, with whatever value, keeps the keys. */
  lemma MoveConserves(s: seq<Entry>, e: Entry)
    requires DistinctKeys(s) && Lookup(s, e.key).Some?
    ensures Keys([e] + Drop(s, e.key)) == Keys(s)
  {
    KeysDrop(s, e.key);
    FrontConserves(Drop(s, e.key), e);
  }

  ghost predicate Conserved(c: Cache) { c.entered == Keys(c.entries) + c.gone }

  lemma CutConserves(c: Cache, n: int)
    requires Conserved(c)
    ensures Conserved(CutOldest(c, n))
  {
    var keep := |c.entries| - Oldest(c.entries, n);
    assert c.entries == c.entries[..keep] + c.entries[keep..];
    KeysConcat(c.entries[..keep], c.entries[keep..]);
  }

  lemma FrontConserves(s: seq<Entry>, e: Entry)
    ensures Keys([e] + s) == multiset{e.key} + Keys(s)
  {
    KeysConcat([e], s);
    KeysOne(e);
  }

  lemma AddConserves(c: Cache, k: Key, v: Value)
    requires Conserved(c) && DistinctKeys(c.entries)
    ensures Conserved(Apply(c, Add(k, v)))
  {
    if Lookup(c.entries, k).Some? {
      MoveConserves(c.entries, Entry(k, v));
    } else {
      FrontConserves(c.entries, Entry(k, v));
      CutConserves(c.(entries := [Entry(k, v)] + c.entries, entered := c.entered + multiset{k}), 1);
    }
  }

  lemma ApplyConserves(c: Cache, op: Op)
    requires Conserved(c) && DistinctKeys(c.entries)
    ensures Conserved(Apply(c, op))
  {
    match op
    case Add(k, v) => AddConserves(c, k, v);
    case Get(k) =>
      if Lookup(c.entries, k).Some? {
        MoveConserves(c.entries, Entry(k, Lookup(c.entries, k).value));
      }
    case Remove(k) =>
      if Lookup(c.entries, k).Some? {
        KeysDrop(c.entries, k);
      }
    case RemoveOldest => CutConserves(c, 1);
    case Resize(size) => CutConserves(c, |c.entries| - size);
    case _ =>
  }

  lemma DistinctCons(s: seq<Entry>, e: Entry)
    requires DistinctKeys(s) && Lookup(s, e.key).None?
    ensures DistinctKeys([e] + s)
  {
  }

  lemma ApplyKeepsDistinct(c: Cache, op: Op)
    requires DistinctKeys(c.entries)
    ensures DistinctKeys(Apply(c, op).entries)
  {
    match op
    case Add(k, v) =>
      DropKeepsDistinct(c.entries, k);
      if Lookup(c.entries, k).Some? {
        DistinctCons(Drop(c.entries, k), Entry(k, v));
      } else {
        DistinctCons(c.entries, Entry(k, v));
      }
    case Get(k) =>
      DropKeepsDistinct(c.entries, k);
      if Lookup(c.entries, k).Some? {
        DistinctCons(Drop(c.entries, k), Entry(k, Lookup(c.entries, k).value));
      }
    case Remove(k) => DropKeepsDistinct(c.entries, k);
    case _ =>
  }

  /**
   In every trace the keys in the cache are distinct, and the keys that were inserted are
   those present plus those passed to the callback.
   */
  lemma {:induction false} TraceConserves(size: int, ops: seq<Op>)
    ensures Conserved(Run(Empty(size), ops)) && DistinctKeys(Run(Empty(size), ops).entries)
  {
    if ops != [] {
      TraceConserves(size, ops[..|ops| - 1]);
      ApplyConserves(Run(Empty(size), ops[..|ops| - 1]), ops[|ops| - 1]);
      ApplyKeepsDistinct(Run(Empty(size), ops[..|ops| - 1]), ops[|ops| - 1]);
    }
  }

  ghost predicate Positive(ops: seq<Op>) {
    forall op :: op in ops && op.Resize? ==> op.size > 0
  }

  /** In every trace with positive sizes the size is respected. */
  lemma {:induction false} TraceBounded(size: int, ops: seq<Op>)
    requires size > 0 && Positive(ops)
    ensures Shaped(Run(Empty(size), ops))
  {
    if ops != [] {
      var init, last := ops[..|ops| - 1], ops[|ops| - 1];
      assert last in ops && forall op :: op in init ==> op in ops;
      TraceBounded(size, init);
      var c := Run(Empty(size), init);
      ApplyKeepsDistinct(c, last);
      ApplyBounded(c, last);
    }
  }

  lemma ApplyBounded(c: Cache, op: Op)
    requires Shaped(c) && (op.Resize? ==> op.size > 0)
    ensures |Apply(c, op).entries| <= Apply(c, op).size && Apply(c, op).size > 0
  {
    if (op.Add? || op.Get?) && Lookup(c.entries, op.key).Some? {
      DropSize(c.entries, op.key);
    }
  }

  ghost predicate Shaped(c: Cache) { DistinctKeys(c.entries) && |c.entries| <= c.size && c.size > 0 }

  /******* Inclusion *******/

  /** `a` is a subsequence of `b`. */
  ghost predicate Sub<T>(a: seq<T>, b: seq<T>) {
    if a == [] then true
    else if b == [] then false
    else if a[|a| - 1] == b[|b| - 1] && Sub(a[..|a| - 1], b[..|b| - 1]) then true
    else Sub(a, b[..|b| - 1])
  }

  lemma {:induction false} SubRefl<T>(a: seq<T>)
    ensures Sub(a, a)
  {
    if a != [] {
      SubRefl(a[..|a| - 1]);
    }
  }

  lemma {:induction false} SubShorter<T>(a: seq<T>, b: seq<T>)
    requires Sub(a, b) && a != []
    ensures Sub(a[..|a| - 1], b)
  {
    if a[|a| - 1] == b[|b| - 1] && Sub(a[..|a| - 1], b[..|b| - 1]) {
      SubSnoc(a[..|a| - 1], b[..|b| - 1], b[|b| - 1]);
      assert b == b[..|b| - 1] + [b[|b| - 1]];
    } else {
      SubShorter(a, b[..|b| - 1]);
      SubSnoc(a[..|a| - 1], b[..|b| - 1], b[|b| - 1]);
      assert b == b[..|b| - 1] + [b[|b| - 1]];
    }
  }

  lemma {:induction false} SubSnoc<T>(a: seq<T>, b: seq<T>, x: T)
    requires Sub(a, b)
    ensures Sub(a, b + [x])
  {
    assert (b + [x])[..|b|] == b;
  }

  lemma {:induction false} SubMembers<T>(a: seq<T>, b: seq<T>)
    requires Sub(a, b)
    ensures forall x :: x in a ==> x in b
    ensures |a| <= |b|
  {
    if a != [] {
      assert b == b[..|b| - 1] + [b[|b| - 1]] && a == a[..|a| - 1] + [a[|a| - 1]];
      if a[|a| - 1] == b[|b| - 1] && Sub(a[..|a| - 1], b[..|b| - 1]) {
        SubMembers(a[..|a| - 1], b[..|b| - 1]);
      } else {
        SubMembers(a, b[..|b| - 1]);
      }
    }
  }

  lemma {:induction false} SubCons<T>(a: seq<T>, b: seq<T>, x: T)
    requires Sub(a, b)
    ensures Sub([x] + a, [x] + b) && Sub(a, [x] + b)
  {
    if b == [] {
      assert a == [] && [x] + a == [x] + b;
      SubRefl([x]);
    } else {
      assert ([x] + b)[..|b|] == [x] + b[..|b| - 1];
      if a == [] {
        SubCons([], b[..|b| - 1], x);
        assert [x] + a == [x];
      } else {
        assert ([x] + a)[..|a|] == [x] + a[..|a| - 1];
        if a[|a| - 1] == b[|b| - 1] && Sub(a[..|a| - 1], b[..|b| - 1]) {
          SubCons(a[..|a| - 1], b[..|b| - 1], x);
        } else {
          SubCons(a, b[..|b| - 1], x);
        }
      }
    }
  }

  lemma {:induction false} SubDrop(a: seq<Entry>, b: seq<Entry>, k: Key)
    requires Sub(a, b)
    ensures Sub(Drop(a, k), Drop(b, k))
    decreases |b|
  {
    if b != [] && a != [] {
      var a0, b0, y := a[..|a| - 1], b[..|b| - 1], b[|b| - 1];
      assert Drop(b, k) == if y.key == k then Drop(b0, k) else Drop(b0, k) + [y];
      if a[|a| - 1] == y && Sub(a0, b0) {
        assert Drop(a, k) == if y.key == k then Drop(a0, k) else Drop(a0, k) + [y];
        SubDrop(a0, b0, k);
        SubSnocBoth(Drop(a0, k), Drop(b0, k), y);
      } else {
        SubDrop(a, b0, k);
        SubSnoc(Drop(a, k), Drop(b0, k), y);
      }
    }
  }

  lemma SubSnocBoth<T>(a: seq<T>, b: seq<T>, x: T)
    requires Sub(a, b)
    ensures Sub(a + [x], b + [x])
  {
    assert (a + [x])[..|a|] == a && (b + [x])[..|b|] == b;
  }

  lemma {:induction false} PositionSnoc(s: seq<Entry>, e: Entry, k: Key)
    ensures Position(s + [e], k) ==
            if Position(s, k) < |s| then Position(s, k) else if e.key == k then |s| else |s| + 1
  {
    if s != [] && s[0].key != k {
      assert (s + [e])[1..] == s[1..] + [e];
      PositionSnoc(s[1..], e, k);
    } else if s == [] {
      assert s + [e] == [e] && [e][1..] == [];
    }
  }

  /** The smaller cache's order is part of the larger's, and equal to it until the smaller is full. */
  ghost predicate Included(small: Cache, large: Cache) {
    && Sub(small.entries, large.entries)
    && (|small.entries| < small.size ==> small.entries == large.entries)
  }

  predicate Querying(op: Op) { op.Add? || op.Get? || op.Peek? || op.Contains? }

  lemma LookupFound(s: seq<Entry>, i: nat)
    requires DistinctKeys(s) && i < |s|
    ensures Lookup(s, s[i].key) == Some(s[i].value)
  {
  }

  /** A hit in the smaller cache is a hit in the larger one, with the same value. */
  lemma HitIncluded(a: seq<Entry>, b: seq<Entry>, k: Key)
    requires Sub(a, b) && DistinctKeys(b) && Lookup(a, k).Some?
    ensures Lookup(b, k) == Lookup(a, k)
  {
    SubMembers(a, b);
    assert a[Position(a, k)] in b;
    var i :| 0 <= i < |b| && b[i] == a[Position(a, k)];
    LookupFound(b, i);
  }

  lemma GetKeepsIncluded(small: Cache, large: Cache, k: Key)
    requires Shaped(small) && Shaped(large) && small.size <= large.size && Included(small, large)
    ensures Included(Apply(small, Get(k)), Apply(large, Get(k)))
  {
    var a, b := small.entries, large.entries;
    SubDrop(a, b, k);
    if Lookup(a, k).Some? {
      HitIncluded(a, b, k);
      DropSize(a, k);
      SubCons(Drop(a, k), Drop(b, k), Entry(k, Lookup(a, k).value));
    } else {
      DropAbsent(a, k);
      if Lookup(b, k).Some? {
        SubCons(Drop(a, k), Drop(b, k), Entry(k, Lookup(b, k).value));
      }
    }
  }

  lemma AddHitKeepsIncluded(small: Cache, large: Cache, k: Key, v: Value)
    requires Shaped(small) && Shaped(large) && small.size <= large.size && Included(small, large)
    requires Lookup(small.entries, k).Some?
    ensures Included(Apply(small, Add(k, v)), Apply(large, Add(k, v)))
  {
    var a, b := small.entries, large.entries;
    HitIncluded(a, b, k);
    DropSize(a, k);
    SubDrop(a, b, k);
    SubCons(Drop(a, k), Drop(b, k), Entry(k, v));
  }

  /** What a miss leaves in the cache. */
  function Pushed(s: seq<Entry>, size: int, e: Entry): seq<Entry>
    requires size > 0
  {
    if |s| >= size then [e] + s[..|s| - 1] else [e] + s
  }

  lemma AddMiss(c: Cache, k: Key, v: Value)
    requires Shaped(c) && Lookup(c.entries, k).None?
    ensures Apply(c, Add(k, v)).entries == Pushed(c.entries, c.size, Entry(k, v))
  {
  }

  lemma PushBoth(a: seq<Entry>, b: seq<Entry>, n: int, m: int, e: Entry)
    requires 0 < n <= m && |a| <= n && |b| <= m && Sub(a, b) && (|a| < n ==> a == b)
    requires DistinctKeys(a) && DistinctKeys(b)
    ensures Sub(Pushed(a, n, e), Pushed(b, m, e))
    ensures |Pushed(a, n, e)| < n ==> Pushed(a, n, e) == Pushed(b, m, e)
  {
    if |a| < n {
      SubRefl(Pushed(a, n, e));
    } else if |b| == m {
      CutBoth(a, b);
      SubCons(a[..|a| - 1], b[..|b| - 1], e);
    } else {
      SubShorter(a, b);
      SubCons(a[..|a| - 1], b, e);
    }
  }

  lemma PushSmall(a: seq<Entry>, b: seq<Entry>, n: int, e: Entry)
    requires 0 < n == |a| && Sub(a, b) && Lookup(a, e.key).None?
    ensures Sub(Pushed(a, n, e), [e] + Drop(b, e.key))
  {
    SubDrop(a, b, e.key);
    DropAbsent(a, e.key);
    SubShorter(a, Drop(b, e.key));
    SubCons(a[..|a| - 1], Drop(b, e.key), e);
  }

  lemma AddMissKeepsIncluded(small: Cache, large: Cache, k: Key, v: Value)
    requires Shaped(small) && Shaped(large) && small.size <= large.size && Included(small, large)
    requires Lookup(small.entries, k).None?
    ensures Included(Apply(small, Add(k, v)), Apply(large, Add(k, v)))
  {
    AddMiss(small, k, v);
    if Lookup(large.entries, k).Some? {
      PushSmall(small.entries, large.entries, small.size, Entry(k, v));
    } else {
      AddMiss(large, k, v);
      PushBoth(small.entries, large.entries, small.size, large.size, Entry(k, v));
    }
  }

  lemma CutBoth(a: seq<Entry>, b: seq<Entry>)
    requires Sub(a, b) && a != [] && b != [] && DistinctKeys(a) && DistinctKeys(b)
    ensures Sub(a[..|a| - 1], b[..|b| - 1])
  {
    if a[|a| - 1] == b[|b| - 1] && Sub(a[..|a| - 1], b[..|b| - 1]) {
    } else {
      SubShorter(a, b[..|b| - 1]);
    }
  }

  lemma StepKeepsIncluded(small: Cache, large: Cache, op: Op)
    requires Shaped(small) && Shaped(large) && small.size <= large.size && Included(small, large)
    requires Querying(op)
    ensures Included(Apply(small, op), Apply(large, op))
    ensures Apply(small, op).size == small.size && Apply(large, op).size == large.size
  {
    match op
    case Add(k, v) =>
      if Lookup(small.entries, k).Some? {
        AddHitKeepsIncluded(small, large, k, v);
      } else {
        AddMissKeepsIncluded(small, large, k, v);
      }
    case Get(k) => GetKeepsIncluded(small, large, k);
    case Peek(_) =>
    case Contains(_) =>
  }

  /**
   Inclusion: for every trace of Add, Get, Peek and Contains from empty caches of sizes
   n <= m, the smaller cache's recency order is a subsequence of the larger's with equal
   values, and the two are the same until the smaller one is full.
   */
  lemma {:induction false} TraceIncluded(n: int, m: int, ops: seq<Op>)
    requires 0 < n <= m && forall op :: op in ops ==> Querying(op)
    ensures Included(Run(Empty(n), ops), Run(Empty(m), ops))
    ensures Run(Empty(n), ops).size == n && Run(Empty(m), ops).size == m
  {
    if ops != [] {
      var init, last := ops[..|ops| - 1], ops[|ops| - 1];
      assert last in ops && forall op :: op in init ==> op in ops;
      TraceIncluded(n, m, init);
      TraceBounded(n, init);
      TraceBounded(m, init);
      StepKeepsIncluded(Run(Empty(n), init), Run(Empty(m), init), last);
    }
  }

  /******* Facts for the implementation *******/

  lemma KeySetSnoc(s: seq<Entry>, e: Entry)
    ensures KeySet(s + [e]) == KeySet(s) + {e.key}
  {
    var t := s + [e];
    assert forall i :: 0 <= i < |s| ==> t[i].key == s[i].key;
    assert t[|s|].key == e.key;
    forall k | k in KeySet(s)
      ensures k in KeySet(t)
    {
      var i :| 0 <= i < |s| && s[i].key == k;
      assert t[i].key == k;
    }
  }

  lemma {:induction false} KeysAreSet(s: seq<Entry>)
    requires DistinctKeys(s)
    ensures Keys(s) == multiset(KeySet(s))
  {
    if s != [] {
      var init, last := s[..|s| - 1], s[|s| - 1];
      assert s == init + [last];
      DistinctSnoc(init, last);
      KeysAreSet(init);
      KeysConcat(init, [last]);
      KeysOne(last);
      KeySetSnoc(init, last);
      assert last.key !in KeySet(init);
    }
  }
}
