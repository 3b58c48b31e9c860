// The chained hash table as a value: the bucket array with its chains, exactly
// as it is laid out in memory, and the functions its operations compute.
module Tables {
  import opened Bytes
  import opened Wrappers

  type Key = uint64

  datatype KV<+V> = KV(key: Key, value: V)

  datatype Table<+V> = Table(buckets: seq<seq<KV<V>>>)

  // ---------- Operations ----------

  function Flatten<T>(ss: seq<seq<T>>): seq<T> {
    if ss == [] then [] else ss[0] + Flatten(ss[1..])
  }

  // Every element, in iteration order: bucket by bucket, each chain from its head.
  function Entries<V>(t: Table<V>): seq<KV<V>> { Flatten(t.buckets) }

  function NumElements<V>(t: Table<V>): nat { |Entries(t)| }

  // The position of the first element with this key; |c| when there is none.
  function IndexIn<V>(c: seq<KV<V>>, key: Key): (i: nat)
    ensures i <= |c|
    ensures i < |c| ==> c[i].key == key
    ensures forall j :: 0 <= j < i ==> c[j].key != key
  {
    if c == [] || c[0].key == key then 0 else 1 + IndexIn(c[1..], key)
  }

  predicate HasBuckets<V>(t: Table<V>) { |t.buckets| > 0 }

  function BucketNum<V>(t: Table<V>, key: Key): (b: nat)
    requires HasBuckets(t)
    ensures b < |t.buckets|
  {
    key % |t.buckets|
  }

  function Find<V>(t: Table<V>, key: Key): Option<V>
    requires HasBuckets(t)
  {
    var c := t.buckets[BucketNum(t, key)];
    var i := IndexIn(c, key);
    if i < |c| then Some(c[i].value) else None
  }

  function Allocate<V>(n: nat): Table<V> { Table(seq(n, _ => [])) }

  // Insertion without the load-factor check: replace in place, or append to the chain.
  function Put<V>(t: Table<V>, kv: KV<V>): (r: Table<V>)
    requires HasBuckets(t)
    ensures |r.buckets| == |t.buckets|
  {
    var b := BucketNum(t, kv.key);
    var c := t.buckets[b];
    var i := IndexIn(c, kv.key);
    Table(t.buckets[b := if i < |c| then c[i := kv] else c + [kv]])
  }

  function PutAll<V>(t: Table<V>, es: seq<KV<V>>): (r: Table<V>)
    requires HasBuckets(t)
    ensures |r.buckets| == |t.buckets|
  {
    if es == [] then t else Put(PutAll(t, es[..|es| - 1]), es[|es| - 1])
  }

  function MaybeResize<V>(t: Table<V>): (r: Table<V>)
    requires HasBuckets(t)
    ensures HasBuckets(r)
  {
    if NumElements(t) < 3 * |t.buckets| then t
    else PutAll(Allocate(9 * |t.buckets|), Entries(t))
  }

  function Insert<V>(t: Table<V>, kv: KV<V>): (r: Table<V>)
    requires HasBuckets(t)
    ensures HasBuckets(r)
  {
    Put(MaybeResize(t), kv)
  }

  function Delete<T>(c: seq<T>, i: nat): (r: seq<T>)
    requires i < |c|
    ensures |r| == |c| - 1
  {
    c[..i] + c[i + 1..]
  }

  function Remove<V>(t: Table<V>, key: Key): (r: Table<V>)
    requires HasBuckets(t)
    ensures |r.buckets| == |t.buckets|
  {
    var b := BucketNum(t, key);
    var c := t.buckets[b];
    var i := IndexIn(c, key);
    if i < |c| then Table(t.buckets[b := Delete(c, i)]) else t
  }

  // ---------- Invariant ----------

  ghost predicate Distinct<V>(c: seq<KV<V>>) {
    forall i, j :: 0 <= i < j < |c| ==> c[i].key != c[j].key
  }

  ghost predicate ChainOk<V>(c: seq<KV<V>>, n: nat, b: nat)
    requires n > 0
  {
    Distinct(c) && forall i :: 0 <= i < |c| ==> c[i].key % n == b
  }

  // Each key sits once, in bucket key mod num_buckets.
  ghost predicate Placed<V>(t: Table<V>) {
    HasBuckets(t) && forall b :: 0 <= b < |t.buckets| ==> ChainOk(t.buckets[b], |t.buckets|, b)
  }

  // ... and the load factor never exceeds 3.
  ghost predicate Wf<V>(t: Table<V>)
    ensures Wf(t) ==> HasBuckets(t)
  {
    Placed(t) && NumElements(t) <= 3 * |t.buckets|
  }

  // ---------- Flattening ----------

  lemma {:induction false} FlattenAt<T>(ss: seq<seq<T>>, b: nat, i: nat)
    requires b < |ss| && i < |ss[b]|
    ensures ss[b][i] in Flatten(ss)
  {
    if b == 0 {
      assert Flatten(ss)[i] == ss[0][i];
    } else {
      FlattenAt(ss[1..], b - 1, i);
    }
  }

  lemma {:induction false} FlattenWhere<T>(ss: seq<seq<T>>, x: T) returns (b: nat, i: nat)
    requires x in Flatten(ss)
    ensures b < |ss| && i < |ss[b]| && ss[b][i] == x
  {
    if x in ss[0] {
      b := 0;
      i :| 0 <= i < |ss[0]| && ss[0][i] == x;
    } else {
      b, i := FlattenWhere(ss[1..], x);
      b := b + 1;
    }
  }

  lemma {:induction false} FlattenUpdate<T>(ss: seq<seq<T>>, b: nat, c: seq<T>)
    requires b < |ss|
    ensures |Flatten(ss[b := c])| == |Flatten(ss)| - |ss[b]| + |c|
  {
    if b == 0 {
      assert ss[0 := c][1..] == ss[1..];
    } else {
      FlattenUpdate(ss[1..], b - 1, c);
      assert ss[b := c][1..] == ss[1..][b - 1 := c];
    }
  }

  lemma {:induction false} FlattenDistinct<V>(ss: seq<seq<KV<V>>>, n: nat, base: nat)
    requires n > 0
    requires forall b :: 0 <= b < |ss| ==> ChainOk(ss[b], n, base + b)
    ensures Distinct(Flatten(ss))
    ensures forall i :: 0 <= i < |Flatten(ss)| ==> Flatten(ss)[i].key % n >= base
  {
    if ss != [] {
      assert forall b {:trigger ss[1..][b]} :: 0 <= b < |ss| - 1 ==> ss[1..][b] == ss[b + 1];
      FlattenDistinct(ss[1..], n, base + 1);
      assert ChainOk(ss[0], n, base);
    }
  }

  // The iteration lists each key at most once ...
  lemma EntriesDistinct<V>(t: Table<V>)
    requires Placed(t)
    ensures Distinct(Entries(t))
  {
    FlattenDistinct(t.buckets, |t.buckets|, 0);
  }

  // ... and lists exactly the pairs that lookups find.
  lemma EntriesAreFound<V>(t: Table<V>, kv: KV<V>)
    requires Placed(t)
    ensures kv in Entries(t) <==> Find(t, kv.key) == Some(kv.value)
  {
    var b := BucketNum(t, kv.key);
    var c := t.buckets[b];
    assert ChainOk(c, |t.buckets|, b);
    var i := IndexIn(c, kv.key);
    if kv in Entries(t) {
      var b', i' := FlattenWhere(t.buckets, kv);
      assert ChainOk(t.buckets[b'], |t.buckets|, b');
    } else if i < |c| {
      FlattenAt(t.buckets, b, i);
      assert c[i] == KV(kv.key, c[i].value);
    }
  }

  // ---------- The table as a finite map ----------

  ghost function KeySet<V>(t: Table<V>): set<Key> {
    set i | 0 <= i < |Entries(t)| :: Entries(t)[i].key
  }

  lemma KeySetIsFound<V>(t: Table<V>, key: Key)
    requires Placed(t)
    ensures key in KeySet(t) <==> Find(t, key).Some?
  {
    if key in KeySet(t) {
      var i :| 0 <= i < |Entries(t)| && Entries(t)[i].key == key;
      EntriesAreFound(t, Entries(t)[i]);
    }
    if Find(t, key).Some? {
      EntriesAreFound(t, KV(key, Find(t, key).value));
      var i :| 0 <= i < |Entries(t)| && Entries(t)[i] == KV(key, Find(t, key).value);
      assert Entries(t)[i].key == key;
    }
  }

  function Lookup<V>(m: map<Key, V>, key: Key): Option<V> {
    if key in m then Some(m[key]) else None
  }

  ghost predicate Represents<V>(t: Table<V>, m: map<Key, V>) {
    Wf(t) && |m| == NumElements(t) && forall k: Key :: Find(t, k) == Lookup(m, k)
  }

  lemma {:induction false} DistinctKeyCount<V>(es: seq<KV<V>>, keys: set<Key>)
    requires Distinct(es)
    requires keys == set i | 0 <= i < |es| :: es[i].key
    ensures |keys| == |es|
  {
    if es != [] {
      var front := es[..|es| - 1];
      var rest := set i | 0 <= i < |front| :: front[i].key;
      assert keys == rest + {es[|es| - 1].key} by {
        forall k | k in keys ensures k in rest + {es[|es| - 1].key} {
          var i :| 0 <= i < |es| && es[i].key == k;
          if i < |front| { assert front[i].key == k; }
        }
        forall k | k in rest ensures k in keys {
          var i :| 0 <= i < |front| && front[i].key == k;
          assert es[i].key == k;
        }
      }
      assert es[|es| - 1].key !in rest;
      DistinctKeyCount(front, rest);
    } else {
      assert keys == {};
    }
  }

  // A table with these lookups has as many elements as the map has keys.
  lemma RepresentsIntro<V>(t: Table<V>, m: map<Key, V>)
    requires Wf(t)
    requires forall k: Key :: Find(t, k) == Lookup(m, k)
    ensures Represents(t, m)
  {
    EntriesDistinct(t);
    DistinctKeyCount(Entries(t), KeySet(t));
    forall k: Key ensures k in KeySet(t) <==> k in m { KeySetIsFound(t, k); }
    assert KeySet(t) == m.Keys;
  }

  // ---------- What each operation does to the lookups ----------

  lemma {:induction false} FlattenEmpties<T>(ss: seq<seq<T>>)
    requires forall b :: 0 <= b < |ss| ==> ss[b] == []
    ensures Flatten(ss) == []
  {
    if ss != [] { FlattenEmpties(ss[1..]); }
  }

  lemma IndexInUnique<V>(c: seq<KV<V>>, key: Key, i: nat)
    requires Distinct(c) && i < |c| && c[i].key == key
    ensures IndexIn(c, key) == i
  {
  }

  lemma PutFinds<V>(t: Table<V>, kv: KV<V>)
    requires Placed(t)
    ensures Placed(Put(t, kv))
    ensures forall k: Key :: Find(Put(t, kv), k) == if k == kv.key then Some(kv.value) else Find(t, k)
    ensures NumElements(Put(t, kv)) == NumElements(t) + (if Find(t, kv.key).Some? then 0 else 1)
  {
    var b := BucketNum(t, kv.key);
    var c := t.buckets[b];
    var i := IndexIn(c, kv.key);
    var c' := if i < |c| then c[i := kv] else c + [kv];
    var t' := Put(t, kv);
    assert ChainOk(c, |t.buckets|, b);
    assert ChainOk(c', |t.buckets|, b);
    forall b' | 0 <= b' < |t'.buckets| ensures ChainOk(t'.buckets[b'], |t'.buckets|, b') {
      assert ChainOk(t.buckets[b'], |t.buckets|, b');
    }
    forall k: Key ensures Find(t', k) == if k == kv.key then Some(kv.value) else Find(t, k) {
      if BucketNum(t, k) == b {
        PutChainFinds(c, kv, k);
      }
    }
    FlattenUpdate(t.buckets, b, c');
  }

  lemma PutChainFinds<V>(c: seq<KV<V>>, kv: KV<V>, k: Key)
    requires Distinct(c)
    ensures var i := IndexIn(c, kv.key);
            var c' := if i < |c| then c[i := kv] else c + [kv];
            var j, j' := IndexIn(c, k), IndexIn(c', k);
            if k == kv.key then j' < |c'| && c'[j'].value == kv.value
            else if j < |c| then j' == j && c'[j'] == c[j]
            else j' == |c'|
  {
  }

  lemma RemoveFinds<V>(t: Table<V>, key: Key)
    requires Placed(t)
    ensures Placed(Remove(t, key))
    ensures forall k: Key :: Find(Remove(t, key), k) == if k == key then None else Find(t, k)
    ensures NumElements(Remove(t, key)) == NumElements(t) - (if Find(t, key).Some? then 1 else 0)
  {
    var b := BucketNum(t, key);
    var c := t.buckets[b];
    var i := IndexIn(c, key);
    assert ChainOk(c, |t.buckets|, b);
    if i < |c| {
      var c' := Delete(c, i);
      var t' := Remove(t, key);
      assert ChainOk(c', |t.buckets|, b);
      forall b' | 0 <= b' < |t'.buckets| ensures ChainOk(t'.buckets[b'], |t'.buckets|, b') {
        assert ChainOk(t.buckets[b'], |t.buckets|, b');
      }
      forall k: Key ensures Find(t', k) == if k == key then None else Find(t, k) {
        if BucketNum(t, k) == b {
          var j := IndexIn(c, k);
          if k != key && j < |c| {
            IndexInUnique(c', k, if j < i then j else j - 1);
          } else if k != key {
            assert forall j' :: 0 <= j' < |c'| ==> c'[j'] in c;
          }
        }
      }
      FlattenUpdate(t.buckets, b, c');
    }
  }

  // Lookup in a plain list of elements.
  function LookIn<V>(es: seq<KV<V>>, key: Key): Option<V> {
    var i := IndexIn(es, key);
    if i < |es| then Some(es[i].value) else None
  }

  lemma LookInSnoc<V>(es: seq<KV<V>>, last: KV<V>, key: Key)
    requires Distinct(es + [last])
    ensures LookIn(es + [last], key) == if key == last.key then Some(last.value) else LookIn(es, key)
    ensures LookIn(es, last.key) == None
  {
    var all := es + [last];
    assert forall j {:trigger es[j]} :: 0 <= j < |es| ==> all[j] == es[j] && es[j].key != all[|es|].key;
    if key == last.key {
      IndexInUnique(all, key, |es|);
    } else if IndexIn(es, key) < |es| {
      IndexInUnique(all, key, IndexIn(es, key));
    }
  }

  // The iteration order list answers lookups as the table does.
  lemma LookInEntries<V>(t: Table<V>, key: Key)
    requires Placed(t)
    ensures LookIn(Entries(t), key) == Find(t, key)
  {
    EntriesDistinct(t);
    var es := Entries(t);
    var i := IndexIn(es, key);
    if i < |es| {
      EntriesAreFound(t, es[i]);
      assert es[i] == KV(key, es[i].value);
    } else if Find(t, key).Some? {
      EntriesAreFound(t, KV(key, Find(t, key).value));
    }
  }

  lemma RemoveKeepsWf<V>(t: Table<V>, key: Key)
    requires Wf(t)
    ensures Wf(Remove(t, key))
    ensures forall k: Key :: Find(Remove(t, key), k) == if k == key then None else Find(t, k)
  {
    RemoveFinds(t, key);
  }

  // Re-inserting distinct elements into an empty table keeps them all.
  lemma {:induction false} PutAllFinds<V>(n: nat, es: seq<KV<V>>)
    requires n > 0 && Distinct(es)
    ensures Placed(PutAll(Allocate(n), es))
    ensures NumElements(PutAll(Allocate(n), es)) == |es|
    ensures forall k: Key :: Find(PutAll(Allocate(n), es), k) == LookIn(es, k)
  {
    if es == [] {
      FlattenEmpties(Allocate<V>(n).buckets);
    } else {
      var front, last := es[..|es| - 1], es[|es| - 1];
      assert es == front + [last];
      PutAllFinds(n, front);
      PutFinds(PutAll(Allocate(n), front), last);
      forall k: Key ensures Find(PutAll(Allocate(n), es), k) == LookIn(es, k) {
        LookInSnoc(front, last, k);
      }
      LookInSnoc(front, last, last.key);
    }
  }

  // Resizing changes where the elements sit and nothing else; afterwards the
  // table has room, so an insertion into it never resizes again.
  lemma ResizePreserves<V>(t: Table<V>)
    requires Wf(t)
    ensures Wf(MaybeResize(t))
    ensures NumElements(MaybeResize(t)) == NumElements(t)
    ensures NumElements(MaybeResize(t)) < 3 * |MaybeResize(t).buckets|
    ensures forall k: Key :: Find(MaybeResize(t), k) == Find(t, k)
  {
    if NumElements(t) >= 3 * |t.buckets| {
      EntriesDistinct(t);
      PutAllFinds(9 * |t.buckets|, Entries(t));
      var r := MaybeResize(t);
      forall k: Key ensures Find(r, k) == Find(t, k) { LookInEntries(t, k); }
    }
  }

  lemma InsertFinds<V>(t: Table<V>, kv: KV<V>)
    requires Wf(t)
    ensures Wf(Insert(t, kv))
    ensures forall k: Key :: Find(Insert(t, kv), k) == if k == kv.key then Some(kv.value) else Find(t, k)
    ensures NumElements(Insert(t, kv)) == NumElements(t) + (if Find(t, kv.key).Some? then 0 else 1)
  {
    ResizePreserves(t);
    PutFinds(MaybeResize(t), kv);
  }

  lemma AllocateWf<V>(n: nat)
    requires n > 0
    ensures Wf(Allocate<V>(n)) && NumElements(Allocate<V>(n)) == 0
    ensures forall k: Key :: Find(Allocate<V>(n), k) == None
  {
    FlattenEmpties(Allocate<V>(n).buckets);
  }

  // ---------- Any run of operations ----------

  datatype Op<+V> = OpInsert(kv: KV<V>) | OpFind(key: Key) | OpRemove(key: Key)

  // The table after an operation, and the (old) value it hands back.
  function Apply<V>(t: Table<V>, op: Op<V>): (r: (Table<V>, Option<V>))
    requires HasBuckets(t)
    ensures HasBuckets(r.0)
  {
    match op
    case OpInsert(kv) => (Insert(t, kv), Find(MaybeResize(t), kv.key))
    case OpFind(k) => (t, Find(t, k))
    case OpRemove(k) => (Remove(t, k), Find(t, k))
  }

  function Run<V>(t: Table<V>, ops: seq<Op<V>>): (Table<V>, seq<Option<V>>)
    requires HasBuckets(t)
    decreases ops
  {
    if ops == [] then (t, [])
    else
      var (t', out) := Apply(t, ops[0]);
      var (t'', outs) := Run(t', ops[1..]);
      (t'', [out] + outs)
  }

  function MapApply<V>(m: map<Key, V>, op: Op<V>): (map<Key, V>, Option<V>) {
    match op
    case OpInsert(kv) => (m[kv.key := kv.value], Lookup(m, kv.key))
    case OpFind(k) => (m, Lookup(m, k))
    case OpRemove(k) => (m - {k}, Lookup(m, k))
  }

  function MapRun<V>(m: map<Key, V>, ops: seq<Op<V>>): (map<Key, V>, seq<Option<V>>)
    decreases ops
  {
    if ops == [] then (m, [])
    else
      var (m', out) := MapApply(m, ops[0]);
      var (m'', outs) := MapRun(m', ops[1..]);
      (m'', [out] + outs)
  }

  lemma ApplyRefines<V>(t: Table<V>, m: map<Key, V>, op: Op<V>)
    requires Represents(t, m)
    ensures Represents(Apply(t, op).0, MapApply(m, op).0)
    ensures Apply(t, op).1 == MapApply(m, op).1
  {
    hide Wf, Find, Insert, MaybeResize, Remove, NumElements;
    match op
    case OpInsert(kv) =>
      ResizePreserves(t);
      InsertFinds(t, kv);
      RepresentsIntro(Insert(t, kv), m[kv.key := kv.value]);
    case OpFind(_) =>
    case OpRemove(k) =>
      RemoveKeepsWf(t, k);
      RepresentsIntro(Remove(t, k), m - {k});
  }

  lemma {:induction false} RunRefines<V>(t: Table<V>, m: map<Key, V>, ops: seq<Op<V>>)
    requires Represents(t, m)
    ensures Represents(Run(t, ops).0, MapRun(m, ops).0)
    ensures Run(t, ops).1 == MapRun(m, ops).1
    decreases ops
  {
    if ops != [] {
      ApplyRefines(t, m, ops[0]);
      RunRefines(Apply(t, ops[0]).0, MapApply(m, ops[0]).0, ops[1..]);
    }
  }

  // From an empty table of any size, every run of Insert/Find/Remove hands
  // back what a finite map would and keeps the load factor at most 3.
  lemma HashTableIsAMap<V>(n: nat, ops: seq<Op<V>>)
    requires n > 0
    ensures Run(Allocate(n), ops).1 == MapRun(map[], ops).1
    ensures Represents(Run(Allocate(n), ops).0, MapRun(map[], ops).0)
  {
    AllocateWf<V>(n);
    RunRefines(Allocate(n), map[], ops);
  }

  // ---------- How many buckets, and in which order ----------

  // The number of buckets after a run that starts with n of them: an insertion
  // that finds three elements per bucket or more makes it nine times as many.
  function BucketsAfter<V>(n: nat, m: map<Key, V>, ops: seq<Op<V>>): nat
    decreases ops
  {
    if ops == [] then n
    else BucketsAfter(if ops[0].OpInsert? && |m| >= 3 * n then 9 * n else n, MapApply(m, ops[0]).0, ops[1..])
  }

  lemma {:induction false} RunGrows<V>(t: Table<V>, m: map<Key, V>, ops: seq<Op<V>>)
    requires Represents(t, m)
    ensures |Run(t, ops).0.buckets| == BucketsAfter(|t.buckets|, m, ops)
    decreases ops
  {
    hide Find, Wf, NumElements;
    if ops != [] {
      ApplyRefines(t, m, ops[0]);
      RunGrows(Apply(t, ops[0]).0, MapApply(m, ops[0]).0, ops[1..]);
    }
  }

  lemma TableGrows<V>(n: nat, ops: seq<Op<V>>)
    requires n > 0
    ensures |Run(Allocate(n), ops).0.buckets| == BucketsAfter(n, map[], ops)
  {
    AllocateWf<V>(n);
    RunGrows(Allocate(n), map[], ops);
  }

  // The elements that belong to bucket b of n, in their order.
  function InBucket<V>(es: seq<KV<V>>, n: nat, b: nat): seq<KV<V>>
    requires n > 0
  {
    if es == [] then []
    else InBucket(es[..|es| - 1], n, b) + (if es[|es| - 1].key % n == b then [es[|es| - 1]] else [])
  }

  // The elements with other keys, in their order.
  function Without<V>(es: seq<KV<V>>, key: Key): seq<KV<V>> {
    if es == [] then [] else (if es[0].key == key then [] else [es[0]]) + Without(es[1..], key)
  }

  // Each chain lists the inserted elements in the order of their insertion.
  lemma {:induction false} ChainsKeepOrder<V>(n: nat, es: seq<KV<V>>, b: nat)
    requires n > 0 && Distinct(es) && b < n
    ensures PutAll(Allocate(n), es).buckets[b] == InBucket(es, n, b)
  {
    if es != [] {
      var front, last := es[..|es| - 1], es[|es| - 1];
      ChainsKeepOrder(n, front, b);
      PutAllFinds(n, front);
      assert es == front + [last];
      LookInSnoc(front, last, last.key);
    }
  }

  // A resize lets each new chain list its elements in iteration order.
  lemma ResizeKeepsOrder<V>(t: Table<V>, b: nat)
    requires Wf(t) && NumElements(t) >= 3 * |t.buckets| && b < 9 * |t.buckets|
    ensures |MaybeResize(t).buckets| == 9 * |t.buckets|
    ensures MaybeResize(t).buckets[b] == InBucket(Entries(t), 9 * |t.buckets|, b)
  {
    EntriesDistinct(t);
    ChainsKeepOrder(9 * |t.buckets|, Entries(t), b);
  }

  // A stored value takes the place of the old one, or comes last in its chain.
  lemma PutKeepsOrder<V>(t: Table<V>, kv: KV<V>, b: nat)
    requires Placed(t) && b < |t.buckets|
    ensures var c, c' := t.buckets[b], Put(t, kv).buckets[b];
            if kv.key % |t.buckets| != b then c' == c
            else if Find(t, kv.key).None? then c' == c + [kv]
            else |c'| == |c| && forall i :: 0 <= i < |c| ==> c'[i] == if c[i].key == kv.key then kv else c[i]
  {
    assert ChainOk(t.buckets[b], |t.buckets|, b);
  }

  // A removal leaves the other elements of each chain in their order.
  lemma RemoveKeepsOrder<V>(t: Table<V>, key: Key, b: nat)
    requires Placed(t) && b < |t.buckets|
    ensures Remove(t, key).buckets[b] == Without(t.buckets[b], key)
  {
    var c := t.buckets[b];
    assert ChainOk(c, |t.buckets|, b);
    if key % |t.buckets| == b {
      WithoutOne(c, key);
    } else {
      WithoutNone(c, key);
    }
  }

  lemma {:induction false} WithoutNone<V>(c: seq<KV<V>>, key: Key)
    requires forall i :: 0 <= i < |c| ==> c[i].key != key
    ensures Without(c, key) == c
  {
    if c != [] { WithoutNone(c[1..], key); }
  }

  lemma {:induction false} WithoutOne<V>(c: seq<KV<V>>, key: Key)
    requires Distinct(c)
    ensures Without(c, key) == if IndexIn(c, key) < |c| then Delete(c, IndexIn(c, key)) else c
  {
    if c != [] {
      if c[0].key == key {
        WithoutNone(c[1..], key);
      } else {
        WithoutOne(c[1..], key);
      }
    }
  }
}
