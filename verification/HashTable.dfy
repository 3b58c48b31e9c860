// The hash table object and its iterator (hw1/HashTable.c): chains are linked
// lists of key/value nodes.
module HashTables {
  import opened Wrappers
  import opened Tables
  import opened LinkedLists

  // Walks a chain until the key is met.
  method FindInChain<V(!new)>(chain: LinkedList<KV<V>>, key: Key) returns (it: LLIterator?<KV<V>>)
    requires chain.Valid()
    ensures var i := IndexIn(chain.Contents(), key);
            if i < |chain.Contents()|
            then it != null && fresh(it) && it.list == chain && it.Valid() && it.idx == i
            else it == null
  {
    hide LinkAt, LinkedList.Valid;
    it := new LLIterator(chain);
    var valid := it.IsValid();
    while valid
      invariant fresh(it) && it.Valid() && it.list == chain
      invariant valid <==> it.idx < |chain.nodes|
      invariant forall j :: 0 <= j < it.idx ==> chain.Contents()[j].key != key
      decreases |chain.nodes| - it.idx
    {
      var kv := it.Get();
      if kv.key == key {
        return;
      }
      valid := it.Next();
    }
    it := null;
  }

  // The payloads of a chain, in order.
  method ReadChain<V(!new)>(list: LinkedList<KV<V>>) returns (chain: seq<KV<V>>)
    requires list.Valid()
    ensures chain == list.Contents()
  {
    hide LinkedList.Valid, LinkAt;
    var it := new LLIterator(list);
    chain := [];
    var valid := it.IsValid();
    while valid
      invariant fresh(it) && it.Valid() && it.list == list && (valid <==> it.idx < |list.nodes|)
      invariant chain == list.Contents()[..it.idx]
      decreases |list.nodes| - it.idx
    {
      var kv := it.Get();
      chain := chain + [kv];
      valid := it.Next();
    }
  }

  class HashTable<V(!new)> {
    var numBuckets: nat
    var numElements: nat
    var buckets: seq<LinkedList<KV<V>>>
    ghost var owner: map<Node<KV<V>>, nat>  // the bucket each node belongs to
    ghost var Repr: set<object>

    // The chains are separate valid lists.
    ghost predicate Separate()
      reads this, Repr
    {
      this in Repr &&
      (forall b :: 0 <= b < |buckets| ==> buckets[b] in Repr) &&
      (forall b, i {:trigger buckets[b].nodes[i]} :: 0 <= b < |buckets| && 0 <= i < |buckets[b].nodes| ==>
         var n := buckets[b].nodes[i]; n in Repr && n in owner && owner[n] == b) &&
      (forall b :: 0 <= b < |buckets| ==> buckets[b].Valid()) &&
      forall b, b' :: 0 <= b < b' < |buckets| ==> buckets[b] != buckets[b']
    }

    ghost function View(): (t: Table<V>)
      requires Separate()
      reads this, Repr
      ensures |t.buckets| == |buckets|
      ensures forall b :: 0 <= b < |buckets| ==> t.buckets[b] == buckets[b].Contents()
    {
      Table(seq(|buckets|, b requires 0 <= b < |buckets| && Separate() reads this, Repr => buckets[b].Contents()))
    }

    ghost predicate Valid()
      reads this, Repr
      ensures Valid() ==> this in Repr && Separate() && numBuckets == |buckets| && Wf(View())
    {
      Separate() && numBuckets == |buckets| && numElements == NumElements(View()) && Wf(View())
    }

    constructor (n: nat)
      requires n > 0
      ensures Valid() && fresh(Repr) && View() == Allocate(n)
    {
      numBuckets := n;
      numElements := 0;
      buckets := [];
      owner := map[];
      Repr := {this};
      new;
      var i := 0;
      while i < n
        invariant 0 <= i == |buckets| <= n && numBuckets == n && numElements == 0
        invariant Separate() && fresh(Repr)
        invariant forall b :: 0 <= b < i ==> buckets[b].nodes == []
      {
        var chain := new LinkedList<KV<V>>();
        buckets := buckets + [chain];
        Repr := Repr + {chain};
        i := i + 1;
      }
      assert View() == Allocate(n);
      AllocateWf<V>(n);
    }

    lemma ChainIsValid(b: nat)
      requires Separate() && b < |buckets|
      ensures buckets[b].Valid() && buckets[b].numElements == |View().buckets[b]| == |buckets[b].nodes|
      ensures buckets[b] in Repr
    {
    }

    // The first bucket from start on that is not empty; numBuckets if there is none.
    method FirstNonEmpty(start: nat) returns (i: nat)
      requires Valid() && start <= numBuckets
      ensures start <= i <= |buckets| && forall k :: start <= k < i ==> View().buckets[k] == []
      ensures i < |buckets| ==> View().buckets[i] != []
    {
      hide Separate, LinkedList.Valid, Wf;
      i := start;
      while i < numBuckets
        invariant start <= i <= |buckets| && forall k :: start <= k < i ==> View().buckets[k] == []
      {
        ChainIsValid(i);
        if buckets[i].numElements > 0 {
          return;
        }
        i := i + 1;
      }
    }

    // An iterator at the element with this key, or null.
    method InsertFindHelper(key: Key) returns (it: LLIterator?<KV<V>>)
      requires Separate() && numBuckets == |buckets| > 0
      ensures var b := BucketNum(View(), key);
              var i := IndexIn(View().buckets[b], key);
              if i < |View().buckets[b]|
              then it != null && fresh(it) && it.list == buckets[b] && it.Valid() && it.idx == i
              else it == null
    {
      hide Wf, IndexIn, LinkedList.Valid, LLIterator.Valid;
      var bucket := key % numBuckets;
      var chain := buckets[bucket];
      it := FindInChain(chain, key);
    }

    method Find(key: Key) returns (r: Option<V>)
      requires Valid()
      ensures r == Tables.Find(View(), key)
    {
      var li := InsertFindHelper(key);
      if li == null {
        return None;
      }
      var temp := li.Get();
      r := Some(temp.value);
    }

    // Appends to one chain and counts the element; the other chains are untouched.
    method AppendTo(b: nat, kv: KV<V>)
      requires Separate() && b < |buckets|
      modifies Repr
      ensures Separate() && fresh(Repr - old(Repr)) && buckets == old(buckets)
      ensures numBuckets == old(numBuckets) && numElements == old(numElements) + 1
      ensures View() == Table(old(View()).buckets[b := old(View()).buckets[b] + [kv]])
    {
      hide LinkAt, LinkedList.Valid;
      var chain := buckets[b];
      label before:
      ghost var added := chain.Append(kv);
      numElements := numElements + 1;
      owner := owner[added := b];
      Repr := Repr + {added};
      forall b' | 0 <= b' < |buckets| && b' != b
        ensures buckets[b'].Valid() && buckets[b'].nodes == old(buckets[b'].nodes) &&
                buckets[b'].Contents() == old(buckets[b'].Contents())
      {
        assert chain != buckets[b'];
        assert forall i, j :: 0 <= i < |buckets[b'].nodes| && 0 <= j < |old(chain.nodes)| ==>
            buckets[b'].nodes[i] != old(chain.nodes)[j];
      }
    }

    // Stores through the payload pointer of one node.
    method StoreAt(b: nat, li: LLIterator<KV<V>>, kv: KV<V>)
      requires Separate() && b < |buckets| && li.Valid() && li.list == buckets[b] && li.idx < |li.list.nodes|
      modifies Repr
      ensures Separate() && Repr == old(Repr) && buckets == old(buckets)
      ensures numBuckets == old(numBuckets) && numElements == old(numElements)
      ensures li.idx < |old(View()).buckets[b]| &&
              View() == Table(old(View()).buckets[b := old(View()).buckets[b][li.idx := kv]])
    {
      hide LinkAt, LinkedList.Valid;
      var chain := buckets[b];
      li.Set(kv);
      forall b' | 0 <= b' < |buckets| && b' != b
        ensures buckets[b'].Valid() && buckets[b'].nodes == old(buckets[b'].nodes) &&
                buckets[b'].Contents() == old(buckets[b'].Contents())
      {
        assert chain != buckets[b'];
        assert forall i, j :: 0 <= i < |buckets[b'].nodes| && 0 <= j < |chain.nodes| ==>
            buckets[b'].nodes[i] != chain.nodes[j];
      }
    }

    // Unlinks one node.
    method RemoveFrom(b: nat, li: LLIterator<KV<V>>)
      requires Separate() && b < |buckets| && li.Valid() && li.list == buckets[b] && li.idx < |li.list.nodes|
      requires li !in Repr && numElements > 0
      modifies Repr, li
      ensures Separate() && Repr == old(Repr) && buckets == old(buckets)
      ensures numBuckets == old(numBuckets) && numElements == old(numElements) - 1
      ensures View() == Table(old(View()).buckets[b := Delete(old(View()).buckets[b], old(li.idx))])
      ensures forall b' :: 0 <= b' < |buckets| ==>
                buckets[b'].nodes == if b' == b then Delete(old(buckets[b'].nodes), old(li.idx))
                  else old(buckets[b'].nodes)
    {
      hide LinkAt, LinkedList.Valid;
      var chain := buckets[b];
      ghost var idx := li.idx;
      var more := li.Remove();
      numElements := numElements - 1;
      forall b' | 0 <= b' < |buckets| && b' != b
        ensures buckets[b'].Valid() && buckets[b'].nodes == old(buckets[b'].nodes) &&
                buckets[b'].Contents() == old(buckets[b'].Contents())
      {
        assert chain != buckets[b'];
        assert forall i, j :: 0 <= i < |buckets[b'].nodes| && 0 <= j < |old(chain.nodes)| ==>
            buckets[b'].nodes[i] != old(chain.nodes)[j];
      }
      DeleteKeeps(old(chain.nodes), idx);
    }

    method Insert(kv: KV<V>) returns (r: Option<V>)
      requires Valid()
      modifies Repr
      ensures Valid() && fresh(Repr - old(Repr))
      ensures View() == Tables.Insert(old(View()), kv)
      ensures r == Tables.Find(Tables.MaybeResize(old(View())), kv.key)
      decreases if numElements >= 3 * numBuckets then 1 else 0, 1
    {
      hide Separate, Wf, IndexIn, Tables.MaybeResize, Put, Tables.Find;
      MaybeResize();
      r := PutPair(kv);
    }

    // The part of insertion that follows the resize.
    method PutPair(kv: KV<V>) returns (r: Option<V>)
      requires Valid() && numElements < 3 * numBuckets
      modifies Repr
      ensures Valid() && fresh(Repr - old(Repr))
      ensures View() == Put(old(View()), kv)
      ensures r == Tables.Find(old(View()), kv.key)
      ensures numBuckets == old(numBuckets)
    {
      hide Separate, Wf, NumElements, IndexIn, Put, Tables.Find, LinkedList.Valid;
      ghost var t := View();
      PutKeepsWf(t, kv);
      PutCases(t, kv);
      var bucket := kv.key % numBuckets;
      var li := InsertFindHelper(kv.key);
      if li == null {
        AppendTo(bucket, kv);
        return None;
      }
      var found := li.Get();
      r := Some(found.value);
      StoreAt(bucket, li, KV(found.key, kv.value));
    }

    // Stores through the value pointer of an element that is there.
    method Update(key: Key, value: V)
      requires Valid() && Tables.Find(View(), key).Some?
      modifies Repr
      ensures Valid() && Repr == old(Repr) && View() == Put(old(View()), KV(key, value))
    {
      hide Separate, Wf, NumElements, IndexIn, Put, Tables.Find, LinkedList.Valid;
      ghost var t := View();
      PutKeepsWf(t, KV(key, value));
      PutCases(t, KV(key, value));
      var li := InsertFindHelper(key);
      StoreAt(key % numBuckets, li, KV(key, value));
    }

    method Remove(key: Key) returns (r: Option<V>)
      requires Valid()
      modifies Repr
      ensures Valid() && Repr == old(Repr) && buckets == old(buckets)
      ensures View() == Tables.Remove(old(View()), key)
      ensures r == Tables.Find(old(View()), key)
      ensures var b := BucketNum(old(View()), key);
              var i := IndexIn(old(View()).buckets[b], key);
              i < |old(View()).buckets[b]| ==>
                forall b' :: 0 <= b' < |buckets| ==>
                  buckets[b'].nodes == if b' == b then Delete(old(buckets[b'].nodes), i) else old(buckets[b'].nodes)
    {
      hide Separate, Wf, NumElements, IndexIn, Tables.Remove, Tables.Find, LinkedList.Valid;
      ghost var t := View();
      RemoveKeepsWf(t, key);
      RemoveCounts(t, key);
      RemoveCases(t, key);
      var li := InsertFindHelper(key);
      if li == null {
        return None;
      }
      var kv := li.Get();
      r := Some(kv.value);
      RemoveFrom(key % numBuckets, li);
    }

    method MaybeResize()
      requires Valid()
      modifies Repr
      ensures Valid() && fresh(Repr - old(Repr))
      ensures View() == Tables.MaybeResize(old(View()))
      ensures numElements < 3 * numBuckets
      decreases if numElements >= 3 * numBuckets then 1 else 0, 0
    {
      hide Separate, LinkedList.Valid, Wf, PutAll, Entries, Valid, Allocate, NumElements, Tables.MaybeResize;
      Counted();
      ResizePreserves(View());
      ResizeCases(View());
      if numElements < 3 * numBuckets {
        return;
      }
      var newht := new HashTable<V>(numBuckets * 9);
      CopyInto(newht);
      TakeOver(newht);
      Counted();
    }

    // The elements of t that the iterator has passed are in the new table.
    ghost predicate Copying(newht: HashTable<V>, it: HTIterator<V>, t: Table<V>)
      reads this, Repr, newht, newht.Repr, it, it.bucketIt
    {
      Valid() && View() == t && newht.Valid() && Repr !! newht.Repr &&
      it.ht == this && it.Valid() && it !in Repr + newht.Repr && it.bucketIt !in Repr + newht.Repr &&
      it.Pos() <= |Entries(t)| && newht.View() == PutAll(Allocate(9 * |t.buckets|), Entries(t)[..it.Pos()])
    }

    // Re-inserts every element into the new table, in iteration order.
    method CopyInto(newht: HashTable<V>)
      requires Valid() && newht.Valid() && Repr !! newht.Repr
      requires newht.View() == Allocate(9 * numBuckets)
      modifies newht.Repr
      ensures newht.Valid() && fresh(newht.Repr - old(newht.Repr))
      ensures newht.View() == PutAll(Allocate(9 * numBuckets), Entries(View()))
      decreases 0, 3
    {
      hide Separate, LinkedList.Valid, Wf, PutAll, Entries, Valid, Allocate, NumElements, HTIterator.Valid,
        HTIterator.Pos;
      ghost var t := View();
      var it := new HTIterator(this);
      NoneYet(t);
      var valid := it.IsValid();
      while valid
        invariant Copying(newht, it, t) && fresh(newht.Repr - old(newht.Repr)) && fresh(it)
        invariant it.bucketIt != null ==> fresh(it.bucketIt)
        invariant valid <==> it.Pos() < |Entries(t)|
        decreases |Entries(t)| - it.Pos()
      {
        valid := CopyOne(newht, it, t);
      }
      assert Entries(t)[..it.Pos()] == Entries(t);
    }

    method CopyOne(newht: HashTable<V>, it: HTIterator<V>, ghost t: Table<V>) returns (valid: bool)
      requires Copying(newht, it, t) && it.Pos() < |Entries(t)|
      modifies newht.Repr, it, it.bucketIt
      ensures Copying(newht, it, t) && fresh(newht.Repr - old(newht.Repr))
      ensures it.bucketIt == old(it.bucketIt) || fresh(it.bucketIt)
      ensures it.Pos() == old(it.Pos()) + 1
      ensures valid <==> it.Pos() < |Entries(t)|
      decreases 0, 2
    {
      hide Separate, LinkedList.Valid, Wf, PutAll, Entries, Valid, Allocate, NumElements, HTIterator.Valid,
        HTIterator.Pos,
        Tables.MaybeResize, Tables.Insert;
      var item := it.Get();
      RoomForMore(t, it.Pos());
      newht.Counted();
      var unused := newht.Insert(item.value);
      var more := it.Next();
      valid := it.IsValid();
    }

    lemma Counted()
      requires Valid()
      ensures numElements == NumElements(View())
    {
    }

    // The bucket array and its chains, as a walk over all of them sees them.
    method Snapshot() returns (t: Table<V>)
      requires Valid()
      ensures t == View()
    {
      hide Separate, LinkedList.Valid, Wf, LinkAt;
      var bs := [];
      var i := 0;
      while i < numBuckets
        invariant 0 <= i == |bs| <= |buckets| && forall b :: 0 <= b < i ==> bs[b] == View().buckets[b]
      {
        ChainIsValid(i);
        var chain := ReadChain(buckets[i]);
        bs := bs + [chain];
        i := i + 1;
      }
      t := Table(bs);
    }

    // Swaps the new table's record onto this one.
    method TakeOver(newht: HashTable<V>)
      requires this in Repr && newht.Valid() && this !in newht.Repr
      modifies this
      ensures Valid() && View() == old(newht.View()) && Repr == {this} + newht.Repr
      ensures numElements == old(newht.numElements) && numBuckets == old(newht.numBuckets)
    {
      hide LinkAt, LinkedList.Valid, Separate, Wf, NumElements;
      numBuckets, numElements, buckets := newht.numBuckets, newht.numElements, newht.buckets;
      owner, Repr := newht.owner, {this} + newht.Repr;
      SameChains(newht);
    }

    // An object that has taken over another table's record.
    lemma SameChains(newht: HashTable<V>)
      requires newht.Separate() && buckets == newht.buckets && owner == newht.owner && Repr == {this} + newht.Repr
      ensures Separate() && View() == newht.View()
    {
      hide LinkAt, LinkedList.Valid;
    }
  }

  lemma NoneYet<V>(t: Table<V>)
    requires HasBuckets(t)
    ensures PutAll(Allocate(9 * |t.buckets|), Entries(t)[..0]) == Allocate(9 * |t.buckets|)
  {
  }

  lemma ResizeCases<V>(t: Table<V>)
    requires HasBuckets(t)
    ensures Tables.MaybeResize(t) ==
            if NumElements(t) < 3 * |t.buckets| then t else PutAll(Allocate(9 * |t.buckets|), Entries(t))
  {
  }

  // While a resize copies the elements, the new table never needs to grow.
  lemma RoomForMore<V>(t: Table<V>, p: nat)
    requires Wf(t) && p < |Entries(t)|
    ensures var es, n := Entries(t), 9 * |t.buckets|;
            var r := PutAll(Allocate(n), es[..p]);
            NumElements(r) == p < 3 * |r.buckets| && Tables.Insert(r, es[p]) == PutAll(Allocate(n), es[..p + 1])
  {
    var es, n := Entries(t), 9 * |t.buckets|;
    EntriesDistinct(t);
    PutAllFinds(n, es[..p]);
    assert es[..p + 1][..p] == es[..p];
  }

  lemma DeleteKeeps<T>(s: seq<T>, i: nat)
    requires i < |s|
    ensures forall j :: 0 <= j < |s| - 1 ==> Delete(s, i)[j] == s[if j < i then j else j + 1]
  {
  }

  lemma PutKeepsWf<V>(t: Table<V>, kv: KV<V>)
    requires Wf(t) && (Tables.Find(t, kv.key).Some? || NumElements(t) < 3 * |t.buckets|)
    ensures Wf(Put(t, kv))
    ensures forall k: Key :: Tables.Find(Put(t, kv), k) == if k == kv.key then Some(kv.value) else Tables.Find(t, k)
    ensures NumElements(Put(t, kv)) == NumElements(t) + (if Tables.Find(t, kv.key).Some? then 0 else 1)
  {
    PutFinds(t, kv);
  }

  // Put and Remove, split by whether the key is present.
  lemma PutCases<V>(t: Table<V>, kv: KV<V>)
    requires HasBuckets(t)
    ensures var b := BucketNum(t, kv.key);
            var c := t.buckets[b];
            var i := IndexIn(c, kv.key);
            if i < |c| then
              Put(t, kv) == Table(t.buckets[b := c[i := kv]]) && Tables.Find(t, kv.key) == Some(c[i].value) &&
                c[i].key == kv.key
            else
              Put(t, kv) == Table(t.buckets[b := c + [kv]]) && Tables.Find(t, kv.key) == None
  {
  }

  lemma RemoveCases<V>(t: Table<V>, key: Key)
    requires HasBuckets(t)
    ensures var b := BucketNum(t, key);
            var c := t.buckets[b];
            var i := IndexIn(c, key);
            if i < |c| then
              Tables.Remove(t, key) == Table(t.buckets[b := Delete(c, i)]) && Tables.Find(t, key) == Some(c[i].value)
            else
              Tables.Remove(t, key) == t && Tables.Find(t, key) == None
  {
  }

  lemma RemoveCounts<V>(t: Table<V>, key: Key)
    requires Wf(t)
    ensures NumElements(Tables.Remove(t, key)) == NumElements(t) - (if Tables.Find(t, key).Some? then 1 else 0)
  {
    RemoveFinds(t, key);
  }

  // ---------- Positions in the iteration order ----------

  // Removing the element at position i of bucket b takes it out of the
  // iteration order and leaves the rest in place.
  lemma RemovedEntry<V>(t: Table<V>, b: nat, i: nat)
    requires Wf(t) && b < |t.buckets| && i < |t.buckets[b]|
    ensures var kv := t.buckets[b][i];
            BucketNum(t, kv.key) == b && IndexIn(t.buckets[b], kv.key) == i && Tables.Find(t,
              kv.key) == Some(kv.value) &&
            Tables.Remove(t, kv.key) == Table(t.buckets[b := Delete(t.buckets[b], i)]) &&
            Position(t.buckets, b, i) < |Entries(t)| &&
            Entries(Tables.Remove(t, kv.key)) == Delete(Entries(t), Position(t.buckets, b, i))
  {
    var kv := t.buckets[b][i];
    assert ChainOk(t.buckets[b], |t.buckets|, b);
    IndexInUnique(t.buckets[b], kv.key, i);
    FlattenDelete(t.buckets, b, i);
  }

  // What that does to the position of an iterator that stands further on.
  lemma PositionAfterDelete<T>(ss: seq<seq<T>>, b: nat, i: nat, cur: nat, idx: nat)
    requires b <= cur < |ss| && i < |ss[b]| && idx <= |ss[cur]| && (cur == b ==> i < idx)
    ensures var ss' := ss[b := Delete(ss[b], i)];
            var idx' := if cur == b then idx - 1 else idx;
            Position(ss', cur, idx') == Position(ss, cur, idx) - 1
  {
    var ss' := ss[b := Delete(ss[b], i)];
    if cur == b {
      assert ss'[..b] == ss[..b];
    } else {
      assert ss'[..cur] == ss[..cur][b := Delete(ss[b], i)];
      FlattenUpdate(ss[..cur], b, Delete(ss[b], i));
    }
  }

  lemma {:induction false} FlattenSplit<T>(ss: seq<seq<T>>, b: nat)
    requires b <= |ss|
    ensures Flatten(ss) == Flatten(ss[..b]) + Flatten(ss[b..])
  {
    if b > 0 {
      FlattenSplit(ss[1..], b - 1);
      assert ss[..b][1..] == ss[1..][..b - 1] && ss[b..] == ss[1..][b - 1..];
    } else {
      assert ss[..0] == [] && ss[0..] == ss;
    }
  }

  // The rank of element i of bucket b in the iteration order.
  function Position<T>(ss: seq<seq<T>>, b: nat, i: nat): nat
    requires b < |ss| && i <= |ss[b]|
  {
    |Flatten(ss[..b])| + i
  }

  lemma PositionAt<T>(ss: seq<seq<T>>, b: nat, i: nat)
    requires b < |ss| && i <= |ss[b]|
    ensures Position(ss, b, i) <= |Flatten(ss)|
    ensures i < |ss[b]| ==> Position(ss, b, i) < |Flatten(ss)| && Flatten(ss)[Position(ss, b, i)] == ss[b][i]
  {
    FlattenSplit(ss, b);
    assert ss[b..][0] == ss[b];
  }

  // Past the end of bucket b and of the empty buckets after it.
  lemma PositionSkips<T>(ss: seq<seq<T>>, b: nat, b': nat)
    requires b < b' <= |ss| && forall k :: b < k < b' ==> ss[k] == []
    ensures |Flatten(ss[..b'])| == Position(ss, b, |ss[b]|)
  {
    var front := ss[..b'];
    FlattenSplit(front, b);
    assert front[..b] == ss[..b] && front[b..][0] == ss[b];
    FlattenEmpties(front[b..][1..]);
  }

  // The first element of the next bucket that is not empty comes right after
  // the last one of bucket b ...
  lemma NextPosition<T>(ss: seq<seq<T>>, b: nat, i: nat)
    requires b < i < |ss| && ss[i] != [] && forall k :: b < k < i ==> ss[k] == []
    ensures Position(ss, i, 0) == Position(ss, b, |ss[b]|) < |Flatten(ss)|
  {
    PositionSkips(ss, b, i);
    PositionAt(ss, i, 0);
  }

  // ... and if there is none, the iteration ends there.
  lemma LastPosition<T>(ss: seq<seq<T>>, b: nat)
    requires b < |ss| && forall k :: b < k < |ss| ==> ss[k] == []
    ensures Position(ss, b, |ss[b]|) == |Flatten(ss)|
  {
    PositionSkips(ss, b, |ss|);
    assert ss[..|ss|] == ss;
  }

  lemma PositionOfFirst<T>(ss: seq<seq<T>>, b: nat)
    requires b <= |ss| && forall k :: 0 <= k < b ==> ss[k] == []
    ensures |Flatten(ss[..b])| == 0
  {
    FlattenEmpties(ss[..b]);
  }

  lemma FlattenAround<T>(ss: seq<seq<T>>, b: nat)
    requires b < |ss|
    ensures Flatten(ss) == Flatten(ss[..b]) + (ss[b] + Flatten(ss[b + 1..]))
  {
    FlattenSplit(ss, b);
    assert ss[b..][0] == ss[b] && ss[b..][1..] == ss[b + 1..];
  }

  lemma DeleteWithin<T>(before: seq<T>, c: seq<T>, after: seq<T>, i: nat)
    requires i < |c|
    ensures Delete(before + (c + after), |before| + i) == before + (Delete(c, i) + after)
  {
  }

  lemma FlattenDelete<T>(ss: seq<seq<T>>, b: nat, i: nat)
    requires b < |ss| && i < |ss[b]|
    ensures Position(ss, b, i) < |Flatten(ss)|
    ensures Flatten(ss[b := Delete(ss[b], i)]) == Delete(Flatten(ss), Position(ss, b, i))
  {
    hide Delete, Flatten;
    var ss' := ss[b := Delete(ss[b], i)];
    FlattenAround(ss, b);
    FlattenAround(ss', b);
    assert ss'[..b] == ss[..b] && ss'[b + 1..] == ss[b + 1..];
    DeleteWithin(Flatten(ss[..b]), ss[b], Flatten(ss[b + 1..]), i);
  }

  lemma FirstPosition<V(!new)>(table: HashTable<V>, i: nat)
    requires table.Valid() && table.numElements > 0 && i <= |table.buckets|
    requires forall k :: 0 <= k < i ==> table.View().buckets[k] == []
    requires i < |table.buckets| ==> table.View().buckets[i] != []
    ensures i < |table.buckets| && Position(table.View().buckets, i, 0) == 0
    ensures table.buckets[i].Valid() && |table.buckets[i].nodes| > 0 && table.buckets[i] in table.Repr
  {
    var ss := table.View().buckets;
    PositionOfFirst(ss, i);
    assert ss[..|ss|] == ss;
    assert i < |ss|;
    table.ChainIsValid(i);
  }

  class HTIterator<V(!new)> {
    const ht: HashTable<V>
    var bucketIdx: int
    var bucketIt: LLIterator?<KV<V>>
    ghost var cur: nat  // the bucket that bucketIt walks

    ghost predicate Valid()
      reads this, ht, ht.Repr, bucketIt
    {
      ht.Valid() && this !in ht.Repr &&
      (bucketIt == null ==> ht.numElements == 0) &&
      (bucketIt != null ==>
         bucketIt !in ht.Repr && cur < |ht.buckets| && bucketIt.list == ht.buckets[cur] && bucketIt.Valid() &&
         (bucketIt.idx < |ht.buckets[cur].nodes| ==> bucketIdx == cur) &&
         (bucketIt.idx == |ht.buckets[cur].nodes| ==>
            forall b :: cur < b < |ht.buckets| ==> ht.View().buckets[b] == []))
    }

    constructor (table: HashTable<V>)
      requires table.Valid()
      ensures ht == table && Valid() && Pos() == 0
      ensures bucketIt != null ==> fresh(bucketIt)
    {
      hide HashTable.Separate, LinkedList.Valid, Wf, LinkAt, Flatten, HashTable.Valid;
      ht := table;
      if table.numElements == 0 {
        bucketIt := null;
        bucketIdx := -1;
        cur := 0;
      } else {
        var i := table.FirstNonEmpty(0);
        FirstPosition(table, i);
        bucketIdx := i;
        bucketIt := new LLIterator(table.buckets[i]);
        cur := i;
      }
    }

    // How many elements the iterator has passed.
    ghost function Pos(): nat
      requires Valid()
      reads this, ht, ht.Repr, bucketIt
    {
      if bucketIt == null then 0 else Position(ht.View().buckets, cur, bucketIt.idx)
    }

    // The element under the iterator and those after it.
    lemma AtPos()
      requires Valid()
      ensures Pos() <= |Entries(ht.View())|
      ensures Pos() < |Entries(ht.View())| <==> bucketIt != null && bucketIt.idx < |ht.buckets[cur].nodes|
      ensures Pos() < |Entries(ht.View())| ==> Entries(ht.View())[Pos()] == ht.View().buckets[cur][bucketIt.idx]
    {
      if bucketIt != null {
        var ss := ht.View().buckets;
        PositionAt(ss, cur, bucketIt.idx);
        if bucketIt.idx == |ht.buckets[cur].nodes| {
          LastPosition(ss, cur);
        }
      }
    }

    method IsValid() returns (b: bool)
      requires Valid()
      ensures b <==> Pos() < |Entries(ht.View())|
    {
      AtPos();
      if ht.numElements == 0 {
        return false;
      }
      b := bucketIt.IsValid();
    }

    method Get() returns (r: Option<KV<V>>)
      requires Valid()
      ensures r == if Pos() < |Entries(ht.View())| then Some(Entries(ht.View())[Pos()]) else None
    {
      AtPos();
      var valid := IsValid();
      if !valid {
        return None;
      }
      var temp := bucketIt.Get();
      r := Some(temp);
    }

    method Next() returns (more: bool)
      requires Valid()
      modifies this, bucketIt
      ensures Valid() && (bucketIt == old(bucketIt) || fresh(bucketIt))
      ensures Pos() == if old(Pos()) < |Entries(ht.View())| then old(Pos()) + 1 else old(Pos())
      ensures more <==> Pos() < |Entries(ht.View())|
      ensures old(Pos()) < |Entries(ht.View())| ==>
                bucketIt != null && old(bucketIt != null) &&
                (if cur == old(cur) then bucketIt == old(bucketIt) && bucketIt.idx == old(bucketIt.idx) + 1
                 else cur > old(cur) && bucketIt.idx == 0)
    {
      hide HashTable.Separate, LinkedList.Valid, Wf, LinkAt, Flatten;
      AtPos();
      var valid := IsValid();
      if !valid {
        return false;
      }
      var inChain := bucketIt.Next();
      if inChain {
        AtPos();
        return true;
      }
      more := NextBucket();
    }

    // Looks for the next bucket that is not empty; the current one is used up.
    method NextBucket() returns (more: bool)
      requires ht.Valid() && this !in ht.Repr && bucketIt != null && bucketIt !in ht.Repr && cur < |ht.buckets|
      requires bucketIt.list == ht.buckets[cur] && bucketIt.Valid() && bucketIdx == cur
      requires bucketIt.idx == |ht.buckets[cur].nodes|
      modifies this
      ensures Valid() && (bucketIt == old(bucketIt) || fresh(bucketIt))
      ensures Pos() == old(Position(ht.View().buckets, cur, bucketIt.idx))
      ensures more <==> Pos() < |Entries(ht.View())|
      ensures if cur == old(cur) then bucketIt == old(bucketIt)
              else cur > old(cur) && bucketIt != null && bucketIt.idx == 0
    {
      hide HashTable.Separate, HashTable.Valid, HashTable.View, LinkedList.Valid, Wf, LinkAt, Flatten, Position;
      ghost var ss := ht.View().buckets;
      ht.ChainIsValid(cur);
      bucketIdx := ht.FirstNonEmpty(bucketIdx + 1);
      more := bucketIdx < ht.numBuckets;
      if more {
        NextPosition(ss, cur, bucketIdx);
        EnterBucket();
      } else {
        LastPosition(ss, cur);
        UsedUp();
      }
    }

    // Starts on a bucket that is not empty.
    method EnterBucket()
      requires ht.Valid() && this !in ht.Repr && 0 <= bucketIdx < |ht.buckets| && ht.View().buckets[bucketIdx] != []
      modifies this
      ensures Valid() && bucketIdx == old(bucketIdx) == cur && bucketIt != null && fresh(bucketIt) && bucketIt.idx == 0
      ensures Pos() == Position(ht.View().buckets, cur, 0)
    {
      hide HashTable.Separate, HashTable.Valid, HashTable.View, LinkedList.Valid, Wf, LinkAt, Flatten, Position;
      ht.ChainIsValid(bucketIdx);
      bucketIt := new LLIterator(ht.buckets[bucketIdx]);
      cur := bucketIdx;
    }

    // Past the last bucket that is not empty, whatever the bucket number is.
    lemma UsedUp()
      requires ht.Valid() && this !in ht.Repr && bucketIt != null && bucketIt !in ht.Repr && cur < |ht.buckets|
      requires bucketIt.list == ht.buckets[cur] && bucketIt.Valid() && bucketIt.idx == |ht.buckets[cur].nodes|
      requires forall b :: cur < b < |ht.buckets| ==> ht.View().buckets[b] == []
      ensures Valid() && Pos() == Position(ht.View().buckets, cur, |ht.View().buckets[cur]|)
    {
      hide HashTable.Separate, HashTable.Valid, LinkedList.Valid, Wf, LinkAt, Flatten, Position;
      ht.ChainIsValid(cur);
    }

    // Removes the element under the iterator, behind its back: the iterator
    // moves on first.  The checks of the code become assertions.
    method Remove() returns (r: Option<KV<V>>)
      requires Valid()
      modifies this, bucketIt, ht.Repr
      ensures Valid() && ht.Valid() && ht.Repr == old(ht.Repr) && (bucketIt == old(bucketIt) || fresh(bucketIt))
      ensures r == None <==> old(Pos()) >= |old(Entries(ht.View()))|
      ensures r == None ==> ht.View() == old(ht.View())
      ensures r != None ==>
                r == Some(old(Entries(ht.View()))[old(Pos())]) &&
                Entries(ht.View()) == Delete(old(Entries(ht.View())), old(Pos())) && Pos() == old(Pos())
    {
      hide HashTable.Separate, LinkedList.Valid, Wf, LinkAt, Flatten, Entries, Tables.Remove, Tables.Find, IndexIn,
        BucketNum, Position, Delete;
      AtPos();
      var kv := Get();
      if kv == None {
        return None;
      }
      ghost var t, b, i := ht.View(), cur, bucketIt.idx;
      RemovedEntry(t, b, i);
      var more := Next();
      ghost var idx, ns := bucketIt.idx, bucketIt.list.nodes;
      Standing();
      var removed := ht.Remove(kv.value.key);
      assert removed == Some(kv.value.value);
      r := kv;
      StepBack(t, b, i, ns);
    }

    // What a valid iterator that has not been exhausted at the start knows.
    lemma Standing()
      requires Valid() && bucketIt != null
      ensures cur < |ht.buckets| && bucketIt.list == ht.buckets[cur] && bucketIt !in ht.Repr
      ensures bucketIt.idx <= |bucketIt.list.nodes| == |ht.View().buckets[cur]|
      ensures bucketIt.node == if bucketIt.idx < |bucketIt.list.nodes| then bucketIt.list.nodes[bucketIt.idx] else null
      ensures bucketIt.idx < |bucketIt.list.nodes| ==> bucketIdx == cur
      ensures bucketIt.idx == |bucketIt.list.nodes| ==>
                forall b :: cur < b < |ht.buckets| ==> ht.View().buckets[b] == []
    {
    }

    // After the removal of element i of bucket b of table t, which came before
    // the iterator, in its bucket or in an earlier one.
    ghost method StepBack(t: Table<V>, b: nat, i: nat, ns: seq<Node<KV<V>>>)
      requires ht.Valid() && this !in ht.Repr && bucketIt != null && bucketIt !in ht.Repr
      requires |t.buckets| == |ht.buckets| && b <= cur < |ht.buckets| && i < |t.buckets[b]| &&
              bucketIt.list == ht.buckets[cur]
      requires ht.View() == Table(t.buckets[b := Delete(t.buckets[b], i)])
      requires |ns| == |t.buckets[cur]| && bucketIt.idx <= |ns|
      requires ht.buckets[cur].nodes == if cur == b then Delete(ns, i) else ns
      requires bucketIt.node == if bucketIt.idx < |ns| then ns[bucketIt.idx] else null
      requires cur == b ==> bucketIt.idx == i + 1
      requires bucketIt.idx < |ns| ==> bucketIdx == cur
      requires bucketIt.idx == |ns| ==> forall k :: cur < k < |ht.buckets| ==> t.buckets[k] == []
      modifies bucketIt
      ensures Valid() && Pos() == Position(t.buckets, cur, old(bucketIt.idx)) - 1
    {
      hide HashTable.Separate, HashTable.Valid, HashTable.View, LinkedList.Valid, Wf, LinkAt, Flatten, Position, Delete;
      ht.ChainIsValid(cur);
      PositionAfterDelete(t.buckets, b, i, cur, bucketIt.idx);
      if cur == b {
        bucketIt.idx := bucketIt.idx - 1;
        DeleteKeeps(ns, i);
      }
    }
  }

  // A loop over an iterator visits every element exactly once.
  method VisitAll<V(!new)>(table: HashTable<V>) returns (out: seq<KV<V>>)
    requires table.Valid()
    ensures out == Entries(table.View())
  {
    hide HashTable.Separate, LinkedList.Valid, LLIterator.Valid, Wf, Entries, HTIterator.Valid, HTIterator.Pos;
    out := [];
    var it := new HTIterator(table);
    var valid := it.IsValid();
    while valid
      invariant it.ht == table && it.Valid() && fresh(it) && (it.bucketIt != null ==> fresh(it.bucketIt))
      invariant it.Pos() <= |Entries(table.View())| && out == Entries(table.View())[..it.Pos()]
      invariant valid <==> it.Pos() < |Entries(table.View())|
      decreases |Entries(table.View())| - it.Pos()
    {
      var kv := it.Get();
      out := out + [kv.value];
      var more := it.Next();
      valid := it.IsValid();
    }
  }

  // A loop of removals hands out every element exactly once and empties the table.
  method DrainAll<V(!new)>(table: HashTable<V>) returns (out: seq<KV<V>>)
    requires table.Valid()
    modifies table.Repr
    ensures table.Valid() && NumElements(table.View()) == 0
    ensures out == old(Entries(table.View()))
  {
    hide HashTable.Separate, HashTable.Valid, HashTable.View, LinkedList.Valid, LLIterator.Valid, Wf, Entries,
      HTIterator.Valid, HTIterator.Pos,
      Delete;
    out := [];
    var it := new HTIterator(table);
    var valid := it.IsValid();
    while valid
      invariant it.ht == table && table.Valid() && it.Valid() && fresh(it) && (it.bucketIt != null ==>
                fresh(it.bucketIt))
      invariant table.Repr == old(table.Repr) && it.Pos() == 0
      invariant out + Entries(table.View()) == old(Entries(table.View()))
      invariant valid <==> 0 < |Entries(table.View())|
      decreases |Entries(table.View())|
    {
      ghost var es := Entries(table.View());
      var kv := it.Remove();
      DeleteFirst(es);
      out := out + [kv.value];
      valid := it.IsValid();
    }
  }

  lemma DeleteFirst<T>(s: seq<T>)
    requires s != []
    ensures s == [s[0]] + Delete(s, 0)
  {
  }
}
