// The in-memory inverted index and its search (hw2/MemIndex.c).
module MemoryIndex {
  import opened Bytes
  import opened Wrappers
  import opened Tables
  import opened Fnv
  import opened FnvCollision
  import opened Layout
  import opened Readers
  import opened Search
  import opened BubbleSort
  import opened LinkedLists
  import opened HashTables

  const POSTINGS_TABLE_INIT_BUCKETS: nat := 16

  // ---------- Adding a posting list ----------

  // The positions of the word in the document.
  function Posted(mi: Table<Value>, word: CString, d: Key): Option<seq<uint64>>
    requires HasBuckets(mi)
  {
    var t := PostingsOf(mi, word);
    if t.Some? && HasBuckets(t.value) && Find(t.value, d).Some? && Find(t.value, d).value.PositionList?
    then Some(Find(t.value, d).value.positions)
    else None
  }

  // No other word is filed under this word's hash.
  predicate NoCollision(mi: Table<Value>, word: CString)
    requires HasBuckets(mi)
  {
    Find(mi, FNVHash64(word)).Some? ==> PostingsOf(mi, word).Some?
  }

  // The index after a document's positions of a word have been filed.
  function AddPosting(mi: Table<Value>, word: CString, d: Key, l: seq<uint64>): (r: Table<Value>)
    requires HasBuckets(mi)
    ensures HasBuckets(r)
  {
    var key, t := FNVHash64(word), PostingsOf(mi, word);
    var found := t.Some? && HasBuckets(t.value);
    var postings := if found then t.value else Allocate(POSTINGS_TABLE_INIT_BUCKETS);
    var mi' := if found then mi else Insert(mi, KV(key, WordPostings(word, postings)));
    Put(mi', KV(key, WordPostings(word, Insert(postings, KV(d, PositionList(l))))))
  }

  // Every word in the index occurs in some document.
  ghost predicate Occupied(mi: Table<Value>)
    requires HasBuckets(mi)
  {
    forall k: Key :: Find(mi, k).Some? && Find(mi, k).value.WordPostings? ==>
      NumElements(Find(mi, k).value.postings) > 0
  }

  // Filing the positions changes what the index says about this word in this
  // document, and about nothing else.
  lemma PostingAdded(mi: Table<Value>, word: CString, d: Key, l: seq<uint64>)
    requires MemIndexOk(mi) && NoCollision(mi, word)
    ensures MemIndexOk(AddPosting(mi, word, d, l))
    ensures Occupied(mi) ==> Occupied(AddPosting(mi, word, d, l))
    ensures forall w: CString, d': Key ::
              Posted(AddPosting(mi, word, d, l), w, d') == if w == word && d' == d then Some(l) else Posted(mi, w, d')
    ensures forall w: CString :: PostingsOf(AddPosting(mi, word, d, l), w).Some? <==>
            w == word || PostingsOf(mi, w).Some?
  {
    hide FNVHash64, Find, Insert, Put, Wf, NumElements, MaybeResize;
    var key, t := FNVHash64(word), PostingsOf(mi, word);
    var r := AddPosting(mi, word, d, l);
    if t.Some? {
      PostingsAreOk(mi, word);
    } else {
      AllocateWf<Value>(POSTINGS_TABLE_INIT_BUCKETS);
      InsertFinds(mi, KV(key, WordPostings(word, Allocate(POSTINGS_TABLE_INIT_BUCKETS))));
    }
    var postings := if t.Some? then t.value else Allocate(POSTINGS_TABLE_INIT_BUCKETS);
    var mi' := if t.Some? then mi else Insert(mi, KV(key, WordPostings(word, postings)));
    var postings' := Insert(postings, KV(d, PositionList(l)));
    InsertFinds(postings, KV(d, PositionList(l)));
    assert PostingsOk(postings');
    assert WordEntryOk(KV(key, WordPostings(word, postings')));
    PutKeepsWf(mi', KV(key, WordPostings(word, postings')));
    assert r == Put(mi', KV(key, WordPostings(word, postings')));
    assert forall k: Key :: Find(r, k) == if k == key then Some(WordPostings(word, postings')) else Find(mi, k);
  }

  // The word's own table gets the document; a new word's starts with 16 buckets.
  lemma PostingInserted(mi: Table<Value>, word: CString, d: Key, l: seq<uint64>)
    requires MemIndexOk(mi) && NoCollision(mi, word)
    ensures var t, t' := PostingsOf(mi, word), PostingsOf(AddPosting(mi, word, d, l), word);
            t' == Some(Insert(if t.Some? then t.value else Table(seq(16, _ => [])), KV(d, PositionList(l))))
  {
    hide FNVHash64, Find, Insert, Put, Wf, NumElements, MaybeResize;
    var key, t := FNVHash64(word), PostingsOf(mi, word);
    if t.Some? {
      PostingsAreOk(mi, word);
    } else {
      InsertFinds(mi, KV(key, WordPostings(word, Allocate(POSTINGS_TABLE_INIT_BUCKETS))));
    }
    var postings := if t.Some? then t.value else Allocate(POSTINGS_TABLE_INIT_BUCKETS);
    var mi' := if t.Some? then mi else Insert(mi, KV(key, WordPostings(word, postings)));
    PutKeepsWf(mi', KV(key, WordPostings(word, Insert(postings, KV(d, PositionList(l))))));
    assert postings == if t.Some? then t.value else Table(seq(16, _ => []));
  }

  // ---------- Searching ----------

  // The postings filed under a word's hash; the search does not compare the words.
  function PostingsAt(mi: Table<Value>, word: CString): Option<Table<Value>>
    requires HasBuckets(mi)
  {
    var r := Find(mi, FNVHash64(word));
    if r.Some? && r.value.WordPostings? then Some(r.value.postings) else None
  }

  // The result with its rank increased, unless the document lacks the word.
  function Keep(h: Hit, t: Table<Value>): seq<Hit>
    requires HasBuckets(t)
  {
    var r := Find(t, h.docId);
    if r.Some? then [DocIDElementHeader(h.docId, h.numPositions + HeaderOf(KV(h.docId, r.value)).numPositions)] else []
  }

  function Filter(l: seq<Hit>, t: Table<Value>): seq<Hit>
    requires HasBuckets(t)
  {
    if l == [] then [] else Keep(l[0], t) + Filter(l[1..], t)
  }

  // The result list after n query words, before it is sorted; None once the
  // search has given up.
  function MemHits(mi: Table<Value>, query: seq<CString>, n: nat): Option<seq<Hit>>
    requires HasBuckets(mi) && 0 < n <= |query|
  {
    var t := PostingsAt(mi, query[n - 1]);
    if t.None? || !HasBuckets(t.value) then None
    else if n == 1 then Some(Headers(t.value))
    else
      var l := MemHits(mi, query, n - 1);
      if l.None? || Filter(l.value, t.value) == [] then None else Some(Filter(l.value, t.value))
  }

  function SearchResultComparator(sr1: Hit, sr2: Hit): int {
    if sr1.numPositions > sr2.numPositions then 1 else if sr1.numPositions < sr2.numPositions then -1 else 0
  }

  lemma SortedIsBestFirst(l: seq<Hit>)
    ensures Sorted(SearchResultComparator, false, l) <==>
            forall i, j :: 0 <= i < j < |l| ==> l[i].numPositions >= l[j].numPositions
  {
  }

  lemma GivenUp(mi: Table<Value>, query: seq<CString>, n: nat)
    requires HasBuckets(mi) && 0 < n <= |query| && MemHits(mi, query, n) == None
    ensures MemHits(mi, query, |query|) == None
    decreases |query| - n
  {
    if n < |query| { GivenUp(mi, query, n + 1); }
  }

  lemma FilterCons(h: Hit, l: seq<Hit>, t: Table<Value>)
    requires HasBuckets(t)
    ensures Filter([h] + l, t) == Keep(h, t) + Filter(l, t)
  {
    hide Keep;
    assert ([h] + l)[1..] == l;
  }

  class MemIndex {
    const index: HashTable<Value>

    ghost predicate Valid()
      reads index, index.Repr
    {
      index.Valid() && MemIndexOk(index.View())
    }

    constructor ()
      ensures Valid() && fresh(index) && fresh(index.Repr)
      ensures index.View() == Allocate(POSTINGS_TABLE_INIT_BUCKETS) && |index.View().buckets| == 16
    {
      index := new HashTable<Value>(POSTINGS_TABLE_INIT_BUCKETS);
      new;
      AllocateWf<Value>(POSTINGS_TABLE_INIT_BUCKETS);
    }

    method AddPostingList(word: CString, docId: Key, postings: seq<uint64>)
      requires Valid() && NoCollision(index.View(), word) && Posted(index.View(), word, docId) == None
      modifies index.Repr
      ensures Valid() && fresh(index.Repr - old(index.Repr))
      ensures index.View() == AddPosting(old(index.View()), word, docId, postings)
    {
      hide FNVHash64, HashTable.Valid, HashTable.View, Find, Insert, Put, Wf, NumElements, MaybeResize;
      ghost var mi := index.View();
      PostingAdded(mi, word, docId, postings);
      var key := FNVHash(word);
      var miKv := index.Find(key);
      var wp: Value;
      if miKv == None {
        wp := WordPostings(word, Allocate(POSTINGS_TABLE_INIT_BUCKETS));
        InsertFinds(mi, KV(key, wp));
        AllocateWf<Value>(POSTINGS_TABLE_INIT_BUCKETS);
        var unused := index.Insert(KV(key, wp));
      } else {
        wp := miKv.value;
        PostingsAreOk(mi, word);
        assert wp.word == word;
      }
      assert Find(wp.postings, docId) == None;
      index.Update(key, WordPostings(wp.word, Insert(wp.postings, KV(docId, PositionList(postings)))));
    }

    method NewResultList(postings: Table<Value>) returns (retList: LinkedList<Hit>)
      ensures fresh(retList) && fresh(retList.nodes) && retList.Valid() && retList.Contents() == Headers(postings)
    {
      hide LinkAt, LinkedList.Valid;
      retList := new LinkedList();
      var it := 0;
      while it < NumElements(postings)
        invariant 0 <= it <= NumElements(postings) && retList.Valid() && fresh(retList) && fresh(retList.nodes)
        invariant retList.Contents() == HeadersOf(Entries(postings)[..it])
      {
        var kv := Entries(postings)[it];
        ghost var added := retList.Append(HeaderOf(kv));
        it := it + 1;
      }
      assert Entries(postings)[..it] == Entries(postings);
    }

    // One result: its rank grows, or it is removed.
    method FilterOne(llIt: LLIterator<Hit>, postings: Table<Value>)
      requires llIt.Valid() && llIt.idx < |llIt.list.nodes| && HasBuckets(postings)
      modifies llIt, llIt.list, llIt.list.nodes
      ensures llIt.Valid() && Within(llIt.list.nodes, old(llIt.list.nodes))
      ensures llIt.list.Contents() == KeepAt(old(llIt.list.Contents()), old(llIt.idx), postings)
      ensures old(llIt.idx) + 1 < |old(llIt.list.nodes)| ==>
                llIt.idx == old(llIt.idx) + |Keep(old(llIt.list.Contents())[old(llIt.idx)], postings)|
    {
      hide LinkAt, LinkedList.Valid, Find, Delete, KeepAt, Within;
      WithinRefl(llIt.list.nodes);
      WithinDelete(llIt.list.nodes, llIt.idx);
      KeepCases(llIt.list.Contents(), llIt.idx, postings);
      var sr := llIt.Get();
      var postingsKv := Find(postings, sr.docId);
      if postingsKv.Some? {
        llIt.Set(DocIDElementHeader(sr.docId, sr.numPositions + HeaderOf(KV(sr.docId, postingsKv.value)).numPositions));
        var more := llIt.Next();
      } else {
        var more := llIt.Remove();
      }
    }

    // One turn of the loop over the results l: the first j of them have been
    // looked at, and kept of these are left.
    method FilterNext(llIt: LLIterator<Hit>, postings: Table<Value>, ghost l: seq<Hit>, ghost j: nat, ghost kept: nat)
      returns (ghost kept': nat)
      requires llIt.Valid() && llIt.idx == kept && HasBuckets(postings)
      requires j < |l| && Filtering(l, postings, j, llIt.list.Contents(), kept)
      modifies llIt, llIt.list, llIt.list.nodes
      ensures llIt.Valid() && llIt.list.Valid() && Within(llIt.list.nodes, old(llIt.list.nodes))
      ensures Filtering(l, postings, j + 1, llIt.list.Contents(), kept') && (j + 1 < |l| ==> llIt.idx == kept')
    {
      hide LinkAt, LinkedList.Valid, Filter, Keep, Find, KeepAt, Filtering, Within;
      kept' := FilteringStep(l, postings, j, llIt.list.Contents(), kept);
      FilterOne(llIt, postings);
    }

    // One more query word: the results that lack it are removed in place.  The
    // iterator is never used once it is exhausted.
    method FilterResults(retList: LinkedList<Hit>, postings: Table<Value>)
      requires retList.Valid() && HasBuckets(postings)
      modifies retList, retList.nodes
      ensures retList.Valid() && Within(retList.nodes, old(retList.nodes))
      ensures retList.Contents() == Filter(old(retList.Contents()), postings)
    {
      hide LinkAt, LinkedList.Valid, LinkedList.Contents, LLIterator.Valid, Filter, Keep, Find, KeepAt, Filtering,
        Within;
      retList.Counted();
      ghost var l := retList.Contents();
      var llIt := new LLIterator(retList);
      var numDocs := retList.numElements;
      ghost var kept: nat := 0;
      NothingFiltered(l, postings);
      WithinRefl(retList.nodes);
      var j := 0;
      while j < numDocs
        invariant 0 <= j <= numDocs == |l|
        invariant llIt.list == retList && llIt.Valid() && retList.Valid() && fresh(llIt)
        invariant Within(retList.nodes, old(retList.nodes))
        invariant Filtering(l, postings, j, retList.Contents(), kept)
        invariant j < numDocs ==> llIt.idx == kept
      {
        ghost var before := retList.nodes;
        WithinMembers(before, old(retList.nodes));
        kept := FilterNext(llIt, postings, l, j, kept);
        WithinTrans(retList.nodes, before, old(retList.nodes));
        j := j + 1;
      }
      AllFiltered(l, postings, retList.Contents(), kept);
    }

    method Search(query: seq<CString>) returns (retList: LinkedList?<Hit>)
      requires Valid()
      ensures retList == null <==> query == [] || MemHits(index.View(), query, |query|) == None
      ensures retList != null ==>
                fresh(retList) && retList.Valid() &&
                Sorted(SearchResultComparator, false, retList.Contents()) &&
                Stable(SearchResultComparator, MemHits(index.View(), query, |query|).value, retList.Contents())
      ensures retList != null ==>
                forall i, j :: 0 <= i < j < |retList.Contents()| ==>
                  retList.Contents()[i].numPositions >= retList.Contents()[j].numPositions
      ensures retList != null && NoCollisions(index.View(), query) ==>
                Answers(retList.Contents(), index.View(), query, |query|)
      ensures query != [] && NoCollisions(index.View(), query) && Occupied(index.View()) ==>
                (retList == null <==> forall d: Key :: Rank(index.View(), query, |query|, d) == None)
    {
      hide FNVHash64, HashTable.Valid, HashTable.View, Find, LinkAt, LinkedList.Valid, Sorted, Stable, MemIndexOk,
        MemHits,
        NoCollisions, Occupied, Answers, Rank;
      if |query| == 0 {
        return null;
      }
      ghost var mi := index.View();
      if NoCollisions(mi, query) && Occupied(mi) {
        NullMeansNoDocument(mi, query);
      }
      var hits := CollectHits(query);
      if hits == null {
        return null;
      }
      ComparatorRanks();
      ghost var found := hits.Contents();
      hits.Sort(false, SearchResultComparator);
      SortedIsBestFirst(hits.Contents());
      retList := hits;
      if NoCollisions(mi, query) {
        SortedAnswers(mi, query, found, hits.Contents());
      }
    }

    // The unsorted list, built word by word.
    method CollectHits(query: seq<CString>) returns (retList: LinkedList?<Hit>)
      requires Valid() && query != []
      ensures retList == null <==> MemHits(index.View(), query, |query|) == None
      ensures retList != null ==>
                fresh(retList) && fresh(retList.nodes) && retList.Valid() &&
                MemHits(index.View(), query, |query|) == Some(retList.Contents())
    {
      hide FNVHash64, HashTable.Valid, HashTable.View, Find, LinkAt, LinkedList.Valid, MemIndexOk, MemHits, Within,
        PostingsAt;
      ghost var mi := index.View();
      var postings := LookupPostings(query[0]);
      FirstHits(mi, query);
      if postings == None {
        GivenUp(mi, query, 1);
        return null;
      }
      var ret := NewResultList(postings.value);
      var i := 1;
      while i < |query|
        invariant 1 <= i <= |query| && index.View() == mi && Valid()
        invariant fresh(ret) && fresh(ret.nodes) && ret.Valid() && MemHits(mi, query, i) == Some(ret.Contents())
      {
        postings := LookupPostings(query[i]);
        NextHits(mi, query, i);
        if postings == None {
          GivenUp(mi, query, i + 1);
          return null;
        }
        ghost var before := ret.nodes;
        FilterResults(ret, postings.value);
        assert fresh(ret.nodes) by { WithinIsFresh(ret.nodes, before); }
        ret.Counted();
        if ret.numElements == 0 {
          GivenUp(mi, query, i + 1);
          return null;
        }
        i := i + 1;
      }
      retList := ret;
    }

    method LookupPostings(word: CString) returns (r: Option<Table<Value>>)
      requires Valid()
      ensures r == PostingsAt(index.View(), word) && (r.Some? ==> HasBuckets(r.value))
    {
      hide FNVHash64, HashTable.Valid, HashTable.View, Find;
      var key := FNVHash(word);
      var kv := index.Find(key);
      if kv == None {
        return None;
      }
      assert WordEntryOk(KV(key, kv.value));
      r := Some(kv.value.postings);
    }
  }

  lemma FirstHits(mi: Table<Value>, query: seq<CString>)
    requires HasBuckets(mi) && query != []
    ensures var t := PostingsAt(mi, query[0]);
            MemHits(mi, query, 1) == if t.None? || !HasBuckets(t.value) then None else Some(Headers(t.value))
  {
  }

  lemma NextHits(mi: Table<Value>, query: seq<CString>, n: nat)
    requires HasBuckets(mi) && 0 < n < |query| && MemHits(mi, query, n).Some?
    ensures var t, l := PostingsAt(mi, query[n]), MemHits(mi, query, n).value;
            MemHits(mi, query, n + 1) ==
            if t.None? || !HasBuckets(t.value) || Filter(l, t.value) == [] then None else Some(Filter(l, t.value))
  {
  }

  // ---------- Nodes of a shrinking list ----------

  ghost predicate Within<T>(a: seq<Node<T>>, b: seq<Node<T>>) {
    forall i :: 0 <= i < |a| ==> a[i] in b
  }

  lemma WithinMembers<T>(a: seq<Node<T>>, b: seq<Node<T>>)
    requires Within(a, b)
    ensures forall i :: 0 <= i < |a| ==> a[i] in b
  {
  }

  lemma WithinRefl<T>(a: seq<Node<T>>)
    ensures Within(a, a)
  {
  }

  lemma WithinTrans<T>(a: seq<Node<T>>, b: seq<Node<T>>, c: seq<Node<T>>)
    requires Within(a, b) && Within(b, c)
    ensures Within(a, c)
  {
  }

  lemma WithinDelete<T>(a: seq<Node<T>>, i: nat)
    requires i < |a|
    ensures Within(Delete(a, i), a)
  {
    DeleteKeeps(a, i);
  }

  twostate lemma WithinIsFresh<T>(new a: seq<Node<T>>, new b: seq<Node<T>>)
    requires Within(a, b) && fresh(b)
    ensures fresh(a)
  {
  }

  // ---------- Steps of the filter loop ----------

  function KeepAt(l: seq<Hit>, i: nat, t: Table<Value>): seq<Hit>
    requires i < |l| && HasBuckets(t)
  {
    l[..i] + Keep(l[i], t) + l[i + 1..]
  }

  lemma KeepCases(l: seq<Hit>, i: nat, t: Table<Value>)
    requires i < |l| && HasBuckets(t)
    ensures var r := Find(t, l[i].docId);
            if r.None? then KeepAt(l, i, t) == Delete(l, i) && |Keep(l[i], t)| == 0
            else
              |Keep(l[i], t)| == 1 &&
              KeepAt(l, i, t) ==
              l[i := DocIDElementHeader(l[i].docId, l[i].numPositions + HeaderOf(KV(l[i].docId, r.value)).numPositions)]
  {
  }

  // After j of the results l have been looked at, the list holds the kept ones
  // followed by the others.
  ghost predicate Filtering(l: seq<Hit>, t: Table<Value>, j: nat, now: seq<Hit>, kept: nat)
    requires HasBuckets(t)
  {
    j <= |l| && kept <= |now| && now[kept..] == l[j..] && now[..kept] + Filter(l[j..], t) == Filter(l, t)
  }

  lemma NothingFiltered(l: seq<Hit>, t: Table<Value>)
    requires HasBuckets(t)
    ensures Filtering(l, t, 0, l, 0)
  {
    hide Filter;
    assert l[0..] == l;
  }

  lemma FilteringStep(l: seq<Hit>, t: Table<Value>, j: nat, now: seq<Hit>, kept: nat) returns (kept': nat)
    requires HasBuckets(t) && j < |l| && Filtering(l, t, j, now, kept)
    ensures kept < |now| && (j + 1 < |l| ==> kept + 1 < |now|)
    ensures kept' == kept + |Keep(now[kept], t)| && Filtering(l, t, j + 1, KeepAt(now, kept, t), kept')
  {
    hide Filter, Keep;
    var rest := l[j + 1..];
    assert l[j..] == [l[j]] + rest;
    FilterCons(l[j], rest, t);
    assert now[kept] == now[kept..][0] == l[j];
    assert now[kept + 1..] == now[kept..][1..] == rest;
    var k := Keep(l[j], t);
    var now' := KeepAt(now, kept, t);
    assert now' == (now[..kept] + k) + rest;
    kept' := kept + |k|;
    assert now'[..kept + |k|] == now[..kept] + k && now'[kept + |k|..] == rest;
  }

  lemma AllFiltered(l: seq<Hit>, t: Table<Value>, now: seq<Hit>, kept: nat)
    requires HasBuckets(t) && Filtering(l, t, |l|, now, kept)
    ensures now == Filter(l, t)
  {
    assert now == now[..kept] + now[kept..];
  }

  lemma ComparatorRanks()
    ensures Ranks(SearchResultComparator)
  {
  }

  // ---------- The search against its meaning and against the disk reader ----------

  ghost predicate NoCollisions(mi: Table<Value>, query: seq<CString>)
    requires HasBuckets(mi)
  {
    forall i :: 0 <= i < |query| ==> NoCollision(mi, query[i])
  }

  lemma {:induction false} FilterIsMerge(l: seq<Hit>, t: Table<Value>)
    requires PostingsOk(t)
    ensures Filter(l, t) == Merge(l, Headers(t))
  {
    assert Placed(t);
    hide Find, IndexIn, Wf, Placed;
    if l != [] {
      FilterIsMerge(l[1..], t);
      LookInEntries(t, l[0].docId);
      HeaderIndex(Entries(t), l[0].docId);
    }
  }

  lemma SamePostings(mi: Table<Value>, word: CString)
    requires MemIndexOk(mi) && NoCollision(mi, word)
    ensures PostingsAt(mi, word) == PostingsOf(mi, word)
    ensures PostingsAt(mi, word).Some? ==> PostingsOk(PostingsAt(mi, word).value)
  {
    hide FNVHash64, Find;
    if Find(mi, FNVHash64(word)).Some? {
      PostingsAreOk(mi, word);
    }
  }

  // Word by word, memory and disk find the same documents with the same ranks.
  lemma {:induction false} HitsAgree(mi: Table<Value>, query: seq<CString>, n: nat)
    requires MemIndexOk(mi) && NoCollisions(mi, query) && 0 < n <= |query|
    ensures MemHits(mi, query, n).Some? ==> Hits(mi, query, n) == MemHits(mi, query, n)
    ensures MemHits(mi, query, n).None? ==> Hits(mi, query, n) == None || Hits(mi, query, n) == Some([])
  {
    hide FNVHash64, Find, MemIndexOk, NoCollision, PostingsAt, PostingsOf, Filter, Merge, Wf;
    SamePostings(mi, query[n - 1]);
    var t := PostingsAt(mi, query[n - 1]);
    if n > 1 {
      HitsAgree(mi, query, n - 1);
      if t.Some? {
        MergeEmpty(Headers(t.value));
        if MemHits(mi, query, n - 1).Some? {
          FilterIsMerge(MemHits(mi, query, n - 1).value, t.value);
        }
      }
    }
  }

  lemma CollisionMeansNoHits(mi: Table<Value>, query: seq<CString>, i: nat)
    requires HasBuckets(mi) && i < |query| && !NoCollision(mi, query[i])
    ensures HitList(mi, query) == []
  {
    EmptyStaysEmpty(mi, query, i + 1);
  }

  function MemHitList(mi: Table<Value>, query: seq<CString>): seq<Hit>
    requires HasBuckets(mi) && query != []
  {
    var l := MemHits(mi, query, |query|);
    if l.Some? then l.value else []
  }

  // The document is filed under the hash of each of the first n query words.
  ghost predicate FiledUnderAll(mi: Table<Value>, query: seq<CString>, n: nat, d: Key)
    requires HasBuckets(mi) && n <= |query|
  {
    forall i :: 0 <= i < n ==> FiledUnder(mi, query[i], d)
  }

  predicate FiledUnder(mi: Table<Value>, word: CString, d: Key)
    requires HasBuckets(mi)
  {
    var t := PostingsAt(mi, word);
    t.Some? && HasBuckets(t.value) && Find(t.value, d).Some?
  }

  lemma PostingsAtAreOk(mi: Table<Value>, word: CString)
    requires MemIndexOk(mi) && PostingsAt(mi, word).Some?
    ensures PostingsOk(PostingsAt(mi, word).value)
  {
    hide FNVHash64, Find;
    var key := FNVHash64(word);
    assert WordEntryOk(KV(key, Find(mi, key).value));
  }

  // The results after n words are the documents filed under all their hashes.
  lemma {:induction false} HitsAreFiled(mi: Table<Value>, query: seq<CString>, n: nat, d: Key)
    requires MemIndexOk(mi) && 0 < n <= |query|
    ensures MemHits(mi, query, n).Some? && RankIn(MemHits(mi, query, n).value, d).Some? <==>
            FiledUnderAll(mi, query, n, d)
  {
    hide MemIndexOk, PostingsAt, Find, Filter, Merge, Wf;
    var t := PostingsAt(mi, query[n - 1]);
    assert FiledUnderAll(mi, query, n, d) <==>
           (n > 1 ==> FiledUnderAll(mi, query, n - 1, d)) && FiledUnder(mi, query[n - 1], d);
    if t.Some? {
      PostingsAtAreOk(mi, query[n - 1]);
      HeadersAnswer(t.value, d);
      if n > 1 {
        HitsAreFiled(mi, query, n - 1, d);
        if MemHits(mi, query, n - 1).Some? {
          FilterIsMerge(MemHits(mi, query, n - 1).value, t.value);
          MergeRank(MemHits(mi, query, n - 1).value, Headers(t.value), d);
        }
      }
    }
  }

  lemma EmptyMeansNoneFiled(mi: Table<Value>, query: seq<CString>)
    requires MemIndexOk(mi) && query != []
    ensures MemHitList(mi, query) == [] <==> forall d: Key :: !FiledUnderAll(mi, query, |query|, d)
  {
    hide MemIndexOk, FiledUnderAll, MemHits;
    var l := MemHitList(mi, query);
    if l != [] {
      HitsAreFiled(mi, query, |query|, l[0].docId);
      assert RankIn(l, l[0].docId).Some?;
    } else {
      forall d: Key ensures !FiledUnderAll(mi, query, |query|, d) {
        HitsAreFiled(mi, query, |query|, d);
        assert RankIn([], d) == None;
      }
    }
  }

  // The in-memory search finds what the disk reader finds exactly when no
  // query word shares its hash with another word of the index, or no document
  // is filed under the hashes of all of them: the disk reader compares the
  // words, the search does not.
  lemma MemoryAgreesWithDisk(mi: Table<Value>, query: seq<CString>)
    requires MemIndexOk(mi) && query != []
    ensures MemHitList(mi, query) == HitList(mi, query) <==>
            NoCollisions(mi, query) || forall d: Key :: !FiledUnderAll(mi, query, |query|, d)
  {
    hide FNVHash64, Find, MemIndexOk, NoCollision, PostingsAt, PostingsOf, Filter, Merge, MemHits, Hits, FiledUnderAll;
    EmptyMeansNoneFiled(mi, query);
    if NoCollisions(mi, query) {
      HitsAgree(mi, query, |query|);
    } else {
      var i :| 0 <= i < |query| && !NoCollision(mi, query[i]);
      CollisionMeansNoHits(mi, query, i);
    }
  }

  // An index that holds one of two colliding words, once, in document 1.
  lemma CollidingWord(mi: Table<Value>)
    requires mi == AddPosting(Allocate(POSTINGS_TABLE_INIT_BUCKETS), FIRST_STRING, 1, [0])
    ensures MemHitList(mi, [SECOND_STRING]) == [DocIDElementHeader(1, 1)] && HitList(mi, [SECOND_STRING]) == []
    ensures MemHits(mi, [SECOND_STRING], 1).Some? && PostingsOf(mi, SECOND_STRING) == None
  {
    hide FNVHash64, Find, Insert, Put, Wf, NumElements, Allocate, Placed, FIRST_STRING, SECOND_STRING;
    StringsCollide();
    var key, none: Table<Value> := FNVHash64(FIRST_STRING), Allocate(POSTINGS_TABLE_INIT_BUCKETS);
    var kv := KV(1, PositionList([0]));
    AllocateWf<Value>(POSTINGS_TABLE_INIT_BUCKETS);
    var t := Insert(none, kv);
    InsertFinds(none, kv);
    InsertFinds(none, KV(key, WordPostings(FIRST_STRING, none)));
    PutKeepsWf(Insert(none, KV(key, WordPostings(FIRST_STRING, none))), KV(key, WordPostings(FIRST_STRING, t)));
    assert PostingsAt(mi, SECOND_STRING) == Some(t);
    OnlyEntry(t, kv);
    assert HeadersOf([kv]) == [DocIDElementHeader(1, 1)];
  }

  lemma OnlyEntry(t: Table<Value>, kv: KV<Value>)
    requires Wf(t) && NumElements(t) == 1 && Find(t, kv.key) == Some(kv.value)
    ensures Entries(t) == [kv]
  {
    hide Find;
    EntriesAreFound(t, kv);
  }

  // A run in which a collision shows: the search in memory answers a query for
  // one word with the document of another, which the reader of a file does not.
  method SearchCollidingWord() returns (index: MemIndex, results: LinkedList<Hit>)
    ensures index.Valid() && results.Valid() && results.Contents() == [DocIDElementHeader(1, 1)]
    ensures PostingsOf(index.index.View(), SECOND_STRING) == None
    ensures HitList(index.index.View(), [SECOND_STRING]) == []
  {
    hide FNVHash64, HashTable.Valid, HashTable.View, HashTable.Separate, Find, Insert, Put, Wf, NumElements, AddPosting,
      Allocate, LinkedList.Valid, Sorted, Peers, MemHits, HitList, FIRST_STRING, SECOND_STRING, Occupied, Answers, Rank;
    index := new MemIndex();
    NothingPosted();
    index.AddPostingList(FIRST_STRING, 1, [0]);
    CollidingWord(index.index.View());
    var r := index.Search([SECOND_STRING]);
    results := r;
    SingletonPermutes(DocIDElementHeader(1, 1), results.Contents());
  }

  lemma NothingPosted()
    ensures var none: Table<Value> := Allocate(POSTINGS_TABLE_INIT_BUCKETS);
            HasBuckets(none) && forall w: CString :: NoCollision(none, w) && forall d: Key :: Posted(none, w, d) == None
  {
    hide FNVHash64, Find;
    AllocateWf<Value>(POSTINGS_TABLE_INIT_BUCKETS);
  }

  lemma SingletonPermutes(x: Hit, s: seq<Hit>)
    requires multiset(s) == multiset([x])
    ensures s == [x]
  {
    assert |multiset(s)| == 1;
    assert s[0] in multiset(s);
  }

  // The search fails exactly when no document contains every query word.
  lemma NullMeansNoDocument(mi: Table<Value>, query: seq<CString>)
    requires MemIndexOk(mi) && Occupied(mi) && query != [] && NoCollisions(mi, query)
    ensures MemHits(mi, query, |query|) == None <==> forall d: Key :: Rank(mi, query, |query|, d) == None
  {
    hide FNVHash64, Find, MemIndexOk, NoCollisions, PostingsOf, Filter, Merge, Hits, HitList, MemHits, Rank;
    MemoryAgreesWithDisk(mi, query);
    HitListAnswers(mi, query);
    var r := MemHits(mi, query, |query|);
    if r.Some? {
      HitsNotEmpty(mi, query);
      assert MemHitList(mi, query) == r.value;
      var d: Key := r.value[0].docId;
      assert RankIn(r.value, d).Some?;
      assert Rank(mi, query, |query|, d) != None;
    } else {
      forall d: Key ensures Rank(mi, query, |query|, d) == None {
        assert RankIn([], d) == None;
      }
    }
  }

  lemma HitsNotEmpty(mi: Table<Value>, query: seq<CString>)
    requires MemIndexOk(mi) && Occupied(mi) && query != [] && MemHits(mi, query, |query|).Some?
    ensures MemHits(mi, query, |query|).value != []
  {
    hide FNVHash64, Find, MemIndexOk;
    if |query| == 1 {
      assert NumElements(PostingsAt(mi, query[0]).value) > 0;
    }
  }

  lemma SortedAnswers(mi: Table<Value>, query: seq<CString>, l: seq<Hit>, l': seq<Hit>)
    requires MemIndexOk(mi) && query != [] && NoCollisions(mi, query)
    requires MemHits(mi, query, |query|) == Some(l) && Stable(SearchResultComparator, l, l')
    ensures Answers(l', mi, query, |query|)
  {
    hide MemIndexOk, NoCollisions, Answers, Peers, HitList, MemHits;
    MemoryAgreesWithDisk(mi, query);
    HitListAnswers(mi, query);
    RearrangedAnswers(l, l', mi, query, |query|);
  }

  // ---------- Rearranging a list of hits ----------

  lemma RankIsMember(l: seq<Hit>, d: Key, r: nat)
    requires DistinctDocs(l)
    ensures RankIn(l, d) == Some(r) <==> DocIDElementHeader(d, r) in l
  {
    RankAtIndex(l, d);
  }

  lemma {:induction false} DistinctOnce(l: seq<Hit>, x: Hit)
    requires DistinctDocs(l)
    ensures multiset(l)[x] <= 1
  {
    if l != [] {
      assert l == [l[0]] + l[1..];
      DistinctOnce(l[1..], x);
      if x == l[0] {
        assert x !in l[1..];
      }
    }
  }

  lemma TwiceCounted<T>(s: seq<T>, i: nat, j: nat)
    requires i < j < |s| && s[i] == s[j]
    ensures multiset(s)[s[i]] >= 2
  {
    assert s == s[..i] + [s[i]] + s[i + 1..j] + [s[j]] + s[j + 1..];
  }

  lemma RearrangedAnswers(l: seq<Hit>, l': seq<Hit>, mi: Table<Value>, query: seq<CString>, n: nat)
    requires HasBuckets(mi) && 0 < n <= |query| && Answers(l, mi, query, n) && multiset(l') == multiset(l)
    ensures Answers(l', mi, query, n)
  {
    hide Rank;
    forall h ensures h in l' <==> h in l {
      assert h in multiset(l') <==> h in multiset(l);
    }
    forall i, j | 0 <= i < j < |l'| ensures l'[i].docId != l'[j].docId {
      if l'[i].docId == l'[j].docId {
        assert l'[i] in l && l'[j] in l;
        RankIsMember(l, l'[i].docId, l'[i].numPositions);
        RankIsMember(l, l'[i].docId, l'[j].numPositions);
        TwiceCounted(l', i, j);
        DistinctOnce(l, l'[i]);
      }
    }
    forall d: Key ensures RankIn(l', d) == RankIn(l, d) {
      if RankIn(l', d).Some? { RankIsMember(l', d, RankIn(l', d).value); RankIsMember(l, d, RankIn(l', d).value); }
      if RankIn(l, d).Some? { RankIsMember(l', d, RankIn(l, d).value); RankIsMember(l, d, RankIn(l, d).value); }
    }
  }
}
