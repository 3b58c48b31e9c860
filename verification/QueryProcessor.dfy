// Queries against index files (hw3/QueryProcessor.cc).
module QueryProcessing {
  import opened Bytes
  import opened Wrappers
  import opened Tables
  import opened Files
  import opened Layout
  import opened IndexImage
  import opened Readers
  import opened Search
  import opened IndexReader

  datatype QueryResult = QueryResult(documentName: CString, rank: nat)

  // The tables an index file was written from.
  datatype Corpus = Corpus(dt: Table<Value>, mi: Table<Value>)

  // Every document of the word index is registered in the document table.
  ghost predicate CorpusOk(c: Corpus)
    ensures CorpusOk(c) ==> HasBuckets(c.dt) && HasBuckets(c.mi)
  {
    HasBuckets(c.dt) && MemIndexOk(c.mi) &&
    forall w: CString, d: Key :: Count(c.mi, w, d).Some? ==> NameIn(c.dt, d).Some?
  }

  function Named(dt: Table<Value>, l: seq<Hit>): seq<QueryResult>
    requires HasBuckets(dt)
  {
    if l == [] then []
    else
      var name := NameIn(dt, l[|l| - 1].docId);
      Named(dt, l[..|l| - 1]) +
      (if name.Some? then [QueryResult(name.value, l[|l| - 1].numPositions)] else [])
  }

  // The results of the first n indices, unsorted.
  function Results(cs: seq<Corpus>, query: seq<CString>, n: nat): seq<QueryResult>
    requires n <= |cs| && query != []
    requires forall i :: 0 <= i < |cs| ==> HasBuckets(cs[i].dt) && HasBuckets(cs[i].mi)
  {
    if n == 0 then []
    else Results(cs, query, n - 1) + Named(cs[n - 1].dt, HitList(cs[n - 1].mi, query))
  }

  predicate RankSorted(l: seq<QueryResult>) {
    forall i, j :: 0 <= i < j < |l| ==> l[i].rank >= l[j].rank
  }

  lemma SortedIsBestFirst(l: seq<QueryResult>)
    requires RankSorted(l)
    ensures forall i, j :: 0 <= i < j < |l| ==> l[i].rank >= l[j].rank
  {
  }

  method InsertSorted(r: seq<QueryResult>, x: QueryResult) returns (r': seq<QueryResult>)
    requires RankSorted(r)
    ensures multiset(r') == multiset(r) + multiset{x} && RankSorted(r')
  {
    hide RankSorted;
    var k := 0;
    while k < |r| && r[k].rank >= x.rank
      invariant 0 <= k <= |r| && forall j :: 0 <= j < k ==> r[j].rank >= x.rank
    {
      k := k + 1;
    }
    r' := r[..k] + [x] + r[k..];
    InsertedRanks(r, k, x);
    assert r == r[..k] + r[k..];
  }

  lemma InsertedRanks(r: seq<QueryResult>, k: nat, x: QueryResult)
    requires k <= |r| && RankSorted(r)
    requires forall j :: 0 <= j < k ==> r[j].rank >= x.rank
    requires k < |r| ==> r[k].rank < x.rank
    ensures RankSorted(r[..k] + [x] + r[k..])
  {
    var s := r[..k] + [x] + r[k..];
    forall i, j | 0 <= i < j < |s| ensures s[i].rank >= s[j].rank {
      assert s[i] == if i < k then r[i] else if i == k then x else r[i - 1];
      assert s[j] == if j < k then r[j] else if j == k then x else r[j - 1];
    }
  }

  // std::sort with QueryResult's operator<: some ordered rearrangement.
  method StdSort(v: seq<QueryResult>) returns (r: seq<QueryResult>)
    ensures multiset(r) == multiset(v) && RankSorted(r)
  {
    r := [];
    var i := 0;
    while i < |v|
      invariant 0 <= i <= |v| && RankSorted(r) && multiset(r) == multiset(v[..i])
    {
      assert v[..i + 1] == v[..i] + [v[i]];
      r := InsertSorted(r, v[i]);
      i := i + 1;
    }
    assert v[..i] == v;
  }

  method MergeResult(list1: seq<Hit>, list2: seq<Hit>) returns (result: seq<Hit>)
    ensures result == Merge(list1, list2)
  {
    hide Merge;
    result := [];
    var i := 0;
    while i < |list1|
      invariant 0 <= i <= |list1| && result + Merge(list1[i..], list2) == Merge(list1, list2)
    {
      ghost var before := result;
      assert list1[i..] == [list1[i]] + list1[i + 1..];
      MergeCons(list1[i], list1[i + 1..], list2);
      var j := 0;
      while j < |list2|
        invariant 0 <= j <= |list2| && result == before
        invariant forall k :: 0 <= k < j ==> list2[k].docId != list1[i].docId
      {
        if list1[i].docId == list2[j].docId {
          result := result + [DocIDElementHeader(list1[i].docId, list1[i].numPositions + list2[j].numPositions)];
          break;
        }
        j := j + 1;
      }
      assert j == IndexOfDoc(list2, list1[i].docId);
      i := i + 1;
    }
    assert list1[i..] == [];
    MergeEmpty(list2);
  }

  lemma MergeCons(h: Hit, l: seq<Hit>, m: seq<Hit>)
    ensures Merge([h] + l, m) == MergeOne(h, m) + Merge(l, m)
  {
    hide MergeOne;
    assert ([h] + l)[1..] == l;
  }

  // The part of ProcessQuery that finds the documents of one index.
  method MatchingDocs(itr: IndexTableReader, query: seq<CString>, ghost mi: Table<Value>)
    returns (isValid: bool, idList: seq<Hit>)
    requires itr.ht.On(WordToPostings, mi) && MemIndexOk(mi) && query != []
    modifies itr.ht.file`pos
    ensures (if isValid then idList else []) == HitList(mi, query)
  {
    hide TableAt, MemIndexOk, PostingsOf, Merge, HeadersOf;
    idList := [];
    var currDidtr := itr.LookupWord(query[0], mi);
    if currDidtr == null {
      EmptyStaysEmpty(mi, query, 1);
      return false, [];
    }
    idList := currDidtr.GetDocIDList(PostingsOf(mi, query[0]).value);
    isValid := true;
    var j := 1;
    while j < |query|
      invariant 1 <= j <= |query| && isValid
      invariant Hits(mi, query, j) == Some(idList)
    {
      var currDocID := itr.LookupWord(query[j], mi);
      if currDocID == null {
        EmptyStaysEmpty(mi, query, j + 1);
        return false, idList;
      }
      var idListTmp := currDocID.GetDocIDList(PostingsOf(mi, query[j]).value);
      idList := MergeResult(idList, idListTmp);
      if |idList| == 0 {
        EmptyStaysEmpty(mi, query, j + 1);
        return true, idList;
      }
      j := j + 1;
    }
  }

  // The part of ProcessQuery that names the documents found; the check that
  // each one is registered never fails.
  method NameDocs(dtr: DocTableReader, idList: seq<Hit>, ghost dt: Table<Value>) returns (results: seq<QueryResult>)
    requires dtr.ht.On(DocidToDocname, dt) && HasBuckets(dt)
    requires forall i :: 0 <= i < |idList| ==> NameIn(dt, idList[i].docId).Some?
    modifies dtr.ht.file`pos
    ensures results == Named(dt, idList)
  {
    hide TableAt, NameIn;
    results := [];
    var i := 0;
    while i < |idList|
      invariant 0 <= i <= |idList| && results == Named(dt, idList[..i])
    {
      var name := dtr.LookupDocID(idList[i].docId, dt);
      assert name.Some?;
      assert idList[..i + 1][..i] == idList[..i];
      results := results + [QueryResult(name.value, idList[i].numPositions)];
      i := i + 1;
    }
    assert idList[..i] == idList;
  }

  lemma HitsAreNamed(c: Corpus, query: seq<CString>)
    requires CorpusOk(c) && query != []
    ensures forall i :: 0 <= i < |HitList(c.mi, query)| ==> NameIn(c.dt, HitList(c.mi, query)[i].docId).Some?
  {
    hide MemIndexOk, NameIn, HitList;
    HitListAnswers(c.mi, query);
    var l := HitList(c.mi, query);
    forall i | 0 <= i < |l| ensures NameIn(c.dt, l[i].docId).Some? {
      RankAtIndex(l, l[i].docId);
      assert Rank(c.mi, query, |query|, l[i].docId).Some?;
      assert Count(c.mi, query[|query| - 1], l[i].docId).Some?;
    }
  }

  class QueryProcessor {
    const files: set<IndexFile>
    const dtrArray: seq<DocTableReader>
    const itrArray: seq<IndexTableReader>
    ghost const corpora: seq<Corpus>

    ghost predicate Valid()
      reads files`bytes
    {
      |dtrArray| == |itrArray| == |corpora| &&
      forall i :: 0 <= i < |corpora| ==>
        dtrArray[i].ht.file in files && itrArray[i].ht.file in files && CorpusOk(corpora[i]) &&
        dtrArray[i].ht.On(DocidToDocname, corpora[i].dt) && itrArray[i].ht.On(WordToPostings, corpora[i].mi)
    }

    constructor (images: seq<seq<byte>>, validate: bool, ghost corpora: seq<Corpus>)
      requires |images| == |corpora| > 0
      requires forall i :: 0 <= i < |images| ==>
                 |images[i]| < TWO_31 && CorpusOk(corpora[i]) && IndexAt(images[i], corpora[i].dt, corpora[i].mi)
      ensures Valid() && fresh(files) && this.corpora == corpora
    {
      hide TableAt, CorpusOk, IndexAt, Accepts, HashTableReader.On;
      var fs: set<IndexFile> := {};
      var dtrs: seq<DocTableReader> := [];
      var itrs: seq<IndexTableReader> := [];
      var i := 0;
      while i < |images|
        invariant 0 <= i == |dtrs| == |itrs| <= |images| && fresh(fs)
        invariant forall k :: 0 <= k < i ==>
                    dtrs[k].ht.file in fs && itrs[k].ht.file in fs &&
                    dtrs[k].ht.On(DocidToDocname, corpora[k].dt) && itrs[k].ht.On(WordToPostings, corpora[k].mi)
      {
        ghost var c := corpora[i];
        CompleteIsAccepted(images[i], c.dt, c.mi, validate);
        var fir := FileIndexReader.Open(images[i], validate);
        var dtr := fir.NewDocTableReader(c.dt, c.mi);
        var itr := fir.NewIndexTableReader(c.dt, c.mi);
        fs, dtrs, itrs := fs + {fir.file}, dtrs + [dtr], itrs + [itr];
        i := i + 1;
      }
      files, dtrArray, itrArray := fs, dtrs, itrs;
      this.corpora := corpora;
    }

    method ProcessQuery(query: seq<CString>) returns (finalResult: seq<QueryResult>)
      requires Valid() && query != []
      modifies files`pos
      ensures Valid() && RankSorted(finalResult)
      ensures forall i, j :: 0 <= i < j < |finalResult| ==> finalResult[i].rank >= finalResult[j].rank
      ensures multiset(finalResult) == multiset(Results(corpora, query, |corpora|))
    {
      hide TableAt, CorpusOk, HitList, Named, RankSorted, HashTableReader.On;
      finalResult := [];
      var i := 0;
      while i < |dtrArray|
        invariant 0 <= i <= |dtrArray| && Valid()
        invariant finalResult == Results(corpora, query, i)
      {
        ghost var c := corpora[i];
        HitsAreNamed(c, query);
        CorpusIndexOk(c);
        var isValid, idList := MatchingDocs(itrArray[i], query, c.mi);
        if isValid {
          var results := NameDocs(dtrArray[i], idList, c.dt);
          finalResult := finalResult + results;
        } else {
          NamedNothing(c.dt);
        }
        i := i + 1;
      }
      finalResult := StdSort(finalResult);
      SortedIsBestFirst(finalResult);
    }
  }

  lemma CorpusIndexOk(c: Corpus)
    requires CorpusOk(c)
    ensures MemIndexOk(c.mi)
  {
  }

  lemma NamedNothing(dt: Table<Value>)
    requires HasBuckets(dt)
    ensures Named(dt, []) == []
  {
  }
}
