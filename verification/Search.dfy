// What a conjunctive query means, and the lists of hits the disk reader and
// the in-memory search build for it.
module Search {
  import opened Bytes
  import opened Wrappers
  import opened Tables
  import opened Layout
  import opened Fnv
  import opened Readers

  // ---------- The meaning of a query ----------

  // How often the word occurs in the document.
  function Count(mi: Table<Value>, word: CString, d: Key): Option<nat>
    requires HasBuckets(mi)
  {
    var t := PostingsOf(mi, word);
    if t.Some? && HasBuckets(t.value) && Find(t.value, d).Some? then
      Some(HeaderOf(KV(d, Find(t.value, d).value)).numPositions)
    else None
  }

  // The rank of a document that contains each of the first n query words; None
  // for any other document.
  function Rank(mi: Table<Value>, query: seq<CString>, n: nat, d: Key): Option<nat>
    requires HasBuckets(mi) && 0 < n <= |query|
  {
    var c := Count(mi, query[n - 1], d);
    if n == 1 then c
    else
      var r := Rank(mi, query, n - 1, d);
      if r.Some? && c.Some? then Some(r.value + c.value) else None
  }

  type Hit = DocIDElementHeader

  ghost predicate DistinctDocs(l: seq<Hit>) {
    forall i, j :: 0 <= i < j < |l| ==> l[i].docId != l[j].docId
  }

  function IndexOfDoc(l: seq<Hit>, d: Key): (i: nat)
    ensures i <= |l|
    ensures i < |l| ==> l[i].docId == d
    ensures forall j :: 0 <= j < i ==> l[j].docId != d
  {
    if l == [] || l[0].docId == d then 0 else 1 + IndexOfDoc(l[1..], d)
  }

  function RankIn(l: seq<Hit>, d: Key): Option<nat> {
    if l == [] then None
    else if l[0].docId == d then Some(l[0].numPositions)
    else RankIn(l[1..], d)
  }

  lemma {:induction false} RankAtIndex(l: seq<Hit>, d: Key)
    ensures RankIn(l, d) == var i := IndexOfDoc(l, d); if i < |l| then Some(l[i].numPositions) else None
  {
    if l != [] && l[0].docId != d { RankAtIndex(l[1..], d); }
  }

  // The list holds exactly the documents that contain each of the first n
  // words, each once, with its rank.
  ghost predicate Answers(l: seq<Hit>, mi: Table<Value>, query: seq<CString>, n: nat)
    requires HasBuckets(mi) && 0 < n <= |query|
  {
    DistinctDocs(l) && forall d: Key :: RankIn(l, d) == Rank(mi, query, n, d)
  }

  // ---------- The reader's list ----------

  // The candidate with its rank increased, unless the second list lacks it.
  function MergeOne(h: Hit, m: seq<Hit>): seq<Hit> {
    var i := IndexOfDoc(m, h.docId);
    if i < |m| then [DocIDElementHeader(h.docId, h.numPositions + m[i].numPositions)] else []
  }

  function Merge(l: seq<Hit>, m: seq<Hit>): seq<Hit> {
    if l == [] then [] else MergeOne(l[0], m) + Merge(l[1..], m)
  }

  function Headers(t: Table<Value>): seq<Hit> { HeadersOf(Entries(t)) }

  // The candidates after n query words; None once a word is not in the index.
  function Hits(mi: Table<Value>, query: seq<CString>, n: nat): Option<seq<Hit>>
    requires HasBuckets(mi) && 0 < n <= |query|
  {
    var t := PostingsOf(mi, query[n - 1]);
    if n == 1 then (if t.Some? then Some(Headers(t.value)) else None)
    else
      var l := Hits(mi, query, n - 1);
      if l.Some? && t.Some? then Some(Merge(l.value, Headers(t.value))) else None
  }

  function HitList(mi: Table<Value>, query: seq<CString>): seq<Hit>
    requires HasBuckets(mi) && query != []
  {
    var l := Hits(mi, query, |query|);
    if l.Some? then l.value else []
  }

  // ---------- The reader's list answers the query ----------

  lemma HeaderIndex(es: seq<KV<Value>>, d: Key)
    ensures IndexOfDoc(HeadersOf(es), d) == IndexIn(es, d)
  {
    var i, j := IndexOfDoc(HeadersOf(es), d), IndexIn(es, d);
    assert i < |es| ==> HeadersOf(es)[i].docId == es[i].key;
    assert j < |es| ==> HeadersOf(es)[j].docId == es[j].key;
  }

  lemma HeadersAnswer(t: Table<Value>, d: Key)
    requires PostingsOk(t)
    ensures DistinctDocs(Headers(t))
    ensures RankIn(Headers(t), d) ==
            if Find(t, d).Some? then Some(HeaderOf(KV(d, Find(t, d).value)).numPositions) else None
  {
    EntriesDistinct(t);
    LookInEntries(t, d);
    HeaderIndex(Entries(t), d);
    RankAtIndex(Headers(t), d);
  }

  lemma {:induction false} MergeDocs(l: seq<Hit>, m: seq<Hit>, d: Key)
    requires d in (set h | h in Merge(l, m) :: h.docId)
    ensures d in (set h | h in l :: h.docId)
  {
    if l != [] {
      var h :| h in Merge(l, m) && h.docId == d;
      if d != l[0].docId {
        assert h in Merge(l[1..], m);
        MergeDocs(l[1..], m, d);
      } else {
        assert l[0] in l;
      }
    }
  }

  lemma {:induction false} MergeDistinct(l: seq<Hit>, m: seq<Hit>)
    requires DistinctDocs(l)
    ensures DistinctDocs(Merge(l, m))
  {
    if l != [] {
      MergeDistinct(l[1..], m);
      var rest := Merge(l[1..], m);
      forall i | 0 <= i < |rest| ensures rest[i].docId != l[0].docId {
        assert rest[i] in rest;
        MergeDocs(l[1..], m, rest[i].docId);
        var h :| h in l[1..] && h.docId == rest[i].docId;
        var j :| 0 <= j < |l[1..]| && l[1..][j] == h;
        assert l[j + 1] == h;
      }
    }
  }

  lemma RankCons(l: seq<Hit>, m: seq<Hit>, d: Key)
    requires l != []
    ensures var i := IndexOfDoc(m, l[0].docId);
            RankIn(Merge(l, m), d) ==
            if i < |m| && l[0].docId == d then Some(l[0].numPositions + m[i].numPositions)
            else RankIn(Merge(l[1..], m), d)
  {
    var i := IndexOfDoc(m, l[0].docId);
    var rest := Merge(l[1..], m);
    if i < |m| {
      assert Merge(l, m)[1..] == rest;
    } else {
      assert Merge(l, m) == rest;
    }
  }

  lemma {:induction false} MergeRank(l: seq<Hit>, m: seq<Hit>, d: Key)
    ensures RankIn(Merge(l, m), d) ==
            if RankIn(l, d).Some? && RankIn(m, d).Some? then Some(RankIn(l, d).value + RankIn(m, d).value) else None
  {
    RankAtIndex(m, d);
    if l != [] {
      RankCons(l, m, d);
      MergeRank(l[1..], m, d);
    }
  }

  lemma NextAnswers(l: seq<Hit>, mi: Table<Value>, query: seq<CString>, n: nat)
    requires MemIndexOk(mi) && 0 < n < |query| && Answers(l, mi, query, n)
    ensures var t := PostingsOf(mi, query[n]);
            Answers(if t.Some? then Merge(l, Headers(t.value)) else [], mi, query, n + 1)
  {
    hide MemIndexOk, FNVHash64;
    var t := PostingsOf(mi, query[n]);
    if t.Some? {
      PostingsAreOk(mi, query[n]);
      MergeDistinct(l, Headers(t.value));
      forall d: Key ensures RankIn(Merge(l, Headers(t.value)), d) == Rank(mi, query, n + 1, d) {
        HeadersAnswer(t.value, d);
        MergeRank(l, Headers(t.value), d);
      }
    }
  }

  lemma PostingsAreOk(mi: Table<Value>, word: CString)
    requires MemIndexOk(mi) && PostingsOf(mi, word).Some?
    ensures PostingsOk(PostingsOf(mi, word).value)
  {
    var key := FNVHash64(word);
    assert WordEntryOk(KV(key, Find(mi, key).value));
  }

  lemma FirstAnswers(mi: Table<Value>, query: seq<CString>)
    requires MemIndexOk(mi) && query != []
    ensures var t := PostingsOf(mi, query[0]); Answers(if t.Some? then Headers(t.value) else [], mi, query, 1)
  {
    hide MemIndexOk, FNVHash64;
    var t := PostingsOf(mi, query[0]);
    if t.Some? {
      PostingsAreOk(mi, query[0]);
      HeadersAnswer(t.value, 0);
      forall d: Key ensures RankIn(Headers(t.value), d) == Rank(mi, query, 1, d) {
        HeadersAnswer(t.value, d);
      }
    }
  }

  lemma {:induction false} HitsAnswer(mi: Table<Value>, query: seq<CString>, n: nat)
    requires MemIndexOk(mi) && 0 < n <= |query|
    ensures var l := Hits(mi, query, n); Answers(if l.Some? then l.value else [], mi, query, n)
  {
    hide MemIndexOk, PostingsOf, Answers, Rank, Merge;
    if n == 1 {
      FirstAnswers(mi, query);
    } else {
      HitsAnswer(mi, query, n - 1);
      var l := Hits(mi, query, n - 1);
      NextAnswers(if l.Some? then l.value else [], mi, query, n - 1);
      MergeEmpty(if PostingsOf(mi, query[n - 1]).Some? then Headers(PostingsOf(mi, query[n - 1]).value) else []);
    }
  }

  lemma MergeEmpty(m: seq<Hit>)
    ensures Merge([], m) == []
  {
  }

  // The hits of a query are exactly the documents that contain every query
  // word, each listed once, ranked by the total number of occurrences.
  lemma HitListAnswers(mi: Table<Value>, query: seq<CString>)
    requires MemIndexOk(mi) && query != []
    ensures Answers(HitList(mi, query), mi, query, |query|)
  {
    HitsAnswer(mi, query, |query|);
  }

  // Once no candidate is left, no later word brings one back.
  lemma {:induction false} EmptyStaysEmpty(mi: Table<Value>, query: seq<CString>, n: nat)
    requires HasBuckets(mi) && 0 < n <= |query|
    requires Hits(mi, query, n) == None || Hits(mi, query, n) == Some([])
    ensures HitList(mi, query) == []
    decreases |query| - n
  {
    if n < |query| { EmptyStaysEmpty(mi, query, n + 1); }
  }
}
