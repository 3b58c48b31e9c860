// From files to answers: the crawl, the index file, and queries against both
// the tables in memory and the file on disk.
module SearchEngine {
  import opened Bytes
  import opened Wrappers
  import opened Tables
  import opened Fnv
  import opened Files
  import opened Layout
  import opened Readers
  import opened Search
  import opened Writer
  import opened IndexImage
  import opened IndexReader
  import opened QueryProcessing
  import opened BubbleSort
  import opened LinkedLists
  import opened HashTables
  import opened MemoryIndex
  import opened FileParser
  import opened DocTables
  import opened Crawler
  import Crc32

  // ---------- What a query should find, in terms of the texts ----------

  predicate ContainsAll(f: File, query: seq<CString>, n: nat)
    requires n <= |query|
  {
    forall i :: 0 <= i < n ==> OffsetsIn(f, query[i]) != []
  }

  // The occurrences of the first n query words in the document, all together.
  function Total(f: File, query: seq<CString>, n: nat): nat
    requires n <= |query|
  {
    if n == 0 then 0 else Total(f, query, n - 1) + |OffsetsIn(f, query[n - 1])|
  }

  function ResultFor(f: File, query: seq<CString>): seq<QueryResult> {
    if ContainsAll(f, query, |query|) then [QueryResult(f.name, Total(f, query, |query|))] else []
  }

  // The results of a query, in the order of registration.
  function Expected(docs: seq<File>, query: seq<CString>, m: nat): seq<QueryResult>
    requires m <= |docs|
  {
    if m == 0 then [] else Expected(docs, query, m - 1) + ResultFor(docs[m - 1], query)
  }

  // ---------- The index knows the counts ----------

  lemma CountIsPosted(mi: Table<Value>, w: CString, d: Key)
    requires MemIndexOk(mi)
    ensures Count(mi, w, d) == if Posted(mi, w, d).Some? then Some(|Posted(mi, w, d).value|) else None
  {
    hide FNVHash64, Find, Wf;
    if PostingsOf(mi, w).Some? {
      PostingsAreOk(mi, w);
    }
  }

  lemma {:induction false} RankIsTotal(mi: Table<Value>, docs: seq<File>, query: seq<CString>, n: nat, d: Key)
    requires Indexed(mi, docs) && 0 < n <= |query|
    ensures var f := DocAt(docs, d);
            Rank(mi, query, n, d) ==
            if f.Some? && ContainsAll(f.value, query, n) then Some(Total(f.value, query, n)) else None
  {
    hide FNVHash64, MemIndexOk, Occupied, Posted, Count, DocAt, OffsetsIn;
    CountIsPosted(mi, query[n - 1], d);
    if n > 1 {
      RankIsTotal(mi, docs, query, n - 1, d);
    }
  }

  // ---------- The hits, in the order of registration ----------

  function HitFor(f: File, query: seq<CString>, d: Key): seq<Hit> {
    if ContainsAll(f, query, |query|) then [DocIDElementHeader(d, Total(f, query, |query|))] else []
  }

  function ExpectedHits(docs: seq<File>, query: seq<CString>, m: nat): seq<Hit>
    requires m <= |docs| < TWO_64
  {
    if m == 0 then [] else ExpectedHits(docs, query, m - 1) + HitFor(docs[m - 1], query, m)
  }

  lemma {:induction false} ExpectedMembers(docs: seq<File>, query: seq<CString>, m: nat)
    requires m <= |docs| < TWO_64
    ensures DistinctDocs(ExpectedHits(docs, query, m))
    ensures forall h: Hit :: h in ExpectedHits(docs, query, m) <==>
              1 <= h.docId <= m && ContainsAll(docs[h.docId - 1], query, |query|) &&
              h.numPositions == Total(docs[h.docId - 1], query, |query|)
  {
    hide ContainsAll, Total;
    if m > 0 {
      ExpectedMembers(docs, query, m - 1);
      var l := ExpectedHits(docs, query, m - 1);
      assert forall i :: 0 <= i < |l| ==> l[i] in l;
    }
  }

  lemma {:induction false} ExpectedAreNamed(dt: Table<Value>, docs: seq<File>, query: seq<CString>, m: nat)
    requires HasBuckets(dt) && m <= |docs| < TWO_64
    requires forall d: Key :: 1 <= d <= |docs| ==> NameIn(dt, d) == Some(docs[d - 1].name)
    ensures Named(dt, ExpectedHits(docs, query, m)) == Expected(docs, query, m)
  {
    hide NameIn, ContainsAll, Total;
    if m > 0 {
      ExpectedAreNamed(dt, docs, query, m - 1);
      var l := ExpectedHits(docs, query, m - 1);
      if ContainsAll(docs[m - 1], query, |query|) {
        var h := DocIDElementHeader(m, Total(docs[m - 1], query, |query|));
        assert (l + [h])[..|l|] == l;
      } else {
        assert l + [] == l;
      }
    }
  }

  // ---------- Lists without duplicates ----------

  lemma SameMembers(a: seq<Hit>, b: seq<Hit>)
    requires DistinctDocs(a) && DistinctDocs(b) && forall h :: h in a <==> h in b
    ensures multiset(a) == multiset(b)
  {
    forall h ensures multiset(a)[h] == multiset(b)[h] {
      DistinctOnce(a, h);
      DistinctOnce(b, h);
      assert h in multiset(a) <==> h in a;
      assert h in multiset(b) <==> h in b;
    }
  }

  lemma HitsAreExpected(mi: Table<Value>, docs: seq<File>, query: seq<CString>)
    requires Indexed(mi, docs) && query != [] && |docs| < TWO_64
    ensures multiset(HitList(mi, query)) == multiset(ExpectedHits(docs, query, |docs|))
  {
    hide HitList, Rank, ContainsAll, Total, MemIndexOk, Occupied, Posted, ExpectedHits;
    HitListAnswers(mi, query);
    ExpectedMembers(docs, query, |docs|);
    var a, b := HitList(mi, query), ExpectedHits(docs, query, |docs|);
    forall h ensures h in a <==> h in b {
      RankIsMember(a, h.docId, h.numPositions);
      RankIsTotal(mi, docs, query, |query|, h.docId);
    }
    SameMembers(a, b);
  }

  // ---------- Naming does not depend on the order ----------

  lemma {:induction false} NamedSplit(dt: Table<Value>, a: seq<Hit>, b: seq<Hit>)
    requires HasBuckets(dt)
    ensures Named(dt, a + b) == Named(dt, a) + Named(dt, b)
  {
    hide NameIn;
    if b == [] {
      assert a + b == a;
    } else {
      assert (a + b)[..|a + b| - 1] == a + b[..|b| - 1];
      NamedSplit(dt, a, b[..|b| - 1]);
    }
  }

  lemma CancelOne(a: multiset<Hit>, b: multiset<Hit>, h: Hit)
    requires a + multiset{h} == b + multiset{h}
    ensures a == b
  {
    assert a == (a + multiset{h}) - multiset{h};
    assert b == (b + multiset{h}) - multiset{h};
  }

  lemma {:induction false} NamedPermutes(dt: Table<Value>, a: seq<Hit>, b: seq<Hit>)
    requires HasBuckets(dt) && multiset(a) == multiset(b)
    ensures multiset(Named(dt, a)) == multiset(Named(dt, b))
    decreases |a|
  {
    hide NameIn, Named;
    if a == [] {
      assert |multiset(b)| == 0;
      assert b == [];
    } else {
      var rest, h := a[..|a| - 1], a[|a| - 1];
      assert a == rest + [h];
      assert h in multiset(b);
      var j :| 0 <= j < |b| && b[j] == h;
      var before, after := b[..j], b[j + 1..];
      assert b == before + [h] + after;
      assert multiset(before + after) + multiset{h} == multiset(b) == multiset(rest) + multiset{h};
      assert multiset(before + after) == multiset(rest) by { CancelOne(multiset(before + after), multiset(rest), h); }
      NamedPermutes(dt, rest, before + after);
      NamedSplit(dt, rest, [h]);
      NamedSplit(dt, before, after);
      NamedSplit(dt, before + [h], after);
      NamedSplit(dt, before, [h]);
    }
  }

  // ---------- The tables can be written and queried ----------

  // The id-to-name table of these documents.
  ghost predicate NameTable(t: Table<Value>, docs: seq<File>)
    ensures NameTable(t, docs) ==> HasBuckets(t) && |docs| < TWO_64 - 1
  {
    Wf(t) && |docs| < TWO_64 - 1 &&
    forall d: Key :: Find(t, d) == if DocAt(docs, d).Some? then Some(DocName(DocAt(docs, d).value.name)) else None
  }

  lemma HeldNames(dt: DocTable, index: MemIndex, docs: seq<File>)
    requires Holds(dt, index, docs)
    ensures NameTable(dt.idToName.View(), docs)
  {
    hide HashTable.Valid, HashTable.View, HashTable.Separate, Indexed, FNVHash64, Find, Wf, DocAt;
    forall d: Key ensures NameOf(Names(docs), d) == if DocAt(docs, d).Some? then Some(DocAt(docs, d).value.name)
    else None {
      NameOfDoc(docs, d);
    }
  }

  lemma NameOfDoc(docs: seq<File>, d: Key)
    ensures NameOf(Names(docs), d) == if DocAt(docs, d).Some? then Some(DocAt(docs, d).value.name) else None
  {
  }

  lemma NameOfId(t: Table<Value>, docs: seq<File>, d: Key)
    requires NameTable(t, docs)
    ensures NameIn(t, d) == if DocAt(docs, d).Some? then Some(DocAt(docs, d).value.name) else None
  {
    hide Find, Wf;
  }

  // Every document of the index is registered.
  lemma TablesAreACorpus(t: Table<Value>, mi: Table<Value>, docs: seq<File>)
    requires NameTable(t, docs) && Indexed(mi, docs)
    ensures CorpusOk(Corpus(t, mi))
  {
    hide FNVHash64, Find, NameIn, Count, Posted, Occupied, OffsetsIn, NameTable, MemIndexOk;
    forall w: CString, d: Key | Count(mi, w, d).Some? ensures NameIn(t, d).Some? {
      CountIsPosted(mi, w, d);
      NameOfId(t, docs, d);
      assert OffsetsAt(docs, w, d).Some?;
    }
  }

  // An element of a chain is what a lookup of its key finds.
  lemma ChainFinds<V>(t: Table<V>, b: nat, j: nat)
    requires Wf(t) && b < |t.buckets| && j < |t.buckets[b]|
    ensures Find(t, t.buckets[b][j].key) == Some(t.buckets[b][j].value)
  {
    FlattenAt(t.buckets, b, j);
    EntriesAreFound(t, t.buckets[b][j]);
  }

  lemma PostingsFit(t: Table<Value>)
    requires PostingsOk(t)
    ensures Fits(DocIDToPositionList, t)
  {
    hide Find, Wf;
    forall b, j {:trigger t.buckets[b][j]} | 0 <= b < |t.buckets| && 0 <= j < |t.buckets[b]|
      ensures ElemFits(DocIDToPositionList, t.buckets[b][j].value)
    {
      ChainFinds(t, b, j);
    }
  }

  lemma WordsFit(mi: Table<Value>)
    requires MemIndexOk(mi) && forall w: CString :: PostingsOf(mi, w).Some? ==> |w| < TWO_15
    ensures Fits(WordToPostings, mi)
  {
    hide FNVHash64, Find, Wf;
    forall b, j {:trigger mi.buckets[b][j]} | 0 <= b < |mi.buckets| && 0 <= j < |mi.buckets[b]|
      ensures ElemFits(WordToPostings, mi.buckets[b][j].value)
    {
      var kv := mi.buckets[b][j];
      ChainElement(mi, b, j);
      assert PostingsOf(mi, kv.value.word).Some?;
      PostingsFit(kv.value.postings);
    }
  }

  // Every name fits its record; all of them can be written unless one is empty.
  lemma NamesFit(t: Table<Value>, docs: seq<File>)
    requires NameTable(t, docs) && forall i :: 0 <= i < |docs| ==> |docs[i].name| < TWO_15
    ensures Fits(DocidToDocname, t)
    ensures Writable(t) <==> forall i :: 0 <= i < |docs| ==> docs[i].name != []
  {
    hide Find, Wf, DocAt;
    forall b, j {:trigger t.buckets[b][j]} | 0 <= b < |t.buckets| && 0 <= j < |t.buckets[b]|
      ensures var kv := t.buckets[b][j];
              DocAt(docs, kv.key).Some? && kv.value == DocName(DocAt(docs, kv.key).value.name) &&
              |kv.value.name| < TWO_15 && ((forall i :: 0 <= i < |docs| ==> docs[i].name != []) ==> kv.value.name != [])
    {
      ChainFinds(t, b, j);
      DocAtIndex(docs, t.buckets[b][j].key);
    }
    if Writable(t) {
      forall i | 0 <= i < |docs| ensures docs[i].name != [] {
        DocAtIndex(docs, i + 1);
        FoundInChain(t, i + 1);
      }
    }
  }

  lemma DocAtIndex(docs: seq<File>, d: Key)
    ensures 1 <= d <= |docs| ==> DocAt(docs, d) == Some(docs[d - 1])
    ensures DocAt(docs, d).Some? ==> 1 <= d <= |docs|
  {
  }

  lemma FoundInChain(t: Table<Value>, d: Key)
    requires HasBuckets(t) && Writable(t) && Find(t, d).Some?
    ensures ElemWritable(Find(t, d).value)
  {
    assert ChainWritable(t.buckets[BucketNum(t, d)]);
  }

  // ---------- Answers from disk ----------

  // What the queries of several indices should find, index by index.
  function ExpectedOfAll(corpora: seq<seq<File>>, query: seq<CString>, n: nat): seq<QueryResult>
    requires n <= |corpora|
  {
    if n == 0 then [] else ExpectedOfAll(corpora, query, n - 1) + Expected(corpora[n - 1], query, |corpora[n - 1]|)
  }

  ghost predicate TablesOf(c: Corpus, docs: seq<File>)
    ensures TablesOf(c, docs) ==> HasBuckets(c.dt) && HasBuckets(c.mi)
  {
    NameTable(c.dt, docs) && Indexed(c.mi, docs)
  }

  ghost predicate TablesOfAll(cs: seq<Corpus>, corpora: seq<seq<File>>)
    ensures TablesOfAll(cs, corpora) ==> forall i :: 0 <= i < |cs| ==> HasBuckets(cs[i].dt) && HasBuckets(cs[i].mi)
  {
    |cs| == |corpora| && forall i :: 0 <= i < |cs| ==> TablesOf(cs[i], corpora[i])
  }

  lemma NamedHitsAreExpected(c: Corpus, docs: seq<File>, query: seq<CString>, l: seq<Hit>)
    requires TablesOf(c, docs) && query != [] && multiset(l) == multiset(HitList(c.mi, query))
    ensures multiset(Named(c.dt, l)) == multiset(Expected(docs, query, |docs|))
  {
    hide HitList, Named, Expected, ExpectedHits, NameTable, Indexed, DocAt, NameIn;
    HitsAreExpected(c.mi, docs, query);
    forall d: Key | 1 <= d <= |docs| ensures NameIn(c.dt, d) == Some(docs[d - 1].name) {
      NameOfId(c.dt, docs, d);
      DocAtIndex(docs, d);
    }
    ExpectedAreNamed(c.dt, docs, query, |docs|);
    NamedPermutes(c.dt, l, ExpectedHits(docs, query, |docs|));
  }

  // The results of the readers over any number of index files.
  lemma {:induction false} ResultsAreExpected(cs: seq<Corpus>, corpora: seq<seq<File>>, query: seq<CString>, n: nat)
    requires n <= |cs| == |corpora| && query != [] && TablesOfAll(cs, corpora)
    ensures multiset(Results(cs, query, n)) == multiset(ExpectedOfAll(corpora, query, n))
  {
    hide HitList, Named, Expected, TablesOf;
    if n > 0 {
      ResultsAreExpected(cs, corpora, query, n - 1);
      NamedHitsAreExpected(cs[n - 1], corpora[n - 1], query, HitList(cs[n - 1].mi, query));
    }
  }

  // Queries against complete index files find, in every file, exactly the
  // documents whose texts contain all the query words, under their names, with
  // the number of occurrences as rank, best first.
  method QueryFiles(images: seq<seq<byte>>, validate: bool, query: seq<CString>,
                    ghost cs: seq<Corpus>, ghost corpora: seq<seq<File>>)
    returns (results: seq<QueryResult>)
    requires query != [] && |images| == |cs| == |corpora| > 0 && TablesOfAll(cs, corpora)
    requires forall i :: 0 <= i < |images| ==> |images[i]| < TWO_31 && IndexAt(images[i], cs[i].dt, cs[i].mi)
    ensures RankSorted(results) && multiset(results) == multiset(ExpectedOfAll(corpora, query, |corpora|))
    ensures forall i, j :: 0 <= i < j < |results| ==> results[i].rank >= results[j].rank
  {
    hide IndexAt, CorpusOk, NameTable, Indexed, Results, RankSorted, ExpectedOfAll, QueryProcessor.Valid;
    forall i | 0 <= i < |cs| ensures CorpusOk(cs[i]) {
      assert TablesOf(cs[i], corpora[i]);
      TablesAreACorpus(cs[i].dt, cs[i].mi, corpora[i]);
    }
    var qp := new QueryProcessor(images, validate, cs);
    results := qp.ProcessQuery(query);
    ResultsAreExpected(cs, corpora, query, |cs|);
  }

  // ---------- Disk against memory ----------

  // Names and words fit the 16-bit length fields, and the file fits 31 bits.
  ghost predicate Storable(t: Table<Value>, mi: Table<Value>, docs: seq<File>) {
    (forall i :: 0 <= i < |docs| ==> |docs[i].name| < TWO_15) && (forall w: CString :: w in AllWords(docs) ==>
      |w| < TWO_15) &&
    HEADER_BYTES + TableLen(DocidToDocname, t) + TableLen(WordToPostings, mi) < TWO_31
  }

  // Writes the index of the documents; this fails exactly when some document
  // has an empty name.
  method SaveIndex(dt: DocTable, index: MemIndex, ghost docs: seq<File>) returns (f: IndexFile?)
    requires Holds(dt, index, docs) && Storable(dt.idToName.View(), index.index.View(), docs)
    ensures f == null <==> exists i :: 0 <= i < |docs| && docs[i].name == []
    ensures f != null ==>
              fresh(f) && IndexAt(f.bytes, dt.idToName.View(), index.index.View()) && |f.bytes| < TWO_31
  {
    hide HashTable.Valid, HashTable.View, HashTable.Separate, TableLen, IndexAt, Fits, Writable, Find, Wf, AllWords,
      Posted,
      Occupied, IdsAndNames, NameTable, MemIndexOk, PostingsOf, TableAt, HeaderLast, Cover, OffsetsAt, Number,
      Crc32.Crc;
    HeldNames(dt, index, docs);
    NamesFit(dt.idToName.View(), docs);
    forall w: CString | PostingsOf(index.index.View(), w).Some? ensures |w| < TWO_15 {
      IndexedWord(index.index.View(), docs, w);
    }
    WordsFit(index.index.View());
    var t := dt.idToName.Snapshot();
    var mi := index.index.Snapshot();
    var r, file := WriteIndex(mi, t);
    f := file;
    if f != null {
      IndexSize(f.bytes, t, mi);
    }
  }

  lemma IndexSize(b: seq<byte>, dt: Table<Value>, mi: Table<Value>)
    requires IndexAt(b, dt, mi)
    ensures |b| == HEADER_BYTES + TableLen(DocidToDocname, dt) + TableLen(WordToPostings, mi)
  {
  }

  // The search in memory fails exactly when the readers should find nothing.
  lemma NullMeansNothingExpected(c: Corpus, docs: seq<File>, query: seq<CString>)
    requires TablesOf(c, docs) && query != [] && NoCollisions(c.mi, query)
    ensures MemHits(c.mi, query, |query|) == None <==> Expected(docs, query, |docs|) == []
  {
    hide HitList, Expected, NameTable, NoCollisions, MemIndexOk, NameIn, MemHits;
    MemoryAgreesWithDisk(c.mi, query);
    NamedHitsAreExpected(c, docs, query, HitList(c.mi, query));
    TablesAreACorpus(c.dt, c.mi, docs);
    HitsAreNamed(c, query);
    if MemHits(c.mi, query, |query|).Some? {
      HitsNotEmpty(c.mi, query);
      assert |multiset(Named(c.dt, HitList(c.mi, query)))| > 0;
    }
    assert |multiset(Expected(docs, query, |docs|))| == |Expected(docs, query, |docs|)|;
  }

  // For any tables whose documents are all registered, however they were
  // built: the readers return the results of the search in memory, under the
  // documents' names, and nothing exactly when the search fails.
  lemma MemoryMatchesFile(c: Corpus, query: seq<CString>, l: seq<Hit>)
    requires CorpusOk(c) && Occupied(c.mi) && query != [] && NoCollisions(c.mi, query)
    requires MemHits(c.mi, query, |query|).Some? ==> multiset(l) == multiset(MemHits(c.mi, query, |query|).value)
    ensures MemHits(c.mi, query, |query|).Some? ==> multiset(Named(c.dt, l)) == multiset(Results([c], query, 1))
    ensures MemHits(c.mi, query, |query|) == None <==> Results([c], query, 1) == []
  {
    hide HitList, NoCollisions, MemIndexOk, NameIn, MemHits;
    CorpusIndexOk(c);
    MemoryAgreesWithDisk(c.mi, query);
    HitsAreNamed(c, query);
    assert Results([c], query, 1) == [] + Named(c.dt, HitList(c.mi, query)) by { assert Results([c], query, 0) == []; }
    if MemHits(c.mi, query, |query|).Some? {
      HitsNotEmpty(c.mi, query);
      NamedPermutes(c.dt, l, HitList(c.mi, query));
    }
  }

  // A query answered from the tables in memory and from the file written from
  // them: the same names with the same ranks.
  method SearchBoth(dt: DocTable, index: MemIndex, query: seq<CString>, validate: bool, ghost docs: seq<File>)
    returns (fromMemory: LinkedList?<Hit>, fromDisk: seq<QueryResult>)
    requires Holds(dt, index, docs) && Storable(dt.idToName.View(), index.index.View(), docs)
    requires query != [] && forall i :: 0 <= i < |docs| ==> docs[i].name != []
    ensures RankSorted(fromDisk) && multiset(fromDisk) == multiset(Expected(docs, query, |docs|))
    ensures forall i, j :: 0 <= i < j < |fromDisk| ==> fromDisk[i].rank >= fromDisk[j].rank
    ensures NoCollisions(index.index.View(), query) ==>
              (fromMemory == null <==> fromDisk == []) &&
              (fromMemory != null ==>
                 Sorted(SearchResultComparator, false, fromMemory.Contents()) &&
                 multiset(Named(dt.idToName.View(), fromMemory.Contents())) == multiset(fromDisk))
  {
    hide HashTable.Valid, HashTable.View, HashTable.Separate, TableLen, IndexAt, Find, Wf, AllWords, Posted, Sorted,
      RankSorted,
      Occupied, IdsAndNames, NameTable, MemIndexOk, PostingsOf, Storable, Expected, Named, NoCollisions, HitList,
        MemHits, Answers;
    ghost var t, mi := dt.idToName.View(), index.index.View();
    HeldNames(dt, index, docs);
    var f := SaveIndex(dt, index, docs);
    fromDisk := QueryFiles([f.bytes], validate, query, [Corpus(t, mi)], [docs]);
    OnlyCorpus(docs, query);
    fromMemory := index.Search(query);
    if NoCollisions(mi, query) {
      MemoryAgreesWithDisk(mi, query);
      NullMeansNothingExpected(Corpus(t, mi), docs, query);
      assert |multiset(fromDisk)| == |multiset(Expected(docs, query, |docs|))|;
      if fromMemory != null {
        NamedHitsAreExpected(Corpus(t, mi), docs, query, fromMemory.Contents());
      }
    }
  }

  lemma OnlyCorpus(docs: seq<File>, query: seq<CString>)
    ensures ExpectedOfAll([docs], query, 1) == Expected(docs, query, |docs|)
  {
    assert ExpectedOfAll([docs], query, 0) == [];
  }

  // ---------- Reading back what was written ----------

  // A position list that fits 32 bits is read back as it is.
  lemma SmallPositions(l: seq<uint64>)
    requires forall i :: 0 <= i < |l| ==> l[i] < TWO_31
    ensures Low32(l) == l
  {
  }

  lemma {:induction false} OffsetsAreSmall(f: File, w: CString)
    ensures forall i :: 0 <= i < |OffsetsIn(f, w)| ==> OffsetsIn(f, w)[i] < TWO_31
  {
    hide Occurrences;
    var l := OffsetsIn(f, w);
    forall i | 0 <= i < |l| ensures l[i] < TWO_31 {
      assert l[i] in l;
      OccurrencesAreRuns(f.text, w, |f.text|, l[i]);
    }
  }

  lemma PositionsArePosted(mi: Table<Value>, docs: seq<File>, w: CString, d: Key)
    requires Indexed(mi, docs) && PostingsOf(mi, w).Some?
    ensures HasBuckets(PostingsOf(mi, w).value)
    ensures PositionsIn(PostingsOf(mi, w).value, d) == OffsetsAt(docs, w, d)
  {
    hide FNVHash64, Find, Wf, OffsetsIn, Low32;
    PostingsAreOk(mi, w);
    assert Posted(mi, w, d) == OffsetsAt(docs, w, d);
    if OffsetsAt(docs, w, d).Some? {
      OffsetsAreSmall(DocAt(docs, d).value, w);
      SmallPositions(OffsetsAt(docs, w, d).value);
    }
  }

  // The header of a document in a word's list is its id and its count.
  lemma HeadersArePosted(mi: Table<Value>, docs: seq<File>, w: CString)
    requires Indexed(mi, docs) && PostingsOf(mi, w).Some?
    ensures var l := HeadersOf(Entries(PostingsOf(mi, w).value));
            DistinctDocs(l) &&
            forall d: Key ::
              RankIn(l, d) == if OffsetsAt(docs, w, d).Some? then Some(|OffsetsAt(docs, w, d).value|) else None
  {
    hide FNVHash64, Find, Wf, OffsetsIn, HeadersOf;
    var t := PostingsOf(mi, w).value;
    PostingsAreOk(mi, w);
    HeadersAnswer(t, 0);
    forall d: Key
      ensures RankIn(HeadersOf(Entries(t)), d) ==
              if OffsetsAt(docs, w, d).Some? then Some(|OffsetsAt(docs, w, d).value|) else None
    {
      HeadersAnswer(t, d);
      assert Posted(mi, w, d) == OffsetsAt(docs, w, d);
    }
  }

  // From a complete index file, the readers return what the texts contain: a
  // word is found if and only if some document contains it, each document with
  // its exact offsets in order, the list of documents with their counts, and
  // every registered name.
  method ReadBack(image: seq<byte>, validate: bool, w: CString, d: Key,
                  ghost dt: Table<Value>, ghost mi: Table<Value>, ghost docs: seq<File>)
    returns (found: bool, offsets: Option<seq<uint32>>, listed: seq<Hit>, name: Option<CString>)
    requires |image| < TWO_31 && IndexAt(image, dt, mi) && TablesOf(Corpus(dt, mi), docs)
    ensures found <==> w in AllWords(docs)
    ensures found ==> offsets == OffsetsAt(docs, w, d)
    ensures found ==>
              DistinctDocs(listed) &&
              forall d': Key ::
                RankIn(listed, d') == if OffsetsAt(docs, w, d').Some? then Some(|OffsetsAt(docs, w, d').value|)
                  else None
    ensures name == if DocAt(docs, d).Some? then Some(DocAt(docs, d).value.name) else None
  {
    hide IndexAt, TableAt, Accepts, MemIndexOk, Occupied, Posted, PostingsOf, NameTable, NameIn, OffsetsAt, AllWords,
      Find, Wf,
      HeadersOf, HashTableReader.On, PositionsIn;
    CompleteIsAccepted(image, dt, mi, validate);
    var reader := FileIndexReader.Open(image, validate);
    var dtr := reader.NewDocTableReader(dt, mi);
    NameOfId(dt, docs, d);
    name := dtr.LookupDocID(d, dt);
    var itr := reader.NewIndexTableReader(dt, mi);
    IndexedWord(mi, docs, w);
    var didtr := itr.LookupWord(w, mi);
    if didtr == null {
      return false, None, [], name;
    }
    PositionsArePosted(mi, docs, w, d);
    HeadersArePosted(mi, docs, w);
    found := true;
    offsets := didtr.LookupDocID(d, PostingsOf(mi, w).value);
    listed := didtr.GetDocIDList(PostingsOf(mi, w).value);
  }
}
