// Feeding files into the document table and the inverted index
// (hw2/CrawlFileTree.c, HandleFile).
module Crawler {
  import opened Bytes
  import opened Wrappers
  import opened Tables
  import opened Fnv
  import opened Layout
  import opened Readers
  import opened Search
  import opened HashTables
  import opened MemoryIndex
  import opened FileParser
  import opened DocTables

  // A file's name and its text: everything before the first NUL.
  datatype File = File(name: CString, text: seq<byte>)

  // ---------- Draining the word table of one document ----------

  // The offsets listed for a word among the drained elements.
  function Listed(out: seq<KV<WordPositions>>, w: CString): Option<seq<uint64>> {
    var r := LookIn(out, FNVHash64(w));
    if r.Some? && r.value.word == w then Some(r.value.positions) else None
  }

  // The elements of a document's word table: each word once, under its hash.
  ghost predicate WordElements(es: seq<KV<WordPositions>>, words: iset<CString>) {
    Distinct(es) && forall i :: 0 <= i < |es| ==> es[i].key == FNVHash64(es[i].value.word) && es[i].value.word in words
  }

  // Index mi is index mi0 with the drained words filed under document d.
  ghost predicate Drained(mi0: Table<Value>, mi: Table<Value>, out: seq<KV<WordPositions>>, d: Key,
        words: iset<CString>)
    requires HasBuckets(mi0)
  {
    MemIndexOk(mi) && Occupied(mi) && HashesApart(words) &&
    (forall w: CString :: PostingsOf(mi, w).Some? ==> w in words) &&
    (forall w: CString :: Posted(mi0, w, d) == None) &&
    forall w: CString, d': Key ::
      Posted(mi, w, d') == if d' == d && Listed(out, w).Some? then Listed(out, w) else Posted(mi0, w, d')
  }

  lemma ListedSnoc(out: seq<KV<WordPositions>>, kv: KV<WordPositions>, words: iset<CString>)
    requires WordElements(out + [kv], words) && HashesApart(words)
    ensures Listed(out, kv.value.word) == None
    ensures forall w: CString ::
              Listed(out + [kv], w) == if w == kv.value.word then Some(kv.value.positions) else Listed(out, w)
  {
    hide FNVHash64, LookIn, HashesApart;
    assert (out + [kv])[|out|] == kv;
    forall w: CString
      ensures Listed(out + [kv], w) == if w == kv.value.word then Some(kv.value.positions) else Listed(out, w)
    {
      LookInSnoc(out, kv, FNVHash64(w));
    }
    LookInSnoc(out, kv, kv.key);
  }

  lemma StoredWord(mi: Table<Value>, words: iset<CString>, word: CString)
    requires MemIndexOk(mi) && HashesApart(words) && word in words
    requires forall w: CString :: PostingsOf(mi, w).Some? ==> w in words
    ensures NoCollision(mi, word)
  {
    hide FNVHash64, Find;
    var key := FNVHash64(word);
    if Find(mi, key).Some? {
      assert WordEntryOk(KV(key, Find(mi, key).value));
      var v := Find(mi, key).value.word;
      assert PostingsOf(mi, v).Some?;
    }
  }

  lemma DrainStep(mi0: Table<Value>, mi: Table<Value>, out: seq<KV<WordPositions>>, kv: KV<WordPositions>, d: Key,
                  words: iset<CString>)
    requires HasBuckets(mi0) && Drained(mi0, mi, out, d, words) && WordElements(out + [kv], words)
    ensures NoCollision(mi, kv.value.word) && Posted(mi, kv.value.word, d) == None
    ensures Drained(mi0, AddPosting(mi, kv.value.word, d, kv.value.positions), out + [kv], d, words)
  {
    hide FNVHash64, Find, LookIn, HashesApart, AddPosting, NoCollision, Posted, PostingsOf, Listed, MemIndexOk,
      Occupied;
    assert (out + [kv])[|out|] == kv;
    ListedSnoc(out, kv, words);
    StoredWord(mi, words, kv.value.word);
    PostingAdded(mi, kv.value.word, d, kv.value.positions);
  }

  // ---------- The index of a list of documents ----------

  function OffsetsIn(f: File, w: CString): seq<uint64> {
    if |f.text| < TWO_31 then Occurrences(f.text, w, |f.text|) else []
  }

  function DocAt(docs: seq<File>, d: Key): Option<File> {
    if 1 <= d <= |docs| then Some(docs[d - 1]) else None
  }

  // The offsets of the word in document d, if it occurs there.
  function OffsetsAt(docs: seq<File>, w: CString, d: Key): Option<seq<uint64>> {
    var f := DocAt(docs, d);
    if f.Some? && OffsetsIn(f.value, w) != [] then Some(OffsetsIn(f.value, w)) else None
  }

  ghost predicate Occurs(docs: seq<File>, w: CString) { exists d: Key :: OffsetsAt(docs, w, d).Some? }

  ghost function AllWords(docs: seq<File>): iset<CString> { iset w: CString | Occurs(docs, w) }

  function Names(docs: seq<File>): (r: seq<CString>)
    ensures |r| == |docs| && forall i :: 0 <= i < |docs| ==> r[i] == docs[i].name
  {
    seq(|docs|, i requires 0 <= i < |docs| => docs[i].name)
  }

  // Each indexed word maps to exactly the documents that contain it, with all
  // its offsets there.
  ghost predicate Indexed(mi: Table<Value>, docs: seq<File>) {
    MemIndexOk(mi) && Occupied(mi) && forall w: CString, d: Key :: Posted(mi, w, d) == OffsetsAt(docs, w, d)
  }

  lemma NothingIndexed()
    ensures Indexed(Allocate(POSTINGS_TABLE_INIT_BUCKETS), [])
  {
    hide FNVHash64, Find, Wf, Allocate, NumElements, OffsetsIn;
    AllocateWf<Value>(POSTINGS_TABLE_INIT_BUCKETS);
  }

  // A word is in the index if and only if some document contains it.
  lemma IndexedWord(mi: Table<Value>, docs: seq<File>, w: CString)
    requires Indexed(mi, docs)
    ensures PostingsOf(mi, w).Some? <==> w in AllWords(docs)
  {
    hide FNVHash64, Find, OffsetsAt;
    if PostingsOf(mi, w).Some? {
      var t := PostingsOf(mi, w).value;
      PostingsAreOk(mi, w);
      SomeDocument(mi, w);
      var kv := Entries(t)[0];
      WfIsPlaced(t);
      EntriesAreFound(t, kv);
      assert Posted(mi, w, kv.key).Some?;
    }
    if w in AllWords(docs) {
      var d: Key :| OffsetsAt(docs, w, d).Some?;
      assert Posted(mi, w, d).Some?;
    }
  }

  lemma SomeDocument(mi: Table<Value>, w: CString)
    requires HasBuckets(mi) && Occupied(mi) && PostingsOf(mi, w).Some?
    ensures NumElements(PostingsOf(mi, w).value) > 0
  {
    hide FNVHash64, Find, NumElements;
  }

  lemma DocAtSnoc(docs: seq<File>, f: File, d: Key)
    requires d == |docs| + 1
    ensures forall d': Key :: DocAt(docs + [f], d') == if d' == d then Some(f) else DocAt(docs, d')
    ensures DocAt(docs, d) == None
    ensures forall w: CString, d': Key :: d' != d ==> OffsetsAt(docs + [f], w, d') == OffsetsAt(docs, w, d')
    ensures forall w: CString :: OffsetsAt(docs + [f], w, d) == if OffsetsIn(f, w) != [] then
            Some(OffsetsIn(f, w)) else None
  {
    hide OffsetsIn;
  }

  lemma WordsSnoc(docs: seq<File>, f: File)
    requires |docs| + 1 < TWO_64
    ensures AllWords(docs) <= AllWords(docs + [f])
    ensures |f.text| < TWO_31 ==> WordsIn(f.text) <= AllWords(docs + [f])
  {
    hide Occurrences, OffsetsAt;
    var d: Key := |docs| + 1;
    DocAtSnoc(docs, f, d);
    forall w: CString | w in AllWords(docs) ensures w in AllWords(docs + [f]) {
      var d': Key :| OffsetsAt(docs, w, d').Some?;
      assert OffsetsAt(docs, w, d) == None by { NoSuchDoc(docs, w, d); }
      assert OffsetsAt(docs + [f], w, d').Some?;
    }
    if |f.text| < TWO_31 {
      forall w: CString | w in WordsIn(f.text) ensures w in AllWords(docs + [f]) {
        assert OffsetsAt(docs + [f], w, d).Some?;
      }
    }
  }

  lemma NoSuchDoc(docs: seq<File>, w: CString, d: Key)
    requires DocAt(docs, d) == None
    ensures OffsetsAt(docs, w, d) == None
  {
  }

  lemma FewerWords(words: iset<CString>, more: iset<CString>)
    requires words <= more && HashesApart(more)
    ensures HashesApart(words)
  {
    hide FNVHash64;
  }

  // Before the first element of a new document's table is drained.
  lemma DrainStart(mi: Table<Value>, docs: seq<File>, f: File, d: Key)
    requires Indexed(mi, docs) && d == |docs| + 1 && HashesApart(AllWords(docs + [f]))
    ensures Drained(mi, mi, [], d, AllWords(docs + [f]))
  {
    hide FNVHash64, MemIndexOk, Occupied, Posted, PostingsOf, OffsetsAt, HashesApart, AllWords;
    WordsSnoc(docs, f);
    DocAtSnoc(docs, f, d);
    forall w: CString ensures Posted(mi, w, d) == None && (PostingsOf(mi, w).Some? ==> w in AllWords(docs + [f])) {
      NoSuchDoc(docs, w, d);
      IndexedWord(mi, docs, w);
    }
    NothingListed();
  }

  lemma NothingListed()
    ensures forall w: CString :: Listed([], w) == None
  {
    hide FNVHash64;
  }

  // The elements of a parsed file's table.
  lemma ParsedElements(t: Table<WordPositions>, s: seq<byte>, words: iset<CString>)
    requires |s| < TWO_31 && Parsed(t, s, |s|) && WordsIn(s) <= words
    ensures WordElements(Entries(t), words)
    ensures forall w: CString ::
              Listed(Entries(t), w) == if Occurrences(s, w, |s|) != [] then Some(Occurrences(s, w, |s|)) else None
  {
    hide FNVHash64, Find, Occurrences, Wf, Entries, LookIn;
    WfIsPlaced(t);
    EntriesDistinct(t);
    var es := Entries(t);
    forall i | 0 <= i < |es| ensures es[i].key == FNVHash64(es[i].value.word) && es[i].value.word in words {
      EntriesAreFound(t, es[i]);
      assert es[i].value.word in WordsIn(s);
    }
    forall w: CString
      ensures Listed(es, w) == if Occurrences(s, w, |s|) != [] then Some(Occurrences(s, w, |s|)) else None
    {
      LookInEntries(t, FNVHash64(w));
    }
  }

  // After the last one, the document is indexed.
  lemma DrainDone(mi0: Table<Value>, mi: Table<Value>, t: Table<WordPositions>, docs: seq<File>, f: File, d: Key)
    requires Indexed(mi0, docs) && d == |docs| + 1 && |f.text| < TWO_31 && Parsed(t, f.text, |f.text|)
    requires Drained(mi0, mi, Entries(t), d, AllWords(docs + [f]))
    ensures Indexed(mi, docs + [f])
  {
    hide FNVHash64, MemIndexOk, Occupied, Posted, PostingsOf, OffsetsAt, HashesApart, AllWords, Entries, Listed, Parsed;
    WordsSnoc(docs, f);
    DocAtSnoc(docs, f, d);
    ParsedElements(t, f.text, AllWords(docs + [f]));
  }

  // ---------- HandleFile ----------

  // An iterator at the front of the table that is being drained into the index.
  ghost predicate Draining(it: HTIterator<WordPositions>, tab: HashTable<WordPositions>, index: MemIndex)
    reads it, it.bucketIt, tab, tab.Repr, index.index, index.index.Repr
  {
    it.ht == tab && tab.Valid() && it.Valid() && it.Pos() == 0 && index.Valid() &&
    tab.Repr !! index.index.Repr && it !in index.index.Repr && it.bucketIt !in index.index.Repr
  }

  // One turn of the loop.
  method DrainOne(it: HTIterator<WordPositions>, tab: HashTable<WordPositions>, index: MemIndex, docId: Key,
                  ghost mi0: Table<Value>, ghost out: seq<KV<WordPositions>>, ghost words: iset<CString>)
    requires Draining(it, tab, index) && HasBuckets(mi0) && Entries(tab.View()) != []
    requires Drained(mi0, index.index.View(), out, docId, words) && WordElements(out + Entries(tab.View()), words)
    modifies it, it.bucketIt, tab.Repr, index.index.Repr
    ensures Draining(it, tab, index) && tab.Repr == old(tab.Repr) && fresh(index.index.Repr - old(index.index.Repr))
    ensures it.bucketIt == old(it.bucketIt) || fresh(it.bucketIt)
    ensures Entries(tab.View()) == old(Entries(tab.View()))[1..]
    ensures Drained(mi0, index.index.View(), out + [old(Entries(tab.View()))[0]], docId, words)
  {
    hide FNVHash64, HashTable.Valid, HashTable.View, HashTable.Separate, HTIterator.Valid, HTIterator.Pos, Wf, Find,
      Entries,
      MemIndexOk, NoCollision, Posted, AddPosting, Drained, WordElements;
    ghost var es := Entries(tab.View());
    DeleteFirst(es);
    WordElementsFront(out, es, words);
    DrainStep(mi0, index.index.View(), out, es[0], docId, words);
    var kv := it.Remove();
    assert kv.Some?;
    var wp := kv.value.value;
    index.AddPostingList(wp.word, docId, wp.positions);
  }

  lemma WordElementsFront(out: seq<KV<WordPositions>>, es: seq<KV<WordPositions>>, words: iset<CString>)
    requires es != [] && WordElements(out + es, words)
    ensures WordElements(out + [es[0]], words) && out + es == (out + [es[0]]) + es[1..]
  {
    hide FNVHash64;
    var all, front := out + es, out + [es[0]];
    assert all == front + es[1..];
    forall i | 0 <= i < |front| ensures front[i] == all[i] {
    }
  }

  method DrainTable(tab: HashTable<WordPositions>, index: MemIndex, docId: Key, ghost words: iset<CString>)
    requires tab.Valid() && index.Valid() && tab.Repr !! index.index.Repr
    requires Drained(index.index.View(), index.index.View(), [], docId, words) &&
            WordElements(Entries(tab.View()), words)
    modifies tab.Repr, index.index.Repr
    ensures index.Valid() && fresh(index.index.Repr - old(index.index.Repr))
    ensures tab.Valid() && Entries(tab.View()) == []
    ensures Drained(old(index.index.View()), index.index.View(), old(Entries(tab.View())), docId, words)
  {
    hide FNVHash64, HashTable.Valid, HashTable.View, HashTable.Separate, HTIterator.Valid, HTIterator.Pos, Wf, Find,
      Entries,
      MemIndexOk, NoCollision, Posted, AddPosting, Drained, WordElements;
    ghost var mi0, es := index.index.View(), Entries(tab.View());
    ghost var out: seq<KV<WordPositions>> := [];
    assert [] + es == es;
    var it := new HTIterator(tab);
    var valid := it.IsValid();
    while valid
      invariant Draining(it, tab, index) && fresh(it) && (it.bucketIt != null ==> fresh(it.bucketIt))
      invariant tab.Repr == old(tab.Repr) && fresh(index.index.Repr - old(index.index.Repr))
      invariant out + Entries(tab.View()) == es && Drained(mi0, index.index.View(), out, docId, words)
      invariant valid <==> 0 < |Entries(tab.View())|
      decreases |Entries(tab.View())|
    {
      ghost var rest := Entries(tab.View());
      DrainOne(it, tab, index, docId, mi0, out, words);
      out := out + [rest[0]];
      valid := it.IsValid();
    }
    assert out == es;
  }

  // The document table and the index hold exactly these documents.
  ghost predicate Holds(dt: DocTable, index: MemIndex, docs: seq<File>)
    reads dt, dt.idToName, dt.idToName.Repr, dt.nameToId, dt.nameToId.Repr, index.index, index.index.Repr
  {
    dt.Valid() && index.Valid() && dt.Repr() !! index.index.Repr &&
    dt.names == Names(docs) && Indexed(index.index.View(), docs)
  }

  // The document may be added: its name is new, and no name or word shares its
  // hash with another one.
  ghost predicate MayAdd(docs: seq<File>, f: File) {
    |docs| + 2 < TWO_64 - 1 && IdOf(Names(docs), f.name) == INVALID_DOCID && NameApart(Names(docs), f.name) &&
    (IsAscii(f.text) ==> HashesApart(AllWords(docs + [f])))
  }

  // A file without words leaves both tables alone; any other one becomes the
  // next document.
  method HandleFile(dt: DocTable, index: MemIndex, filePath: CString, fileBuf: array<byte>, fileLen: nat,
                    ghost n: nat, ghost docs: seq<File>)
    requires Holds(dt, index, docs) && fileBuf !in dt.Repr() && fileBuf !in index.index.Repr
    requires 0 < fileLen == fileBuf.Length - 1 && CStringAt(fileBuf[..], 0, n) && n < TWO_31
    requires MayAdd(docs, File(filePath, fileBuf[..n]))
    modifies dt.Repr(), index.index.Repr, fileBuf
    ensures fresh(dt.Repr() - old(dt.Repr())) && fresh(index.index.Repr - old(index.index.Repr))
    ensures var text := old(fileBuf[..n]);
            Holds(dt, index, if Indexable(text) then docs + [File(filePath, text)] else docs)
  {
    hide FNVHash64, HashTable.Valid, HashTable.View, HashTable.Separate, Wf, Indexed, Drained, Indexable, AllWords,
      IdOf,
      NameApart, HashesApart, Parsed, Entries, MemIndexOk, IdsAndNames, WordElements, Posted;
    ghost var f, mi0 := File(filePath, fileBuf[..n]), index.index.View();
    if IsAscii(f.text) {
      WordsSnoc(docs, f);
      FewerWords(WordsIn(f.text), AllWords(docs + [f]));
    }
    var tab := ParseIntoWordPositionsTable(fileBuf, n);
    if tab == null {
      return;
    }
    IndexableIsAscii(f.text);
    var docId := dt.Add(filePath);
    NamesSnoc(docs, f);
    DrainStart(mi0, docs, f, docId);
    ParsedElements(tab.View(), f.text, AllWords(docs + [f]));
    ghost var t := tab.View();
    DrainTable(tab, index, docId, AllWords(docs + [f]));
    DrainDone(mi0, index.index.View(), t, docs, f, docId);
  }

  lemma IndexableIsAscii(s: seq<byte>)
    requires |s| < TWO_31 && Indexable(s)
    ensures IsAscii(s)
  {
  }

  lemma NamesSnoc(docs: seq<File>, f: File)
    ensures Names(docs + [f]) == Names(docs) + [f.name]
  {
  }

  // ---------- A whole crawl ----------

  // A regular file on disk, with everything it contains.
  datatype DiskFile = DiskFile(path: CString, contents: seq<byte>)

  // The C string at the start of a buffer.
  function TextOf(b: seq<byte>): (t: seq<byte>)
    ensures |t| <= |b| && (|t| < |b| ==> b[|t|] == 0) && forall i :: 0 <= i < |t| ==> b[i] == t[i] != 0
  {
    if b == [] || b[0] == 0 then [] else [b[0]] + TextOf(b[1..])
  }

  function AsFile(f: DiskFile): File { File(f.path, TextOf(f.contents)) }

  // The documents registered by the first k files.
  ghost function Registered(files: seq<DiskFile>, k: nat): (docs: seq<File>)
    requires k <= |files| && forall i :: 0 <= i < k ==> |files[i].contents| < TWO_31
    ensures |docs| <= k
  {
    if k == 0 then []
    else Registered(files, k - 1) + (if Indexable(TextOf(files[k - 1].contents)) then [AsFile(files[k - 1])] else [])
  }

  ghost predicate WordOfFile(f: DiskFile, w: CString) {
    |f.contents| < TWO_31 && IsAscii(TextOf(f.contents)) && OffsetsIn(AsFile(f), w) != []
  }

  ghost predicate WordOfFiles(files: seq<DiskFile>, w: CString) {
    exists i :: 0 <= i < |files| && WordOfFile(files[i], w)
  }

  ghost predicate Sizes(files: seq<DiskFile>) {
    forall i :: 0 <= i < |files| ==> 0 < |files[i].contents| < TWO_31
  }

  // Files that are not empty, under different names, such that neither two
  // names nor two different words share a hash.
  ghost predicate CrawlOk(files: seq<DiskFile>)
    ensures CrawlOk(files) ==> Sizes(files)
  {
    |files| < TWO_64 - 4 && Sizes(files) &&
    (forall i, j :: 0 <= i < j < |files| ==> FNVHash64(files[i].path) != FNVHash64(files[j].path)) &&
    HashesApart(iset w: CString | WordOfFiles(files, w))
  }

  lemma {:induction false} RegisteredFrom(files: seq<DiskFile>, k: nat, d: Key) returns (i: nat)
    requires k <= |files| && forall i :: 0 <= i < k ==> |files[i].contents| < TWO_31
    requires DocAt(Registered(files, k), d).Some?
    ensures i < k && DocAt(Registered(files, k), d) == Some(AsFile(files[i])) && Indexable(TextOf(files[i].contents))
  {
    hide Indexable, AsFile, TextOf;
    if DocAt(Registered(files, k - 1), d).Some? {
      i := RegisteredFrom(files, k - 1, d);
    } else {
      i := k - 1;
    }
  }

  lemma NextMayBeAdded(files: seq<DiskFile>, k: nat)
    requires CrawlOk(files) && k < |files|
    ensures MayAdd(Registered(files, k), AsFile(files[k]))
  {
    hide FNVHash64, HashesApart, TextOf, OffsetsAt, Registered, IsAscii, NameOf;
    var docs, f := Registered(files, k), AsFile(files[k]);
    forall d: Key | NameOf(Names(docs), d).Some? ensures FNVHash64(NameOf(Names(docs), d).value) != FNVHash64(f.name) {
      NamedDoc(docs, d);
      var i := RegisteredFrom(files, k, d);
    }
    if IsAscii(f.text) {
      forall w: CString | w in AllWords(docs + [f]) ensures WordOfFiles(files, w) {
        var d: Key :| OffsetsAt(docs + [f], w, d).Some?;
        WordFromFile(files, k, w, d);
      }
      FewerWords(AllWords(docs + [f]), iset w: CString | WordOfFiles(files, w));
    }
  }

  lemma NamedDoc(docs: seq<File>, d: Key)
    requires NameOf(Names(docs), d).Some?
    ensures DocAt(docs, d).Some? && NameOf(Names(docs), d).value == DocAt(docs, d).value.name
  {
  }

  lemma WordFromFile(files: seq<DiskFile>, k: nat, w: CString, d: Key)
    requires CrawlOk(files) && k < |files| && IsAscii(TextOf(files[k].contents))
    requires OffsetsAt(Registered(files, k) + [AsFile(files[k])], w, d).Some?
    ensures WordOfFiles(files, w)
  {
    hide HashesApart, FNVHash64, TextOf, OffsetsIn, IsAscii, Registered;
    var docs, f := Registered(files, k), AsFile(files[k]);
    DocAtSnoc(docs, f, |docs| + 1);
    if d == |docs| + 1 {
      assert WordOfFile(files[k], w);
    } else {
      var i := RegisteredFrom(files, k, d);
      IndexableIsAscii(TextOf(files[i].contents));
      assert WordOfFile(files[i], w);
    }
  }

  // ReadFileToString: the contents and a terminator.
  method ReadFileToString(f: DiskFile) returns (buf: array<byte>, size: nat, ghost n: nat)
    ensures fresh(buf) && size == |f.contents| == buf.Length - 1
    ensures n == |TextOf(f.contents)| && CStringAt(buf[..], 0, n) && buf[..n] == TextOf(f.contents)
  {
    size := |f.contents|;
    buf := new byte[size + 1](i requires 0 <= i <= size => if i < size then f.contents[i] else 0);
    n := |TextOf(f.contents)|;
  }

  lemma NextRegistered(files: seq<DiskFile>, k: nat)
    requires k < |files| && Sizes(files)
    ensures Registered(files, k + 1) ==
            if Indexable(TextOf(files[k].contents)) then Registered(files, k) + [AsFile(files[k])]
              else Registered(files, k)
  {
  }

  lemma NoneRegistered(files: seq<DiskFile>)
    ensures Registered(files, 0) == []
  {
  }

  method NewTables() returns (dt: DocTable, index: MemIndex)
    ensures fresh(dt.Repr()) && fresh(index.index) && fresh(index.index.Repr) && Holds(dt, index, [])
  {
    hide HashTable.Valid, HashTable.View, HashTable.Separate, Wf, Indexed, IdsAndNames, Allocate;
    dt := new DocTable();
    index := new MemIndex();
    NothingIndexed();
  }

  // Hands every file to HandleFile, in the order in which the directories list them.
  method CrawlFiles(files: seq<DiskFile>) returns (dt: DocTable, index: MemIndex)
    requires CrawlOk(files)
    ensures fresh(dt.Repr()) && fresh(index.index) && fresh(index.index.Repr)
    ensures Holds(dt, index, Registered(files, |files|))
  {
    hide HashTable.Valid, HashTable.View, HashTable.Separate, Wf, Indexed, Indexable, HashesApart, IdsAndNames,
      TextOf, CrawlOk,
      FNVHash64, MayAdd, MemIndexOk, Allocate, Registered, Holds, IsAscii, Names, DocTable.Valid, MemIndex.Valid;
    dt, index := NewTables();
    NoneRegistered(files);
    var i := 0;
    while i < |files|
      invariant 0 <= i <= |files| && Sizes(files)
      invariant fresh(dt.Repr()) && fresh(index.index) && fresh(index.index.Repr)
      invariant Holds(dt, index, Registered(files, i))
    {
      NextMayBeAdded(files, i);
      NextRegistered(files, i);
      var fileBuf, fileLen, n := ReadFileToString(files[i]);
      HandleFile(dt, index, files[i].path, fileBuf, fileLen, n, Registered(files, i));
      i := i + 1;
    }
  }
}
