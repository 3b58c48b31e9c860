// The readers that chase offsets through an index file
// (hw3/HashTableReader.cc, IndexTableReader.cc, DocIDTableReader.cc, DocTableReader.cc).
module Readers {
  import opened Bytes
  import opened Wrappers
  import opened Tables
  import opened Files
  import opened Layout
  import opened Fnv

  // ---------- Fields of packed records ----------

  lemma FieldRead(b: seq<byte>, p: nat, n: nat, r: seq<byte>, i: nat)
    requires p + n <= |b| && r == b[p..p + n]
    ensures i + 2 <= n ==> U16Of(r, i) == U16Of(b, p + i)
    ensures i + 4 <= n ==> U32Of(r, i) == U32Of(b, p + i)
    ensures i + 8 <= n ==> U64Of(r, i) == U64Of(b, p + i)
  {
    forall k | 0 <= k < n ensures r[k] == b[p + k] {
    }
  }

  // fread() of a record of n bytes that is known to be there.
  method ReadRecord(f: IndexFile, n: nat) returns (r: seq<byte>)
    requires n > 0 && f.pos + n <= |f.bytes|
    modifies f`pos
    ensures f.pos == old(f.pos) + n && r == f.bytes[old(f.pos)..old(f.pos) + n]
    ensures forall i {:trigger U16Of(r, i)} :: 0 <= i && i + 2 <= n ==> U16Of(r, i) == U16Of(f.bytes, old(f.pos) + i)
    ensures forall i {:trigger U32Of(r, i)} :: 0 <= i && i + 4 <= n ==> U32Of(r, i) == U32Of(f.bytes, old(f.pos) + i)
    ensures forall i {:trigger U64Of(r, i)} :: 0 <= i && i + 8 <= n ==> U64Of(r, i) == U64Of(f.bytes, old(f.pos) + i)
  {
    ghost var p := f.pos;
    var read := f.FRead(n);
    r := read.value;
    forall i: nat | i < n {
      FieldRead(f.bytes, p, n, r, i);
    }
  }

  // A C++ string read one character at a time.
  method ReadString(f: IndexFile, n: nat) returns (s: seq<byte>)
    requires f.pos + n <= |f.bytes|
    modifies f`pos
    ensures f.pos == old(f.pos) + n && s == f.bytes[old(f.pos)..f.pos]
  {
    s := [];
    var i := 0;
    while i < n
      invariant 0 <= i <= n && f.pos == old(f.pos) + i && s == f.bytes[old(f.pos)..f.pos]
    {
      var nextChar := f.FRead(1);
      s := s + nextChar.value;
      i := i + 1;
    }
  }

  class HashTableReader {
    const file: IndexFile
    const offset: nat
    const numBuckets: nat

    // The reader is positioned on table t.
    ghost predicate On(fn: ElementFn, t: Table<Value>)
      reads file`bytes
    {
      TableAt(file.bytes, offset, fn, t) && numBuckets == |t.buckets|
    }

    constructor (f: IndexFile, offset: nat, ghost fn: ElementFn, ghost t: Table<Value>)
      requires TableAt(f.bytes, offset, fn, t)
      modifies f`pos
      ensures file == f && this.offset == offset && On(fn, t)
    {
      f.Seek(offset);
      var header := ReadRecord(f, LIST_HEADER_BYTES);
      file := f;
      this.offset := offset;
      numBuckets := U32Of(header, 0);
    }

    method LookupElementPositions(hashKey: Key, ghost fn: ElementFn,
          ghost t: Table<Value>) returns (positions: seq<nat>)
      requires On(fn, t) && HasBuckets(t)
      modifies file`pos
      ensures var b := BucketNum(t, hashKey);
              |positions| == |t.buckets[b]| &&
              forall j :: 0 <= j < |positions| ==>
                positions[j] == ElemPos(BucketPos(offset, fn, t, b), fn, t.buckets[b], j)
    {
      hide ElemAt, ElemPos, BucketPos, U32Of, TableLen;
      var bucketNum := hashKey % numBuckets;
      ghost var chain := t.buckets[bucketNum];
      assert SlotAt(file.bytes, offset, fn, t, bucketNum);
      file.Seek(offset + LIST_HEADER_BYTES + RECORD_BYTES * bucketNum);
      var bucketRec := ReadRecord(file, RECORD_BYTES);
      var chainNumElements, position := U32Of(bucketRec, 0), U32Of(bucketRec, 4);
      ghost var p := BucketPos(offset, fn, t, bucketNum);
      file.Seek(position);
      positions := [];
      var i := 0;
      while i < chainNumElements
        invariant 0 <= i == |positions| <= |chain| && file.pos == p + ELEMENT_POS_BYTES * i
        invariant forall j :: 0 <= j < i ==> positions[j] == ElemPos(p, fn, chain, j)
      {
        assert EntryAt(file.bytes, p, fn, chain, i);
        var curr := ReadRecord(file, ELEMENT_POS_BYTES);
        positions := positions + [U32Of(curr, 0)];
        i := i + 1;
      }
    }
  }

  // ---------- The document table ----------

  function NameIn(dt: Table<Value>, docId: Key): Option<CString>
    requires HasBuckets(dt)
  {
    var r := Find(dt, docId);
    if r.Some? && r.value.DocName? then Some(r.value.name) else None
  }

  class DocTableReader {
    const ht: HashTableReader

    constructor (f: IndexFile, offset: nat, ghost dt: Table<Value>)
      requires TableAt(f.bytes, offset, DocidToDocname, dt)
      modifies f`pos
      ensures ht.file == f && ht.On(DocidToDocname, dt)
    {
      ht := new HashTableReader(f, offset, DocidToDocname, dt);
    }

    method LookupDocID(docId: Key, ghost dt: Table<Value>) returns (r: Option<CString>)
      requires ht.On(DocidToDocname, dt) && HasBuckets(dt)
      modifies ht.file`pos
      ensures r == NameIn(dt, docId)
    {
      hide ElemPos, BucketPos, U64Of, U16Of;
      ghost var chain, b := dt.buckets[BucketNum(dt, docId)], BucketNum(dt, docId);
      ghost var p := BucketPos(ht.offset, DocidToDocname, dt, b);
      assert SlotAt(ht.file.bytes, ht.offset, DocidToDocname, dt, b);
      var elements := ht.LookupElementPositions(docId, DocidToDocname, dt);
      var i := 0;
      while i < |elements|
        invariant 0 <= i <= |elements|
        invariant forall j :: 0 <= j < i ==> chain[j].key != docId
      {
        assert EntryAt(ht.file.bytes, p, DocidToDocname, chain, i);
        ht.file.Seek(elements[i]);
        var header := ReadRecord(ht.file, DOCTABLE_HEADER_BYTES);
        if U64Of(header, 0) == docId {
          var name := ReadString(ht.file, U16Of(header, 8));
          return Some(name);
        }
        i := i + 1;
      }
      r := None;
    }
  }

  // ---------- The documents of one word ----------

  // A position list as the file keeps it: the low 32 bits of each payload.
  function Low32(l: seq<uint64>): (r: seq<uint32>)
    ensures |r| == |l| && forall k :: 0 <= k < |l| ==> r[k] == l[k] % TWO_32
  {
    seq(|l|, k requires 0 <= k < |l| => l[k] % TWO_32)
  }

  function PositionsIn(t: Table<Value>, docId: Key): Option<seq<uint32>>
    requires HasBuckets(t)
  {
    var r := Find(t, docId);
    if r.Some? && r.value.PositionList? then Some(Low32(r.value.positions)) else None
  }

  datatype DocIDElementHeader = DocIDElementHeader(docId: Key, numPositions: nat)

  function HeaderOf(kv: KV<Value>): DocIDElementHeader {
    DocIDElementHeader(kv.key, if kv.value.PositionList? then |kv.value.positions| else 0)
  }

  function HeadersOf(es: seq<KV<Value>>): (r: seq<DocIDElementHeader>)
    ensures |r| == |es| && forall k :: 0 <= k < |es| ==> r[k] == HeaderOf(es[k])
  {
    seq(|es|, k requires 0 <= k < |es| => HeaderOf(es[k]))
  }

  class DocIDTableReader {
    const ht: HashTableReader

    constructor (f: IndexFile, offset: nat, ghost t: Table<Value>)
      requires TableAt(f.bytes, offset, DocIDToPositionList, t)
      modifies f`pos
      ensures ht.file == f && ht.On(DocIDToPositionList, t)
    {
      ht := new HashTableReader(f, offset, DocIDToPositionList, t);
    }

    method LookupDocID(docId: Key, ghost t: Table<Value>) returns (r: Option<seq<uint32>>)
      requires ht.On(DocIDToPositionList, t) && HasBuckets(t)
      modifies ht.file`pos
      ensures r == PositionsIn(t, docId)
    {
      hide ElemPos, BucketPos, U64Of, U32Of;
      ghost var chain, b := t.buckets[BucketNum(t, docId)], BucketNum(t, docId);
      ghost var p := BucketPos(ht.offset, DocIDToPositionList, t, b);
      assert SlotAt(ht.file.bytes, ht.offset, DocIDToPositionList, t, b);
      var elements := ht.LookupElementPositions(docId, DocIDToPositionList, t);
      var i := 0;
      while i < |elements|
        invariant 0 <= i <= |elements|
        invariant forall j :: 0 <= j < i ==> chain[j].key != docId
      {
        assert EntryAt(ht.file.bytes, p, DocIDToPositionList, chain, i);
        ht.file.Seek(elements[i]);
        var header := ReadRecord(ht.file, DOCID_HEADER_BYTES);
        if U64Of(header, 0) == docId {
          var positionList := ReadPositions(ht.file, U32Of(header, 8), chain[i].value.positions);
          return Some(positionList);
        }
        i := i + 1;
      }
      r := None;
    }

    method GetDocIDList(ghost t: Table<Value>) returns (docIdList: seq<DocIDElementHeader>)
      requires ht.On(DocIDToPositionList, t)
      modifies ht.file`pos
      ensures docIdList == HeadersOf(Entries(t))
    {
      hide ElemPos, BucketPos, U32Of, U64Of, U16Of, TableLen, Flatten;
      docIdList := [];
      FlattenEmpties(t.buckets[..0]);
      var i := 0;
      while i < ht.numBuckets
        invariant 0 <= i <= ht.numBuckets
        invariant docIdList == HeadersOf(Flatten(t.buckets[..i]))
      {
        ghost var chain, p := t.buckets[i], BucketPos(ht.offset, DocIDToPositionList, t, i);
        assert SlotAt(ht.file.bytes, ht.offset, DocIDToPositionList, t, i);
        ht.file.Seek(ht.offset + LIST_HEADER_BYTES + i * RECORD_BYTES);
        var bucketRec := ReadRecord(ht.file, RECORD_BYTES);
        var before := docIdList;
        var j := 0;
        while j < U32Of(bucketRec, 0)
          invariant 0 <= j <= |chain|
          invariant docIdList == before + HeadersOf(chain[..j])
        {
          assert EntryAt(ht.file.bytes, p, DocIDToPositionList, chain, j);
          ht.file.Seek(U32Of(bucketRec, 4) + j * ELEMENT_POS_BYTES);
          var elementPos := ReadRecord(ht.file, ELEMENT_POS_BYTES);
          ht.file.Seek(U32Of(elementPos, 0));
          var element := ReadRecord(ht.file, DOCID_HEADER_BYTES);
          assert chain[..j + 1] == chain[..j] + [chain[j]];
          docIdList := docIdList + [DocIDElementHeader(U64Of(element, 0), U32Of(element, 8))];
          j := j + 1;
        }
        assert chain[..j] == chain;
        FlattenSnoc(t.buckets, i);
        i := i + 1;
      }
      assert t.buckets[..i] == t.buckets;
    }
  }

  method ReadPositions(f: IndexFile, n: nat, ghost l: seq<uint64>) returns (positions: seq<uint32>)
    requires n == |l| && PositionsAt(f.bytes, f.pos, l, n)
    modifies f`pos
    ensures positions == Low32(l)
  {
    positions := [];
    ghost var start := f.pos;
    var i := 0;
    while i < n
      invariant 0 <= i == |positions| <= n && f.pos == start + POSITION_BYTES * i
      invariant forall k :: 0 <= k < i ==> positions[k] == l[k] % TWO_32
    {
      assert U32Is(f.bytes, start + POSITION_BYTES * i, l[i] % TWO_32);
      var pos := ReadRecord(f, POSITION_BYTES);
      positions := positions + [U32Of(pos, 0)];
      i := i + 1;
    }
  }

  lemma {:induction false} FlattenSnoc<T>(ss: seq<seq<T>>, i: nat)
    requires i < |ss|
    ensures Flatten(ss[..i + 1]) == Flatten(ss[..i]) + ss[i]
  {
    if i == 0 {
      assert ss[..1][1..] == [] && ss[..0] == [];
    } else {
      FlattenSnoc(ss[1..], i - 1);
      assert ss[..i + 1][1..] == ss[1..][..i] && ss[..i][1..] == ss[1..][..i - 1];
    }
  }

  // ---------- The word index ----------

  ghost predicate PostingsOk(t: Table<Value>) {
    Wf(t) && forall d: Key :: Find(t, d).Some? ==> Find(t, d).value.PositionList?
  }

  ghost predicate WordEntryOk(kv: KV<Value>) {
    kv.value.WordPostings? && kv.key == FNVHash64(kv.value.word) && PostingsOk(kv.value.postings)
  }

  // An inverted index: every word's postings are filed under the word's hash.
  ghost predicate MemIndexOk(mi: Table<Value>)
    ensures MemIndexOk(mi) ==> HasBuckets(mi)
  {
    Wf(mi) && forall k: Key :: Find(mi, k).Some? ==> WordEntryOk(KV(k, Find(mi, k).value))
  }

  // The postings filed under a word's hash, if they are that word's own.
  function PostingsOf(mi: Table<Value>, word: CString): Option<Table<Value>>
    requires HasBuckets(mi)
  {
    var r := Find(mi, FNVHash64(word));
    if r.Some? && r.value.WordPostings? && r.value.word == word then Some(r.value.postings) else None
  }

  lemma ChainElement(mi: Table<Value>, b: nat, j: nat)
    requires MemIndexOk(mi) && b < |mi.buckets| && j < |mi.buckets[b]|
    ensures var kv := mi.buckets[b][j]; Find(mi, kv.key) == Some(kv.value) && WordEntryOk(kv)
  {
    var kv := mi.buckets[b][j];
    FlattenAt(mi.buckets, b, j);
    EntriesAreFound(mi, kv);
    assert WordEntryOk(KV(kv.key, Find(mi, kv.key).value));
  }

  class IndexTableReader {
    const ht: HashTableReader

    constructor (f: IndexFile, offset: nat, ghost mi: Table<Value>)
      requires TableAt(f.bytes, offset, WordToPostings, mi)
      modifies f`pos
      ensures ht.file == f && ht.On(WordToPostings, mi)
    {
      ht := new HashTableReader(f, offset, WordToPostings, mi);
    }

    method LookupWord(word: CString, ghost mi: Table<Value>) returns (r: DocIDTableReader?)
      requires ht.On(WordToPostings, mi) && MemIndexOk(mi)
      modifies ht.file`pos
      ensures r == null <==> PostingsOf(mi, word) == None
      ensures r != null ==>
                fresh(r) && r.ht.file == ht.file && r.ht.On(DocIDToPositionList, PostingsOf(mi, word).value)
    {
      hide ElemPos, BucketPos, U32Of, U16Of, FNVHash64, TableAt, MemIndexOk, Find, TableLen;
      var wordHash := FNVHash(word);
      ghost var b := BucketNum(mi, wordHash);
      ghost var chain := mi.buckets[b];
      ghost var p := BucketPos(ht.offset, WordToPostings, mi, b);
      SlotOf(ht.file.bytes, ht.offset, mi, b);
      var elements := ht.LookupElementPositions(wordHash, WordToPostings, mi);
      var i := 0;
      while i < |elements|
        invariant 0 <= i <= |elements|
        invariant forall j :: 0 <= j < i ==> chain[j].value.WordPostings? ==> chain[j].value.word != word
      {
        assert EntryAt(ht.file.bytes, p, WordToPostings, chain, i);
        ChainElement(mi, b, i);
        ht.file.Seek(elements[i]);
        var header := ReadRecord(ht.file, POSTINGS_HEADER_BYTES);
        var wordBytes := U16Of(header, 0);
        if wordBytes == |word| {
          var ss := ReadString(ht.file, wordBytes);
          if word == ss {
            var docIDTableOffset := elements[i] + POSTINGS_HEADER_BYTES + wordBytes;
            ghost var postings := chain[i].value.postings;
            r := new DocIDTableReader(ht.file, docIDTableOffset, postings);
            return;
          }
        }
        i := i + 1;
      }
      NotInChain(mi, word);
      r := null;
    }
  }

  lemma SlotOf(bytes: seq<byte>, off: nat, mi: Table<Value>, b: nat)
    requires TableAt(bytes, off, WordToPostings, mi) && b < |mi.buckets|
    ensures ChainAt(bytes, BucketPos(off, WordToPostings, mi, b), WordToPostings, mi.buckets[b], |mi.buckets[b]|)
  {
    assert SlotAt(bytes, off, WordToPostings, mi, b);
  }

  lemma NotInChain(mi: Table<Value>, word: CString)
    requires HasBuckets(mi)
    requires var chain := mi.buckets[BucketNum(mi, FNVHash64(word))];
             forall j :: 0 <= j < |chain| ==> chain[j].value.WordPostings? ==> chain[j].value.word != word
    ensures PostingsOf(mi, word) == None
  {
  }
}
