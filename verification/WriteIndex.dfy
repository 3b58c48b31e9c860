// The index writer (hw3/WriteIndex.cc): hash tables of hash tables, with
// records that are written ahead of and behind the data they point to.
module Writer {
  import opened Bytes
  import opened Tables
  import opened Files
  import opened Layout
  import opened IndexImage
  import Crc32

  const FAILED_WRITE: int := -1

  // fwrite() of a file name as one item fails when the name is empty.
  predicate ElemWritable(v: Value) { v.DocName? ==> v.name != [] }

  predicate ChainWritable(c: seq<KV<Value>>) {
    forall j :: 0 <= j < |c| ==> ElemWritable(c[j].value)
  }

  predicate Writable(t: Table<Value>) {
    forall i :: 0 <= i < |t.buckets| ==> ChainWritable(t.buckets[i])
  }

  method WriteDocidToDocnameFn(f: IndexFile, offset: nat, kv: KV<Value>) returns (r: int)
    requires f.Valid() && ElemFits(DocidToDocname, kv.value)
    modifies f
    ensures f.Valid()
    ensures r == if ElemWritable(kv.value) then ElemLen(DocidToDocname, kv.value) else FAILED_WRITE
    ensures r != FAILED_WRITE ==>
              Wrote(old(f.Now()), f.Now(), Range(offset, offset + r), offset + r) &&
              ElemAt(f.bytes, offset, DocidToDocname, kv)
  {
    hide Cover, Replay, Wrote, Overwrite, U64Of, U16Of;
    var name := kv.value.name;
    var fileNameBytes := |name|;
    var header := DoctableElementHeader(kv.key, fileNameBytes);
    ghost var before := f.Now();
    f.Seek(offset);
    var items := f.FWrite(header, DOCTABLE_HEADER_BYTES, 1);
    ghost var middle := f.Now();
    items := f.FWrite(name, fileNameBytes, 1);
    if items != 1 {
      return FAILED_WRITE;
    }
    r := DOCTABLE_HEADER_BYTES + fileNameBytes;
    HeaderKept(before, middle, f.Now(), offset, header, name);
    DoctableHeaderRead(f.bytes, offset, kv.key, fileNameBytes);
  }

  // A header followed at once by its payload.
  lemma HeaderKept(a: Image, b: Image, c: Image, offset: nat, header: seq<byte>, data: seq<byte>)
    requires Sound(a) && Sound(b) && header != []
    requires Wrote(a, b, Range(offset, offset + |header|), offset + |header|)
    requires BytesAre(b.bytes, offset, header)
    requires var p := offset + |header|; Wrote(b, c, Range(p, p + |data|), p + |data|)
    ensures BytesAre(c.bytes, offset, header)
    ensures var e := offset + |header| + |data|; Wrote(a, c, Range(offset, e), e)
  {
    hide Cover, Replay, Wrote, Sound;
    var p := offset + |header|;
    RegionKept(a, b, c, offset, p, p + |data|);
    BytesAreFrame(b.bytes, c.bytes, offset, header);
  }

  method WriteDocIDToPositionListFn(f: IndexFile, offset: nat, kv: KV<Value>) returns (r: int)
    requires f.Valid() && ElemFits(DocIDToPositionList, kv.value)
    requires offset + ElemLen(DocIDToPositionList, kv.value) < TWO_31
    modifies f
    ensures f.Valid()
    ensures r == ElemLen(DocIDToPositionList, kv.value)
    ensures Wrote(old(f.Now()), f.Now(), Range(offset, offset + r), offset + r)
    ensures ElemAt(f.bytes, offset, DocIDToPositionList, kv)
  {
    hide Cover, Replay, Wrote, BytesAre, Overwrite, U32Is, U64Is;
    var positions := kv.value.positions;
    var numPositions := |positions|;
    var header := DocIDElementHeader(kv.key, numPositions);
    ghost var before := f.Now();
    f.Seek(offset);
    var items := f.FWrite(header, DOCID_HEADER_BYTES, 1);
    ghost var afterHeader := f.Now();
    var i := 0;
    while i < numPositions
      invariant 0 <= i <= numPositions
      invariant f.Valid() && f.pos == offset + DOCID_HEADER_BYTES + POSITION_BYTES * i
      invariant Wrote(before, f.Now(), Range(offset, f.pos), f.pos)
      invariant BytesAre(f.bytes, offset, header)
      invariant PositionsAt(f.bytes, offset + DOCID_HEADER_BYTES, positions, i)
    {
      ghost var here := f.Now();
      var position := Be32(positions[i] % TWO_32);
      items := f.FWrite(position, POSITION_BYTES, 1);
      PositionStep(before, here, f.Now(), offset, header, positions, i);
      i := i + 1;
    }
    DocIDHeaderRead(f.bytes, offset, kv.key, numPositions);
    r := DOCID_HEADER_BYTES + POSITION_BYTES * numPositions;
  }

  // Extending a region that was written so far by the bytes that follow it.
  lemma RegionKept(a: Image, b: Image, c: Image, lo: nat, mid: nat, hi: nat)
    requires Sound(b) && lo <= mid <= hi
    requires Wrote(a, b, Range(lo, mid), mid) && Wrote(b, c, Range(mid, hi), hi)
    ensures Wrote(a, c, Range(lo, hi), hi)
    ensures Same(b.bytes, c.bytes, lo, mid)
  {
    WroteThen(a, b, c, Range(lo, mid), Range(mid, hi), mid, hi);
    WroteSameRegion(a, c, Range(lo, mid) + Range(mid, hi), Range(lo, hi), hi);
    WroteKeeps(b, c, Range(mid, hi), hi, lo, mid);
  }

  lemma PositionStep(a: Image, b: Image, c: Image, offset: nat, header: seq<byte>, l: seq<uint64>, i: nat)
    requires i < |l| && |header| == DOCID_HEADER_BYTES && Sound(b)
    requires BytesAre(b.bytes, offset, header) && PositionsAt(b.bytes, offset + DOCID_HEADER_BYTES, l, i)
    requires var p := offset + DOCID_HEADER_BYTES + POSITION_BYTES * i;
             && Wrote(a, b, Range(offset, p), p)
             && Wrote(b, c, Range(p, p + POSITION_BYTES), p + POSITION_BYTES)
             && BytesAre(c.bytes, p, Be32(l[i] % TWO_32))
    ensures BytesAre(c.bytes, offset, header) && PositionsAt(c.bytes, offset + DOCID_HEADER_BYTES, l, i + 1)
    ensures var e := offset + DOCID_HEADER_BYTES + POSITION_BYTES * (i + 1); Wrote(a, c, Range(offset, e), e)
  {
    hide Cover, Replay, Wrote, Sound, U32Of, Overwrite;
    var start := offset + DOCID_HEADER_BYTES;
    var p := start + POSITION_BYTES * i;
    RegionKept(a, b, c, offset, p, p + POSITION_BYTES);
    SameSub(b.bytes, c.bytes, offset, p, offset, start);
    BytesAreFrame(b.bytes, c.bytes, offset, header);
    SameSub(b.bytes, c.bytes, offset, p, start, p);
    PositionsFrame(b.bytes, c.bytes, start, l, i);
    Be32RoundTrip(c.bytes, p, l[i] % TWO_32);
  }

  // Writing a table or a bucket fills two regions in turns: the records at
  // [lo, m) and, further on, what they point to at [base, e).  One more record
  // and one more item extend both and disturb neither.
  lemma TwoRegionStep(a: Image, b: Image, c: Image, d: Image,
                      lo: nat, m: nat, m': nat, base: nat, e: nat, e': nat)
    requires Sound(b) && Sound(c) && lo <= m <= m' <= base <= e <= e'
    requires Wrote(a, b, Range(lo, m) + Range(base, e), e)
    requires Wrote(b, c, Range(m, m'), m') && Wrote(c, d, Range(e, e'), e')
    ensures Wrote(a, d, Range(lo, m') + Range(base, e'), e')
    ensures Same(b.bytes, d.bytes, lo, m) && Same(b.bytes, d.bytes, base, e)
    ensures Same(c.bytes, d.bytes, m, m')
  {
    var r, s := Range(lo, m) + Range(base, e), Range(m, m') + Range(e, e');
    WroteThen(b, c, d, Range(m, m'), Range(e, e'), m', e');
    WroteThen(a, b, d, r, s, e, e');
    WroteSameRegion(a, d, r + s, Range(lo, m') + Range(base, e'), e');
    WroteKeeps(b, d, s, e', lo, m);
    WroteKeeps(b, d, s, e', base, e);
    WroteKeeps(c, d, Range(e, e'), e', m, m');
  }

  lemma BucketStep(a: Image, b: Image, c: Image, d: Image, p: nat, fn: ElementFn, li: seq<KV<Value>>, i: nat)
    requires i < |li| && ChainAt(b.bytes, p, fn, li, i) && Sound(b) && Sound(c)
    requires var rec, pos, base := p + ELEMENT_POS_BYTES * i, ElemPos(p, fn, li, i), ElemPos(p, fn, li, 0);
             var next := ElemPos(p, fn, li, i + 1);
             && Wrote(a, b, Range(p, rec) + Range(base, pos), pos)
             && Wrote(b, c, Range(rec, rec + ELEMENT_POS_BYTES), rec + ELEMENT_POS_BYTES)
             && Wrote(c, d, Range(pos, next), next)
             && U32Is(c.bytes, rec, pos) && ElemAt(d.bytes, pos, fn, li[i])
    ensures var rec, next, base := p + ELEMENT_POS_BYTES * (i + 1), ElemPos(p, fn, li, i + 1), ElemPos(p, fn, li, 0);
            Wrote(a, d, Range(p, rec) + Range(base, next), next)
    ensures ChainAt(d.bytes, p, fn, li, i + 1)
  {
    hide Cover, Replay, ElemAt, Wrote, Same, U32Is, Sound;
    var rec, pos, base := p + ELEMENT_POS_BYTES * i, ElemPos(p, fn, li, i), ElemPos(p, fn, li, 0);
    ElemsLenGrows(fn, li, 0, i);
    TwoRegionStep(a, b, c, d, p, rec, rec + ELEMENT_POS_BYTES, base, pos, ElemPos(p, fn, li, i + 1));
    ChainFrame(b.bytes, d.bytes, p, fn, li, i);
    U32Frame(c.bytes, d.bytes, rec, pos);
  }

  // Element i ends where element i + 1 starts, within the bucket.
  lemma ElemRoom(p: nat, fn: ElementFn, c: seq<KV<Value>>, i: nat)
    requires i < |c|
    ensures ElemPos(p, fn, c, i) + ElemLen(fn, c[i].value) == ElemPos(p, fn, c, i + 1) <= ElemPos(p, fn, c, |c|)
  {
    ElemsLenGrows(fn, c, i + 1, |c|);
  }

  lemma FirstElem(p: nat, fn: ElementFn, c: seq<KV<Value>>)
    ensures ElemPos(p, fn, c, 0) == p + ELEMENT_POS_BYTES * |c|
  {
  }

  method WriteHTBucket(f: IndexFile, offset: nat, li: seq<KV<Value>>, fn: ElementFn) returns (r: int)
    requires f.Valid() && ChainFits(fn, li) && ElemPos(offset, fn, li, |li|) < TWO_31
    modifies f
    ensures f.Valid()
    ensures r == if ChainWritable(li) then ElemPos(0, fn, li, |li|) else FAILED_WRITE
    ensures r != FAILED_WRITE ==>
              Wrote(old(f.Now()), f.Now(), Range(offset, offset + r), offset + r) &&
              ChainAt(f.bytes, offset, fn, li, |li|)
    decreases fn.Level(), 2
  {
    hide Cover, Replay, ElemAt, Wrote, EntryAt, U32Is, Overwrite, BytesAre, ElemLen, ElemFits, ElemsLen;
    var numElts := |li|;
    ghost var before, base := f.Now(), ElemPos(offset, fn, li, 0);
    FirstElem(offset, fn, li);
    FirstElem(0, fn, li);
    if numElts == 0 {
      WroteNone(before, offset, offset);
      return 0;
    }
    var recordPos := offset;
    var elementPos := offset + ELEMENT_POS_BYTES * numElts;
    WroteNone(before, offset, base);
    var i := 0;
    while i < numElts
      invariant 0 <= i <= numElts && f.Valid()
      invariant recordPos == offset + ELEMENT_POS_BYTES * i && elementPos == ElemPos(offset, fn, li, i)
      invariant Wrote(before, f.Now(), Range(offset, recordPos) + Range(base, elementPos), elementPos)
      invariant ChainAt(f.bytes, offset, fn, li, i)
      invariant forall j :: 0 <= j < i ==> ElemWritable(li[j].value)
    {
      ghost var b := f.Now();
      ElemRoom(offset, fn, li, i);
      f.Seek(recordPos);
      var items := f.FWrite(Be32(elementPos), ELEMENT_POS_BYTES, 1);
      Be32RoundTrip(f.bytes, recordPos, elementPos);
      ghost var c := f.Now();
      var elementBytes := WriteElement(f, elementPos, li[i], fn);
      if elementBytes < 0 {
        return FAILED_WRITE;
      }
      BucketStep(before, b, c, f.Now(), offset, fn, li, i);
      recordPos := recordPos + ELEMENT_POS_BYTES;
      elementPos := elementPos + elementBytes;
      i := i + 1;
    }
    r := elementPos - offset;
    WroteSameRegion(before, f.Now(), Range(offset, recordPos) + Range(base, elementPos), Range(offset, offset + r),
      elementPos);
  }

  lemma WroteNone(a: Image, lo: nat, base: nat)
    ensures Wrote(a, a, Range(lo, lo) + Range(base, base), base)
    ensures Wrote(a, a, Range(lo, lo), lo)
  {
  }

  method WriteHTBucketRecord(f: IndexFile, offset: nat, numElts: nat, bucketOffset: nat) returns (r: nat)
    requires f.Valid() && numElts < TWO_31 && bucketOffset < TWO_31
    modifies f
    ensures f.Valid()
    ensures r == RECORD_BYTES
    ensures Wrote(old(f.Now()), f.Now(), Range(offset, offset + r), offset + r)
    ensures U32Is(f.bytes, offset, numElts) && U32Is(f.bytes, offset + 4, bucketOffset)
  {
    f.Seek(offset);
    var items := f.FWrite(BucketRecord(numElts, bucketOffset), RECORD_BYTES, 1);
    BucketRecordRead(f.bytes, offset, numElts, bucketOffset);
    r := RECORD_BYTES;
  }

  // The call through the function pointer.
  method WriteElement(f: IndexFile, offset: nat, kv: KV<Value>, fn: ElementFn) returns (r: int)
    requires f.Valid() && ElemFits(fn, kv.value) && offset + ElemLen(fn, kv.value) < TWO_31
    modifies f
    ensures f.Valid()
    ensures r == if ElemWritable(kv.value) then ElemLen(fn, kv.value) else FAILED_WRITE
    ensures r != FAILED_WRITE ==>
              Wrote(old(f.Now()), f.Now(), Range(offset, offset + r), offset + r) &&
              ElemAt(f.bytes, offset, fn, kv)
    decreases fn.Level(), 1
  {
    hide Cover, Replay, Wrote;
    match fn {
      case DocidToDocname => r := WriteDocidToDocnameFn(f, offset, kv);
      case DocIDToPositionList => r := WriteDocIDToPositionListFn(f, offset, kv);
      case WordToPostings => r := WriteWordToPostingsFn(f, offset, kv);
    }
  }

  lemma NestedWritable(t: Table<Value>)
    requires Fits(DocIDToPositionList, t)
    ensures Writable(t)
  {
    forall i | 0 <= i < |t.buckets| ensures ChainWritable(t.buckets[i]) {
      assert ChainFits(DocIDToPositionList, t.buckets[i]);
    }
  }

  method WriteWordToPostingsFn(f: IndexFile, offset: nat, kv: KV<Value>) returns (r: int)
    requires f.Valid() && ElemFits(WordToPostings, kv.value) && offset + ElemLen(WordToPostings, kv.value) < TWO_31
    modifies f
    ensures f.Valid()
    ensures r == ElemLen(WordToPostings, kv.value)
    ensures Wrote(old(f.Now()), f.Now(), Range(offset, offset + r), offset + r)
    ensures ElemAt(f.bytes, offset, WordToPostings, kv)
    decreases 1, 0
  {
    hide Cover, Replay, Wrote, TableAt, TableLen, Overwrite, Writable, U16Of, U32Of;
    var wp := kv.value;
    var wordBytes := |wp.word|;
    var postings := offset + POSTINGS_HEADER_BYTES + wordBytes;
    NestedWritable(wp.postings);
    ghost var a := f.Now();
    var htBytes := WriteHashTable(f, postings, wp.postings, DocIDToPositionList);
    if htBytes == FAILED_WRITE {
      return FAILED_WRITE;
    }
    ghost var b := f.Now();
    f.Seek(offset);
    var header := WordPostingsHeader(wordBytes, htBytes);
    var items := f.FWrite(header, POSTINGS_HEADER_BYTES, 1);
    ghost var c := f.Now();
    f.Seek(offset + POSTINGS_HEADER_BYTES);
    items := f.FWrite(wp.word, 1, wordBytes);
    PostingsStep(a, b, c, f.Now(), offset, wp.word, wp.postings, header);
    PostingsHeaderRead(f.bytes, offset, wordBytes, htBytes);
    r := POSTINGS_HEADER_BYTES + wordBytes + htBytes;
  }

  // The nested table is written first, then the header and the word before it.
  lemma PostingsStep(a: Image, b: Image, c: Image, d: Image, offset: nat, word: CString, t: Table<Value>,
        header: seq<byte>)
    requires Sound(a) && Sound(b) && Sound(c) && |header| == POSTINGS_HEADER_BYTES
    requires var w := offset + POSTINGS_HEADER_BYTES;
             var p := w + |word|;
             var e := p + TableLen(DocIDToPositionList, t);
             && Wrote(a, b, Range(p, e), e) && Wrote(b, c, Range(offset, w), w) && Wrote(c, d, Range(w, p), p)
             && TableAt(b.bytes, p, DocIDToPositionList, t) && BytesAre(c.bytes, offset, header)
    ensures var p := offset + POSTINGS_HEADER_BYTES + |word|;
            var e := p + TableLen(DocIDToPositionList, t);
            Wrote(a, d, Range(offset, e), e) && TableAt(d.bytes, p, DocIDToPositionList, t)
    ensures BytesAre(d.bytes, offset, header)
  {
    hide Cover, Replay, TableAt, TableLen, BytesAre, Sound;
    var w := offset + POSTINGS_HEADER_BYTES;
    var p := w + |word|;
    var e := p + TableLen(DocIDToPositionList, t);
    WroteThen(b, c, d, Range(offset, w), Range(w, p), w, p);
    var front := Range(offset, w) + Range(w, p);
    WroteThen(a, b, d, Range(p, e), front, e, p);
    WroteSameRegion(a, d, Range(p, e) + front, Range(offset, e), e);
    KeepsPart(a, b, d, p, e, front, p);
    TableFrame(b.bytes, d.bytes, p, DocIDToPositionList, t);
    KeepsPart(b, c, d, offset, w, Range(w, p), p);
    BytesAreFrame(c.bytes, d.bytes, offset, header);
  }

  // A region written by one call and missed by the next keeps its bytes.
  lemma KeepsPart(a: Image, b: Image, c: Image, lo: nat, hi: nat, s: iset<int>, end: nat)
    requires Sound(b) && Wrote(a, b, Range(lo, hi), hi) && Wrote(b, c, s, end) && Range(lo, hi) !! s
    ensures Same(b.bytes, c.bytes, lo, hi)
  {
    assert forall x: int :: lo <= x < hi ==> x in Range(lo, hi);
    WroteKeeps(b, c, s, end, lo, hi);
  }

  lemma TableStep(a: Image, b: Image, c: Image, d: Image, off: nat, fn: ElementFn, t: Table<Value>, i: nat)
    requires i < |t.buckets| && SlotsAt(b.bytes, off, fn, t, i) && Sound(b) && Sound(c)
    requires var rec := off + LIST_HEADER_BYTES + RECORD_BYTES * i;
             var pos, base, next := BucketPos(off, fn, t, i), BucketPos(off, fn, t, 0), BucketPos(off, fn, t, i + 1);
             var chain := t.buckets[i];
             && Wrote(a, b, Range(off, rec) + Range(base, pos), pos)
             && Wrote(b, c, Range(rec, rec + RECORD_BYTES), rec + RECORD_BYTES)
             && Wrote(c, d, Range(pos, next), next)
             && U32Is(c.bytes, rec, |chain|) && U32Is(c.bytes, rec + 4, pos) &&
               ChainAt(d.bytes, pos, fn, chain, |chain|)
    ensures var rec := off + LIST_HEADER_BYTES + RECORD_BYTES * (i + 1);
            var base, next := BucketPos(off, fn, t, 0), BucketPos(off, fn, t, i + 1);
            Wrote(a, d, Range(off, rec) + Range(base, next), next)
    ensures SlotsAt(d.bytes, off, fn, t, i + 1)
  {
    hide Cover, Replay, ChainAt, Wrote, Same, U32Is, Sound;
    var rec := off + LIST_HEADER_BYTES + RECORD_BYTES * i;
    var pos, base, next := BucketPos(off, fn, t, i), BucketPos(off, fn, t, 0), BucketPos(off, fn, t, i + 1);
    BucketsLenGrows(fn, t, 0, i);
    BucketsLenGrows(fn, t, i, i + 1);
    TwoRegionStep(a, b, c, d, off, rec, rec + RECORD_BYTES, base, pos, next);
    SlotsFrame(b.bytes, d.bytes, off, fn, t, i);
    SameSub(c.bytes, d.bytes, rec, rec + RECORD_BYTES, rec, rec + 4);
    SameSub(c.bytes, d.bytes, rec, rec + RECORD_BYTES, rec + 4, rec + RECORD_BYTES);
    U32Frame(c.bytes, d.bytes, rec, |t.buckets[i]|);
    U32Frame(c.bytes, d.bytes, rec + 4, pos);
  }

  method WriteHashTable(f: IndexFile, offset: nat, ht: Table<Value>, fn: ElementFn) returns (r: int)
    requires f.Valid() && Fits(fn, ht) && offset + TableLen(fn, ht) < TWO_31
    modifies f
    ensures f.Valid()
    ensures r == if Writable(ht) then TableLen(fn, ht) else FAILED_WRITE
    ensures r != FAILED_WRITE ==>
              Wrote(old(f.Now()), f.Now(), Range(offset, offset + r), offset + r) &&
              TableAt(f.bytes, offset, fn, ht)
    decreases fn.Level(), 3
  {
    hide Cover, Replay, Wrote, ChainAt, SlotAt, U32Is, Overwrite, BytesAre, ChainFits, ElemPos, ElemsLen, BucketsLen;
    ghost var a, base, n := f.Now(), BucketPos(offset, fn, ht, 0), |ht.buckets|;
    FirstBucket(offset, fn, ht);
    f.Seek(offset);
    var items := f.FWrite(Be32(|ht.buckets|), LIST_HEADER_BYTES, 1);
    Be32RoundTrip(f.bytes, offset, |ht.buckets|);
    var recordPos := offset + LIST_HEADER_BYTES;
    var bucketPos := offset + LIST_HEADER_BYTES + |ht.buckets| * RECORD_BYTES;
    WroteMore(a, f.Now(), offset, recordPos, base);
    var i := 0;
    while i < |ht.buckets|
      invariant 0 <= i <= n && f.Valid()
      invariant recordPos == offset + LIST_HEADER_BYTES + RECORD_BYTES * i && bucketPos == BucketPos(offset, fn, ht, i)
      invariant Wrote(a, f.Now(), Range(offset, recordPos) + Range(base, bucketPos), bucketPos)
      invariant SlotsAt(f.bytes, offset, fn, ht, i)
      invariant forall k :: 0 <= k < i ==> ChainWritable(ht.buckets[k])
    {
      ghost var b := f.Now();
      var chain := ht.buckets[i];
      SlotRoom(offset, fn, ht, i);
      var recordBytes := WriteHTBucketRecord(f, recordPos, |chain|, bucketPos);
      ghost var c := f.Now();
      recordPos := recordPos + recordBytes;
      if |chain| == 0 {
        EmptyBucket(c, bucketPos, fn, chain);
        TableStep(a, b, c, c, offset, fn, ht, i);
        i := i + 1;
        continue;
      }
      var bucketBytes := WriteHTBucket(f, bucketPos, chain, fn);
      if bucketBytes == FAILED_WRITE {
        return FAILED_WRITE;
      }
      TableStep(a, b, c, f.Now(), offset, fn, ht, i);
      bucketPos := bucketPos + bucketBytes;
      i := i + 1;
    }
    r := bucketPos - offset;
    WroteSameRegion(a, f.Now(), Range(offset, recordPos) + Range(base, bucketPos), Range(offset, offset + r),
      bucketPos);
  }

  // Bucket i of a table that ends below 2^31 starts, and ends, below 2^31.
  lemma SlotRoom(offset: nat, fn: ElementFn, t: Table<Value>, i: nat)
    requires i < |t.buckets| && offset + TableLen(fn, t) < TWO_31
    ensures var c, p := t.buckets[i], BucketPos(offset, fn, t, i);
            |c| < TWO_31 && p < TWO_31 &&
            p + ElemPos(0, fn, c, |c|) == ElemPos(p, fn, c, |c|) == BucketPos(offset, fn, t, i + 1) < TWO_31
  {
    BucketsLenGrows(fn, t, i + 1, |t.buckets|);
    BucketPosNext(offset, fn, t, i);
  }

  lemma FirstBucket(offset: nat, fn: ElementFn, t: Table<Value>)
    ensures BucketPos(offset, fn, t, 0) == offset + LIST_HEADER_BYTES + RECORD_BYTES * |t.buckets|
    ensures BucketPos(offset, fn, t, 0) <= BucketPos(offset, fn, t, |t.buckets|) == offset + TableLen(fn, t)
  {
    BucketsLenGrows(fn, t, 0, |t.buckets|);
  }

  lemma EmptyBucket(a: Image, p: nat, fn: ElementFn, c: seq<KV<Value>>)
    requires |c| == 0
    ensures Wrote(a, a, Range(p, p), p) && ChainAt(a.bytes, p, fn, c, |c|) && ElemPos(p, fn, c, |c|) == p
  {
    WroteNone(a, p, p);
  }

  lemma WroteMore(a: Image, b: Image, lo: nat, hi: nat, base: nat)
    requires Wrote(a, b, Range(lo, hi), hi) && hi <= base
    ensures Wrote(a, b, Range(lo, hi) + Range(base, base), base)
  {
  }

  method WriteDocTable(f: IndexFile, dt: Table<Value>, offset: nat) returns (r: int)
    requires f.Valid() && Fits(DocidToDocname, dt) && offset + TableLen(DocidToDocname, dt) < TWO_31
    modifies f
    ensures f.Valid()
    ensures r == if Writable(dt) then TableLen(DocidToDocname, dt) else FAILED_WRITE
    ensures r != FAILED_WRITE ==>
              Wrote(old(f.Now()), f.Now(), Range(offset, offset + r), offset + r) &&
              TableAt(f.bytes, offset, DocidToDocname, dt)
  {
    r := WriteHashTable(f, offset, dt, DocidToDocname);
  }

  method WriteMemIndex(f: IndexFile, mi: Table<Value>, offset: nat) returns (r: int)
    requires f.Valid() && Fits(WordToPostings, mi) && offset + TableLen(WordToPostings, mi) < TWO_31
    modifies f
    ensures f.Valid()
    ensures r == TableLen(WordToPostings, mi)
    ensures Wrote(old(f.Now()), f.Now(), Range(offset, offset + r), offset + r)
    ensures TableAt(f.bytes, offset, WordToPostings, mi)
  {
    WordsWritable(mi);
    r := WriteHashTable(f, offset, mi, WordToPostings);
  }

  lemma WordsWritable(t: Table<Value>)
    requires Fits(WordToPostings, t)
    ensures Writable(t)
  {
    forall i | 0 <= i < |t.buckets| ensures ChainWritable(t.buckets[i]) {
      assert ChainFits(WordToPostings, t.buckets[i]);
    }
  }

  // Checksums what follows the header, then writes the header in one piece.
  method WriteHeader(f: IndexFile, doctableBytes: nat, memidxBytes: nat) returns (r: int)
    requires f.Valid() && HEADER_BYTES + doctableBytes + memidxBytes == |f.bytes| < TWO_31
    modifies f
    ensures f.Valid() && r == HEADER_BYTES
    ensures var h := Header(Checksum(old(f.bytes[HEADER_BYTES..])), doctableBytes, memidxBytes);
            f.log == old(f.log) + [Write(0, h)] && BytesAre(f.bytes, 0, h)
    ensures |f.bytes| >= 16 && f.bytes[..4] == [0xCA, 0xFE, 0xF0, 0x0D]
    ensures Wrote(old(f.Now()), f.Now(), Range(0, HEADER_BYTES), HEADER_BYTES)
  {
    hide Cover, Replay, Wrote, Crc32.Crc, Crc32.ShiftAll, Crc32.TableEntry, BytesAre;
    ghost var body := f.bytes[HEADER_BYTES..];
    var crc := new Crc32.CRC32();
    f.Seek(HEADER_BYTES);
    var i := 0;
    while i < doctableBytes + memidxBytes
      invariant 0 <= i <= |body| && f.pos == HEADER_BYTES + i
      invariant f.bytes == old(f.bytes) && f.log == old(f.log)
      invariant crc.Valid() && fresh(crc) && fresh(crc.table) && !crc.finalized && crc.folded == body[..i]
    {
      var currByte := f.FRead(1);
      if currByte.None? {
        assert false;
        return FAILED_WRITE;
      }
      crc.FoldByteIntoCRC(currByte.value[0]);
      i := i + 1;
    }
    assert body[..i] == body;
    var checksum := crc.GetFinalCRC();
    var header := Header(checksum as int, doctableBytes, memidxBytes);
    f.Seek(0);
    var items := f.FWrite(header, HEADER_BYTES, 1);
    HeaderStarts(f.bytes, checksum as int, doctableBytes, memidxBytes);
    r := HEADER_BYTES;
  }

  lemma HeaderStarts(b: seq<byte>, checksum: uint32, d: nat, i: nat)
    requires d < TWO_31 && i < TWO_31 && BytesAre(b, 0, Header(checksum, d, i))
    ensures |b| >= 16 && b[..4] == [0xCA, 0xFE, 0xF0, 0x0D]
  {
    hide U32Of, Header;
    HeaderRead(b, checksum, d, i);
    MagicBytes(b);
  }

  // The whole file.  On failure the file is deleted, so nothing is returned.
  method WriteIndex(mi: Table<Value>, dt: Table<Value>) returns (r: int, f: IndexFile?)
    requires Fits(WordToPostings, mi) && Fits(DocidToDocname, dt)
    requires HEADER_BYTES + TableLen(DocidToDocname, dt) + TableLen(WordToPostings, mi) < TWO_31
    ensures r == FAILED_WRITE <==> f == null
    ensures f == null <==> r == -1
    ensures r == FAILED_WRITE <==> !Writable(dt)
    ensures f != null ==>
              fresh(f) && f.Valid() && r == |f.bytes| && IndexAt(f.bytes, dt, mi) && HeaderLast(f.log) &&
              forall x: int :: Cover(f.log, x) == if 0 <= x < r then 1 else 0
    ensures f != null ==>
              r > 16 && f.bytes[..4] == [0xCA, 0xFE, 0xF0, 0x0D] &&
              Number(f.bytes, 4, 4) == Crc32.Crc(f.bytes[16..]) as int &&
              Number(f.bytes, 8, 4) == TableLen(DocidToDocname, dt) &&
              Number(f.bytes, 12, 4) == TableLen(WordToPostings, mi)
  {
    hide Cover, Replay, Wrote, TableAt, Checksum, Header, HeaderLast, IndexAt, BytesAre, Number, Crc32.Crc;
    f := new IndexFile.Create();
    ghost var a := f.Now();
    var curPos := HEADER_BYTES;
    var dtBytes := WriteDocTable(f, dt, curPos);
    if dtBytes == FAILED_WRITE {
      return FAILED_WRITE, null;
    }
    curPos := curPos + dtBytes;
    ghost var b := f.Now();
    var miBytes := WriteMemIndex(f, mi, curPos);
    curPos := curPos + miBytes;
    ghost var c := f.Now();
    BodyStep(a, b, c, dt, mi);
    var headerBytes := WriteHeader(f, dtBytes, miBytes);
    HeaderStep(a, c, f.Now(), dt, mi);
    CompleteBytes(f.bytes, dt, mi);
    r := curPos;
  }

  // The two tables tile the file beyond the header.
  lemma BodyStep(a: Image, b: Image, c: Image, dt: Table<Value>, mi: Table<Value>)
    requires a == Image([], []) && Sound(a) && Sound(b) && Sound(c)
    requires var d, i := TableLen(DocidToDocname, dt), TableLen(WordToPostings, mi);
             var p := HEADER_BYTES + d;
             && Wrote(a, b, Range(HEADER_BYTES, p), p) && Wrote(b, c, Range(p, p + i), p + i)
             && TableAt(b.bytes, HEADER_BYTES, DocidToDocname, dt)
    ensures var d, i := TableLen(DocidToDocname, dt), TableLen(WordToPostings, mi);
            var e := HEADER_BYTES + d + i;
            Wrote(a, c, Range(HEADER_BYTES, e), e) && |c.bytes| == e
    ensures TableAt(c.bytes, HEADER_BYTES, DocidToDocname, dt)
  {
    hide Cover, Replay, TableAt;
    TablesAreNotEmpty(dt, mi);
    var p := HEADER_BYTES + TableLen(DocidToDocname, dt);
    var e := p + TableLen(WordToPostings, mi);
    RegionKept(a, b, c, HEADER_BYTES, p, e);
    TableFrame(b.bytes, c.bytes, HEADER_BYTES, DocidToDocname, dt);
    WroteInside(a, c, Range(HEADER_BYTES, e), e, e - 1);
  }

  // The header completes the file without touching the tables.
  lemma HeaderStep(a: Image, c: Image, d: Image, dt: Table<Value>, mi: Table<Value>)
    requires a == Image([], []) && Sound(a) && Sound(c) && Sound(d)
    requires var n, i := TableLen(DocidToDocname, dt), TableLen(WordToPostings, mi);
             var e := HEADER_BYTES + n + i;
             && e < TWO_31 && |c.bytes| == e && Wrote(a, c, Range(HEADER_BYTES, e), e)
             && Wrote(c, d, Range(0, HEADER_BYTES), HEADER_BYTES)
             && TableAt(c.bytes, HEADER_BYTES, DocidToDocname, dt) &&
               TableAt(c.bytes, HEADER_BYTES + n, WordToPostings, mi)
             && var h := Header(Checksum(c.bytes[HEADER_BYTES..]), n, i);
                d.log == c.log + [Write(0, h)] && BytesAre(d.bytes, 0, h)
    ensures IndexAt(d.bytes, dt, mi) && HeaderLast(d.log) && |d.bytes| == |c.bytes|
    ensures forall x: int :: Cover(d.log, x) == if 0 <= x < |d.bytes| then 1 else 0
  {
    hide Cover, Replay, TableAt, TableLen, Checksum, Header, HeaderLast, Wrote, Same, U32Of, BytesAre;
    var n, i := TableLen(DocidToDocname, dt), TableLen(WordToPostings, mi);
    var e := HEADER_BYTES + n + i;
    TablesAreNotEmpty(dt, mi);
    EachByteOnce(a, c, d, e);
    BodyKept(a, c, d, e);
    SameSub(c.bytes, d.bytes, HEADER_BYTES, e, HEADER_BYTES, HEADER_BYTES + n);
    SameSub(c.bytes, d.bytes, HEADER_BYTES, e, HEADER_BYTES + n, e);
    TableFrame(c.bytes, d.bytes, HEADER_BYTES, DocidToDocname, dt);
    TableFrame(c.bytes, d.bytes, HEADER_BYTES + n, WordToPostings, mi);
    HeaderRead(d.bytes, Checksum(c.bytes[HEADER_BYTES..]), n, i);
    BodyBeyondHeader(a, c, e);
    HeaderComesLast(c.log, Write(0, Header(Checksum(c.bytes[HEADER_BYTES..]), n, i)));
  }

  lemma BodyKept(a: Image, c: Image, d: Image, e: nat)
    requires a == Image([], []) && Sound(c) && HEADER_BYTES < e == |c.bytes|
    requires Wrote(a, c, Range(HEADER_BYTES, e), e) && Wrote(c, d, Range(0, HEADER_BYTES), HEADER_BYTES)
    ensures Same(c.bytes, d.bytes, HEADER_BYTES, e) && |d.bytes| == e
    ensures c.bytes[HEADER_BYTES..] == d.bytes[HEADER_BYTES..]
  {
    hide Cover, Replay;
    WroteKeeps(c, d, Range(0, HEADER_BYTES), HEADER_BYTES, HEADER_BYTES, e);
  }

  lemma EachByteOnce(a: Image, c: Image, d: Image, e: nat)
    requires a == Image([], []) && HEADER_BYTES < e
    requires Wrote(a, c, Range(HEADER_BYTES, e), e) && Wrote(c, d, Range(0, HEADER_BYTES), HEADER_BYTES)
    ensures forall x: int :: Cover(d.log, x) == if 0 <= x < e then 1 else 0
  {
    hide Replay;
  }

  lemma BodyBeyondHeader(a: Image, c: Image, e: nat)
    requires a == Image([], []) && Wrote(a, c, Range(HEADER_BYTES, e), e)
    ensures forall k :: 0 <= k < |c.log| ==> c.log[k].data == [] || c.log[k].at >= HEADER_BYTES
  {
    forall k | 0 <= k < |c.log| && c.log[k].data != [] ensures c.log[k].at >= HEADER_BYTES {
      CoverHit(c.log, k, c.log[k].at);
    }
  }

  lemma HeaderComesLast(log: seq<Write>, h: Write)
    requires forall k :: 0 <= k < |log| ==> log[k].data == [] || log[k].at >= HEADER_BYTES
    requires h.at == 0 && |h.data| == HEADER_BYTES
    ensures HeaderLast(log + [h])
  {
  }
}
