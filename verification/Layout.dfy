// The on-disk layout of the index file (hw3/LayoutStructs.h): what it means
// for a byte image to hold a hash table at a given offset.
module Layout {
  import opened Bytes
  import opened Tables

  const MAGIC_NUMBER: uint32 := 0xCAFEF00D

  // sizeof() of the packed structs
  const HEADER_BYTES: nat := 16      // IndexFileHeader
  const LIST_HEADER_BYTES: nat := 4  // BucketListHeader
  const RECORD_BYTES: nat := 8       // BucketRecord
  const ELEMENT_POS_BYTES: nat := 4  // ElementPositionRecord
  const DOCTABLE_HEADER_BYTES: nat := 10
  const POSTINGS_HEADER_BYTES: nat := 6
  const DOCID_HEADER_BYTES: nat := 12
  const POSITION_BYTES: nat := 4

  // What an HTValue_t points to in the three tables of an index.
  datatype Value =
    | DocName(name: CString)
    | PositionList(positions: seq<uint64>)
    | WordPostings(word: CString, postings: Table<Value>)

  // The three functions passed as WriteElementFn; each one interprets the
  // value pointer as its own kind of value.
  datatype ElementFn = DocidToDocname | DocIDToPositionList | WordToPostings {
    function Level(): nat { if WordToPostings? then 1 else 0 }
  }

  // ---------- Sizes and offsets ----------

  function ElemLen(fn: ElementFn, v: Value): nat
    decreases fn.Level(), 0
  {
    match (fn, v)
    case (DocidToDocname, DocName(n)) => DOCTABLE_HEADER_BYTES + |n|
    case (DocIDToPositionList, PositionList(p)) => DOCID_HEADER_BYTES + POSITION_BYTES * |p|
    case (WordToPostings, WordPostings(w, t)) => POSTINGS_HEADER_BYTES + |w| + TableLen(DocIDToPositionList, t)
    case _ => 0
  }

  // Total size of the first j elements of a chain.
  function ElemsLen(fn: ElementFn, c: seq<KV<Value>>, j: nat): nat
    requires j <= |c|
    decreases fn.Level(), 1, j
  {
    if j == 0 then 0 else ElemsLen(fn, c, j - 1) + ElemLen(fn, c[j - 1].value)
  }

  // The offset of element j of a chain whose bucket starts at offset p.
  function ElemPos(p: nat, fn: ElementFn, c: seq<KV<Value>>, j: nat): nat
    requires j <= |c|
    decreases fn.Level(), 2
  {
    p + ELEMENT_POS_BYTES * |c| + ElemsLen(fn, c, j)
  }

  // Total size of the first i buckets.
  function BucketsLen(fn: ElementFn, t: Table<Value>, i: nat): nat
    requires i <= |t.buckets|
    decreases fn.Level(), 3, i
  {
    if i == 0 then 0
    else ElemPos(BucketsLen(fn, t, i - 1), fn, t.buckets[i - 1], |t.buckets[i - 1]|)
  }

  // The offset of bucket i of a table that starts at offset off.
  function BucketPos(off: nat, fn: ElementFn, t: Table<Value>, i: nat): nat
    requires i <= |t.buckets|
    decreases fn.Level(), 4
  {
    off + LIST_HEADER_BYTES + RECORD_BYTES * |t.buckets| + BucketsLen(fn, t, i)
  }

  function TableLen(fn: ElementFn, t: Table<Value>): nat
    decreases fn.Level(), 5
  {
    BucketPos(0, fn, t, |t.buckets|)
  }

  // ---------- The values each writer may be handed ----------

  predicate ElemFits(fn: ElementFn, v: Value)
    decreases fn.Level(), 0
  {
    match (fn, v)
    case (DocidToDocname, DocName(n)) => |n| < TWO_15
    case (DocIDToPositionList, PositionList(_)) => true
    case (WordToPostings, WordPostings(w, t)) => |w| < TWO_15 && Fits(DocIDToPositionList, t)
    case _ => false
  }

  predicate ChainFits(fn: ElementFn, c: seq<KV<Value>>)
    decreases fn.Level(), 1
  {
    forall j :: 0 <= j < |c| ==> ElemFits(fn, c[j].value)
  }

  predicate Fits(fn: ElementFn, t: Table<Value>)
    decreases fn.Level(), 2
  {
    forall i :: 0 <= i < |t.buckets| ==> ChainFits(fn, t.buckets[i])
  }

  // ---------- Images that hold a table ----------

  // The first n positions of a list, truncated to 32 bits.
  predicate PositionsAt(b: seq<byte>, p: nat, l: seq<uint64>, n: nat)
    requires n <= |l|
  {
    forall k :: 0 <= k < n ==> U32Is(b, p + POSITION_BYTES * k, l[k] % TWO_32)
  }

  predicate ElemAt(b: seq<byte>, p: nat, fn: ElementFn, kv: KV<Value>)
    decreases fn.Level(), 0
  {
    match (fn, kv.value)
    case (DocidToDocname, DocName(n)) =>
      U64Is(b, p, kv.key) && U16Is(b, p + 8, |n|) && BytesAre(b, p + DOCTABLE_HEADER_BYTES, n)
    case (DocIDToPositionList, PositionList(l)) =>
      U64Is(b, p, kv.key) && U32Is(b, p + 8, |l|) && PositionsAt(b, p + DOCID_HEADER_BYTES, l, |l|)
    case (WordToPostings, WordPostings(w, t)) =>
      U16Is(b, p, |w|) && U32Is(b, p + 2, TableLen(DocIDToPositionList, t)) &&
      BytesAre(b, p + POSTINGS_HEADER_BYTES, w) &&
      TableAt(b, p + POSTINGS_HEADER_BYTES + |w|, DocIDToPositionList, t)
    case _ => false
  }

  // Entry j of the bucket at p: its position record and the element it points to.
  predicate EntryAt(b: seq<byte>, p: nat, fn: ElementFn, c: seq<KV<Value>>, j: nat)
    requires j < |c|
    decreases fn.Level(), 1
  {
    U32Is(b, p + ELEMENT_POS_BYTES * j, ElemPos(p, fn, c, j)) && ElemAt(b, ElemPos(p, fn, c, j), fn, c[j])
  }

  // The first n entries of a bucket.
  predicate ChainAt(b: seq<byte>, p: nat, fn: ElementFn, c: seq<KV<Value>>, n: nat)
    requires n <= |c|
    decreases fn.Level(), 2
  {
    forall j :: 0 <= j < n ==> EntryAt(b, p, fn, c, j)
  }

  // Bucket i of the table at off: its bucket record and the chain it points to.
  predicate SlotAt(b: seq<byte>, off: nat, fn: ElementFn, t: Table<Value>, i: nat)
    requires i < |t.buckets|
    decreases fn.Level(), 3
  {
    var rec := off + LIST_HEADER_BYTES + RECORD_BYTES * i;
    var p := BucketPos(off, fn, t, i);
    U32Is(b, rec, |t.buckets[i]|) && U32Is(b, rec + 4, p) &&
    ChainAt(b, p, fn, t.buckets[i], |t.buckets[i]|)
  }

  // The table's header and its first n buckets.
  predicate SlotsAt(b: seq<byte>, off: nat, fn: ElementFn, t: Table<Value>, n: nat)
    requires n <= |t.buckets|
    decreases fn.Level(), 4
  {
    U32Is(b, off, |t.buckets|) && forall i :: 0 <= i < n ==> SlotAt(b, off, fn, t, i)
  }

  predicate TableAt(b: seq<byte>, off: nat, fn: ElementFn, t: Table<Value>)
    decreases fn.Level(), 5
  {
    SlotsAt(b, off, fn, t, |t.buckets|)
  }

  // ---------- Element headers as they are written ----------

  function DoctableElementHeader(docId: uint64, nameBytes: nat): (r: seq<byte>)
    requires nameBytes < TWO_15
    ensures |r| == DOCTABLE_HEADER_BYTES
  {
    Be64(docId) + Be16(nameBytes)
  }

  function DocIDElementHeader(docId: uint64, numPositions: nat): (r: seq<byte>)
    requires numPositions < TWO_31
    ensures |r| == DOCID_HEADER_BYTES
  {
    Be64(docId) + Be32(numPositions)
  }

  function WordPostingsHeader(wordBytes: nat, postingsBytes: nat): (r: seq<byte>)
    requires wordBytes < TWO_15 && postingsBytes < TWO_31
    ensures |r| == POSTINGS_HEADER_BYTES
  {
    Be16(wordBytes) + Be32(postingsBytes)
  }

  function BucketRecord(numElts: nat, position: nat): (r: seq<byte>)
    requires numElts < TWO_31 && position < TWO_31
    ensures |r| == RECORD_BYTES
  {
    Be32(numElts) + Be32(position)
  }

  lemma DoctableHeaderRead(b: seq<byte>, p: nat, docId: uint64, n: nat)
    requires n < TWO_15 && BytesAre(b, p, DoctableElementHeader(docId, n))
    ensures U64Is(b, p, docId) && U16Is(b, p + 8, n)
  {
    BytesAreSplit(b, p, Be64(docId), Be16(n));
    Be64RoundTrip(b, p, docId);
    Be16RoundTrip(b, p + 8, n);
  }

  lemma DocIDHeaderRead(b: seq<byte>, p: nat, docId: uint64, n: nat)
    requires n < TWO_31 && BytesAre(b, p, DocIDElementHeader(docId, n))
    ensures U64Is(b, p, docId) && U32Is(b, p + 8, n)
  {
    BytesAreSplit(b, p, Be64(docId), Be32(n));
    Be64RoundTrip(b, p, docId);
    Be32RoundTrip(b, p + 8, n);
  }

  lemma PostingsHeaderRead(b: seq<byte>, p: nat, w: nat, n: nat)
    requires w < TWO_15 && n < TWO_31 && BytesAre(b, p, WordPostingsHeader(w, n))
    ensures U16Is(b, p, w) && U32Is(b, p + 2, n)
  {
    BytesAreSplit(b, p, Be16(w), Be32(n));
    Be16RoundTrip(b, p, w);
    Be32RoundTrip(b, p + 2, n);
  }

  lemma BucketRecordRead(b: seq<byte>, p: nat, n: nat, position: nat)
    requires n < TWO_31 && position < TWO_31 && BytesAre(b, p, BucketRecord(n, position))
    ensures U32Is(b, p, n) && U32Is(b, p + 4, position)
  {
    BytesAreSplit(b, p, Be32(n), Be32(position));
    Be32RoundTrip(b, p, n);
    Be32RoundTrip(b, p + 4, position);
  }

  // ---------- Offsets grow with the index ----------

  lemma {:induction false} ElemsLenGrows(fn: ElementFn, c: seq<KV<Value>>, i: nat, j: nat)
    requires i <= j <= |c|
    ensures ElemsLen(fn, c, i) <= ElemsLen(fn, c, j)
    decreases j
  {
    if i < j { ElemsLenGrows(fn, c, i, j - 1); }
  }

  lemma {:induction false} BucketsLenGrows(fn: ElementFn, t: Table<Value>, i: nat, j: nat)
    requires i <= j <= |t.buckets|
    ensures BucketsLen(fn, t, i) <= BucketsLen(fn, t, j)
    decreases j
  {
    if i < j { BucketsLenGrows(fn, t, i, j - 1); }
  }

  // Each bucket starts where the previous one's last element ends.
  lemma BucketPosNext(off: nat, fn: ElementFn, t: Table<Value>, i: nat)
    requires i < |t.buckets|
    ensures BucketPos(off, fn, t, i + 1) == ElemPos(BucketPos(off, fn, t, i), fn, t.buckets[i], |t.buckets[i]|)
  {
    assert BucketsLen(fn, t, i + 1) == ElemPos(BucketsLen(fn, t, i), fn, t.buckets[i], |t.buckets[i]|);
  }

  // ---------- A table depends only on the bytes of its own region ----------

  lemma PositionsFrame(a: seq<byte>, b: seq<byte>, p: nat, l: seq<uint64>, n: nat)
    requires n <= |l| && PositionsAt(a, p, l, n) && Same(a, b, p, p + POSITION_BYTES * n)
    ensures PositionsAt(b, p, l, n)
  {
    forall k | 0 <= k < n ensures U32Is(b, p + POSITION_BYTES * k, l[k] % TWO_32) {
      assert U32Is(a, p + POSITION_BYTES * k, l[k] % TWO_32);
    }
  }

  lemma ElemFrame(a: seq<byte>, b: seq<byte>, p: nat, fn: ElementFn, kv: KV<Value>)
    requires ElemAt(a, p, fn, kv) && Same(a, b, p, p + ElemLen(fn, kv.value))
    ensures ElemAt(b, p, fn, kv)
    decreases fn.Level(), 0
  {
    match kv.value {
      case DocName(n) => BytesAreFrame(a, b, p + DOCTABLE_HEADER_BYTES, n);
      case PositionList(l) => PositionsFrame(a, b, p + DOCID_HEADER_BYTES, l, |l|);
      case WordPostings(w, t) =>
        BytesAreFrame(a, b, p + POSTINGS_HEADER_BYTES, w);
        TableFrame(a, b, p + POSTINGS_HEADER_BYTES + |w|, DocIDToPositionList, t);
    }
  }

  lemma EntryFrame(a: seq<byte>, b: seq<byte>, p: nat, fn: ElementFn, c: seq<KV<Value>>, j: nat)
    requires j < |c| && EntryAt(a, p, fn, c, j)
    requires Same(a, b, p + ELEMENT_POS_BYTES * j, p + ELEMENT_POS_BYTES * (j + 1))
    requires Same(a, b, ElemPos(p, fn, c, j), ElemPos(p, fn, c, j + 1))
    ensures EntryAt(b, p, fn, c, j)
    decreases fn.Level(), 1
  {
    ElemFrame(a, b, ElemPos(p, fn, c, j), fn, c[j]);
  }

  lemma ChainFrame(a: seq<byte>, b: seq<byte>, p: nat, fn: ElementFn, c: seq<KV<Value>>, n: nat)
    requires n <= |c| && ChainAt(a, p, fn, c, n)
    requires Same(a, b, p, p + ELEMENT_POS_BYTES * n)
    requires Same(a, b, ElemPos(p, fn, c, 0), ElemPos(p, fn, c, n))
    ensures ChainAt(b, p, fn, c, n)
    decreases fn.Level(), 2
  {
    forall j | 0 <= j < n ensures EntryAt(b, p, fn, c, j) {
      assert EntryAt(a, p, fn, c, j);
      ElemsLenGrows(fn, c, j + 1, n);
      SameSub(a, b, p, p + ELEMENT_POS_BYTES * n, p + ELEMENT_POS_BYTES * j, p + ELEMENT_POS_BYTES * (j + 1));
      SameSub(a, b, ElemPos(p, fn, c, 0), ElemPos(p, fn, c, n), ElemPos(p, fn, c, j), ElemPos(p, fn, c, j + 1));
      EntryFrame(a, b, p, fn, c, j);
    }
  }

  lemma SlotFrame(a: seq<byte>, b: seq<byte>, off: nat, fn: ElementFn, t: Table<Value>, i: nat)
    requires i < |t.buckets| && SlotAt(a, off, fn, t, i)
    requires var rec := off + LIST_HEADER_BYTES + RECORD_BYTES * i; Same(a, b, rec, rec + RECORD_BYTES)
    requires Same(a, b, BucketPos(off, fn, t, i), BucketPos(off, fn, t, i + 1))
    ensures SlotAt(b, off, fn, t, i)
    decreases fn.Level(), 3
  {
    var c, p := t.buckets[i], BucketPos(off, fn, t, i);
    BucketPosNext(off, fn, t, i);
    SameSub(a, b, p, BucketPos(off, fn, t, i + 1), p, p + ELEMENT_POS_BYTES * |c|);
    SameSub(a, b, p, BucketPos(off, fn, t, i + 1), ElemPos(p, fn, c, 0), ElemPos(p, fn, c, |c|));
    ChainFrame(a, b, p, fn, c, |c|);
  }

  lemma SlotsFrame(a: seq<byte>, b: seq<byte>, off: nat, fn: ElementFn, t: Table<Value>, n: nat)
    requires n <= |t.buckets| && SlotsAt(a, off, fn, t, n)
    requires Same(a, b, off, off + LIST_HEADER_BYTES + RECORD_BYTES * n)
    requires Same(a, b, BucketPos(off, fn, t, 0), BucketPos(off, fn, t, n))
    ensures SlotsAt(b, off, fn, t, n)
    decreases fn.Level(), 4
  {
    var first := off + LIST_HEADER_BYTES;
    forall i | 0 <= i < n ensures SlotAt(b, off, fn, t, i) {
      assert SlotAt(a, off, fn, t, i);
      BucketsLenGrows(fn, t, i + 1, n);
      SameSub(a, b, off, first + RECORD_BYTES * n, first + RECORD_BYTES * i, first + RECORD_BYTES * (i + 1));
      SameSub(a, b, BucketPos(off, fn, t, 0), BucketPos(off, fn, t, n), BucketPos(off, fn, t, i), BucketPos(off, fn,
        t, i + 1));
      SlotFrame(a, b, off, fn, t, i);
    }
  }

  lemma TableFrame(a: seq<byte>, b: seq<byte>, off: nat, fn: ElementFn, t: Table<Value>)
    requires TableAt(a, off, fn, t) && Same(a, b, off, off + TableLen(fn, t))
    ensures TableAt(b, off, fn, t)
    decreases fn.Level(), 5
  {
    var n, end := |t.buckets|, off + TableLen(fn, t);
    BucketsLenGrows(fn, t, 0, n);
    SameSub(a, b, off, end, off, off + LIST_HEADER_BYTES + RECORD_BYTES * n);
    SameSub(a, b, off, end, BucketPos(off, fn, t, 0), end);
    SlotsFrame(a, b, off, fn, t, n);
  }
}
