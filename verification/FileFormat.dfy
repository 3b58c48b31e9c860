// The index file in plain bytes and numbers: what a program finds in it that
// knows nothing but offsets and sizes (hw3/LayoutStructs.h).
module FileFormat {
  import opened Bytes
  import opened Wrappers
  import opened Tables
  import opened Fnv
  import opened Layout
  import opened Readers
  import opened Search
  import opened IndexImage
  import opened MemoryIndex
  import opened Crawler
  import opened SearchEngine
  import opened FileParser

  // Following the file's own offsets from a table at off: the bucket of the key
  // lists an element at e.
  predicate Lists(b: seq<byte>, off: nat, key: Key, e: nat) {
    off + 4 <= |b| && Number(b, off, 4) > 0 &&
    var rec := off + 4 + 8 * (key % Number(b, off, 4));
    rec + 8 <= |b| && exists j :: 0 <= j < Number(b, rec, 4) && Spells(b, Number(b, rec + 4, 4) + 4 * j, 4, e)
  }

  // Every element of a table is listed under its key.
  lemma ElementIsListed(b: seq<byte>, off: nat, fn: ElementFn, t: Table<Value>, key: Key) returns (e: nat)
    requires TableAt(b, off, fn, t) && HasBuckets(t) && Find(t, key).Some?
    ensures Lists(b, off, key, e) && ElemAt(b, e, fn, KV(key, Find(t, key).value))
  {
    hide ElemAt, ElemPos, BucketPos, Number, U32Of;
    var i := key % |t.buckets|;
    var c := t.buckets[i];
    var j, p, rec := IndexIn(c, key), BucketPos(off, fn, t, i), off + 4 + 8 * i;
    assert SlotAt(b, off, fn, t, i);
    assert EntryAt(b, p, fn, c, j);
    e := ElemPos(p, fn, c, j);
    FieldsSpell(b, off, |t.buckets|);
    FieldsSpell(b, rec, |c|);
    FieldsSpell(b, rec + 4, p);
    FieldsSpell(b, p + 4 * j, e);
    assert c[j] == KV(key, Find(t, key).value);
  }

  // Whatever is listed is an element of the table.
  lemma ListedIsElement(b: seq<byte>, off: nat, fn: ElementFn, t: Table<Value>, key: Key, e: nat)
    returns (kv: KV<Value>)
    requires TableAt(b, off, fn, t) && Placed(t) && Lists(b, off, key, e)
    ensures kv in Entries(t) && ElemAt(b, e, fn, kv) && kv.key % |t.buckets| == key % |t.buckets|
  {
    hide ElemAt, ElemPos, BucketPos, Number, U32Of;
    var i := key % |t.buckets|;
    var c := t.buckets[i];
    var p, rec := BucketPos(off, fn, t, i), off + 4 + 8 * i;
    assert SlotAt(b, off, fn, t, i);
    FieldsSpell(b, off, |t.buckets|);
    FieldsSpell(b, rec, |c|);
    FieldsSpell(b, rec + 4, p);
    var j: nat :| j < Number(b, rec, 4) && Spells(b, Number(b, rec + 4, 4) + 4 * j, 4, e);
    assert EntryAt(b, p, fn, c, j);
    FieldsSpell(b, p + 4 * j, ElemPos(p, fn, c, j));
    kv := c[j];
    assert ChainOk(c, |t.buckets|, i);
    FlattenAt(t.buckets, i, j);
  }

  // ---------- The elements ----------

  // The id of a document, the length of its name, and the name.
  predicate NameBytes(b: seq<byte>, e: nat, d: Key, name: CString) {
    Spells(b, e, 8, d) && Spells(b, e + 8, 2, |name|) && e + 10 + |name| <= |b| && b[e + 10..e + 10 + |name|] == name
  }

  // The length of a word, the size of its own table, and the word.
  predicate WordBytes(b: seq<byte>, e: nat, word: CString, size: nat) {
    Spells(b, e, 2, |word|) && Spells(b, e + 2, 4, size) && e + 6 + |word| <= |b| && b[e + 6..e + 6 + |word|] == word
  }

  // The id of a document, the number of positions, and the positions modulo 2^32.
  predicate PositionBytes(b: seq<byte>, e: nat, d: Key, positions: seq<uint64>) {
    Spells(b, e, 8, d) && Spells(b, e + 8, 4, |positions|) &&
    forall k :: 0 <= k < |positions| ==> Spells(b, e + 12 + 4 * k, 4, positions[k] % 0x1_0000_0000)
  }

  lemma NameElement(b: seq<byte>, e: nat, kv: KV<Value>)
    requires ElemAt(b, e, DocidToDocname, kv)
    ensures kv.value.DocName? && NameBytes(b, e, kv.key, kv.value.name)
  {
    hide Number, U16Of, U64Of;
    var n := kv.value.name;
    FieldsSpell(b, e, kv.key);
    FieldsSpell(b, e + 8, |n|);
    assert n == [] ==> b[e + 10..e + 10] == [] by { assert U16Is(b, e + 8, |n|); }
  }

  lemma WordElement(b: seq<byte>, e: nat, kv: KV<Value>)
    requires ElemAt(b, e, WordToPostings, kv)
    ensures kv.value.WordPostings?
    ensures var w, t := kv.value.word, kv.value.postings;
            WordBytes(b, e, w, TableLen(DocIDToPositionList, t)) && TableAt(b, e + 6 + |w|, DocIDToPositionList, t)
  {
    hide Number, U16Of, U32Of, TableAt, TableLen;
    var w := kv.value.word;
    FieldsSpell(b, e, |w|);
    FieldsSpell(b, e + 2, TableLen(DocIDToPositionList, kv.value.postings));
    assert U32Is(b, e + 2, TableLen(DocIDToPositionList, kv.value.postings));
    assert w == [] ==> b[e + 6..e + 6] == [];
  }

  lemma PositionElement(b: seq<byte>, e: nat, kv: KV<Value>)
    requires ElemAt(b, e, DocIDToPositionList, kv)
    ensures kv.value.PositionList? && PositionBytes(b, e, kv.key, kv.value.positions)
  {
    hide Number, U32Of, U64Of;
    var l := kv.value.positions;
    FieldsSpell(b, e, kv.key);
    FieldsSpell(b, e + 8, |l|);
    forall k | 0 <= k < |l| ensures Spells(b, e + 12 + 4 * k, 4, l[k] % 0x1_0000_0000) {
      FieldsSpell(b, e + 12 + 4 * k, l[k] % 0x1_0000_0000);
    }
  }

  // ---------- Sizes ----------

  // The bytes that the elements of a table take, each with its position record.
  function PlainSize(fn: ElementFn, es: seq<KV<Value>>): nat
    decreases fn.Level(), |es|
  {
    if es == [] then 0
    else
      (match (fn, es[0].value)
       case (DocidToDocname, DocName(n)) => 4 + 10 + |n|
       case (DocIDToPositionList, PositionList(l)) => 4 + 12 + 4 * |l|
       case (WordToPostings, WordPostings(w, t)) =>
         4 + 6 + |w| + 4 + 8 * |t.buckets| + PlainSize(DocIDToPositionList, Entries(t))
       case _ => 4) + PlainSize(fn, es[1..])
  }

  lemma {:induction false} PlainSizeConcat(fn: ElementFn, a: seq<KV<Value>>, b: seq<KV<Value>>)
    ensures PlainSize(fn, a + b) == PlainSize(fn, a) + PlainSize(fn, b)
    decreases |a|
  {
    if a == [] {
      assert a + b == b;
    } else {
      assert (a + b)[1..] == a[1..] + b;
      PlainSizeConcat(fn, a[1..], b);
    }
  }

  lemma {:induction false} ChainSize(fn: ElementFn, c: seq<KV<Value>>, j: nat)
    requires j <= |c|
    ensures 4 * j + ElemsLen(fn, c, j) == PlainSize(fn, c[..j])
    decreases fn.Level(), 0, j
  {
    if j > 0 {
      ChainSize(fn, c, j - 1);
      assert c[..j] == c[..j - 1] + [c[j - 1]];
      PlainSizeConcat(fn, c[..j - 1], [c[j - 1]]);
      var v := c[j - 1].value;
      if fn == WordToPostings && v.WordPostings? { TableSize(DocIDToPositionList, v.postings); }
    }
  }

  lemma {:induction false} BucketsSize(fn: ElementFn, t: Table<Value>, i: nat)
    requires i <= |t.buckets|
    ensures BucketsLen(fn, t, i) == PlainSize(fn, Flatten(t.buckets[..i]))
    decreases fn.Level(), 1, i
  {
    if i > 0 {
      BucketsSize(fn, t, i - 1);
      ChainSize(fn, t.buckets[i - 1], |t.buckets[i - 1]|);
      FlattenSnoc(t.buckets, i - 1);
      assert t.buckets[i - 1][..|t.buckets[i - 1]|] == t.buckets[i - 1];
      PlainSizeConcat(fn, Flatten(t.buckets[..i - 1]), t.buckets[i - 1]);
    }
  }

  // A table takes 4 bytes, 8 for every bucket, and those of its elements.
  lemma {:induction false} TableSize(fn: ElementFn, t: Table<Value>)
    ensures TableLen(fn, t) == 4 + 8 * |t.buckets| + PlainSize(fn, Entries(t))
    decreases fn.Level(), 2
  {
    BucketsSize(fn, t, |t.buckets|);
    assert t.buckets[..|t.buckets|] == t.buckets;
  }

  // What the two sizes in the header are.
  lemma HeaderSizes(b: seq<byte>, dt: Table<Value>, mi: Table<Value>)
    requires IndexAt(b, dt, mi)
    ensures Number(b, 8, 4) == 4 + 8 * |dt.buckets| + PlainSize(DocidToDocname, Entries(dt))
    ensures Number(b, 12, 4) == 4 + 8 * |mi.buckets| + PlainSize(WordToPostings, Entries(mi))
  {
    hide TableAt, TableLen, Number, IndexAt, Entries, PlainSize;
    CompleteBytes(b, dt, mi);
    TableSize(DocidToDocname, dt);
    TableSize(WordToPostings, mi);
  }

  // ---------- The texts ----------

  // In the index file of some documents, the id of each of them leads to its
  // name, and a word that it contains leads to all its offsets there.
  lemma TextsInBytes(b: seq<byte>, dt: Table<Value>, mi: Table<Value>, docs: seq<File>, d: Key, w: CString)
    returns (name: nat, word: nat, list: nat)
    requires IndexAt(b, dt, mi) && NameTable(dt, docs) && Indexed(mi, docs) && 1 <= d <= |docs|
    ensures Lists(b, 16, d, name) && NameBytes(b, name, d, docs[d - 1].name)
    ensures OffsetsIn(docs[d - 1], w) != [] ==>
              Lists(b, 16 + Number(b, 8, 4), FNVHash64(w), word) &&
              (exists size :: WordBytes(b, word, w, size)) && Lists(b, word + 6 + |w|, d, list) &&
              PositionBytes(b, list, d, OffsetsIn(docs[d - 1], w))
  {
    hide FNVHash64, Find, TableAt, TableLen, Number, Lists, IndexAt, MemIndexOk, OffsetsIn, ElemAt, NameBytes,
      WordBytes, PositionBytes, Occupied;
    CompleteBytes(b, dt, mi);
    DocAtIndex(docs, d);
    name := ElementIsListed(b, 16, DocidToDocname, dt, d);
    NameElement(b, name, KV(d, Find(dt, d).value));
    word, list := 0, 0;
    if OffsetsIn(docs[d - 1], w) != [] {
      var t := PostedWord(mi, docs, d, w);
      word := ElementIsListed(b, 16 + Number(b, 8, 4), WordToPostings, mi, FNVHash64(w));
      WordElement(b, word, KV(FNVHash64(w), Find(mi, FNVHash64(w)).value));
      list := ElementIsListed(b, word + 6 + |w|, DocIDToPositionList, t, d);
      PositionElement(b, list, KV(d, Find(t, d).value));
    }
  }

  lemma PostedWord(mi: Table<Value>, docs: seq<File>, d: Key, w: CString) returns (t: Table<Value>)
    requires Indexed(mi, docs) && 1 <= d <= |docs| && OffsetsIn(docs[d - 1], w) != []
    ensures Find(mi, FNVHash64(w)) == Some(WordPostings(w, t)) && HasBuckets(t)
    ensures Find(t, d) == Some(PositionList(OffsetsIn(docs[d - 1], w)))
  {
    hide FNVHash64, Find, MemIndexOk, OffsetsIn;
    assert Posted(mi, w, d) == Some(OffsetsIn(docs[d - 1], w));
    t := PostingsOf(mi, w).value;
  }

  // Whatever word the file lists is a word of some document ...
  lemma ListedWord(b: seq<byte>, dt: Table<Value>, mi: Table<Value>, docs: seq<File>, key: Key, e: nat)
    returns (w: CString)
    requires IndexAt(b, dt, mi) && Indexed(mi, docs) && Lists(b, 16 + Number(b, 8, 4), key, e)
    ensures w in AllWords(docs) && exists size :: WordBytes(b, e, w, size)
    ensures PostingsOf(mi, w).Some? && TableAt(b, e + 6 + |w|, DocIDToPositionList, PostingsOf(mi, w).value)
  {
    hide FNVHash64, Find, TableAt, TableLen, Number, Lists, IndexAt, OffsetsAt, ElemAt, WordBytes, Occupied, Posted,
      AllWords, Wf;
    CompleteBytes(b, dt, mi);
    WfIsPlaced(mi);
    var kv := ListedIsElement(b, 16 + Number(b, 8, 4), WordToPostings, mi, key, e);
    EntriesAreFound(mi, kv);
    assert WordEntryOk(kv);
    WordElement(b, e, kv);
    w := kv.value.word;
    IndexedWord(mi, docs, w);
  }

  // ... and whatever document it lists there contains the word, with exactly
  // these offsets.
  lemma ListedDocument(b: seq<byte>, mi: Table<Value>, docs: seq<File>, w: CString, at: nat, key: Key, e: nat)
    returns (d: Key)
    requires Indexed(mi, docs) && PostingsOf(mi, w).Some?
    requires TableAt(b, at, DocIDToPositionList, PostingsOf(mi, w).value) && Lists(b, at, key, e)
    ensures 1 <= d <= |docs| && OffsetsIn(docs[d - 1], w) != [] && PositionBytes(b, e, d, OffsetsIn(docs[d - 1], w))
  {
    hide FNVHash64, Find, TableAt, Number, Lists, OffsetsIn, ElemAt, PositionBytes, Occupied, Wf, MemIndexOk;
    var t := PostingsOf(mi, w).value;
    PostingsAreOk(mi, w);
    WfIsPlaced(t);
    var kv := ListedIsElement(b, at, DocIDToPositionList, t, key, e);
    EntriesAreFound(t, kv);
    PositionElement(b, e, kv);
    d := kv.key;
    assert Posted(mi, w, d) == OffsetsAt(docs, w, d);
  }
}
