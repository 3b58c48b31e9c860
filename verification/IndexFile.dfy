// An abstract random-access file: a byte image, a cursor, and the history of
// the writes that produced the image.
module Files {
  import opened Bytes
  import opened Wrappers

  datatype Write = Write(at: nat, data: seq<byte>)

  // The image after storing data at offset at.  A gap left by seeking past
  // the end reads as zeros.
  function Overwrite(b: seq<byte>, at: nat, data: seq<byte>): (r: seq<byte>)
    ensures data == [] ==> r == b
    ensures data != [] ==> |r| == Max(|b|, at + |data|)
    ensures data != [] ==> BytesAre(r, at, data)
    ensures data != [] ==>
              forall i {:trigger r[i]} :: 0 <= i < |r| && !(at <= i < at + |data|) ==>
                r[i] == if i < |b| then b[i] else 0
  {
    if data == [] then b
    else
      var padded := b + seq(Max(0, at - |b|), _ => 0);
      padded[..at] + data + (if at + |data| < |b| then b[at + |data|..] else [])
  }

  // The image a sequence of writes leaves in a file that starts out empty.
  function Replay(log: seq<Write>): seq<byte> {
    if log == [] then []
    else Overwrite(Replay(log[..|log| - 1]), log[|log| - 1].at, log[|log| - 1].data)
  }

  predicate Touches(w: Write, x: int) { w.at <= x < w.at + |w.data| }

  // How many of the writes stored a byte at offset x.
  function Cover(log: seq<Write>, x: int): nat {
    if log == [] then 0
    else Cover(log[..|log| - 1], x) + (if Touches(log[|log| - 1], x) then 1 else 0)
  }

  lemma {:induction false} CoverSnoc(log: seq<Write>, w: Write, x: int)
    ensures Cover(log + [w], x) == Cover(log, x) + (if Touches(w, x) then 1 else 0)
  {
    assert (log + [w])[..|log|] == log;
  }

  lemma {:induction false} CoverInside(log: seq<Write>, x: int)
    requires Cover(log, x) > 0
    ensures 0 <= x < |Replay(log)|
  {
    var w := log[|log| - 1];
    if !Touches(w, x) {
      CoverInside(log[..|log| - 1], x);
    }
  }

  // A byte that some write of the history stored is counted.
  lemma {:induction false} CoverHit(log: seq<Write>, k: nat, x: int)
    requires k < |log| && Touches(log[k], x)
    ensures Cover(log, x) > 0
  {
    if k < |log| - 1 {
      CoverHit(log[..|log| - 1], k, x);
    }
  }

  // The image of a file together with the writes that made it.
  datatype Image = Image(bytes: seq<byte>, log: seq<Write>)

  ghost predicate Sound(i: Image) { i.bytes == Replay(i.log) }

  predicate Between(lo: int, x: int, hi: int) { lo <= x < hi }

  ghost function Range(lo: int, hi: int): iset<int> { iset x | Between(lo, x, hi) }

  // Between a and b, every byte of region was written exactly once, nothing
  // outside it was written, and the file did not grow beyond offset end.
  ghost predicate Wrote(a: Image, b: Image, region: iset<int>, end: nat) {
    a.log <= b.log && |a.bytes| <= |b.bytes| <= Max(|a.bytes|, end) &&
    (forall x {:trigger b.bytes[x]} :: 0 <= x < |a.bytes| && x !in region ==> b.bytes[x] == a.bytes[x]) &&
    forall x: int :: Cover(b.log, x) == Cover(a.log, x) + (if x in region then 1 else 0)
  }

  lemma WroteOnce(a: Image, b: Image, w: Write)
    requires b == Image(Overwrite(a.bytes, w.at, w.data), a.log + [w])
    ensures Wrote(a, b, Range(w.at, w.at + |w.data|), w.at + |w.data|)
  {
    forall x: int ensures Cover(b.log, x) == Cover(a.log, x) + (if x in Range(w.at, w.at + |w.data|) then 1 else 0) {
      CoverSnoc(a.log, w, x);
    }
  }

  // Writing two disjoint regions one after the other writes their union.
  lemma WroteThen(a: Image, b: Image, c: Image, r: iset<int>, s: iset<int>, end: nat, end': nat)
    requires Wrote(a, b, r, end) && Wrote(b, c, s, end') && r !! s
    ensures Wrote(a, c, r + s, Max(end, end'))
  {
  }

  lemma WroteSameRegion(a: Image, b: Image, r: iset<int>, s: iset<int>, end: nat)
    requires Wrote(a, b, r, end) && forall x: int :: x in r <==> x in s
    ensures Wrote(a, b, s, end)
  {
  }

  // What was there before, outside the region, is still there.
  lemma WroteKeeps(a: Image, b: Image, r: iset<int>, end: nat, lo: nat, hi: nat)
    requires Sound(a) && Wrote(a, b, r, end)
    requires forall x: int :: lo <= x < hi ==> Cover(a.log, x) > 0 && x !in r
    ensures Same(a.bytes, b.bytes, lo, hi)
  {
    if lo < hi {
      CoverInside(a.log, hi - 1);
    }
  }

  // A written region lies inside the file.
  lemma WroteInside(a: Image, b: Image, r: iset<int>, end: nat, x: int)
    requires Sound(b) && Wrote(a, b, r, end) && x in r
    ensures 0 <= x < |b.bytes|
  {
    CoverInside(b.log, x);
  }

  class IndexFile {
    var bytes: seq<byte>
    var pos: nat
    ghost var log: seq<Write>

    ghost predicate Valid()
      reads this
    {
      bytes == Replay(log)
    }

    ghost function Now(): Image
      reads this
    {
      Image(bytes, log)
    }

    // fopen(name, "wb+")
    constructor Create()
      ensures Valid() && bytes == [] && pos == 0 && log == []
    {
      bytes, pos, log := [], 0, [];
    }

    // fopen(name, "rb") on a file with the given contents
    constructor Open(image: seq<byte>)
      ensures Valid() && bytes == image && pos == 0
    {
      bytes, pos, log := image, 0, [Write(0, image)];
      assert [Write(0, image)][..0] == [];
      assert image != [] ==> Overwrite([], 0, image) == image;
    }

    // fseek(f, offset, SEEK_SET)
    method Seek(offset: nat)
      modifies this`pos
      ensures pos == offset
    {
      pos := offset;
    }

    // fwrite(data, size, count, f); the result is the number of complete
    // items, which is 0 for items of size 0.
    method FWrite(data: seq<byte>, size: nat, count: nat) returns (items: nat)
      requires Valid() && |data| == size * count
      modifies this
      ensures Valid()
      ensures items == if size == 0 then 0 else count
      ensures pos == old(pos) + |data|
      ensures BytesAre(bytes, old(pos), data)
      ensures log == old(log) + [Write(old(pos), data)]
      ensures Wrote(old(Now()), Now(), Range(old(pos), old(pos) + |data|), old(pos) + |data|)
    {
      items := if size == 0 then 0 else count;
      bytes := Overwrite(bytes, pos, data);
      log := log + [Write(pos, data)];
      assert log[..|log| - 1] == old(log);
      WroteOnce(old(Now()), Now(), Write(pos, data));
      pos := pos + |data|;
    }

    // fread(buf, n, 1, f) for n > 0: all n bytes or an error
    method FRead(n: nat) returns (r: Option<seq<byte>>)
      requires n > 0
      modifies this`pos
      ensures r.Some? ==> pos == old(pos) + n
      ensures r.Some? <==> old(pos) + n <= |bytes|
      ensures r.Some? ==> r.value == bytes[old(pos)..old(pos) + n]
    {
      if pos + n <= |bytes| {
        r := Some(bytes[pos..pos + n]);
        pos := pos + n;
      } else {
        r := None;
        pos := if pos < |bytes| then |bytes| else pos;
      }
    }
  }
}
