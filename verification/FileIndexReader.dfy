// Opening and validating an index file (hw3/FileIndexReader.cc).
module IndexReader {
  import opened Bytes
  import opened Tables
  import opened Files
  import opened Layout
  import opened IndexImage
  import opened Readers
  import Crc32

  // Conversion of a 32-bit pattern to a signed int.
  function Int32(n: int): int {
    var m := n % TWO_32;
    if m < TWO_31 then m else m - TWO_32
  }

  lemma LeftToRead(d: uint32, i: uint32, size: nat)
    requires HEADER_BYTES <= size == (HEADER_BYTES + d + i) % TWO_32
    ensures var rest := size - HEADER_BYTES;
            Int32(Int32(d) + Int32(i)) == if rest < TWO_31 then rest else rest - TWO_32
    ensures size < TWO_32
  {
    var rest := size - HEADER_BYTES;
    assert d + i == rest || d + i == rest + TWO_32;
    assert Int32(d) == d || Int32(d) == d - TWO_32;
    assert Int32(i) == i || Int32(i) == i - TWO_32;
    var sum := Int32(d) + Int32(i);
    assert sum == rest || sum == rest + TWO_32 || sum == rest - TWO_32 || sum == rest - 2 * TWO_32;
  }

  lemma PartOfPart(s: seq<byte>, start: nat, n: nat, p: nat, m: nat)
    requires start + n <= |s| && p + m <= n
    ensures s[start..start + n][p..p + m] == s[start + p..start + p + m]
  {
    var part, same := s[start..start + n][p..p + m], s[start + p..start + p + m];
    assert |part| == |same| && forall k {:trigger part[k]} :: 0 <= k < m ==> part[k] == s[start + p + k] == same[k];
  }

  lemma SmallInt(n: uint32)
    ensures n < TWO_31 ==> Int32(n) == n
  {
  }

  class FileIndexReader {
    const file: IndexFile
    const doctableBytes: int

    ghost predicate On(dt: Table<Value>, mi: Table<Value>)
      reads file`bytes
    {
      IndexAt(file.bytes, dt, mi) && doctableBytes == TableLen(DocidToDocname, dt)
    }

    constructor (file: IndexFile, doctableBytes: int)
      ensures this.file == file && this.doctableBytes == doctableBytes
    {
      this.file := file;
      this.doctableBytes := doctableBytes;
    }

    // The checks of the constructor; null stands for a failed Verify333.
    static method Open(image: seq<byte>, validate: bool) returns (r: FileIndexReader?)
      ensures r != null <==> Accepts(image, validate)
      ensures r != null <==>
              |image| >= 16 && image[..4] == [0xCA, 0xFE, 0xF0, 0x0D] &&
              |image| == (16 + Number(image, 8, 4) + Number(image, 12, 4)) % 0x1_0000_0000 &&
              (validate ==>
                 Number(image, 4, 4) == Crc32.Crc(if |image| < 16 + 0x8000_0000 then image[16..] else []) as int)
      ensures r != null ==> fresh(r) && fresh(r.file) && r.file.bytes == image
      ensures r != null && |image| < TWO_31 ==> forall dt, mi :: IndexAt(image, dt, mi) ==> r.On(dt, mi)
    {
      hide Crc32.Crc, Crc32.TableEntry, Crc32.ShiftAll, Crc32.Shift, TableAt, Replay, U32Of, Int32, TableLen, Checksum,
        Number;
      AcceptedBytes(image, validate);
      var f := new IndexFile.Open(image);
      var read := f.FRead(HEADER_BYTES);
      if read.None? {
        return null;
      }
      var header := read.value;
      FieldRead(image, 0, HEADER_BYTES, header, 0);
      FieldRead(image, 0, HEADER_BYTES, header, 4);
      FieldRead(image, 0, HEADER_BYTES, header, 8);
      FieldRead(image, 0, HEADER_BYTES, header, 12);
      var d, i := U32Of(header, 8), U32Of(header, 12);
      if U32Of(header, 0) != MAGIC_NUMBER || |image| != (HEADER_BYTES + d + i) % TWO_32 {
        return null;
      }
      if validate {
        LeftToRead(d, i, |image|);
        var crc := ChunkedCrc(f, Int32(Int32(d) + Int32(i)));
        assert image[HEADER_BYTES..|image|] == image[HEADER_BYTES..] && image[HEADER_BYTES..HEADER_BYTES] == [];
        if crc != U32Of(header, 4) {
          return null;
        }
      }
      SmallInt(d);
      r := new FileIndexReader(f, Int32(d));
    }

    // Folds that many bytes of the file into a CRC, at most 512 at a time; none
    // if the number is negative.
    static method ChunkedCrc(f: IndexFile, bytes: int) returns (checksum: uint32)
      requires f.pos + Max(bytes, 0) <= |f.bytes|
      modifies f`pos
      ensures checksum == Checksum(f.bytes[old(f.pos)..old(f.pos) + Max(bytes, 0)])
    {
      hide Crc32.Crc, Crc32.TableEntry, Crc32.ShiftAll, Crc32.Shift;
      ghost var body := f.bytes[f.pos..f.pos + Max(bytes, 0)];
      ghost var start, end := f.pos, f.pos + |body|;
      var crcObj := new Crc32.CRC32();
      var leftToRead := bytes;
      while leftToRead > 0
        invariant Max(leftToRead, 0) <= |body| && f.pos + Max(leftToRead, 0) == end
        invariant crcObj.Valid() && fresh(crcObj) && fresh(crcObj.table) && !crcObj.finalized
        invariant crcObj.folded == body[..|body| - Max(leftToRead, 0)]
      {
        var bytesToRead := Min(leftToRead, 512);
        ghost var p := |body| - leftToRead;
        var buf := f.FRead(bytesToRead);
        PartOfPart(f.bytes, start, |body|, p, bytesToRead);
        var i := 0;
        while i < bytesToRead
          invariant 0 <= i <= bytesToRead && f.pos + leftToRead - bytesToRead == end
          invariant crcObj.Valid() && fresh(crcObj) && fresh(crcObj.table) && !crcObj.finalized
          invariant crcObj.folded == body[..p + i]
        {
          crcObj.FoldByteIntoCRC(buf.value[i]);
          i := i + 1;
        }
        leftToRead := leftToRead - bytesToRead;
      }
      assert body[..|body|] == body;
      var crc := crcObj.GetFinalCRC();
      checksum := crc as int;
    }

    method NewDocTableReader(ghost dt: Table<Value>, ghost mi: Table<Value>) returns (r: DocTableReader)
      requires On(dt, mi)
      modifies file`pos
      ensures fresh(r) && r.ht.file == file && r.ht.On(DocidToDocname, dt)
    {
      r := new DocTableReader(file, HEADER_BYTES, dt);
    }

    method NewIndexTableReader(ghost dt: Table<Value>, ghost mi: Table<Value>) returns (r: IndexTableReader)
      requires On(dt, mi)
      modifies file`pos
      ensures fresh(r) && r.ht.file == file && r.ht.On(WordToPostings, mi)
    {
      r := new IndexTableReader(file, HEADER_BYTES + doctableBytes, mi);
    }
  }
}
