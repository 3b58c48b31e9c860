// Whole index files: what a complete one looks like and what the reader's
// constructor accepts (hw3/WriteIndex.cc, hw3/FileIndexReader.cc).
module IndexImage {
  import opened Bytes
  import opened Tables
  import opened Layout
  import opened Files
  import opened Crc32

  // The CRC as the header stores it.
  function Checksum(s: seq<byte>): uint32 { Crc(s) as int }

  lemma ChecksumsDiffer(a: seq<byte>, b: seq<byte>)
    requires Crc(a) != Crc(b)
    ensures Checksum(a) != Checksum(b)
  {
    IntBack(Crc(a));
    IntBack(Crc(b));
  }

  lemma IntBack(x: bv32)
    ensures (x as int) as bv32 == x
  {
  }

  function Header(checksum: uint32, doctableBytes: nat, indexBytes: nat): (h: seq<byte>)
    requires doctableBytes < TWO_32 && indexBytes < TWO_32
    ensures |h| == HEADER_BYTES
  {
    Be32(MAGIC_NUMBER) + Be32(checksum) + Be32(doctableBytes) + Be32(indexBytes)
  }

  lemma HeaderRead(b: seq<byte>, checksum: uint32, d: nat, i: nat)
    requires d < TWO_32 && i < TWO_32 && BytesAre(b, 0, Header(checksum, d, i))
    ensures U32Is(b, 0, MAGIC_NUMBER) && U32Is(b, 4, checksum) && U32Is(b, 8, d) && U32Is(b, 12, i)
  {
    BytesAreSplit(b, 0, Be32(MAGIC_NUMBER) + Be32(checksum) + Be32(d), Be32(i));
    BytesAreSplit(b, 0, Be32(MAGIC_NUMBER) + Be32(checksum), Be32(d));
    BytesAreSplit(b, 0, Be32(MAGIC_NUMBER), Be32(checksum));
    Be32RoundTrip(b, 0, MAGIC_NUMBER);
    Be32RoundTrip(b, 4, checksum);
    Be32RoundTrip(b, 8, d);
    Be32RoundTrip(b, 12, i);
  }

  // The image holds a complete index: header, doctable, word index, nothing else.
  predicate IndexAt(b: seq<byte>, dt: Table<Value>, mi: Table<Value>) {
    var d, i := TableLen(DocidToDocname, dt), TableLen(WordToPostings, mi);
    |b| == HEADER_BYTES + d + i &&
    U32Is(b, 0, MAGIC_NUMBER) && U32Is(b, 4, Checksum(b[HEADER_BYTES..])) && U32Is(b, 8, d) && U32Is(b, 12, i) &&
    TableAt(b, HEADER_BYTES, DocidToDocname, dt) && TableAt(b, HEADER_BYTES + d, WordToPostings, mi)
  }

  // The bytes that validation reads: everything beyond the header, unless
  // their number is negative as a 32-bit int.
  function Checked(b: seq<byte>): seq<byte>
    requires |b| >= HEADER_BYTES
  {
    if |b| - HEADER_BYTES < TWO_31 then b[HEADER_BYTES..] else []
  }

  // The checks of FileIndexReader's constructor.  The sum of the sizes is cast
  // to a 32-bit unsigned int before it is compared with the file's size.
  predicate Accepts(b: seq<byte>, validate: bool) {
    |b| >= HEADER_BYTES && U32Of(b, 0) == MAGIC_NUMBER &&
    |b| == (HEADER_BYTES + U32Of(b, 8) + U32Of(b, 12)) % TWO_32 &&
    (validate ==> U32Of(b, 4) == Checksum(Checked(b)))
  }

  // A complete index passes every check.
  lemma CompleteIsAccepted(b: seq<byte>, dt: Table<Value>, mi: Table<Value>, validate: bool)
    requires IndexAt(b, dt, mi) && |b| < TWO_31
    ensures Accepts(b, validate)
  {
    hide TableAt, TableLen, Checksum, U32Of;
  }

  // Changing the body of an accepted file inside a window of four bytes gives
  // a file that validation rejects, exactly as long as the body is shorter than
  // 2^31 bytes: longer ones are not read at all.
  lemma CorruptionIsRejected(a: seq<byte>, b: seq<byte>, i: nat)
    requires Accepts(a, true) && |b| == |a| && a != b && HEADER_BYTES <= i
    requires forall k :: 0 <= k < |a| && !(i <= k < i + 4) ==> a[k] == b[k]
    ensures !Accepts(b, true) <==> |a| - HEADER_BYTES < TWO_31
  {
    hide Crc, Checksum, U32Of;
    SameHeader(a, b);
    if |a| - HEADER_BYTES < TWO_31 {
      var x, y := a[HEADER_BYTES..], b[HEADER_BYTES..];
      assert x != y by {
        assert a == a[..HEADER_BYTES] + x && b == b[..HEADER_BYTES] + y;
        assert a[..HEADER_BYTES] == b[..HEADER_BYTES];
      }
      forall k | 0 <= k < |x| && !(i - HEADER_BYTES <= k < i - HEADER_BYTES + 4) ensures x[k] == y[k] {
        assert a[k + HEADER_BYTES] == b[k + HEADER_BYTES];
      }
      BurstDetected(x, y, i - HEADER_BYTES);
      ChecksumsDiffer(x, y);
    }
  }

  // A file whose body has 2^31 bytes, all zero but for the first one; the sizes
  // and the checksum in its header do not depend on that byte.
  function LongImage(first: byte): seq<byte> {
    Header(0, TWO_31, 0) + [first] + seq(TWO_31 - 1, _ => 0)
  }

  lemma LongImageIsAccepted(first: byte)
    ensures |LongImage(first)| == HEADER_BYTES + TWO_31 && Accepts(LongImage(first), true)
  {
    hide U32Of, Header;
    var b := LongImage(first);
    assert b[..HEADER_BYTES] == Header(0, TWO_31, 0);
    HeaderRead(b, 0, TWO_31, 0);
    assert Checksum([]) == 0;
  }

  // Such a file is accepted, and so is the file with another first byte.
  lemma LongBodyIsNotRead()
    ensures var a, b := LongImage(0), LongImage(1);
            Accepts(a, true) && Accepts(b, true) && |a| == |b| && a[HEADER_BYTES] != b[HEADER_BYTES] &&
            forall k :: 0 <= k < |a| && k != HEADER_BYTES ==> a[k] == b[k]
  {
    LongImageIsAccepted(0);
    LongImageIsAccepted(1);
  }

  lemma SameHeader(a: seq<byte>, b: seq<byte>)
    requires |a| == |b| >= HEADER_BYTES && forall k :: 0 <= k < HEADER_BYTES ==> a[k] == b[k]
    ensures U32Of(a, 0) == U32Of(b, 0) && U32Of(a, 4) == U32Of(b, 4)
    ensures U32Of(a, 8) == U32Of(b, 8) && U32Of(a, 12) == U32Of(b, 12)
  {
  }

  // ---------- In plain bytes ----------

  lemma MagicBytes(b: seq<byte>)
    requires |b| >= 4
    ensures U32Of(b, 0) == MAGIC_NUMBER <==> b[..4] == [0xCA, 0xFE, 0xF0, 0x0D]
  {
    assert b[..4] == [b[0], b[1], b[2], b[3]];
  }

  // A file is accepted if and only if it begins with CA FE F0 0D, the two sizes
  // and the header add up to its length modulo 2^32, and, when it is validated,
  // the checksum is that of everything beyond the header, or of nothing if that
  // is 2^31 bytes or more.
  lemma AcceptedBytes(b: seq<byte>, validate: bool)
    ensures Accepts(b, validate) <==>
            |b| >= 16 && b[..4] == [0xCA, 0xFE, 0xF0, 0x0D] &&
            |b| == (16 + Number(b, 8, 4) + Number(b, 12, 4)) % 0x1_0000_0000 &&
            (validate ==> Number(b, 4, 4) == Crc(if |b| < 16 + 0x8000_0000 then b[16..] else []) as int)
  {
    hide Crc;
    if |b| >= 16 {
      MagicBytes(b);
      FieldsSpell(b, 4, U32Of(b, 4));
      FieldsSpell(b, 8, U32Of(b, 8));
      FieldsSpell(b, 12, U32Of(b, 12));
    }
  }

  // A complete file: the header, and where the two tables are.
  lemma CompleteBytes(b: seq<byte>, dt: Table<Value>, mi: Table<Value>)
    requires IndexAt(b, dt, mi)
    ensures |b| > 16 && b[..4] == [0xCA, 0xFE, 0xF0, 0x0D] && Number(b, 4, 4) == Crc(b[16..]) as int
    ensures |b| == 16 + Number(b, 8, 4) + Number(b, 12, 4)
    ensures Number(b, 8, 4) == TableLen(DocidToDocname, dt) && Number(b, 12, 4) == TableLen(WordToPostings, mi)
    ensures TableAt(b, 16, DocidToDocname, dt) && TableAt(b, 16 + Number(b, 8, 4), WordToPostings, mi)
  {
    hide Crc, TableAt, TableLen;
    TablesAreNotEmpty(dt, mi);
    MagicBytes(b);
    FieldsSpell(b, 4, U32Of(b, 4));
    FieldsSpell(b, 8, U32Of(b, 8));
    FieldsSpell(b, 12, U32Of(b, 12));
  }

  // ---------- Crashes ----------

  // The file after the first k writes and the first j bytes of the next one.
  function Torn(log: seq<Write>, k: nat, j: nat): seq<byte>
    requires k < |log| && j <= |log[k].data|
  {
    Overwrite(Replay(log[..k]), log[k].at, log[k].data[..j])
  }

  // The writer's history: everything beyond the header first, the header last.
  ghost predicate HeaderLast(log: seq<Write>) {
    log != [] && log[|log| - 1].at == 0 && |log[|log| - 1].data| == HEADER_BYTES &&
    forall k :: 0 <= k < |log| - 1 ==> log[k].data == [] || log[k].at >= HEADER_BYTES
  }

  lemma {:induction false} NoHeaderYet(log: seq<Write>)
    requires forall k :: 0 <= k < |log| ==> log[k].data == [] || log[k].at >= HEADER_BYTES
    ensures forall x :: 0 <= x < HEADER_BYTES && x < |Replay(log)| ==> Replay(log)[x] == 0
  {
    if log != [] {
      NoHeaderYet(log[..|log| - 1]);
    }
  }

  lemma ZeroMagic(b: seq<byte>)
    requires forall x :: 0 <= x < 4 && x < |b| ==> b[x] == 0
    ensures !Accepts(b, false)
  {
  }

  // A header cut off after j bytes: the sizes it shows are too small unless
  // the missing bytes are all zero.
  lemma TornHeader(b: seq<byte>, full: seq<byte>, j: nat)
    requires |b| == |full| > HEADER_BYTES && j <= HEADER_BYTES
    requires forall x :: 0 <= x < |full| ==> b[x] == if j <= x < HEADER_BYTES then 0 else full[x]
    requires |full| == HEADER_BYTES + U32Of(full, 8) + U32Of(full, 12) < TWO_31
    requires Accepts(b, false)
    ensures b == full
  {
    hide U32Of;
    LostBytes(b, full, 8);
    LostBytes(b, full, 12);
    if j < 8 {
      ZeroField(b, 8);
      ZeroField(b, 12);
    }
    assert U32Of(b, 8) == U32Of(full, 8) && U32Of(b, 12) == U32Of(full, 12);
  }

  // A number that lost some of its bytes is smaller, unless they are zero.
  lemma LostBytes(b: seq<byte>, full: seq<byte>, p: nat)
    requires p + 4 <= |b| == |full| && forall x :: p <= x < p + 4 ==> b[x] == full[x] || b[x] == 0
    ensures U32Of(b, p) <= U32Of(full, p)
    ensures U32Of(b, p) == U32Of(full, p) ==> forall x :: p <= x < p + 4 ==> b[x] == full[x]
  {
  }

  lemma ZeroField(b: seq<byte>, p: nat)
    requires p + 4 <= |b| && forall x :: p <= x < p + 4 ==> b[x] == 0
    ensures U32Of(b, p) == 0
  {
  }

  // Before the header is written there is no magic number.
  lemma CrashInBody(log: seq<Write>, k: nat, j: nat)
    requires HeaderLast(log) && k < |log| - 1 && j <= |log[k].data|
    ensures !Accepts(Torn(log, k, j), false)
  {
    hide Accepts;
    NoHeaderYet(log[..k]);
    ZeroMagic(Torn(log, k, j));
  }

  lemma CrashInHeader(before: seq<byte>, header: seq<byte>, full: seq<byte>, j: nat)
    requires |header| == HEADER_BYTES < |full| == |before| && j <= HEADER_BYTES && full == Overwrite(before, 0, header)
    requires forall x :: 0 <= x < HEADER_BYTES ==> before[x] == 0
    requires |full| == HEADER_BYTES + U32Of(full, 8) + U32Of(full, 12) < TWO_31
    ensures Accepts(Overwrite(before, 0, header[..j]), false) ==> Overwrite(before, 0, header[..j]) == full
  {
    hide Accepts, U32Of;
    var torn := Overwrite(before, 0, header[..j]);
    if Accepts(torn, false) {
      TornHeader(torn, full, j);
    }
  }

  // After any number of whole writes but all of them, the file is rejected.
  lemma PrefixIsRejected(log: seq<Write>, k: nat, validate: bool)
    requires HeaderLast(log) && k < |log|
    ensures !Accepts(Replay(log[..k]), validate)
  {
    hide Accepts;
    NoHeaderYet(log[..k]);
    ZeroMagic(Replay(log[..k]));
    if Accepts(Replay(log[..k]), validate) { AcceptsWithoutCrc(Replay(log[..k]), validate); }
  }

  // Whatever the moment of a crash, down to the byte, the file left behind is
  // accepted if and only if it is already the complete index.
  lemma CrashIsRejected(log: seq<Write>, dt: Table<Value>, mi: Table<Value>, k: nat, j: nat, validate: bool)
    requires HeaderLast(log) && IndexAt(Replay(log), dt, mi) && |Replay(log)| < TWO_31
    requires k < |log| && j <= |log[k].data|
    ensures Accepts(Torn(log, k, j), validate) <==> Torn(log, k, j) == Replay(log)
  {
    hide Crc, Checksum, TableAt, U32Of, Overwrite;
    if !Accepts(Torn(log, k, j), validate) {
      CompleteIsAccepted(Replay(log), dt, mi, validate);
      return;
    }
    AcceptsWithoutCrc(Torn(log, k, j), validate);
    if k < |log| - 1 {
      CrashInBody(log, k, j);
    } else {
      var before := Replay(log[..k]);
      assert log[..k] == log[..|log| - 1];
      NoHeaderYet(log[..k]);
      TablesAreNotEmpty(dt, mi);
      HeaderFits(before, log[k].data, Replay(log));
      CrashInHeader(before, log[k].data, Replay(log), j);
    }
  }

  lemma AcceptsWithoutCrc(b: seq<byte>, validate: bool)
    requires Accepts(b, validate)
    ensures Accepts(b, false)
  {
  }

  lemma HeaderFits(before: seq<byte>, header: seq<byte>, full: seq<byte>)
    requires full == Overwrite(before, 0, header) && |header| == HEADER_BYTES < |full|
    ensures |before| == |full|
  {
  }

  lemma TablesAreNotEmpty(dt: Table<Value>, mi: Table<Value>)
    ensures TableLen(DocidToDocname, dt) >= LIST_HEADER_BYTES && TableLen(WordToPostings, mi) >= LIST_HEADER_BYTES
  {
  }
}
