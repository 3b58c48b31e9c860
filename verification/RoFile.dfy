// The buffered read-only file (exercises/ex4/ro_file.c).
module RoFiles {
  import opened Bytes

  const RO_FILE_BUF_LEN: nat := 512

  datatype Whence = SeekSet | SeekCur | SeekEnd

  // Where lseek() would put a descriptor; negative positions are refused.
  function SeekTarget(offset: int, whence: Whence, current: nat, size: nat): int {
    match whence
    case SeekSet => offset
    case SeekCur => current + offset
    case SeekEnd => size + offset
  }

  // How many of the next len bytes of a file exist.
  function Available(size: nat, pos: nat, len: nat): nat { Min(len, Max(size - pos, 0)) }

  // The bytes from position p to position q.
  predicate Holds(s: seq<byte>, bytes: seq<byte>, p: nat) {
    s == [] || (p + |s| <= |bytes| && s == bytes[p..p + |s|])
  }

  lemma HoldsPart(s: seq<byte>, bytes: seq<byte>, p: nat, i: nat, n: nat)
    requires Holds(s, bytes, p) && i + n <= |s|
    ensures Holds(s[i..i + n], bytes, p + i)
  {
    if n > 0 {
      assert s != [];
      var part, same := s[i..i + n], bytes[p + i..p + i + n];
      forall k | 0 <= k < n ensures part[k] == same[k] {
        assert s[i + k] == bytes[p..p + |s|][i + k];
      }
    }
  }

  lemma NothingHeld(s: seq<byte>, bytes: seq<byte>, p: nat)
    requires s == []
    ensures Holds(s, bytes, p)
  {
  }

  lemma HoldsJoin(s: seq<byte>, t: seq<byte>, bytes: seq<byte>, p: nat)
    requires Holds(s, bytes, p) && Holds(t, bytes, p + |s|)
    ensures Holds(s + t, bytes, p)
  {
    if s != [] && t != [] {
      assert s + t == bytes[p..p + |s| + |t|];
    } else {
      assert s + t == if t == [] then s else t;
    }
  }

  lemma HoldsMore(a: array<byte>, n: nat, more: nat, bytes: seq<byte>, p: nat)
    requires n + more <= a.Length && Holds(a[..n], bytes, p) && Holds(a[n..n + more], bytes, p + n)
    ensures Holds(a[..n + more], bytes, p)
  {
    hide Holds;
    HoldsJoin(a[..n], a[n..n + more], bytes, p);
    assert a[..n] + a[n..n + more] == a[..n + more];
  }

  // memcpy() of bytes into an array.
  method CopyBytes(dst: array<byte>, at: nat, src: seq<byte>)
    requires at + |src| <= dst.Length
    modifies dst
    ensures dst[at..at + |src|] == src
    ensures forall i :: 0 <= i < dst.Length && !(at <= i < at + |src|) ==> dst[i] == old(dst[i])
    ensures dst[..at] == old(dst[..at])
  {
    var i := 0;
    while i < |src|
      invariant 0 <= i <= |src| && dst[at..at + i] == src[..i]
      invariant forall j :: 0 <= j < dst.Length && !(at <= j < at + i) ==> dst[j] == old(dst[j])
    {
      dst[at + i] := src[i];
      i := i + 1;
    }
  }

  // An open file descriptor: the file's bytes, the kernel's file offset, and
  // how many calls of read() have failed.
  class Descriptor {
    const bytes: seq<byte>
    var offset: nat
    ghost var failures: nat

    constructor (bytes: seq<byte>)
      ensures this.bytes == bytes && offset == 0 && failures == 0
    {
      this.bytes := bytes;
      offset := 0;
      failures := 0;
    }

    // read(): any positive number of bytes up to count, 0 at the end of the
    // file, or an error.
    method Read(buf: array<byte>, at: nat, count: nat) returns (result: int)
      requires at + count <= buf.Length && count > 0
      modifies this, buf
      ensures failures == old(failures) + (if result == -1 then 1 else 0)
      ensures result == -1 || (0 <= result <= Available(|bytes|, old(offset), count))
      ensures result == 0 <==> result != -1 && Available(|bytes|, old(offset), count) == 0
      ensures offset == old(offset) + (if result == -1 then 0 else result)
      ensures result > 0 ==> Holds(buf[at..at + result], bytes, old(offset))
      ensures buf[..at] == old(buf[..at])
      ensures forall i :: 0 <= i < buf.Length && !(at <= i < at + result) ==> buf[i] == old(buf[i])
    {
      var available := Available(|bytes|, offset, count);
      var fails: bool := *;
      if fails {
        failures := failures + 1;
        return -1;
      } else if available == 0 {
        return 0;
      }
      assert 0 < 1 <= available;
      var n: nat :| 0 < n <= available;
      CopyBytes(buf, at, bytes[offset..offset + n]);
      offset := offset + n;
      result := n;
    }

    method Lseek(off: int, whence: Whence) returns (r: int)
      modifies `offset
      ensures var target := SeekTarget(off, whence, old(offset), |bytes|);
              if target < 0 then r == -1 && offset == old(offset) else r == offset == target
    {
      var target := SeekTarget(off, whence, offset, |bytes|);
      if target < 0 {
        return -1;
      }
      offset := target;
      r := target;
    }
  }

  class RoFile {
    const fd: Descriptor
    const buf: array<byte>
    var bufPos: nat
    var bufIndex: nat
    var bufEnd: nat

    // The buffer holds the bytes that precede the descriptor's offset.
    ghost predicate Valid()
      reads this, fd, buf
    {
      buf.Length == RO_FILE_BUF_LEN && bufIndex <= bufEnd <= RO_FILE_BUF_LEN &&
      bufPos + bufEnd == fd.offset && Holds(buf[..bufEnd], fd.bytes, bufPos)
    }

    // The user's position.
    ghost function Pos(): nat
      reads this
    {
      bufPos + bufIndex
    }

    constructor (bytes: seq<byte>)
      ensures Valid() && Pos() == 0 && bufEnd == 0 && fresh(fd) && fresh(buf)
      ensures fd.bytes == bytes && fd.failures == 0
    {
      fd := new Descriptor(bytes);
      buf := new byte[RO_FILE_BUF_LEN];
      bufPos, bufIndex, bufEnd := 0, 0, 0;
    }

    // Copies buffered bytes to out.
    method FlushBuffer(out: array<byte>, at: nat, amount: nat) returns (flushed: nat)
      requires Valid() && out != buf && at + amount <= out.Length
      modifies `bufIndex, out
      ensures Valid() && flushed == Min(amount, bufEnd - old(bufIndex)) && Pos() == old(Pos()) + flushed
      ensures Holds(out[at..at + flushed], fd.bytes, old(Pos())) && out[..at] == old(out[..at])
      ensures forall i :: 0 <= i < out.Length && !(at <= i < at + flushed) ==> out[i] == old(out[i])
    {
      flushed := amount;
      if flushed > bufEnd - bufIndex {
        flushed := bufEnd - bufIndex;
      }
      HoldsPart(buf[..bufEnd], fd.bytes, bufPos, bufIndex, flushed);
      assert buf[..bufEnd][bufIndex..bufIndex + flushed] == buf[bufIndex..bufIndex + flushed];
      CopyBytes(out, at, buf[bufIndex..bufIndex + flushed]);
      bufIndex := bufIndex + flushed;
    }

    // Refills the buffer from the descriptor's offset.  No unread byte is
    // discarded, because the buffer is used up.  It fails exactly when a read does.
    method FillBuffer() returns (bytesRead: int)
      requires Valid() && bufIndex == bufEnd
      modifies this, fd, buf
      ensures Valid() && bufIndex == 0 && Pos() == old(Pos())
      ensures fd.failures == old(fd.failures) + (if bytesRead == -1 then 1 else 0)
      ensures bytesRead == -1 || bytesRead == bufEnd == Available(|fd.bytes|, Pos(), RO_FILE_BUF_LEN)
    {
      hide Holds;
      NothingHeld(buf[..0], fd.bytes, fd.offset);
      bufPos := fd.Lseek(0, SeekCur);
      bufIndex := 0;
      bufEnd := 0;
      bytesRead := 0;
      while bufEnd < RO_FILE_BUF_LEN
        invariant Valid() && bufIndex == 0 && bufPos == old(Pos()) && bytesRead == bufEnd
        invariant bufEnd <= Available(|fd.bytes|, bufPos, RO_FILE_BUF_LEN) && fd.failures == old(fd.failures)
        decreases RO_FILE_BUF_LEN - bufEnd
      {
        var bytesLeft := RO_FILE_BUF_LEN - bufEnd;
        var result := fd.Read(buf, bufEnd, bytesLeft);
        if result == -1 {
          return -1;
        } else if result == 0 {
          break;
        }
        HoldsMore(buf, bufEnd, result, fd.bytes, bufPos);
        bytesRead := bytesRead + result;
        bufEnd := bufEnd + result;
      }
    }

    // Reads the next len bytes, or as many as there are; it fails exactly when
    // some read() fails.  After an error the bytes copied so far are gone: the
    // position has moved past them.
    method Read(ptr: array<byte>, len: nat) returns (r: int, ghost copied: nat)
      requires Valid() && ptr != buf && len <= ptr.Length && len < TWO_31
      modifies this, fd, buf, ptr
      ensures Valid() && copied <= len && Pos() == old(Pos()) + copied && Holds(ptr[..copied], fd.bytes, old(Pos()))
      ensures fd.failures == old(fd.failures) + (if r == -1 then 1 else 0)
      ensures r == -1 || r == copied == Available(|fd.bytes|, old(Pos()), len)
      ensures r != -1 ==> 0 <= r <= len && (r < len ==> old(Pos()) + r >= |fd.bytes|)
      ensures r == -1 ==> old(bufEnd - bufIndex) <= copied < len
      ensures r != -1 && len > old(bufEnd - bufIndex) ==>
                bufEnd == Available(|fd.bytes|, bufPos, RO_FILE_BUF_LEN) && (r == len ==> bufIndex > 0)
      ensures forall i :: copied <= i < ptr.Length ==> ptr[i] == old(ptr[i])
    {
      hide Holds;
      var numCopiedOut := FlushBuffer(ptr, 0, len);
      copied := numCopiedOut;
      while numCopiedOut != len
        invariant Valid() && numCopiedOut == copied <= len && Pos() == old(Pos()) + copied
        invariant Holds(ptr[..copied], fd.bytes, old(Pos()))
        invariant copied <= Available(|fd.bytes|, old(Pos()), len) && fd.failures == old(fd.failures)
        invariant copied < len ==> old(bufEnd - bufIndex) <= copied
        invariant copied > old(bufEnd - bufIndex) ==>
                    bufIndex > 0 && bufEnd == Available(|fd.bytes|, bufPos, RO_FILE_BUF_LEN)
        invariant copied < len ==> bufIndex == bufEnd
        invariant forall i :: copied <= i < ptr.Length ==> ptr[i] == old(ptr[i])
        decreases len - numCopiedOut
      {
        var numFilled := FillBuffer();
        if numFilled == 0 {
          break;
        } else if numFilled < 0 {
          return numFilled, copied;
        }
        var more := FlushBuffer(ptr, numCopiedOut, len - numCopiedOut);
        HoldsMore(ptr, copied, more, fd.bytes, old(Pos()));
        numCopiedOut := numCopiedOut + more;
        copied := numCopiedOut;
      }
      r := numCopiedOut;
    }

    method Tell() returns (pos: nat)
      ensures pos == Pos()
    {
      pos := bufPos + bufIndex;
    }

    // Moves the descriptor and drops the buffer.  Relative to the user's
    // position, SEEK_CUR is right exactly when no unread byte is buffered.
    method Seek(offset: int, whence: Whence) returns (r: int)
      requires Valid()
      modifies this, fd`offset
      ensures Valid()
      ensures var target := SeekTarget(offset, whence, old(fd.offset), |fd.bytes|);
              if target < 0 then r == 1 && Pos() == old(Pos()) else r == 0 && Pos() == target
      ensures whence != SeekCur ==>
                var target := (if whence == SeekSet then 0 else |fd.bytes|) + offset;
                if target < 0 then r == 1 && Pos() == old(Pos()) else r == 0 && Pos() == target
      ensures r == 0 && whence == SeekCur ==> (Pos() == old(Pos()) + offset <==> old(bufIndex == bufEnd))
    {
      var newPos := fd.Lseek(offset, whence);
      if newPos == -1 {
        return 1;
      }
      bufPos := newPos;
      bufIndex := 0;
      bufEnd := 0;
      r := 0;
    }
  }

  // A run in which SEEK_CUR misses the user's position: after one of 600 bytes
  // has been read, a seek by 0 moves from position 1 to position 512.
  method SeekCurSkipsTheBuffer(bytes: seq<byte>)
    returns (f: RoFile, got: int, r: int, ghost before: nat, ghost seen: seq<byte>)
    requires |bytes| == 600
    ensures f.Valid() && f.fd.bytes == bytes
    ensures f.fd.failures == 0 ==> got == 1 && seen == bytes[..1] && before == 1 && r == 0 && f.Pos() == 512
  {
    f := new RoFile(bytes);
    var ptr := new byte[1];
    ghost var copied;
    got, copied := f.Read(ptr, 1);
    before, seen := f.Pos(), ptr[..];
    r := f.Seek(0, SeekCur);
  }

  // ---------- An unbuffered file with one cursor ----------

  datatype Op = OpRead(len: nat) | OpTell | OpSeek(offset: int, whence: Whence)

  datatype Out = Data(bytes: seq<byte>) | Position(pos: nat) | Status(code: int)

  function Step(bytes: seq<byte>, pos: nat, op: Op): (nat, Out) {
    match op
    case OpRead(len) =>
      var n := Available(|bytes|, pos, len);
      (pos + n, Data(if n == 0 then [] else bytes[pos..pos + n]))
    case OpTell => (pos, Position(pos))
    case OpSeek(offset, whence) =>
      var target := SeekTarget(offset, whence, pos, |bytes|);
      if target < 0 then (pos, Status(1)) else (target, Status(0))
  }

  // The one cursor: a read hands out the next bytes and moves past them, and
  // it hands out fewer than it is asked for only when none are left; a seek
  // moves to an offset from the start or the end, unless that is negative.
  lemma OneCursor(bytes: seq<byte>, pos: nat, op: Op)
    ensures var (p, out) := Step(bytes, pos, op);
            match op
            case OpRead(len) =>
              out.Data? && |out.bytes| <= len && p == pos + |out.bytes| && (|out.bytes| < len ==> p >= |bytes|) &&
              forall i :: 0 <= i < |out.bytes| ==> pos + i < |bytes| && out.bytes[i] == bytes[pos + i]
            case OpTell => p == pos && out == Position(pos)
            case OpSeek(offset, SeekSet) => (p, out) == if offset < 0 then (pos, Status(1)) else (offset, Status(0))
            case OpSeek(offset, SeekEnd) =>
              (p, out) == if |bytes| + offset < 0 then (pos, Status(1)) else (|bytes| + offset, Status(0))
            case OpSeek(offset, SeekCur) =>
              (p, out) == if pos + offset < 0 then (pos, Status(1)) else (pos + offset, Status(0))
  {
  }

  function Run(bytes: seq<byte>, pos: nat, ops: seq<Op>): (nat, seq<Out>) {
    if ops == [] then (pos, [])
    else
      var (p, outs) := Run(bytes, pos, ops[..|ops| - 1]);
      var (p', out) := Step(bytes, p, ops[|ops| - 1]);
      (p', outs + [out])
  }

  // Each operation answers at the position where the ones before it end.
  lemma {:induction false} EachAnswers(bytes: seq<byte>, pos: nat, ops: seq<Op>, i: nat)
    requires i < |ops|
    ensures |Run(bytes, pos, ops).1| == |ops| && Run(bytes, pos, []) == (pos, [])
    ensures var (p, out) := Step(bytes, Run(bytes, pos, ops[..i]).0, ops[i]);
            Run(bytes, pos, ops).1[i] == out && Run(bytes, pos, ops[..i + 1]).0 == p
  {
    hide Step;
    var n := |ops| - 1;
    assert ops[..i + 1][..i] == ops[..i];
    if i < n {
      EachAnswers(bytes, pos, ops[..n], i);
      assert ops[..n][..i] == ops[..i] && ops[..n][..i + 1] == ops[..i + 1];
    } else {
      assert ops[..i + 1] == ops;
      if n > 0 { EachAnswers(bytes, pos, ops[..n], 0); }
    }
  }

  predicate Supported(op: Op) {
    match op
    case OpRead(len) => len < TWO_31
    case OpTell => true
    case OpSeek(_, whence) => whence != SeekCur
  }

  // One operation, through the buffer.
  method Perform(f: RoFile, op: Op) returns (ok: bool, out: Out)
    requires f.Valid() && Supported(op)
    modifies f, f.fd, f.buf
    ensures f.Valid() && (ok ==> (f.Pos(), out) == Step(f.fd.bytes, old(f.Pos()), op))
    ensures f.fd.failures == old(f.fd.failures) + (if ok then 0 else 1)
  {
    match op {
      case OpRead(len) =>
        var ptr := new byte[len];
        var r, copied := f.Read(ptr, len);
        ok := r >= 0;
        out := Data(if ok then ptr[..r] else []);
      case OpTell =>
        var pos := f.Tell();
        ok, out := true, Position(pos);
      case OpSeek(offset, whence) =>
        var r := f.Seek(offset, whence);
        ok, out := true, Status(r);
    }
  }

  // Whatever the pattern of short reads, any sequence of reads, tells and
  // absolute seeks answers as one cursor would; it is cut short exactly when a
  // read() fails, after answers that are right.
  method PerformAll(f: RoFile, ops: seq<Op>) returns (ok: bool, outs: seq<Out>)
    requires f.Valid() && forall i :: 0 <= i < |ops| ==> Supported(ops[i])
    modifies f, f.fd, f.buf
    ensures f.Valid() && f.fd.failures == old(f.fd.failures) + (if ok then 0 else 1)
    ensures ok ==> (f.Pos(), outs) == Run(f.fd.bytes, old(f.Pos()), ops) && |outs| == |ops|
    ensures !ok ==> |outs| < |ops| && outs == Run(f.fd.bytes, old(f.Pos()), ops[..|outs|]).1
  {
    outs := [];
    var i := 0;
    while i < |ops|
      invariant 0 <= i == |outs| <= |ops| && f.Valid() && f.fd.failures == old(f.fd.failures)
      invariant (f.Pos(), outs) == Run(f.fd.bytes, old(f.Pos()), ops[..i])
    {
      var done, out := Perform(f, ops[i]);
      if !done {
        return false, outs;
      }
      assert ops[..i + 1][..i] == ops[..i];
      outs := outs + [out];
      i := i + 1;
    }
    assert ops[..i] == ops;
    ok := true;
  }
}
