// Bytes, fixed-width big-endian integers, and byte-level reads of a file image.
module Bytes {
  type byte = b: int | 0 <= b < 256
  type CString = seq<byte>

  const TWO_15: int := 0x8000
  const TWO_16: int := 0x1_0000
  const TWO_31: int := 0x8000_0000
  const TWO_32: int := 0x1_0000_0000
  const TWO_64: int := 0x1_0000_0000_0000_0000

  type uint32 = n: int | 0 <= n < TWO_32
  type uint64 = n: int | 0 <= n < TWO_64

  function Max(a: int, b: int): int { if a < b then b else a }

  function Min(a: int, b: int): int { if a < b then a else b }

  // Network byte order: the most significant byte first.
  function Be16(n: int): seq<byte>
    requires 0 <= n < TWO_16
  {
    [n / 0x100, n % 0x100]
  }

  function Be32(n: int): seq<byte>
    requires 0 <= n < TWO_32
  {
    Be16(n / TWO_16) + Be16(n % TWO_16)
  }

  function Be64(n: int): seq<byte>
    requires 0 <= n < TWO_64
  {
    Be32(n / TWO_32) + Be32(n % TWO_32)
  }

  function U16Of(b: seq<byte>, p: nat): int
    requires p + 2 <= |b|
  {
    (b[p] as int) * 0x100 + b[p + 1]
  }

  function U32Of(b: seq<byte>, p: nat): (n: int)
    requires p + 4 <= |b|
    ensures 0 <= n < TWO_32
  {
    U16Of(b, p) * TWO_16 + U16Of(b, p + 2)
  }

  function U64Of(b: seq<byte>, p: nat): (n: int)
    requires p + 8 <= |b|
    ensures 0 <= n < TWO_64
  {
    U32Of(b, p) * TWO_32 + U32Of(b, p + 4)
  }

  // "The big-endian integer stored at offset p of image b is n."
  predicate U16Is(b: seq<byte>, p: nat, n: int) { p + 2 <= |b| && U16Of(b, p) == n }

  predicate U32Is(b: seq<byte>, p: nat, n: int) { p + 4 <= |b| && U32Of(b, p) == n }

  predicate U64Is(b: seq<byte>, p: nat, n: int) { p + 8 <= |b| && U64Of(b, p) == n }

  predicate BytesAre(b: seq<byte>, p: nat, s: seq<byte>) {
    s == [] || (p + |s| <= |b| && b[p..p + |s|] == s)
  }

  // Images a and b hold the same bytes in [lo, hi).
  predicate Same(a: seq<byte>, b: seq<byte>, lo: nat, hi: nat) {
    (lo < hi ==> hi <= |a| && hi <= |b|) &&
    forall i {:trigger a[i]} {:trigger b[i]} :: lo <= i < hi ==> a[i] == b[i]
  }

  lemma Be16RoundTrip(b: seq<byte>, p: nat, n: int)
    requires 0 <= n < TWO_16
    requires BytesAre(b, p, Be16(n))
    ensures U16Is(b, p, n)
  {
    assert b[p] == b[p..p + 2][0] && b[p + 1] == b[p..p + 2][1];
  }

  lemma Be32RoundTrip(b: seq<byte>, p: nat, n: int)
    requires 0 <= n < TWO_32
    requires BytesAre(b, p, Be32(n))
    ensures U32Is(b, p, n)
  {
    var s := b[p..p + 4];
    assert b[p..p + 2] == s[..2] == Be16(n / TWO_16);
    assert b[p + 2..p + 4] == s[2..] == Be16(n % TWO_16);
    Be16RoundTrip(b, p, n / TWO_16);
    Be16RoundTrip(b, p + 2, n % TWO_16);
  }

  lemma Be64RoundTrip(b: seq<byte>, p: nat, n: int)
    requires 0 <= n < TWO_64
    requires BytesAre(b, p, Be64(n))
    ensures U64Is(b, p, n)
  {
    var s := b[p..p + 8];
    assert b[p..p + 4] == s[..4] == Be32(n / TWO_32);
    assert b[p + 4..p + 8] == s[4..] == Be32(n % TWO_32);
    Be32RoundTrip(b, p, n / TWO_32);
    Be32RoundTrip(b, p + 4, n % TWO_32);
  }

  lemma SameSub(a: seq<byte>, b: seq<byte>, lo: nat, hi: nat, lo': nat, hi': nat)
    requires Same(a, b, lo, hi) && lo <= lo' && hi' <= hi
    ensures Same(a, b, lo', hi')
  {
  }

  lemma BytesAreSplit(b: seq<byte>, p: nat, s: seq<byte>, t: seq<byte>)
    requires BytesAre(b, p, s + t)
    ensures BytesAre(b, p, s) && BytesAre(b, p + |s|, t)
  {
    if s + t == [] {
      assert |s + t| == 0;
    } else {
      var r := b[p..p + |s| + |t|];
      assert b[p..p + |s|] == r[..|s|] == s;
      assert b[p + |s|..p + |s| + |t|] == r[|s|..] == t;
    }
  }

  lemma U32Frame(a: seq<byte>, b: seq<byte>, p: nat, n: int)
    requires U32Is(a, p, n) && Same(a, b, p, p + 4)
    ensures U32Is(b, p, n)
  {
  }

  lemma BytesAreFrame(a: seq<byte>, b: seq<byte>, p: nat, s: seq<byte>)
    requires BytesAre(a, p, s) && Same(a, b, p, p + |s|)
    ensures BytesAre(b, p, s)
  {
    forall i | 0 <= i < |s| ensures b[p..p + |s|][i] == s[i] {
      assert a[p + i] == a[p..p + |s|][i] == s[i];
    }
  }

  // ---------- In plain numbers ----------

  // The number that n bytes spell, the most significant one first.
  function Number(b: seq<byte>, p: nat, n: nat): nat
    requires p + n <= |b|
  {
    if n == 0 then 0 else 256 * Number(b, p, n - 1) + b[p + n - 1]
  }

  predicate Spells(b: seq<byte>, p: nat, n: nat, v: int) { p + n <= |b| && Number(b, p, n) == v }

  lemma FieldsSpell(b: seq<byte>, p: nat, v: int)
    ensures U16Is(b, p, v) <==> Spells(b, p, 2, v)
    ensures U32Is(b, p, v) <==> Spells(b, p, 4, v)
    ensures U64Is(b, p, v) <==> Spells(b, p, 8, v)
  {
    if p + 2 <= |b| { assert Number(b, p, 2) == 256 * Number(b, p, 1) + b[p + 1]; }
    if p + 4 <= |b| { assert Number(b, p, 4) == 256 * (256 * Number(b, p, 2) + b[p + 2]) + b[p + 3]; }
    if p + 8 <= |b| {
      assert Number(b, p, 6) == 256 * (256 * Number(b, p, 4) + b[p + 4]) + b[p + 5];
      assert Number(b, p, 8) == 256 * (256 * Number(b, p, 6) + b[p + 6]) + b[p + 7];
    }
  }
}
