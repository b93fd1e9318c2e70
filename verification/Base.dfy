/** Bytes, big-endian integers and C strings: what every other module talks about. */
module Base {

  datatype Option<+T> = None | Some(value: T)

  type Byte = x: int | 0 <= x < 256
  type Bytes = seq<Byte>

  const TWO_31: int := 0x8000_0000
  const TWO_32: int := 0x1_0000_0000
  const TWO_64: int := 0x1_0000_0000_0000_0000

  type U32 = x: int | 0 <= x < 0x1_0000_0000
  type I32 = x: int | -0x8000_0000 <= x < 0x8000_0000

  /** The contents of a `char[64]` field that holds a terminated C string. */
  type Name = s: Bytes | |s| <= 63 && 0 !in s witness []

  function Pow256(w: nat): nat {
    if w == 0 then 1 else 256 * Pow256(w - 1)
  }

  lemma Pow256Values()
    ensures Pow256(1) == 256 && Pow256(2) == 0x1_0000 && Pow256(4) == TWO_32 && Pow256(8) == TWO_64
  {
    assert Pow256(2) == 256 * Pow256(1);
    assert Pow256(3) == 256 * Pow256(2);
    assert Pow256(4) == 256 * Pow256(3);
    assert Pow256(6) == 256 * Pow256(5) && Pow256(5) == 256 * Pow256(4);
    assert Pow256(8) == 256 * Pow256(7) && Pow256(7) == 256 * Pow256(6);
  }

  /** The low `w` bytes of `n`, most significant first (network order). */
  function BigEndian(n: nat, w: nat): (b: Bytes)
    ensures |b| == w
  {
    if w == 0 then [] else BigEndian(n / 256, w - 1) + [n % 256]
  }

  function FromBigEndian(b: Bytes): nat {
    if b == [] then 0 else FromBigEndian(b[..|b| - 1]) * 256 + b[|b| - 1]
  }

  lemma {:induction false} BigEndianRoundTrip(n: nat, w: nat)
    requires n < Pow256(w)
    ensures FromBigEndian(BigEndian(n, w)) == n
  {
    if w > 0 {
      BigEndianRoundTrip(n / 256, w - 1);
      assert BigEndian(n, w)[..w - 1] == BigEndian(n / 256, w - 1);
    }
  }

  /** The C string at the start of `b`: everything before the first NUL. */
  function CString(b: Bytes): (s: Bytes)
    ensures |s| <= |b| && s == b[..|s|] && 0 !in s
    ensures |s| < |b| ==> b[|s|] == 0
  {
    if b == [] || b[0] == 0 then [] else [b[0]] + CString(b[1..])
  }

  /** The two facts in `CString`'s contract determine it. */
  lemma {:induction false} CStringUnique(b: Bytes, s: Bytes)
    requires |s| <= |b| && s == b[..|s|] && 0 !in s
    requires |s| < |b| ==> b[|s|] == 0
    ensures CString(b) == s
  {
    if s != [] {
      assert b[0] == s[0] && s[0] in s;
      assert s[1..] == b[1..][..|s| - 1];
      CStringUnique(b[1..], s[1..]);
    }
  }

  /** `s` with the bytes from `at` on replaced by `data`. */
  function Patched(s: Bytes, at: nat, data: Bytes): Bytes
    requires at + |data| <= |s|
  {
    s[..at] + data + s[at + |data|..]
  }

  /** A write inside a slice, seen in the slice. */
  lemma PatchedSlice(s: Bytes, lo: nat, hi: nat, at: nat, d: Bytes)
    requires lo <= hi <= |s| && lo + at + |d| <= hi
    ensures Patched(s, lo + at, d)[lo..hi] == Patched(s[lo..hi], at, d)
  {
    var l, r := Patched(s, lo + at, d)[lo..hi], Patched(s[lo..hi], at, d);
    forall k | 0 <= k < |l| ensures l[k] == r[k] {
      assert l[k] == Patched(s, lo + at, d)[lo + k];
    }
  }

  /** `memcpy` of `data` into `dst` at offset `at`. */
  method CopyInto(dst: array<Byte>, at: nat, data: Bytes)
    requires at + |data| <= dst.Length
    modifies dst
    ensures dst[..] == Patched(old(dst[..]), at, data)
  {
    for i := 0 to |data|
      invariant forall k :: 0 <= k < dst.Length ==>
        dst[k] == if at <= k < at + i then data[k - at] else old(dst[k])
    {
      dst[at + i] := data[i];
    }
  }
}
