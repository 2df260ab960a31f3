/** Big-endian integers and self-delimiting frames: the primitives of the H2 wire format. */
module Wire {

  type byte = x: int | 0 <= x < 256
  type Bytes = seq<byte>

  type int16 = x: int | -0x8000 <= x < 0x8000
  type int32 = x: int | -0x8000_0000 <= x < 0x8000_0000
  type int64 = x: int | -0x8000_0000_0000_0000 <= x < 0x8000_0000_0000_0000

  const MAX_INT32: int := 0x7fff_ffff
  const MAX_WIRE_LENGTH: int := 0x2000_0000  // 512 MiB
  const MAX_COLLECTION: int := 0x10_0000     // element, field, column and row counts

  /** Outcome of decoding a prefix of a stream: a value and the number of bytes it took. */
  datatype Got<+T> = Got(v: T, n: nat) | Fail

  datatype Option<+T> = None | Some(value: T)

  function Pow256(k: nat): (p: int)
    ensures p >= 1
  {
    if k == 0 then 1 else 256 * Pow256(k - 1)
  }

  /** The low `k` bytes of the two's complement form of `v`, most significant first. */
  function EncBE(v: int, k: nat): (s: Bytes)
    ensures |s| == k
    decreases k
  {
    if k == 0 then [] else EncBE(v / 256, k - 1) + [v % 256]
  }

  /** The unsigned number whose big-endian digits are `s`. */
  function DecBE(s: Bytes): (v: int)
    ensures 0 <= v < Pow256(|s|)
  {
    if |s| == 0 then 0 else 256 * DecBE(s[..|s| - 1]) + s[|s| - 1]
  }

  /** Reinterprets an unsigned `k`-byte number as two's complement. */
  function Signed(u: int, k: nat): int {
    if 2 * u >= Pow256(k) then u - Pow256(k) else u
  }

  lemma {:induction false} DecEnc(v: int, k: nat)
    requires -Pow256(k) <= v < Pow256(k)
    ensures DecBE(EncBE(v, k)) == if v < 0 then v + Pow256(k) else v
    decreases k
  {
    if k > 0 {
      DecEnc(v / 256, k - 1);
      assert EncBE(v, k)[..k - 1] == EncBE(v / 256, k - 1);
    }
  }

  lemma {:induction false} EncDec(s: Bytes)
    ensures EncBE(DecBE(s), |s|) == s
    ensures EncBE(DecBE(s) - Pow256(|s|), |s|) == s
  {
    if |s| > 0 {
      var init := s[..|s| - 1];
      EncDec(init);
      var u := DecBE(s);
      assert u / 256 == DecBE(init) && u % 256 == s[|s| - 1];
      assert (u - Pow256(|s|)) / 256 == DecBE(init) - Pow256(|init|);
      assert (u - Pow256(|s|)) % 256 == s[|s| - 1];
    }
  }

  /** The first byte is the most significant one. */
  lemma {:induction false} MostSignificantFirst(s: Bytes)
    requires s != []
    ensures DecBE(s) == s[0] * Pow256(|s| - 1) + DecBE(s[1..])
  {
    if |s| > 1 {
      var init := s[..|s| - 1];
      MostSignificantFirst(init);
      assert init[1..] == s[1..][..|s| - 2] && s[1..][|s| - 2] == s[|s| - 1];
      assert Pow256(|s| - 1) == 256 * Pow256(|s| - 2);
      Shifted(s[0], Pow256(|s| - 2), DecBE(init[1..]), s[|s| - 1]);
    }
  }

  lemma Shifted(a: int, p: int, d: int, x: int)
    ensures 256 * (a * p + d) + x == a * (256 * p) + (256 * d + x)
  {
  }

  /** Two's complement round trip for every value the width can hold, and back for every byte string. */
  lemma SignedRoundTrip(v: int, k: nat)
    requires -Pow256(k) <= 2 * v < Pow256(k)
    ensures Signed(DecBE(EncBE(v, k)), k) == v
  {
    DecEnc(v, k);
  }

  lemma {:induction false} BytesRoundTrip(s: Bytes)
    ensures EncBE(Signed(DecBE(s), |s|), |s|) == s
  {
    EncDec(s);
    var u, p := DecBE(s), Pow256(|s|);
    if 2 * u >= p {
      assert Signed(u, |s|) == u - p;
    } else {
      assert Signed(u, |s|) == u;
    }
  }

  lemma Widths()
    ensures Pow256(1) == 0x100 && Pow256(2) == 0x1_0000
    ensures Pow256(4) == 0x1_0000_0000 && Pow256(8) == 0x1_0000_0000_0000_0000
  {
    assert Pow256(3) == 0x100_0000;
    assert Pow256(6) == 256 * Pow256(5) && Pow256(5) == 256 * Pow256(4);
    assert Pow256(7) == 256 * Pow256(6);
  }

  function Put16(x: int16): (s: Bytes) ensures |s| == 2 { EncBE(x, 2) }
  function Put32(x: int32): (s: Bytes) ensures |s| == 4 { EncBE(x, 4) }
  function Put64(x: int64): (s: Bytes) ensures |s| == 8 { EncBE(x, 8) }

  function Int8(b: byte): int {
    if b >= 128 then b - 256 else b
  }

  function Int16(s: Bytes): int16 requires |s| == 2 { Widths(); Signed(DecBE(s), 2) }
  function Int32(s: Bytes): int32 requires |s| == 4 { Widths(); Signed(DecBE(s), 4) }
  function Int64(s: Bytes): int64 requires |s| == 8 { Widths(); Signed(DecBE(s), 8) }

  lemma Int16Put(x: int16)
    ensures Int16(Put16(x)) == x
  {
    Widths();
    SignedRoundTrip(x, 2);
  }

  lemma Int32Put(x: int32)
    ensures Int32(Put32(x)) == x
  {
    Widths();
    SignedRoundTrip(x, 4);
  }

  lemma Put32Int(s: Bytes)
    requires |s| == 4
    ensures Put32(Int32(s)) == s
  {
    BytesRoundTrip(s);
  }

  lemma Int64Put(x: int64)
    ensures Int64(Put64(x)) == x
  {
    Widths();
    SignedRoundTrip(x, 8);
  }

  /** `int32(x)`: keeps the low 32 bits. */
  function ToInt32(x: int): int32 {
    Widths();
    var u := x % 0x1_0000_0000;
    if u >= 0x8000_0000 then u - 0x1_0000_0000 else u
  }

  // ---- Frame readers ----

  /** Cutting a concatenation of three parts at its seams. */
  lemma Cut<T>(a: seq<T>, b: seq<T>, c: seq<T>)
    ensures (a + (b + c))[..|a|] == a && (a + (b + c))[|a|..] == b + c
    ensures (a + (b + c))[|a|..|a| + |b|] == b && (a + (b + c))[|a| + |b|..] == c
    ensures a + (b + c) == (a + b) + c
  {
  }

  function GetByte(s: Bytes): (g: Got<byte>)
    ensures g.Got? ==> g.n == 1 <= |s|
  {
    if |s| < 1 then Fail else Got(s[0], 1)
  }

  function Get16(s: Bytes): (g: Got<int16>)
    ensures g.Got? ==> g.n == 2 <= |s|
  {
    if |s| < 2 then Fail else Got(Int16(s[..2]), 2)
  }

  function Get32(s: Bytes): (g: Got<int32>)
    ensures g.Got? ==> g.n == 4 <= |s|
  {
    if |s| < 4 then Fail else Got(Int32(s[..4]), 4)
  }

  function Get64(s: Bytes): (g: Got<int64>)
    ensures g.Got? ==> g.n == 8 <= |s|
  {
    if |s| < 8 then Fail else Got(Int64(s[..8]), 8)
  }

  lemma Get32Put(x: int32, t: Bytes)
    ensures Get32(Put32(x) + t) == Got(x, 4)
    ensures (Put32(x) + t)[4..] == t
  {
    Int32Put(x);
    assert (Put32(x) + t)[..4] == Put32(x);
  }

  lemma Get64Put(x: int64, t: Bytes)
    ensures Get64(Put64(x) + t) == Got(x, 8)
    ensures (Put64(x) + t)[8..] == t
  {
    Int64Put(x);
    assert (Put64(x) + t)[..8] == Put64(x);
  }

  lemma SplitAt<T>(s: seq<T>, n: nat)
    requires n <= |s|
    ensures s == s[..n] + s[n..]
  {
  }

  /** A prefix and a prefix of what follows it. */
  lemma TwoPrefixes<T>(s: seq<T>, n: nat, m: nat)
    requires n <= |s| && m <= |s[n..]|
    ensures s[..n + m] == s[..n] + s[n..][..m]
  {
  }

  /** Length-prefixed bytes, the length cut to 32 bits; a nil slice travels as length -1. */
  function PutBytes(b: Option<Bytes>): Bytes {
    match b
    case None => Put32(-1)
    case Some(d) => EncBE(|d|, 4) + d
  }

  function GetBytes(s: Bytes): (g: Got<Option<Bytes>>)
    ensures g.Got? ==> 4 <= g.n <= |s|
  {
    match Get32(s)
    case Fail => Fail
    case Got(len, _) =>
      if len == -1 then Got(None, 4)
      else if len == 0 then Got(Some([]), 4)
      else if len < 0 || len > MAX_WIRE_LENGTH then Fail
      else if |s| < 4 + len then Fail
      else Got(Some(s[4..4 + len]), 4 + len)
  }

  lemma GetBytesPut(b: Option<Bytes>, t: Bytes)
    requires b.Some? ==> |b.value| <= MAX_WIRE_LENGTH
    ensures GetBytes(PutBytes(b) + t) == Got(b, |PutBytes(b)|)
    ensures (PutBytes(b) + t)[|PutBytes(b)|..] == t
  {
    match b
    case None => Get32Put(-1, t);
    case Some(d) =>
      Get32Put(|d|, d + t);
      Cut(Put32(|d|), d, t);
      hide Get32, Put32;
  }

  /** `s` and `s'` start with the same `n` bytes. */
  predicate Agree(s: Bytes, s': Bytes, n: nat) {
    n <= |s| && n <= |s'| && s[..n] == s'[..n]
  }

  lemma AgreeLess(s: Bytes, s': Bytes, n: nat, m: nat)
    requires Agree(s, s', n) && m <= n
    ensures Agree(s, s', m)
  {
    assert s[..m] == s[..n][..m];
    assert s'[..m] == s'[..n][..m];
  }

  lemma AgreeDrop(s: Bytes, s': Bytes, n: nat, m: nat)
    requires Agree(s, s', n) && m <= n
    ensures Agree(s[m..], s'[m..], n - m)
  {
    assert s[m..][..n - m] == s[..n][m..];
    assert s'[m..][..n - m] == s'[..n][m..];
  }

  lemma GetBytesLocal(s: Bytes, s': Bytes)
    requires GetBytes(s).Got? && Agree(s, s', GetBytes(s).n)
    ensures GetBytes(s') == GetBytes(s)
  {
    var n := GetBytes(s).n;
    AgreeLess(s, s', n, 4);
    assert s[4..n] == s[..n][4..] && s'[4..n] == s'[..n][4..];
  }
}
