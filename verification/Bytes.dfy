/** Bytes, machine words and the little-endian layout in which the library copies them with `memcpy`. */
module Bytes {

  type Byte = x: int | 0 <= x < 256

  const WORD_LIMIT: int := 0x1_0000_0000_0000_0000
  const PTRDIFF_MAX: int := 0x7fff_ffff_ffff_ffff
  const SIZE_MAX: int := 0xffff_ffff_ffff_ffff

  /** The value of a `size_t`, or the bit pattern of a `double`. */
  type Word = x: int | 0 <= x < 0x1_0000_0000_0000_0000

  datatype Option<+T> = None | Some(value: T)

  function Pow256(k: nat): (p: nat)
    ensures p > 0
  {
    if k == 0 then 1 else 256 * Pow256(k - 1)
  }

  function LE(n: nat, k: nat): (b: seq<Byte>)
    ensures |b| == k
  {
    if k == 0 then [] else [n % 256] + LE(n / 256, k - 1)
  }

  function FromLE(b: seq<Byte>): (n: nat)
  {
    if b == [] then 0 else b[0] + 256 * FromLE(b[1..])
  }

  lemma {:induction false} FromLERange(b: seq<Byte>)
    ensures FromLE(b) < Pow256(|b|)
  {
    if b != [] {
      FromLERange(b[1..]);
    }
  }

  lemma {:induction false} LERoundTrip(n: nat, k: nat)
    requires n < Pow256(k)
    ensures FromLE(LE(n, k)) == n
  {
    if k > 0 {
      LERoundTrip(n / 256, k - 1);
      assert LE(n, k)[1..] == LE(n / 256, k - 1);
    }
  }

  /** Two's complement reading of `k` bytes. */
  function SignedFromLE(b: seq<Byte>): int
  {
    var u := FromLE(b);
    if 2 * u >= Pow256(|b|) then u - Pow256(|b|) else u
  }

  function SignedLE(n: int, k: nat): (b: seq<Byte>)
    ensures |b| == k
  {
    LE(n % Pow256(k), k)
  }

  lemma {:induction false} SignedRoundTrip(n: int, k: nat)
    requires k > 0 && 0 <= 2 * n + Pow256(k) && 2 * n < Pow256(k)
    ensures SignedFromLE(SignedLE(n, k)) == n
  {
    var p: int := Pow256(k);
    var u := if n < 0 then n + p else n;
    ModUnique(n, p, u, if n < 0 then -1 else 0);
    LERoundTrip(u, k);
  }

  lemma ModUnique(n: int, p: int, u: int, q: int)
    requires 0 <= u < p && n == p * q + u
    ensures n % p == u
  {
    var d := n / p - q;
    assert p * d == u - n % p;
    assert -1 < d < 1 by {
      assert d >= 1 ==> p * d >= p;
      assert d <= -1 ==> p * d <= -p;
    }
  }

  /** The 64-bit two's complement value congruent to `x`: what `long long` arithmetic leaves after wrap-around. */
  function Wrap64(x: int): (w: int)
    ensures -0x8000_0000_0000_0000 <= w < 0x8000_0000_0000_0000
    ensures -0x8000_0000_0000_0000 <= x < 0x8000_0000_0000_0000 ==> w == x
  {
    (x + 0x8000_0000_0000_0000) % WORD_LIMIT - 0x8000_0000_0000_0000
  }

  lemma Wrap64Congruent(x: int)
    ensures exists k: int :: Wrap64(x) == x + k * WORD_LIMIT
  {
    var k := -((x + 0x8000_0000_0000_0000) / WORD_LIMIT);
    assert Wrap64(x) == x + k * WORD_LIMIT;
  }

  lemma Wrap64Shift(x: int, k: int)
    ensures Wrap64(x + k * WORD_LIMIT) == Wrap64(x)
  {
    var y := x + 0x8000_0000_0000_0000;
    assert (y + k * WORD_LIMIT) % WORD_LIMIT == y % WORD_LIMIT by {
      var q := y / WORD_LIMIT;
      assert y + k * WORD_LIMIT == (q + k) * WORD_LIMIT + y % WORD_LIMIT;
    }
  }

  /** One digit step on the wrapped value gives the wrapped result of the step on the exact value. */
  lemma Wrap64Digit(x: int, d: int)
    ensures Wrap64(Wrap64(x) * 10 + d) == Wrap64(x * 10 + d)
  {
    Wrap64Congruent(x);
    var k: int :| Wrap64(x) == x + k * WORD_LIMIT;
    assert Wrap64(x) * 10 + d == (x * 10 + d) + (10 * k) * WORD_LIMIT;
    Wrap64Shift(x * 10 + d, 10 * k);
  }

  lemma Wrap64Negate(x: int)
    ensures Wrap64(-Wrap64(x)) == Wrap64(-x)
  {
    Wrap64Congruent(x);
    var k: int :| Wrap64(x) == x + k * WORD_LIMIT;
    assert -Wrap64(x) == -x + (-k) * WORD_LIMIT;
    Wrap64Shift(-x, -k);
  }

  /** The eight bytes of a `size_t`. */
  function WordBytes(n: Word): (b: seq<Byte>)
    ensures |b| == 8 && FromLE(b) == n
  {
    assert Pow256(8) == 0x1_0000_0000_0000_0000;
    LERoundTrip(n, 8);
    LE(n, 8)
  }

  /** The `size_t` stored at `at`. */
  function WordAt(s: seq<Byte>, at: nat): (n: Word)
    requires at + 8 <= |s|
  {
    FromLERange(s[at..at + 8]);
    assert Pow256(8) == 0x1_0000_0000_0000_0000;
    FromLE(s[at..at + 8])
  }

  /** A word written at `at` is what is read back. */
  lemma WordAtWritten(s: seq<Byte>, at: nat, n: Word)
    requires at + 8 <= |s| && s[at..at + 8] == WordBytes(n)
    ensures WordAt(s, at) == n
  {
  }

  /** A table of `size_t` values. */
  function Words(ns: seq<Word>): (b: seq<Byte>)
    ensures |b| == 8 * |ns|
  {
    seq(8 * |ns|, i requires 0 <= i < 8 * |ns| => WordBytes(ns[i / 8])[i % 8])
  }

  lemma WordsAt(ns: seq<Word>, i: nat)
    requires i < |ns|
    ensures Words(ns)[8 * i..8 * i + 8] == WordBytes(ns[i])
  {
  }

  lemma WordsAppend(ns: seq<Word>, n: Word)
    ensures Words(ns + [n]) == Words(ns) + WordBytes(n)
  {
  }

  /** A part of a slice is a slice of the whole. */
  lemma SliceOfSlice<T>(s: seq<T>, a: nat, b: nat, t: seq<T>, c: nat, d: nat)
    requires a <= b <= |s| && s[a..b] == t && c <= d <= b - a
    ensures s[a + c..a + d] == t[c..d]
  {
    forall i | 0 <= i < d - c ensures s[a + c..a + d][i] == t[c..d][i] {
      assert s[a..b][c + i] == s[a + c + i];
    }
  }

  /** The table of `n` words that starts at `at`. */
  function TableAt(s: seq<Byte>, at: nat, n: nat): (t: seq<Word>)
    requires at + 8 * n <= |s|
    ensures |t| == n
    ensures forall i :: 0 <= i < n ==> t[i] == WordAt(s, at + 8 * i)
  {
    seq(n, i requires 0 <= i < n => WordAt(s, at + 8 * i))
  }

  lemma WordInSlice(s: seq<Byte>, at: nat, table: seq<Byte>, c: nat, w: Word)
    requires at + |table| <= |s| && s[at..at + |table|] == table
    requires c + 8 <= |table| && table[c..c + 8] == WordBytes(w)
    ensures WordAt(s, at + c) == w
  {
    SliceOfSlice(s, at, at + |table|, table, c, c + 8);
  }

  lemma TableAtWritten(s: seq<Byte>, at: nat, ns: seq<Word>)
    requires at + 8 * |ns| <= |s| && s[at..at + 8 * |ns|] == Words(ns)
    ensures TableAt(s, at, |ns|) == ns
  {
    forall i | 0 <= i < |ns| ensures TableAt(s, at, |ns|)[i] == ns[i] {
      WordsAt(ns, i);
      WordInSlice(s, at, Words(ns), 8 * i, ns[i]);
    }
  }
}
