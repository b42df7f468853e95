/** Little-endian numbers in byte sequences. */
module Bytes {

  newtype byte = i: int | 0 <= i < 256

  function Pow256(k: nat): (p: nat)
    ensures p >= 1
  {
    if k == 0 then 1 else 256 * Pow256(k - 1)
  }

  function FromLE(b: seq<byte>): nat {
    if b == [] then 0 else b[0] as nat + 256 * FromLE(b[1..])
  }

  function ToLE(n: nat, k: nat): (b: seq<byte>)
    ensures |b| == k
  {
    if k == 0 then [] else [(n % 256) as byte] + ToLE(n / 256, k - 1)
  }

  /** The byte order: the least significant byte comes first. */
  lemma LeastSignificantFirst(n: nat, k: nat, b: seq<byte>, x: byte)
    ensures k > 0 ==> ToLE(n, k)[0] as nat == n % 256
    ensures FromLE([x] + b) % 256 == x as nat
  {
    assert ([x] + b)[1..] == b;
  }

  lemma {:induction false} FromLEBound(b: seq<byte>)
    ensures FromLE(b) < Pow256(|b|)
  {
    if b != [] { FromLEBound(b[1..]); }
  }

  lemma {:induction false} RoundTripLE(n: nat, k: nat)
    requires n < Pow256(k)
    ensures FromLE(ToLE(n, k)) == n
  {
    if k > 0 {
      RoundTripLE(n / 256, k - 1);
      assert ToLE(n, k)[1..] == ToLE(n / 256, k - 1);
    }
  }

  lemma {:induction false} RoundTripBytes(b: seq<byte>)
    ensures ToLE(FromLE(b), |b|) == b
  {
    if b != [] {
      RoundTripBytes(b[1..]);
      assert FromLE(b) / 256 == FromLE(b[1..]) && FromLE(b) % 256 == b[0] as nat;
    }
  }

  lemma {:induction false} ToLETruncates(n: nat, k: nat)
    ensures FromLE(ToLE(n, k)) == n % Pow256(k)
    decreases k
  {
    if k > 0 {
      ToLETruncates(n / 256, k - 1);
      assert ToLE(n, k)[1..] == ToLE(n / 256, k - 1);
      ModSplit(n, Pow256(k - 1));
    }
  }

  lemma ModSplit(n: nat, p: nat)
    requires p >= 1
    ensures n % (256 * p) == n % 256 + 256 * ((n / 256) % p)
  {
    var q, r := (n / 256) / p, (n / 256) % p;
    assert n / 256 == q * p + r;
    assert n == 256 * (q * p + r) + n % 256;
    assert 256 * (q * p) == q * (256 * p);
    var low := n % 256 + 256 * r;
    assert n == q * (256 * p) + low;
    assert 0 <= low < 256 * p by { assert 256 * r <= 256 * (p - 1); }
    DivModUnique(n, 256 * p, q, low);
  }

  lemma DivModUnique(n: nat, m: nat, q: nat, r: nat)
    requires m >= 1 && r < m && n == q * m + r
    ensures n % m == r
  {
    var k, r' := n / m - q, n % m;
    assert n == (q + k) * m + r';
    assert (q + k) * m == q * m + k * m;
    assert (-k) * m == -(k * m);
    if k >= 1 { Multiple(k, m); } else if k <= -1 { Multiple(-k, m); }
  }

  lemma Multiple(k: nat, m: nat)
    requires k >= 1
    ensures k * m >= m
  {
    assert k * m == m + (k - 1) * m;
  }
}
