/** Big-endian byte strings, the arithmetic behind math/big's Bytes and SetBytes. */
module Bytes {
  type byte = b: int | 0 <= b < 256

  /** 256 to the power n. */
  function Pow256(n: nat): (p: nat)
    ensures p > 0
  {
    if n == 0 then 1 else 256 * Pow256(n - 1)
  }

  /** The number a big-endian byte string stands for (big.Int.SetBytes). */
  function FromBytes(b: seq<byte>): nat {
    if |b| == 0 then 0 else FromBytes(b[..|b| - 1]) * 256 + b[|b| - 1]
  }

  /** The low len bytes of n, big-endian. */
  function ToBytes(n: nat, len: nat): (b: seq<byte>)
    ensures |b| == len
  {
    if len == 0 then [] else ToBytes(n / 256, len - 1) + [n % 256]
  }

  /** The shortest big-endian form of n, empty for zero (big.Int.Bytes). */
  function MinimalBytes(n: nat): seq<byte> {
    if n == 0 then [] else MinimalBytes(n / 256) + [n % 256]
  }

  function Zeros(n: nat): (b: seq<byte>)
    ensures |b| == n && forall i :: 0 <= i < n ==> b[i] == 0
  {
    seq(n, _ => 0)
  }

  lemma {:induction false} FromBytesBound(b: seq<byte>)
    ensures FromBytes(b) < Pow256(|b|)
  {
    if |b| > 0 {
      FromBytesBound(b[..|b| - 1]);
    }
  }

  lemma {:induction false} ToFromBytes(b: seq<byte>)
    ensures ToBytes(FromBytes(b), |b|) == b
  {
    if |b| > 0 {
      var init := b[..|b| - 1];
      ToFromBytes(init);
      assert FromBytes(b) / 256 == FromBytes(init);
      assert b == init + [b[|b| - 1]];
    }
  }

  lemma DivModStep(n: nat, m: nat)
    requires m > 0
    ensures n % (256 * m) == n / 256 % m * 256 + n % 256
  {
    var q, r := n / 256 / m, n / 256 % m;
    assert n / 256 == m * q + r;
    assert n == 256 * (m * q + r) + n % 256;
    var low := r * 256 + n % 256;
    assert 256 * (m * q) == (256 * m) * q;
    assert n == (256 * m) * q + low;
    assert r <= m - 1;
    assert 0 <= low < 256 * m;
    DivModUnique(n, 256 * m, q, low);
  }

  lemma DivModUnique(n: nat, d: nat, q: nat, r: nat)
    requires r < d && n == d * q + r
    ensures n / d == q && n % d == r
  {
    var k := q - n / d;
    assert d * k == n % d - r by {
      assert d * k == d * q - d * (n / d);
    }
    MulAtLeast(d, k);
  }

  lemma Remainder(q: nat, d: nat, r: nat)
    requires r < d
    ensures (q * d + r) % d == r && (q * d + r) / d == q
  {
    DivModUnique(q * d + r, d, q, r);
  }

  lemma RemainderOf(n: nat, q: nat, d: nat, r: nat)
    requires n == q * d + r && r < d
    ensures n % d == r && n / d == q
  {
    Remainder(q, d, r);
  }

  lemma MulAtLeast(d: nat, k: int)
    ensures k >= 1 ==> d * k >= d
    ensures k <= -1 ==> d * k + d <= 0
  {
  }

  lemma {:induction false} FromToBytes(n: nat, len: nat)
    ensures FromBytes(ToBytes(n, len)) == n % Pow256(len)
  {
    if len > 0 {
      FromToBytes(n / 256, len - 1);
      var b := ToBytes(n, len);
      assert b[..|b| - 1] == ToBytes(n / 256, len - 1);
      DivModStep(n, Pow256(len - 1));
    }
  }

  lemma FromToBytesSmall(n: nat, len: nat)
    requires n < Pow256(len)
    ensures FromBytes(ToBytes(n, len)) == n
  {
    FromToBytes(n, len);
    RemainderOf(n, 0, Pow256(len), n);
  }

  /** A byte string is determined by its length and its value. */
  lemma FromBytesInjective(a: seq<byte>, b: seq<byte>)
    requires |a| == |b| && FromBytes(a) == FromBytes(b)
    ensures a == b
  {
    ToFromBytes(a);
    ToFromBytes(b);
  }

  lemma {:induction false} FromBytesConcat(a: seq<byte>, b: seq<byte>)
    ensures FromBytes(a + b) == FromBytes(a) * Pow256(|b|) + FromBytes(b)
  {
    if |b| == 0 {
      assert a + b == a;
    } else {
      var init := b[..|b| - 1];
      FromBytesConcat(a, init);
      assert (a + b)[..|a + b| - 1] == a + init;
      assert (FromBytes(a) * Pow256(|init|)) * 256 == FromBytes(a) * (256 * Pow256(|init|));
    }
  }

  lemma {:induction false} FromBytesZeros(n: nat)
    ensures FromBytes(Zeros(n)) == 0
  {
    if n > 0 {
      FromBytesZeros(n - 1);
      assert Zeros(n)[..n - 1] == Zeros(n - 1);
    }
  }

  lemma {:induction false} MinimalBytesValue(n: nat)
    ensures FromBytes(MinimalBytes(n)) == n
  {
    if n > 0 {
      MinimalBytesValue(n / 256);
      var b := MinimalBytes(n);
      assert b[..|b| - 1] == MinimalBytes(n / 256);
    }
  }

  /** A number below 256^len has at most len significant bytes. */
  lemma {:induction false} MinimalBytesLength(n: nat, len: nat)
    requires n < Pow256(len)
    ensures |MinimalBytes(n)| <= len
  {
    if n > 0 {
      MinimalBytesLength(n / 256, len - 1);
    }
  }

  /** Keeping the last bytes of a string reduces its value modulo a power of 256. */
  lemma FromBytesSuffix(b: seq<byte>, len: nat)
    requires len <= |b|
    ensures FromBytes(b[|b| - len..]) == FromBytes(b) % Pow256(len)
  {
    var hi, lo := b[..|b| - len], b[|b| - len..];
    assert hi + lo == b;
    FromBytesConcat(hi, lo);
    FromBytesBound(lo);
    RemainderOf(FromBytes(b), FromBytes(hi), Pow256(len), FromBytes(lo));
  }

  /** Zero bytes in front do not change the value. */
  lemma FromBytesLeadingZeros(k: nat, b: seq<byte>)
    ensures FromBytes(Zeros(k) + b) == FromBytes(b)
  {
    FromBytesConcat(Zeros(k), b);
    FromBytesZeros(k);
  }

  /** Splitting a value splits its byte string at the same place. */
  lemma ToBytesSplit(high: nat, low: nat, h: nat, l: nat)
    requires high < Pow256(h) && low < Pow256(l)
    ensures ToBytes(high * Pow256(l) + low, h + l) == ToBytes(high, h) + ToBytes(low, l)
  {
    var b := ToBytes(high, h) + ToBytes(low, l);
    FromBytesConcat(ToBytes(high, h), ToBytes(low, l));
    FromToBytesSmall(high, h);
    FromToBytesSmall(low, l);
    ToFromBytes(b);
  }

  /** The low bytes of n depend on n modulo 256^len only. */
  lemma ToBytesLow(n: nat, len: nat)
    ensures ToBytes(n, len) == ToBytes(n % Pow256(len), len)
  {
    FromToBytes(n, len);
    var m := n % Pow256(len);
    FromToBytes(m, len);
    DivModUnique(m, Pow256(len), 0, m);
    FromBytesInjective(ToBytes(n, len), ToBytes(m, len));
  }

  lemma SliceOf<T>(s: seq<T>, a: nat, b: nat, c: nat, d: nat)
    requires a <= b <= |s| && c <= d <= b - a
    ensures s[a..b][c..d] == s[a + c..a + d]
  {
    var t, u := s[a..b][c..d], s[a + c..a + d];
    assert |t| == d - c == |u|;
    assert forall i :: 0 <= i < d - c ==> t[i] == s[a..b][c + i] == s[a + c + i] == u[i];
  }

  /** A list of equally long words, laid end to end. */
  function Flatten(ws: seq<seq<byte>>): seq<byte> {
    if |ws| == 0 then [] else Flatten(ws[..|ws| - 1]) + ws[|ws| - 1]
  }

  lemma {:induction false} FlattenLength(ws: seq<seq<byte>>, len: nat)
    requires forall i :: 0 <= i < |ws| ==> |ws[i]| == len
    ensures |Flatten(ws)| == len * |ws|
  {
    if |ws| > 0 {
      FlattenLength(ws[..|ws| - 1], len);
      assert len * (|ws| - 1) + len == len * |ws|;
    }
  }

  /** Word i of a flattened list sits at offset len * i. */
  lemma {:induction false} FlattenAt(ws: seq<seq<byte>>, len: nat, i: nat)
    requires forall k :: 0 <= k < |ws| ==> |ws[k]| == len
    requires i < |ws|
    ensures 0 <= len * i <= len * i + len <= |Flatten(ws)| == len * |ws|
    ensures Flatten(ws)[len * i..len * i + len] == ws[i]
  {
    FlattenLength(ws, len);
    var init := ws[..|ws| - 1];
    FlattenLength(init, len);
    assert len * |ws| == len * |init| + len;
    if i < |init| {
      FlattenAt(init, len, i);
      assert Flatten(ws)[len * i..len * i + len] == Flatten(init)[len * i..len * i + len];
    }
  }

  lemma {:induction false} FlattenConcat(a: seq<seq<byte>>, b: seq<seq<byte>>)
    ensures Flatten(a + b) == Flatten(a) + Flatten(b)
  {
    if |b| == 0 {
      assert a + b == a;
    } else {
      FlattenConcat(a, b[..|b| - 1]);
      assert (a + b)[..|a + b| - 1] == a + b[..|b| - 1];
    }
  }
}
