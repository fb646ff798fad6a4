/** Result types and octets shared by every module. */
module Common {

  datatype Option<+T> = None | Some(value: T)

  datatype Result<+T, +E> = Ok(value: T) | Err(error: E)

  type Byte = b: int | 0 <= b < 0x100

  type Bytes = seq<Byte>

  /** The number of values a `u64` counter takes. */
  const U64_VALUES: nat := 0x1_0000_0000_0000_0000

  const I32_MAX: int := 0x7FFF_FFFF
  const I32_MIN: int := -0x8000_0000
  const U32_MAX: int := 0xFFFF_FFFF

  /** The `k` low bytes of `v`, least significant first (`to_le_bytes`). */
  function Le(v: nat, k: nat): (bs: Bytes)
    ensures |bs| == k
  {
    if k == 0 then [] else [v % 0x100] + Le(v / 0x100, k - 1)
  }

  /** The number a little-endian byte string denotes (`from_le_bytes`). */
  function FromLe(bs: Bytes): nat {
    if bs == [] then 0 else bs[0] + 0x100 * FromLe(bs[1..])
  }

  function Pow256(k: nat): (p: nat)
    ensures p > 0
  {
    if k == 0 then 1 else 0x100 * Pow256(k - 1)
  }

  /** Little-endian bytes determine the number they were made from, as long as it fits. */
  lemma {:induction false} LeRoundTrip(v: nat, k: nat)
    requires v < Pow256(k)
    ensures FromLe(Le(v, k)) == v
  {
    if k > 0 {
      LeRoundTrip(v / 0x100, k - 1);
      assert Le(v, k)[1..] == Le(v / 0x100, k - 1);
    }
  }

  /** Byte `i` of the little-endian form is the digit of weight 256^i. */
  lemma {:induction false} LeDigit(v: nat, k: nat, i: nat)
    requires i < k
    ensures Le(v, k)[i] == v / Pow256(i) % 0x100
  {
    if i > 0 {
      LeDigit(v / 0x100, k - 1, i - 1);
      assert Le(v, k)[i] == Le(v / 0x100, k - 1)[i - 1];
      DivideTwice(v, Pow256(i - 1));
    }
  }

  lemma DivideTwice(v: nat, p: nat)
    requires p > 0
    ensures v / 0x100 / p == v / (0x100 * p)
  {
    var q, r := v / 0x100 / p, v / 0x100 % p;
    var low := v % 0x100;
    assert v == 0x100 * (q * p + r) + low;
    assert 0x100 * (q * p) == q * (0x100 * p);
    assert 0 <= 0x100 * r + low < 0x100 * p;
    Quotient(v, 0x100 * p, q, 0x100 * r + low);
  }

  lemma Quotient(v: nat, d: nat, q: nat, r: nat)
    requires v == q * d + r && r < d
    ensures v / d == q
  {
    var p := v / d;
    assert p * d + v % d == v;
    Gap(p, q, d);
    Gap(q, p, d);
  }

  lemma {:induction false} Gap(a: nat, b: nat, d: nat)
    ensures a < b ==> a * d + d <= b * d
  {
    if a < b {
      Gap(a, b - 1, d);
      assert (b - 1) * d + d == b * d;
    }
  }

  /** Zero bytes on the high side do not change the number. */
  lemma {:induction false} FromLePadded(bs: Bytes, zeros: nat)
    ensures FromLe(bs + seq(zeros, _ => 0)) == FromLe(bs)
  {
    var z := seq(zeros, _ => 0);
    if bs != [] {
      FromLePadded(bs[1..], zeros);
      assert (bs + z)[1..] == bs[1..] + z;
    } else if zeros > 0 {
      FromLePadded([], zeros - 1);
      assert (bs + z)[1..] == [] + seq(zeros - 1, _ => 0);
    }
  }

  lemma {:induction false} LeTake(v: nat, k: nat, j: nat)
    requires j <= k
    ensures Le(v, k)[..j] == Le(v, j)
  {
    if j > 0 { LeTake(v / 0x100, k - 1, j - 1); }
  }

  /** `|` on unsigned numbers. */
  function BitOr(a: nat, b: nat): nat {
    if a == 0 && b == 0 then 0
    else 2 * BitOr(a / 2, b / 2) + if a % 2 == 1 || b % 2 == 1 then 1 else 0
  }

  function Pow2(k: nat): (p: nat)
    ensures p > 0
  {
    if k == 0 then 1 else 2 * Pow2(k - 1)
  }

  /** Where the bits do not overlap, `|` adds. */
  lemma {:induction false} OrAdds(a: nat, b: nat, k: nat)
    requires b < Pow2(k)
    ensures BitOr(a * Pow2(k), b) == a * Pow2(k) + b
  {
    hide BitOr;
    if k == 0 {
      OrZero(a);
    } else {
      var m := a * Pow2(k - 1);
      Doubled(a, k);
      OrAdds(a, b / 2, k - 1);
      OrDouble(m, b);
    }
  }

  lemma Doubled(a: nat, k: nat)
    requires k > 0
    ensures a * Pow2(k) == 2 * (a * Pow2(k - 1))
  {
  }

  lemma OrDouble(m: nat, b: nat)
    ensures BitOr(2 * m, b) == 2 * BitOr(m, b / 2) + b % 2
  {
  }

  lemma {:induction false} OrZero(a: nat)
    ensures BitOr(a, 0) == a
  {
    if a > 0 { OrZero(a / 2); }
  }

  lemma ConcatAssociative<T>(a: seq<T>, b: seq<T>, c: seq<T>)
    ensures (a + b) + c == a + (b + c)
  {
  }

  lemma SliceExtends<T>(s: seq<T>, a: nat, b: nat)
    requires a <= b <= |s|
    ensures b < |s| ==> s[a..b] + [s[b]] == s[a..b + 1]
    ensures b + 1 < |s| ==> s[a..b] + [s[b], s[b + 1]] == s[a..b + 2]
    ensures s[a..][..b - a] == s[a..b]
  {
  }
}
