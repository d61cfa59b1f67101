/** Fixed-width lower-case hexadecimal rendering. */
module Hex {
  predicate HexDigit(c: char) {
    '0' <= c <= '9' || 'a' <= c <= 'f'
  }

  function Digit(d: nat): (c: char)
    requires d < 16
    ensures HexDigit(c)
  {
    "0123456789abcdef"[d]
  }

  function Pow16(w: nat): (n: nat)
    ensures n > 0
  {
    if w == 0 then 1 else 16 * Pow16(w - 1)
  }

  /** The low `w` hexadecimal digits of `n`, most significant first. */
  function Render(n: nat, w: nat): (s: string)
    ensures |s| == w && forall i :: 0 <= i < |s| ==> HexDigit(s[i])
  {
    if w == 0 then "" else Render(n / 16, w - 1) + [Digit(n % 16)]
  }

  /** Rendering with enough digits loses nothing. */
  lemma {:induction false} RenderIsInjective(m: nat, n: nat, w: nat)
    requires m < Pow16(w) && n < Pow16(w) && Render(m, w) == Render(n, w)
    ensures m == n
  {
    if w > 0 {
      var a, b := Render(m, w), Render(n, w);
      assert a[..w - 1] == Render(m / 16, w - 1) && b[..w - 1] == Render(n / 16, w - 1);
      assert a[w - 1] == Digit(m % 16) && b[w - 1] == Digit(n % 16);
      DigitIsInjective(m % 16, n % 16);
      RenderIsInjective(m / 16, n / 16, w - 1);
    }
  }

  lemma DigitIsInjective(a: nat, b: nat)
    requires a < 16 && b < 16 && Digit(a) == Digit(b)
    ensures a == b
  {
  }

  lemma LowDigits(n: nat, p: nat)
    requires p > 0
    ensures n % (16 * p) == 16 * (n / 16 % p) + n % 16
  {
    var q := n / 16;
    var k, r := q / p, q % p;
    assert q == p * k + r;
    assert n == (16 * p) * k + (16 * r + n % 16);
    assert 16 * r + n % 16 < 16 * p;
    RemainderIs(n, 16 * p, k, 16 * r + n % 16);
  }

  lemma RemainderIs(n: nat, d: nat, k: nat, r: nat)
    requires r < d && n == d * k + r
    ensures n % d == r
  {
    var q := n / d;
    assert n == d * q + n % d;
    assert k < q ==> d * (k + 1) <= d * q;
    assert q < k ==> d * (q + 1) <= d * k;
  }

  /** The low `w` digits are all that a rendering shows. */
  lemma {:induction false} RenderShowsLowDigits(n: nat, w: nat)
    ensures Render(n, w) == Render(n % Pow16(w), w)
  {
    if w > 0 {
      var p := Pow16(w - 1);
      LowDigits(n, p);
      var low := n % Pow16(w);
      assert low / 16 == n / 16 % p && low % 16 == n % 16;
      RenderShowsLowDigits(n / 16, w - 1);
    }
  }

  lemma RenderAgreesIff(m: nat, n: nat, w: nat)
    ensures Render(m, w) == Render(n, w) <==> m % Pow16(w) == n % Pow16(w)
  {
    RenderShowsLowDigits(m, w);
    RenderShowsLowDigits(n, w);
    if Render(m, w) == Render(n, w) {
      RenderIsInjective(m % Pow16(w), n % Pow16(w), w);
    }
  }
}
