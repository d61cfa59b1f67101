/** The generated provider id: 64-bit FNV-1a over the URL bytes, rendered as 16 hex digits. */
module ProviderId {
  import opened Common
  import opened Hex

  const U64 := 0x1_0000_0000_0000_0000
  const OFFSET := 0xcbf2_9ce4_8422_2325
  const PRIME := 0x0000_0100_0000_01b3

  /** Inverse of PRIME modulo 2^64. */
  const PRIME_INVERSE := 0xce96_5057_aff6_957b

  /** Bitwise exclusive or on `w`-bit numbers. */
  function Xor(a: nat, b: nat, w: nat): (r: nat)
  {
    if w == 0 then 0 else 2 * Xor(a / 2, b / 2, w - 1) + (a % 2 + b % 2) % 2
  }

  function Pow2(w: nat): (n: nat)
    ensures n > 0
  {
    if w == 0 then 1 else 2 * Pow2(w - 1)
  }

  /** One FNV-1a round: exclusive or with the byte, then multiply, modulo 2^64. */
  function Round(state: nat, b: byte): (r: nat)
    ensures r < U64
  {
    Xor(state, b as nat, 64) * PRIME % U64
  }

  function Fnv(state: nat, bytes: seq<byte>): nat
    decreases |bytes|
  {
    if bytes == [] then state else Fnv(Round(state, bytes[0]), bytes[1..])
  }

  function IdOf(url: seq<byte>): string {
    "connect-" + Render(Fnv(OFFSET, url), 16)
  }

  method GeneratedProviderId(url: seq<byte>) returns (id: string)
    ensures id == IdOf(url)
  {
    var hash: nat := OFFSET;
    for i := 0 to |url|
      invariant Fnv(OFFSET, url) == Fnv(hash, url[i..])
    {
      hash := Xor(hash, url[i] as nat, 64);
      hash := hash * PRIME % U64;
      assert url[i..][1..] == url[i + 1..];
    }
    id := "connect-" + Render(hash, 16);
  }

  // ----- each round is injective in the state and in the byte ------------------------------------

  lemma Halves(h: nat, d: nat)
    requires d < 2
    ensures (2 * h + d) / 2 == h && (2 * h + d) % 2 == d
  {
  }

  lemma {:induction false} XorUndo(a: nat, b: nat, w: nat)
    requires a < Pow2(w)
    ensures Xor(a, b, w) < Pow2(w) && Xor(Xor(a, b, w), b, w) == a
  {
    if w > 0 {
      hide Xor;
      var h, d := Xor(a / 2, b / 2, w - 1), (a % 2 + b % 2) % 2;
      XorUndo(a / 2, b / 2, w - 1);
      XorUnfolds(a, b, w);
      Halves(h, d);
      XorUnfolds(2 * h + d, b, w);
      BitBack(a, b);
    }
  }

  lemma BitBack(a: nat, b: nat)
    ensures 2 * (a / 2) + ((a % 2 + b % 2) % 2 + b % 2) % 2 == a
  {
  }

  lemma XorUnfolds(a: nat, b: nat, w: nat)
    requires w > 0
    ensures Xor(a, b, w) == 2 * Xor(a / 2, b / 2, w - 1) + (a % 2 + b % 2) % 2
  {
  }

  lemma {:induction false} XorCommutes(a: nat, b: nat, w: nat)
    ensures Xor(a, b, w) == Xor(b, a, w)
  {
    if w > 0 {
      XorCommutes(a / 2, b / 2, w - 1);
    }
  }

  lemma Pow2Of64()
    ensures Pow2(64) == U64 && Pow16(16) == U64
  {
    Pow2Of16();
    hide Pow2, Pow16;
    Pow2Adds(16, 16);
    Pow2Adds(32, 32);
    Pow16Is(16);
  }

  lemma Pow2Of16()
    ensures Pow2(16) == 0x1_0000
  {
    assert Pow2(4) == 2 * (2 * (2 * (2 * Pow2(0))));
    hide Pow2;
    Pow2Adds(4, 4);
    Pow2Adds(8, 8);
  }

  lemma {:induction false} Pow2Adds(a: nat, b: nat)
    ensures Pow2(a + b) == Pow2(a) * Pow2(b)
  {
    if a > 0 {
      Pow2Adds(a - 1, b);
      assert Pow2(a + b) == 2 * Pow2(a - 1 + b);
    }
  }

  lemma {:induction false} Pow16Is(w: nat)
    ensures Pow16(w) == Pow2(4 * w)
  {
    if w > 0 {
      Pow16Is(w - 1);
      Pow2Adds(4, 4 * (w - 1));
      assert Pow2(4) == 2 * (2 * (2 * (2 * Pow2(0))));
    }
  }

  /** Multiplying by the odd prime can be undone modulo 2^64. */
  lemma MultiplyIsInjective(x: nat, y: nat)
    requires x < U64 && y < U64 && x * PRIME % U64 == y * PRIME % U64
    ensures x == y
  {
    UndoMultiply(x);
    UndoMultiply(y);
  }

  lemma UndoMultiply(x: nat)
    requires x < U64
    ensures (x * PRIME % U64) * PRIME_INVERSE % U64 == x
  {
    var q, r := x * PRIME / U64, x * PRIME % U64;
    assert x * PRIME == q * U64 + r;
    var k := (PRIME * PRIME_INVERSE - 1) / U64;
    assert PRIME * PRIME_INVERSE == k * U64 + 1;
    assert r * PRIME_INVERSE == x * (PRIME * PRIME_INVERSE) - (q * PRIME_INVERSE) * U64;
    assert x * (PRIME * PRIME_INVERSE) == (x * k) * U64 + x;
    assert r * PRIME_INVERSE == (x * k - q * PRIME_INVERSE) * U64 + x;
    Remainder(x * k - q * PRIME_INVERSE, x);
  }

  lemma Remainder(m: int, x: nat)
    requires x < U64 && m * U64 + x >= 0
    ensures (m * U64 + x) % U64 == x
  {
  }

  lemma RoundIsInjective(s: nat, t: nat, b: byte, c: byte)
    requires s < U64 && t < U64 && Round(s, b) == Round(t, c)
    ensures b == c ==> s == t
    ensures s == t ==> b == c
  {
    Pow2Of64();
    hide Xor;
    XorUndo(s, b as nat, 64);
    XorUndo(t, c as nat, 64);
    MultiplyIsInjective(Xor(s, b as nat, 64), Xor(t, c as nat, 64));
    if s == t {
      XorCommutes(s, b as nat, 64);
      XorCommutes(s, c as nat, 64);
      XorUndo(b as nat, s, 64);
      XorUndo(c as nat, s, 64);
    }
  }

  lemma {:induction false} FnvIsInjective(s: nat, t: nat, bytes: seq<byte>)
    requires s < U64 && t < U64 && Fnv(s, bytes) == Fnv(t, bytes)
    ensures s == t
    decreases |bytes|
  {
    hide Round;
    if bytes != [] {
      FnvIsInjective(Round(s, bytes[0]), Round(t, bytes[0]), bytes[1..]);
      RoundIsInjective(s, t, bytes[0], bytes[0]);
    }
  }

  lemma {:induction false} FnvConcat(s: nat, a: seq<byte>, b: seq<byte>)
    ensures Fnv(s, a + b) == Fnv(Fnv(s, a), b)
    decreases |a|
  {
    hide Round;
    if a == [] {
      assert a + b == b;
    } else {
      assert (a + b)[1..] == a[1..] + b;
      FnvConcat(Round(s, a[0]), a[1..], b);
    }
  }

  lemma {:induction false} FnvInRange(s: nat, bytes: seq<byte>)
    requires s < U64
    ensures Fnv(s, bytes) < U64
    decreases |bytes|
  {
    if bytes != [] {
      FnvInRange(Round(s, bytes[0]), bytes[1..]);
    }
  }

  /** Provider id separation: two URLs that differ in exactly one byte never get the same id. */
  lemma OneByteApart(before: seq<byte>, b: byte, c: byte, after: seq<byte>)
    requires b != c
    ensures IdOf(before + [b] + after) != IdOf(before + [c] + after)
  {
    hide Round, Render;
    var s := Fnv(OFFSET, before);
    FnvInRange(OFFSET, before);
    forall x: byte
      ensures Fnv(OFFSET, before + [x] + after) == Fnv(Round(s, x), after)
    {
      FnvConcat(OFFSET, before + [x], after);
      FnvConcat(OFFSET, before, [x]);
      assert [x][1..] == [];
    }
    if IdOf(before + [b] + after) == IdOf(before + [c] + after) {
      IdsAgreeOnlyOnHash(before + [b] + after, before + [c] + after);
      FnvIsInjective(Round(s, b), Round(s, c), after);
      RoundIsInjective(s, s, b, c);
    }
  }

  /** Equal ids come only from equal hashes. */
  lemma IdsAgreeOnlyOnHash(u: seq<byte>, v: seq<byte>)
    requires IdOf(u) == IdOf(v)
    ensures Fnv(OFFSET, u) == Fnv(OFFSET, v)
  {
    hide Fnv, Render;
    FnvInRange(OFFSET, u);
    FnvInRange(OFFSET, v);
    Pow2Of64();
    assert IdOf(u)[8..] == Render(Fnv(OFFSET, u), 16) && IdOf(v)[8..] == Render(Fnv(OFFSET, v), 16);
    RenderIsInjective(Fnv(OFFSET, u), Fnv(OFFSET, v), 16);
  }

  // ----- published values -----------------------------------------------------------------------

  lemma {:induction false} XorWithZero(a: nat, w: nat)
    requires a < Pow2(w)
    ensures Xor(a, 0, w) == a
  {
    if w > 0 {
      XorWithZero(a / 2, w - 1);
      XorUnfolds(a, 0, w);
    }
  }

  lemma XorDigit(a: nat, b: nat, w: nat, h: nat, r: nat)
    requires w > 0 && Xor(a / 2, b / 2, w - 1) == h && r == 2 * h + (a % 2 + b % 2) % 2
    ensures Xor(a, b, w) == r
  {
    XorUnfolds(a, b, w);
  }

  /** The offset basis with the byte of "a": only the low seven bits meet. */
  lemma XorOfA()
    ensures Xor(OFFSET, 97, 64) == 0xcbf2_9ce4_8422_2344
  {
    hide Xor, Pow2;
    Pow2Of57();
    XorWithZero(0x197e539c9084446, 57);
    XorDigit(0x32fca739210888c, 1, 58, 0x197e539c9084446, 0x32fca739210888d);
    XorDigit(0x65f94e724211119, 3, 59, 0x32fca739210888d, 0x65f94e72421111a);
    XorDigit(0xcbf29ce48422232, 6, 60, 0x65f94e72421111a, 0xcbf29ce48422234);
    XorDigit(0x197e539c90844464, 12, 61, 0xcbf29ce48422234, 0x197e539c90844468);
    XorDigit(0x32fca739210888c9, 24, 62, 0x197e539c90844468, 0x32fca739210888d1);
    XorDigit(0x65f94e7242111192, 48, 63, 0x32fca739210888d1, 0x65f94e72421111a2);
    XorDigit(0xcbf29ce484222325, 97, 64, 0x65f94e72421111a2, 0xcbf29ce484222344);
  }

  lemma Pow2Of57()
    ensures Pow2(57) == 0x200_0000_0000_0000
  {
    Pow2Of16();
    assert Pow2(8) == 256 by { Pow2Of8(); }
    assert Pow2(1) == 2 * Pow2(0);
    hide Pow2;
    Pow2Adds(16, 16);
    Pow2Adds(32, 16);
    Pow2Adds(48, 8);
    Pow2Adds(56, 1);
  }

  lemma Pow2Of8()
    ensures Pow2(8) == 256
  {
    assert Pow2(4) == 2 * (2 * (2 * (2 * Pow2(0))));
    hide Pow2;
    Pow2Adds(4, 4);
  }

  /** Rendering digit by digit. */
  lemma RenderStep(n: nat, w: nat, s: string, d: nat)
    requires Render(n, w) == s && d < 16
    ensures Render(16 * n + d, w + 1) == s + [Digit(d)]
  {
    assert (16 * n + d) / 16 == n && (16 * n + d) % 16 == d;
  }

  lemma RenderFour(n: nat, w: nat, s: string, a: nat, b: nat, c: nat, d: nat, m: nat, r: string)
    requires Render(n, w) == s && a < 16 && b < 16 && c < 16 && d < 16
    requires m == 0x1_0000 * n + 0x1000 * a + 0x100 * b + 0x10 * c + d
    requires r == s + [Digit(a), Digit(b), Digit(c), Digit(d)]
    ensures Render(m, w + 4) == r
  {
    hide Render, Digit;
    var na, nb, nc := 16 * n + a, 16 * (16 * n + a) + b, 16 * (16 * (16 * n + a) + b) + c;
    var sa, sb, sc := s + [Digit(a)], s + [Digit(a)] + [Digit(b)], s + [Digit(a)] + [Digit(b)] + [Digit(c)];
    RenderStep(n, w, s, a);
    RenderStep(na, w + 1, sa, b);
    RenderStep(nb, w + 2, sb, c);
    RenderStep(nc, w + 3, sc, d);
    assert m == 16 * nc + d && r == sc + [Digit(d)];
  }

  lemma RenderNothing()
    ensures Render(0, 0) == ""
  {
  }

  lemma Digits()
    ensures Digit(0) == '0' && Digit(1) == '1' && Digit(2) == '2' && Digit(3) == '3' && Digit(4) == '4'
            && Digit(5) == '5'
    ensures Digit(6) == '6' && Digit(8) == '8' && Digit(9) == '9' && Digit(10) == 'a' && Digit(11) == 'b'
    ensures Digit(12) == 'c' && Digit(13) == 'd' && Digit(14) == 'e' && Digit(15) == 'f'
  {
  }

  lemma RenderOfOffset()
    ensures Render(0xcbf2_9ce4_8422_2325, 16) == "cbf29ce484222325"
  {
    RenderNothing();
    Digits();
    hide Render, Digit;
    RenderFour(0, 0, "", 12, 11, 15, 2, 0xcbf2, "cbf2");
    RenderFour(0xcbf2, 4, "cbf2", 9, 12, 14, 4, 0xcbf2_9ce4, "cbf29ce4");
    RenderFour(0xcbf2_9ce4, 8, "cbf29ce4", 8, 4, 2, 2, 0xcbf2_9ce4_8422, "cbf29ce48422");
    RenderFour(0xcbf2_9ce4_8422, 12, "cbf29ce48422", 2, 3, 2, 5, 0xcbf2_9ce4_8422_2325, "cbf29ce484222325");
  }

  lemma RenderOfA()
    ensures Render(0xaf63_dc4c_8601_ec8c, 16) == "af63dc4c8601ec8c"
  {
    RenderNothing();
    Digits();
    hide Render, Digit;
    RenderFour(0, 0, "", 10, 15, 6, 3, 0xaf63, "af63");
    RenderFour(0xaf63, 4, "af63", 13, 12, 4, 12, 0xaf63_dc4c, "af63dc4c");
    RenderFour(0xaf63_dc4c, 8, "af63dc4c", 8, 6, 0, 1, 0xaf63_dc4c_8601, "af63dc4c8601");
    RenderFour(0xaf63_dc4c_8601, 12, "af63dc4c8601", 14, 12, 8, 12, 0xaf63_dc4c_8601_ec8c, "af63dc4c8601ec8c");
  }

  lemma HashOfA()
    ensures Fnv(OFFSET, [97]) == 0xaf63_dc4c_8601_ec8c
  {
    XorOfA();
    hide Xor;
    assert 0xcbf2_9ce4_8422_2344 * PRIME == 875948729822 * U64 + 0xaf63_dc4c_8601_ec8c;
    Remainder(875948729822, 0xaf63_dc4c_8601_ec8c);
    assert Round(OFFSET, 97) == 0xaf63_dc4c_8601_ec8c;
    assert [97 as byte][1..] == [];
    hide Round;
    assert Fnv(OFFSET, [97]) == Fnv(Round(OFFSET, 97), []);
  }

  /** The published FNV-1a values (draft-eastlake-fnv) of the empty string and of "a", as ids. */
  lemma PublishedValues()
    ensures IdOf([]) == "connect-cbf29ce484222325"
    ensures IdOf([97]) == "connect-af63dc4c8601ec8c"
  {
    hide Fnv, Render;
    HashOfNothing();
    HashOfA();
    RenderOfOffset();
    RenderOfA();
    assert "connect-" + "cbf29ce484222325" == "connect-cbf29ce484222325";
    assert "connect-" + "af63dc4c8601ec8c" == "connect-af63dc4c8601ec8c";
  }

  lemma HashOfNothing()
    ensures Fnv(OFFSET, []) == OFFSET
  {
  }
}
