/** The card-rotation hash (src/utils/hash.js): a 32-bit polynomial string
    hash over UTF-16 code units, and the small rotation derived from it.
    JavaScript's `| 0` and `<<` work on signed 32-bit integers; both are
    written out with ToInt32. */
module Hash {

  const Two32: int := 0x1_0000_0000
  const Two31: int := 0x8000_0000

  predicate IsInt32(x: int)
  {
    -Two31 <= x < Two31
  }

  /** ECMAScript ToInt32 on an integer: the value congruent to `x` modulo
      2^32 in the signed 32-bit range. */
  function ToInt32(x: int): (r: int)
    ensures IsInt32(r)
    ensures (r - x) % Two32 == 0
    ensures IsInt32(x) ==> r == x
  {
    var m := x % Two32;
    if m >= Two31 then m - Two32 else m
  }

  /** Two integers that agree modulo 2^32 have the same ToInt32. */
  lemma ToInt32Congruent(x: int, y: int)
    requires (x - y) % Two32 == 0
    ensures ToInt32(x) == ToInt32(y)
  {
    var k := (x - y) / Two32;
    assert x == y + k * Two32;
    ModAddMultiple(y, k);
  }

  lemma ModAddMultiple(y: int, k: int)
    ensures (y + k * Two32) % Two32 == y % Two32
  {
  }

  // ---------------------------------------------------------------------
  // UTF-16

  /** The UTF-16 code units of one character: itself below 0x10000, a
      surrogate pair above. */
  function CodeUnits(c: char): (u: seq<int>)
    ensures 1 <= |u| <= 2
    ensures forall i :: 0 <= i < |u| ==> 0 <= u[i] < 0x10000
    ensures (c as int) < 0x10000 <==> u == [c as int]
  {
    var n := c as int;
    if n < 0x10000 then [n]
    else [0xD800 + (n - 0x10000) / 0x400, 0xDC00 + (n - 0x10000) % 0x400]
  }

  /** A surrogate pair decodes back to its character. */
  lemma CodeUnitsDecode(c: char)
    requires (c as int) >= 0x10000
    ensures var u := CodeUnits(c);
      0xD800 <= u[0] < 0xDC00 && 0xDC00 <= u[1] < 0xE000
      && 0x10000 + (u[0] - 0xD800) * 0x400 + (u[1] - 0xDC00) == c as int
  {
  }

  /** `str` as JavaScript sees it: `str.length` and `str.charCodeAt(i)` are
      the length and the elements of this sequence. */
  function Utf16(s: string): (u: seq<int>)
    ensures |u| >= |s|
    ensures forall i :: 0 <= i < |u| ==> 0 <= u[i] < 0x10000
  {
    if |s| == 0 then [] else CodeUnits(s[0]) + Utf16(s[1..])
  }

  /** Below 0x10000 a character is one code unit. */
  lemma {:induction false} Utf16Bmp(s: string)
    requires forall i :: 0 <= i < |s| ==> (s[i] as int) < 0x10000
    ensures |Utf16(s)| == |s|
    ensures forall i :: 0 <= i < |s| ==> Utf16(s)[i] == s[i] as int
  {
    if |s| > 0 {
      Utf16Bmp(s[1..]);
    }
  }

  // ---------------------------------------------------------------------
  // hashCode

  /** One step of the loop: `((hash << 5) - hash + code) | 0`. */
  function Step(h: int, code: int): (r: int)
    ensures IsInt32(r)
  {
    ToInt32(ToInt32(ToInt32(h) * 32) - h + code)
  }

  /** The hash after the units have been consumed, from the left. */
  function HashUnits(u: seq<int>): (h: int)
    ensures IsInt32(h)
  {
    if |u| == 0 then 0 else Step(HashUnits(u[..|u| - 1]), u[|u| - 1])
  }

  /** The exact polynomial `sum u[i] * 31^(n-1-i)`, the reference the 32-bit
      loop approximates. */
  function Poly(u: seq<int>): int
  {
    if |u| == 0 then 0 else 31 * Poly(u[..|u| - 1]) + u[|u| - 1]
  }

  /** A step is `31 * h + code` reduced to 32 bits. */
  lemma StepIsPoly(h: int, code: int)
    ensures Step(h, code) == ToInt32(31 * h + code)
  {
    var s := ToInt32(h) * 32;
    assert (ToInt32(h) - h) % Two32 == 0;
    var k := (ToInt32(h) - h) / Two32;
    assert ToInt32(h) == h + k * Two32;
    assert s == h * 32 + (32 * k) * Two32;
    assert (ToInt32(s) - s) % Two32 == 0;
    var j := (ToInt32(s) - s) / Two32;
    assert ToInt32(s) - h + code == 31 * h + code + (j + 32 * k) * Two32;
    ModAddMultiple(31 * h + code, j + 32 * k);
    ToInt32Congruent(ToInt32(s) - h + code, 31 * h + code);
  }

  /** A multiple of 2^32 stays one when multiplied by 31. */
  lemma MulCongruent(x: int)
    requires x % 0x1_0000_0000 == 0
    ensures (31 * x) % 0x1_0000_0000 == 0
  {
    var q := x / 0x1_0000_0000;
    assert x == q * 0x1_0000_0000;
    assert 31 * x == (31 * q) * 0x1_0000_0000;
  }

  /** Multiplying and adding commute with the reduction to 32 bits. */
  lemma ReducedStep(h: int, p: int, code: int)
    requires h == ToInt32(p)
    ensures ToInt32(31 * h + code) == ToInt32(31 * p + code)
  {
    MulCongruent(h - p);
    assert (31 * h + code) - (31 * p + code) == 31 * (h - p);
    ToInt32Congruent(31 * h + code, 31 * p + code);
  }

  /** The 32-bit loop computes the exact polynomial hash modulo 2^32. */
  lemma {:induction false} HashIsPoly(u: seq<int>)
    ensures HashUnits(u) == ToInt32(Poly(u))
  {
    if |u| > 0 {
      var p := u[..|u| - 1];
      HashIsPoly(p);
      StepIsPoly(HashUnits(p), u[|u| - 1]);
      ReducedStep(HashUnits(p), Poly(p), u[|u| - 1]);
    }
  }

  /** UTF-16 encoding works character by character. */
  lemma {:induction false} Utf16Concat(a: string, b: string)
    ensures Utf16(a + b) == Utf16(a) + Utf16(b)
  {
    if |a| == 0 {
      assert a + b == b;
    } else {
      assert (a + b)[0] == a[0];
      assert (a + b)[1..] == a[1..] + b;
      Utf16Concat(a[1..], b);
    }
  }

  /** One more character feeds its code units to the loop; a character
      below 0x10000 is one more code unit, its own code. */
  lemma HashAppendChar(s: string, c: char)
    ensures Utf16(s + [c]) == Utf16(s) + CodeUnits(c)
    ensures (c as int) < 0x10000 ==> Utf16(s + [c]) == Utf16(s) + [c as int]
  {
    Utf16Concat(s, [c]);
    Utf16Single(c);
  }

  lemma Utf16Single(c: char)
    ensures Utf16([c]) == CodeUnits(c)
  {
    assert [c][1..] == [];
  }

  /** One more code unit is one more step of the loop:
      `hashCode(s + c) == ToInt32(31 * hashCode(s) + code(c))`. */
  lemma HashSnoc(u: seq<int>, x: int)
    ensures HashUnits(u + [x]) == ToInt32(31 * HashUnits(u) + x)
  {
    assert (u + [x])[..|u|] == u;
    StepIsPoly(HashUnits(u), x);
  }

  /** `hashCode(str)`: 0 for the empty string. */
  method HashCode(s: string) returns (h: int)
    ensures h == HashUnits(Utf16(s))
    ensures IsInt32(h)
    ensures s == "" ==> h == 0
  {
    var u := Utf16(s);
    h := 0;
    var i := 0;
    while i < |u|
      invariant 0 <= i <= |u|
      invariant h == HashUnits(u[..i])
    {
      assert u[..i + 1][..i] == u[..i];
      h := Step(h, u[i]);
      i := i + 1;
    }
    assert u[..|u|] == u;
  }

  // ---------------------------------------------------------------------
  // getRotation

  const DefaultMaxDeg: real := 4.0

  /** JavaScript's `h % 1000` on an integer: the remainder truncated toward
      zero, so it takes the sign of the dividend (Dafny's own `%` never
      returns a negative value). */
  function JsRem1000(a: int): (r: int)
    ensures -1000 < r < 1000
    ensures a >= 0 ==> 0 <= r
    ensures a <= 0 ==> r <= 0
    ensures (a - r) % 1000 == 0
  {
    if a >= 0 then
      WholeThousands(a);
      a % 1000
    else
      WholeThousands(-a);
      -((-a) % 1000)
  }

  /** Taking away the remainder leaves whole thousands, of either sign. */
  lemma WholeThousands(n: nat)
    ensures (n - n % 1000) % 1000 == 0
    ensures (n % 1000 - n) % 1000 == 0
  {
    var q := n / 1000;
    assert n - n % 1000 == 1000 * q;
    assert n % 1000 - n == 1000 * (-q);
  }

  /** The rotation for a hash value: `(h % 1000) / 1000 * maxDeg`. */
  function Scale(h: int, maxDeg: real): real
  {
    (JsRem1000(h) as real / 1000.0) * maxDeg
  }

  /** `getRotation(id, maxDeg)`, on exact reals. */
  function Rotation(id: string, maxDeg: real): real
  {
    Scale(HashUnits(Utf16(id)), maxDeg)
  }

  lemma ScaleBelow(f: real, g: real, m: real)
    requires f <= g && m >= 0.0
    ensures f * m <= g * m
  {
  }

  /** A factor within 0.999 either way scales a non-negative maximum to
      within 0.999 of it, keeping its sign. */
  lemma FactorBounds(f: real, m: real)
    requires -0.999 <= f <= 0.999 && m >= 0.0
    ensures -0.999 * m <= f * m <= 0.999 * m
    ensures f >= 0.0 ==> f * m >= 0.0
    ensures f <= 0.0 ==> f * m <= 0.0
  {
    ScaleBelow(f, 0.999, m);
    ScaleBelow(-0.999, f, m);
    if f >= 0.0 {
      ScaleBelow(0.0, f, m);
    } else {
      ScaleBelow(f, 0.0, m);
    }
  }

  /** The scaled value stays strictly inside `[-maxDeg, maxDeg]` (within
      0.999 of it), and leans the way the hash's sign says. */
  lemma ScaleBounds(h: int, maxDeg: real)
    requires maxDeg >= 0.0
    ensures -0.999 * maxDeg <= Scale(h, maxDeg) <= 0.999 * maxDeg
    ensures h >= 0 ==> Scale(h, maxDeg) >= 0.0
    ensures h <= 0 ==> Scale(h, maxDeg) <= 0.0
  {
    var f := JsRem1000(h) as real / 1000.0;
    FactorBounds(f, maxDeg);
  }

  /** Every card's rotation lies within the given maximum, and with the
      default maximum within 4 degrees either way. */
  lemma RotationBounds(id: string, maxDeg: real)
    requires maxDeg >= 0.0
    ensures -maxDeg <= Rotation(id, maxDeg) <= maxDeg
    ensures -DefaultMaxDeg < Rotation(id, DefaultMaxDeg) < DefaultMaxDeg
  {
    ScaleBounds(HashUnits(Utf16(id)), maxDeg);
    ScaleBounds(HashUnits(Utf16(id)), DefaultMaxDeg);
  }
}
