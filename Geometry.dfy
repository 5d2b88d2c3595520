/** Integer geometry used by the drag controller: JavaScript's remainder,
    the snap grid, the bounds check of one axis and the surface size. */
module Geometry {

  function Abs(x: int): (r: nat)
    ensures r == x || r == -x
  {
    if x < 0 then -x else x
  }

  /** JavaScript's `%` on integers: a truncated remainder, which takes the
      sign of the dividend and the magnitude `|a| % |b|` (Dafny's `%` is
      Euclidean and never negative). */
  function JsRem(a: int, b: int): (r: int)
    requires b != 0
    ensures Abs(r) < Abs(b)
    ensures Abs(r) <= Abs(a)
    ensures a >= 0 ==> r >= 0
    ensures a <= 0 ==> r <= 0
    ensures (a - r) % b == 0
  {
    var m := Abs(a) % Abs(b);
    ModAtMost(Abs(a), Abs(b));
    assert Abs(a) - m == Abs(b) * (Abs(a) / Abs(b));
    ModOfMultiple(Abs(b), Abs(a) / Abs(b));
    MultipleOfAbs(Abs(a) - m, b);
    if a < 0 then -m else m
  }

  lemma ModAtMost(x: nat, y: nat)
    requires y > 0
    ensures x % y <= x
  {
    var q := x / y;
    assert x == y * q + x % y;
    if q > 0 {
      MulMonotone(y, q);
    }
  }

  /** A non-zero multiple of `b` is at least `|b|` away from zero. */
  lemma MulAwayFromZero(b: int, k: int)
    requires b != 0 && k != 0
    ensures Abs(b * k) >= Abs(b)
  {
    var p := Abs(b) * Abs(k);
    MulMonotone(Abs(b), Abs(k));
    assert b * k == p || b * k == -p by {
      if b < 0 && k < 0 { assert b * k == (-b) * (-k); }
      else if b < 0 { assert b * k == -((-b) * k); }
      else if k < 0 { assert b * k == -(b * (-k)); }
    }
  }

  lemma MulMonotone(a: nat, k: int)
    requires k >= 1
    ensures a * k >= a
  {
    assert a * k == a + a * (k - 1);
  }

  /** Every product `b * q` is a multiple of `b`. */
  lemma ModOfMultiple(b: int, q: int)
    requires b != 0
    ensures (b * q) % b == 0
  {
    var x := b * q;
    var d, m := x / b, x % b;
    assert x == b * d + m;
    var k := q - d;
    assert m == b * k;
    if k != 0 {
      MulAwayFromZero(b, k);
    }
  }

  /** The only multiple of `b` strictly closer to zero than `|b|` is zero. */
  lemma SmallMultipleIsZero(x: int, b: int)
    requires b != 0
    requires x % b == 0
    requires Abs(x) < Abs(b)
    ensures x == 0
  {
    var k := x / b;
    assert x == b * k;
    if k != 0 {
      MulAwayFromZero(b, k);
    }
  }

  /** A multiple of `|b|`, or the negation of one, is a multiple of `b`. */
  lemma MultipleOfAbs(x: int, b: int)
    requires b != 0
    requires x % Abs(b) == 0
    ensures x % b == 0 && (-x) % b == 0
  {
    var k := x / Abs(b);
    assert x == Abs(b) * k;
    if b < 0 {
      assert x == b * (-k);
      assert -x == b * k;
      ModOfMultiple(b, -k);
      ModOfMultiple(b, k);
    } else {
      assert -x == b * (-k);
      ModOfMultiple(b, k);
      ModOfMultiple(b, -k);
    }
  }

  /** The difference of two multiples of `b` is a multiple of `b`. */
  lemma DifferenceOfMultiples(x: int, y: int, b: int)
    requires b != 0
    requires x % b == 0 && y % b == 0
    ensures (x - y) % b == 0
  {
    var i, j := x / b, y / b;
    assert x == b * i && y == b * j;
    assert x - y == b * (i - j);
    ModOfMultiple(b, i - j);
  }

  /** The contract of JsRem determines it: any value with the same bound,
      sign and congruence is the truncated remainder. */
  lemma JsRemUnique(a: int, b: int, r: int)
    requires b != 0
    requires Abs(r) < Abs(b)
    requires a > 0 ==> r >= 0
    requires a < 0 ==> r <= 0
    requires (a - r) % b == 0
    ensures r == JsRem(a, b)
  {
    var q := JsRem(a, b);
    DifferenceOfMultiples(a - r, a - q, b);
    assert (a - r) - (a - q) == q - r;
    SmallMultipleIsZero(q - r, b);
  }

  /** For a non-negative dividend and a positive divisor JavaScript and Dafny agree. */
  lemma JsRemOfNonNegative(a: int, b: int)
    requires a >= 0 && b > 0
    ensures JsRem(a, b) == a % b
  {
  }

  /** For a negative dividend that is not a multiple, the two remainders
      differ by exactly the divisor. */
  lemma JsRemOfNegative(a: int, b: int)
    requires a < 0 && b > 0 && a % b != 0
    ensures JsRem(a, b) == a % b - b
  {
    var r := a % b - b;
    assert (a - r) % b == 0 by {
      assert a - r == b * (a / b) + b;
      assert a - r == b * (a / b + 1);
      ModOfMultiple(b, a / b + 1);
    }
    JsRemUnique(a, b, r);
  }

  /** The snapped coordinate `raw - raw % snap` written by a pointer move:
      the grid point next to `raw` on the side of zero. */
  function Snap(raw: int, size: int): (r: int)
    requires size != 0
    ensures r % size == 0
    ensures raw >= 0 ==> 0 <= r <= raw
    ensures raw <= 0 ==> raw <= r <= 0
    ensures Abs(raw - r) < Abs(size)
  {
    var q := JsRem(raw, size);
    assert raw - (raw - q) == q;
    assert raw >= 0 ==> 0 <= q <= raw;
    assert raw <= 0 ==> raw <= q <= 0;
    raw - q
  }

  /** No grid point lies strictly between the snapped value and `raw`, so
      Snap picks the grid point nearest to `raw` among those no farther
      from zero than `raw`. */
  lemma SnapIsNearestTowardZero(raw: int, size: int, m: int)
    requires size != 0
    requires m % size == 0
    requires 0 <= m <= raw || raw <= m <= 0
    ensures Abs(m) <= Abs(Snap(raw, size))
  {
    var s := Snap(raw, size);
    if Abs(m) > Abs(s) {
      DifferenceOfMultiples(m, s, size);
      SmallMultipleIsZero(m - s, size);
    }
  }

  /** A value already on the grid is left where it is. */
  lemma SnapFixesGridPoints(raw: int, size: int)
    requires size != 0
    requires raw % size == 0
    ensures Snap(raw, size) == raw
  {
    JsRemUnique(raw, size, 0);
  }

  lemma SnapIdempotent(raw: int, size: int)
    requires size != 0
    ensures Snap(Snap(raw, size), size) == Snap(raw, size)
  {
    SnapFixesGridPoints(Snap(raw, size), size);
  }

  /** The bounds check of one axis during a move: the floor is tested
      against the raw pointer-relative coordinate `raw`, the trailing edge
      against the position `pos` already written in the same event (after
      any floor write), and `size` is the element's extent on that axis. */
  function Clamp(pos: int, raw: int, lo: int, hi: int, size: int): (r: int)
    ensures r + size <= hi
    ensures raw <= lo && lo + size < hi ==> r == lo
    ensures raw <= lo && lo + size >= hi ==> r == hi - size
    ensures lo < raw && pos + size < hi ==> r == pos
    ensures lo < raw && pos + size >= hi ==> r == hi - size
    ensures r == lo || r == pos || r == hi - size
  {
    var p := if raw <= lo then lo else pos;
    if p + size >= hi then hi - size else p
  }

  /** The surface size of one dimension: the larger of the document's
      scroll extent and the viewport's client extent. */
  function SurfaceExtent(scroll: int, client: int): (r: int)
    ensures r >= scroll && r >= client
    ensures r == scroll || r == client
  {
    if scroll > client then scroll else client
  }
}
