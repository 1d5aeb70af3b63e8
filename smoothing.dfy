/**
  TanhSmoothing (tladder.cc lines 72-111): a profile over the ladder's nx rungs
  that is 1 in the bulk and falls smoothly toward the two ends, used to taper
  the long-range couplings. Reals stand in for the source's floating point,
  and tanh, a transcendental function, is a parameter.
*/
module Smoothing {

  import opened Options

  datatype TanhSmoothing = TanhSmoothing(nx: real, xi: real)

  function Abs(x: real): real
  {
    if x < 0.0 then -x else x
  }

  /** The constructor: it keeps |xi| and refuses a zero width. */
  function MakeSmoothing(nx: real, xi: real): (r: Option<TanhSmoothing>)
    ensures r.None? <==> xi == 0.0
    ensures r.Some? ==> r.value.nx == nx && r.value.xi > 0.0 && (r.value.xi == xi || r.value.xi == -xi)
  {
    if Abs(xi) == 0.0 then None else Some(TanhSmoothing(nx, Abs(xi)))
  }

  function Min(a: real, b: real): real
  {
    if a <= b then a else b
  }

  /**
    The offset distance of rung j from the nearer end of the ladder, as
    call() computes it. On whole-numbered rungs it is 2 plus the number of
    rungs between j and the nearer end, except at rung nx/2 of an even
    ladder, which the comparison j < nx/2 sends to the far end's formula.
  */
  function DistanceToEnd(nx: real, j: real): (d: real)
    ensures j == j.Floor as real && nx == nx.Floor as real ==>
              d == 2.0 + Min(j - 1.0, nx - j) + (if j == nx / 2.0 then 1.0 else 0.0)
  {
    WholeRungs(nx.Floor, j.Floor);
    2.0 + (if j < nx / 2.0 then j - 1.0 else nx - j)
  }

  /** Past the middle of a ladder of whole rungs, the far end is at most as far as the near one. */
  lemma WholeRungs(nx: int, j: int)
    ensures (j as real) < (nx as real) / 2.0 ==> j - 1 < nx - j
    ensures (j as real) > (nx as real) / 2.0 ==> nx - j <= j - 1
  {
  }

  /** The argument of tanh in the interior branch of y. */
  function TanhArgument(x: real): real
    requires 0.0 < x < 1.0
  {
    (x - 0.5) / (x * (1.0 - x))
  }

  /** y: 1 at and below 0, 0 at and above 1, 0.5 * (1 - tanh(...)) in between. */
  function Y(tanh: real -> real, x: real): (y: real)
    ensures x <= 0.0 ==> y == 1.0
    ensures x >= 1.0 ==> y == 0.0
    ensures x == 0.5 ==> y == 0.5 * (1.0 - tanh(0.0))
  {
    assert TanhArgument(0.5) == 0.0;
    if x <= 0.0 then 1.0
    else if x >= 1.0 then 0.0
    else 0.5 * (1.0 - tanh(TanhArgument(x)))
  }

  /** call(j): the profile value at rung j. */
  function Call(s: TanhSmoothing, tanh: real -> real, j: real): (c: real)
    requires s.xi != 0.0
    ensures s.xi > 0.0 && DistanceToEnd(s.nx, j) >= s.xi ==> c == 1.0
  {
    Y(tanh, 1.0 - DistanceToEnd(s.nx, j) / s.xi)
  }

  ghost predicate InUnitRange(f: real -> real)
  {
    forall z :: -1.0 <= f(z) <= 1.0
  }

  ghost predicate Nondecreasing(f: real -> real)
  {
    forall a, b :: a <= b ==> f(a) <= f(b)
  }

  /** Rungs 1..nx are at offset distance at least 2 from the nearer end. */
  lemma DistanceAtLeastTwo(nx: real, j: real)
    requires 1.0 <= j <= nx
    ensures DistanceToEnd(nx, j) >= 2.0
  {
  }

  /**
    The offset distance is mirror-symmetric, DistanceToEnd(j) == DistanceToEnd(nx + 1 - j),
    except at the centre of a ladder with an even number of rungs, where the
    comparison j < nx/2 sends rung nx/2 to the right-hand formula and gives it
    one more than its mirror rung nx/2 + 1.
  */
  lemma DistanceMirror(nx: int, j: int)
    requires 1 <= j <= nx
    ensures (nx % 2 == 0 && (j == nx / 2 || j == nx / 2 + 1)) ||
            DistanceToEnd(nx as real, j as real) == DistanceToEnd(nx as real, (nx + 1 - j) as real)
    ensures nx % 2 == 0 && j == nx / 2 ==>
              DistanceToEnd(nx as real, j as real) == DistanceToEnd(nx as real, (j + 1) as real) + 1.0
  {
    var r := nx as real / 2.0;
    if nx % 2 == 0 {
      assert r == (nx / 2) as real;
    } else {
      assert r == (nx / 2) as real + 0.5;
    }
  }

  /** 0.5 * (1 - t) lies in [0, 1] when t lies in [-1, 1]. */
  lemma YInUnitInterval(tanh: real -> real, x: real)
    requires InUnitRange(tanh)
    ensures 0.0 <= Y(tanh, x) <= 1.0
  {
    if 0.0 < x < 1.0 {
      var t := tanh(TanhArgument(x));
      assert -1.0 <= t <= 1.0;
    }
  }

  /** The tanh argument is 0.5/(1 - x) - 0.5/x, a sum of two increasing terms. */
  lemma TanhArgumentSplit(x: real)
    requires 0.0 < x < 1.0
    ensures TanhArgument(x) == 0.5 / (1.0 - x) - 0.5 / x
  {
    var d := x * (1.0 - x);
    assert d > 0.0;
    assert 0.5 / (1.0 - x) == 0.5 * x / d;
    assert 0.5 / x == 0.5 * (1.0 - x) / d;
    assert 0.5 * x / d - 0.5 * (1.0 - x) / d == (x - 0.5) / d;
  }

  /** 1/a shrinks as a positive a grows. */
  lemma ReciprocalAntitone(a: real, b: real)
    requires 0.0 < a <= b
    ensures 1.0 / b <= 1.0 / a
  {
    assert (1.0 / b) * b == 1.0;
    assert (1.0 / a) * a == 1.0;
    assert 1.0 / b * a <= 1.0 / b * b;
  }

  /** Dividing by a positive c keeps the order. */
  lemma DivideMonotone(a: real, b: real, c: real)
    requires a <= b && c > 0.0
    ensures a / c <= b / c
  {
    assert (b - a) / c >= 0.0;
    assert b / c - a / c == (b - a) / c;
  }

  /** The tanh argument increases on (0, 1). */
  lemma TanhArgumentMonotone(x1: real, x2: real)
    requires 0.0 < x1 <= x2 < 1.0
    ensures TanhArgument(x1) <= TanhArgument(x2)
  {
    TanhArgumentSplit(x1);
    TanhArgumentSplit(x2);
    ReciprocalAntitone(1.0 - x2, 1.0 - x1);
    ReciprocalAntitone(x1, x2);
    assert 0.5 / (1.0 - x1) == 0.5 * (1.0 / (1.0 - x1));
    assert 0.5 / (1.0 - x2) == 0.5 * (1.0 / (1.0 - x2));
    assert 0.5 / x1 == 0.5 * (1.0 / x1);
    assert 0.5 / x2 == 0.5 * (1.0 / x2);
  }

  /** For a nondecreasing tanh with values in [-1, 1], y never increases. */
  lemma YNonincreasing(tanh: real -> real, x1: real, x2: real)
    requires InUnitRange(tanh) && Nondecreasing(tanh)
    requires x1 <= x2
    ensures Y(tanh, x2) <= Y(tanh, x1)
  {
    YInUnitInterval(tanh, x1);
    YInUnitInterval(tanh, x2);
    if 0.0 < x1 && x2 < 1.0 {
      TanhArgumentMonotone(x1, x2);
      assert tanh(TanhArgument(x1)) <= tanh(TanhArgument(x2));
    }
  }

  /** For a nondecreasing tanh with values in [-1, 1], the profile never decreases away from the ends. */
  lemma CallMonotone(s: TanhSmoothing, tanh: real -> real, j1: real, j2: real)
    requires s.xi > 0.0
    requires InUnitRange(tanh) && Nondecreasing(tanh)
    requires DistanceToEnd(s.nx, j1) <= DistanceToEnd(s.nx, j2)
    ensures Call(s, tanh, j1) <= Call(s, tanh, j2)
  {
    var d1 := DistanceToEnd(s.nx, j1);
    var d2 := DistanceToEnd(s.nx, j2);
    DivideMonotone(d1, d2, s.xi);
    YNonincreasing(tanh, 1.0 - d2 / s.xi, 1.0 - d1 / s.xi);
  }

  /**
    On the rungs 1..nx the profile stays strictly above 0: the offset distance
    is at least 2, so the argument of y stays below 1.
  */
  lemma CallPositive(s: TanhSmoothing, tanh: real -> real, j: real)
    requires s.xi > 0.0
    requires forall z :: -1.0 < tanh(z) < 1.0
    requires 1.0 <= j <= s.nx
    ensures 0.0 < Call(s, tanh, j) <= 1.0
  {
    var d := DistanceToEnd(s.nx, j);
    assert d / s.xi > 0.0;
    var x := 1.0 - d / s.xi;
    if 0.0 < x {
      var t := tanh(TanhArgument(x));
      assert -1.0 < t < 1.0;
    }
  }
}
