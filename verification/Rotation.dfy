/**
  The in-place Walsh-Hadamard rotation of the vector index, over exact reals. Rounding is left out; the
  scale factor 1/sqrt(N) is a parameter `c`, and the laws assume c * c * N == 1.
*/
module Rotation {

  import opened Arithmetic

  type Vector = seq<real>

  function Plus(u: Vector, v: Vector): (w: Vector)
    requires |u| == |v|
    ensures |w| == |u| && forall i :: 0 <= i < |u| ==> w[i] == u[i] + v[i]
  {
    seq(|u|, i requires 0 <= i < |u| => u[i] + v[i])
  }

  function Minus(u: Vector, v: Vector): (w: Vector)
    requires |u| == |v|
    ensures |w| == |u| && forall i :: 0 <= i < |u| ==> w[i] == u[i] - v[i]
  {
    seq(|u|, i requires 0 <= i < |u| => u[i] - v[i])
  }

  function Scale(c: real, v: Vector): (w: Vector)
    ensures |w| == |v| && forall i :: 0 <= i < |v| ==> w[i] == c * v[i]
  {
    seq(|v|, i requires 0 <= i < |v| => c * v[i])
  }

  function Dot(u: Vector, v: Vector): real
    requires |u| == |v|
  {
    if u == [] then 0.0 else u[0] * v[0] + Dot(u[1..], v[1..])
  }

  /** One butterfly: sums of the two halves, then differences. */
  function Combine(u: Vector, v: Vector): (w: Vector)
    requires |u| == |v|
    ensures |w| == 2 * |u|
    ensures forall i :: 0 <= i < |u| ==> w[i] == u[i] + v[i]
    ensures forall i :: |u| <= i < 2 * |u| ==> w[i] == u[i - |u|] - v[i - |u|]
  {
    Plus(u, v) + Minus(u, v)
  }

  lemma PlusJoin(a: Vector, b: Vector, c: Vector, d: Vector)
    requires |a| == |c| && |b| == |d|
    ensures Plus(a + b, c + d) == Plus(a, c) + Plus(b, d) && Minus(a + b, c + d) == Minus(a, c) + Minus(b, d)
  {
    hide Plus, Minus;
  }

  lemma ScaleJoin(c: real, a: Vector, b: Vector)
    ensures Scale(c, a + b) == Scale(c, a) + Scale(c, b)
  {
    hide Scale;
    var x, y := Scale(c, a + b), Scale(c, a) + Scale(c, b);
    forall i | 0 <= i < |x| ensures x[i] == y[i] {
      assert (a + b)[i] == if i < |a| then a[i] else b[i - |a|];
    }
  }

  /** The transform: transform both halves, then combine them. */
  function W(v: Vector): (w: Vector)
    requires PowerOfTwo(|v|)
    ensures |w| == |v|
    decreases |v|
  {
    if |v| == 1 then v
    else Combine(W(v[..|v| / 2]), W(v[|v| / 2..]))
  }

  lemma Unit(v: Vector)
    requires |v| == 1
    ensures PowerOfTwo(|v|) && W(v) == v
  {
  }

  lemma TransformOfHalves(x: Vector, y: Vector)
    requires |x| == |y| && PowerOfTwo(|x|)
    ensures PowerOfTwo(|x + y|) && W(x + y) == Combine(W(x), W(y))
  {
    var v := x + y;
    assert |v| / 2 == |x| && v[..|x|] == x && v[|x|..] == y;
  }

  /** A longer vector of power-of-two length has two such halves. */
  lemma Halves(v: Vector) returns (x: Vector, y: Vector)
    requires PowerOfTwo(|v|) && |v| > 1
    ensures |x| == |y| && |v| == 2 * |x| && PowerOfTwo(|x|) && v == x + y
    ensures W(v) == Combine(W(x), W(y))
  {
    x, y := v[..|v| / 2], v[|v| / 2..];
    TransformOfHalves(x, y);
  }

  // ---------- the transform as a matrix ----------

  /** The sign of entry (i, j) of the Hadamard matrix: -1 to the number of common one bits. */
  function Sign(i: nat, j: nat): real {
    if i == 0 || j == 0 then 1.0
    else (if i % 2 == 1 && j % 2 == 1 then -1.0 else 1.0) * Sign(i / 2, j / 2)
  }

  lemma {:induction false} SignHalves(n: nat, i: nat, j: nat)
    requires PowerOfTwo(n) && i < n && j < n
    ensures Sign(i + n, j) == Sign(i, j) && Sign(i, j + n) == Sign(i, j) && Sign(i + n, j + n) == -Sign(i, j)
  {
    if n == 1 {
      assert Sign(1, 1) == -1.0 * Sign(0, 0);
    } else {
      SignHalves(n / 2, i / 2, j / 2);
      assert (i + n) / 2 == i / 2 + n / 2 && (i + n) % 2 == i % 2;
      assert (j + n) / 2 == j / 2 + n / 2 && (j + n) % 2 == j % 2;
      if i == 0 || j == 0 {
        assert Sign(i / 2, j / 2) == 1.0;
      }
    }
  }

  /** Row i of the matrix, from column `from` on, times v. */
  function Row(i: nat, from: nat, v: Vector): real
    decreases |v|
  {
    if v == [] then 0.0 else Sign(i, from) * v[0] + Row(i, from + 1, v[1..])
  }

  lemma {:induction false} RowSplit(i: nat, from: nat, u: Vector, v: Vector)
    ensures Row(i, from, u + v) == Row(i, from, u) + Row(i, from + |u|, v)
    decreases |u|
  {
    if u == [] {
      assert u + v == v;
    } else {
      assert (u + v)[1..] == u[1..] + v;
      RowSplit(i, from + 1, u[1..], v);
    }
  }

  lemma {:induction false} RowHalves(n: nat, i: nat, from: nat, v: Vector)
    requires PowerOfTwo(n) && i < n && from + |v| <= n
    ensures Row(i + n, from, v) == Row(i, from, v)
    ensures Row(i, from + n, v) == Row(i, from, v)
    ensures Row(i + n, from + n, v) == -Row(i, from, v)
    decreases |v|
  {
    hide PowerOfTwo, Sign;
    if v != [] {
      SignHalves(n, i, from);
      RowHalves(n, i, from + 1, v[1..]);
      Opposite(Sign(i, from), v[0]);
    }
  }

  lemma Opposite(a: real, b: real)
    ensures (-a) * b == -(a * b)
  {
  }

  lemma UnitRow(v: Vector)
    requires |v| == 1
    ensures Row(0, 0, v) == v[0]
  {
    assert Row(0, 0, v) == Sign(0, 0) * v[0] + Row(0, 1, v[1..]);
  }

  /** Every coordinate of the transform is the matrix row times the vector. */
  lemma {:induction false} TransformIsMatrix(v: Vector, i: nat)
    requires PowerOfTwo(|v|) && i < |v|
    ensures W(v)[i] == Row(i, 0, v)
    decreases |v|
  {
    hide W, PowerOfTwo, Row, Sign, Combine;
    if |v| == 1 {
      Unit(v);
      UnitRow(v);
    } else {
      var a, b := Halves(v);
      var n := |a|;
      var k := if i < n then i else i - n;
      TransformIsMatrix(a, k);
      TransformIsMatrix(b, k);
      RowSplit(i, 0, a, b);
      RowHalves(n, k, 0, a);
      RowHalves(n, k, 0, b);
    }
  }

  // ---------- linearity and self-inversion ----------

  lemma {:induction false} Linear(u: Vector, v: Vector)
    requires |u| == |v| && PowerOfTwo(|u|)
    ensures W(Plus(u, v)) == Plus(W(u), W(v)) && W(Minus(u, v)) == Minus(W(u), W(v))
    decreases |u|
  {
    hide W, PowerOfTwo, Combine, Plus, Minus;
    if |u| == 1 {
      Unit(u);
      Unit(v);
      Unit(Plus(u, v));
      Unit(Minus(u, v));
    } else {
      PowerAtLeast(|u|);
      var a, b := Halves(u);
      var c, d := Halves(v);
      Linear(a, c);
      Linear(b, d);
      PlusJoin(a, b, c, d);
      TransformOfHalves(Plus(a, c), Plus(b, d));
      TransformOfHalves(Minus(a, c), Minus(b, d));
      CombineLinear(W(a), W(c), W(b), W(d));
    }
  }

  lemma PowerAtLeast(n: nat)
    requires PowerOfTwo(n)
    ensures n >= 1
  {
  }

  lemma CombineLinear(a: Vector, b: Vector, c: Vector, d: Vector)
    requires |a| == |b| == |c| == |d|
    ensures Combine(Plus(a, b), Plus(c, d)) == Plus(Combine(a, c), Combine(b, d))
    ensures Combine(Minus(a, b), Minus(c, d)) == Minus(Combine(a, c), Combine(b, d))
  {
    hide Plus, Minus, Combine;
  }

  lemma {:induction false} Homogeneous(c: real, v: Vector)
    requires PowerOfTwo(|v|)
    ensures W(Scale(c, v)) == Scale(c, W(v))
    decreases |v|
  {
    hide W, PowerOfTwo, Combine, Scale;
    if |v| == 1 {
      Unit(v);
      Unit(Scale(c, v));
    } else {
      PowerAtLeast(|v|);
      var a, b := Halves(v);
      Homogeneous(c, a);
      Homogeneous(c, b);
      ScaleJoin(c, a, b);
      TransformOfHalves(Scale(c, a), Scale(c, b));
      CombineScale(c, W(a), W(b));
    }
  }

  lemma CombineScale(c: real, a: Vector, b: Vector)
    requires |a| == |b|
    ensures Combine(Scale(c, a), Scale(c, b)) == Scale(c, Combine(a, b))
  {
    hide Scale, Combine;
    var x, y := Combine(Scale(c, a), Scale(c, b)), Scale(c, Combine(a, b));
    forall i | 0 <= i < |x| ensures x[i] == y[i] {
      var k := if i < |a| then i else i - |a|;
      Spread(c, a[k], b[k]);
    }
  }

  lemma Spread(c: real, x: real, y: real)
    ensures c * x + c * y == c * (x + y) && c * x - c * y == c * (x - y)
  {
  }

  /** Transforming twice multiplies by the length. */
  lemma {:induction false} SelfInverse(v: Vector)
    requires PowerOfTwo(|v|)
    ensures W(W(v)) == Scale(|v| as real, v)
    decreases |v|
  {
    hide W, PowerOfTwo, Combine, Plus, Minus, Scale;
    if |v| == 1 {
      Unit(v);
      assert Scale(1.0, v) == v;
    } else {
      PowerAtLeast(|v|);
      var x, y := Halves(v);
      var a, b := W(x), W(y);
      SelfInverse(x);
      SelfInverse(y);
      Linear(a, b);
      CombineJoins(a, b);
      TransformOfHalves(Plus(a, b), Minus(a, b));
      CombineTwice(W(a), W(b));
      Doubled(x, |x|);
      Doubled(y, |x|);
      ScaleJoin(|v| as real, x, y);
    }
  }

  lemma CombineJoins(a: Vector, b: Vector)
    requires |a| == |b|
    ensures Combine(a, b) == Plus(a, b) + Minus(a, b)
  {
  }

  lemma CombineTwice(a: Vector, b: Vector)
    requires |a| == |b|
    ensures Combine(Plus(a, b), Minus(a, b)) == Scale(2.0, a) + Scale(2.0, b)
  {
    hide Plus, Minus, Scale, Combine;
  }

  lemma Doubled(x: Vector, n: nat)
    ensures Scale((2 * n) as real, x) == Scale(2.0, Scale(n as real, x))
  {
    hide Scale;
    var u, v := Scale((2 * n) as real, x), Scale(2.0, Scale(n as real, x));
    forall i | 0 <= i < |u| ensures u[i] == v[i] {
      Double(n as real, x[i]);
    }
  }

  lemma Double(n: real, x: real)
    ensures (2.0 * n) * x == 2.0 * (n * x)
  {
  }

  // ---------- inner products ----------

  lemma {:induction false} DotSplit(a: Vector, b: Vector, c: Vector, d: Vector)
    requires |a| == |c| && |b| == |d|
    ensures Dot(a + b, c + d) == Dot(a, c) + Dot(b, d)
  {
    if a == [] {
      assert a + b == b && c + d == d;
    } else {
      assert (a + b)[1..] == a[1..] + b && (c + d)[1..] == c[1..] + d;
      DotSplit(a[1..], b, c[1..], d);
    }
  }

  lemma {:induction false} DotCombine(a: Vector, b: Vector, c: Vector, d: Vector)
    requires |a| == |b| == |c| == |d|
    ensures Dot(Plus(a, b), Plus(c, d)) + Dot(Minus(a, b), Minus(c, d)) == 2.0 * (Dot(a, c) + Dot(b, d))
  {
    if a != [] {
      DotCombine(a[1..], b[1..], c[1..], d[1..]);
      assert Plus(a, b)[1..] == Plus(a[1..], b[1..]) && Plus(c, d)[1..] == Plus(c[1..], d[1..]);
      assert Minus(a, b)[1..] == Minus(a[1..], b[1..]) && Minus(c, d)[1..] == Minus(c[1..], d[1..]);
      Square(a[0], b[0], c[0], d[0]);
    }
  }

  lemma Square(a: real, b: real, c: real, d: real)
    ensures (a + b) * (c + d) + (a - b) * (c - d) == 2.0 * (a * c + b * d)
  {
  }

  /** Inner products grow by the length, so the scaled rotation keeps them. */
  lemma {:induction false} Parseval(u: Vector, v: Vector)
    requires |u| == |v| && PowerOfTwo(|u|)
    ensures Dot(W(u), W(v)) == (|u| as real) * Dot(u, v)
    decreases |u|
  {
    hide W, PowerOfTwo, Dot, Combine, Plus, Minus;
    if |u| == 1 {
      Unit(u);
      Unit(v);
    } else {
      PowerAtLeast(|u|);
      var x, y := Halves(u);
      var z, t := Halves(v);
      var a, b, c, d := W(x), W(y), W(z), W(t);
      Parseval(x, z);
      Parseval(y, t);
      CombineJoins(a, b);
      CombineJoins(c, d);
      DotSplit(Plus(a, b), Minus(a, b), Plus(c, d), Minus(c, d));
      DotCombine(a, b, c, d);
      DotSplit(x, y, z, t);
      assert |u| as real == 2.0 * (|x| as real);
      DoubleSum(|x| as real, Dot(x, z), Dot(y, t));
    }
  }

  lemma DoubleSum(n: real, p: real, q: real)
    ensures 2.0 * (n * p + n * q) == (2.0 * n) * (p + q)
  {
  }

  // ---------- stages ----------

  /** One pass with stride h: a butterfly on every aligned block of 2h coordinates. */
  function Stage(v: Vector, h: nat): (w: Vector)
    requires h > 0
    ensures |w| == |v|
    decreases |v|
  {
    if |v| < 2 * h then v else Combine(v[..h], v[h..2 * h]) + Stage(v[2 * h..], h)
  }

  /** Every aligned block of h coordinates transformed on its own. */
  function BlockW(v: Vector, h: nat): (w: Vector)
    requires PowerOfTwo(h)
    ensures |w| == |v|
    decreases |v|
  {
    if |v| < h then v else W(v[..h]) + BlockW(v[h..], h)
  }

  lemma PowerPositive(n: nat)
    requires PowerOfTwo(n)
    ensures n > 0 && PowerOfTwo(2 * n)
  {
  }

  /** A pass turns transforms of blocks into transforms of blocks twice as long. */
  lemma {:induction false} StageDoubles(v: Vector, h: nat)
    requires PowerOfTwo(h) && Multiple(|v|, 2 * h)
    ensures PowerOfTwo(2 * h) && Stage(BlockW(v, h), h) == BlockW(v, 2 * h)
    decreases |v|
  {
    hide *;
    PowerPositive(h);
    if |v| > 0 {
      Block(|v|, 2 * h);
      var x, y, rest := v[..h], v[h..2 * h], v[2 * h..];
      StageDoubles(rest, h);
      BlockPair(x, y, rest, h);
      assert v == x + (y + rest);
    } else {
      NoBlocks(h);
      NoBlocks(2 * h);
      assert v == [];
    }
  }

  lemma BlockPair(x: Vector, y: Vector, rest: Vector, h: nat)
    requires h > 0 && PowerOfTwo(h) && PowerOfTwo(2 * h) && |x| == |y| == h
    requires Stage(BlockW(rest, h), h) == BlockW(rest, 2 * h)
    ensures Stage(BlockW(x + (y + rest), h), h) == BlockW(x + (y + rest), 2 * h)
  {
    hide *;
    BlockCons(x, y + rest, h);
    BlockCons(y, rest, h);
    TransformOfHalves(x, y);
    BlockCons(x + y, rest, 2 * h);
    assert x + y + rest == x + (y + rest);
    StageStep(W(x), W(y), BlockW(rest, h), h);
  }

  lemma NoBlocks(h: nat)
    requires PowerOfTwo(h)
    ensures h > 0 && BlockW([], h) == [] && Stage([], h) == []
  {
  }

  lemma BlockCons(x: Vector, rest: Vector, h: nat)
    requires PowerOfTwo(h) && |x| == h
    ensures BlockW(x + rest, h) == W(x) + BlockW(rest, h)
  {
    assert (x + rest)[..h] == x && (x + rest)[h..] == rest;
  }

  lemma StageStep(x: Vector, y: Vector, rest: Vector, h: nat)
    requires h > 0 && |x| == |y| == h
    ensures Stage(x + (y + rest), h) == Combine(x, y) + Stage(rest, h)
  {
    var v := x + (y + rest);
    assert v[..h] == x && v[h..2 * h] == y && v[2 * h..] == rest;
  }

  predicate Multiple(n: nat, m: nat) {
    m > 0 && n % m == 0
  }

  lemma Block(n: nat, m: nat)
    requires n > 0 && Multiple(n, m)
    ensures n >= m && Multiple(n - m, m)
  {
    Shift(n, -1, m);
  }

  lemma {:induction false} UnitBlocks(v: Vector)
    ensures BlockW(v, 1) == v
  {
    if |v| >= 1 {
      UnitBlocks(v[1..]);
      assert v == v[..1] + v[1..];
    }
  }

  lemma WholeBlock(v: Vector)
    requires PowerOfTwo(|v|)
    ensures BlockW(v, |v|) == W(v)
  {
    assert v[..|v|] == v && v[|v|..] == [];
  }

  lemma {:induction false} StrideDivides(h: nat, n: nat)
    requires PowerOfTwo(h) && PowerOfTwo(n) && h < n
    ensures Multiple(n, 2 * h)
  {
    if h > 1 {
      StrideDivides(h / 2, n / 2);
      var k := (n / 2) / h;
      assert n == (2 * h) * k;
      NoRemainder(2 * h, k);
    }
  }

  // ---------- the code ----------

  /** The inner loop: one butterfly on [i, i + 2h). */
  method Butterfly(a: array<real>, i: nat, h: nat)
    requires i + 2 * h <= a.Length
    modifies a
    ensures forall k :: 0 <= k < a.Length && !(i <= k < i + 2 * h) ==> a[k] == old(a[k])
    ensures a[i..i + 2 * h] == Combine(old(a[i..i + h]), old(a[i + h..i + 2 * h]))
  {
    hide Combine;
    ghost var v := a[..];
    ghost var z := Combine(v[i..i + h], v[i + h..i + 2 * h]);
    var j := i;
    while j < i + h
      invariant i <= j <= i + h
      invariant forall k :: 0 <= k < a.Length ==> a[k] == if i <= k < j || i + h <= k < j + h then z[k - i] else v[k]
    {
      CombineAt(v[i..i + h], v[i + h..i + 2 * h], j - i);
      var x, y := a[j], a[j + h];
      assert x == v[i..i + h][j - i] && y == v[i + h..i + 2 * h][j - i];
      a[j] := x + y;
      a[j + h] := x - y;
      j := j + 1;
    }
  }

  lemma CombineAt(x: Vector, y: Vector, k: nat)
    requires |x| == |y| && k < |x|
    ensures Combine(x, y)[k] == x[k] + y[k] && Combine(x, y)[k + |x|] == x[k] - y[k]
  {
  }

  /** The middle loop: one pass over the blocks that start before n; the last one may reach beyond. */
  method Pass(a: array<real>, n: nat, h: nat)
    requires h > 0 && Reach(n, 2 * h) <= a.Length
    modifies a
    ensures var m := Reach(n, 2 * h); a[..m] == Stage(old(a[..m]), h) && a[m..] == old(a[m..])
  {
    hide *;
    ghost var m := Reach(n, 2 * h);
    ghost var v, w := a[..m], a[m..];
    ReachFacts(n, 2 * h);
    var i := 0;
    assert a[0..m] == v && a[..0] == [];
    while i < n
      invariant 0 <= i <= m && Multiple(m - i, 2 * h) && a[m..] == w
      invariant a[..i] + Stage(a[i..m], h) == Stage(v, h)
    {
      Block(m - i, 2 * h);
      ghost var done, x, y, rest := a[..i], a[i..i + h], a[i + h..i + 2 * h], a[i + 2 * h..m];
      assert a[i..m] == x + (y + rest);
      StageStep(x, y, rest, h);
      Butterfly(a, i, h);
      assert a[..i] == done && a[i + 2 * h..m] == rest && a[m..] == w;
      assert a[..i + 2 * h] == a[..i] + a[i..i + 2 * h];
      i := i + 2 * h;
      assert done + (Combine(x, y) + Stage(rest, h)) == (done + Combine(x, y)) + Stage(rest, h);
    }
    SmallMultiple(m - i, 2 * h);
    NoStage(h);
    assert a[m..m] == [] && a[..m] + [] == a[..m];
  }

  lemma NoStage(h: nat)
    requires h > 0
    ensures Stage([], h) == []
  {
  }

  /** What a rotation by scale factor c makes of a vector. */
  function Rotated(v: Vector, c: real): (w: Vector)
    requires v == [] || PowerOfTwo(|v|)
    ensures |w| == |v|
  {
    if v == [] then [] else Scale(c, W(v))
  }

  /** The outer loop: passes with doubling stride. */
  method Transform(a: array<real>, n: nat)
    requires NextPower(n) <= a.Length
    modifies a
    ensures a[..] == Sweep(old(a[..]), n, 1)
  {
    hide *;
    ghost var v := a[..];
    OneIsPower();
    var h := 1;
    while h < n
      invariant PowerOfTwo(h) && 0 < h
      invariant NextPower(n) <= a.Length && Sweep(a[..], n, h) == Sweep(v, n, 1)
      decreases n - h
    {
      SweepStep(a[..], n, h);
      ghost var before, m := a[..], Reach(n, 2 * h);
      Pass(a, n, h);
      assert a[..] == a[..m] + a[m..];
      h := h * 2;
    }
    SweepEnd(a[..], n, h);
  }

  /** The rotation of the vector index: copy, transform in place, scale in place. */
  method RotateVector(input: Vector, output: array<real>, c: real)
    requires |input| <= output.Length && (input != [] ==> NextPower(|input|) <= output.Length)
    modifies output
    ensures input == [] ==> output[..] == old(output[..])
    ensures input != [] ==>
              var n, swept := |input|, Sweep(input + old(output[|input|..]), |input|, 1);
              output[..] == Scale(c, swept[..n]) + swept[n..]
    ensures PowerOfTwo(|input|) ==>
              output[..|input|] == Rotated(input, c) && output[|input|..] == old(output[|input|..])
  {
    hide *;
    var n := |input|;
    ghost var w := output[n..];
    var k := 0;
    while k < n
      invariant 0 <= k <= n && output[..k] == input[..k] && output[n..] == w
    {
      output[k] := input[k];
      k := k + 1;
    }
    assert output[..n] == input;
    assert output[..] == input + w;
    if n > 0 {
      Transform(output, n);
    }
    ghost var v, rest := output[..n], output[n..];
    k := 0;
    while k < n
      invariant 0 <= k <= n && output[n..] == rest
      invariant forall i :: 0 <= i < k ==> output[i] == Scale(c, v)[i]
      invariant forall i :: k <= i < n ==> output[i] == v[i]
    {
      output[k] := output[k] * c;
      k := k + 1;
    }
    assert output[..n] == Scale(c, v);
    assert output[..] == output[..n] + output[n..];
    if PowerOfTwo(n) {
      SweepIsTransform(input + w, n);
      RotatedMeans(input, c);
    }
  }

  // ---------- how far the passes reach ----------

  /** The end of the last block of m coordinates that starts before n. */
  function Reach(n: nat, m: nat): nat
    requires m > 0
  {
    if n == 0 then 0 else if n <= m then m else m + Reach(n - m, m)
  }

  lemma {:induction false} ReachFacts(n: nat, m: nat)
    requires m > 0
    ensures Multiple(Reach(n, m), m) && n <= Reach(n, m) < n + m
  {
    if n > m {
      ReachFacts(n - m, m);
      Shift(Reach(n - m, m), 1, m);
    } else if n > 0 {
      NoRemainder(m, 1);
    }
  }

  /** No block ends later than the first multiple at or after n. */
  lemma ReachLeast(n: nat, m: nat, p: nat)
    requires m > 0 && Multiple(p, m) && n <= p
    ensures Reach(n, m) <= p
  {
    ReachFacts(n, m);
    if p < Reach(n, m) {
      MultiplesApart(p, Reach(n, m), m);
    }
  }

  lemma SmallMultiple(x: nat, m: nat)
    requires Multiple(x, m) && x < m
    ensures x == 0
  {
  }

  function Above(h: nat, n: nat): nat
    requires h > 0
    decreases if h < n then n - h else 0
  {
    if h >= n then h else Above(2 * h, n)
  }

  /** The least power of two that is at least n. */
  function NextPower(n: nat): nat {
    Above(1, n)
  }

  lemma {:induction false} AboveFacts(h: nat, n: nat)
    requires PowerOfTwo(h) && (h == 1 || h < 2 * n)
    ensures PowerOfTwo(h) && h > 0
    ensures var p := Above(h, n); PowerOfTwo(p) && n <= p && (p == 1 || p < 2 * n)
    decreases if h < n then n - h else 0
  {
    PowerPositive(h);
    if h < n {
      AboveFacts(2 * h, n);
    }
  }

  lemma NextPowerFacts(n: nat)
    ensures var p := NextPower(n); PowerOfTwo(p) && n <= p && (p == 1 || p < 2 * n)
    ensures PowerOfTwo(n) ==> NextPower(n) == n
  {
    OneIsPower();
    AboveFacts(1, n);
    if PowerOfTwo(n) && NextPower(n) != n {
      StrideDivides(n, NextPower(n));
      MultipleAtLeast(NextPower(n), 2 * n);
    }
  }

  /** A pass stays below the next power of two. */
  lemma ReachBelow(n: nat, h: nat)
    requires PowerOfTwo(h) && h < n
    ensures h > 0 && Reach(n, 2 * h) <= NextPower(n)
  {
    PowerPositive(h);
    NextPowerFacts(n);
    StrideDivides(h, NextPower(n));
    ReachLeast(n, 2 * h, NextPower(n));
  }

  /** All passes from stride h on. */
  function Sweep(v: Vector, n: nat, h: nat): (w: Vector)
    requires PowerOfTwo(h) && NextPower(n) <= |v|
    ensures |w| == |v|
    decreases if h < n then n - h else 0
  {
    PowerPositive(h);
    if h >= n then v
    else
      ReachBelow(n, h);
      var m := Reach(n, 2 * h);
      Sweep(Stage(v[..m], h) + v[m..], n, 2 * h)
  }

  lemma SweepStep(v: Vector, n: nat, h: nat)
    requires PowerOfTwo(h) && NextPower(n) <= |v| && h < n
    ensures h > 0 && PowerOfTwo(2 * h) && Reach(n, 2 * h) <= |v|
    ensures var m := Reach(n, 2 * h); Sweep(v, n, h) == Sweep(Stage(v[..m], h) + v[m..], n, 2 * h)
  {
    PowerPositive(h);
    ReachBelow(n, h);
  }

  lemma SweepEnd(v: Vector, n: nat, h: nat)
    requires PowerOfTwo(h) && NextPower(n) <= |v| && h >= n
    ensures Sweep(v, n, h) == v
  {
  }

  /** For a power of two the passes add up to the transform of the first n coordinates. */
  lemma SweepIsTransform(v: Vector, n: nat)
    requires PowerOfTwo(n) && n <= |v|
    ensures NextPower(n) == n && PowerOfTwo(1) && Sweep(v, n, 1) == W(v[..n]) + v[n..]
  {
    hide *;
    NextPowerFacts(n);
    OneIsPower();
    PowerAtLeast(n);
    UnitBlocks(v[..n]);
    SweepBlocks(v, n, 1);
    assert v[..n] + v[n..] == v;
  }

  lemma {:induction false} SweepBlocks(v: Vector, n: nat, h: nat)
    requires PowerOfTwo(n) && NextPower(n) == n <= |v| && PowerOfTwo(h) && h <= n
    ensures Sweep(BlockW(v[..n], h) + v[n..], n, h) == W(v[..n]) + v[n..]
    decreases n - h
  {
    hide *;
    PowerPositive(h);
    var x := BlockW(v[..n], h) + v[n..];
    if h < n {
      StrideDivides(h, n);
      MultipleAtLeast(n, 2 * h);
      ReachFacts(n, 2 * h);
      ReachLeast(n, 2 * h, n);
      SweepStep(x, n, h);
      assert x[..n] == BlockW(v[..n], h) && x[n..] == v[n..];
      StageDoubles(v[..n], h);
      SweepBlocks(v, n, 2 * h);
    } else {
      SweepEnd(x, n, h);
      WholeBlock(v[..n]);
    }
  }

  /** The loops look at coordinates j and j + h. */
  predicate Touched(n: nat, h: nat, i: nat, j: nat) {
    PowerOfTwo(h) && h < n && i < n && i % (2 * h) == 0 && i <= j < i + h
  }

  /**
    For an input of length n > 0 no index leaves an output of length m exactly when the output holds the
    next power of two.
  */
  lemma InBoundsIff(n: nat, m: nat)
    requires 0 < n <= m
    ensures (forall h: nat, i: nat, j: nat :: Touched(n, h, i, j) ==> j + h < m) <==> NextPower(n) <= m
  {
    hide NextPower, Reach;
    NextPowerFacts(n);
    if NextPower(n) <= m {
      forall h: nat, i: nat, j: nat | Touched(n, h, i, j)
        ensures j + h < m
      {
        ReachBelow(n, h);
        ReachBeyond(n, 2 * h, i);
      }
    } else {
      var h := NextPower(n) / 2;
      assert Touched(n, h, 0, h - 1);
    }
  }

  lemma ReachBeyond(n: nat, m: nat, i: nat)
    requires m > 0 && i % m == 0 && i < n
    ensures i + m <= Reach(n, m)
  {
    ReachFacts(n, m);
    var r := Reach(n, m);
    MultiplesApart(i, r, m);
  }

  /** With an output as long as the input, no index leaves it exactly when the length is a power of two. */
  lemma InBoundsIffPowerOfTwo(n: nat)
    requires n > 0
    ensures (forall h: nat, i: nat, j: nat :: Touched(n, h, i, j) ==> j + h < n) <==> PowerOfTwo(n)
  {
    hide *;
    InBoundsIff(n, n);
    NextPowerFacts(n);
  }

  /** Length 3: the second block of the first pass reads coordinate 3. */
  lemma LengthThree()
    ensures Touched(3, 1, 2, 2) && !PowerOfTwo(3)
    ensures !(forall h: nat, i: nat, j: nat :: Touched(3, h, i, j) ==> j + h < 3)
  {
    assert Touched(3, 1, 2, 2);
  }

  lemma OneIsPower()
    ensures PowerOfTwo(1)
  {
  }

  lemma MultipleAtLeast(n: nat, m: nat)
    requires n > 0 && Multiple(n, m)
    ensures m <= n
  {
    Block(n, m);
  }

  lemma RotatedMeans(v: Vector, c: real)
    requires v == [] || PowerOfTwo(|v|)
    ensures Rotated(v, c) == if v == [] then Scale(c, []) else Scale(c, W(v))
  {
  }

  // ---------- the laws ----------

  /** c is 1/sqrt(n). */
  predicate UnitScale(c: real, n: nat) {
    c * c * (n as real) == 1.0
  }

  /** Rotating twice gives back the input: the inverse rotation is the rotation itself. */
  lemma RotateTwice(v: Vector, c: real)
    requires v == [] || (PowerOfTwo(|v|) && UnitScale(c, |v|))
    ensures Rotated(Rotated(v, c), c) == v
  {
    hide *;
    RotatedMeans(v, c);
    RotatedMeans(Rotated(v, c), c);
    if v != [] {
      Homogeneous(c, W(v));
      SelfInverse(v);
      ScaleThrice(c, v);
    }
  }

  lemma ScaleThrice(c: real, v: Vector)
    requires UnitScale(c, |v|)
    ensures Scale(c, Scale(c, Scale(|v| as real, v))) == v
  {
    hide Scale;
    var n := |v| as real;
    var w := Scale(c, Scale(c, Scale(n, v)));
    forall i | 0 <= i < |v| ensures w[i] == v[i] {
      Unscaled(c, n, v[i]);
    }
  }

  lemma Unscaled(c: real, n: real, x: real)
    requires c * c * n == 1.0
    ensures c * (c * (n * x)) == x
  {
    assert c * (c * (n * x)) == (c * c * n) * x;
  }

  /** The inverse rotation is the same code: what it returns rotates back to its input. */
  method InverseRotateVector(input: Vector, output: array<real>, c: real)
    requires |input| <= output.Length && (input != [] ==> NextPower(|input|) <= output.Length)
    modifies output
    ensures input == [] ==> output[..] == old(output[..])
    ensures input != [] ==>
              var n, swept := |input|, Sweep(input + old(output[|input|..]), |input|, 1);
              output[..] == Scale(c, swept[..n]) + swept[n..]
    ensures PowerOfTwo(|input|) && UnitScale(c, |input|) ==>
              Rotated(output[..|input|], c) == input && output[|input|..] == old(output[|input|..])
  {
    hide *;
    if PowerOfTwo(|input|) && UnitScale(c, |input|) {
      RotateTwice(input, c);
    }
    RotateVector(input, output, c);
  }

  /** A rotation keeps every inner product, and with it lengths and angles. */
  lemma RotationKeepsDot(u: Vector, v: Vector, c: real)
    requires |u| == |v| && PowerOfTwo(|u|) && UnitScale(c, |u|)
    ensures Dot(Rotated(u, c), Rotated(v, c)) == Dot(u, v)
  {
    hide *;
    PowerAtLeast(|u|);
    RotatedMeans(u, c);
    RotatedMeans(v, c);
    DotScale(c, W(u), W(v));
    Parseval(u, v);
    ScaleAway(c, |u|, Dot(u, v));
  }

  lemma ScaleAway(c: real, n: nat, d: real)
    requires UnitScale(c, n)
    ensures c * c * ((n as real) * d) == d
  {
    assert c * c * ((n as real) * d) == (c * c * (n as real)) * d;
  }

  lemma {:induction false} DotScale(c: real, u: Vector, v: Vector)
    requires |u| == |v|
    ensures Dot(Scale(c, u), Scale(c, v)) == c * c * Dot(u, v)
  {
    hide Scale;
    if u == [] {
      assert Dot(u, v) == 0.0;
    } else {
      DotScale(c, u[1..], v[1..]);
      ScaleTail(c, u);
      ScaleTail(c, v);
      assert Dot(Scale(c, u), Scale(c, v)) == (c * u[0]) * (c * v[0]) + Dot(Scale(c, u[1..]), Scale(c, v[1..]));
      Squared(c, c * c, u[0], v[0], Dot(u[1..], v[1..]), Dot(Scale(c, u[1..]), Scale(c, v[1..])));
    }
  }

  lemma ScaleTail(c: real, u: Vector)
    requires u != []
    ensures Scale(c, u)[0] == c * u[0] && Scale(c, u)[1..] == Scale(c, u[1..])
  {
    assert u == u[..1] + u[1..];
    ScaleJoin(c, u[..1], u[1..]);
  }

  lemma Squared(c: real, q: real, x: real, y: real, d: real, e: real)
    requires q == c * c && e == q * d
    ensures (c * x) * (c * y) + e == q * (x * y + d)
  {
    assert (c * x) * (c * y) == q * (x * y);
  }
}
