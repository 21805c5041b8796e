/** Paced pointer strokes (dream/computer.py, Computer._paced_plan), over the reals. A distance is given as a
    non-negative real whose square is dx^2 + dy^2; rounding is to the nearest integer, ties to the even one. */
module PacedPlan {
  datatype Point = Point(x: int, y: int)
  datatype Timed = Timed(at: real, p: Point)
  datatype Result = Refused | Plan(plan: seq<Timed>)

  const STEP: real := 0.02          // seconds between points, at most
  const MAX_POINTS: nat := 256

  // ---- rounding --------------------------------------------------------------------------------------------

  function Ceil(x: real): int { -((-x).Floor) }

  function Round(x: real): int {
    var f := x.Floor;
    var d := x - f as real;
    if d < 0.5 || (d == 0.5 && f % 2 == 0) then f else f + 1
  }

  lemma RoundIsNear(x: real)
    ensures x - 0.5 <= Round(x) as real <= x + 0.5
  {
  }

  // The nearest integer, and of two equally near the even one.
  lemma RoundIsExact(x: real, n: int)
    ensures Round(x) == n <==> || n as real - 0.5 < x < n as real + 0.5
                               || ((x == n as real - 0.5 || x == n as real + 0.5) && n % 2 == 0)
  {
  }

  lemma RoundFixes(n: int)
    ensures Round(n as real) == n
  {
  }

  lemma RoundIsMonotone(x: real, y: real)
    requires x <= y
    ensures Round(x) <= Round(y)
  {
  }

  // ---- one straight segment --------------------------------------------------------------------------------

  function Square(x: real): real { x * x }

  // math.dist(a, b)
  ghost predicate IsDistance(a: Point, b: Point, length: real) {
    length >= 0.0 && Square(length) == Square((b.x - a.x) as real) + Square((b.y - a.y) as real)
  }

  function Over(t: int, n: nat): real
    requires n > 0
  {
    t as real / n as real
  }

  function Lerp(x: int, y: int, i: nat, n: nat): real
    requires n > 0
  {
    x as real + Over((y - x) * i, n)
  }

  function Step(a: Point, b: Point, i: nat, n: nat): Point
    requires n > 0
  {
    if i == n then b else Point(Round(Lerp(a.x, b.x, i, n)), Round(Lerp(a.y, b.y, i, n)))
  }

  lemma LerpEnds(x: int, y: int, n: nat)
    requires n > 0
    ensures Lerp(x, y, 0, n) == x as real && Lerp(x, y, n, n) == y as real
  {
    assert ((y - x) * n) as real == (y - x) as real * n as real;
    DivMul((y - x) as real, n as real);
  }

  lemma DivMul(x: real, n: real)
    requires n > 0.0
    ensures x * n / n == x && x / n * n == x
  {
  }

  lemma LerpStep(x: int, y: int, i: nat, n: nat)
    requires n > 0
    ensures Lerp(x, y, i + 1, n) - Lerp(x, y, i, n) == (y - x) as real / n as real
  {
    var d := y - x;
    assert (d * (i + 1)) as real == (d * i) as real + d as real;
    DivSum((d * i) as real, d as real, n as real);
  }

  lemma DivSum(x: real, y: real, n: real)
    requires n > 0.0
    ensures (x + y) / n == x / n + y / n
  {
  }

  lemma LerpBetween(x: int, y: int, i: nat, n: nat)
    requires n > 0 && i <= n
    ensures x <= y ==> x as real <= Lerp(x, y, i, n) <= y as real
    ensures y <= x ==> y as real <= Lerp(x, y, i, n) <= x as real
  {
    hide Over;
    if x <= y {
      OverBetween(y - x, i, n);
    } else {
      assert (y - x) * i == -((x - y) * i);
      OverNegative((x - y) * i, n);
    }
    if y <= x {
      OverBetween(x - y, i, n);
    }
    if x == y {
      assert (y - x) * i == 0 == (x - y) * i;
    }
  }

  lemma OverBetween(d: nat, i: nat, n: nat)
    requires n > 0 && i <= n
    ensures 0.0 <= Over(d * i, n) <= d as real
  {
    assert (d * i) as real == d as real * i as real;
    FractionBetween(d as real, i as real, n as real);
  }

  lemma OverNegative(t: int, n: nat)
    requires n > 0
    ensures Over(-t, n) == -Over(t, n)
  {
    NegativeFraction(t as real, n as real);
  }

  lemma FractionBetween(d: real, i: real, m: real)
    requires d >= 0.0 && 0.0 <= i <= m && m > 0.0
    ensures 0.0 <= d * i / m <= d
  {
    MulMono(d, 0.0, i);
    MulMono(d, i, m);
    DivMono(0.0, d * i, m);
    DivMono(d * i, d * m, m);
    DivMul(d, m);
  }

  lemma NegativeFraction(t: real, m: real)
    requires m > 0.0
    ensures (-t) / m == -(t / m)
  {
  }

  lemma MulMono(d: real, x: real, y: real)
    requires d >= 0.0 && x <= y
    ensures d * x <= d * y
  {
  }

  lemma DivMono(x: real, y: real, n: real)
    requires n > 0.0 && x <= y
    ensures x / n <= y / n
  {
  }

  // Every step is the rounded point of the straight line, its ends included.
  lemma StepIsRounded(a: Point, b: Point, i: nat, n: nat)
    requires n > 0 && i <= n
    ensures Step(a, b, i, n) == Point(Round(Lerp(a.x, b.x, i, n)), Round(Lerp(a.y, b.y, i, n)))
    ensures (i == 0 ==> Step(a, b, i, n) == a) && (i == n ==> Step(a, b, i, n) == b)
  {
    LerpEnds(a.x, b.x, n);
    LerpEnds(a.y, b.y, n);
    RoundFixes(a.x);
    RoundFixes(a.y);
    RoundFixes(b.x);
    RoundFixes(b.y);
  }

  predicate Within(p: int, x: int, y: int) { x <= p <= y || y <= p <= x }

  lemma StepBetween(a: Point, b: Point, i: nat, n: nat)
    requires n > 0 && i <= n
    ensures Within(Step(a, b, i, n).x, a.x, b.x) && Within(Step(a, b, i, n).y, a.y, b.y)
  {
    StepIsRounded(a, b, i, n);
    CoordinateBetween(a.x, b.x, i, n);
    CoordinateBetween(a.y, b.y, i, n);
  }

  lemma CoordinateBetween(x: int, y: int, i: nat, n: nat)
    requires n > 0 && i <= n
    ensures Within(Round(Lerp(x, y, i, n)), x, y)
  {
    var u := Lerp(x, y, i, n);
    LerpBetween(x, y, i, n);
    RoundFixes(x);
    RoundFixes(y);
    if x <= y {
      RoundIsMonotone(x as real, u);
      RoundIsMonotone(u, y as real);
    } else {
      RoundIsMonotone(y as real, u);
      RoundIsMonotone(u, x as real);
    }
  }

  // A move from p to q is at most four pixels long.
  predicate ShortMove(p: Point, q: Point) {
    (q.x - p.x) * (q.x - p.x) + (q.y - p.y) * (q.y - p.y) <= 16
  }

  // Two-pixel steps before rounding stay short after it.
  lemma StepIsShort(a: Point, b: Point, length: real, i: nat, n: nat)
    requires n > 0 && i < n && IsDistance(a, b, length) && length <= 2.0 * n as real
    ensures ShortMove(Step(a, b, i, n), Step(a, b, i + 1, n))
  {
    var p, q := (b.x - a.x) as real / n as real, (b.y - a.y) as real / n as real;
    StepIsRounded(a, b, i, n);
    StepIsRounded(a, b, i + 1, n);
    LerpStep(a.x, b.x, i, n);
    LerpStep(a.y, b.y, i, n);
    RoundIsNear(Lerp(a.x, b.x, i, n));
    RoundIsNear(Lerp(a.x, b.x, i + 1, n));
    RoundIsNear(Lerp(a.y, b.y, i, n));
    RoundIsNear(Lerp(a.y, b.y, i + 1, n));
    UnroundedIsShort(a, b, length, n);
    var s, t := Step(a, b, i, n), Step(a, b, i + 1, n);
    RoundedIsShort(t.x - s.x, t.y - s.y, p, q);
  }

  lemma UnroundedIsShort(a: Point, b: Point, length: real, n: nat)
    requires n > 0 && IsDistance(a, b, length) && length <= 2.0 * n as real
    ensures Square((b.x - a.x) as real / n as real) + Square((b.y - a.y) as real / n as real) <= 4.0
  {
    var m := n as real;
    var p, q := (b.x - a.x) as real / m, (b.y - a.y) as real / m;
    DivMul((b.x - a.x) as real, m);
    DivMul((b.y - a.y) as real, m);
    Scaled(p, q, m, length);
  }

  lemma Scaled(p: real, q: real, m: real, length: real)
    requires m > 0.0 && 0.0 <= length <= 2.0 * m && Square(length) == Square(p * m) + Square(q * m)
    ensures Square(p) + Square(q) <= 4.0
  {
    var s, k := Square(p) + Square(q), Square(m);
    SquareProduct(p, m);
    SquareProduct(q, m);
    assert Square(length) == s * k;
    SquareMono(length, 2.0 * m);
    SquareProduct(2.0, m);
    SquarePositive(m);
    Cancel(s, 4.0, k);
  }

  lemma SquareProduct(x: real, y: real)
    ensures Square(x * y) == Square(x) * Square(y)
  {
  }

  lemma SquarePositive(x: real)
    requires x > 0.0
    ensures Square(x) > 0.0
  {
    calc {
      Square(x);
    ==
      x * x;
    > { MulPositive(x, x); }
      0.0;
    }
  }

  lemma Cancel(x: real, y: real, k: real)
    requires k > 0.0 && x * k <= y * k
    ensures x <= y
  {
    DivMul(x, k);
    DivMul(y, k);
    DivMono(x * k, y * k, k);
  }

  lemma MulPositive(x: real, y: real)
    requires x > 0.0 && y > 0.0
    ensures x * y > 0.0
  {
  }

  lemma SquareOfNegative(x: real)
    ensures Square(-x) == Square(x)
    ensures Square(1.0) == 1.0
  {
  }

  lemma SquareNotNegative(x: real)
    ensures Square(x) >= 0.0
  {
    assert x * x == (-x) * (-x);
  }

  lemma Expand(x: real, y: real)
    ensures Square(x + y) == Square(x) + 2.0 * (x * y) + Square(y)
    ensures Square(x - y) == Square(x) - 2.0 * (x * y) + Square(y)
  {
    assert (x + y) * (x + y) == x * (x + y) + y * (x + y);
    assert (x - y) * (x - y) == x * (x - y) - y * (x - y);
  }

  lemma SquareAbs(n: int, x: int)
    requires x == if n < 0 then -n else n
    ensures Square(x as real) == (n * n) as real
  {
    assert x * x == n * n;
  }

  lemma RoundedIsShort(dx: int, dy: int, p: real, q: real)
    requires p - 1.0 <= dx as real <= p + 1.0 && q - 1.0 <= dy as real <= q + 1.0
    requires Square(p) + Square(q) <= 4.0
    ensures dx * dx + dy * dy <= 16
  {
    hide Square;
    var u, v := if p < 0.0 then -p else p, if q < 0.0 then -q else q;
    SquareOfNegative(p);
    SquareOfNegative(q);
    SumIsSmall(u, v);
    var x, y := if dx < 0 then -dx else dx, if dy < 0 then -dy else dy;
    SquareMono(x as real, u + 1.0);
    SquareMono(y as real, v + 1.0);
    Expand(u, 1.0);
    Expand(v, 1.0);
    SquareAbs(dx, x);
    SquareAbs(dy, y);
    Gathered(Square(u), Square(v), u, v, Square(x as real), Square(y as real));
    assert (dx * dx + dy * dy) as real <= 16.0;
  }

  lemma Gathered(uu: real, vv: real, u: real, v: real, xx: real, yy: real)
    requires uu + vv <= 4.0 && u + v <= 3.0
    requires xx <= uu + 2.0 * u + 1.0 && yy <= vv + 2.0 * v + 1.0
    ensures xx + yy <= 12.0
  {
  }

  lemma SquareMono(x: real, y: real)
    requires 0.0 <= x <= y
    ensures Square(x) <= Square(y)
  {
    MulMono(x, x, y);
    MulMono(y, x, y);
  }

  lemma SumIsSmall(u: real, v: real)
    requires u >= 0.0 && v >= 0.0 && Square(u) + Square(v) <= 4.0
    ensures u + v <= 3.0
  {
    Expand(u, v);
    SquareNotNegative(u - v);
    if u + v > 3.0 {
      SquareMono(3.0, u + v);
    }
  }

  // ---- the whole stroke ------------------------------------------------------------------------------------

  // The part of the whole that falls to part out of total.
  function Share(whole: real, part: real, total: real): real
    requires total > 0.0
  {
    whole * part / total
  }

  datatype Segment = Segment(a: Point, b: Point, seconds: real, count: nat)

  function Sum(lengths: seq<real>): real {
    if lengths == [] then 0.0 else Sum(lengths[..|lengths| - 1]) + lengths[|lengths| - 1]
  }

  function Total(counts: seq<nat>): nat {
    if counts == [] then 0 else Total(counts[..|counts| - 1]) + counts[|counts| - 1]
  }

  // The lengths of the straight lines through the points.
  ghost predicate Measures(points: seq<Point>, lengths: seq<real>) {
    && |points| == |lengths| + 1
    && forall k :: 0 <= k < |lengths| ==> IsDistance(points[k], points[k + 1], lengths[k])
  }

  // n steps are enough for a line: none longer than two pixels, none slower than STEP.
  predicate Enough(n: nat, length: real, seconds: real) {
    n >= 1 && length <= 2.0 * n as real && seconds <= 0.02 * n as real
  }

  predicate AllEnough(counts: seq<nat>, lengths: seq<real>, duration: real)
    requires Sum(lengths) > 0.0
  {
    && |counts| == |lengths|
    && forall k :: 0 <= k < |lengths| ==> Enough(counts[k], lengths[k], Share(duration, lengths[k], Sum(lengths)))
  }

  function Count(length: real, seconds: real): nat {
    Max(1, Max(Ceil(length / 2.0), Ceil(seconds / STEP)))
  }

  function Max(x: int, y: int): int { if x < y then y else x }

  lemma CountIsLeast(length: real, seconds: real, n: nat)
    ensures Enough(n, length, seconds) <==> n >= Count(length, seconds)
  {
    hide Ceil;
    CeilIsLeast(length, 2.0, n);
    CeilIsLeast(seconds, STEP, n);
  }

  lemma CeilAtMost(x: real, n: int)
    ensures x <= n as real <==> Ceil(x) <= n
  {
  }

  lemma CeilIsLeast(x: real, unit: real, n: nat)
    requires unit > 0.0
    ensures x <= unit * n as real <==> n >= Ceil(x / unit)
  {
    var q, m := x / unit, n as real;
    DivMul(x, unit);
    DivMul(m, unit);
    assert q * unit == unit * q && m * unit == unit * m;
    if x <= unit * m {
      DivMono(x, m * unit, unit);
    }
    if q <= m {
      MulMono(unit, q, m);
    }
    CeilAtMost(q, n);
  }

  function Counts(lengths: seq<real>, duration: real, total: real): (counts: seq<nat>)
    requires total > 0.0
    ensures |counts| == |lengths|
    ensures forall k :: 0 <= k < |lengths| ==> counts[k] == Count(lengths[k], Share(duration, lengths[k], total))
  {
    seq<nat>(|lengths|, k requires 0 <= k < |lengths| => Count(lengths[k], Share(duration, lengths[k], total)))
  }

  lemma {:induction false} TotalMono(xs: seq<nat>, ys: seq<nat>)
    requires |xs| == |ys| && forall k :: 0 <= k < |xs| ==> xs[k] <= ys[k]
    ensures Total(xs) <= Total(ys)
  {
    if xs != [] {
      TotalMono(xs[..|xs| - 1], ys[..|ys| - 1]);
    }
  }

  // A stroke is refused for its length only if no subdivision into short, quick steps fits.
  lemma CountsAreFewest(lengths: seq<real>, duration: real, counts: seq<nat>)
    requires Sum(lengths) > 0.0
    ensures AllEnough(Counts(lengths, duration, Sum(lengths)), lengths, duration)
    ensures AllEnough(counts, lengths, duration) ==>
              Total(Counts(lengths, duration, Sum(lengths))) <= Total(counts)
  {
    hide Enough, Count, Sum, Total;
    var least := Counts(lengths, duration, Sum(lengths));
    forall k | 0 <= k < |lengths|
      ensures Enough(least[k], lengths[k], Share(duration, lengths[k], Sum(lengths)))
      ensures AllEnough(counts, lengths, duration) ==> least[k] <= counts[k]
    {
      CountIsLeast(lengths[k], Share(duration, lengths[k], Sum(lengths)), least[k]);
      if AllEnough(counts, lengths, duration) {
        CountIsLeast(lengths[k], Share(duration, lengths[k], Sum(lengths)), counts[k]);
      }
    }
    if AllEnough(counts, lengths, duration) {
      TotalMono(least, counts);
    }
  }

  predicate Follows(s: Timed, t: Timed) {
    s.at <= t.at <= s.at + 0.02 && ShortMove(s.p, t.p)
  }

  predicate Paced(plan: seq<Timed>) {
    forall i :: 0 < i < |plan| ==> Follows(plan[i - 1], plan[i])
  }

  // p lies in the box spanned by one of the straight lines.
  predicate Near(points: seq<Point>, p: Point) {
    exists k :: 0 < k < |points| && Spanned(p, points[k - 1], points[k])
  }

  predicate Spanned(p: Point, a: Point, b: Point) { Within(p.x, a.x, b.x) && Within(p.y, a.y, b.y) }

  // Point k is reached at index stops[k], after its share of the way, in order.
  predicate Visits(plan: seq<Timed>, points: seq<Point>, lengths: seq<real>, duration: real, stops: seq<nat>)
    requires |points| == |lengths| + 1
  {
    && |stops| <= |points|
    && (forall k :: 0 <= k < |stops| ==> stops[k] < |plan| && plan[stops[k]].p == points[k] &&
                                         plan[stops[k]].at * Sum(lengths) == duration * Sum(lengths[..k]))
    && (forall j, k :: 0 <= j <= k < |stops| ==> stops[j] <= stops[k])
  }

  function Last(plan: seq<Timed>): Timed
    requires |plan| > 0
  {
    plan[|plan| - 1]
  }

  lemma {:induction false} SumNotNegative(lengths: seq<real>)
    requires forall k :: 0 <= k < |lengths| ==> lengths[k] >= 0.0
    ensures Sum(lengths) >= 0.0
    ensures Sum(lengths) == 0.0 ==> forall k :: 0 <= k < |lengths| ==> lengths[k] == 0.0
  {
    if lengths != [] {
      var front := lengths[..|lengths| - 1];
      SumNotNegative(front);
      assert forall k :: 0 <= k < |front| ==> lengths[k] == front[k];
    }
  }

  lemma SharedTime(seconds: real, i: nat, n: nat)
    requires n > 0 && 0.0 <= seconds <= STEP * n as real
    ensures 0.0 <= Share(seconds, (i + 1) as real, n as real) - Share(seconds, i as real, n as real) <= STEP
    ensures Share(seconds, n as real, n as real) == seconds
    ensures Share(seconds, 0.0, n as real) == 0.0
  {
    var m := n as real;
    assert seconds * (i + 1) as real == seconds * i as real + seconds;
    DivSum(seconds * i as real, seconds, m);
    DivMono(0.0, seconds, m);
    DivMono(seconds, STEP * m, m);
    DivMul(STEP, m);
    DivMul(seconds, m);
    DivMul(0.0, m);
  }

  function At(s: Segment, start: real, i: nat): Timed
    requires s.count > 0
  {
    Timed(start + Share(s.seconds, i as real, s.count as real), Step(s.a, s.b, i, s.count))
  }

  lemma AtFollows(s: Segment, length: real, start: real, i: nat)
    requires Enough(s.count, length, s.seconds) && s.seconds >= 0.0 && IsDistance(s.a, s.b, length)
    requires i < s.count
    ensures Follows(At(s, start, i), At(s, start, i + 1))
    ensures At(s, start, 0) == Timed(start, s.a) && At(s, start, s.count) == Timed(start + s.seconds, s.b)
    ensures Spanned(At(s, start, i + 1).p, s.a, s.b)
  {
    hide Step, ShortMove, Within, IsDistance, Round, Share;
    SharedTime(s.seconds, i, s.count);
    StepIsShort(s.a, s.b, length, i, s.count);
    StepIsRounded(s.a, s.b, 0, s.count);
    StepIsRounded(s.a, s.b, s.count, s.count);
    StepBetween(s.a, s.b, i + 1, s.count);
  }

  // From its place `base` on, the plan goes along the line in equal steps of time and, but for rounding, of way.
  predicate OnLine(plan: seq<Timed>, base: nat, s: Segment) {
    s.count > 0 && base + s.count < |plan| &&
    forall i :: 0 <= i <= s.count ==> plan[base + i] == At(s, plan[base].at, i)
  }

  lemma OnLineStays(plan: seq<Timed>, next: seq<Timed>, base: nat, s: Segment)
    requires OnLine(plan, base, s) && |plan| <= |next| && next[..|plan|] == plan
    ensures OnLine(next, base, s)
  {
    hide At;
    assert forall i :: 0 <= i < |plan| ==> next[i] == plan[i];
  }

  lemma LineWalked(plan: seq<Timed>, next: seq<Timed>, elapsed: real, s: Segment)
    requires |plan| > 0 && s.count > 0 && |next| == |plan| + s.count && plan[|plan| - 1].at == elapsed
    requires next[..|plan|] == plan && plan[|plan| - 1] == At(s, elapsed, 0)
    requires forall i :: 0 < i <= s.count ==> next[|plan| - 1 + i] == At(s, elapsed, i)
    ensures OnLine(next, |plan| - 1, s)
  {
    hide At;
    assert next[|plan| - 1] == plan[|plan| - 1];
  }

  // One straight line of the stroke, appended to the plan.
  method Walk(plan: seq<Timed>, s: Segment, ghost length: real, elapsed: real) returns (next: seq<Timed>)
    requires Enough(s.count, length, s.seconds) && s.seconds >= 0.0 && IsDistance(s.a, s.b, length)
    requires |plan| > 0 && Last(plan) == Timed(elapsed, s.a) && Paced(plan)
    ensures |next| == |plan| + s.count && next[..|plan|] == plan && Paced(next)
    ensures Last(next) == Timed(elapsed + s.seconds, s.b)
    ensures forall i :: |plan| <= i < |next| ==> Spanned(next[i].p, s.a, s.b)
    ensures OnLine(next, |plan| - 1, s)
  {
    assert s.count >= 1;
    hide At, Follows, Spanned, Enough, IsDistance;
    next := plan;
    AtFollows(s, length, elapsed, 0);
    for i := 1 to s.count + 1
      invariant |next| == |plan| + i - 1 && next[..|plan|] == plan && Paced(next)
      invariant Last(next) == At(s, elapsed, i - 1)
      invariant forall j :: |plan| <= j < |next| ==> Spanned(next[j].p, s.a, s.b)
      invariant forall j :: 0 < j < i ==> next[|plan| - 1 + j] == At(s, elapsed, j)
    {
      AtFollows(s, length, elapsed, i - 1);
      next := next + [At(s, elapsed, i)];
    }
    LineWalked(plan, next, elapsed, s);
  }

  // In seconds
  function Milliseconds(durationMs: int): (seconds: real)
    ensures 1000.0 * seconds == durationMs as real
  {
    durationMs as real / 1000.0
  }

  ghost predicate Accepted(plan: seq<Timed>, points: seq<Point>, lengths: seq<real>, duration: real)
    requires Measures(points, lengths)
  {
    && 2 <= |plan| <= 256
    && plan[0] == Timed(0.0, points[0])
    && Last(plan) == Timed(duration, points[|points| - 1])
    && Paced(plan)
    && (forall i :: 0 <= i < |plan| ==> Near(points, plan[i].p))
    && (exists stops :: |stops| == |points| && stops[0] == 0 && Visits(plan, points, lengths, duration, stops))
  }

  // The whole time at one point, in the fewest equal steps that are short enough.
  predicate Held(plan: seq<Timed>, p: Point, duration: real) {
    |plan| >= 2 &&
    var count := |plan| - 1;
    && duration <= STEP * count as real && STEP * (count - 1) as real < duration
    && forall i :: 0 <= i <= count ==> plan[i] == Timed(Share(duration, i as real, count as real), p)
  }

  // A pointer that does not move still takes its time.
  method Hold(points: seq<Point>, ghost lengths: seq<real>, duration: real) returns (plan: seq<Timed>)
    requires |points| >= 2 && Measures(points, lengths) && Sum(lengths) == 0.0
    requires 0.0 < duration <= 2.0
    ensures Accepted(plan, points, lengths, duration)
    ensures Held(plan, points[0], duration)
  {
    hide Measures, Sum, Accepted, IsDistance;
    var count := Ceil(duration / STEP);
    CountOfTime(duration);
    plan := [];
    for i := 0 to count + 1
      invariant |plan| == i
      invariant forall j :: 0 <= j < i ==> plan[j] == Timed(Share(duration, j as real, count as real), points[0])
    {
      plan := plan + [Timed(Share(duration, i as real, count as real), points[0])];
    }
    HeldIsAccepted(points, lengths, duration, count, plan);
  }

  lemma CountOfTime(duration: real)
    requires 0.0 < duration <= 2.0
    ensures 1 <= Ceil(duration / STEP) <= 100 && duration <= STEP * Ceil(duration / STEP) as real
  {
    CeilIsLeast(duration, STEP, 100);
    CeilIsLeast(duration, STEP, 0);
    CeilIsLeast(duration, STEP, Ceil(duration / STEP));
  }

  lemma HeldIsAccepted(points: seq<Point>, lengths: seq<real>, duration: real, count: nat, plan: seq<Timed>)
    requires |points| >= 2 && Measures(points, lengths) && Sum(lengths) == 0.0
    requires 1 <= count <= 100 && 0.0 <= duration <= STEP * count as real
    requires |plan| == count + 1
    requires forall j :: 0 <= j < |plan| ==> plan[j] == Timed(Share(duration, j as real, count as real), points[0])
    ensures Accepted(plan, points, lengths, duration)
  {
    hide Sum, IsDistance, Share, Paced, Visits, Near;
    AllTheSame(points, lengths);
    HeldIsPaced(points[0], duration, count, plan);
    SharedTime(duration, count - 1, count);
    assert Near(points, points[0]) by { FirstIsNear(points); }
    var stops: seq<nat> := seq(|points|, k => 0);
    HeldVisits(points, lengths, duration, plan, stops);
  }

  lemma HeldIsPaced(p: Point, duration: real, count: nat, plan: seq<Timed>)
    requires 1 <= count && 0.0 <= duration <= STEP * count as real && |plan| == count + 1
    requires forall j :: 0 <= j < |plan| ==> plan[j] == Timed(Share(duration, j as real, count as real), p)
    ensures Paced(plan)
  {
    hide Share;
    forall i | 0 < i < |plan|
      ensures Follows(plan[i - 1], plan[i])
    {
      SharedTime(duration, i - 1, count);
    }
  }

  lemma FirstIsNear(points: seq<Point>)
    requires |points| >= 2
    ensures Near(points, points[0])
  {
    assert Spanned(points[0], points[1 - 1], points[1]);
  }

  lemma HeldVisits(points: seq<Point>, lengths: seq<real>, duration: real, plan: seq<Timed>, stops: seq<nat>)
    requires |points| == |lengths| + 1 && |stops| == |points| && |plan| > 0 && Sum(lengths) == 0.0
    requires forall k :: 0 <= k < |points| ==> points[k] == plan[0].p && stops[k] == 0
    requires forall k :: 0 <= k < |lengths| ==> lengths[k] == 0.0
    ensures Visits(plan, points, lengths, duration, stops)
  {
    hide Sum;
    forall k | 0 <= k <= |lengths|
      ensures Sum(lengths[..k]) == 0.0
    {
      ZeroSum(lengths[..k]);
    }
  }

  lemma {:induction false} ZeroSum(lengths: seq<real>)
    requires forall k :: 0 <= k < |lengths| ==> lengths[k] == 0.0
    ensures Sum(lengths) == 0.0
  {
    if lengths != [] {
      ZeroSum(lengths[..|lengths| - 1]);
    }
  }

  lemma {:induction false} AllTheSame(points: seq<Point>, lengths: seq<real>)
    requires Measures(points, lengths) && Sum(lengths) == 0.0
    ensures forall k :: 0 <= k < |points| ==> points[k] == points[0]
    ensures forall k :: 0 <= k < |lengths| ==> lengths[k] == 0.0
  {
    forall k | 0 <= k < |lengths|
      ensures lengths[k] >= 0.0
    {
      assert IsDistance(points[k], points[k + 1], lengths[k]);
    }
    SumNotNegative(lengths);
    for k := 0 to |lengths|
      invariant forall j :: 0 <= j <= k ==> points[j] == points[0]
    {
      ZeroDistance(points[k], points[k + 1]);
    }
  }

  lemma ZeroDistance(a: Point, b: Point)
    requires IsDistance(a, b, 0.0)
    ensures a == b
  {
    var x, y := (b.x - a.x) as real, (b.y - a.y) as real;
    SquareNotNegative(x);
    SquareNotNegative(y);
    ZeroSquare(x);
    ZeroSquare(y);
  }

  lemma ZeroSquare(x: real)
    ensures Square(x) == 0.0 ==> x == 0.0
  {
    if x > 0.0 {
      SquarePositive(x);
    } else if x < 0.0 {
      SquarePositive(-x);
    }
  }

  // Some subdivision into short, quick steps keeps the stroke within the bound.
  ghost predicate Fits(lengths: seq<real>, duration: real) {
    Sum(lengths) > 0.0 ==> exists counts :: AllEnough(counts, lengths, duration) && 1 + Total(counts) <= 256
  }

  lemma FitsExactly(lengths: seq<real>, duration: real)
    requires Sum(lengths) > 0.0
    ensures Fits(lengths, duration) <==> 1 + Total(Counts(lengths, duration, Sum(lengths))) <= MAX_POINTS
  {
    hide Counts, AllEnough, Sum, Total;
    CountsAreFewest(lengths, duration, []);
    if Fits(lengths, duration) {
      var counts :| AllEnough(counts, lengths, duration) && 1 + Total(counts) <= 256;
      CountsAreFewest(lengths, duration, counts);
    }
  }

  // The segments match the lines they came from, and they share out the time.
  ghost predicate Divided(segments: seq<Segment>, points: seq<Point>, lengths: seq<real>, duration: real)
    requires |points| == |lengths| + 1 && Sum(lengths) > 0.0
  {
    && |segments| <= |lengths|
    && forall k :: 0 <= k < |segments| ==> IsSegment(segments[k], points[k], points[k + 1], lengths[k],
                                                     Share(duration, lengths[k], Sum(lengths)))
  }

  predicate IsSegment(s: Segment, a: Point, b: Point, length: real, seconds: real) {
    s == Segment(a, b, seconds, Count(length, seconds))
  }

  method Divide(points: seq<Point>, lengths: seq<real>, duration: real, total: real)
    returns (segments: seq<Segment>, sum: nat)
    requires |points| == |lengths| + 1 && total == Sum(lengths) > 0.0
    ensures |segments| == |lengths| && Divided(segments, points, lengths, duration)
    ensures sum == Total(Counts(lengths, duration, total))
  {
    hide Share, Count, Sum, Counts;
    segments, sum := [], 0;
    ghost var counts := Counts(lengths, duration, total);
    for k := 0 to |lengths|
      invariant |segments| == k && Divided(segments, points, lengths, duration)
      invariant sum == Total(counts[..k])
    {
      var seconds := Share(duration, lengths[k], total);
      segments := segments + [Segment(points[k], points[k + 1], seconds, Count(lengths[k], seconds))];
      sum := sum + segments[k].count;
      assert counts[..k + 1][..k] == counts[..k];
    }
    assert counts[..|lengths|] == counts;
  }

  method Measure(lengths: seq<real>) returns (total: real)
    ensures total == Sum(lengths)
  {
    total := 0.0;
    for k := 0 to |lengths|
      invariant total == Sum(lengths[..k])
    {
      total := total + lengths[k];
      assert lengths[..k + 1][..k] == lengths[..k];
    }
    assert lengths[..|lengths|] == lengths;
  }

  lemma SegmentIsFine(s: Segment, a: Point, b: Point, length: real, duration: real, total: real)
    requires duration > 0.0 && total > 0.0 && IsDistance(a, b, length)
    requires IsSegment(s, a, b, length, Share(duration, length, total))
    ensures Enough(s.count, length, s.seconds) && s.seconds >= 0.0
    ensures s.seconds * total == duration * length
  {
    hide Enough, Count;
    CountIsLeast(length, s.seconds, s.count);
    MulMono(duration, 0.0, length);
    DivMono(0.0, duration * length, total);
    DivMul(duration * length, total);
  }

  lemma SumStep(lengths: seq<real>, k: nat)
    requires k < |lengths|
    ensures Sum(lengths[..k + 1]) == Sum(lengths[..k]) + lengths[k]
  {
    assert lengths[..k + 1][..k] == lengths[..k];
  }

  lemma TotalStep(counts: seq<nat>, k: nat)
    requires k < |counts|
    ensures Total(counts[..k + 1]) == Total(counts[..k]) + counts[k]
  {
    assert counts[..k + 1][..k] == counts[..k];
  }

  // The travelled part of the way, timed.
  lemma Travelled(elapsed: real, seconds: real, total: real, duration: real, way: real, length: real)
    requires elapsed * total == duration * way && seconds * total == duration * length
    ensures (elapsed + seconds) * total == duration * (way + length)
  {
  }

  ghost predicate Drawn(plan: seq<Timed>, points: seq<Point>, lengths: seq<real>, duration: real, k: nat,
                        elapsed: real, stops: seq<nat>)
    requires |points| == |lengths| + 1
  {
    && |plan| > 0 && plan[0] == Timed(0.0, points[0])
    && k <= |lengths| && Last(plan) == Timed(elapsed, points[k])
    && elapsed * Sum(lengths) == duration * Sum(lengths[..k])
    && Paced(plan)
    && (forall i :: 0 <= i < |plan| ==> Near(points, plan[i].p))
    && |stops| == k + 1 && stops[0] == 0 && stops[k] == |plan| - 1
    && Visits(plan, points, lengths, duration, stops)
  }

  lemma DrawnStep(plan: seq<Timed>, next: seq<Timed>, points: seq<Point>, lengths: seq<real>, duration: real,
                  k: nat, elapsed: real, seconds: real, stops: seq<nat>)
    requires |points| == |lengths| + 1 && k < |lengths|
    requires Drawn(plan, points, lengths, duration, k, elapsed, stops)
    requires |plan| < |next| && next[..|plan|] == plan && Paced(next)
    requires Last(next) == Timed(elapsed + seconds, points[k + 1])
    requires forall i :: |plan| <= i < |next| ==> Spanned(next[i].p, points[k], points[k + 1])
    requires seconds * Sum(lengths) == duration * lengths[k]
    ensures Drawn(next, points, lengths, duration, k + 1, elapsed + seconds, stops + [|next| - 1])
  {
    hide Sum, Paced, Near, Spanned, Visits;
    NearStep(plan, next, points, k);
    VisitsStep(plan, next, points, lengths, duration, k, elapsed, seconds, stops);
    assert next[0] == plan[0];
    SumStep(lengths, k);
    Travelled(elapsed, seconds, Sum(lengths), duration, Sum(lengths[..k]), lengths[k]);
  }

  lemma NearStep(plan: seq<Timed>, next: seq<Timed>, points: seq<Point>, k: nat)
    requires k + 1 < |points| && |plan| < |next| && next[..|plan|] == plan
    requires forall i :: 0 <= i < |plan| ==> Near(points, plan[i].p)
    requires forall i :: |plan| <= i < |next| ==> Spanned(next[i].p, points[k], points[k + 1])
    ensures forall i :: 0 <= i < |next| ==> Near(points, next[i].p)
  {
    hide Spanned;
    forall i | 0 <= i < |next|
      ensures Near(points, next[i].p)
    {
      if i < |plan| {
        assert next[i] == plan[i];
      } else {
        assert Spanned(next[i].p, points[k + 1 - 1], points[k + 1]);
      }
    }
  }

  lemma VisitsStep(plan: seq<Timed>, next: seq<Timed>, points: seq<Point>, lengths: seq<real>, duration: real,
                   k: nat, elapsed: real, seconds: real, stops: seq<nat>)
    requires |points| == |lengths| + 1 && k < |lengths| && |stops| == k + 1 && stops[k] == |plan| - 1
    requires elapsed * Sum(lengths) == duration * Sum(lengths[..k])
    requires Visits(plan, points, lengths, duration, stops)
    requires |plan| < |next| && next[..|plan|] == plan
    requires Last(next) == Timed(elapsed + seconds, points[k + 1])
    requires seconds * Sum(lengths) == duration * lengths[k]
    ensures Visits(next, points, lengths, duration, stops + [|next| - 1])
  {
    hide Sum;
    var after := stops + [|next| - 1];
    SumStep(lengths, k);
    Travelled(elapsed, seconds, Sum(lengths), duration, Sum(lengths[..k]), lengths[k]);
    forall j | 0 <= j < |after|
      ensures after[j] < |next| && next[after[j]].p == points[j]
      ensures next[after[j]].at * Sum(lengths) == duration * Sum(lengths[..j])
    {
      if j <= k {
        assert next[stops[j]] == plan[stops[j]];
      }
    }
  }

  lemma DrawnStart(points: seq<Point>, lengths: seq<real>, duration: real)
    requires |points| == |lengths| + 1 && |points| >= 2
    ensures Drawn([Timed(0.0, points[0])], points, lengths, duration, 0, 0.0, [0])
  {
    assert lengths[..0] == [];
    assert Spanned(points[0], points[1 - 1], points[1]);
  }

  lemma DrawnEnds(plan: seq<Timed>, points: seq<Point>, lengths: seq<real>, duration: real, elapsed: real,
                  stops: seq<nat>)
    requires Measures(points, lengths) && Sum(lengths) > 0.0 && duration > 0.0 && |plan| <= MAX_POINTS
    requires Drawn(plan, points, lengths, duration, |lengths|, elapsed, stops)
    ensures Accepted(plan, points, lengths, duration)
    ensures |plan| > 0 && plan[|plan| - 1 := Timed(duration, points[|lengths|])] == plan
  {
    hide Sum, Paced, Near, IsDistance, Visits;
    assert lengths[..|lengths|] == lengths;
    Cancel(elapsed, duration, Sum(lengths));
    Cancel(duration, elapsed, Sum(lengths));
  }

  lemma DrawnSoFar(plan: seq<Timed>, points: seq<Point>, lengths: seq<real>, duration: real, k: nat, elapsed: real,
                   stops: seq<nat>)
    requires |points| == |lengths| + 1 && Drawn(plan, points, lengths, duration, k, elapsed, stops)
    ensures |plan| > 0 && k <= |lengths| && Last(plan) == Timed(elapsed, points[k]) && Paced(plan)
  {
  }

  lemma TotalOfNone(counts: seq<nat>)
    ensures Total(counts[..0]) == 0
  {
    assert counts[..0] == [];
  }

  // The plan goes along the lines one after the other, each from where the one before it ended.
  predicate OnLines(plan: seq<Timed>, segments: seq<Segment>, counts: seq<nat>) {
    |segments| <= |counts| && forall k :: 0 <= k < |segments| ==> OnLine(plan, Total(counts[..k]), segments[k])
  }

  lemma OneLineMore(plan: seq<Timed>, next: seq<Timed>, segments: seq<Segment>, counts: seq<nat>, k: nat)
    requires k < |segments| <= |counts| && OnLines(plan, segments[..k], counts)
    requires |plan| == 1 + Total(counts[..k]) && |plan| <= |next| && next[..|plan|] == plan
    requires OnLine(next, |plan| - 1, segments[k])
    ensures OnLines(next, segments[..k + 1], counts)
  {
    hide OnLine, Total;
    forall j | 0 <= j < k
      ensures OnLine(next, Total(counts[..j]), segments[j])
    {
      assert segments[..k][j] == segments[j];
      OnLineStays(plan, next, Total(counts[..j]), segments[j]);
    }
  }

  method Draw(points: seq<Point>, lengths: seq<real>, duration: real, segments: seq<Segment>)
    returns (plan: seq<Timed>)
    requires |points| >= 2 && Measures(points, lengths) && duration > 0.0 && Sum(lengths) > 0.0
    requires |segments| == |lengths| && Divided(segments, points, lengths, duration)
    requires 1 + Total(Counts(lengths, duration, Sum(lengths))) <= MAX_POINTS
    ensures |plan| == 1 + Total(Counts(lengths, duration, Sum(lengths)))
    ensures Accepted(plan, points, lengths, duration)
    ensures OnLines(plan, segments, Counts(lengths, duration, Sum(lengths)))
  {
    hide Counts, Total, Sum, Drawn, Paced, Enough, IsDistance, Spanned, Share, Accepted, OnLine;
    ghost var counts := Counts(lengths, duration, Sum(lengths));
    plan := [Timed(0.0, points[0])];
    var elapsed := 0.0;
    ghost var stops: seq<nat> := [0];
    DrawnStart(points, lengths, duration);
    assert Total(counts[..0]) == 0 by { TotalOfNone(counts); }
    for k := 0 to |segments|
      invariant |plan| == 1 + Total(counts[..k])
      invariant Drawn(plan, points, lengths, duration, k, elapsed, stops)
      invariant OnLines(plan, segments[..k], counts)
    {
      var s := segments[k];
      SegmentIsFine(s, points[k], points[k + 1], lengths[k], duration, Sum(lengths));
      DrawnSoFar(plan, points, lengths, duration, k, elapsed, stops);
      var next := Walk(plan, s, lengths[k], elapsed);
      DrawnStep(plan, next, points, lengths, duration, k, elapsed, s.seconds, stops);
      TotalStep(counts, k);
      OneLineMore(plan, next, segments, counts, k);
      plan, elapsed, stops := next, elapsed + s.seconds, stops + [|next| - 1];
    }
    assert counts[..|lengths|] == counts && segments[..|segments|] == segments;
    DrawnEnds(plan, points, lengths, duration, elapsed, stops);
    plan := plan[|plan| - 1 := Timed(duration, points[|points| - 1])];
  }

  // Every point and every time of the plan: along each line in its fewest steps, in its share of the time.
  ghost predicate Timetable(plan: seq<Timed>, points: seq<Point>, lengths: seq<real>, duration: real)
    requires |points| == |lengths| + 1 && Sum(lengths) > 0.0
  {
    exists segments :: |segments| == |lengths| && Divided(segments, points, lengths, duration) &&
                       OnLines(plan, segments, Counts(lengths, duration, Sum(lengths)))
  }

  // The plan of a drag or a stroke: refused for its duration, or when no subdivision fits.
  method Build(points: seq<Point>, durationMs: int, lengths: seq<real>) returns (r: Result)
    requires |points| >= 2 && Measures(points, lengths)
    ensures r.Refused? <==> !(1 <= durationMs <= 2000) || !Fits(lengths, Milliseconds(durationMs))
    ensures r.Plan? ==> Accepted(r.plan, points, lengths, Milliseconds(durationMs))
    ensures r.Plan? && Sum(lengths) > 0.0 ==>
              |r.plan| == 1 + Total(Counts(lengths, Milliseconds(durationMs), Sum(lengths)))
    ensures r.Plan? && Sum(lengths) > 0.0 ==> Timetable(r.plan, points, lengths, Milliseconds(durationMs))
    ensures r.Plan? && Sum(lengths) == 0.0 ==> Held(r.plan, points[0], Milliseconds(durationMs))
  {
    hide Sum, Counts, Accepted, IsDistance, Total, Divided, OnLines, Held;
    if !(1 <= durationMs <= 2000) {
      return Refused;
    }
    var duration := Milliseconds(durationMs);
    var total := Measure(lengths);
    NotNegative(points, lengths);
    if total == 0.0 {
      var held := Hold(points, lengths, duration);
      return Plan(held);
    }
    var segments, sum := Divide(points, lengths, duration, total);
    FitsExactly(lengths, duration);
    if 1 + sum > MAX_POINTS {
      return Refused;
    }
    var plan := Draw(points, lengths, duration, segments);
    r := Plan(plan);
  }

  lemma NotNegative(points: seq<Point>, lengths: seq<real>)
    requires Measures(points, lengths)
    ensures Sum(lengths) >= 0.0
  {
    forall k | 0 <= k < |lengths|
      ensures lengths[k] >= 0.0
    {
      assert IsDistance(points[k], points[k + 1], lengths[k]);
    }
    SumNotNegative(lengths);
  }

  // Every planned point lies in every axis-parallel box that holds the path.
  lemma StaysInside(plan: seq<Timed>, points: seq<Point>, lengths: seq<real>, duration: real,
                    left: int, right: int, top: int, bottom: int)
    requires Measures(points, lengths) && Accepted(plan, points, lengths, duration)
    requires forall k :: 0 <= k < |points| ==> left <= points[k].x < right && top <= points[k].y < bottom
    ensures forall i :: 0 <= i < |plan| ==> left <= plan[i].p.x < right && top <= plan[i].p.y < bottom
  {
    hide Paced, Visits, Sum, IsDistance;
    forall i | 0 <= i < |plan|
      ensures left <= plan[i].p.x < right && top <= plan[i].p.y < bottom
    {
      assert Near(points, plan[i].p);
      var k :| 0 < k < |points| && Spanned(plan[i].p, points[k - 1], points[k]);
    }
  }

  // An accepted plan's times never go back.
  lemma {:induction false} TimesRise(plan: seq<Timed>, i: nat, j: nat)
    requires Paced(plan) && i <= j < |plan|
    ensures plan[i].at <= plan[j].at
    decreases j
  {
    if i < j {
      TimesRise(plan, i, j - 1);
      assert Follows(plan[j - 1], plan[j]);
    }
  }
}
