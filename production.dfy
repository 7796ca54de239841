/**
 * Production optimisation of the furniture workshop: two products (tables and
 * chairs), two limited resources (craftsmen hours and teak wood), a linear
 * profit. The solver enumerates corner points of the feasible region, keeps the
 * most profitable one and floors it to whole units.
 */
module Production {
  import opened Wrappers

  /** The model's parameters: profit per table and per chair, hours and wood
      needed by one table and by one chair, and the weekly hours and wood. */
  datatype Params = Params(
    profitTable: real, profitChair: real,
    hoursTable: real, hoursChair: real,
    woodTable: real, woodChair: real,
    totalHours: real, totalWood: real)

  /** The lower bounds the input widgets put on every parameter. */
  predicate ValidParams(p: Params) {
    p.profitTable >= 0.0 && p.profitChair >= 0.0 &&
    p.hoursTable >= 1.0 && p.hoursChair >= 1.0 &&
    p.woodTable >= 1.0 && p.woodChair >= 1.0 &&
    p.totalHours >= 1.0 && p.totalWood >= 1.0
  }

  /** A point (tables, chairs) of the real plane. */
  datatype Point = Point(x: real, y: real)

  const Origin := Point(0.0, 0.0)

  /** A production plan in whole units. */
  datatype Plan = Plan(tables: int, chairs: int)

  /** The weekly profit of producing q.x tables and q.y chairs. */
  function Profit(p: Params, q: Point): (r: real)
    ensures p.profitTable >= 0.0 && p.profitChair >= 0.0 && q.x >= 0.0 && q.y >= 0.0 ==> r >= 0.0
  {
    p.profitTable * q.x + p.profitChair * q.y
  }

  function HoursUsed(p: Params, q: Point): real {
    p.hoursTable * q.x + p.hoursChair * q.y
  }

  function WoodUsed(p: Params, q: Point): real {
    p.woodTable * q.x + p.woodChair * q.y
  }

  /** The point satisfies the constraint a·x + b·y <= c. */
  predicate Below(a: real, b: real, c: real, q: Point) {
    a * q.x + b * q.y <= c
  }

  /** The point lies on the line a·x + b·y = c. */
  predicate OnLine(a: real, b: real, c: real, q: Point) {
    a * q.x + b * q.y == c
  }

  /** The feasible region: the non-negative quadrant under both constraints. */
  predicate Feasible(p: Params, q: Point) {
    q.x >= 0.0 && q.y >= 0.0 &&
    Below(p.hoursTable, p.hoursChair, p.totalHours, q) && Below(p.woodTable, p.woodChair, p.totalWood, q)
  }

  /** The point lies on both constraint lines. */
  predicate OnBothLines(p: Params, q: Point) {
    OnLine(p.hoursTable, p.hoursChair, p.totalHours, q) && OnLine(p.woodTable, p.woodChair, p.totalWood, q)
  }

  function PlanPoint(plan: Plan): Point {
    Point(plan.tables as real, plan.chairs as real)
  }

  /** Whole units of a point, each coordinate rounded down. */
  function FloorPlan(q: Point): (r: Plan)
    ensures r.tables as real <= q.x < r.tables as real + 1.0
    ensures r.chairs as real <= q.y < r.chairs as real + 1.0
  {
    Plan(q.x.Floor, q.y.Floor)
  }

  // ---------------------------------------------------------------------------
  // Axis intercepts and the crossing of the two constraint lines

  /** Where the line coef·v = total meets its axis. */
  function AxisIntercept(total: real, coef: real): (r: real)
    requires coef > 0.0
    ensures coef * r == total
    ensures total > 0.0 ==> r > 0.0
  {
    total / coef
  }

  function HoursX(p: Params): real requires ValidParams(p) { AxisIntercept(p.totalHours, p.hoursTable) }
  function HoursY(p: Params): real requires ValidParams(p) { AxisIntercept(p.totalHours, p.hoursChair) }
  function WoodX(p: Params): real requires ValidParams(p) { AxisIntercept(p.totalWood, p.woodTable) }
  function WoodY(p: Params): real requires ValidParams(p) { AxisIntercept(p.totalWood, p.woodChair) }

  /** The determinant of the constraint matrix. */
  function Determinant(p: Params): real {
    p.hoursTable * p.woodChair - p.woodTable * p.hoursChair
  }

  /** Cramer's rule for a1·x + b1·y = c1, a2·x + b2·y = c2; None when the
      matrix is singular. */
  function Solve2(a1: real, b1: real, c1: real, a2: real, b2: real, c2: real): (r: Option<Point>)
    ensures r.None? <==> a1 * b2 - a2 * b1 == 0.0
    ensures r.Some? ==> a1 * r.value.x + b1 * r.value.y == c1 && a2 * r.value.x + b2 * r.value.y == c2
  {
    var det := a1 * b2 - a2 * b1;
    if det == 0.0 then None
    else
      var x, y := (c1 * b2 - c2 * b1) / det, (a1 * c2 - a2 * c1) / det;
      CramerSolves(a1, b1, c1, a2, b2, c2, det, x, y);
      Some(Point(x, y))
  }

  lemma CramerSolves(a1: real, b1: real, c1: real, a2: real, b2: real, c2: real, det: real, x: real, y: real)
    requires det == a1 * b2 - a2 * b1 && det != 0.0
    requires x == (c1 * b2 - c2 * b1) / det && y == (a1 * c2 - a2 * c1) / det
    ensures a1 * x + b1 * y == c1 && a2 * x + b2 * y == c2
  {
    assert x * det == c1 * b2 - c2 * b1;
    assert y * det == a1 * c2 - a2 * c1;
    assert (a1 * x + b1 * y) * det == c1 * det;
    assert (a2 * x + b2 * y) * det == c2 * det;
  }

  /** A non-singular system has exactly one solution: the one Cramer's rule gives. */
  lemma Solve2Unique(a1: real, b1: real, c1: real, a2: real, b2: real, c2: real, q: Point)
    requires a1 * b2 - a2 * b1 != 0.0
    requires a1 * q.x + b1 * q.y == c1 && a2 * q.x + b2 * q.y == c2
    ensures Solve2(a1, b1, c1, a2, b2, c2) == Some(q)
  {
    var det := a1 * b2 - a2 * b1;
    assert q.x * det == c1 * b2 - c2 * b1 by {
      assert b2 * (a1 * q.x + b1 * q.y) - b1 * (a2 * q.x + b2 * q.y) == q.x * det;
    }
    assert q.y * det == a1 * c2 - a2 * c1 by {
      assert a1 * (a2 * q.x + b2 * q.y) - a2 * (a1 * q.x + b1 * q.y) == q.y * det;
    }
    assert q.x == (c1 * b2 - c2 * b1) / det;
    assert q.y == (a1 * c2 - a2 * c1) / det;
  }

  /** The crossing point of the two constraint lines as the solver keeps it:
      the origin when the system is singular or a coordinate is negative. */
  function Intersection(p: Params): (r: Point)
    ensures r.x >= 0.0 && r.y >= 0.0
    ensures Determinant(p) == 0.0 ==> r == Origin
    ensures r == Origin || OnBothLines(p, r)
    ensures Determinant(p) != 0.0 ==>
      forall q :: OnBothLines(p, q) && q.x >= 0.0 && q.y >= 0.0 ==> r == q
  {
    var s := Solve2(p.hoursTable, p.hoursChair, p.totalHours, p.woodTable, p.woodChair, p.totalWood);
    IntersectionUnique(p, s);
    match s
    case None => Origin
    case Some(v) => if v.x < 0.0 || v.y < 0.0 then Origin else v
  }

  lemma IntersectionUnique(p: Params, s: Option<Point>)
    requires s == Solve2(p.hoursTable, p.hoursChair, p.totalHours, p.woodTable, p.woodChair, p.totalWood)
    ensures Determinant(p) != 0.0 ==> s.Some? && forall q :: OnBothLines(p, q) ==> s.value == q
  {
    if Determinant(p) != 0.0 {
      forall q | OnBothLines(p, q) ensures s.value == q {
        Solve2Unique(p.hoursTable, p.hoursChair, p.totalHours, p.woodTable, p.woodChair, p.totalWood, q);
      }
    }
  }

  // ---------------------------------------------------------------------------
  // Candidate corner points

  /** A point the solver may list: the origin, an axis intercept, or the crossing. */
  predicate IsCandidateKind(p: Params, q: Point)
    requires ValidParams(p)
  {
    q == Origin || q == Point(0.0, HoursY(p)) || q == Point(0.0, WoodY(p)) ||
    q == Point(HoursX(p), 0.0) || q == Point(WoodX(p), 0.0) || q == Intersection(p)
  }

  /** Each axis intercept is positive and lies on its own line. */
  lemma InterceptFacts(p: Params)
    requires ValidParams(p)
    ensures HoursX(p) > 0.0 && HoursY(p) > 0.0 && WoodX(p) > 0.0 && WoodY(p) > 0.0
    ensures HoursUsed(p, Point(HoursX(p), 0.0)) == p.totalHours
    ensures HoursUsed(p, Point(0.0, HoursY(p))) == p.totalHours
    ensures WoodUsed(p, Point(WoodX(p), 0.0)) == p.totalWood
    ensures WoodUsed(p, Point(0.0, WoodY(p))) == p.totalWood
  {
  }

  /** An axis intercept is feasible exactly when it satisfies the other constraint. */
  lemma InterceptFeasible(p: Params)
    requires ValidParams(p)
    ensures Feasible(p, Point(0.0, HoursY(p))) <==> WoodUsed(p, Point(0.0, HoursY(p))) <= p.totalWood
    ensures Feasible(p, Point(0.0, WoodY(p))) <==> HoursUsed(p, Point(0.0, WoodY(p))) <= p.totalHours
    ensures Feasible(p, Point(HoursX(p), 0.0)) <==> WoodUsed(p, Point(HoursX(p), 0.0)) <= p.totalWood
    ensures Feasible(p, Point(WoodX(p), 0.0)) <==> HoursUsed(p, Point(WoodX(p), 0.0)) <= p.totalHours
    ensures Feasible(p, Origin)
  {
    InterceptFacts(p);
  }

  /** Builds the list of corner points: the origin, each axis intercept that
      satisfies the other constraint, and the crossing when both of its
      coordinates are strictly positive. */
  method CornerPoints(p: Params) returns (pts: seq<Point>)
    requires ValidParams(p)
    ensures 1 <= |pts| <= 6 && pts[0] == Origin
    ensures forall q :: q in pts ==> IsCandidateKind(p, q) && Feasible(p, q)
    ensures Point(0.0, HoursY(p)) in pts <==> WoodUsed(p, Point(0.0, HoursY(p))) <= p.totalWood
    ensures Point(0.0, WoodY(p)) in pts <==> HoursUsed(p, Point(0.0, WoodY(p))) <= p.totalHours
    ensures Point(HoursX(p), 0.0) in pts <==> WoodUsed(p, Point(HoursX(p), 0.0)) <= p.totalWood
    ensures Point(WoodX(p), 0.0) in pts <==> HoursUsed(p, Point(WoodX(p), 0.0)) <= p.totalHours
    ensures Intersection(p).x > 0.0 && Intersection(p).y > 0.0 ==> Intersection(p) in pts
    ensures forall q :: q in pts && q.x > 0.0 && q.y > 0.0 ==> q == Intersection(p)
  {
    var hx, hy, wx, wy := HoursX(p), HoursY(p), WoodX(p), WoodY(p);
    var crossing := Intersection(p);
    pts := [Origin];
    if hy > 0.0 && WoodUsed(p, Point(0.0, hy)) <= p.totalWood {
      pts := pts + [Point(0.0, hy)];
    }
    if wy > 0.0 && HoursUsed(p, Point(0.0, wy)) <= p.totalHours {
      pts := pts + [Point(0.0, wy)];
    }
    if hx > 0.0 && WoodUsed(p, Point(hx, 0.0)) <= p.totalWood {
      pts := pts + [Point(hx, 0.0)];
    }
    if wx > 0.0 && HoursUsed(p, Point(wx, 0.0)) <= p.totalHours {
      pts := pts + [Point(wx, 0.0)];
    }
    if crossing.x > 0.0 && crossing.y > 0.0 {
      pts := pts + [crossing];
    }
    InterceptFacts(p);
    CornerListFacts(p, pts);
  }

  /** The list with q appended when keep holds. */
  ghost function AppendIf(pts: seq<Point>, keep: bool, q: Point): seq<Point> {
    if keep then pts + [q] else pts
  }

  /** The list CornerPoints builds, written out with its five conditions. It
      mirrors the method's body as a value, so that lemmas can speak about it. */
  ghost function CornerList(p: Params): seq<Point>
    requires ValidParams(p)
  {
    var hx, hy, wx, wy, crossing := HoursX(p), HoursY(p), WoodX(p), WoodY(p), Intersection(p);
    var l1 := AppendIf([Origin], hy > 0.0 && WoodUsed(p, Point(0.0, hy)) <= p.totalWood, Point(0.0, hy));
    var l2 := AppendIf(l1, wy > 0.0 && HoursUsed(p, Point(0.0, wy)) <= p.totalHours, Point(0.0, wy));
    var l3 := AppendIf(l2, hx > 0.0 && WoodUsed(p, Point(hx, 0.0)) <= p.totalWood, Point(hx, 0.0));
    var l4 := AppendIf(l3, wx > 0.0 && HoursUsed(p, Point(wx, 0.0)) <= p.totalHours, Point(wx, 0.0));
    AppendIf(l4, crossing.x > 0.0 && crossing.y > 0.0, crossing)
  }

  lemma AppendIfMembers(pts: seq<Point>, keep: bool, q: Point)
    ensures |pts| <= |AppendIf(pts, keep, q)| <= |pts| + 1
    ensures forall i :: 0 <= i < |pts| ==> AppendIf(pts, keep, q)[i] == pts[i]
    ensures forall r :: r in AppendIf(pts, keep, q) <==> r in pts || (keep && r == q)
  {
  }

  /** The members of the corner list: the origin and each point whose
      condition holds. */
  lemma CornerListMembers(p: Params)
    requires ValidParams(p)
    ensures 1 <= |CornerList(p)| <= 6 && CornerList(p)[0] == Origin
    ensures var hx, hy, wx, wy, crossing := HoursX(p), HoursY(p), WoodX(p), WoodY(p), Intersection(p);
      forall q :: q in CornerList(p) <==>
        q == Origin ||
        (hy > 0.0 && WoodUsed(p, Point(0.0, hy)) <= p.totalWood && q == Point(0.0, hy)) ||
        (wy > 0.0 && HoursUsed(p, Point(0.0, wy)) <= p.totalHours && q == Point(0.0, wy)) ||
        (hx > 0.0 && WoodUsed(p, Point(hx, 0.0)) <= p.totalWood && q == Point(hx, 0.0)) ||
        (wx > 0.0 && HoursUsed(p, Point(wx, 0.0)) <= p.totalHours && q == Point(wx, 0.0)) ||
        (crossing.x > 0.0 && crossing.y > 0.0 && q == crossing)
  {
    var hx, hy, wx, wy, crossing := HoursX(p), HoursY(p), WoodX(p), WoodY(p), Intersection(p);
    var l1 := AppendIf([Origin], hy > 0.0 && WoodUsed(p, Point(0.0, hy)) <= p.totalWood, Point(0.0, hy));
    var l2 := AppendIf(l1, wy > 0.0 && HoursUsed(p, Point(0.0, wy)) <= p.totalHours, Point(0.0, wy));
    var l3 := AppendIf(l2, hx > 0.0 && WoodUsed(p, Point(hx, 0.0)) <= p.totalWood, Point(hx, 0.0));
    var l4 := AppendIf(l3, wx > 0.0 && HoursUsed(p, Point(wx, 0.0)) <= p.totalHours, Point(wx, 0.0));
    AppendIfMembers([Origin], hy > 0.0 && WoodUsed(p, Point(0.0, hy)) <= p.totalWood, Point(0.0, hy));
    AppendIfMembers(l1, wy > 0.0 && HoursUsed(p, Point(0.0, wy)) <= p.totalHours, Point(0.0, wy));
    AppendIfMembers(l2, hx > 0.0 && WoodUsed(p, Point(hx, 0.0)) <= p.totalWood, Point(hx, 0.0));
    AppendIfMembers(l3, wx > 0.0 && HoursUsed(p, Point(wx, 0.0)) <= p.totalHours, Point(wx, 0.0));
    AppendIfMembers(l4, crossing.x > 0.0 && crossing.y > 0.0, crossing);
  }

  lemma CornerListFacts(p: Params, pts: seq<Point>)
    requires ValidParams(p) && pts == CornerList(p)
    ensures 1 <= |pts| <= 6 && pts[0] == Origin
    ensures forall q :: q in pts ==> IsCandidateKind(p, q) && Feasible(p, q)
    ensures Point(0.0, HoursY(p)) in pts <==> WoodUsed(p, Point(0.0, HoursY(p))) <= p.totalWood
    ensures Point(0.0, WoodY(p)) in pts <==> HoursUsed(p, Point(0.0, WoodY(p))) <= p.totalHours
    ensures Point(HoursX(p), 0.0) in pts <==> WoodUsed(p, Point(HoursX(p), 0.0)) <= p.totalWood
    ensures Point(WoodX(p), 0.0) in pts <==> HoursUsed(p, Point(WoodX(p), 0.0)) <= p.totalHours
    ensures Intersection(p).x > 0.0 && Intersection(p).y > 0.0 ==> Intersection(p) in pts
    ensures forall q :: q in pts && q.x > 0.0 && q.y > 0.0 ==> q == Intersection(p)
  {
    CornerListMembers(p);
    InterceptFacts(p);
    InterceptFeasible(p);
    var hx, hy, wx, wy, crossing := HoursX(p), HoursY(p), WoodX(p), WoodY(p), Intersection(p);
    assert crossing.x > 0.0 && crossing.y > 0.0 ==> OnBothLines(p, crossing);
    // Equal intercepts on one axis lie on both lines, so each passes the other's check.
    assert hy == wy ==> WoodUsed(p, Point(0.0, hy)) <= p.totalWood && HoursUsed(p, Point(0.0, wy)) <= p.totalHours;
    assert hx == wx ==> WoodUsed(p, Point(hx, 0.0)) <= p.totalWood && HoursUsed(p, Point(wx, 0.0)) <= p.totalHours;
  }

  // ---------------------------------------------------------------------------
  // Selecting the optimum

  /** Scans the candidate set in whatever order the set yields its elements,
      keeping a candidate only when its profit is strictly greater than the best
      so far (which starts at profit 0 and plan (0, 0)); the plan kept is the
      candidate floored, the profit kept is the candidate's own. */
  method SelectOptimum(p: Params, candidates: set<Point>) returns (best: real, plan: Plan)
    ensures best >= 0.0
    ensures forall q :: q in candidates ==> Profit(p, q) <= best
    ensures best == 0.0 ==> plan == Plan(0, 0)
    ensures best > 0.0 ==> exists q :: q in candidates && Profit(p, q) == best && plan == FloorPlan(q)
  {
    best, plan := 0.0, Plan(0, 0);
    var rest := candidates;
    while rest != {}
      invariant rest <= candidates
      invariant best >= 0.0
      invariant forall q :: q in candidates - rest ==> Profit(p, q) <= best
      invariant best == 0.0 ==> plan == Plan(0, 0)
      invariant best > 0.0 ==> exists q :: q in candidates - rest && Profit(p, q) == best && plan == FloorPlan(q)
      decreases rest
    {
      var q :| q in rest;
      var profit := Profit(p, q);
      if profit > best {
        best := profit;
        plan := FloorPlan(q);
      }
      assert candidates - (rest - {q}) == (candidates - rest) + {q};
      rest := rest - {q};
    }
  }

  /** The profit the selection reports does not depend on the order of the scan:
      any two outcomes meeting its postcondition report the same profit. */
  lemma SelectionProfitUnique(p: Params, candidates: set<Point>, best1: real, best2: real)
    requires best1 >= 0.0 && best2 >= 0.0
    requires forall q :: q in candidates ==> Profit(p, q) <= best1 && Profit(p, q) <= best2
    requires best1 > 0.0 ==> exists q :: q in candidates && Profit(p, q) == best1
    requires best2 > 0.0 ==> exists q :: q in candidates && Profit(p, q) == best2
    ensures best1 == best2
  {
  }

  // ---------------------------------------------------------------------------
  // Rounding down the chosen point

  /** Flooring a feasible point keeps it feasible and does not raise its profit. */
  lemma FloorPlanFeasible(p: Params, q: Point)
    requires ValidParams(p) && Feasible(p, q)
    ensures FloorPlan(q).tables >= 0 && FloorPlan(q).chairs >= 0
    ensures Feasible(p, PlanPoint(FloorPlan(q)))
    ensures Profit(p, PlanPoint(FloorPlan(q))) <= Profit(p, q)
  {
    var plan := FloorPlan(q);
    assert plan.tables >= 0 && plan.chairs >= 0;
    var f := PlanPoint(plan);
    assert 0.0 <= f.x <= q.x && 0.0 <= f.y <= q.y;
    MonotoneLinear(p.hoursTable, p.hoursChair, f, q);
    MonotoneLinear(p.woodTable, p.woodChair, f, q);
    MonotoneLinear(p.profitTable, p.profitChair, f, q);
  }

  lemma MonotoneLinear(a: real, b: real, f: Point, q: Point)
    requires a >= 0.0 && b >= 0.0 && f.x <= q.x && f.y <= q.y
    ensures a * f.x + b * f.y <= a * q.x + b * q.y
  {
    ScaleMonotone(a, f.x, q.x);
    ScaleMonotone(b, f.y, q.y);
  }

  // ---------------------------------------------------------------------------
  // The corner points contain a maximiser of the profit over the region.
  // The proof is weak duality, case by case: the profit is bounded either by
  // one constraint alone (its better intercept) or by both together (the
  // crossing point).

  lemma ScaleMonotone(k: real, u: real, v: real)
    requires k >= 0.0 && u <= v
    ensures k * u <= k * v
  {
  }

  lemma CancelPositive(k: real, u: real, v: real)
    requires k > 0.0 && k * u <= k * v
    ensures u <= v
  {
  }

  lemma CancelNonZero(k: real, u: real, v: real)
    requires k != 0.0 && k * u == k * v
    ensures u == v
  {
    assert k * (u - v) == 0.0;
  }

  /** The four axis intercepts, as values: the same numbers as HoursX, HoursY,
      WoodX and WoodY, gathered so the region lemmas can take them as one
      argument instead of recomputing the divisions. */
  datatype Intercepts = Intercepts(hoursX: real, hoursY: real, woodX: real, woodY: real)

  function InterceptsOf(p: Params): Intercepts
    requires ValidParams(p)
  {
    Intercepts(HoursX(p), HoursY(p), WoodX(p), WoodY(p))
  }

  /** The line a·x + b·y = c, with positive data, meets the x-axis at hx and
      the y-axis at hy. */
  predicate MeetsAxes(a: real, b: real, c: real, hx: real, hy: real) {
    a > 0.0 && b > 0.0 && c > 0.0 && hx > 0.0 && hy > 0.0 && a * hx == c && b * hy == c
  }

  /** Each intercept lies on its own line, at a positive distance. */
  predicate InterceptsOn(p: Params, ic: Intercepts) {
    MeetsAxes(p.hoursTable, p.hoursChair, p.totalHours, ic.hoursX, ic.hoursY) &&
    MeetsAxes(p.woodTable, p.woodChair, p.totalWood, ic.woodX, ic.woodY)
  }

  lemma InterceptsOfOn(p: Params)
    requires ValidParams(p)
    ensures InterceptsOn(p, InterceptsOf(p))
  {
  }

  /** One line has the larger x-intercept, the other the larger y-intercept. */
  predicate Skewed(ic: Intercepts) {
    (ic.hoursX > ic.woodX && ic.woodY > ic.hoursY) || (ic.woodX > ic.hoursX && ic.hoursY > ic.woodY)
  }

  /** Weak duality for one constraint a·x + b·y <= c with intercept h on the
      x-axis: when the profit's slope favours x (py·a <= px·b), no point of the
      half-plane in the quadrant earns more than the intercept. */
  lemma SlopeBound(px: real, py: real, a: real, b: real, c: real, h: real, x: real, y: real)
    requires px >= 0.0 && a > 0.0 && x >= 0.0 && y >= 0.0
    requires a * x + b * y <= c && a * h == c && py * a <= px * b
    ensures px * x + py * y <= px * h
  {
    ScaleMonotone(y, py * a, px * b);
    ScaleMonotone(px, a * x + b * y, c);
    assert a * (px * x + py * y) == px * (a * x) + y * (py * a);
    assert a * (px * x + py * y) <= px * (a * x + b * y);
    assert px * c == a * (px * h);
    CancelPositive(a, px * x + py * y, px * h);
  }

  /** Ordering two intercepts orders the cross products of the line data. */
  lemma InterceptOrder(a1: real, h1: real, c1: real, a2: real, h2: real, c2: real)
    requires a1 > 0.0 && a2 > 0.0 && a1 * h1 == c1 && a2 * h2 == c2 && h1 > h2
    ensures c1 * a2 > c2 * a1
  {
    assert c1 * a2 == (a1 * a2) * h1;
    assert c2 * a1 == (a1 * a2) * h2;
    assert (a1 * a2) * h1 > (a1 * a2) * h2;
  }

  lemma ProductLess(a: real, b: real, c: real, d: real)
    requires 0.0 < a < b && 0.0 < c < d
    ensures a * c < b * d
  {
    assert a * c < b * c;
    assert b * c < b * d;
  }

  /** When line 1 has the larger x-intercept and the smaller y-intercept, the
      determinant of the system is negative. */
  lemma CrossingDeterminant(a1: real, b1: real, c1: real, a2: real, b2: real, c2: real)
    requires a1 > 0.0 && b1 > 0.0 && c1 > 0.0 && a2 > 0.0 && b2 > 0.0 && c2 > 0.0
    requires c1 * a2 > c2 * a1 && c2 * b1 > c1 * b2
    ensures a1 * b2 - a2 * b1 < 0.0
  {
    ProductLess(c2 * a1, c1 * a2, c1 * b2, c2 * b1);
    var k := c1 * c2;
    assert (c2 * a1) * (c1 * b2) == k * (a1 * b2);
    assert (c1 * a2) * (c2 * b1) == k * (a2 * b1);
    CancelPositive(k, a1 * b2, a2 * b1);
  }

  /** When line 1 has the larger x-intercept and line 2 the larger
      y-intercept, the determinant and both of Cramer's numerators are negative. */
  lemma SkewedCrossing(a1: real, b1: real, c1: real, a2: real, b2: real, c2: real,
                       h1x: real, h1y: real, h2x: real, h2y: real)
    requires MeetsAxes(a1, b1, c1, h1x, h1y) && MeetsAxes(a2, b2, c2, h2x, h2y)
    requires h1x > h2x && h2y > h1y
    ensures a1 * b2 - a2 * b1 < 0.0 && c1 * b2 - c2 * b1 < 0.0 && a1 * c2 - a2 * c1 < 0.0
  {
    InterceptOrder(a1, h1x, c1, a2, h2x, c2);
    InterceptOrder(b2, h2y, c2, b1, h1y, c1);
    CrossingDeterminant(a1, b1, c1, a2, b2, c2);
  }

  /** Skewed lines cross at a point with both coordinates strictly positive:
      Cramer's rule applies and gives positive quotients. */
  lemma SkewedQuotients(a1: real, b1: real, c1: real, a2: real, b2: real, c2: real,
                        h1x: real, h1y: real, h2x: real, h2y: real)
    requires MeetsAxes(a1, b1, c1, h1x, h1y) && MeetsAxes(a2, b2, c2, h2x, h2y)
    requires (h1x > h2x && h2y > h1y) || (h2x > h1x && h1y > h2y)
    ensures var det := a1 * b2 - a2 * b1;
      det != 0.0 && (c1 * b2 - c2 * b1) / det > 0.0 && (a1 * c2 - a2 * c1) / det > 0.0
  {
    var det, nx, ny := a1 * b2 - a2 * b1, c1 * b2 - c2 * b1, a1 * c2 - a2 * c1;
    if h1x > h2x {
      SkewedCrossing(a1, b1, c1, a2, b2, c2, h1x, h1y, h2x, h2y);
    } else {
      SkewedCrossing(a2, b2, c2, a1, b1, c1, h2x, h2y, h1x, h1y);
    }
    QuotientPositive(nx, det);
    QuotientPositive(ny, det);
  }

  lemma QuotientPositive(n: real, d: real)
    requires (d > 0.0 && n > 0.0) || (d < 0.0 && n < 0.0)
    ensures n / d > 0.0
  {
    if d < 0.0 {
      assert n / d == (-n) / (-d);
    }
  }

  /** When the lines are skewed they cross at a point with both coordinates
      strictly positive, and the solver keeps that point. */
  lemma CrossingPositive(p: Params)
    requires ValidParams(p) && Skewed(InterceptsOf(p))
    ensures Intersection(p).x > 0.0 && Intersection(p).y > 0.0 && OnBothLines(p, Intersection(p))
  {
    var a1, b1, c1 := p.hoursTable, p.hoursChair, p.totalHours;
    var a2, b2, c2 := p.woodTable, p.woodChair, p.totalWood;
    var ic := InterceptsOf(p);
    InterceptsOfOn(p);
    SkewedQuotients(a1, b1, c1, a2, b2, c2, ic.hoursX, ic.hoursY, ic.woodX, ic.woodY);
    var det := a1 * b2 - a2 * b1;
    var s := Point((c1 * b2 - c2 * b1) / det, (a1 * c2 - a2 * c1) / det);
    CramerSolves(a1, b1, c1, a2, b2, c2, det, s.x, s.y);
    CrossingIs(p, s);
  }

  /** A strictly positive point on both lines of a non-singular system is the
      crossing the solver keeps. */
  lemma CrossingIs(p: Params, s: Point)
    requires Determinant(p) != 0.0 && s.x > 0.0 && s.y > 0.0
    requires p.hoursTable * s.x + p.hoursChair * s.y == p.totalHours
    requires p.woodTable * s.x + p.woodChair * s.y == p.totalWood
    ensures Intersection(p) == s
  {
    assert OnBothLines(p, s);
  }

  /** A non-negative quotient, stated without division. */
  lemma MultiplierSign(u: real, d: real, n: real)
    requires u * d == n
    requires (d > 0.0 && n >= 0.0) || (d < 0.0 && n <= 0.0)
    ensures u >= 0.0
  {
  }

  /** The multipliers u1, u2 with u·det equal to the two numerators write the
      objective (px, py) as u1·row1 + u2·row2. */
  lemma DualMultipliers(a1: real, b1: real, a2: real, b2: real, px: real, py: real,
                        det: real, u1: real, u2: real)
    requires det == a1 * b2 - a2 * b1 && det != 0.0
    requires u1 * det == px * b2 - py * a2 && u2 * det == py * a1 - px * b1
    ensures a1 * u1 + a2 * u2 == px && b1 * u1 + b2 * u2 == py
  {
    assert det * (a1 * u1 + a2 * u2) == a1 * (u1 * det) + a2 * (u2 * det);
    assert det * (a1 * u1 + a2 * u2) == det * px;
    CancelNonZero(det, a1 * u1 + a2 * u2, px);
    assert det * (b1 * u1 + b2 * u2) == b1 * (u1 * det) + b2 * (u2 * det);
    assert det * (b1 * u1 + b2 * u2) == det * py;
    CancelNonZero(det, b1 * u1 + b2 * u2, py);
  }

  /** Weak duality with two multipliers: if the objective is u1 times the first
      row plus u2 times the second with u1, u2 >= 0, a point on both lines is at
      least as profitable as any point under both. */
  lemma DualBound(a1: real, b1: real, c1: real, a2: real, b2: real, c2: real,
                  px: real, py: real, u1: real, u2: real, q: Point, s: Point)
    requires u1 >= 0.0 && u2 >= 0.0
    requires a1 * u1 + a2 * u2 == px && b1 * u1 + b2 * u2 == py
    requires a1 * q.x + b1 * q.y <= c1 && a2 * q.x + b2 * q.y <= c2
    requires a1 * s.x + b1 * s.y == c1 && a2 * s.x + b2 * s.y == c2
    ensures px * q.x + py * q.y <= px * s.x + py * s.y
  {
    assert px * q.x + py * q.y == u1 * (a1 * q.x + b1 * q.y) + u2 * (a2 * q.x + b2 * q.y);
    assert px * s.x + py * s.y == u1 * c1 + u2 * c2;
    ScaleMonotone(u1, a1 * q.x + b1 * q.y, c1);
    ScaleMonotone(u2, a2 * q.x + b2 * q.y, c2);
  }

  lemma Quotient(n: real, d: real)
    requires d != 0.0
    ensures (n / d) * d == n
  {
  }

  /** Weak duality at the crossing of skewed lines, for line 1 with the larger
      x-intercept: when the profit's slope lies between the slopes of the two
      lines, no point under both earns more than a point on both. */
  lemma CrossingDual(a1: real, b1: real, c1: real, a2: real, b2: real, c2: real, px: real, py: real,
                     h1x: real, h1y: real, h2x: real, h2y: real, q: Point, s: Point)
    requires MeetsAxes(a1, b1, c1, h1x, h1y) && MeetsAxes(a2, b2, c2, h2x, h2y)
    requires h1x > h2x && h2y > h1y
    requires py * a1 <= px * b1 && px * b2 < py * a2
    requires Below(a1, b1, c1, q) && Below(a2, b2, c2, q) && OnLine(a1, b1, c1, s) && OnLine(a2, b2, c2, s)
    ensures px * q.x + py * q.y <= px * s.x + py * s.y
  {
    SkewedCrossing(a1, b1, c1, a2, b2, c2, h1x, h1y, h2x, h2y);
    var det := a1 * b2 - a2 * b1;
    var n1, n2 := px * b2 - py * a2, py * a1 - px * b1;
    var u1, u2 := n1 / det, n2 / det;
    Quotient(n1, det);
    Quotient(n2, det);
    MultiplierSign(u1, det, n1);
    MultiplierSign(u2, det, n2);
    DualMultipliers(a1, b1, a2, b2, px, py, det, u1, u2);
    DualBound(a1, b1, c1, a2, b2, c2, px, py, u1, u2, q, s);
  }

  /** Weak duality at the crossing of skewed lines: when the profit's slope lies
      between the slopes of the two constraints, no feasible point earns more
      than the crossing point. */
  lemma CrossingBound(p: Params, ic: Intercepts, s: Point, q: Point)
    requires ValidParams(p) && InterceptsOn(p, ic) && Skewed(ic)
    requires Feasible(p, q) && OnBothLines(p, s)
    requires ic.hoursX > ic.woodX ==> p.profitChair * p.hoursTable <= p.profitTable * p.hoursChair &&
                                      p.profitTable * p.woodChair < p.profitChair * p.woodTable
    requires ic.woodX > ic.hoursX ==> p.profitChair * p.woodTable <= p.profitTable * p.woodChair &&
                                      p.profitTable * p.hoursChair < p.profitChair * p.hoursTable
    ensures Profit(p, q) <= Profit(p, s)
  {
    if ic.hoursX > ic.woodX {
      CrossingDual(p.hoursTable, p.hoursChair, p.totalHours, p.woodTable, p.woodChair, p.totalWood,
                   p.profitTable, p.profitChair, ic.hoursX, ic.hoursY, ic.woodX, ic.woodY, q, s);
    } else {
      CrossingDual(p.woodTable, p.woodChair, p.totalWood, p.hoursTable, p.hoursChair, p.totalHours,
                   p.profitTable, p.profitChair, ic.woodX, ic.woodY, ic.hoursX, ic.hoursY, q, s);
    }
  }

  /** The candidate set a solve builds: every intercept that satisfies the other
      constraint, and the crossing point when it is strictly positive. */
  ghost predicate CoversCorners(p: Params, ic: Intercepts, candidates: set<Point>, crossing: Point) {
    (p.woodChair * ic.hoursY <= p.totalWood ==> Point(0.0, ic.hoursY) in candidates) &&
    (p.hoursChair * ic.woodY <= p.totalHours ==> Point(0.0, ic.woodY) in candidates) &&
    (p.woodTable * ic.hoursX <= p.totalWood ==> Point(ic.hoursX, 0.0) in candidates) &&
    (p.hoursTable * ic.woodX <= p.totalHours ==> Point(ic.woodX, 0.0) in candidates) &&
    (crossing.x > 0.0 && crossing.y > 0.0 ==> crossing in candidates)
  }

  /** One constraint decides the bound: its slope is no steeper than the
      profit's (py·a <= px·b) and its intercept h is the nearer one on the
      axis, so h satisfies the other constraint too; a bound m on the profit at
      that intercept then bounds every point of the region. */
  lemma InterceptCase(px: real, py: real, a: real, b: real, c: real, h: real,
                      aOther: real, hOther: real, cOther: real, x: real, y: real, m: real)
    requires px >= 0.0 && a > 0.0 && aOther >= 0.0 && x >= 0.0 && y >= 0.0
    requires a * x + b * y <= c && a * h == c && py * a <= px * b
    requires aOther * hOther == cOther && h <= hOther
    requires aOther * h <= cOther ==> px * h <= m
    ensures px * x + py * y <= m
  {
    SlopeBound(px, py, a, b, c, h, x, y);
    ScaleMonotone(aOther, h, hOther);
  }

  /** The hours line is no steeper than the profit line and meets the x-axis first. */
  predicate HoursXCase(p: Params, ic: Intercepts) {
    p.profitChair * p.hoursTable <= p.profitTable * p.hoursChair && ic.hoursX <= ic.woodX
  }

  /** The wood line is no steeper than the profit line and meets the x-axis first. */
  predicate WoodXCase(p: Params, ic: Intercepts) {
    p.profitChair * p.woodTable <= p.profitTable * p.woodChair && ic.woodX <= ic.hoursX
  }

  /** The hours line is no flatter than the profit line and meets the y-axis first. */
  predicate HoursYCase(p: Params, ic: Intercepts) {
    p.profitTable * p.hoursChair <= p.profitChair * p.hoursTable && ic.hoursY <= ic.woodY
  }

  /** The wood line is no flatter than the profit line and meets the y-axis first. */
  predicate WoodYCase(p: Params, ic: Intercepts) {
    p.profitTable * p.woodChair <= p.profitChair * p.woodTable && ic.woodY <= ic.hoursY
  }

  /** The hours intercept on the x-axis, when it satisfies the wood
      constraint, earns at most m; likewise for the other three intercepts. */
  predicate HoursXBound(p: Params, ic: Intercepts, m: real) {
    p.woodTable * ic.hoursX <= p.totalWood ==> Profit(p, Point(ic.hoursX, 0.0)) <= m
  }

  predicate WoodXBound(p: Params, ic: Intercepts, m: real) {
    p.hoursTable * ic.woodX <= p.totalHours ==> Profit(p, Point(ic.woodX, 0.0)) <= m
  }

  predicate HoursYBound(p: Params, ic: Intercepts, m: real) {
    p.woodChair * ic.hoursY <= p.totalWood ==> Profit(p, Point(0.0, ic.hoursY)) <= m
  }

  predicate WoodYBound(p: Params, ic: Intercepts, m: real) {
    p.hoursChair * ic.woodY <= p.totalHours ==> Profit(p, Point(0.0, ic.woodY)) <= m
  }

  /** What a bound m on the candidates' profit says about the corners: each
      intercept that satisfies the other constraint earns at most m, and so
      does the crossing of skewed lines. */
  ghost predicate CornerBounds(p: Params, ic: Intercepts, crossing: Point, m: real) {
    HoursXBound(p, ic, m) && WoodXBound(p, ic, m) && HoursYBound(p, ic, m) && WoodYBound(p, ic, m) &&
    (Skewed(ic) ==> OnBothLines(p, crossing) && Profit(p, crossing) <= m)
  }

  /** The hours intercept on the x-axis decides the bound in its case. */
  lemma HoursXDecides(p: Params, ic: Intercepts, m: real, q: Point)
    requires ValidParams(p) && InterceptsOn(p, ic) && HoursXBound(p, ic, m)
    requires q.x >= 0.0 && q.y >= 0.0 && Below(p.hoursTable, p.hoursChair, p.totalHours, q) && HoursXCase(p, ic)
    ensures Profit(p, q) <= m
  {
    InterceptCase(p.profitTable, p.profitChair, p.hoursTable, p.hoursChair, p.totalHours, ic.hoursX,
                  p.woodTable, ic.woodX, p.totalWood, q.x, q.y, m);
  }

  /** The wood intercept on the x-axis decides the bound in its case. */
  lemma WoodXDecides(p: Params, ic: Intercepts, m: real, q: Point)
    requires ValidParams(p) && InterceptsOn(p, ic) && WoodXBound(p, ic, m)
    requires q.x >= 0.0 && q.y >= 0.0 && Below(p.woodTable, p.woodChair, p.totalWood, q) && WoodXCase(p, ic)
    ensures Profit(p, q) <= m
  {
    InterceptCase(p.profitTable, p.profitChair, p.woodTable, p.woodChair, p.totalWood, ic.woodX,
                  p.hoursTable, ic.hoursX, p.totalHours, q.x, q.y, m);
  }

  /** The hours intercept on the y-axis decides the bound in its case. */
  lemma HoursYDecides(p: Params, ic: Intercepts, m: real, q: Point)
    requires ValidParams(p) && InterceptsOn(p, ic) && HoursYBound(p, ic, m)
    requires q.x >= 0.0 && q.y >= 0.0 && Below(p.hoursTable, p.hoursChair, p.totalHours, q) && HoursYCase(p, ic)
    ensures Profit(p, q) <= m
  {
    InterceptCase(p.profitChair, p.profitTable, p.hoursChair, p.hoursTable, p.totalHours, ic.hoursY,
                  p.woodChair, ic.woodY, p.totalWood, q.y, q.x, m);
  }

  /** The wood intercept on the y-axis decides the bound in its case. */
  lemma WoodYDecides(p: Params, ic: Intercepts, m: real, q: Point)
    requires ValidParams(p) && InterceptsOn(p, ic) && WoodYBound(p, ic, m)
    requires q.x >= 0.0 && q.y >= 0.0 && Below(p.woodTable, p.woodChair, p.totalWood, q) && WoodYCase(p, ic)
    ensures Profit(p, q) <= m
  {
    InterceptCase(p.profitChair, p.profitTable, p.woodChair, p.woodTable, p.totalWood, ic.woodY,
                  p.hoursChair, ic.hoursY, p.totalHours, q.y, q.x, m);
  }

  /** When no intercept decides, the lines are skewed and the profit's slope
      lies strictly between theirs, so the crossing decides the bound. */
  lemma CrossingDecides(p: Params, ic: Intercepts, crossing: Point, m: real, q: Point)
    requires ValidParams(p) && InterceptsOn(p, ic) && CornerBounds(p, ic, crossing, m)
    requires Feasible(p, q)
    requires !HoursXCase(p, ic) && !WoodXCase(p, ic) && !HoursYCase(p, ic) && !WoodYCase(p, ic)
    ensures Profit(p, q) <= m
  {
    assert Skewed(ic);
    CrossingBound(p, ic, crossing, q);
  }

  /** A bound on the profit of every candidate bounds the profit of each corner. */
  lemma CandidatesBound(p: Params, ic: Intercepts, candidates: set<Point>, crossing: Point, m: real)
    requires CoversCorners(p, ic, candidates, crossing)
    requires Skewed(ic) ==> crossing.x > 0.0 && crossing.y > 0.0 && OnBothLines(p, crossing)
    requires forall c :: c in candidates ==> Profit(p, c) <= m
    ensures CornerBounds(p, ic, crossing, m)
  {
  }

  /** The corner-point method is sound for the feasible region: a bound on the
      profit at every corner bounds the profit of every feasible point. */
  lemma CornersBoundRegion(p: Params, ic: Intercepts, crossing: Point, m: real, q: Point)
    requires ValidParams(p) && InterceptsOn(p, ic) && CornerBounds(p, ic, crossing, m)
    requires Feasible(p, q)
    ensures Profit(p, q) <= m
  {
    if HoursXCase(p, ic) {
      HoursXDecides(p, ic, m, q);
    } else if WoodXCase(p, ic) {
      WoodXDecides(p, ic, m, q);
    } else if HoursYCase(p, ic) {
      HoursYDecides(p, ic, m, q);
    } else if WoodYCase(p, ic) {
      WoodYDecides(p, ic, m, q);
    } else {
      CrossingDecides(p, ic, crossing, m, q);
    }
  }

  // ---------------------------------------------------------------------------
  // The whole solve and its report

  /** What the workshop tab reports: the plan, the profit, and for each resource
      the amount used by the plan and its share of the amount available. */
  datatype Report = Report(
    plan: Plan, profit: real,
    hoursUsed: real, woodUsed: real,
    hoursShare: real, woodShare: real)

  /** The share of a resource a plan uses. */
  function Share(used: real, total: real): (r: real)
    requires total > 0.0
    ensures r * total == used
    ensures 0.0 <= used <= total ==> 0.0 <= r <= 1.0
  {
    used / total
  }

  /** The report for a chosen plan and profit: the hours and wood the plan
      uses, and the share of each resource it takes. */
  function Assess(p: Params, plan: Plan, profit: real): (r: Report)
    requires ValidParams(p) && Feasible(p, PlanPoint(plan))
    ensures r.plan == plan && r.profit == profit
    ensures r.hoursUsed == HoursUsed(p, PlanPoint(plan)) && r.woodUsed == WoodUsed(p, PlanPoint(plan))
    ensures 0.0 <= r.hoursUsed <= p.totalHours && 0.0 <= r.woodUsed <= p.totalWood
    ensures r.hoursShare * p.totalHours == r.hoursUsed && 0.0 <= r.hoursShare <= 1.0
    ensures r.woodShare * p.totalWood == r.woodUsed && 0.0 <= r.woodShare <= 1.0
  {
    var x, y := plan.tables as real, plan.chairs as real;
    var hoursUsed := p.hoursTable * x + p.hoursChair * y;
    var woodUsed := p.woodTable * x + p.woodChair * y;
    Report(plan, profit, hoursUsed, woodUsed, Share(hoursUsed, p.totalHours), Share(woodUsed, p.totalWood))
  }

  /** The corner list of a solve holds every corner that the region has on the
      axes, and the crossing point when it is strictly positive. */
  lemma CornerPointsCover(p: Params, pts: seq<Point>, crossing: Point)
    requires ValidParams(p)
    requires WoodUsed(p, Point(0.0, HoursY(p))) <= p.totalWood ==> Point(0.0, HoursY(p)) in pts
    requires HoursUsed(p, Point(0.0, WoodY(p))) <= p.totalHours ==> Point(0.0, WoodY(p)) in pts
    requires WoodUsed(p, Point(HoursX(p), 0.0)) <= p.totalWood ==> Point(HoursX(p), 0.0) in pts
    requires HoursUsed(p, Point(WoodX(p), 0.0)) <= p.totalHours ==> Point(WoodX(p), 0.0) in pts
    requires crossing.x > 0.0 && crossing.y > 0.0 ==> crossing in pts
    ensures CoversCorners(p, InterceptsOf(p), (set q | q in pts), crossing)
  {
  }

  /** The selected profit is the maximum of the profit over the whole feasible
      region, and it is reached by a feasible point. The crossing point is the
      one of the two constraint lines whenever their intercepts are skewed. */
  lemma SelectionIsOptimal(p: Params, pts: seq<Point>, crossing: Point, best: real)
    requires ValidParams(p)
    requires Origin in pts && forall q :: q in pts ==> Feasible(p, q)
    requires CoversCorners(p, InterceptsOf(p), (set q | q in pts), crossing)
    requires Skewed(InterceptsOf(p)) ==> crossing.x > 0.0 && crossing.y > 0.0 && OnBothLines(p, crossing)
    requires best >= 0.0 && forall q :: q in pts ==> Profit(p, q) <= best
    requires best > 0.0 ==> exists q :: q in pts && Profit(p, q) == best
    ensures forall q :: Feasible(p, q) ==> Profit(p, q) <= best
    ensures exists q :: Feasible(p, q) && Profit(p, q) == best
  {
    var ic := InterceptsOf(p);
    InterceptsOfOn(p);
    var candidates := set q | q in pts;
    CandidatesBound(p, ic, candidates, crossing, best);
    forall q | Feasible(p, q) ensures Profit(p, q) <= best {
      CornersBoundRegion(p, ic, crossing, best, q);
    }
    if best == 0.0 {
      assert Feasible(p, Origin) && Profit(p, Origin) == best;
    }
  }

  /** Enumerates the corner points, selects the optimum over their set, and
      reports resource usage at the plan. */
  method Optimize(p: Params) returns (r: Report)
    requires ValidParams(p)
    ensures r.plan.tables >= 0 && r.plan.chairs >= 0
    ensures Feasible(p, PlanPoint(r.plan))
    ensures forall q :: Feasible(p, q) ==> Profit(p, q) <= r.profit
    ensures exists q :: Feasible(p, q) && Profit(p, q) == r.profit
    ensures r.profit == 0.0 ==> r.plan == Plan(0, 0)
    ensures r.profit > 0.0 ==> exists q :: IsCandidateKind(p, q) && Feasible(p, q) && Profit(p, q) == r.profit && r.plan == FloorPlan(q)
    ensures Profit(p, PlanPoint(r.plan)) <= r.profit
    ensures r == Assess(p, r.plan, r.profit)
  {
    var pts := CornerPoints(p);
    var best, plan := SelectOptimum(p, set q | q in pts);
    var crossing := Intersection(p);
    CornerPointsCover(p, pts, crossing);
    if Skewed(InterceptsOf(p)) {
      CrossingPositive(p);
    }
    SelectionIsOptimal(p, pts, crossing, best);
    if best > 0.0 {
      var c :| c in pts && Profit(p, c) == best && plan == FloorPlan(c);
      FloorPlanFeasible(p, c);
    }
    r := Assess(p, plan, best);
  }
}
