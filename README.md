# Mathematical models of an industry dashboard, in Dafny

The dashboard in `app.py` has four tabs. Each tab sets up a small case study
and computes its answer from the values on the input widgets. This project
models the computing core of three of those tabs and proves what they promise.

- **Production optimisation** (`optimasi_produksi`, module `Production`,
  `production.dfy`). A teak-furniture workshop makes tables (*meja*) and
  chairs (*kursi*). Two resources limit it: craftsmen hours (*jam*) and teak
  wood (*kayu*). The solver works in four steps:
  - It computes the four axis intercepts of the two constraint lines.
  - It solves the 2×2 system for the crossing point. A singular system or a
    negative coordinate becomes the origin.
  - It lists the corner points: the origin, every intercept that satisfies the
    other constraint, and the crossing when it is strictly positive.
  - It scans the set of those points with a strict `>` from profit 0 and plan
    (0, 0). It keeps the best profit and the best point floored to whole
    units, then reports the hours and wood that plan uses and their share of
    the totals.

  `Optimize` proves the result is the global optimum of the linear programme:
  - every feasible point earns at most the reported profit, and a feasible
    point earns exactly that much;
  - the floored plan is non-negative, feasible and earns no more than that
    profit;
  - the shares lie in [0, 1].
- **Drive-thru queue** (`model_antrian`, module `Queueing`, `queueing.dfy`).
  This is an M/M/1 queue with integer arrival and service rates. There are no
  metrics when μ ≤ λ. Otherwise the tab computes ρ, L, Lq, W, Wq and p0 by the
  code's formulas. The model proves:
  - the bounds on each metric;
  - the closed forms in λ and μ;
  - Little's law.
- **Reliability of a serial line** (`model_keandalan_produksi`, module
  `Reliability`, `reliability.dfy`). Four stations work in series. The line's
  reliability is the product of the stations' reliabilities, its failure
  probability is one minus that, and the weakest station is the first of least
  reliability in line order.

`wrappers.dfy` holds the `Option` type used for refused results.

All arithmetic is over Dafny's exact `real`. The widgets' lower bounds become
preconditions:
- profits are ≥ 0;
- per-unit hours and wood are ≥ 1;
- totals are ≥ 1;
- queue rates are integers ≥ 1;
- station reliabilities lie in [0.80, 1.00].

### How the selection in app.py behaves

The model follows these facts about `app.py:95-102`:

- Profits are compared exactly, with a strict `>`, starting from profit 0
  and plan (0, 0).
- Duplicate corner points are removed by putting the list into a Python
  `set`, and the scan keeps the first strictly better point in whatever
  order the set yields. `SelectOptimum` takes the points in an arbitrary
  order; `SelectionProfitUnique` shows the reported profit does not depend
  on that order.
- The profit reported is that of the unrounded corner, while the plan is
  that corner rounded down, so the plan can earn less than the figure shown.
  `Optimize` states the reported profit as the optimum over the continuous
  region and proves that the rounded plan earns no more than it.

## Model

| member | source | states |
|---|---|---|
| Production.Profit | app.py:99 | The profit of a point is profit per table times tables plus profit per chair times chairs; it is non-negative for non-negative profits and amounts. |
| Production.FloorPlan | app.py:102 | Each coordinate is rounded down to the greatest whole number not above it. |
| Production.AxisIntercept | app.py:67-71 | The intercept lies on its line (coef·r = total) and is positive when the total is positive. |
| Production.InterceptFacts | app.py:67-71 | Under the widget bounds all four intercepts are positive, and each uses up exactly its own resource. |
| Production.Solve2 | app.py:74-80 | The solve is refused exactly when the determinant is 0 (the `LinAlgError` path); otherwise the point satisfies both equations. |
| Production.Solve2Unique | app.py:74-80 | A non-singular system has only one solution, and the solve returns it. |
| Production.Intersection | app.py:74-80 | The kept crossing is non-negative. It is the origin when the matrix is singular. Otherwise it is the origin or a point on both lines, and it is the only non-negative point on both lines. |
| Production.CrossingPositive | app.py:74-93 | When one line has the larger x-intercept and the other the larger y-intercept, the crossing is strictly positive, lies on both lines and is kept. |
| Production.InterceptFeasible | app.py:82-91 | An axis intercept is feasible exactly when it passes the check against the other constraint; the origin is feasible. |
| Production.CornerPoints | app.py:82-93 | The list starts with (0, 0) and holds 1 to 6 points, each feasible and of a candidate kind. Each intercept is listed iff it satisfies the other constraint. The crossing is listed when it is strictly positive, and it is the only strictly positive point listed. |
| Production.CornerListMembers | app.py:82-93 | The conditional appends give a list whose members are exactly the origin plus each point whose condition holds. |
| Production.CornerListFacts | app.py:82-93 | The conditional list is feasible and characterised point by point, as CornerPoints promises. |
| Production.SelectOptimum | app.py:95-102 | Whatever order the set is scanned in: the best profit is ≥ 0 and at least every candidate's profit. A best of 0 leaves plan (0, 0). A positive best is the profit of some candidate, and the plan is that candidate floored. |
| Production.SelectionProfitUnique | app.py:95-102 | Any two outcomes of the scan report the same profit, so the scan order does not change it. |
| Production.FloorPlanFeasible | app.py:100-102 | Flooring a feasible point gives non-negative whole units that are still feasible and earn no more than the point. |
| Production.SlopeBound | app.py:82-102 | Weak duality for one constraint: when the profit's slope favours x, no point under the line earns more than its x-intercept. |
| Production.CrossingDual | app.py:82-102 | Weak duality for two constraints: when the profit's slope lies between those of two skewed lines, no point under both earns more than a point on both. |
| Production.CrossingBound | app.py:82-102 | When the profit's slope lies between those of the two constraint lines, no feasible point earns more than the crossing. |
| Production.CornersBoundRegion | app.py:82-102 | A bound on the profit at every corner the solver lists bounds the profit of every feasible point. |
| Production.SelectionIsOptimal | app.py:82-102 | The selected profit is the maximum of the profit over the whole feasible region, and some feasible point reaches it. |
| Production.Share | app.py:114-115 | The share times the total is the amount used, and it lies in [0, 1] when the amount is within the total. |
| Production.Assess | app.py:112-115 | Hours and wood used are those of the plan and lie in [0, total]; each utilisation is used / total and lies in [0, 1]. |
| Production.Optimize | app.py:64-115 | The plan is non-negative whole units and feasible. The reported profit is the maximum over the feasible region, and a feasible point attains it. A profit of 0 gives plan (0, 0). A positive profit is the profit of a feasible origin, intercept or crossing point, and the plan is that point rounded down. The plan earns no more than the reported profit. The report's usage and shares are those of the plan. |
| Queueing.Analyze | app.py:233-246 | There are no metrics exactly when μ ≤ λ. Otherwise ρ·μ = λ with 0 < ρ < 1, p0 = 1 − ρ > 0, and L, Lq, W, Wq are all positive. |
| Queueing.ClosedForms | app.py:241-246 | L = λ/(μ−λ), W = 1/(μ−λ), Lq = λ²/(μ(μ−λ)), Wq = λ/(μ(μ−λ)). |
| Queueing.LittlesLaw | app.py:241-246 | L = λ·W, Lq = λ·Wq, Lq = ρ·L, L − Lq = ρ and W − Wq = 1/μ. |
| Reliability.Series | app.py:317 | The line's reliability is the product of its stations' reliabilities, 1 for an empty line. |
| Reliability.SeriesIsProbability | app.py:315-317 | The product of reliabilities that are probabilities is a probability. |
| Reliability.SeriesAtMostEach | app.py:315-321 | A serial line is no more reliable than any one of its stations, the weakest included. |
| Reliability.Weakest | app.py:319-321 | The index found is the first station of least reliability: no station is less reliable, and every earlier one is strictly more reliable. |
| Reliability.FirstWeakestUnique | app.py:319-321 | There is only one first weakest station, so ties resolve to the earliest. |
| Reliability.AssemblyLine | app.py:309-316 | The line is Stamping, Welding, Painting, Assembly with reliabilities r1..r4 in that order. |
| Reliability.SeriesOfFour | app.py:315-317 | For the four stations, the line's reliability is r1·r2·r3·r4. |
| Reliability.Analyze | app.py:308-332 | The system reliability is the product over the line, and the failure probability is one minus it. The reported weakest station is the first least reliable one, with its name and value. The system reliability lies between 0 and that value. |

## Left out

- The Streamlit interface is not modelled: tabs, widgets, messages, metrics formatting and the matplotlib charts. Widget values enter as parameters, bounded by the widgets' minimum and maximum.
- The inventory tab (`model_persediaan`, EOQ) is not part of this model. Its only branch sends every output to 0 when H or D is not positive; it uses a square root, which exact reals cannot express.
- Floating point is not modelled. Values are exact reals, so results that depend on rounding (an almost-singular matrix, intercepts equal up to rounding, ties in profit) follow exact arithmetic.
- The `float('inf')` intercepts at app.py:68-71 are not modelled: the widgets keep every per-unit coefficient ≥ 1, so that branch never runs. AxisIntercept requires a positive coefficient instead.
- np.linalg.solve is modelled by Cramer's rule. Over exact reals it raises exactly when the determinant is 0.
- Production.SelectOptimum: the order in which Python iterates a set of tuples is not modelled. The scan takes the points in any order, so the chosen plan among equally profitable corners is left open. The profit is not.
- The message chosen by `rho > 0.85` (app.py:251-254) only picks display text and is not modelled.
- Queueing.Analyze takes the rates as integers ≥ 1 and does not require the sliders' upper bound of 100, which no formula depends on.
- Reliability.Analyze requires each reliability in [0.80, 1.00]. The slider step of 0.01 is not modelled.
- The order in which np.prod multiplies is not modelled; over exact reals it does not change the product.
