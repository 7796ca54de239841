/**
 * Drive-thru queue of the restaurant, as a single-server M/M/1 queue: cars
 * arrive at rate lambda per hour and are served at rate mu per hour. The
 * steady-state metrics exist only when service is faster than arrivals.
 */
module Queueing {
  import opened Wrappers

  /** The steady-state figures the tab reports: utilisation rho, mean number
      of cars in the system (l) and in the queue (lq), mean hours spent in the
      system (w) and in the queue (wq), and the probability p0 of an empty
      system. */
  datatype Metrics = Metrics(rho: real, l: real, lq: real, w: real, wq: real, p0: real)

  /** The metrics for integer rates (the sliders give whole cars per hour,
      at least 1); None when mu <= lambda, the unstable case the tab refuses
      with an error message. */
  function Analyze(lambda: int, mu: int): (r: Option<Metrics>)
    requires lambda >= 1 && mu >= 1
    ensures r.None? <==> mu <= lambda
    ensures r.Some? ==> 0.0 < r.value.rho < 1.0 && r.value.rho * (mu as real) == lambda as real
    ensures r.Some? ==> r.value.p0 > 0.0 && r.value.p0 + r.value.rho == 1.0
    ensures r.Some? ==> r.value.l > 0.0 && r.value.lq > 0.0 && r.value.w > 0.0 && r.value.wq > 0.0
  {
    if mu <= lambda then None
    else
      var rho := lambda as real / mu as real;
      RateRatio(lambda as real, mu as real);
      var l := rho / (1.0 - rho);
      var lq := (rho * rho) / (1.0 - rho);
      var w := (1.0 / mu as real) / (1.0 - rho);
      var wq := w - 1.0 / mu as real;
      ServiceShare(mu as real, 1.0 - rho);
      Some(Metrics(rho, l, lq, w, wq, 1.0 - rho))
  }

  /** The utilisation of a stable queue lies strictly between 0 and 1. */
  lemma RateRatio(lambda: real, mu: real)
    requires 1.0 <= lambda < mu
    ensures 0.0 < lambda / mu < 1.0 && (lambda / mu) * mu == lambda
  {
  }

  /** Spreading 1/mu over an idle share below 1 makes it longer than 1/mu. */
  lemma ServiceShare(mu: real, idle: real)
    requires mu > 0.0 && 0.0 < idle < 1.0
    ensures (1.0 / mu) / idle > 1.0 / mu
  {
    assert (1.0 / mu) / idle * idle == 1.0 / mu;
  }

  /** A quantity a/mu spread over the idle share 1 - lambda/mu. */
  lemma OverIdle(a: real, lam: real, m: real)
    requires 0.0 < lam < m
    ensures (a / m) / (1.0 - lam / m) == a / (m - lam)
  {
    var idle := 1.0 - lam / m;
    assert idle * m == m - lam;
    assert (a / m) / idle * (m - lam) == (a / m) / idle * idle * m;
  }

  lemma SquareRatio(lam: real, m: real)
    requires m > 0.0
    ensures (lam / m) * (lam / m) == (lam * lam / m) / m
  {
    var r := lam / m;
    assert r * m == lam;
    assert (r * r) * m == r * lam;
    assert lam * lam / m == r * lam;
  }

  lemma QueueTime(lam: real, m: real)
    requires 0.0 < lam < m
    ensures 1.0 / (m - lam) - 1.0 / m == lam / (m * (m - lam))
  {
    assert (1.0 / (m - lam)) * (m * (m - lam)) == m;
    assert (1.0 / m) * (m * (m - lam)) == m - lam;
  }

  lemma SquareOver(lam: real, m: real)
    requires 0.0 < lam < m
    ensures (lam * lam / m) / (m - lam) == (lam * lam) / (m * (m - lam))
  {
  }

  /** The textbook closed forms in the two rates: L = lambda/(mu - lambda),
      Lq = lambda^2/(mu(mu - lambda)), W = 1/(mu - lambda) and
      Wq = lambda/(mu(mu - lambda)). */
  lemma ClosedForms(lambda: int, mu: int)
    requires 1 <= lambda < mu
    ensures var m, lam := mu as real, lambda as real;
      var r := Analyze(lambda, mu).value;
      r.l == lam / (m - lam) && r.w == 1.0 / (m - lam) &&
      r.lq == (lam * lam) / (m * (m - lam)) && r.wq == lam / (m * (m - lam))
  {
    var m, lam := mu as real, lambda as real;
    OverIdle(lam, lam, m);
    OverIdle(1.0, lam, m);
    SquareRatio(lam, m);
    OverIdle(lam * lam / m, lam, m);
    SquareOver(lam, m);
    QueueTime(lam, m);
  }

  /** Little's law in both forms (L = lambda·W, Lq = lambda·Wq), and the
      relations between the metrics: Lq = rho·L, L - Lq = rho, W - Wq = 1/mu. */
  lemma LittlesLaw(lambda: int, mu: int)
    requires 1 <= lambda < mu
    ensures var m, lam := mu as real, lambda as real;
      var r := Analyze(lambda, mu).value;
      r.l == lam * r.w && r.lq == lam * r.wq && r.lq == r.rho * r.l &&
      r.l - r.lq == r.rho && r.w - r.wq == 1.0 / m
  {
    var m, lam := mu as real, lambda as real;
    var r := Analyze(lambda, mu).value;
    ClosedForms(lambda, mu);
    assert r.rho == lam / m;
    assert lam * (1.0 / (m - lam)) == lam / (m - lam);
    assert lam * (lam / (m * (m - lam))) == (lam * lam) / (m * (m - lam));
    assert (lam / m) * (lam / (m - lam)) == (lam * lam) / (m * (m - lam));
    assert lam / (m - lam) - (lam * lam) / (m * (m - lam)) == lam / m by {
      assert lam / (m - lam) == (lam * m) / (m * (m - lam));
      assert lam * m - lam * lam == lam * (m - lam);
    }
  }
}
