/**
 * Reliability of the car maker's assembly line: stations work in series, so
 * the line runs only when every station does. The tab reports the line's
 * reliability (the product of the stations'), its probability of failure, and
 * the weakest station.
 */
module Reliability {

  /** A work station and the probability that it does not stop. */
  datatype Station = Station(name: string, reliability: real)

  /** Every station's reliability is a probability. */
  predicate Probabilities(line: seq<Station>) {
    forall i :: 0 <= i < |line| ==> 0.0 <= line[i].reliability <= 1.0
  }

  /** The reliability of stations in series: the product of their
      reliabilities, 1 for an empty line. */
  function Series(line: seq<Station>): real {
    if line == [] then 1.0 else line[0].reliability * Series(line[1..])
  }

  /** A line of stations whose reliabilities are probabilities has a
      reliability that is a probability. */
  lemma {:induction false} SeriesIsProbability(line: seq<Station>)
    requires Probabilities(line)
    ensures 0.0 <= Series(line) <= 1.0
  {
    if line != [] {
      assert Probabilities(line[1..]);
      SeriesIsProbability(line[1..]);
      ProductOfProbabilities(line[0].reliability, Series(line[1..]));
    }
  }

  /** The product of two probabilities is a probability no larger than either. */
  lemma ProductOfProbabilities(a: real, b: real)
    requires 0.0 <= a <= 1.0 && 0.0 <= b <= 1.0
    ensures 0.0 <= a * b <= a && a * b <= b
  {
  }

  /** A line in series is no more reliable than any one of its stations. */
  lemma {:induction false} SeriesAtMostEach(line: seq<Station>, k: nat)
    requires Probabilities(line) && k < |line|
    ensures Series(line) <= line[k].reliability
  {
    var first, rest := line[0].reliability, Series(line[1..]);
    assert Probabilities(line[1..]);
    SeriesIsProbability(line[1..]);
    SeriesCons(line);
    if k == 0 {
      ProductOfProbabilities(first, rest);
    } else {
      SeriesAtMostEach(line[1..], k - 1);
      assert line[1..][k - 1] == line[k];
      ProductBelow(first, rest, line[k].reliability);
    }
  }

  /** Scaling by a probability keeps a non-negative value below its bound. */
  lemma ProductBelow(a: real, b: real, bound: real)
    requires 0.0 <= a <= 1.0 && 0.0 <= b <= bound
    ensures a * b <= bound
  {
  }

  /** One step of the product: the first station times the rest of the line. */
  lemma SeriesCons(line: seq<Station>)
    requires line != []
    ensures Series(line) == line[0].reliability * Series(line[1..])
  {
  }

  /** The first station of least reliability, in line order. */
  predicate FirstWeakest(line: seq<Station>, i: nat) {
    i < |line| &&
    (forall j :: 0 <= j < |line| ==> line[i].reliability <= line[j].reliability) &&
    (forall j :: 0 <= j < i ==> line[j].reliability > line[i].reliability)
  }

  /** The index of the weakest station, found by scanning the line in order
      and moving on only to a strictly less reliable station, so that ties go
      to the earliest. */
  function Weakest(line: seq<Station>): (i: nat)
    requires line != []
    ensures FirstWeakest(line, i)
  {
    if |line| == 1 then 0
    else
      var prefix := line[..|line| - 1];
      var best := Weakest(prefix);
      assert FirstWeakest(prefix, best);
      if line[|line| - 1].reliability < line[best].reliability then |line| - 1 else best
  }

  /** There is exactly one first weakest station. */
  lemma FirstWeakestUnique(line: seq<Station>, i: nat, j: nat)
    requires FirstWeakest(line, i) && FirstWeakest(line, j)
    ensures i == j
  {
    assert line[i].reliability == line[j].reliability;
  }

  /** What the tab reports about the line. */
  datatype Report = Report(system: real, weakestName: string, weakestValue: real, failure: real)

  /** The line of the case study, in the order the stations are listed. */
  function AssemblyLine(r1: real, r2: real, r3: real, r4: real): (line: seq<Station>)
    ensures |line| == 4
    ensures line[0].name == "Stamping" && line[1].name == "Welding"
    ensures line[2].name == "Painting" && line[3].name == "Assembly"
    ensures line[0].reliability == r1 && line[1].reliability == r2
    ensures line[2].reliability == r3 && line[3].reliability == r4
  {
    [Station("Stamping", r1), Station("Welding", r2), Station("Painting", r3), Station("Assembly", r4)]
  }

  /** The analysis for reliabilities set on the sliders (each in [0.80, 1.00]):
      the line's reliability, the first weakest station with its reliability,
      and the probability that the line fails. */
  function Analyze(r1: real, r2: real, r3: real, r4: real): (r: Report)
    requires 0.8 <= r1 <= 1.0 && 0.8 <= r2 <= 1.0 && 0.8 <= r3 <= 1.0 && 0.8 <= r4 <= 1.0
    ensures r.system == Series(AssemblyLine(r1, r2, r3, r4)) && r.failure == 1.0 - r.system
    ensures 0.0 <= r.system <= r.weakestValue
    ensures exists i: nat :: (FirstWeakest(AssemblyLine(r1, r2, r3, r4), i) &&
      AssemblyLine(r1, r2, r3, r4)[i] == Station(r.weakestName, r.weakestValue))
  {
    var line := AssemblyLine(r1, r2, r3, r4);
    var w := Weakest(line);
    assert Probabilities(line);
    SeriesIsProbability(line);
    SeriesAtMostEach(line, w);
    Report(Series(line), line[w].name, line[w].reliability, 1.0 - Series(line))
  }

  /** For the four stations of the case study, the line's reliability is the
      product r1·r2·r3·r4. */
  lemma SeriesOfFour(r1: real, r2: real, r3: real, r4: real)
    ensures Series(AssemblyLine(r1, r2, r3, r4)) == r1 * (r2 * (r3 * r4))
  {
    var line := AssemblyLine(r1, r2, r3, r4);
    assert line[1..] == [Station("Welding", r2), Station("Painting", r3), Station("Assembly", r4)];
    assert line[1..][1..] == [Station("Painting", r3), Station("Assembly", r4)];
    assert line[1..][1..][1..] == [Station("Assembly", r4)];
    SeriesCons(line);
    SeriesCons(line[1..]);
    SeriesCons(line[1..][1..]);
    SeriesCons(line[1..][1..][1..]);
    assert line[1..][1..][1..][1..] == [];
  }
}
