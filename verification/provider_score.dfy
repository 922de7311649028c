/** The recommendation score of a provider, in exact arithmetic. */
module ProviderScore {
  import opened Wrappers

  datatype JobStatus = Assigned | InProgress | Closed | OtherStatus
  datatype Job = Job(status: JobStatus, rating: Option<real>)

  /** What the other parts of the profile contribute. */
  datatype Profile = Profile(matchesCategory: bool, coversArea: bool, verified: bool, typeMatches: bool)

  datatype Confidence = Low | Medium | High
  datatype Result = Result(score: int, confidence: Confidence, bayesian: Option<real>)

  // ---------- specification ----------

  predicate IsClosed(j: Job) { j.status == Closed }

  predicate IsRated(j: Job) { j.status == Closed && j.rating.Some? }

  predicate IsActive(j: Job) { j.status == Assigned || j.status == InProgress }

  function CountClosed(jobs: seq<Job>): nat {
    if jobs == [] then 0 else CountClosed(jobs[..|jobs| - 1]) + if IsClosed(jobs[|jobs| - 1]) then 1 else 0
  }

  function CountRated(jobs: seq<Job>): nat {
    if jobs == [] then 0 else CountRated(jobs[..|jobs| - 1]) + if IsRated(jobs[|jobs| - 1]) then 1 else 0
  }

  function CountActive(jobs: seq<Job>): nat {
    if jobs == [] then 0 else CountActive(jobs[..|jobs| - 1]) + if IsActive(jobs[|jobs| - 1]) then 1 else 0
  }

  function SumRatings(jobs: seq<Job>): real {
    if jobs == [] then 0.0
    else SumRatings(jobs[..|jobs| - 1]) + if IsRated(jobs[|jobs| - 1]) then jobs[|jobs| - 1].rating.value else 0.0
  }

  /** The average pulled towards 3.8 by five imagined ratings. */
  function Bayesian(jobs: seq<Job>): Option<real> {
    var n := CountRated(jobs);
    if n == 0 then None else Some((SumRatings(jobs) + 19.0) / (n as real + 5.0))
  }

  function Min(a: real, b: real): real { if a <= b then a else b }

  function Max(a: real, b: real): real { if a >= b then a else b }

  /** `Math.round` */
  function Round(x: real): int { (x + 0.5).Floor }

  function RatingPoints(b: Option<real>): real {
    if b.None? then 0.0 else Min(25.0, Max(0.0, (b.value - 3.0) / 2.0 * 25.0))
  }

  function ClosedPoints(n: nat): real { Min(10.0, n as real * 2.0) }

  function WorkloadPoints(n: nat): real { if n == 0 then 10.0 else if n <= 2 then 5.0 else 0.0 }

  function If(b: bool, points: real): real { if b then points else 0.0 }

  function ConfidenceOf(rated: nat, closed: nat): Confidence {
    if rated >= 10 && closed >= 10 then High else if rated >= 3 || closed >= 5 then Medium else Low
  }

  function RawScore(p: Profile, jobs: seq<Job>): real {
    Total(p, Bayesian(jobs), CountClosed(jobs), CountActive(jobs))
  }

  function Total(p: Profile, bayesian: Option<real>, closed: nat, active: nat): real {
    If(p.matchesCategory, 25.0) + If(p.coversArea, 20.0) + RatingPoints(bayesian) + ClosedPoints(closed)
    + WorkloadPoints(active) + If(p.verified, 5.0) + If(p.typeMatches, 5.0)
  }

  function Capped(c: Confidence, raw: real): real {
    if c == Low then Min(raw, 74.0) else raw
  }

  function Score(p: Profile, jobs: seq<Job>): Result {
    var c := ConfidenceOf(CountRated(jobs), CountClosed(jobs));
    Result(Round(Capped(c, RawScore(p, jobs))), c, Bayesian(jobs))
  }

  // ---------- the code ----------

  method BayesianRating(jobs: seq<Job>) returns (bayesian: Option<real>)
    ensures bayesian == Bayesian(jobs)
  {
    var ratingCount := CountRated(jobs);
    if ratingCount == 0 {
      return None;
    }
    var n := ratingCount as real;
    var rawAverage := SumRatings(jobs) / n;
    var weighted := n * rawAverage + 5.0 * 3.8;
    assert weighted == SumRatings(jobs) + 19.0 by { TimesQuotient(SumRatings(jobs), n); }
    return Some(weighted / (n + 5.0));
  }

  /** The accumulation of serializeProviderDiscoveryResult before the cap. */
  method Accumulate(p: Profile, bayesian: Option<real>, closedJobs: nat, activeWorkload: nat) returns (score: real)
    ensures score == Total(p, bayesian, closedJobs, activeWorkload)
  {
    score := 0.0;
    if p.matchesCategory { score := score + 25.0; }
    if p.coversArea { score := score + 20.0; }
    assert score == If(p.matchesCategory, 25.0) + If(p.coversArea, 20.0);
    ghost var first := score;
    if bayesian.Some? {
      score := score + Min(25.0, Max(0.0, (bayesian.value - 3.0) / 2.0 * 25.0));
    }
    assert score == first + RatingPoints(bayesian);
    ghost var second := score;
    if closedJobs > 0 { score := score + Min(10.0, closedJobs as real * 2.0); }
    assert score == second + ClosedPoints(closedJobs);
    ghost var third := score;
    if activeWorkload == 0 {
      score := score + 10.0;
    } else if activeWorkload <= 2 {
      score := score + 5.0;
    }
    assert score == third + WorkloadPoints(activeWorkload);
    if p.verified { score := score + 5.0; }
    if p.typeMatches { score := score + 5.0; }
  }

  method Recommend(p: Profile, jobs: seq<Job>) returns (r: Result)
    ensures r == Score(p, jobs)
  {
    var closedJobs, ratingCount := CountClosed(jobs), CountRated(jobs);
    var bayesian := BayesianRating(jobs);
    var score := Accumulate(p, bayesian, closedJobs, CountActive(jobs));
    var confidence := Low;
    if ratingCount >= 10 && closedJobs >= 10 {
      confidence := High;
    } else if ratingCount >= 3 || closedJobs >= 5 {
      confidence := Medium;
    }
    if confidence == Low { score := Min(score, 74.0); }
    return Result(Round(score), confidence, bayesian);
  }

  lemma TimesQuotient(s: real, n: real)
    requires n > 0.0
    ensures n * (s / n) == s
  {
  }

  // ---------- properties ----------

  /** The score is an integer in 0..100, and at most 74 without a track record. */
  lemma ScoreIsInRange(p: Profile, jobs: seq<Job>)
    ensures var r := Score(p, jobs);
      0 <= r.score <= 100 && (CountRated(jobs) < 3 && CountClosed(jobs) < 5 ==> r.score <= 74)
  {
    assert 0.0 <= RawScore(p, jobs) <= 100.0;
  }

  ghost predicate RatingsInRange(jobs: seq<Job>) {
    forall j :: j in jobs && j.rating.Some? ==> 1.0 <= j.rating.value <= 5.0
  }

  lemma {:induction false} SumIsInRange(jobs: seq<Job>)
    requires RatingsInRange(jobs)
    ensures CountRated(jobs) as real <= SumRatings(jobs) <= 5.0 * CountRated(jobs) as real
  {
    if jobs != [] {
      assert jobs[|jobs| - 1] in jobs;
      assert forall j :: j in jobs[..|jobs| - 1] ==> j in jobs;
      SumIsInRange(jobs[..|jobs| - 1]);
    }
  }

  lemma QuotientBetween(s: real, n: real, lo: real, hi: real)
    requires n > 0.0 && lo * n <= s <= hi * n
    ensures lo <= s / n <= hi
  {
    var q := s / n;
    assert q * n == s;
    if q < lo { Product(lo - q, n); }
    if q > hi { Product(q - hi, n); }
  }

  lemma Product(a: real, b: real)
    requires a > 0.0 && b > 0.0
    ensures a * b > 0.0
  {
  }

  /** The Bayesian average lies between 3.8 and the raw average, which ratings of 1 to 5 keep in 1..5. */
  lemma BayesianIsBetween(jobs: seq<Job>)
    requires RatingsInRange(jobs) && CountRated(jobs) > 0
    ensures var raw := SumRatings(jobs) / CountRated(jobs) as real; var b := Bayesian(jobs).value;
      1.0 <= raw <= 5.0 && Min(3.8, raw) <= b <= Max(3.8, raw)
  {
    SumIsInRange(jobs);
    WeightedIsBetween(SumRatings(jobs), CountRated(jobs) as real);
  }

  lemma WeightedIsBetween(s: real, n: real)
    requires n > 0.0 && n <= s <= 5.0 * n
    ensures var raw := s / n; 1.0 <= raw <= 5.0 && Min(3.8, raw) <= (s + 19.0) / (n + 5.0) <= Max(3.8, raw)
  {
    QuotientBetween(s, n, 1.0, 5.0);
    var raw := s / n;
    assert raw * n == s;
    var lo, hi := Min(3.8, raw), Max(3.8, raw);
    Between(lo, raw, hi, n);
    QuotientBetween(s + 19.0, n + 5.0, lo, hi);
  }

  lemma Between(lo: real, x: real, hi: real, n: real)
    requires n > 0.0 && lo <= x <= hi && lo <= 3.8 <= hi
    ensures lo * (n + 5.0) <= x * n + 19.0 <= hi * (n + 5.0)
  {
    assert lo * n <= x * n <= hi * n by {
      if x > lo { Product(x - lo, n); }
      if hi > x { Product(hi - x, n); }
    }
  }

  /** A rating no lower than the average does not lower it. */
  lemma AverageGrows(b: real, n: real, r: real)
    requires n > 0.0 && r >= b / n
    ensures (b + r) / (n + 1.0) >= b / n
  {
    var q := b / n;
    assert q * n == b;
    assert b + r >= q * (n + 1.0);
    QuotientAtLeast(b + r, n + 1.0, q);
  }

  lemma QuotientAtLeast(s: real, n: real, lo: real)
    requires n > 0.0 && lo * n <= s
    ensures lo <= s / n
  {
    var q := s / n;
    assert q * n == s;
    if q < lo { Product(lo - q, n); }
  }

  /** The new job is closed, and rated no lower than the current Bayesian average if it is rated. */
  predicate GoodJob(jobs: seq<Job>, j: Job) {
    j.status == Closed && (j.rating.Some? && Bayesian(jobs).Some? ==> j.rating.value >= Bayesian(jobs).value)
  }

  lemma OneMoreJob(jobs: seq<Job>, j: Job)
    requires GoodJob(jobs, j)
    ensures CountClosed(jobs + [j]) == CountClosed(jobs) + 1 && CountActive(jobs + [j]) == CountActive(jobs)
    ensures CountRated(jobs + [j]) == CountRated(jobs) + if j.rating.Some? then 1 else 0
    ensures RatingPoints(Bayesian(jobs + [j])) >= RatingPoints(Bayesian(jobs))
  {
    assert (jobs + [j])[..|jobs|] == jobs;
    var n := CountRated(jobs);
    if j.rating.Some? && n > 0 {
      AverageGrows(SumRatings(jobs) + 19.0, n as real + 5.0, j.rating.value);
      assert Bayesian(jobs + [j]).value >= Bayesian(jobs).value;
    }
  }

  lemma ResultGrows(p: Profile, jobs: seq<Job>, more: seq<Job>)
    requires CountRated(jobs) <= CountRated(more) && CountClosed(jobs) <= CountClosed(more)
    requires CountActive(jobs) >= CountActive(more) && RatingPoints(Bayesian(jobs)) <= RatingPoints(Bayesian(more))
    ensures Score(p, jobs).score <= Score(p, more).score
  {
    assert RawScore(p, jobs) <= RawScore(p, more);
  }

  /** One more closed job, rated no lower than the current Bayesian average or not at all, never lowers
      the score, through the caps, the confidence step and the rounding. */
  lemma GoodJobNeverHurts(p: Profile, jobs: seq<Job>, j: Job)
    requires GoodJob(jobs, j)
    ensures Score(p, jobs).score <= Score(p, jobs + [j]).score
  {
    OneMoreJob(jobs, j);
    ResultGrows(p, jobs, jobs + [j]);
  }

  /** The counts add up over parts of a list. */
  lemma {:induction false} CountsOfConcat(a: seq<Job>, b: seq<Job>)
    ensures CountClosed(a + b) == CountClosed(a) + CountClosed(b) && CountRated(a + b) == CountRated(a) + CountRated(b)
    ensures CountActive(a + b) == CountActive(a) + CountActive(b) && SumRatings(a + b) == SumRatings(a) + SumRatings(b)
  {
    if b == [] {
      assert a + b == a;
    } else {
      var n := |b| - 1;
      CountsOfConcat(a, b[..n]);
      assert (a + b)[..|a| + n] == a + b[..n];
    }
  }

  /** Neither does closing a job that was being worked on, with a rating no lower than the average. */
  lemma FinishingNeverHurts(p: Profile, before: seq<Job>, job: Job, after: seq<Job>, rating: Option<real>)
    requires IsActive(job) && GoodJob(before + [job] + after, Job(Closed, rating))
    ensures Score(p, before + [job] + after).score <= Score(p, before + [Job(Closed, rating)] + after).score
  {
    var done := Job(Closed, rating);
    var was, now := before + [job] + after, before + [done] + after;
    Split(before, job, after);
    Split(before, done, after);
    var rest := before + after;
    CountsOfConcat(before, after);
    assert Bayesian(was) == Bayesian(rest);
    assert GoodJob(rest, done);
    OneMoreJob(rest, done);
    CountsOfConcat(rest, [done]);
    Single(done);
    assert Bayesian(now) == Bayesian(rest + [done]);
    ResultGrows(p, was, now);
  }

  lemma Single(j: Job)
    ensures CountClosed([j]) == (if IsClosed(j) then 1 else 0) && CountRated([j]) == (if IsRated(j) then 1 else 0)
    ensures CountActive([j]) == (if IsActive(j) then 1 else 0) && SumRatings([j]) == (if IsRated(j) then j.rating.value else 0.0)
  {
    assert [j][..0] == [];
  }

  lemma Split(before: seq<Job>, j: Job, after: seq<Job>)
    ensures var all := before + [j] + after;
      && CountClosed(all) == CountClosed(before) + CountClosed(after) + (if IsClosed(j) then 1 else 0)
      && CountRated(all) == CountRated(before) + CountRated(after) + (if IsRated(j) then 1 else 0)
      && CountActive(all) == CountActive(before) + CountActive(after) + (if IsActive(j) then 1 else 0)
      && SumRatings(all) == SumRatings(before) + SumRatings(after) + (if IsRated(j) then j.rating.value else 0.0)
  {
    CountsOfConcat(before, [j]);
    CountsOfConcat(before + [j], after);
    Single(j);
  }

  // ---------- what the score is made of ----------

  function ClosedJobs(jobs: seq<Job>): set<nat> {
    set i: nat | i < |jobs| && jobs[i].status == Closed
  }

  function RatedJobs(jobs: seq<Job>): set<nat> {
    set i: nat | i < |jobs| && jobs[i].status == Closed && jobs[i].rating.Some?
  }

  function ActiveJobs(jobs: seq<Job>): set<nat> {
    set i: nat | i < |jobs| && (jobs[i].status == Assigned || jobs[i].status == InProgress)
  }

  lemma ClosedIsSize(front: seq<Job>, last: Job)
    ensures |ClosedJobs(front + [last])| == |ClosedJobs(front)| + if last.status == Closed then 1 else 0
  {
    OneMoreIndex(|front|, ClosedJobs(front), ClosedJobs(front + [last]), last.status == Closed);
  }

  lemma RatedIsSize(front: seq<Job>, last: Job)
    ensures |RatedJobs(front + [last])| == |RatedJobs(front)| + if last.status == Closed && last.rating.Some? then 1 else 0
  {
    OneMoreIndex(|front|, RatedJobs(front), RatedJobs(front + [last]), last.status == Closed && last.rating.Some?);
  }

  lemma ActiveIsSize(front: seq<Job>, last: Job)
    ensures |ActiveJobs(front + [last])| ==
      |ActiveJobs(front)| + if last.status == Assigned || last.status == InProgress then 1 else 0
  {
    OneMoreIndex(|front|, ActiveJobs(front), ActiveJobs(front + [last]), last.status == Assigned || last.status == InProgress);
  }

  /** The counts are those of the jobs with the status. */
  lemma {:induction false} CountsAreSizes(jobs: seq<Job>)
    ensures CountClosed(jobs) == |ClosedJobs(jobs)| && CountRated(jobs) == |RatedJobs(jobs)|
    ensures CountActive(jobs) == |ActiveJobs(jobs)|
  {
    if jobs != [] {
      var front, last := jobs[..|jobs| - 1], jobs[|jobs| - 1];
      assert jobs == front + [last];
      CountsAreSizes(front);
      ClosedIsSize(front, last);
      RatedIsSize(front, last);
      ActiveIsSize(front, last);
    }
  }

  lemma OneMoreIndex(n: nat, before: set<nat>, all: set<nat>, more: bool)
    requires n !in before && all == (if more then before + {n} else before)
    ensures |all| == |before| + if more then 1 else 0
  {
  }

  /** The average counts as five ratings of 3.8 beside the real ones. */
  lemma FiveImaginedRatings(jobs: seq<Job>)
    requires CountRated(jobs) > 0
    ensures Bayesian(jobs).Some?
    ensures Bayesian(jobs).value * (CountRated(jobs) as real + 5.0) == SumRatings(jobs) + 5.0 * 3.8
  {
    TimesQuotient(SumRatings(jobs) + 19.0, CountRated(jobs) as real + 5.0);
  }

  /** The points before the cap: 25 for the category, 20 for the area, 5 each for verification and type. */
  lemma ProfilePoints(p: Profile, b: Option<real>, closed: nat, active: nat)
    ensures Total(p.(matchesCategory := true), b, closed, active) == Total(p.(matchesCategory := false), b, closed, active) + 25.0
    ensures Total(p.(coversArea := true), b, closed, active) == Total(p.(coversArea := false), b, closed, active) + 20.0
    ensures Total(p.(verified := true), b, closed, active) == Total(p.(verified := false), b, closed, active) + 5.0
    ensures Total(p.(typeMatches := true), b, closed, active) == Total(p.(typeMatches := false), b, closed, active) + 5.0
  {
  }

  /** 12.5 for each rating point above three, up to 25. */
  lemma AveragePoints(p: Profile, b: real, closed: nat, active: nat)
    ensures Total(p, Some(b), closed, active) == Total(p, None, closed, active)
      + if b <= 3.0 then 0.0 else if b <= 5.0 then 12.5 * (b - 3.0) else 25.0
  {
  }

  /** 2 for each closed job, up to 10; 10 without work at hand and 5 with one or two jobs. */
  lemma JobPoints(p: Profile, b: Option<real>, closed: nat, active: nat)
    ensures Total(p, b, closed, active) == Total(p, b, 0, 3)
      + (if closed < 5 then 2.0 * closed as real else 10.0)
      + (if active == 0 then 10.0 else if active < 3 then 5.0 else 0.0)
    ensures Total(Profile(false, false, false, false), None, 0, 3) == 0.0
  {
  }

  /** The score is the nearest whole number to the points, of which at most 74 count at low confidence. */
  lemma ScoreIsNearest(p: Profile, jobs: seq<Job>)
    ensures var r := Score(p, jobs);
      var raw := Total(p, Bayesian(jobs), CountClosed(jobs), CountActive(jobs));
      && (r.confidence == High <==> CountRated(jobs) >= 10 && CountClosed(jobs) >= 10)
      && (r.confidence == Low <==> CountRated(jobs) < 3 && CountClosed(jobs) < 5)
      && var counted := if r.confidence == Low && raw > 74.0 then 74.0 else raw;
      counted - 0.5 < r.score as real <= counted + 0.5
  {
    RatedAreClosed(jobs);
  }

  lemma {:induction false} RatedAreClosed(jobs: seq<Job>)
    ensures CountRated(jobs) <= CountClosed(jobs)
  {
    if jobs != [] { RatedAreClosed(jobs[..|jobs| - 1]); }
  }
}
