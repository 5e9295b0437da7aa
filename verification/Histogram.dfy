/**
 The timings histogram of src/timings.c. Samples are nanoseconds; counters are 32 bits wide.
 The 311 counters are numbered: 0 for nsec, then usec, lt10msec, msec and sec.
 */
module Histogram {
  import opened Common

  const USEC := 1
  const LT10 := 101
  const MSEC := 201
  const SEC := 301
  const SIZE := 311

  const NS_PER_US := 1000
  const NS_PER_MS := 1000000
  const NS_PER_S := 1000000000

  /** The counter lcb_histogram_record increments. */
  function BucketOf(delta: nat): (b: nat)
    ensures b < SIZE && b != SEC
  {
    if delta < 1000 then 0
    else if delta < 1000 * NS_PER_US then USEC + delta / NS_PER_US / 10
    else if delta < 10000 * NS_PER_US then LT10 + delta / NS_PER_US / 100
    else if delta < NS_PER_S then MSEC + delta / NS_PER_MS / 10
    else SEC + if delta / NS_PER_S > 9 then 9 else delta / NS_PER_S
  }

  /** What lcb_histogram_read reports for a counter: the unit in nanoseconds and the bounds. */
  datatype Range = Range(unit: nat, low: nat, high: nat)

  function RangeOf(b: nat): Range
    requires b < SIZE && b != SEC
  {
    if b == 0 then Range(1, 0, 999)
    else if b < LT10 then var i := b - USEC; Range(NS_PER_US, if i == 0 then 1 else 10 * i, 10 * i + 9)
    else if b < MSEC then var i := b - LT10; Range(NS_PER_US, if i == 0 then 1000 else 100 * i, 100 * i + 99)
    else if b < SEC then var i := b - MSEC; Range(NS_PER_MS, if i == 0 then 1 else 10 * i, 10 * i + 9)
    else if b < SIZE - 1 then var i := b - SEC; Range(NS_PER_MS, 1000 * i, 1000 * i + 999)
    else Range(NS_PER_S, 9, 9999)
  }

  ghost predicate Covers(r: Range, delta: nat) {
    r.low * r.unit <= delta < (r.high + 1) * r.unit
  }

  /** A sample lies in the range reported for its counter exactly when it is below 10000 seconds. */
  lemma SampleInRangeIff(delta: nat)
    ensures Covers(RangeOf(BucketOf(delta)), delta) <==> delta < 10000 * NS_PER_S
  {
  }

  /** The bounds are the multiples of `width` around the sample. */
  ghost predicate Fine(delta: nat, width: nat, low: nat)
    requires width > 0
  {
    var r := RangeOf(BucketOf(delta));
    (r.high + 1) * r.unit == (delta / width + 1) * width && r.low * r.unit == low
  }

  lemma FineMicroseconds(delta: nat)
    ensures 1000 <= delta < 1_000_000 ==> Fine(delta, 10_000, if delta < 10_000 then 1000 else delta / 10_000 * 10_000)
  {
    assert delta / 1000 / 10 == delta / 10_000;
  }

  lemma FineUnderTen(delta: nat)
    ensures 1_000_000 <= delta < 10_000_000 ==> Fine(delta, 100_000, delta / 100_000 * 100_000)
  {
    assert delta / 1000 / 100 == delta / 100_000;
  }

  lemma FineMilliseconds(delta: nat)
    ensures 10_000_000 <= delta < 1_000_000_000 ==> Fine(delta, 10_000_000, delta / 10_000_000 * 10_000_000)
  {
    assert delta / 1_000_000 / 10 == delta / 10_000_000;
  }

  lemma FineSeconds(delta: nat)
    ensures 1_000_000_000 <= delta < 9_000_000_000 ==>
              Fine(delta, 1_000_000_000, delta / 1_000_000_000 * 1_000_000_000)
  {
  }

  /** How fine the ranges are: ten microseconds below a millisecond, and so on up to nine seconds. */
  lemma Resolution(delta: nat)
    requires 1000 <= delta < 9_000_000_000
    ensures var width := if delta < 1_000_000 then 10_000
                         else if delta < 10_000_000 then 100_000
                         else if delta < 1_000_000_000 then 10_000_000 else 1_000_000_000;
            Fine(delta, width, if delta < 10_000 then 1000 else delta / width * width)
  {
    hide Fine;
    FineMicroseconds(delta);
    FineUnderTen(delta);
    FineMilliseconds(delta);
    FineSeconds(delta);
  }

  // ---------------------------------------------------------------- counting

  /** The counters after some samples, without overflow. */
  function Tally(samples: seq<nat>): (t: seq<nat>)
    ensures |t| == SIZE
  {
    if samples == [] then seq(SIZE, _ => 0)
    else
      var t, b := Tally(samples[..|samples| - 1]), BucketOf(samples[|samples| - 1]);
      t[b := t[b] + 1]
  }

  /** The number of samples that belong to a counter. */
  ghost function Hits(samples: seq<nat>, b: nat): (n: nat)
    ensures n <= |samples|
  {
    if samples == [] then 0
    else Hits(samples[..|samples| - 1], b) + if BucketOf(samples[|samples| - 1]) == b then 1 else 0
  }

  lemma {:induction false} TallyCounts(samples: seq<nat>, b: nat)
    requires b < SIZE
    ensures Tally(samples)[b] == Hits(samples, b)
  {
    hide BucketOf;
    if samples != [] {
      TallyCounts(samples[..|samples| - 1], b);
    }
  }

  function Sum(t: seq<nat>): nat {
    if t == [] then 0 else Sum(t[..|t| - 1]) + t[|t| - 1]
  }

  lemma {:induction false} SumUpdate(t: seq<nat>, b: nat, x: nat)
    requires b < |t|
    ensures Sum(t[b := x]) == Sum(t) - t[b] + x
  {
    var n := |t| - 1;
    if b < n {
      SumUpdate(t[..n], b, x);
      assert t[b := x][..n] == t[..n][b := x];
    } else {
      assert t[b := x][..n] == t[..n];
    }
  }

  lemma {:induction false} SumZero(n: nat)
    ensures Sum(seq(n, _ => 0)) == 0
  {
    if n > 0 {
      SumZero(n - 1);
      assert seq(n, _ => 0)[..n - 1] == seq(n - 1, _ => 0);
    }
  }

  /** No sample is lost or counted twice. */
  lemma {:induction false} TallySums(samples: seq<nat>)
    ensures Sum(Tally(samples)) == |samples| && Tally(samples)[SEC] == 0
  {
    hide BucketOf;
    if samples == [] {
      SumZero(SIZE);
    } else {
      var before, b := samples[..|samples| - 1], BucketOf(samples[|samples| - 1]);
      TallySums(before);
      SumUpdate(Tally(before), b, Tally(before)[b] + 1);
    }
  }

  ghost predicate IsMax(t: seq<nat>, m: nat) {
    (forall b :: 0 <= b < |t| ==> t[b] <= m) && (t != [] ==> m in t)
  }

  lemma MaxStep(t: seq<nat>, m: nat, b: nat)
    requires IsMax(t, m) && b < |t|
    ensures IsMax(t[b := t[b] + 1], if t[b] + 1 > m then t[b] + 1 else m)
  {
    var t' := t[b := t[b] + 1];
    if t[b] + 1 > m {
      assert t'[b] == t[b] + 1;
    } else {
      var k :| 0 <= k < |t| && t[k] == m;
      assert t'[k] == m;
    }
  }

  // ---------------------------------------------------------------- reports

  datatype Report = Report(range: Range, total: nat, max: nat)

  /**
   What lcb_histogram_read passes to the callback for the first counters; the first of the seconds is not reported.
   */
  function Reports(t: seq<nat>, max: nat, n: nat): (r: seq<Report>)
    requires n <= |t| == SIZE
  {
    if n == 0 then []
    else
      var b := n - 1;
      Reports(t, max, b) + if t[b] != 0 && b != SEC then [Report(RangeOf(b), t[b], max)] else []
  }

  function Totals(r: seq<Report>): nat {
    if r == [] then 0 else Totals(r[..|r| - 1]) + r[|r| - 1].total
  }

  lemma {:induction false} ReportsSum(t: seq<nat>, max: nat, n: nat)
    requires n <= |t| == SIZE && t[SEC] == 0
    ensures Totals(Reports(t, max, n)) == Sum(t[..n])
  {
    hide RangeOf;
    if n > 0 {
      ReportsSum(t, max, n - 1);
      assert t[..n][..n - 1] == t[..n - 1];
      var r := Reports(t, max, n - 1);
      assert r + [] == r;
      assert t[n - 1] != 0 && n - 1 != SEC ==> (r + [Report(RangeOf(n - 1), t[n - 1], max)])[..|r|] == r;
    }
  }

  /** The reported totals add up to the number of samples. */
  lemma ReportedTotals(samples: seq<nat>, max: nat)
    ensures Totals(Reports(Tally(samples), max, SIZE)) == |samples|
  {
    TallySums(samples);
    ReportsSum(Tally(samples), max, SIZE);
    assert Tally(samples)[..SIZE] == Tally(samples);
  }

  /** Every sample below 10000 seconds is counted in a report whose range holds it. */
  lemma SampleReported(samples: seq<nat>, max: nat, i: nat)
    requires i < |samples| && samples[i] < 10000 * NS_PER_S
    ensures exists r :: r in Reports(Tally(samples), max, SIZE) && Covers(r.range, samples[i]) &&
                        r.total == Hits(samples, BucketOf(samples[i])) > 0
  {
    hide RangeOf, Tally, Reports, BucketOf, Covers;
    var b := BucketOf(samples[i]);
    SampleInRangeIff(samples[i]);
    HitSelf(samples, i);
    TallyCounts(samples, b);
    ReportOf(Tally(samples), max, SIZE, b);
    assert Report(RangeOf(b), Tally(samples)[b], max) in Reports(Tally(samples), max, SIZE);
  }

  lemma {:induction false} HitSelf(samples: seq<nat>, i: nat)
    requires i < |samples|
    ensures Hits(samples, BucketOf(samples[i])) > 0
  {
    hide BucketOf;
    if i < |samples| - 1 {
      HitSelf(samples[..|samples| - 1], i);
    }
  }

  lemma {:induction false} ReportOf(t: seq<nat>, max: nat, n: nat, b: nat)
    requires b < n <= |t| == SIZE && b != SEC && t[b] != 0
    ensures Report(RangeOf(b), t[b], max) in Reports(t, max, n)
  {
    hide RangeOf;
    if b < n - 1 {
      ReportOf(t, max, n - 1, b);
    }
  }

  // ---------------------------------------------------------------- the structure

  /** ++ on a 32-bit counter. */
  function Inc(x: nat): nat {
    (x + 1) % UINT32
  }

  class HistogramData {
    var max: nat
    var nsec: nat
    const usec: array<nat>
    const lt10msec: array<nat>
    const msec: array<nat>
    const sec: array<nat>
    ghost var samples: seq<nat>

    ghost const Parts: set<object> := {usec, lt10msec, msec, sec}

    ghost predicate Shaped() {
      && usec.Length == lt10msec.Length == msec.Length == 100 && sec.Length == 10
      && usec != lt10msec && usec != msec && usec != sec && lt10msec != msec && lt10msec != sec && msec != sec
    }

    /** All counters in order. */
    ghost function Table(): (t: seq<nat>)
      requires Shaped()
      reads this, usec, lt10msec, msec, sec
      ensures |t| == SIZE
    {
      [nsec] + usec[..] + lt10msec[..] + msec[..] + sec[..]
    }

    /** With fewer than 2^32 samples the counters are exact and max is the largest of them. */
    ghost predicate Valid()
      reads this, usec, lt10msec, msec, sec
    {
      Shaped() && (|samples| < UINT32 ==> Table() == Tally(samples) && IsMax(Table(), max))
    }

    /** lcb_histogram_create */
    constructor ()
      ensures Valid() && samples == [] && fresh(Parts)
    {
      usec := new nat[100](_ => 0);
      lt10msec := new nat[100](_ => 0);
      msec := new nat[100](_ => 0);
      sec := new nat[10](_ => 0);
      max, nsec, samples := 0, 0, [];
      new;
      assert Table() == seq(SIZE, _ => 0);
      assert Table()[0] == 0;
    }

    /** lcb_histogram_record */
    method Record(delta: nat)
      requires Valid()
      modifies this, usec, lt10msec, msec, sec
      ensures Valid() && samples == old(samples) + [delta]
    {
      hide IsMax, Tally;
      ghost var was, b := Table(), BucketOf(delta);
      var num;
      if delta < 1000 {
        nsec := Inc(nsec);
        num := nsec;
      } else if delta < 1000 * NS_PER_US {
        var i := delta / NS_PER_US / 10;
        usec[i] := Inc(usec[i]);
        num := usec[i];
      } else if delta < 10000 * NS_PER_US {
        var i := delta / NS_PER_US / 100;
        lt10msec[i] := Inc(lt10msec[i]);
        num := lt10msec[i];
      } else if delta < NS_PER_S {
        var i := delta / NS_PER_MS / 10;
        msec[i] := Inc(msec[i]);
        num := msec[i];
      } else {
        var i := delta / NS_PER_S;
        if i > 9 {
          i := 9;
        }
        sec[i] := Inc(sec[i]);
        num := sec[i];
      }
      assert num == Inc(was[b]) && Table() == was[b := Inc(was[b])];
      RecordStep(samples, delta, was, max);
      if num > max {
        max := num;
      }
      samples := samples + [delta];
    }

    /** lcb_histogram_read: the reports in the order of the callbacks. */
    method Read() returns (reports: seq<Report>)
      requires Valid()
      ensures reports == Reports(Table(), max, SIZE)
      ensures |samples| < UINT32 ==> Totals(reports) == |samples| && IsMax(Tally(samples), max)
    {
      hide IsMax, Tally, RangeOf, Steps;
      PartRanges();
      ghost var t := Table();
      reports := [];
      if nsec != 0 {
        reports := [Report(Range(1, 0, 999), nsec, max)];
      }
      assert reports == Reports(t, max, USEC) by { FirstReport(t, max); }
      reports := ReadPart(usec, NS_PER_US, 1, 10, USEC, t, reports);
      reports := ReadPart(lt10msec, NS_PER_US, 1000, 100, LT10, t, reports);
      reports := ReadPart(msec, NS_PER_MS, 1, 10, MSEC, t, reports);
      reports := ReadSeconds(t, reports);
      if |samples| < UINT32 {
        ReportedTotals(samples, max);
      }
    }

    /** One of the loops over a hundred counters. */
    method ReadPart(part: array<nat>, unit: nat, first: nat, width: nat, base: nat, ghost t: seq<nat>,
        before: seq<Report>) returns (reports: seq<Report>)
      requires part.Length == 100 && width > 0 && base + 100 <= SEC && |t| == SIZE && before == Reports(t, max, base)
      requires forall i :: 0 <= i < 100 ==> part[i] == t[base + i]
      requires Steps(unit, first, width, base)
      ensures reports == Reports(t, max, base + 100)
    {
      hide RangeOf;
      reports := before;
      var start := first;
      for ii := 0 to 100
        invariant start == (if ii == 0 then first else width * ii) && reports == Reports(t, max, base + ii)
      {
        var end := (ii + 1) * width - 1;
        NextReport(t, max, base + ii);
        Distribute(ii, width);
        if part[ii] != 0 {
          reports := reports + [Report(Range(unit, start, end), part[ii], max)];
        }
        start := end + 1;
      }
    }

    /** The loop over the seconds and the last report. */
    method ReadSeconds(ghost t: seq<nat>, before: seq<Report>) returns (reports: seq<Report>)
      requires Shaped() && t == Table() && before == Reports(t, max, SEC)
      ensures reports == Reports(t, max, SIZE)
    {
      reports := before;
      NextReport(t, max, SEC);
      for ii := 1 to 9
        invariant reports == Reports(t, max, SEC + ii)
      {
        var start := ii * 1000;
        var end := (ii + 1) * 1000 - 1;
        NextReport(t, max, SEC + ii);
        if sec[ii] != 0 {
          reports := reports + [Report(Range(NS_PER_MS, start, end), sec[ii], max)];
        }
      }
      NextReport(t, max, SIZE - 1);
      if sec[9] != 0 {
        reports := reports + [Report(Range(NS_PER_S, 9, 9999), sec[9], max)];
      }
    }
  }

  /** The ranges of a hundred counters as the loops compute them. */
  ghost predicate Steps(unit: nat, first: nat, width: nat, base: nat)
    requires width > 0 && base + 100 <= SEC
  {
    forall i :: 0 <= i < 100 ==>
      RangeOf(base + i) == Range(unit, if i == 0 then first else width * i, width * i + (width - 1))
  }

  lemma PartRanges()
    ensures Steps(NS_PER_US, 1, 10, USEC) && Steps(NS_PER_US, 1000, 100, LT10) && Steps(NS_PER_MS, 1, 10, MSEC)
  {
  }

  lemma Distribute(i: nat, w: nat)
    ensures (i + 1) * w - 1 == w * i + (w - 1) && (i + 1) * w == w * (i + 1)
  {
  }

  lemma FirstReport(t: seq<nat>, max: nat)
    requires |t| == SIZE
    ensures Reports(t, max, USEC) == if t[0] != 0 then [Report(Range(1, 0, 999), t[0], max)] else []
  {
    assert Reports(t, max, 0) == [];
  }

  lemma NextReport(t: seq<nat>, max: nat, b: nat)
    requires b < |t| == SIZE
    ensures Reports(t, max, b + 1) == if t[b] != 0 && b != SEC then Reports(t, max, b) + [Report(RangeOf(b), t[b], max)]
      else Reports(t, max, b)
  {
  }

  /** One sample more, while the counters have not overflowed. */
  lemma RecordStep(samples: seq<nat>, delta: nat, t: seq<nat>, max: nat)
    requires |t| == SIZE && (|samples| < UINT32 ==> t == Tally(samples) && IsMax(t, max))
    ensures var b := BucketOf(delta); var n := Inc(t[b]);
            |samples + [delta]| < UINT32 ==>
              && t[b := n] == Tally(samples + [delta]) && IsMax(t[b := n], if n > max then n else max)
  {
    hide BucketOf;
    var b, more := BucketOf(delta), samples + [delta];
    if |more| < UINT32 {
      assert more[..|samples|] == samples;
      TallyCounts(samples, b);
      MaxStep(t, max, b);
    }
  }
}
