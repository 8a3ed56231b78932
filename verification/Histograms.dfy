/** Time buckets and histograms (services/mddbd/aggregation.go). */
module Histograms {
  import opened ByteStrings
  import opened Keys
  import opened Store
  import opened Search
  import opened Facets
  import opened Calendar

  datatype Bucket = Bucket(from: int, to: int)

  const MAX_BUCKETS: nat := 1000

  datatype Unit = Day | Week | Month | Year

  /** Any other word, and none, means months. */
  function UnitOf(interval: string): Unit {
    if interval == "day" then Day else if interval == "week" then Week else if interval == "year" then Year else Month
  }

  // ---- the starts of the buckets -----------------------------------------------------------------

  /** `t` starts a day, a week from Monday, a year or, for any other word, a month. */
  ghost predicate Starts(unit: Unit, t: int) {
    if unit.Day? then t % DAY == 0
    else if unit.Week? then t % DAY == 0 && Weekday(t) == 0
    else if unit.Year? then exists y: nat :: t == DAY * YearStart(y)
    else exists m: nat :: t == DAY * MonthStart(m)
  }

  /** [from, to) is one whole day, Monday week, calendar year or calendar month. */
  ghost predicate Whole(unit: Unit, b: Bucket) {
    if unit.Day? then b.from % DAY == 0 && b.to == b.from + DAY
    else if unit.Week? then b.from % DAY == 0 && Weekday(b.from) == 0 && b.to == b.from + 7 * DAY
    else if unit.Year? then exists y: nat :: b == Bucket(DAY * YearStart(y), DAY * YearStart(y + 1))
    else exists m: nat :: b == Bucket(DAY * MonthStart(m), DAY * MonthStart(m + 1))
  }

  function Next(unit: Unit, t: int): int
    requires !unit.Day? && !unit.Week? ==> t >= 0
  {
    if unit.Day? then t + DAY
    else if unit.Week? then t + 7 * DAY
    else if unit.Year? then AddMonths(t, 12)
    else AddMonths(t, 1)
  }

  lemma NextFirst(m: nat)
    ensures AddMonths(DAY * MonthStart(m), 1) == DAY * MonthStart(m + 1) > DAY * MonthStart(m)
  {
    AddMonthsToFirst(m, 1);
    NextMonth(m);
  }

  lemma NextYear(y: nat)
    ensures AddMonths(DAY * YearStart(y), 12) == DAY * YearStart(y + 1) > DAY * YearStart(y)
  {
    AddMonthsToFirst(12 * y, 12);
    assert 12 * y + 12 == 12 * (y + 1);
    January(y);
    January(y + 1);
  }

  /** The latest start at or before a moment. */
  method Align(unit: Unit, minTS: nat) returns (t: int)
    ensures Starts(unit, t) && t <= minTS
    ensures !unit.Day? && !unit.Week? ==> t >= 0
    ensures minTS < Next(unit, t)
  {
    if unit.Day? {
      t := DAY * DayOf(minTS);
    } else if unit.Week? {
      t := AlignToMonday(minTS);
    } else if unit.Year? {
      var y := MonthOf(DayOf(minTS)) / 12;
      t := DAY * YearStart(y);
      InYear(minTS, y);
    } else {
      var m := MonthOf(DayOf(minTS));
      t := DAY * MonthStart(m);
      InFirst(minTS, m);
    }
  }

  /** Back day by day to a Monday, then to its midnight. */
  method AlignToMonday(minTS: nat) returns (t: int)
    ensures t % DAY == 0 && Weekday(t) == 0 && t <= minTS < t + 7 * DAY
  {
    t := minTS;
    while Weekday(t) != 0
      invariant t <= minTS && minTS - t == DAY * (Weekday(minTS) - Weekday(t))
      decreases Weekday(t)
    {
      DayBefore(t);
      t := t - DAY;
    }
    t := DAY * DayOf(t);
  }

  lemma DayBefore(t: int)
    requires Weekday(t) != 0
    ensures DayOf(t - DAY) == DayOf(t) - 1 && Weekday(t - DAY) == Weekday(t) - 1
  {
  }

  lemma InYear(t: nat, y: nat)
    requires y == MonthOf(DayOf(t)) / 12
    ensures DAY * YearStart(y) <= t < DAY * YearStart(y + 1) == AddMonths(DAY * YearStart(y), 12)
  {
    MonthInYear(MonthOf(DayOf(t)));
    NextYear(y);
  }

  lemma InFirst(t: nat, m: nat)
    requires m == MonthOf(DayOf(t))
    ensures DAY * MonthStart(m) <= t < AddMonths(DAY * MonthStart(m), 1)
  {
    AddMonthsToFirst(m, 1);
  }

  // ---- intervals by number --------------------------------------------------------------------------

  /** The number of the day, week, year or month of a moment, counted from the epoch. */
  function IntervalOf(unit: Unit, ts: nat): nat {
    if unit.Day? then DayOf(ts)
    else if unit.Week? then (DayOf(ts) + 3) / 7
    else if unit.Year? then MonthOf(DayOf(ts)) / 12
    else MonthOf(DayOf(ts))
  }

  /** Where an interval starts; week 0 began on Monday, 29 December 1969. */
  function IntervalStart(unit: Unit, n: nat): int {
    if unit.Day? then DAY * n
    else if unit.Week? then DAY * (7 * n - 3)
    else if unit.Year? then DAY * YearStart(n)
    else DAY * MonthStart(n)
  }

  function Nth(unit: Unit, n: nat): Bucket { Bucket(IntervalStart(unit, n), IntervalStart(unit, n + 1)) }

  lemma NthIsWhole(unit: Unit, n: nat)
    ensures Starts(unit, IntervalStart(unit, n)) && Whole(unit, Nth(unit, n))
    ensures !unit.Day? && !unit.Week? ==> IntervalStart(unit, n) >= 0
    ensures Next(unit, IntervalStart(unit, n)) == IntervalStart(unit, n + 1) > IntervalStart(unit, n)
  {
    if unit.Day? {
      DivMod(DAY * n, DAY, n, 0);
    } else if unit.Week? {
      DivMod(DAY * (7 * n - 3), DAY, 7 * n - 3, 0);
      DivMod(7 * n - 3 + 3, 7, n, 0);
    } else if unit.Year? {
      NextYear(n);
    } else {
      NextFirst(n);
    }
  }

  lemma InWeek(ts: nat)
    ensures var n := (DayOf(ts) + 3) / 7; DAY * (7 * n - 3) <= ts < DAY * (7 * (n + 1) - 3)
  {
  }

  /** Every moment lies in the interval of its number. */
  lemma InInterval(unit: Unit, ts: nat)
    ensures Holds(Nth(unit, IntervalOf(unit, ts)), ts)
  {
    match unit
    case Day =>
    case Week => InWeek(ts);
    case Year => WithinYear(ts, IntervalOf(unit, ts));
    case Month => WithinMonth(ts, IntervalOf(unit, ts));
  }

  lemma WithinYear(ts: nat, y: nat)
    requires y == MonthOf(DayOf(ts)) / 12
    ensures DAY * YearStart(y) <= ts < DAY * YearStart(y + 1)
  {
    InYear(ts, y);
  }

  lemma WithinMonth(ts: nat, m: nat)
    requires m == MonthOf(DayOf(ts))
    ensures DAY * MonthStart(m) <= ts < DAY * MonthStart(m + 1)
  {
    InFirst(ts, m);
    AddMonthsToFirst(m, 1);
  }

  lemma IntervalsAscend(unit: Unit, a: nat, b: nat)
    requires a <= b
    ensures IntervalStart(unit, a) <= IntervalStart(unit, b)
  {
    match unit
    case Month => LaterMonth(a, b);
    case Year =>
      January(a);
      January(b);
      LaterMonth(12 * a, 12 * b);
    case _ =>
  }

  /** An interval has started by a moment exactly when its number is no greater. */
  lemma StartedIff(unit: Unit, n: nat, ts: nat)
    ensures IntervalStart(unit, n) <= ts <==> n <= IntervalOf(unit, ts)
  {
    var m := IntervalOf(unit, ts);
    InInterval(unit, ts);
    if n <= m {
      IntervalsAscend(unit, n, m);
    } else {
      IntervalsAscend(unit, m + 1, n);
    }
  }

  /** Moments later have no smaller number. */
  lemma {:induction false} LaterInterval(unit: Unit, a: nat, b: nat)
    requires a <= b
    ensures IntervalOf(unit, a) <= IntervalOf(unit, b)
  {
    InInterval(unit, a);
    StartedIff(unit, IntervalOf(unit, a), b);
  }

  /** How many buckets a histogram has: one for each unit, but never more than 1000. */
  function BucketCount(first: nat, last: nat): (n: nat)
    ensures n <= MAX_BUCKETS && (first <= last ==> n > 0)
  {
    if last < first then 0 else if last - first < MAX_BUCKETS then last - first + 1 else MAX_BUCKETS
  }

  /** The first n buckets between bounds. */
  ghost function Between(bounds: seq<int>, n: nat): (bs: seq<Bucket>)
    requires n < |bounds|
    ensures |bs| == n
  {
    if n == 0 then [] else Between(bounds, n - 1) + [Bucket(bounds[n - 1], bounds[n])]
  }

  lemma {:induction false} BetweenAt(bounds: seq<int>, n: nat, i: nat)
    requires i < n < |bounds|
    ensures Between(bounds, n)[i] == Bucket(bounds[i], bounds[i + 1])
  {
    if i < n - 1 {
      BetweenAt(bounds, n - 1, i);
    }
  }

  lemma BetweenMeet(bounds: seq<int>, n: nat, i: nat)
    requires i + 1 < n < |bounds|
    ensures Between(bounds, n)[i].to == Between(bounds, n)[i + 1].from
  {
    BetweenAt(bounds, n, i);
    BetweenAt(bounds, n, i + 1);
  }

  lemma BetweenEnds(bounds: seq<int>, n: nat)
    requires 0 < n < |bounds|
    ensures Between(bounds, n)[0] == Bucket(bounds[0], bounds[1]) && Between(bounds, n)[n - 1].to == bounds[n]
  {
    BetweenAt(bounds, n, 0);
    BetweenAt(bounds, n, n - 1);
  }

  /** Where so many intervals from a number on start, and the one after them. */
  ghost function StartsUpTo(unit: Unit, first: nat, n: nat): (bounds: seq<int>)
    ensures |bounds| == n + 1
  {
    (if n == 0 then [] else StartsUpTo(unit, first, n - 1)) + [IntervalStart(unit, first + n)]
  }

  lemma {:induction false} StartAt(unit: Unit, first: nat, n: nat, i: nat)
    requires i <= n
    ensures StartsUpTo(unit, first, n)[i] == IntervalStart(unit, first + i)
  {
    if i < n {
      StartAt(unit, first, n - 1, i);
    }
  }

  // ---- a run of buckets -------------------------------------------------------------------------------

  ghost predicate Contiguous(bs: seq<Bucket>) {
    && (forall i | 0 <= i < |bs| :: bs[i].from < bs[i].to)
    && (forall i | 0 <= i < |bs| - 1 :: bs[i].to == bs[i + 1].from)
  }

  lemma {:induction false} ContiguousOrder(bs: seq<Bucket>, i: nat, j: nat)
    requires Contiguous(bs) && i < j < |bs|
    ensures bs[i].to <= bs[j].from
  {
    if i + 1 < j {
      ContiguousOrder(bs, i, j - 1);
    }
  }

  ghost predicate Holds(b: Bucket, ts: int) { b.from <= ts < b.to }

  /** The starts of the intervals that get a bucket, and of the one after them: each is what the loop
      steps to, and `span + 1` intervals have started by the latest moment. */
  ghost predicate Bounds(unit: Unit, bounds: seq<int>, maxTS: int, span: nat) {
    var n := if span < MAX_BUCKETS then span + 1 else MAX_BUCKETS;
    && |bounds| == n + 1 && (bounds[n] <= maxTS <==> n <= span)
    && forall i | 0 <= i < n :: Bound(unit, bounds[i], bounds[i + 1], maxTS, i <= span)
  }

  ghost predicate Bound(unit: Unit, from: int, to: int, maxTS: int, come: bool) {
    (!unit.Day? && !unit.Week? ==> from >= 0) && Next(unit, from) == to && (from <= maxTS <==> come)
  }

  lemma StartsAreBounds(unit: Unit, first: nat, maxTS: nat, last: nat)
    requires first <= last == IntervalOf(unit, maxTS)
    ensures Bounds(unit, StartsUpTo(unit, first, BucketCount(first, last)), maxTS, last - first)
  {
    var n := BucketCount(first, last);
    var bounds := StartsUpTo(unit, first, n);
    forall i | 0 <= i < n ensures Bound(unit, bounds[i], bounds[i + 1], maxTS, i <= last - first) {
      BoundAt(unit, first, n, i, maxTS);
    }
    EndAt(unit, first, n, maxTS);
  }

  lemma BoundAt(unit: Unit, first: nat, n: nat, i: nat, maxTS: nat)
    requires i < n
    ensures var bounds := StartsUpTo(unit, first, n);
            Bound(unit, bounds[i], bounds[i + 1], maxTS, i <= IntervalOf(unit, maxTS) - first)
  {
    var bounds := StartsUpTo(unit, first, n);
    StartAt(unit, first, n, i);
    StartAt(unit, first, n, i + 1);
    StepAt(unit, first + i, first + (i + 1), bounds[i], bounds[i + 1], maxTS);
  }

  lemma EndAt(unit: Unit, first: nat, n: nat, maxTS: nat)
    ensures StartsUpTo(unit, first, n)[n] <= maxTS <==> n <= IntervalOf(unit, maxTS) - first
  {
    StartAt(unit, first, n, n);
    StartedIff(unit, first + n, maxTS);
  }

  lemma StepAt(unit: Unit, n: nat, m: nat, from: int, to: int, maxTS: nat)
    requires m == n + 1 && from == IntervalStart(unit, n) && to == IntervalStart(unit, m)
    ensures Bound(unit, from, to, maxTS, n <= IntervalOf(unit, maxTS))
  {
    NthIsWhole(unit, n);
    StartedIff(unit, n, maxTS);
  }

  /** The loop: a bucket from each bound to the next until one is past the latest moment. */
  method FillBuckets(start: int, maxTS: int, unit: Unit, ghost bounds: seq<int>, ghost span: nat)
    returns (bs: seq<Bucket>)
    requires Bounds(unit, bounds, maxTS, span) && start == bounds[0]
    ensures bs == Between(bounds, |bounds| - 1)
  {
    var t := start;
    bs := [];
    assert Bound(unit, bounds[0], bounds[1], maxTS, true);
    while t <= maxTS && |bs| < MAX_BUCKETS
      invariant |bs| < |bounds| && t == bounds[|bs|]
      invariant |bs| < |bounds| - 1 ==> t <= maxTS
      invariant bs == Between(bounds, |bs|)
      decreases MAX_BUCKETS - |bs|
    {
      assert Bound(unit, bounds[|bs|], bounds[|bs| + 1], maxTS, |bs| <= span);
      var next := Next(unit, t);
      bs := bs + [Bucket(t, next)];
      t := next;
      if |bs| < |bounds| - 1 {
        assert Bound(unit, bounds[|bs|], bounds[|bs| + 1], maxTS, |bs| <= span);
      }
    }
  }

  /** One bucket for every interval from that of the earliest moment through that of the latest, but
      no more than the first 1000 of them. */
  ghost predicate BucketsFor(unit: Unit, bs: seq<Bucket>, minTS: nat, maxTS: nat) {
    var first, last := IntervalOf(unit, minTS), IntervalOf(unit, maxTS);
    var n := BucketCount(first, last);
    first <= last && bs == Between(StartsUpTo(unit, first, n), n)
  }

  method GenerateTimeBuckets(minTS: nat, maxTS: nat, unit: Unit) returns (bs: seq<Bucket>)
    requires minTS <= maxTS
    ensures BucketsFor(unit, bs, minTS, maxTS)
  {
    var t := Align(unit, minTS);
    ghost var bounds, span := BoundsOf(unit, t, minTS, maxTS);
    bs := FillBuckets(t, maxTS, unit, bounds, span);
  }

  lemma BoundsOf(unit: Unit, t: int, minTS: nat, maxTS: nat) returns (bounds: seq<int>, span: nat)
    requires Starts(unit, t) && t <= minTS <= maxTS && (!unit.Day? && !unit.Week? ==> t >= 0)
    requires minTS < Next(unit, t)
    ensures Bounds(unit, bounds, maxTS, span) && t == bounds[0]
    ensures BucketsFor(unit, Between(bounds, |bounds| - 1), minTS, maxTS)
  {
    var first, last := IntervalOf(unit, minTS), IntervalOf(unit, maxTS);
    AlignedAt(unit, t, minTS);
    LaterInterval(unit, minTS, maxTS);
    bounds, span := BoundsFrom(unit, t, first, last, maxTS);
  }

  lemma BoundsFrom(unit: Unit, t: int, first: nat, last: nat, maxTS: nat) returns (bounds: seq<int>, span: nat)
    requires t == IntervalStart(unit, first) && first <= last == IntervalOf(unit, maxTS)
    ensures Bounds(unit, bounds, maxTS, span) && t == bounds[0]
    ensures bounds == StartsUpTo(unit, first, BucketCount(first, last))
  {
    StartsAreBounds(unit, first, maxTS, last);
    StartAt(unit, first, BucketCount(first, last), 0);
    bounds, span := StartsUpTo(unit, first, BucketCount(first, last)), last - first;
  }

  /** The latest start at or before a moment is that of its interval. */
  lemma AlignedAt(unit: Unit, t: int, minTS: nat)
    requires Starts(unit, t) && t <= minTS && (!unit.Day? && !unit.Week? ==> t >= 0)
    requires minTS < Next(unit, t)
    ensures t == IntervalStart(unit, IntervalOf(unit, minTS))
  {
    InInterval(unit, minTS);
    match unit
    case Day => assert t == DAY * DayOf(t);
    case Week => MondayAt(t, IntervalOf(unit, minTS), minTS);
    case Year =>
      var y: nat :| t == DAY * YearStart(y);
      NextYear(y);
      NumberIs(unit, y, minTS);
    case Month =>
      var n: nat :| t == DAY * MonthStart(n);
      NextFirst(n);
      NumberIs(unit, n, minTS);
  }

  lemma NumberIs(unit: Unit, n: nat, ts: nat)
    requires IntervalStart(unit, n) <= ts < IntervalStart(unit, n + 1)
    ensures IntervalOf(unit, ts) == n
  {
    StartedIff(unit, n, ts);
    StartedIff(unit, n + 1, ts);
  }

  lemma MondayAt(t: int, n: nat, ts: nat)
    requires t % DAY == 0 && Weekday(t) == 0 && t <= ts < t + 7 * DAY
    requires DAY * (7 * n - 3) <= ts < DAY * (7 * (n + 1) - 3)
    ensures t == DAY * (7 * n - 3)
  {
    var day, week := DayOf(t), (DayOf(t) + 3) / 7;
    assert t == DAY * day && day == 7 * week - 3;
  }

  /** Binary search: the bucket that holds a moment, or -1 when none does. */
  method FindBucket(bs: seq<Bucket>, ts: int) returns (r: int)
    requires Contiguous(bs)
    ensures r == -1 || (0 <= r < |bs| && Holds(bs[r], ts))
    ensures r == -1 ==> forall b | b in bs :: !Holds(b, ts)
  {
    var lo, hi := 0, |bs| - 1;
    while lo <= hi
      invariant 0 <= lo <= |bs| && -1 <= hi < |bs|
      invariant forall i | 0 <= i < lo :: bs[i].to <= ts
      invariant forall i | hi < i < |bs| :: ts < bs[i].from
    {
      var mid := (lo + hi) / 2;
      if ts < bs[mid].from {
        forall i | mid <= i < |bs| ensures ts < bs[i].from {
          if mid < i {
            ContiguousOrder(bs, mid, i);
          }
        }
        hi := mid - 1;
      } else if ts >= bs[mid].to {
        forall i | 0 <= i <= mid ensures bs[i].to <= ts {
          if i < mid {
            ContiguousOrder(bs, i, mid);
          }
        }
        lo := mid + 1;
      } else {
        return mid;
      }
    }
    r := -1;
  }

  /** A moment is in at most one bucket, and in one iff it lies between the two ends. */
  lemma HoldsIff(bs: seq<Bucket>, ts: int)
    requires Contiguous(bs) && bs != []
    ensures (exists b :: b in bs && Holds(b, ts)) <==> bs[0].from <= ts < bs[|bs| - 1].to
    ensures forall i, j | 0 <= i < |bs| && 0 <= j < |bs| && Holds(bs[i], ts) && Holds(bs[j], ts) :: i == j
  {
    forall i, j | 0 <= i < j < |bs| ensures bs[i].to <= bs[j].from {
      ContiguousOrder(bs, i, j);
    }
    if bs[0].from <= ts < bs[|bs| - 1].to {
      HolderExists(bs, ts);
    }
  }

  lemma {:induction false} HolderExists(bs: seq<Bucket>, ts: int)
    requires Contiguous(bs) && bs != [] && bs[0].from <= ts < bs[|bs| - 1].to
    ensures exists b :: b in bs && Holds(b, ts)
    decreases |bs|
  {
    if ts < bs[0].to {
      assert bs[0] in bs;
    } else {
      HolderExists(bs[1..], ts);
      var b :| b in bs[1..] && Holds(b, ts);
      assert b in bs;
    }
  }

  // ---- counting documents -------------------------------------------------------------------------------

  function StampOf(d: Doc, field: string): int {
    if field == "updatedAt" then d.updatedAt else d.addedAt
  }

  /** The stamps of the documents under the keys that count: allowed ones with a positive stamp. */
  predicate Stamped(s: Buckets, coll: string, field: string, allowed: Option<set<string>>, dk: string) {
    dk in CollectionKeys(s, coll) && Allowed(allowed, dk[|DocPrefix(coll)|..]) && StampOf(s.docs[dk], field) > 0
  }

  /** The documents of a histogram with a stamp in [lo, hi). */
  ghost function DocsBetween(s: Buckets, coll: string, field: string, allowed: Option<set<string>>, lo: int,
                             hi: int): set<string>
  {
    set dk | dk in CollectionKeys(s, coll) && Stamped(s, coll, field, allowed, dk)
      && lo <= StampOf(s.docs[dk], field) < hi
  }

  ghost function CountIn(stamps: seq<int>, lo: int, hi: int): nat {
    if stamps == [] then 0
    else CountIn(stamps[..|stamps| - 1], lo, hi) + if lo <= stamps[|stamps| - 1] < hi then 1 else 0
  }

  lemma CountOneMore(stamps: seq<int>, ts: int, lo: int, hi: int)
    ensures CountIn(stamps + [ts], lo, hi) == CountIn(stamps, lo, hi) + if lo <= ts < hi then 1 else 0
  {
    assert (stamps + [ts])[..|stamps|] == stamps;
  }

  ghost function Among(s: Buckets, ks: seq<string>, coll: string, field: string, allowed: Option<set<string>>,
                       lo: int, hi: int): set<string>
  {
    set dk | dk in ks && dk in DocsBetween(s, coll, field, allowed, lo, hi)
  }

  ghost predicate StampsOf(s: Buckets, stamps: seq<int>, ks: seq<string>, coll: string, field: string,
                           allowed: Option<set<string>>)
  {
    && (forall ts | ts in stamps :: ts > 0)
    && (forall lo, hi :: CountIn(stamps, lo, hi) == |Among(s, ks, coll, field, allowed, lo, hi)|)
  }

  /** The scan that collects the stamps of a histogram: as many in every range as documents. */
  method CollectStamps(s: Buckets, coll: string, field: string, allowed: Option<set<string>>) returns (stamps: seq<int>)
    ensures forall ts | ts in stamps :: ts > 0
    ensures forall lo, hi :: CountIn(stamps, lo, hi) == |DocsBetween(s, coll, field, allowed, lo, hi)|
  {
    var ks := InOrder(CollectionKeys(s, coll));
    stamps := [];
    for i := 0 to |ks|
      invariant StampsOf(s, stamps, ks[..i], coll, field, allowed)
    {
      OneMoreDoc(s, stamps, ks, i, coll, field, allowed);
      if Allowed(allowed, ks[i][|DocPrefix(coll)|..]) {
        var ts := StampOf(s.docs[ks[i]], field);
        if ts > 0 {
          stamps := stamps + [ts];
        }
      }
    }
    assert ks[..|ks|] == ks;
    forall lo, hi ensures CountIn(stamps, lo, hi) == |DocsBetween(s, coll, field, allowed, lo, hi)| {
      assert Among(s, ks, coll, field, allowed, lo, hi) == DocsBetween(s, coll, field, allowed, lo, hi);
    }
  }

  lemma OneMoreDoc(s: Buckets, stamps: seq<int>, ks: seq<string>, i: nat, coll: string, field: string,
                   allowed: Option<set<string>>)
    requires Ascending(ks) && i < |ks| && forall k | k in ks :: k in CollectionKeys(s, coll)
    requires StampsOf(s, stamps, ks[..i], coll, field, allowed)
    ensures ks[i] in s.docs && DocPrefix(coll) <= ks[i]
    ensures var ts := StampOf(s.docs[ks[i]], field);
            StampsOf(s, if Stamped(s, coll, field, allowed, ks[i]) then stamps + [ts] else stamps,
                     ks[..i + 1], coll, field, allowed)
  {
    assert ks[i] in ks && ks[..i + 1] == ks[..i] + [ks[i]];
    NewKey(ks, i);
    var counted, ts := Stamped(s, coll, field, allowed, ks[i]), StampOf(s.docs[ks[i]], field);
    var more := if counted then stamps + [ts] else stamps;
    forall lo, hi ensures CountIn(more, lo, hi) == |Among(s, ks[..i + 1], coll, field, allowed, lo, hi)| {
      CountOneMore(stamps, ts, lo, hi);
      AmongOneMore(s, ks[..i], ks[i], coll, field, allowed, lo, hi);
      assert CountIn(stamps, lo, hi) == |Among(s, ks[..i], coll, field, allowed, lo, hi)|;
    }
  }

  lemma AmongOneMore(s: Buckets, ks: seq<string>, k: string, coll: string, field: string,
                     allowed: Option<set<string>>, lo: int, hi: int)
    requires k !in ks && k in CollectionKeys(s, coll)
    ensures |Among(s, ks + [k], coll, field, allowed, lo, hi)| == |Among(s, ks, coll, field, allowed, lo, hi)|
            + if Stamped(s, coll, field, allowed, k) && lo <= StampOf(s.docs[k], field) < hi then 1 else 0
  {
    var before, after := Among(s, ks, coll, field, allowed, lo, hi), Among(s, ks + [k], coll, field, allowed, lo, hi);
    if Stamped(s, coll, field, allowed, k) && lo <= StampOf(s.docs[k], field) < hi {
      assert after == before + {k};
    } else {
      assert after == before;
    }
  }

  // ---- histograms -------------------------------------------------------------------------------------------

  method Range(stamps: seq<int>) returns (minTS: int, maxTS: int)
    requires stamps != []
    ensures minTS in stamps && maxTS in stamps
    ensures forall ts | ts in stamps :: minTS <= ts <= maxTS
  {
    minTS, maxTS := stamps[0], stamps[0];
    for i := 1 to |stamps|
      invariant minTS in stamps && maxTS in stamps
      invariant forall j | 0 <= j < i :: minTS <= stamps[j] <= maxTS
    {
      if stamps[i] < minTS {
        minTS := stamps[i];
      }
      if stamps[i] > maxTS {
        maxTS := stamps[i];
      }
    }
  }

  /** One count per bucket: the stamps it holds. */
  method CountStamps(bs: seq<Bucket>, stamps: seq<int>) returns (counts: array<nat>)
    requires Contiguous(bs) && bs != []
    ensures fresh(counts) && counts.Length == |bs|
    ensures forall b | 0 <= b < |bs| :: counts[b] == CountIn(stamps, bs[b].from, bs[b].to)
  {
    counts := new nat[|bs|](_ => 0);
    for i := 0 to |stamps|
      invariant forall b | 0 <= b < |bs| :: counts[b] == CountIn(stamps[..i], bs[b].from, bs[b].to)
    {
      assert stamps[..i + 1] == stamps[..i] + [stamps[i]];
      forall b | 0 <= b < |bs|
        ensures CountIn(stamps[..i + 1], bs[b].from, bs[b].to)
             == CountIn(stamps[..i], bs[b].from, bs[b].to) + if Holds(bs[b], stamps[i]) then 1 else 0
        ensures bs[b] in bs
      {
        CountOneMore(stamps[..i], stamps[i], bs[b].from, bs[b].to);
      }
      HoldsIff(bs, stamps[i]);
      var idx := FindBucket(bs, stamps[i]);
      if idx >= 0 {
        counts[idx] := counts[idx] + 1;
      }
    }
    assert stamps[..|stamps|] == stamps;
  }

  datatype Row = Row(from: int, to: int, count: nat)

  ghost function Total(rows: seq<Row>): nat {
    if rows == [] then 0 else Total(rows[..|rows| - 1]) + rows[|rows| - 1].count
  }

  /** Ranges that meet add up. */
  lemma {:induction false} CountsAdd(stamps: seq<int>, a: int, b: int, c: int)
    requires a <= b <= c
    ensures CountIn(stamps, a, c) == CountIn(stamps, a, b) + CountIn(stamps, b, c)
  {
    if stamps != [] {
      CountsAdd(stamps[..|stamps| - 1], a, b, c);
    }
  }

  /** Only the stamps matter, not where an empty part of the range begins. */
  lemma {:induction false} CountFrom(stamps: seq<int>, a: int, b: int, hi: int)
    requires forall ts | ts in stamps :: a <= ts && b <= ts
    ensures CountIn(stamps, a, hi) == CountIn(stamps, b, hi)
  {
    if stamps != [] {
      var init, last := stamps[..|stamps| - 1], stamps[|stamps| - 1];
      assert last in stamps && forall ts | ts in init :: ts in stamps;
      CountFrom(init, a, b, hi);
    }
  }

  lemma {:induction false} CountNone(stamps: seq<int>, lo: int, hi: int)
    requires forall ts | ts in stamps :: !(lo <= ts < hi)
    ensures CountIn(stamps, lo, hi) == 0
  {
    if stamps != [] {
      var init, last := stamps[..|stamps| - 1], stamps[|stamps| - 1];
      assert last in stamps && forall ts | ts in init :: ts in stamps;
      CountNone(init, lo, hi);
    }
  }

  /** The non-empty buckets among the first n as rows, in order; together they count everything
      between the ends. */
  ghost predicate RowsFor(rows: seq<Row>, bs: seq<Bucket>, stamps: seq<int>, n: nat)
    requires n <= |bs|
  {
    && (forall r | r in rows :: RowFor(r, bs, stamps, n))
    && (forall i, j | 0 <= i < j < |rows| :: rows[i].to <= rows[j].from)
    && Total(rows) == if n == 0 then 0 else CountIn(stamps, bs[0].from, bs[n - 1].to)
  }

  ghost predicate RowFor(r: Row, bs: seq<Bucket>, stamps: seq<int>, n: nat) {
    && r.count > 0 && r.count == CountIn(stamps, r.from, r.to)
    && exists i :: 0 <= i < n && i < |bs| && bs[i] == Bucket(r.from, r.to)
  }

  lemma RowsOneMore(rows: seq<Row>, bs: seq<Bucket>, stamps: seq<int>, n: nat)
    requires n < |bs| && Contiguous(bs) && RowsFor(rows, bs, stamps, n)
    ensures var b := bs[n]; var c := CountIn(stamps, b.from, b.to);
            RowsFor(if c > 0 then rows + [Row(b.from, b.to, c)] else rows, bs, stamps, n + 1)
  {
    var b := bs[n];
    var c := CountIn(stamps, b.from, b.to);
    var more := if c > 0 then rows + [Row(b.from, b.to, c)] else rows;
    assert c > 0 ==> more[..|rows|] == rows;
    TotalOneMore(rows, bs, stamps, n);
    forall r | r in more ensures RowFor(r, bs, stamps, n + 1) {
      if r in rows {
        assert RowFor(r, bs, stamps, n);
      } else {
        assert bs[n] == Bucket(r.from, r.to);
      }
    }
    forall i | 0 <= i < |rows| ensures rows[i].to <= b.from {
      assert RowFor(rows[i], bs, stamps, n);
      var k :| 0 <= k < n && bs[k] == Bucket(rows[i].from, rows[i].to);
      ContiguousOrder(bs, k, n);
    }
  }

  lemma TotalOneMore(rows: seq<Row>, bs: seq<Bucket>, stamps: seq<int>, n: nat)
    requires n < |bs| && Contiguous(bs)
             && Total(rows) == if n == 0 then 0 else CountIn(stamps, bs[0].from, bs[n - 1].to)
    ensures Total(rows) + CountIn(stamps, bs[n].from, bs[n].to) == CountIn(stamps, bs[0].from, bs[n].to)
  {
    if n > 0 {
      if n > 1 {
        ContiguousOrder(bs, 0, n - 1);
      }
      assert bs[n - 1].to == bs[n - 1 + 1].from;
      CountsAdd(stamps, bs[0].from, bs[n].from, bs[n].to);
    }
  }

  method RowsOf(bs: seq<Bucket>, stamps: seq<int>, counts: array<nat>) returns (rows: seq<Row>)
    requires Contiguous(bs) && counts.Length == |bs|
    requires forall b | 0 <= b < |bs| :: counts[b] == CountIn(stamps, bs[b].from, bs[b].to)
    ensures RowsFor(rows, bs, stamps, |bs|)
  {
    rows := [];
    for i := 0 to |bs|
      invariant RowsFor(rows, bs, stamps, i)
    {
      RowsOneMore(rows, bs, stamps, i);
      if counts[i] > 0 {
        rows := rows + [Row(bs[i].from, bs[i].to, counts[i])];
      }
    }
  }

  /** Every row is a whole interval with the documents stamped in it, at least one; rows do not overlap. */
  ghost predicate SoundRows(rows: seq<Row>, s: Buckets, coll: string, field: string, unit: Unit,
                            allowed: Option<set<string>>)
  {
    && (forall r | r in rows :: Whole(unit, Bucket(r.from, r.to))
          && r.count > 0 && r.count == |DocsBetween(s, coll, field, allowed, r.from, r.to)|)
    && (forall i, j | 0 <= i < j < |rows| :: rows[i].to <= rows[j].from)
  }

  ghost predicate Collected(s: Buckets, stamps: seq<int>, coll: string, field: string, allowed: Option<set<string>>) {
    && (forall ts | ts in stamps :: ts > 0)
    && (forall lo, hi :: CountIn(stamps, lo, hi) == |DocsBetween(s, coll, field, allowed, lo, hi)|)
  }

  /** No document is stamped later than the latest stamp. */
  lemma LatestStamp(s: Buckets, stamps: seq<int>, coll: string, field: string, allowed: Option<set<string>>,
                    maxTS: int, dk: string)
    requires Collected(s, stamps, coll, field, allowed) && Stamped(s, coll, field, allowed, dk)
    requires forall ts | ts in stamps :: ts <= maxTS
    ensures StampOf(s.docs[dk], field) <= maxTS
  {
    var ts := StampOf(s.docs[dk], field);
    var later := DocsBetween(s, coll, field, allowed, maxTS + 1, ts + 1);
    CountNone(stamps, maxTS + 1, ts + 1);
    assert |later| == 0;
    assert ts > maxTS ==> dk in later;
  }

  lemma RowsAreSound(rows: seq<Row>, s: Buckets, coll: string, field: string, unit: Unit, allowed: Option<set<string>>,
                     bs: seq<Bucket>, stamps: seq<int>)
    requires Collected(s, stamps, coll, field, allowed) && RowsFor(rows, bs, stamps, |bs|)
    requires forall b | b in bs :: Whole(unit, b)
    ensures SoundRows(rows, s, coll, field, unit, allowed)
  {
    forall r | r in rows
      ensures Whole(unit, Bucket(r.from, r.to)) && r.count == |DocsBetween(s, coll, field, allowed, r.from, r.to)|
    {
      assert RowFor(r, bs, stamps, |bs|);
      assert Bucket(r.from, r.to) in bs;
    }
  }

  /** Earliest and latest stamp of the documents that count. */
  ghost predicate Spans(minTS: int, maxTS: int, s: Buckets, coll: string, field: string, allowed: Option<set<string>>) {
    && (exists dk :: Stamped(s, coll, field, allowed, dk) && StampOf(s.docs[dk], field) == minTS)
    && (exists dk :: Stamped(s, coll, field, allowed, dk) && StampOf(s.docs[dk], field) == maxTS)
    && (forall dk | Stamped(s, coll, field, allowed, dk) :: minTS <= StampOf(s.docs[dk], field) <= maxTS)
  }

  /** A stamp lies in one of the first 1000 intervals from the earliest on. */
  ghost predicate InReach(unit: Unit, minTS: int, ts: int)
    requires minTS >= 0 && ts >= 0
  {
    IntervalOf(unit, ts) - IntervalOf(unit, minTS) < MAX_BUCKETS
  }

  /** The stamped documents that a histogram reaches. */
  ghost function Reached(s: Buckets, coll: string, field: string, unit: Unit, allowed: Option<set<string>>,
                         minTS: nat): set<string>
  {
    set dk | dk in CollectionKeys(s, coll) && Stamped(s, coll, field, allowed, dk)
             && InReach(unit, minTS, StampOf(s.docs[dk], field))
  }

  ghost function AllStamped(s: Buckets, coll: string, field: string, allowed: Option<set<string>>): set<string> {
    set dk | dk in CollectionKeys(s, coll) && Stamped(s, coll, field, allowed, dk)
  }

  /** Where the buckets of a histogram end. */
  function EndOf(unit: Unit, minTS: nat, maxTS: nat): int {
    var first, last := IntervalOf(unit, minTS), IntervalOf(unit, maxTS);
    IntervalStart(unit, first + BucketCount(first, last))
  }

  /** What lies before the end of the buckets is in reach. */
  lemma BeforeTheEnd(s: Buckets, coll: string, field: string, unit: Unit, allowed: Option<set<string>>, minTS: nat,
                     maxTS: nat)
    requires Spans(minTS, maxTS, s, coll, field, allowed)
    ensures DocsBetween(s, coll, field, allowed, 1, EndOf(unit, minTS, maxTS))
            == Reached(s, coll, field, unit, allowed, minTS)
  {
    forall dk | Stamped(s, coll, field, allowed, dk) {
      BeforeTheEndIff(unit, minTS, maxTS, StampOf(s.docs[dk], field));
    }
  }

  lemma BeforeTheEndIff(unit: Unit, minTS: nat, maxTS: nat, ts: nat)
    requires minTS <= ts <= maxTS
    ensures ts < IntervalStart(unit, IntervalOf(unit, minTS)
                                     + BucketCount(IntervalOf(unit, minTS), IntervalOf(unit, maxTS)))
            <==> IntervalOf(unit, ts) - IntervalOf(unit, minTS) < MAX_BUCKETS
  {
    LaterInterval(unit, minTS, maxTS);
    LaterInterval(unit, ts, maxTS);
    BeforeTheCount(unit, IntervalOf(unit, minTS), IntervalOf(unit, maxTS), ts);
  }

  lemma BeforeTheCount(unit: Unit, first: nat, last: nat, ts: nat)
    requires first <= last && IntervalOf(unit, ts) <= last
    ensures ts < IntervalStart(unit, first + BucketCount(first, last)) <==> IntervalOf(unit, ts) - first < MAX_BUCKETS
  {
    StartedIff(unit, first + BucketCount(first, last), ts);
    InFirstBuckets(first, last, IntervalOf(unit, ts));
  }

  lemma InFirstBuckets(first: nat, last: nat, n: nat)
    requires first <= last && n <= last
    ensures n < first + BucketCount(first, last) <==> n - first < MAX_BUCKETS
  {
  }

  /** Every stamped document is reached exactly when the earliest and the latest stamp are less than
      1000 intervals apart; past that the latest ones are dropped. */
  lemma ReachesAllIff(s: Buckets, coll: string, field: string, unit: Unit, allowed: Option<set<string>>, minTS: nat,
                      maxTS: nat)
    requires Spans(minTS, maxTS, s, coll, field, allowed)
    ensures |Reached(s, coll, field, unit, allowed, minTS)| == |AllStamped(s, coll, field, allowed)|
            <==> IntervalOf(unit, maxTS) - IntervalOf(unit, minTS) < MAX_BUCKETS
  {
    var reached, all := Reached(s, coll, field, unit, allowed, minTS), AllStamped(s, coll, field, allowed);
    SameSizeIff(reached, all);
    if InReach(unit, minTS, maxTS) {
      forall dk | dk in all ensures dk in reached {
        LaterInterval(unit, StampOf(s.docs[dk], field), maxTS);
      }
    } else {
      var dk :| Stamped(s, coll, field, allowed, dk) && StampOf(s.docs[dk], field) == maxTS;
      assert dk in all && dk !in reached;
    }
  }

  /** Each stamp is some document's. */
  lemma StampIsOfDoc(s: Buckets, stamps: seq<int>, coll: string, field: string, allowed: Option<set<string>>, ts: int)
    requires Collected(s, stamps, coll, field, allowed) && ts in stamps
    ensures exists dk :: Stamped(s, coll, field, allowed, dk) && StampOf(s.docs[dk], field) == ts
  {
    CountSome(stamps, ts);
    assert CountIn(stamps, ts, ts + 1) == |DocsBetween(s, coll, field, allowed, ts, ts + 1)|;
    var dk :| dk in DocsBetween(s, coll, field, allowed, ts, ts + 1);
  }

  lemma {:induction false} CountSome(stamps: seq<int>, ts: int)
    requires ts in stamps
    ensures CountIn(stamps, ts, ts + 1) > 0
  {
    var init, last := stamps[..|stamps| - 1], stamps[|stamps| - 1];
    if last != ts {
      assert stamps == init + [last];
      CountSome(init, ts);
    }
  }

  lemma StampsSpan(s: Buckets, stamps: seq<int>, coll: string, field: string, allowed: Option<set<string>>,
                   minTS: int, maxTS: int)
    requires Collected(s, stamps, coll, field, allowed) && minTS in stamps && maxTS in stamps
    requires forall ts | ts in stamps :: minTS <= ts <= maxTS
    ensures Spans(minTS, maxTS, s, coll, field, allowed)
  {
    StampIsOfDoc(s, stamps, coll, field, allowed, minTS);
    StampIsOfDoc(s, stamps, coll, field, allowed, maxTS);
    forall dk | Stamped(s, coll, field, allowed, dk) ensures minTS <= StampOf(s.docs[dk], field) <= maxTS {
      LatestStamp(s, stamps, coll, field, allowed, maxTS, dk);
      EarliestStamp(s, stamps, coll, field, allowed, minTS, dk);
    }
  }

  lemma EarliestStamp(s: Buckets, stamps: seq<int>, coll: string, field: string, allowed: Option<set<string>>,
                      minTS: int, dk: string)
    requires Collected(s, stamps, coll, field, allowed) && Stamped(s, coll, field, allowed, dk)
    requires forall ts | ts in stamps :: minTS <= ts
    ensures minTS <= StampOf(s.docs[dk], field)
  {
    var ts := StampOf(s.docs[dk], field);
    var earlier := DocsBetween(s, coll, field, allowed, ts, minTS);
    CountNone(stamps, ts, minTS);
    assert |earlier| == 0;
    assert ts < minTS ==> dk in earlier;
  }

  /** In a readable store a filtered histogram counts the stamped documents that seem to match the filter. */
  lemma StampedIff(s: Buckets, coll: string, field: string, filter: Filter, allowed: Option<set<string>>, dk: string)
    requires LimitsTo(allowed, s.idx, coll, filter) && Readable(s, coll, filter)
    requires dk in s.docs && DocPrefix(coll) <= dk
    ensures Stamped(s, coll, field, allowed, dk)
            <==> && Seems(s.docs[dk], filter)
                 && (if field == "updatedAt" then s.docs[dk].updatedAt else s.docs[dk].addedAt) > 0
  {
    var id := dk[|DocPrefix(coll)|..];
    assert dk == DocKey(coll, id);
    SelectedIsSeeming(s, coll, filter, id);
  }

  /** A document that has just been added counts from the moment of the add, if it is new, and by its
      last update it counts from the moment of the add in any case. */
  lemma AddIsDated(cfg: Config, s: Buckets, coll: string, r: AddRequest, now: Time, field: string, lo: int, hi: int)
    requires coll != "" && r.key != "" && r.lang != "" && cfg.schema(coll, r.meta) && now > 0
    ensures var t, dk := Add(cfg, s, coll, r, now), DocKey(coll, GenID(coll, r.key, r.lang));
            && (field == "updatedAt" ==> (dk in DocsBetween(t, coll, field, None, lo, hi) <==> lo <= now < hi))
            && (field != "updatedAt" && dk !in s.docs ==>
                  (dk in DocsBetween(t, coll, field, None, lo, hi) <==> lo <= now < hi))
            && (field != "updatedAt" && dk in s.docs && s.docs[dk].addedAt > 0 ==>
                  (dk in DocsBetween(t, coll, field, None, lo, hi) <==> lo <= s.docs[dk].addedAt < hi))
  {
    assert DocPrefix(coll) <= DocKey(coll, GenID(coll, r.key, r.lang));
  }

  /** The histogram of a collection: sound rows, none without stamped documents, that together count
      exactly the documents in the first 1000 intervals; all of them exactly when the stamps span less. */
  method ComputeHistogram(s: Buckets, coll: string, field: string, interval: string, allowed: Option<set<string>>)
    returns (rows: seq<Row>)
    ensures SoundRows(rows, s, coll, field, UnitOf(interval), allowed)
    ensures interval == "day" ==> forall r | r in rows :: r.from % 86400 == 0 && r.to == r.from + 86400
    ensures interval == "week" ==> forall r | r in rows :: Weekday(r.from) == 0 && r.to == r.from + 604800
    ensures interval == "year" ==> forall r | r in rows :: Whole(Year, Bucket(r.from, r.to))
    ensures interval !in {"day", "week", "year"} ==> forall r | r in rows :: Whole(Month, Bucket(r.from, r.to))
    ensures (forall dk :: !Stamped(s, coll, field, allowed, dk)) ==> rows == []
    ensures forall minTS: nat, maxTS: nat {:trigger Spans(minTS, maxTS, s, coll, field, allowed)}
              | Spans(minTS, maxTS, s, coll, field, allowed) ::
              var unit := UnitOf(interval);
              && Total(rows) == |Reached(s, coll, field, unit, allowed, minTS)|
              && (Total(rows) == |AllStamped(s, coll, field, allowed)| <==>
                    IntervalOf(unit, maxTS) - IntervalOf(unit, minTS) < MAX_BUCKETS)
  {
    var unit := UnitOf(interval);
    var stamps := CollectStamps(s, coll, field, allowed);
    if |stamps| == 0 {
      forall dk | Stamped(s, coll, field, allowed, dk) {
        LatestStamp(s, stamps, coll, field, allowed, 0, dk);
      }
      return [];
    }
    var minTS, maxTS := Range(stamps);
    var bs := GenerateTimeBuckets(minTS, maxTS, unit);
    BucketsShape(unit, bs, minTS, maxTS);
    BucketsEnds(unit, bs, minTS, maxTS);
    var counts := CountStamps(bs, stamps);
    rows := RowsOf(bs, stamps, counts);
    RowsAreSound(rows, s, coll, field, unit, allowed, bs, stamps);
    StampsSpan(s, stamps, coll, field, allowed, minTS, maxTS);
    CountsReached(s, coll, field, unit, allowed, stamps, bs[0].from, minTS, maxTS, Total(rows));
    SpanIsUnique(s, coll, field, allowed, minTS, maxTS);
  }

  lemma IntervalsShape(unit: Unit, first: nat, n: nat)
    ensures var bs := Between(StartsUpTo(unit, first, n), n);
            Contiguous(bs) && forall b | b in bs :: Whole(unit, b)
  {
    var bounds := StartsUpTo(unit, first, n);
    var bs := Between(bounds, n);
    forall i | 0 <= i < n ensures bs[i].from < bs[i].to && Whole(unit, bs[i]) {
      BetweenAt(bounds, n, i);
      StartAt(unit, first, n, i);
      StartAt(unit, first, n, i + 1);
      ShapeOf(unit, first + i, first + (i + 1), bs[i]);
    }
    forall i | 0 <= i < n - 1 ensures bs[i].to == bs[i + 1].from {
      BetweenMeet(bounds, n, i);
    }
  }

  lemma ShapeOf(unit: Unit, n: nat, m: nat, b: Bucket)
    requires m == n + 1 && b == Bucket(IntervalStart(unit, n), IntervalStart(unit, m))
    ensures b.from < b.to && Whole(unit, b)
  {
    NthIsWhole(unit, n);
  }

  lemma BucketsShape(unit: Unit, bs: seq<Bucket>, minTS: nat, maxTS: nat)
    requires BucketsFor(unit, bs, minTS, maxTS)
    ensures bs != [] && Contiguous(bs) && (forall b | b in bs :: Whole(unit, b))
  {
    var first, last := IntervalOf(unit, minTS), IntervalOf(unit, maxTS);
    IntervalsShape(unit, first, BucketCount(first, last));
  }

  lemma BucketsEnds(unit: Unit, bs: seq<Bucket>, minTS: nat, maxTS: nat)
    requires BucketsFor(unit, bs, minTS, maxTS)
    ensures bs != [] && Holds(bs[0], minTS) && bs[|bs| - 1].to == EndOf(unit, minTS, maxTS)
  {
    var first, last := IntervalOf(unit, minTS), IntervalOf(unit, maxTS);
    EndsAt(unit, first, BucketCount(first, last));
    InInterval(unit, minTS);
  }

  lemma EndsAt(unit: Unit, first: nat, n: nat)
    requires n > 0
    ensures var bs := Between(StartsUpTo(unit, first, n), n);
            bs[0] == Nth(unit, first) && bs[n - 1].to == IntervalStart(unit, first + n)
  {
    BetweenEnds(StartsUpTo(unit, first, n), n);
    StartAt(unit, first, n, 0);
    StartAt(unit, first, n, 1);
    StartAt(unit, first, n, n);
  }

  /** What is counted up to the end of the buckets. */
  lemma CountsReached(s: Buckets, coll: string, field: string, unit: Unit, allowed: Option<set<string>>,
                      stamps: seq<int>,
                      from: int, minTS: nat, maxTS: nat, total: nat)
    requires Collected(s, stamps, coll, field, allowed) && Spans(minTS, maxTS, s, coll, field, allowed)
    requires forall ts | ts in stamps :: from <= ts
    requires total == CountIn(stamps, from, EndOf(unit, minTS, maxTS))
    ensures total == |Reached(s, coll, field, unit, allowed, minTS)|
    ensures total == |AllStamped(s, coll, field, allowed)|
            <==> IntervalOf(unit, maxTS) - IntervalOf(unit, minTS) < MAX_BUCKETS
  {
    CountFrom(stamps, from, 1, EndOf(unit, minTS, maxTS));
    BeforeTheEnd(s, coll, field, unit, allowed, minTS, maxTS);
    ReachesAllIff(s, coll, field, unit, allowed, minTS, maxTS);
  }

  lemma SpanIsUnique(s: Buckets, coll: string, field: string, allowed: Option<set<string>>, minTS: int, maxTS: int)
    requires Spans(minTS, maxTS, s, coll, field, allowed)
    ensures forall a, b {:trigger Spans(a, b, s, coll, field, allowed)} | Spans(a, b, s, coll, field, allowed) ::
            a == minTS && b == maxTS
  {
  }
}
