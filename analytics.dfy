/** The analytics view's arithmetic: the Monday-to-Sunday week range, the
    per-day, per-type minute totals shown in the weekly chart, the daily
    average and the comparison with the week before. Durations are whole
    seconds; minutes and averages are exact reals. */
module Analytics {
  import opened Common
  import opened Calendar

  // ---------------------------------------------------------------------
  // Ordering of type names

  /** Lexicographic order on strings, character by character; a proper
      prefix comes first. */
  predicate LexLt(a: string, b: string) {
    if |b| == 0 then false
    else if |a| == 0 then true
    else if a[0] != b[0] then a[0] < b[0]
    else LexLt(a[1..], b[1..])
  }

  lemma {:induction false} LexIrreflexive(a: string)
    ensures !LexLt(a, a)
  {
    if |a| > 0 {
      LexIrreflexive(a[1..]);
    }
  }

  lemma {:induction false} LexAsymmetric(a: string, b: string)
    ensures !(LexLt(a, b) && LexLt(b, a))
  {
    if |a| > 0 && |b| > 0 && a[0] == b[0] {
      LexAsymmetric(a[1..], b[1..]);
    }
  }

  lemma {:induction false} LexTotal(a: string, b: string)
    ensures a != b ==> LexLt(a, b) || LexLt(b, a)
  {
    if |a| > 0 && |b| > 0 && a[0] == b[0] {
      assert a == [a[0]] + a[1..] && b == [b[0]] + b[1..];
      LexTotal(a[1..], b[1..]);
    }
  }

  lemma {:induction false} LexTransitive(a: string, b: string, c: string)
    requires LexLt(a, b) && LexLt(b, c)
    ensures LexLt(a, c)
  {
    if |a| > 0 && a[0] == b[0] && b[0] == c[0] {
      LexTransitive(a[1..], b[1..], c[1..]);
    }
  }

  predicate IsLeast(m: string, s: set<string>) {
    forall y :: y in s && y != m ==> LexLt(m, y)
  }

  lemma {:induction false} LeastExists(s: set<string>)
    requires s != {}
    ensures exists m :: m in s && IsLeast(m, s)
    decreases |s|
  {
    var y :| y in s;
    if s == {y} {
      assert IsLeast(y, s);
    } else {
      LeastExists(s - {y});
      var m :| m in s - {y} && IsLeast(m, s - {y});
      LexTotal(m, y);
      if LexLt(m, y) {
        assert IsLeast(m, s);
      } else {
        forall z | z in s && z != y
          ensures LexLt(y, z)
        {
          if z != m {
            LexTransitive(y, m, z);
          }
        }
        assert IsLeast(y, s);
      }
    }
  }

  /** A set has at most one least element. */
  lemma LeastUnique(s: set<string>)
    ensures forall a, b :: a in s && IsLeast(a, s) && b in s && IsLeast(b, s) ==> a == b
  {
    forall a, b | a in s && IsLeast(a, s) && b in s && IsLeast(b, s)
      ensures a == b
    {
      if a != b {
        LexAsymmetric(a, b);
      }
    }
  }

  /** Strictly increasing: sorted, without repetitions. */
  predicate StrictlySorted(ts: seq<string>) {
    forall i, j :: 0 <= i < j < |ts| ==> LexLt(ts[i], ts[j])
  }

  /** The elements of a set of strings in ascending order. */
  function SortedSeq(s: set<string>): (ts: seq<string>)
    ensures StrictlySorted(ts)
    ensures forall x :: x in ts <==> x in s
    ensures |ts| == |s|
    decreases |s|
  {
    if s == {} then []
    else
      LeastExists(s);
      LeastUnique(s);
      var m :| m in s && IsLeast(m, s);
      var rest := SortedSeq(s - {m});
      LeastInFront(m, s, rest);
      [m] + rest
  }

  /** The least element in front of the others, sorted, is the whole set
      sorted. */
  lemma LeastInFront(m: string, s: set<string>, rest: seq<string>)
    requires m in s && IsLeast(m, s)
    requires StrictlySorted(rest) && forall x :: x in rest <==> x in s - {m}
    ensures StrictlySorted([m] + rest)
    ensures forall x :: x in [m] + rest <==> x in s
  {
    var ts := [m] + rest;
    forall i, j | 0 <= i < j < |ts|
      ensures LexLt(ts[i], ts[j])
    {
      if i == 0 {
        assert ts[j] == rest[j - 1] && rest[j - 1] in s - {m};
      } else {
        assert ts[i] == rest[i - 1] && ts[j] == rest[j - 1];
      }
    }
  }

  // ---------------------------------------------------------------------
  // Week range

  /** A closed interval of instants. */
  datatype DateRange = DateRange(start: int, end: int)

  predicate InRange(e: Entry, range: DateRange) {
    range.start <= e.startedAt <= range.end
  }

  lemma {:induction false} MondayOfWeek(today: int, offset: int)
    requires today % SecondsPerDay == 0
    ensures var m := today - DayIndex(Weekday(today)) * SecondsPerDay + offset * SecondsPerWeek;
      m % SecondsPerDay == 0 && Weekday(m) == 2
  {
    var d := DayNumber(today);
    var k := DayIndex(Weekday(today));
    assert k == (d + 3) % 7;
    var q := (d + 3) / 7;
    var x := d - k + 7 * offset;
    assert x == 7 * (q + offset) - 3;
    var m := today - k * SecondsPerDay + offset * SecondsPerWeek;
    assert today == d * SecondsPerDay;
    assert m == x * SecondsPerDay;
    assert DayNumber(m) == x;
    assert (x + 4) % 7 == 1;
  }

  /** Monday 00:00 and Sunday 23:59:59 of the week `offset` weeks after
      the one holding referenceDate. */
  function WeekRange(offset: int, referenceDate: int): (r: DateRange)
    ensures r.start % SecondsPerDay == 0
    ensures Weekday(r.start) == 2
    ensures r.start <= StartOfDay(referenceDate) + offset * SecondsPerWeek < r.start + SecondsPerWeek
    ensures r.end == r.start + SecondsPerWeek - 1
  {
    var today := StartOfDay(referenceDate);
    var daysFromMonday := DayIndex(Weekday(today));
    var thisMonday := today - daysFromMonday * SecondsPerDay;
    var targetMonday := thisMonday + offset * SecondsPerWeek;
    var targetSunday := targetMonday + 6 * SecondsPerDay;
    MondayOfWeek(today, offset);
    DateRange(targetMonday, targetSunday + 86399)
  }

  /** Every instant of the reference date's own week lies in week 0. */
  lemma CurrentWeekHoldsReference(referenceDate: int)
    ensures WeekRange(0, referenceDate).start <= referenceDate <= WeekRange(0, referenceDate).end
  {
  }

  /** Consecutive offsets give adjacent weeks. */
  lemma WeeksAreAdjacent(offset: int, referenceDate: int)
    ensures WeekRange(offset - 1, referenceDate).end + 1 == WeekRange(offset, referenceDate).start
  {
  }

  /** Any two instants of the same Monday-to-Sunday week give the same range. */
  lemma {:induction false} SameWeekSameRange(a: int, b: int, offset: int)
    requires WeekRange(0, a).start <= b <= WeekRange(0, a).end
    ensures WeekRange(offset, b) == WeekRange(offset, a)
  {
    var ra, rb := WeekRange(0, a), WeekRange(0, b);
    assert ra.start % SecondsPerDay == 0 && rb.start % SecondsPerDay == 0;
    var da, db := DayNumber(ra.start), DayNumber(rb.start);
    assert ra.start == da * SecondsPerDay && rb.start == db * SecondsPerDay;
    assert (da + 4) % 7 == 1 && (db + 4) % 7 == 1;
    assert -7 < da - db < 7;
    assert (da - db) % 7 == 0;
    assert da == db;
  }

  const Feb16_2026: int := 20500 * 86400
  const Feb09_2026: int := 20493 * 86400

  /** The week range in closed form: for an instant `secs` seconds into day
      number d, the target Monday is day d - ((d + 3) mod 7) + 7 * offset. */
  lemma {:induction false} WeekRangeOfDay(d: int, secs: int, offset: int)
    requires 0 <= secs < SecondsPerDay
    ensures WeekRange(offset, d * SecondsPerDay + secs).start == (d - (d + 3) % 7 + 7 * offset) * SecondsPerDay
  {
  }

  lemma WeekRangeExamples()
    ensures WeekRange(0, Feb19_2026 + 12 * 3600).start == Feb16_2026
    ensures WeekRange(0, Feb19_2026 + 12 * 3600).end == Feb16_2026 + 7 * 86400 - 1
    ensures WeekRange(-1, Feb19_2026 + 12 * 3600).start == Feb09_2026
    ensures WeekRange(0, Feb16_2026 + 8 * 3600).start == Feb16_2026
    ensures WeekRange(0, Feb16_2026 + 6 * 86400 + 20 * 3600).start == Feb16_2026
  {
  }

  // ---------------------------------------------------------------------
  // Sums over entries

  function Minutes(e: Entry): real {
    e.duration as real / 60.0
  }

  /** Day index of an entry's start: Monday 0 ... Sunday 6. */
  function EntryDayIndex(e: Entry): (d: int)
    ensures 0 <= d < 7
  {
    DayIndex(Weekday(e.startedAt))
  }

  /** Minutes of the entries started inside the range. */
  function InRangeMinutes(es: seq<Entry>, range: DateRange): (m: real)
    ensures (forall i :: 0 <= i < |es| ==> es[i].duration >= 0) ==> m >= 0.0
    ensures (forall i :: 0 <= i < |es| ==> !InRange(es[i], range)) ==> m == 0.0
  {
    if es == [] then 0.0
    else
      var last := es[|es| - 1];
      InRangeMinutes(es[..|es| - 1], range) + (if InRange(last, range) then Minutes(last) else 0.0)
  }

  /** Minutes of the in-range entries of one day index and one type. */
  function BucketMinutes(es: seq<Entry>, range: DateRange, dayIndex: int, entryType: EntryType): real {
    if es == [] then 0.0
    else
      var last := es[|es| - 1];
      BucketMinutes(es[..|es| - 1], range, dayIndex, entryType)
        + (if InRange(last, range) && EntryDayIndex(last) == dayIndex && last.entryType == entryType
           then Minutes(last) else 0.0)
  }

  /** The types of the entries started inside the range. */
  function TypesInRange(es: seq<Entry>, range: DateRange): (ts: set<EntryType>)
    ensures forall t :: t in ts <==> exists i :: 0 <= i < |es| && InRange(es[i], range) && es[i].entryType == t
  {
    if es == [] then {}
    else
      var last := es[|es| - 1];
      var prefix := es[..|es| - 1];
      var rest := TypesInRange(prefix, range);
      assert forall i :: 0 <= i < |prefix| ==> prefix[i] == es[i];
      rest + (if InRange(last, range) then {last.entryType} else {})
  }

  /** The chart's types: those present, or "focus" alone when none is. */
  function ChartTypes(es: seq<Entry>, range: DateRange): (ts: set<EntryType>)
    ensures ts != {}
    ensures TypesInRange(es, range) != {} ==> ts == TypesInRange(es, range)
    ensures TypesInRange(es, range) == {} ==> ts == {FocusType}
  {
    var present := TypesInRange(es, range);
    if present == {} then {FocusType} else present
  }

  function SortedChartTypes(es: seq<Entry>, range: DateRange): (ts: seq<EntryType>)
    ensures StrictlySorted(ts) && |ts| >= 1
    ensures forall t :: t in ts <==> t in ChartTypes(es, range)
  {
    SortedSeq(ChartTypes(es, range))
  }

  // ---------------------------------------------------------------------
  // Aggregation into chart rows

  /** One bar segment of the weekly chart. */
  datatype DayTypeAggregate = DayTypeAggregate(
    dayIndex: int, dayLabel: string, date: int, typeRawValue: EntryType, totalMinutes: real)

  const ShortWeekdaySymbols: seq<string> := ["Sun", "Mon", "Tue", "Wed", "Thu", "Fri", "Sat"]

  /** The platform's Sunday-first short weekday names, rotated to start on
      Monday; the label at a day index names that day. */
  function MondayBasedDayLabels(): (r: seq<string>)
    ensures |r| == 7
    ensures r[0] == "Mon" && r[6] == "Sun"
    ensures forall w :: 1 <= w <= 7 ==> r[DayIndex(w)] == ShortWeekdaySymbols[w - 1]
  {
    ShortWeekdaySymbols[1..] + [ShortWeekdaySymbols[0]]
  }

  function Row(es: seq<Entry>, range: DateRange, dayIndex: int, entryType: EntryType): DayTypeAggregate
    requires 0 <= dayIndex < 7
  {
    DayTypeAggregate(dayIndex, MondayBasedDayLabels()[dayIndex], range.start + dayIndex * SecondsPerDay,
                     entryType, BucketMinutes(es, range, dayIndex, entryType))
  }

  /** The rows of one day, one per type, in the order of ts. */
  function DayRows(es: seq<Entry>, range: DateRange, dayIndex: int, ts: seq<EntryType>): (rows: seq<DayTypeAggregate>)
    requires 0 <= dayIndex < 7
    ensures |rows| == |ts|
    ensures forall j :: 0 <= j < |ts| ==> rows[j] == Row(es, range, dayIndex, ts[j])
  {
    if ts == [] then []
    else DayRows(es, range, dayIndex, ts[..|ts| - 1]) + [Row(es, range, dayIndex, ts[|ts| - 1])]
  }

  lemma DayRowsStep(es: seq<Entry>, range: DateRange, dayIndex: int, ts: seq<EntryType>, j: int)
    requires 0 <= dayIndex < 7 && 0 <= j < |ts|
    ensures DayRows(es, range, dayIndex, ts[..j + 1])
         == DayRows(es, range, dayIndex, ts[..j]) + [Row(es, range, dayIndex, ts[j])]
  {
  }

  /** The rows of days 0 .. days-1. */
  function RowsBefore(es: seq<Entry>, range: DateRange, ts: seq<EntryType>, days: int): (rows: seq<DayTypeAggregate>)
    requires 0 <= days <= 7
  {
    if days == 0 then []
    else RowsBefore(es, range, ts, days - 1) + DayRows(es, range, days - 1, ts)
  }

  /** The chart: for every day Monday to Sunday, one row per chart type. */
  function AggregateRows(es: seq<Entry>, range: DateRange): (rows: seq<DayTypeAggregate>)
    ensures |rows| == 7 * |SortedChartTypes(es, range)| && |rows| >= 7
  {
    RowsBeforeLength(es, range, SortedChartTypes(es, range), 7);
    RowsBefore(es, range, SortedChartTypes(es, range), 7)
  }

  function BucketValue(buckets: map<(int, EntryType), real>, dayIndex: int, entryType: EntryType): real {
    if (dayIndex, entryType) in buckets then buckets[(dayIndex, entryType)] else 0.0
  }

  /** First pass: one bucket per (day index, type) accumulating the minutes
      of the in-range entries, and the set of types seen. A bucket never
      touched reads as 0. */
  method FillBuckets(entries: seq<Entry>, range: DateRange)
    returns (buckets: map<(int, EntryType), real>, typesInData: set<EntryType>)
    ensures typesInData == TypesInRange(entries, range)
    ensures forall d: int, t: EntryType :: BucketValue(buckets, d, t) == BucketMinutes(entries, range, d, t)
  {
    buckets := map[];
    typesInData := {};
    var i := 0;
    while i < |entries|
      invariant 0 <= i <= |entries|
      invariant typesInData == TypesInRange(entries[..i], range)
      invariant forall d: int, t: EntryType ::
        BucketValue(buckets, d, t) == BucketMinutes(entries[..i], range, d, t)
    {
      var entry := entries[i];
      assert entries[..i + 1][..i] == entries[..i];
      if InRange(entry, range) {
        var dayIndex := EntryDayIndex(entry);
        buckets := buckets[(dayIndex, entry.entryType) := BucketValue(buckets, dayIndex, entry.entryType) + Minutes(entry)];
        typesInData := typesInData + {entry.entryType};
      }
      i := i + 1;
    }
    assert entries[..i] == entries;
  }

  /** Second pass: for each day Monday to Sunday, one row per type in the
      order given, reading the totals from the buckets. */
  method EmitRows(entries: seq<Entry>, range: DateRange, buckets: map<(int, EntryType), real>, sortedTypes: seq<EntryType>)
    returns (results: seq<DayTypeAggregate>)
    requires forall d: int, t: EntryType :: BucketValue(buckets, d, t) == BucketMinutes(entries, range, d, t)
    ensures results == RowsBefore(entries, range, sortedTypes, 7)
  {
    var dayLabels := MondayBasedDayLabels();
    results := [];
    for dayIndex := 0 to 7
      invariant results == RowsBefore(entries, range, sortedTypes, dayIndex)
    {
      var dayDate := range.start + dayIndex * SecondsPerDay;
      ghost var before := results;
      assert DayRows(entries, range, dayIndex, sortedTypes[..0]) == [];
      for j := 0 to |sortedTypes|
        invariant results == before + DayRows(entries, range, dayIndex, sortedTypes[..j])
      {
        var typeRaw := sortedTypes[j];
        var row := DayTypeAggregate(dayIndex, dayLabels[dayIndex], dayDate, typeRaw,
                                    BucketValue(buckets, dayIndex, typeRaw));
        assert row == Row(entries, range, dayIndex, typeRaw);
        DayRowsStep(entries, range, dayIndex, sortedTypes, j);
        SnocAssoc(before, DayRows(entries, range, dayIndex, sortedTypes[..j]), row);
        results := results + [row];
      }
      assert sortedTypes[..|sortedTypes|] == sortedTypes;
    }
  }

  /** Per-day, per-type minute totals for the chart: all seven days, each
      with one row per type present in the range ("focus" alone when none
      is), types in ascending order. */
  method Aggregate(entries: seq<Entry>, range: DateRange) returns (results: seq<DayTypeAggregate>)
    ensures results == AggregateRows(entries, range)
  {
    var buckets, typesInData := FillBuckets(entries, range);
    if typesInData == {} {
      typesInData := {FocusType};
    }
    var sortedTypes := SortedSeq(typesInData);
    results := EmitRows(entries, range, buckets, sortedTypes);
  }

  // ---------------------------------------------------------------------
  // Shape of the chart

  lemma {:induction false} RowsBeforeLength(es: seq<Entry>, range: DateRange, ts: seq<EntryType>, days: int)
    requires 0 <= days <= 7
    ensures |RowsBefore(es, range, ts, days)| == days * |ts|
  {
    if days > 0 {
      RowsBeforeLength(es, range, ts, days - 1);
      assert days * |ts| == (days - 1) * |ts| + |ts|;
      assert |RowsBefore(es, range, ts, days)| == |RowsBefore(es, range, ts, days - 1)| + |ts|;
    }
  }

  /** Position of day d's j-th type in a chart with n types per day. */
  function ChartIndex(d: int, j: int, n: int): (k: int)
    requires 0 <= d < 7 && 0 <= j < n
    ensures d * n <= k < d * n + n && k < 7 * n
  {
    assert 7 * n == d * n + (7 - d) * n;
    assert (7 - d) * n >= n;
    d * n + j
  }

  lemma BlockBelow(d: int, k: int, n: int)
    requires 0 <= d < k && n >= 0
    ensures d * n + n <= k * n
  {
    var m := k - d - 1;
    assert k == d + m + 1;
    assert m * n >= 0;
    assert k * n == d * n + m * n + n;
  }

  /** Row d * |ts| + j of the first `days` days is day d's row for ts[j]. */
  lemma {:induction false} RowsBeforeAt(es: seq<Entry>, range: DateRange, ts: seq<EntryType>, days: int, d: int, j: int)
    requires 0 <= d < days <= 7 && 0 <= j < |ts|
    ensures d * |ts| + j < |RowsBefore(es, range, ts, days)|
    ensures RowsBefore(es, range, ts, days)[d * |ts| + j] == Row(es, range, d, ts[j])
  {
    var n := |ts|;
    RowsBeforeLength(es, range, ts, days - 1);
    var before := RowsBefore(es, range, ts, days - 1);
    var last := DayRows(es, range, days - 1, ts);
    assert RowsBefore(es, range, ts, days) == before + last;
    if d < days - 1 {
      BlockBelow(d, days - 1, n);
      RowsBeforeAt(es, range, ts, days - 1, d, j);
      IndexLeft(before, last, d * n + j);
    } else {
      IndexRight(before, last, d * n, j);
    }
  }

  /** Laid out over a list of types ts (AggregateRows uses the chart's
      types in ascending order), the chart has 7 x |ts| rows, ordered by day
      index and then by type: row ChartIndex(d, j, |ts|) = d * |ts| + j is
      day d's row for ts[j], holding that day's bucket total. */
  lemma ChartShape(es: seq<Entry>, range: DateRange, ts: seq<EntryType>)
    ensures |RowsBefore(es, range, ts, 7)| == 7 * |ts|
    ensures forall d, j :: 0 <= d < 7 && 0 <= j < |ts| ==>
      RowsBefore(es, range, ts, 7)[ChartIndex(d, j, |ts|)] == Row(es, range, d, ts[j])
  {
    RowsBeforeLength(es, range, ts, 7);
    forall d, j | 0 <= d < 7 && 0 <= j < |ts|
      ensures RowsBefore(es, range, ts, 7)[ChartIndex(d, j, |ts|)] == Row(es, range, d, ts[j])
    {
      RowsBeforeAt(es, range, ts, 7, d, j);
    }
  }

  // ---------------------------------------------------------------------
  // Grand total of the chart

  function SumRows(rows: seq<DayTypeAggregate>): real {
    if rows == [] then 0.0 else SumRows(rows[..|rows| - 1]) + rows[|rows| - 1].totalMinutes
  }

  lemma {:induction false} SumRowsAppend(a: seq<DayTypeAggregate>, b: seq<DayTypeAggregate>)
    ensures SumRows(a + b) == SumRows(a) + SumRows(b)
  {
    if b == [] {
      assert a + b == a;
    } else {
      assert (a + b)[..|a + b| - 1] == a + b[..|b| - 1];
      SumRowsAppend(a, b[..|b| - 1]);
    }
  }

  /** Sum of one day's buckets over the listed types. */
  function TypeSum(es: seq<Entry>, range: DateRange, dayIndex: int, ts: seq<EntryType>): real {
    if ts == [] then 0.0
    else TypeSum(es, range, dayIndex, ts[..|ts| - 1]) + BucketMinutes(es, range, dayIndex, ts[|ts| - 1])
  }

  /** Sum of the buckets of days 0 .. days-1 over the listed types. */
  function WeekSum(es: seq<Entry>, range: DateRange, ts: seq<EntryType>, days: int): real
    requires 0 <= days
  {
    if days == 0 then 0.0 else WeekSum(es, range, ts, days - 1) + TypeSum(es, range, days - 1, ts)
  }

  predicate Distinct(ts: seq<EntryType>) {
    forall i, j :: 0 <= i < j < |ts| ==> ts[i] != ts[j]
  }

  lemma {:induction false} DayRowsSum(es: seq<Entry>, range: DateRange, dayIndex: int, ts: seq<EntryType>)
    requires 0 <= dayIndex < 7
    ensures SumRows(DayRows(es, range, dayIndex, ts)) == TypeSum(es, range, dayIndex, ts)
  {
    if ts != [] {
      var init := DayRows(es, range, dayIndex, ts[..|ts| - 1]);
      var row := Row(es, range, dayIndex, ts[|ts| - 1]);
      assert (init + [row])[..|init + [row]| - 1] == init;
      DayRowsSum(es, range, dayIndex, ts[..|ts| - 1]);
    }
  }

  lemma {:induction false} RowsBeforeSum(es: seq<Entry>, range: DateRange, ts: seq<EntryType>, days: int)
    requires 0 <= days <= 7
    ensures SumRows(RowsBefore(es, range, ts, days)) == WeekSum(es, range, ts, days)
  {
    if days > 0 {
      RowsBeforeSum(es, range, ts, days - 1);
      SumRowsAppend(RowsBefore(es, range, ts, days - 1), DayRows(es, range, days - 1, ts));
      DayRowsSum(es, range, days - 1, ts);
    }
  }

  /** Adding one entry adds its minutes to exactly the cell of its day and
      type, when that type is listed once. */
  lemma {:induction false} TypeSumStep(es: seq<Entry>, e: Entry, range: DateRange, dayIndex: int, ts: seq<EntryType>)
    requires Distinct(ts)
    ensures TypeSum(es + [e], range, dayIndex, ts)
         == TypeSum(es, range, dayIndex, ts)
            + (if InRange(e, range) && EntryDayIndex(e) == dayIndex && e.entryType in ts then Minutes(e) else 0.0)
  {
    assert (es + [e])[..|es|] == es;
    if ts != [] {
      var init := ts[..|ts| - 1];
      assert forall t :: t in ts <==> t in init || t == ts[|ts| - 1];
      assert ts[|ts| - 1] !in init;
      TypeSumStep(es, e, range, dayIndex, init);
    }
  }

  lemma {:induction false} WeekSumStep(es: seq<Entry>, e: Entry, range: DateRange, ts: seq<EntryType>, days: int)
    requires Distinct(ts) && 0 <= days
    ensures WeekSum(es + [e], range, ts, days)
         == WeekSum(es, range, ts, days)
            + (if InRange(e, range) && EntryDayIndex(e) < days && e.entryType in ts then Minutes(e) else 0.0)
  {
    if days > 0 {
      WeekSumStep(es, e, range, ts, days - 1);
      TypeSumStep(es, e, range, days - 1, ts);
    }
  }

  lemma {:induction false} EmptyGridSum(range: DateRange, ts: seq<EntryType>, days: int)
    requires 0 <= days
    ensures WeekSum([], range, ts, days) == 0.0
  {
    if days > 0 {
      EmptyGridSum(range, ts, days - 1);
      EmptyDaySum(range, days - 1, ts);
    }
  }

  lemma {:induction false} EmptyDaySum(range: DateRange, dayIndex: int, ts: seq<EntryType>)
    ensures TypeSum([], range, dayIndex, ts) == 0.0
  {
    if ts != [] {
      EmptyDaySum(range, dayIndex, ts[..|ts| - 1]);
    }
  }

  lemma {:induction false} WeekSumIsTotal(es: seq<Entry>, range: DateRange, ts: seq<EntryType>)
    requires Distinct(ts)
    requires forall t :: t in TypesInRange(es, range) ==> t in ts
    ensures WeekSum(es, range, ts, 7) == InRangeMinutes(es, range)
  {
    if es != [] {
      var prefix, e := es[..|es| - 1], es[|es| - 1];
      assert es == prefix + [e];
      assert forall i :: 0 <= i < |prefix| ==> prefix[i] == es[i];
      assert TypesInRange(es, range) == TypesInRange(prefix, range) + (if InRange(e, range) then {e.entryType} else {});
      assert InRangeMinutes(es, range) == InRangeMinutes(prefix, range) + (if InRange(e, range) then Minutes(e) else 0.0);
      WeekSumIsTotal(prefix, range, ts);
      WeekSumStep(prefix, e, range, ts, 7);
      if InRange(e, range) {
        assert e.entryType in TypesInRange(es, range);
      }
    } else {
      EmptyGridSum(range, ts, 7);
    }
  }

  lemma StrictlySortedDistinct(ts: seq<EntryType>)
    requires StrictlySorted(ts)
    ensures Distinct(ts)
  {
    forall i, j | 0 <= i < j < |ts|
      ensures ts[i] != ts[j]
    {
      LexIrreflexive(ts[i]);
    }
  }

  /** The chart's minutes add up to the minutes of the in-range entries:
      every entry in the week lands in exactly one row. */
  lemma ChartTotal(es: seq<Entry>, range: DateRange)
    ensures SumRows(AggregateRows(es, range)) == InRangeMinutes(es, range)
  {
    var ts := SortedChartTypes(es, range);
    StrictlySortedDistinct(ts);
    RowsBeforeSum(es, range, ts, 7);
    WeekSumIsTotal(es, range, ts);
  }

  // ---------------------------------------------------------------------
  // Daily average and week summary

  function Max(a: int, b: int): int {
    if a >= b then a else b
  }

  /** Days the average divides by: days from the range start through today
      (at least 1) when today's midnight lies in the range, otherwise 7. */
  function ElapsedDays(range: DateRange, referenceDate: int): (d: int)
    ensures d >= 1
  {
    var today := StartOfDay(referenceDate);
    if range.start <= today <= range.end then Max(1, DaysBetween(range.start, today) + 1)
    else 7
  }

  /** For week ranges: the current week counts Monday through today, every
      other week counts all seven days. */
  lemma ElapsedDaysOfWeek(offset: int, referenceDate: int)
    ensures var d := ElapsedDays(WeekRange(offset, referenceDate), referenceDate);
      && 1 <= d <= 7
      && (offset == 0 ==> d == DayIndex(Weekday(referenceDate)) + 1)
      && (offset != 0 ==> d == 7)
  {
  }

  /** Minutes per day over the range's entries. */
  function DailyAverage(es: seq<Entry>, range: DateRange, referenceDate: int): (avg: real)
    ensures avg * (ElapsedDays(range, referenceDate) as real) == InRangeMinutes(es, range)
    ensures (forall i :: 0 <= i < |es| ==> !InRange(es[i], range)) ==> avg == 0.0
    ensures (forall i :: 0 <= i < |es| ==> es[i].duration >= 0) ==> avg >= 0.0
  {
    InRangeMinutes(es, range) / (ElapsedDays(range, referenceDate) as real)
  }

  predicate AnyInRange(es: seq<Entry>, range: DateRange) {
    exists i :: 0 <= i < |es| && InRange(es[i], range)
  }

  datatype WeekSummary = WeekSummary(
    dailyAverageMinutes: real, previousWeekDailyAverage: Option<real>, percentChange: Option<real>)

  /** Relative change from prior to current, in percent. */
  function PercentChange(current: real, prior: real): (pct: real)
    requires prior > 0.0
    ensures pct * prior == (current - prior) * 100.0
    ensures pct > 0.0 <==> current > prior
  {
    var ratio := (current - prior) / prior;
    assert ratio * prior == current - prior;
    ratio * 100.0
  }

  lemma PercentChangeExamples()
    ensures PercentChange(30.0, 20.0) == 50.0
    ensures PercentChange(20.0, 40.0) == -50.0
  {
  }

  /** On Thursday 2026-02-19 the current week has run four days, Monday
      through Thursday; the week before divides by seven. */
  lemma ElapsedDaysExample()
    ensures ElapsedDays(WeekRange(0, Feb19_2026 + 12 * 3600), Feb19_2026 + 12 * 3600) == 4
    ensures ElapsedDays(WeekRange(-1, Feb19_2026 + 12 * 3600), Feb19_2026 + 12 * 3600) == 7
  {
  }

  /** A summary from the week's average and, when the prior week has
      entries, the prior week's average. */
  function Compare(currentAvg: real, priorAvg: Option<real>): (s: WeekSummary)
    ensures s.dailyAverageMinutes == currentAvg && s.previousWeekDailyAverage == priorAvg
    ensures s.percentChange.Some? <==> priorAvg.Some? && priorAvg.value > 0.0
    ensures s.percentChange.Some? ==> s.percentChange.value == PercentChange(currentAvg, priorAvg.value)
  {
    match priorAvg
    case None => WeekSummary(currentAvg, None, None)
    case Some(prior) =>
      WeekSummary(currentAvg, Some(prior), if prior > 0.0 then Some(PercentChange(currentAvg, prior)) else None)
  }

  /** The summary of a week against the week before it, given both ranges. */
  function SummaryOver(es: seq<Entry>, currentRange: DateRange, priorRange: DateRange, referenceDate: int): (s: WeekSummary)
    ensures s.dailyAverageMinutes == DailyAverage(es, currentRange, referenceDate)
    ensures s.previousWeekDailyAverage.None? <==> !AnyInRange(es, priorRange)
    ensures s.previousWeekDailyAverage.Some? ==>
      s.previousWeekDailyAverage.value == DailyAverage(es, priorRange, referenceDate)
    ensures s.percentChange.Some? <==> s.previousWeekDailyAverage.Some? && s.previousWeekDailyAverage.value > 0.0
    ensures s.percentChange.Some? ==>
      s.percentChange.value == PercentChange(s.dailyAverageMinutes, s.previousWeekDailyAverage.value)
  {
    var currentAvg := DailyAverage(es, currentRange, referenceDate);
    var priorAvg := if AnyInRange(es, priorRange) then Some(DailyAverage(es, priorRange, referenceDate)) else None;
    Compare(currentAvg, priorAvg)
  }

  /** weekSummary: the week at weekOffset against the week just before it. */
  function Summarize(es: seq<Entry>, weekOffset: int, referenceDate: int): WeekSummary {
    SummaryOver(es, WeekRange(weekOffset, referenceDate), WeekRange(weekOffset - 1, referenceDate), referenceDate)
  }

  /** What the two averages of a summary divide by: the current week's
      minutes by the days elapsed Monday through today, any other week's by
      7. So for weekOffset 1 it is the prior week that is divided by the
      elapsed days. */
  lemma SummaryDivisors(es: seq<Entry>, weekOffset: int, referenceDate: int)
    ensures var s := Summarize(es, weekOffset, referenceDate);
      var cur := WeekRange(weekOffset, referenceDate);
      var prior := WeekRange(weekOffset - 1, referenceDate);
      var elapsed := (DayIndex(Weekday(referenceDate)) + 1) as real;
      && s.dailyAverageMinutes == InRangeMinutes(es, cur) / (if weekOffset == 0 then elapsed else 7.0)
      && (s.previousWeekDailyAverage.None? <==> !AnyInRange(es, prior))
      && (s.previousWeekDailyAverage.Some? ==>
            s.previousWeekDailyAverage.value
              == InRangeMinutes(es, prior) / (if weekOffset == 1 then elapsed else 7.0))
  {
    ElapsedDaysOfWeek(weekOffset, referenceDate);
    ElapsedDaysOfWeek(weekOffset - 1, referenceDate);
  }
}
