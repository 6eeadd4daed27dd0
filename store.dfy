/** The in-memory part of the pomodoro log: a collection of entries kept
    newest first, edited in place, and read back grouped by calendar day.
    Reading and writing the JSON file are left out; loading takes the result
    of decoding as a parameter. */
module Store {
  import opened Common
  import opened Calendar
  import Formatters

  /** Newest first: start times never increase along the sequence. */
  predicate SortedDesc(s: seq<Entry>) {
    forall i, j :: 0 <= i < j < |s| ==> s[i].startedAt >= s[j].startedAt
  }

  // ---------------------------------------------------------------------
  // Sorting by start time, newest first

  /** Inserts e before the first entry that is not newer than it. */
  function InsertDesc(e: Entry, s: seq<Entry>): (r: seq<Entry>)
    ensures |r| == |s| + 1
    ensures multiset(r) == multiset(s) + multiset{e}
    ensures s == [] ==> r == [e]
    ensures s != [] ==> r[0] == e || r[0] == s[0]
  {
    if s == [] then [e]
    else if e.startedAt >= s[0].startedAt then [e] + s
    else
      assert s == [s[0]] + s[1..];
      [s[0]] + InsertDesc(e, s[1..])
  }

  /** An entry no older than the head of a newest-first sequence can go in
      front of it. */
  lemma SortedCons(x: Entry, t: seq<Entry>)
    requires SortedDesc(t)
    requires t != [] ==> x.startedAt >= t[0].startedAt
    ensures SortedDesc([x] + t)
  {
  }

  lemma SortedTail(s: seq<Entry>)
    requires SortedDesc(s) && s != []
    ensures SortedDesc(s[1..])
  {
  }

  /** Insertion into a newest-first sequence keeps it newest first. */
  lemma {:induction false} InsertDescKeepsOrder(e: Entry, s: seq<Entry>)
    requires SortedDesc(s)
    ensures SortedDesc(InsertDesc(e, s))
  {
    if s == [] || e.startedAt >= s[0].startedAt {
      SortedCons(e, s);
    } else {
      SortedTail(s);
      var t := InsertDesc(e, s[1..]);
      InsertDescKeepsOrder(e, s[1..]);
      SortedCons(s[0], t);
    }
  }

  /** The platform sort with "newer first" as its order. */
  function SortByStartDesc(s: seq<Entry>): (r: seq<Entry>)
    ensures multiset(r) == multiset(s)
    ensures |r| == |s|
    ensures SortedDesc(r)
  {
    if s == [] then []
    else
      assert s == [s[0]] + s[1..];
      var sorted := SortByStartDesc(s[1..]);
      InsertDescKeepsOrder(s[0], sorted);
      InsertDesc(s[0], sorted)
  }

  // ---------------------------------------------------------------------
  // Finding and removing entries by id

  /** Index of the first entry with the given id. */
  function FirstIndexOf(s: seq<Entry>, id: Uuid): (r: Option<nat>)
    ensures r.Some? ==> r.value < |s| && s[r.value].id == id
                        && forall j :: 0 <= j < r.value ==> s[j].id != id
    ensures r.None? ==> forall j :: 0 <= j < |s| ==> s[j].id != id
  {
    if s == [] then None
    else if s[0].id == id then Some(0)
    else match FirstIndexOf(s[1..], id)
      case None => None
      case Some(i) => Some(i + 1)
  }

  /** Every entry whose id differs, in their original order. */
  function RemoveAll(s: seq<Entry>, id: Uuid): (r: seq<Entry>)
    ensures |r| <= |s|
    ensures forall i :: 0 <= i < |r| ==> r[i].id != id
    ensures (forall i :: 0 <= i < |s| ==> s[i].id != id) ==> r == s
  {
    if s == [] then []
    else
      var rest := RemoveAll(s[1..], id);
      assert s == [s[0]] + s[1..];
      if s[0].id == id then rest else [s[0]] + rest
  }

  /** Removal keeps the collection newest first, and nothing it keeps is
      newer than the newest entry it started from. */
  lemma {:induction false} RemoveAllKeepsOrder(s: seq<Entry>, id: Uuid)
    requires SortedDesc(s)
    ensures SortedDesc(RemoveAll(s, id))
    ensures forall i :: 0 <= i < |RemoveAll(s, id)| ==> RemoveAll(s, id)[i].startedAt <= s[0].startedAt
  {
    if s != [] {
      var tail := s[1..];
      var rest := RemoveAll(tail, id);
      assert SortedDesc(tail);
      RemoveAllKeepsOrder(tail, id);
      assert forall i :: 0 <= i < |rest| ==> rest[i].startedAt <= s[0].startedAt;
      if s[0].id != id {
        var r := [s[0]] + rest;
        assert RemoveAll(s, id) == r;
        forall i, j | 0 <= i < j < |r| ensures r[i].startedAt >= r[j].startedAt {
          if i > 0 {
            assert r[i] == rest[i - 1] && r[j] == rest[j - 1];
          }
        }
      }
    }
  }

  /** Removal keeps every copy of every entry with another id. */
  lemma {:induction false} RemoveAllKeepsOthers(s: seq<Entry>, id: Uuid, e: Entry)
    requires e.id != id
    ensures multiset(RemoveAll(s, id))[e] == multiset(s)[e]
  {
    if s != [] {
      RemoveAllKeepsOthers(s[1..], id, e);
      assert s == [s[0]] + s[1..];
      if s[0].id != id {
        assert RemoveAll(s, id) == [s[0]] + RemoveAll(s[1..], id);
      }
    }
  }

  /** Removal works element by element: it keeps the relative order of the
      entries it keeps. */
  lemma {:induction false} RemoveAllAppend(a: seq<Entry>, b: seq<Entry>, id: Uuid)
    ensures RemoveAll(a + b, id) == RemoveAll(a, id) + RemoveAll(b, id)
  {
    if a == [] {
      assert a + b == b;
    } else {
      var ab := a + b;
      AppendTail(a, b);
      RemoveAllAppend(a[1..], b, id);
      var x, y := RemoveAll(a[1..], id), RemoveAll(b, id);
      if a[0].id != id {
        ConsAssoc(a[0], x, y);
      }
    }
  }

  function WithNotes(s: seq<Entry>, id: Uuid, notes: string): (r: seq<Entry>)
    ensures |r| == |s|
    ensures forall j :: 0 <= j < |s| ==> r[j].startedAt == s[j].startedAt
  {
    match FirstIndexOf(s, id)
    case None => s
    case Some(i) => s[i := s[i].(notes := notes)]
  }

  function WithType(s: seq<Entry>, id: Uuid, entryType: EntryType): (r: seq<Entry>)
    ensures |r| == |s|
    ensures forall j :: 0 <= j < |s| ==> r[j].startedAt == s[j].startedAt
  {
    match FirstIndexOf(s, id)
    case None => s
    case Some(i) => s[i := s[i].(entryType := entryType)]
  }

  /** Edits never reorder, so they keep the collection newest first. */
  lemma SameStartTimesKeepOrder(s: seq<Entry>, r: seq<Entry>)
    requires |r| == |s|
    requires forall j :: 0 <= j < |s| ==> r[j].startedAt == s[j].startedAt
    ensures SortedDesc(s) ==> SortedDesc(r)
  {
  }

  // ---------------------------------------------------------------------
  // Loading

  /** A missing file or one that does not decode gives an empty log. */
  function LoadEntries(fileExists: bool, decoded: Option<seq<Entry>>): (r: seq<Entry>)
    ensures !fileExists || decoded.None? ==> r == []
    ensures fileExists && decoded.Some? ==> r == decoded.value
  {
    if !fileExists then []
    else match decoded
      case None => []
      case Some(es) => es
  }

  // ---------------------------------------------------------------------
  // Grouping by day

  /** One section of the log list: a day (its midnight), its label and the
      entries started that day. */
  datatype DayGroup = DayGroup(day: int, labelText: string, entries: seq<Entry>)

  function Flatten(gs: seq<DayGroup>): seq<Entry> {
    if gs == [] then [] else gs[0].entries + Flatten(gs[1..])
  }

  lemma FlattenStep(s: seq<Entry>, n: nat, g: DayGroup, gs: seq<DayGroup>)
    requires n <= |s| && g.entries == s[..n] && Flatten(gs) == s[n..]
    ensures Flatten([g] + gs) == s
  {
  }

  predicate WellFormedGroup(g: DayGroup, now: int, mediumDate: int -> string) {
    && |g.entries| > 0
    && (forall k :: 0 <= k < |g.entries| ==> StartOfDay(g.entries[k].startedAt) == g.day)
    && SortedDesc(g.entries)
    && g.labelText == Formatters.FormatRelativeDay(g.day, now, mediumDate)
  }

  predicate AllWellFormed(gs: seq<DayGroup>, now: int, mediumDate: int -> string) {
    forall i :: 0 <= i < |gs| ==> WellFormedGroup(gs[i], now, mediumDate)
  }

  predicate DaysStrictlyDecreasing(gs: seq<DayGroup>) {
    forall i, j :: 0 <= i < j < |gs| ==> gs[i].day > gs[j].day
  }

  /** A group older-dated than none of its successors can go in front. */
  lemma PrependKeepsDecreasing(g: DayGroup, rest: seq<DayGroup>)
    requires DaysStrictlyDecreasing(rest)
    requires rest != [] ==> g.day > rest[0].day
    ensures DaysStrictlyDecreasing([g] + rest)
  {
  }

  /** Length of the longest prefix of s whose entries start on day `day`. */
  function RunLength(s: seq<Entry>, day: int): (n: nat)
    ensures n <= |s|
    ensures forall i :: 0 <= i < n ==> DayNumber(s[i].startedAt) == day
    ensures n < |s| ==> DayNumber(s[n].startedAt) != day
  {
    if s == [] || DayNumber(s[0].startedAt) != day then 0
    else 1 + RunLength(s[1..], day)
  }

  /** Any slice of a newest-first sequence is newest first. */
  lemma SortedSlice(s: seq<Entry>, lo: nat, hi: nat)
    requires SortedDesc(s) && lo <= hi <= |s|
    ensures SortedDesc(s[lo..hi])
  {
  }

  /** Every entry of the first run starts on the day of the first entry. */
  lemma RunOnOneDay(s: seq<Entry>)
    requires s != []
    ensures var n := RunLength(s, DayNumber(s[0].startedAt));
      forall k :: 0 <= k < n ==> StartOfDay(s[k].startedAt) == StartOfDay(s[0].startedAt)
  {
  }

  /** The entry after the first run starts on an earlier day. */
  lemma RunEndsOnEarlierDay(s: seq<Entry>)
    requires SortedDesc(s) && s != []
    ensures var n := RunLength(s, DayNumber(s[0].startedAt));
      n < |s| ==> StartOfDay(s[n].startedAt) < StartOfDay(s[0].startedAt)
  {
  }

  /** A non-empty same-day prefix of a newest-first sequence is a
      well-formed group. */
  lemma PrefixGroup(s: seq<Entry>, n: nat, now: int, mediumDate: int -> string)
    requires SortedDesc(s) && 1 <= n <= |s|
    requires forall k :: 0 <= k < n ==> StartOfDay(s[k].startedAt) == StartOfDay(s[0].startedAt)
    ensures var day := StartOfDay(s[0].startedAt);
      WellFormedGroup(DayGroup(day, Formatters.FormatRelativeDay(day, now, mediumDate), s[..n]), now, mediumDate)
  {
  }

  /** Cuts a sequence into its maximal runs of same-day entries; on a
      newest-first sequence these are exactly the day groups. */
  function GroupRuns(s: seq<Entry>, now: int, mediumDate: int -> string): (gs: seq<DayGroup>)
    ensures |gs| <= |s|
    ensures s != [] ==> gs != [] && gs[0].day == StartOfDay(s[0].startedAt)
    decreases |s|
  {
    if s == [] then []
    else
      var n := RunLength(s, DayNumber(s[0].startedAt));
      var day := StartOfDay(s[0].startedAt);
      [DayGroup(day, Formatters.FormatRelativeDay(day, now, mediumDate), s[..n])]
        + GroupRuns(s[n..], now, mediumDate)
  }

  /** The groups hold exactly the entries, in their order. */
  lemma {:induction false} GroupRunsFlatten(s: seq<Entry>, now: int, mediumDate: int -> string)
    ensures Flatten(GroupRuns(s, now, mediumDate)) == s
    decreases |s|
  {
    if s != [] {
      var n := RunLength(s, DayNumber(s[0].startedAt));
      var gs := GroupRuns(s, now, mediumDate);
      var day := StartOfDay(s[0].startedAt);
      var g := DayGroup(day, Formatters.FormatRelativeDay(day, now, mediumDate), s[..n]);
      var rest := GroupRuns(s[n..], now, mediumDate);
      assert gs == [g] + rest;
      GroupRunsFlatten(s[n..], now, mediumDate);
      FlattenStep(s, n, g, rest);
    }
  }

  /** Every group is a non-empty newest-first run of one day, labelled
      with that day. */
  lemma {:induction false} GroupRunsWellFormed(s: seq<Entry>, now: int, mediumDate: int -> string)
    requires SortedDesc(s)
    ensures AllWellFormed(GroupRuns(s, now, mediumDate), now, mediumDate)
    decreases |s|
  {
    if s != [] {
      var n := RunLength(s, DayNumber(s[0].startedAt));
      var gs := GroupRuns(s, now, mediumDate);
      SortedSlice(s, n, |s|);
      assert s[n..|s|] == s[n..];
      var day := StartOfDay(s[0].startedAt);
      var g := DayGroup(day, Formatters.FormatRelativeDay(day, now, mediumDate), s[..n]);
      var rest := GroupRuns(s[n..], now, mediumDate);
      assert gs == [g] + rest;
      GroupRunsWellFormed(s[n..], now, mediumDate);
      RunOnOneDay(s);
      PrefixGroup(s, n, now, mediumDate);
      forall i | 0 <= i < |gs|
        ensures WellFormedGroup(gs[i], now, mediumDate)
      {
        if i == 0 {
          assert gs[i] == g;
        } else {
          assert gs[i] == rest[i - 1];
        }
      }
    }
  }

  /** Days strictly decrease from group to group: one group per day. */
  lemma {:induction false} GroupRunsDecreasing(s: seq<Entry>, now: int, mediumDate: int -> string)
    requires SortedDesc(s)
    ensures DaysStrictlyDecreasing(GroupRuns(s, now, mediumDate))
    decreases |s|
  {
    if s != [] {
      var n := RunLength(s, DayNumber(s[0].startedAt));
      var gs := GroupRuns(s, now, mediumDate);
      SortedSlice(s, n, |s|);
      assert s[n..|s|] == s[n..];
      var day := StartOfDay(s[0].startedAt);
      var g := DayGroup(day, Formatters.FormatRelativeDay(day, now, mediumDate), s[..n]);
      var rest := GroupRuns(s[n..], now, mediumDate);
      assert gs == [g] + rest;
      GroupRunsDecreasing(s[n..], now, mediumDate);
      RunEndsOnEarlierDay(s);
      PrependKeepsDecreasing(g, rest);
    }
  }

  // ---------------------------------------------------------------------
  // Counting entries of one day

  function CountOnDay(s: seq<Entry>, dayNumber: int): (n: nat)
    ensures n <= |s|
  {
    if s == [] then 0
    else (if DayNumber(s[0].startedAt) == dayNumber then 1 else 0) + CountOnDay(s[1..], dayNumber)
  }

  lemma {:induction false} CountOnDayAppend(a: seq<Entry>, b: seq<Entry>, d: int)
    ensures CountOnDay(a + b, d) == CountOnDay(a, d) + CountOnDay(b, d)
  {
    if a == [] {
      assert a + b == b;
    } else {
      assert (a + b)[1..] == a[1..] + b;
      CountOnDayAppend(a[1..], b, d);
    }
  }

  lemma {:induction false} CountOnDayInsert(e: Entry, s: seq<Entry>, d: int)
    ensures CountOnDay(InsertDesc(e, s), d) == CountOnDay([e], d) + CountOnDay(s, d)
  {
    if s != [] && e.startedAt < s[0].startedAt {
      CountOnDayInsert(e, s[1..], d);
      assert ([s[0]] + InsertDesc(e, s[1..]))[1..] == InsertDesc(e, s[1..]);
    } else if s != [] {
      assert ([e] + s)[1..] == s;
    }
  }

  /** Sorting does not change how many entries start on a day. */
  lemma {:induction false} CountOnDaySort(s: seq<Entry>, d: int)
    ensures CountOnDay(SortByStartDesc(s), d) == CountOnDay(s, d)
  {
    if s != [] {
      CountOnDaySort(s[1..], d);
      CountOnDayInsert(s[0], SortByStartDesc(s[1..]), d);
    }
  }

  /** Total size of the groups for the day starting at midnight dayStart. */
  function SizeOfDayGroup(gs: seq<DayGroup>, dayStart: int): nat {
    if gs == [] then 0
    else (if gs[0].day == dayStart then |gs[0].entries| else 0) + SizeOfDayGroup(gs[1..], dayStart)
  }

  lemma {:induction false} CountOnDayOfGroups(gs: seq<DayGroup>, d: int)
    requires forall i, k :: 0 <= i < |gs| && 0 <= k < |gs[i].entries| ==>
               StartOfDay(gs[i].entries[k].startedAt) == gs[i].day
    ensures CountOnDay(Flatten(gs), d) == SizeOfDayGroup(gs, d * SecondsPerDay)
  {
    if gs != [] {
      CountOnDayOfGroups(gs[1..], d);
      CountOnDayAppend(gs[0].entries, Flatten(gs[1..]), d);
      CountWholeGroup(gs[0].entries, gs[0].day, d);
    }
  }

  lemma {:induction false} CountWholeGroup(s: seq<Entry>, dayStart: int, d: int)
    requires forall k :: 0 <= k < |s| ==> StartOfDay(s[k].startedAt) == dayStart
    ensures CountOnDay(s, d) == if dayStart == d * SecondsPerDay then |s| else 0
  {
    if s != [] {
      CountWholeGroup(s[1..], dayStart, d);
    }
  }

  // ---------------------------------------------------------------------
  // The store object

  class PomodoroStore {
    var entries: seq<Entry>

    /** Opening the store loads whatever the file decodes to, or nothing. */
    constructor (fileExists: bool, decoded: Option<seq<Entry>>)
      ensures entries == LoadEntries(fileExists, decoded)
      ensures !fileExists || decoded.None? ==> entries == []
    {
      entries := LoadEntries(fileExists, decoded);
    }

    /** Appends, then re-sorts the whole collection newest first. */
    method AddEntry(entry: Entry)
      modifies this
      ensures entries == SortByStartDesc(old(entries) + [entry])
      ensures |entries| == |old(entries)| + 1
      ensures multiset(entries) == multiset(old(entries)) + multiset{entry}
      ensures SortedDesc(entries)
    {
      entries := entries + [entry];
      entries := SortByStartDesc(entries);
    }

    /** Changes the notes of the first entry with this id, if any. */
    method UpdateNotes(id: Uuid, notes: string)
      modifies this
      ensures entries == WithNotes(old(entries), id, notes)
      ensures FirstIndexOf(old(entries), id).None? ==> entries == old(entries)
      ensures FirstIndexOf(old(entries), id).Some? ==>
        var i := FirstIndexOf(old(entries), id).value;
        && |entries| == |old(entries)|
        && entries[i] == old(entries)[i].(notes := notes)
        && forall j :: 0 <= j < |entries| && j != i ==> entries[j] == old(entries)[j]
      ensures SortedDesc(old(entries)) ==> SortedDesc(entries)
    {
      var index := FirstIndexOf(entries, id);
      if index.None? {
        return;
      }
      entries := entries[index.value := entries[index.value].(notes := notes)];
      SameStartTimesKeepOrder(old(entries), entries);
    }

    /** Changes the type of the first entry with this id, if any. */
    method UpdateType(id: Uuid, entryType: EntryType)
      modifies this
      ensures entries == WithType(old(entries), id, entryType)
      ensures FirstIndexOf(old(entries), id).None? ==> entries == old(entries)
      ensures FirstIndexOf(old(entries), id).Some? ==>
        var i := FirstIndexOf(old(entries), id).value;
        && |entries| == |old(entries)|
        && entries[i] == old(entries)[i].(entryType := entryType)
        && forall j :: 0 <= j < |entries| && j != i ==> entries[j] == old(entries)[j]
      ensures SortedDesc(old(entries)) ==> SortedDesc(entries)
    {
      var index := FirstIndexOf(entries, id);
      if index.None? {
        return;
      }
      entries := entries[index.value := entries[index.value].(entryType := entryType)];
      SameStartTimesKeepOrder(old(entries), entries);
    }

    /** Removes every entry with this id. */
    method DeleteEntry(id: Uuid)
      modifies this
      ensures entries == RemoveAll(old(entries), id)
      ensures forall i :: 0 <= i < |entries| ==> entries[i].id != id
      ensures forall e: Entry :: e.id != id ==> multiset(entries)[e] == multiset(old(entries))[e]
      ensures (forall i :: 0 <= i < |old(entries)| ==> old(entries)[i].id != id) ==> entries == old(entries)
      ensures SortedDesc(old(entries)) ==> SortedDesc(entries)
    {
      entries := RemoveAll(entries, id);
      if SortedDesc(old(entries)) {
        RemoveAllKeepsOrder(old(entries), id);
      }
      forall e: Entry | e.id != id
        ensures multiset(entries)[e] == multiset(old(entries))[e]
      {
        RemoveAllKeepsOthers(old(entries), id, e);
      }
    }

    /** The log list's sections: one per day that has entries, newest day
        first, each holding that day's entries newest first. Every entry is
        in exactly one section. */
    function EntriesGroupedByDay(now: int, mediumDate: int -> string): (groups: seq<DayGroup>)
      reads this
      ensures multiset(Flatten(groups)) == multiset(entries)
      ensures AllWellFormed(groups, now, mediumDate)
      ensures DaysStrictlyDecreasing(groups)
    {
      var sorted := SortByStartDesc(entries);
      GroupRunsFlatten(sorted, now, mediumDate);
      GroupRunsWellFormed(sorted, now, mediumDate);
      GroupRunsDecreasing(sorted, now, mediumDate);
      GroupRuns(sorted, now, mediumDate)
    }

    /** Number of entries started today. */
    function TodayCount(now: int): (n: nat)
      reads this
      ensures n <= |entries|
      ensures n == CountOnDay(entries, DayNumber(now))
    {
      CountOnDay(entries, DayNumber(now))
    }

    /** Today's count is the size of the "Today" section of the grouped
        list, or 0 when there is none. */
    lemma TodayCountIsTodayGroupSize(now: int, mediumDate: int -> string)
      ensures TodayCount(now) == SizeOfDayGroup(EntriesGroupedByDay(now, mediumDate), StartOfDay(now))
    {
      var sorted := SortByStartDesc(entries);
      var gs := GroupRuns(sorted, now, mediumDate);
      assert EntriesGroupedByDay(now, mediumDate) == gs;
      GroupRunsFlatten(sorted, now, mediumDate);
      GroupRunsWellFormed(sorted, now, mediumDate);
      CountOnDaySort(entries, DayNumber(now));
      CountOnDayOfGroups(gs, DayNumber(now));
    }
  }
}
