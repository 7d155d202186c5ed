/** The feed and water consumption log: entries keyed by day, an insert-or-update
    operation driven by the entry form, and the chart rows that join every entry,
    in day order, with the standard growth curve. */
module Consumption {
  import opened Optional

  datatype Entry = Entry(day: int, feedKg: real, waterL: real)

  /** The five entries the log starts with. */
  const Seed: seq<Entry> := [
    Entry(1, 0.06, 0.13),
    Entry(2, 0.07, 0.15),
    Entry(3, 0.08, 0.18),
    Entry(4, 0.10, 0.21),
    Entry(5, 0.12, 0.25)
  ]

  /** `prev.some(p => p.day === day)`. */
  function HasDay(log: seq<Entry>, day: int): (b: bool)
    ensures b <==> exists i :: 0 <= i < |log| && log[i].day == day
  {
    if log == [] then false
    else log[0].day == day || HasDay(log[1..], day)
  }

  /** `prev.map(...)` that overwrites feed and water of the entries for `day`. */
  function Replace(log: seq<Entry>, day: int, feed: real, water: real): (r: seq<Entry>)
    ensures |r| == |log|
    ensures forall i :: 0 <= i < |log| && log[i].day == day ==> r[i] == log[i].(feedKg := feed, waterL := water)
    ensures forall i :: 0 <= i < |log| && log[i].day != day ==> r[i] == log[i]
  {
    if log == [] then []
    else
      var head := if log[0].day == day then log[0].(feedKg := feed, waterL := water) else log[0];
      [head] + Replace(log[1..], day, feed, water)
  }

  /** The updater passed to `setConsumptions`: overwrite the entry of `day` if
      there is one, otherwise append a new entry. */
  function Upsert(log: seq<Entry>, day: int, feed: real, water: real): (r: seq<Entry>)
    ensures HasDay(r, day)
    ensures |r| == if HasDay(log, day) then |log| else |log| + 1
  {
    if HasDay(log, day) then Replace(log, day, feed, water)
    else
      var r := log + [Entry(day, feed, water)];
      assert r[|log|].day == day;
      r
  }

  ghost predicate DistinctDays(log: seq<Entry>)
  {
    forall i, j :: 0 <= i < j < |log| ==> log[i].day != log[j].day
  }

  function Days(log: seq<Entry>): set<int>
  {
    set i | 0 <= i < |log| :: log[i].day
  }

  /** An existing day is updated in place: same length, only that entry's feed
      and water change. A new day is appended as exactly one entry. */
  lemma UpsertShape(log: seq<Entry>, day: int, feed: real, water: real)
    ensures var r := Upsert(log, day, feed, water);
      if day in Days(log) then
        |r| == |log| &&
        forall i :: 0 <= i < |log| ==>
          r[i].day == log[i].day &&
          (log[i].day == day ==> r[i].feedKg == feed && r[i].waterL == water) &&
          (log[i].day != day ==> r[i] == log[i])
      else
        |r| == |log| + 1 && r[..|log|] == log && r[|log|] == Entry(day, feed, water)
  {
  }

  /** Upsert keeps the days of the log unique and adds exactly the upserted day. */
  lemma UpsertKeepsDistinct(log: seq<Entry>, day: int, feed: real, water: real)
    requires DistinctDays(log)
    ensures DistinctDays(Upsert(log, day, feed, water))
    ensures Days(Upsert(log, day, feed, water)) == Days(log) + {day}
  {
    var r := Upsert(log, day, feed, water);
    UpsertShape(log, day, feed, water);
    if day in Days(log) {
      forall d ensures d in Days(r) <==> d in Days(log) + {day} {
        if d in Days(r) {
          var i :| 0 <= i < |r| && r[i].day == d;
          assert log[i].day == d;
        }
        if d in Days(log) {
          var i :| 0 <= i < |log| && log[i].day == d;
          assert r[i].day == d;
        }
      }
    } else {
      assert r == log + [Entry(day, feed, water)];
      forall d ensures d in Days(r) <==> d in Days(log) + {day} {
        if d in Days(r) {
          var i :| 0 <= i < |r| && r[i].day == d;
          if i < |log| {
            assert log[i].day == d;
          }
        }
        if d in Days(log) {
          var i :| 0 <= i < |log| && log[i].day == d;
          assert r[i].day == d;
        }
        if d == day {
          assert r[|log|].day == d;
        }
      }
      forall i, j | 0 <= i < j < |r| ensures r[i].day != r[j].day {
        if j == |log| {
          assert log[i].day in Days(log);
        }
      }
    }
  }

  /** Submitting the same day, feed and water twice has the effect of submitting it once. */
  lemma UpsertIdempotent(log: seq<Entry>, day: int, feed: real, water: real)
    ensures Upsert(Upsert(log, day, feed, water), day, feed, water) == Upsert(log, day, feed, water)
  {
    var once := Upsert(log, day, feed, water);
    UpsertShape(log, day, feed, water);
    assert HasDay(once, day) by {
      if HasDay(log, day) {
        var k :| 0 <= k < |log| && log[k].day == day;
        assert once[k].day == day;
      } else {
        assert once[|log|].day == day;
      }
    }
    var twice := Replace(once, day, feed, water);
    forall i | 0 <= i < |once| ensures twice[i] == once[i] {
      if once[i].day == day {
        if i < |log| {
          assert log[i].day == day;
        }
      }
    }
  }

  /** The feed and water logged for `day`: those of the first entry with that day. */
  function Lookup(log: seq<Entry>, day: int): (r: Option<(real, real)>)
    ensures r == None <==> !HasDay(log, day)
    ensures r != None ==> exists i :: 0 <= i < |log| && log[i].day == day && r.value == (log[i].feedKg, log[i].waterL)
  {
    if log == [] then None
    else if log[0].day == day then Some((log[0].feedKg, log[0].waterL))
    else Lookup(log[1..], day)
  }

  lemma {:induction false} ReplaceLookup(log: seq<Entry>, day: int, feed: real, water: real, d: int)
    ensures Lookup(Replace(log, day, feed, water), d) ==
      if d == day && HasDay(log, day) then Some((feed, water)) else Lookup(log, d)
  {
    if log != [] {
      ReplaceLookup(log[1..], day, feed, water, d);
      var r := Replace(log, day, feed, water);
      assert r[1..] == Replace(log[1..], day, feed, water);
    }
  }

  lemma {:induction false} AppendLookup(log: seq<Entry>, e: Entry, d: int)
    ensures Lookup(log + [e], d) == if HasDay(log, d) then Lookup(log, d) else if d == e.day then Some((e.feedKg, e.waterL)) else None
  {
    if log != [] {
      assert (log + [e])[1..] == log[1..] + [e];
      AppendLookup(log[1..], e, d);
    }
  }

  /** Reading the log as a table from day to (feed, water), upsert is the table
      update `day := (feed, water)`: the upserted day reads back the new values and
      every other day reads what it read before. */
  lemma UpsertIsTableUpdate(log: seq<Entry>, day: int, feed: real, water: real, d: int)
    ensures Lookup(Upsert(log, day, feed, water), d) == if d == day then Some((feed, water)) else Lookup(log, d)
  {
    if HasDay(log, day) {
      ReplaceLookup(log, day, feed, water, d);
    } else {
      AppendLookup(log, Entry(day, feed, water), d);
      if d != day && !HasDay(log, d) {
        assert Lookup(log, d) == None;
      }
    }
  }

  ghost predicate SortedByDay(log: seq<Entry>)
  {
    forall i, j :: 0 <= i < j < |log| ==> log[i].day <= log[j].day
  }

  /** Every entry of `rest` comes from `sorted` without its head, or is `e`. */
  lemma InsertPrefixBound(e: Entry, sorted: seq<Entry>, rest: seq<Entry>)
    requires sorted != [] && SortedByDay(sorted) && SortedByDay(rest)
    requires sorted[0].day < e.day
    requires multiset(rest) == multiset(sorted[1..]) + multiset{e}
    ensures SortedByDay([sorted[0]] + rest)
  {
    forall k | 0 <= k < |rest| ensures sorted[0].day <= rest[k].day {
      assert rest[k] in multiset(rest);
      if rest[k] != e {
        assert rest[k] in multiset(sorted[1..]);
        var m :| 0 <= m < |sorted[1..]| && sorted[1..][m] == rest[k];
        assert sorted[m + 1] == rest[k];
      }
    }
  }

  /** Puts `e` in front of the first entry whose day is not smaller. */
  function Insert(e: Entry, sorted: seq<Entry>): (r: seq<Entry>)
    requires SortedByDay(sorted)
    ensures SortedByDay(r)
    ensures multiset(r) == multiset(sorted) + multiset{e}
    ensures |r| == |sorted| + 1
  {
    if sorted == [] || e.day <= sorted[0].day then [e] + sorted
    else
      var rest := Insert(e, sorted[1..]);
      assert sorted == [sorted[0]] + sorted[1..];
      InsertPrefixBound(e, sorted, rest);
      [sorted[0]] + rest
  }

  /** Putting an entry with a fresh day in front keeps the days distinct. */
  lemma DistinctCons(x: Entry, s: seq<Entry>)
    requires DistinctDays(s) && x.day !in Days(s)
    ensures DistinctDays([x] + s)
  {
    var t := [x] + s;
    forall i, j | 0 <= i < j < |t| ensures t[i].day != t[j].day {
      if i == 0 {
        assert t[j] == s[j - 1];
        assert s[j - 1].day in Days(s);
      } else {
        assert t[i] == s[i - 1] && t[j] == s[j - 1];
      }
    }
  }

  /** Taking the head off a log with distinct days leaves distinct days, none of them the head's. */
  lemma DistinctUncons(s: seq<Entry>)
    requires s != [] && DistinctDays(s)
    ensures DistinctDays(s[1..]) && s[0].day !in Days(s[1..])
  {
    var tail := s[1..];
    forall i, j | 0 <= i < j < |tail| ensures tail[i].day != tail[j].day {
      assert tail[i] == s[i + 1] && tail[j] == s[j + 1];
    }
    forall m | 0 <= m < |tail| ensures tail[m].day != s[0].day {
      assert tail[m] == s[m + 1];
    }
  }

  lemma {:induction false} InsertKeepsDistinct(e: Entry, sorted: seq<Entry>)
    requires SortedByDay(sorted) && DistinctDays(sorted)
    requires e.day !in Days(sorted)
    ensures DistinctDays(Insert(e, sorted))
    ensures Days(Insert(e, sorted)) == Days(sorted) + {e.day}
  {
    if sorted == [] || e.day <= sorted[0].day {
      assert Insert(e, sorted) == [e] + sorted;
      DistinctCons(e, sorted);
      DaysCons(e, sorted);
    } else {
      var tail := sorted[1..];
      var rest := Insert(e, tail);
      assert Insert(e, sorted) == [sorted[0]] + rest;
      assert sorted == [sorted[0]] + tail;
      DistinctUncons(sorted);
      DaysCons(sorted[0], tail);
      InsertKeepsDistinct(e, tail);
      DaysCons(sorted[0], rest);
      DistinctCons(sorted[0], rest);
    }
  }

  lemma DaysCons(x: Entry, s: seq<Entry>)
    ensures Days([x] + s) == {x.day} + Days(s)
  {
    var t := [x] + s;
    forall d ensures d in Days(t) <==> d in {x.day} + Days(s) {
      if d in Days(t) {
        var i :| 0 <= i < |t| && t[i].day == d;
        if i > 0 {
          assert s[i - 1].day == d;
        }
      }
      if d in Days(s) {
        var i :| 0 <= i < |s| && s[i].day == d;
        assert t[i + 1].day == d;
      }
      if d == x.day {
        assert t[0].day == d;
      }
    }
  }

  /** `[...log].sort((a, b) => a.day - b.day)`: a stable sort by day. */
  function SortByDay(log: seq<Entry>): (r: seq<Entry>)
    ensures SortedByDay(r)
    ensures multiset(r) == multiset(log)
    ensures |r| == |log|
  {
    if log == [] then []
    else
      assert log == [log[0]] + log[1..];
      Insert(log[0], SortByDay(log[1..]))
  }

  lemma {:induction false} SortKeepsDistinct(log: seq<Entry>)
    requires DistinctDays(log)
    ensures DistinctDays(SortByDay(log))
    ensures Days(SortByDay(log)) == Days(log)
  {
    if log != [] {
      var tail := log[1..];
      assert log == [log[0]] + tail;
      DistinctUncons(log);
      SortKeepsDistinct(tail);
      DaysCons(log[0], tail);
      InsertKeepsDistinct(log[0], SortByDay(tail));
    }
  }

  /** One point of the consumption chart: the logged values beside the standard curve. */
  datatype ChartRow = ChartRow(day: int, feedKg: real, waterL: real, stdFeedKg: real, stdWaterL: real)

  function Actual(row: ChartRow): Entry
  {
    Entry(row.day, row.feedKg, row.waterL)
  }

  /** The chart rows: every entry of the log, in ascending day order, joined with
      the standard feed and water of its day. `stdFeed` and `stdWater` stand for
      the standard-curve functions of the dashboard. */
  function ChartData(log: seq<Entry>, stdFeed: int -> real, stdWater: int -> real): (rows: seq<ChartRow>)
    ensures |rows| == |log|
    ensures forall i, j :: 0 <= i < j < |rows| ==> rows[i].day <= rows[j].day
    ensures multiset(seq(|rows|, i requires 0 <= i < |rows| => Actual(rows[i]))) == multiset(log)
    ensures forall i :: 0 <= i < |rows| ==> rows[i].stdFeedKg == stdFeed(rows[i].day) && rows[i].stdWaterL == stdWater(rows[i].day)
  {
    var sorted := SortByDay(log);
    var rows := seq(|sorted|, i requires 0 <= i < |sorted| =>
      ChartRow(sorted[i].day, sorted[i].feedKg, sorted[i].waterL, stdFeed(sorted[i].day), stdWater(sorted[i].day)));
    assert seq(|rows|, i requires 0 <= i < |rows| => Actual(rows[i])) == sorted;
    rows
  }

  /** With unique days the chart has exactly one row per logged day, strictly ascending. */
  lemma ChartStrictlyAscending(log: seq<Entry>, stdFeed: int -> real, stdWater: int -> real)
    requires DistinctDays(log)
    ensures var rows := ChartData(log, stdFeed, stdWater);
      forall i, j :: 0 <= i < j < |rows| ==> rows[i].day < rows[j].day
  {
    var sorted := SortByDay(log);
    SortKeepsDistinct(log);
    var rows := ChartData(log, stdFeed, stdWater);
    forall i | 0 <= i < |rows| ensures rows[i].day == sorted[i].day {
    }
  }

  ghost predicate PositiveDays(log: seq<Entry>)
  {
    forall i :: 0 <= i < |log| ==> log[i].day > 0
  }

  /** The consumption state of the dashboard: the log and the three number inputs
      of its entry form. */
  class ConsumptionLog {
    var consumptions: seq<Entry>
    var dayInput: int
    var feedInput: real
    var waterInput: real

    ghost predicate Valid()
      reads this
    {
      DistinctDays(consumptions) && PositiveDays(consumptions)
    }

    /** The seeded log; the day field suggests the day after the seeded ones. */
    constructor ()
      ensures Valid()
      ensures consumptions == Seed && dayInput == |Seed| + 1
      ensures feedInput == 0.1 && waterInput == 0.22
    {
      consumptions := Seed;
      dayInput := |Seed| + 1;
      feedInput := 0.1;
      waterInput := 0.22;
    }

    /** The user edits the three number inputs of the form. */
    method EditForm(day: int, feed: real, water: real)
      modifies this
      ensures consumptions == old(consumptions)
      ensures dayInput == day && feedInput == feed && waterInput == water
    {
      dayInput, feedInput, waterInput := day, feed, water;
    }

    /** The "Add" button: a non-positive day is ignored; otherwise the entry of
        that day is upserted and the day field moves on by one. */
    method AddConsumption()
      requires Valid()
      modifies this
      ensures Valid()
      ensures feedInput == old(feedInput) && waterInput == old(waterInput)
      ensures old(dayInput) <= 0 ==> consumptions == old(consumptions) && dayInput == old(dayInput)
      ensures old(dayInput) > 0 ==>
        consumptions == Upsert(old(consumptions), old(dayInput), feedInput, waterInput) &&
        dayInput == old(dayInput) + 1
      ensures old(dayInput) > 0 ==> forall d ::
        Lookup(consumptions, d) == if d == old(dayInput) then Some((feedInput, waterInput)) else Lookup(old(consumptions), d)
    {
      if dayInput <= 0 {
        return;
      }
      UpsertKeepsDistinct(consumptions, dayInput, feedInput, waterInput);
      forall d ensures Lookup(Upsert(consumptions, dayInput, feedInput, waterInput), d) ==
        if d == dayInput then Some((feedInput, waterInput)) else Lookup(consumptions, d)
      {
        UpsertIsTableUpdate(consumptions, dayInput, feedInput, waterInput, d);
      }
      UpsertShape(consumptions, dayInput, feedInput, waterInput);
      var next := Upsert(consumptions, dayInput, feedInput, waterInput);
      assert PositiveDays(next) by {
        forall i | 0 <= i < |next| ensures next[i].day > 0 {
          if i < |consumptions| {
            assert consumptions[i].day > 0;
          }
        }
      }
      consumptions := next;
      dayInput := dayInput + 1;
    }
  }
}
