/** The chart series of the analytics page (client/src/pages/Analytics.tsx, `groupDataByDate`):
    entries are grouped by their UTC day, each day counts its entries per sentiment label, and
    the days are sorted ascending. The day key (`new Date(createdAt).toISOString()` up to the
    'T') is date arithmetic of the browser, so it is a parameter. */
module Analytics {
  import opened JournalEntryModel

  /** An entry as this page reads it from GET /journal. */
  datatype Entry = Entry(createdAt: string, sentimentLabel: Label)

  /** One point of the series: a day and its three counters. */
  datatype ChartData = ChartData(date: string, positive: nat, negative: nat, neutral: nat)

  // ---------------------------------------------------------------------------------------
  // The order of `a.date.localeCompare(b.date)`: on day keys of the form YYYY-MM-DD it is the
  // character-by-character order, modelled here.

  predicate StrLe(a: string, b: string)
  {
    a == [] || (b != [] && (a[0] < b[0] || (a[0] == b[0] && StrLe(a[1..], b[1..]))))
  }

  predicate StrLt(a: string, b: string)
  {
    StrLe(a, b) && a != b
  }

  lemma {:induction false} StrLeTotal(a: string, b: string)
    ensures StrLe(a, b) || StrLe(b, a)
  {
    if a != [] && b != [] && a[0] == b[0] {
      StrLeTotal(a[1..], b[1..]);
    }
  }

  lemma {:induction false} StrLeTransitive(a: string, b: string, c: string)
    requires StrLe(a, b) && StrLe(b, c)
    ensures StrLe(a, c)
  {
    if a != [] && b != [] && c != [] && a[0] == b[0] && b[0] == c[0] {
      StrLeTransitive(a[1..], b[1..], c[1..]);
    }
  }

  // ---------------------------------------------------------------------------------------
  // The specification: which days occur, and how many entries of each label a day has.

  /** The day keys of the entries. */
  function Days(es: seq<Entry>, dayKey: string -> string): set<string>
  {
    if es == [] then {} else Days(es[..|es| - 1], dayKey) + {dayKey(es[|es| - 1].createdAt)}
  }

  /** A day is among the days exactly when some entry falls on it. */
  lemma {:induction false} DaysMeaning(es: seq<Entry>, dayKey: string -> string, d: string)
    ensures d in Days(es, dayKey) <==> exists i :: 0 <= i < |es| && dayKey(es[i].createdAt) == d
  {
    if es != [] {
      var init := es[..|es| - 1];
      DaysMeaning(init, dayKey, d);
      assert forall i :: 0 <= i < |init| ==> init[i] == es[i];
    }
  }

  /** The number of entries on `day` whose sentiment label is `l`. */
  function Count(es: seq<Entry>, dayKey: string -> string, day: string, l: Label): nat
  {
    if es == [] then 0
    else
      var last := es[|es| - 1];
      Count(es[..|es| - 1], dayKey, day, l) +
        (if dayKey(last.createdAt) == day && last.sentimentLabel == l then 1 else 0)
  }

  /** The point the series should hold for `day`. */
  function Tally(es: seq<Entry>, dayKey: string -> string, day: string): ChartData
  {
    ChartData(day, Count(es, dayKey, day, Positive), Count(es, dayKey, day, Negative),
              Count(es, dayKey, day, Label.Neutral))
  }

  /** The number of entries a point accounts for. */
  function Size(row: ChartData): nat
  {
    row.positive + row.negative + row.neutral
  }

  function SumTotals(rows: seq<ChartData>): nat
  {
    if rows == [] then 0 else Size(rows[0]) + SumTotals(rows[1..])
  }

  /** A day on which no entry falls has no entries of any label. */
  lemma {:induction false} CountOutsideDays(es: seq<Entry>, dayKey: string -> string, day: string, l: Label)
    requires day !in Days(es, dayKey)
    ensures Count(es, dayKey, day, l) == 0
  {
    if es != [] {
      CountOutsideDays(es[..|es| - 1], dayKey, day, l);
    }
  }

  /** `map.get(date)![entry.sentimentLabel] += 1` */
  function Bump(row: ChartData, l: Label): (bumped: ChartData)
    ensures bumped.date == row.date && Size(bumped) == Size(row) + 1
  {
    match l
    case Positive => row.(positive := row.positive + 1)
    case Negative => row.(negative := row.negative + 1)
    case Neutral => row.(neutral := row.neutral + 1)
  }

  /** Appending one entry changes the tally of its own day by one for its label, and no other. */
  lemma TallyStep(es: seq<Entry>, e: Entry, dayKey: string -> string, day: string)
    ensures Tally(es + [e], dayKey, day) ==
              if dayKey(e.createdAt) == day then Bump(Tally(es, dayKey, day), e.sentimentLabel)
              else Tally(es, dayKey, day)
  {
    assert (es + [e])[..|es|] == es;
  }

  lemma {:induction false} SumTotalsAppend(rows: seq<ChartData>, x: ChartData)
    ensures SumTotals(rows + [x]) == SumTotals(rows) + Size(x)
  {
    if rows != [] {
      assert (rows + [x])[1..] == rows[1..] + [x];
      SumTotalsAppend(rows[1..], x);
    }
  }

  // ---------------------------------------------------------------------------------------
  // The JavaScript Map: an insertion-ordered list of keys and the record stored for each.

  predicate Distinct(keys: seq<string>)
  {
    forall a, b :: 0 <= a < b < |keys| ==> keys[a] != keys[b]
  }

  /** `Array.from(map.values())`: the records in insertion order of their keys. */
  function Values(keys: seq<string>, m: map<string, ChartData>): (rows: seq<ChartData>)
    requires forall d :: d in keys ==> d in m
    ensures |rows| == |keys|
    ensures forall k :: 0 <= k < |keys| ==> rows[k] == m[keys[k]]
  {
    if keys == [] then []
    else Values(keys[..|keys| - 1], m) + [m[keys[|keys| - 1]]]
  }

  /** The number of entries the Map's records account for. */
  function KeyedSum(keys: seq<string>, m: map<string, ChartData>): nat
    requires forall d :: d in keys ==> d in m
  {
    if keys == [] then 0 else KeyedSum(keys[..|keys| - 1], m) + Size(m[keys[|keys| - 1]])
  }

  lemma {:induction false} KeyedSumOfValues(keys: seq<string>, m: map<string, ChartData>)
    requires forall d :: d in keys ==> d in m
    ensures SumTotals(Values(keys, m)) == KeyedSum(keys, m)
  {
    if keys != [] {
      KeyedSumOfValues(keys[..|keys| - 1], m);
      SumTotalsAppend(Values(keys[..|keys| - 1], m), m[keys[|keys| - 1]]);
    }
  }

  /** Records under keys outside the list do not contribute. */
  lemma {:induction false} KeyedSumIgnoresOthers(keys: seq<string>, m: map<string, ChartData>, d: string, v: ChartData)
    requires forall x :: x in keys ==> x in m
    requires d !in keys
    ensures KeyedSum(keys, m[d := v]) == KeyedSum(keys, m)
  {
    if keys != [] {
      KeyedSumIgnoresOthers(keys[..|keys| - 1], m, d, v);
    }
  }

  /** Replacing the record of one key changes the sum by the difference. */
  lemma {:induction false} KeyedSumAfterUpdate(keys: seq<string>, m: map<string, ChartData>, d: string, v: ChartData)
    requires forall x :: x in keys ==> x in m
    requires Distinct(keys) && d in keys
    ensures KeyedSum(keys, m[d := v]) + Size(m[d]) == KeyedSum(keys, m) + Size(v)
  {
    var init, last := keys[..|keys| - 1], keys[|keys| - 1];
    assert keys == init + [last];
    if last == d {
      assert d !in init;
      KeyedSumIgnoresOthers(init, m, d, v);
    } else {
      assert Distinct(init) by {
        forall a, b | 0 <= a < b < |init| ensures init[a] != init[b] {
          assert init[a] == keys[a] && init[b] == keys[b];
        }
      }
      KeyedSumAfterUpdate(init, m, d, v);
    }
  }

  // ---------------------------------------------------------------------------------------
  // `.sort((a, b) => a.date.localeCompare(b.date))`

  ghost predicate Ascending(rows: seq<ChartData>)
  {
    forall i, j :: 0 <= i < j < |rows| ==> StrLt(rows[i].date, rows[j].date)
  }

  ghost predicate DistinctDates(rows: seq<ChartData>)
  {
    forall i, j :: 0 <= i < j < |rows| ==> rows[i].date != rows[j].date
  }

  function InsertByDate(x: ChartData, s: seq<ChartData>): (r: seq<ChartData>)
    ensures multiset(r) == multiset(s) + multiset{x}
    ensures SumTotals(r) == SumTotals(s) + Size(x)
  {
    if s == [] || StrLe(x.date, s[0].date) then [x] + s
    else
      assert s == [s[0]] + s[1..];
      [s[0]] + InsertByDate(x, s[1..])
  }

  /** Inserting a point of a new day into an ascending series keeps it ascending. */
  lemma {:induction false} InsertByDateAscending(x: ChartData, s: seq<ChartData>)
    requires Ascending(s)
    requires forall i :: 0 <= i < |s| ==> s[i].date != x.date
    ensures Ascending(InsertByDate(x, s))
  {
    var r := InsertByDate(x, s);
    if s == [] || StrLe(x.date, s[0].date) {
      forall j | 0 <= j < |s| ensures StrLt(x.date, s[j].date) {
        if j > 0 { StrLeTransitive(x.date, s[0].date, s[j].date); }
      }
      ConsAscending(x, s);
    } else {
      var t := InsertByDate(x, s[1..]);
      InsertByDateAscending(x, s[1..]);
      StrLeTotal(x.date, s[0].date);
      forall j | 0 <= j < |t| ensures StrLt(s[0].date, t[j].date) {
        assert t[j] in multiset(t);
        if t[j] != x {
          assert t[j] in s[1..];
        }
      }
      ConsAscending(s[0], t);
    }
  }

  /** A point earlier than every point of an ascending series can head it. */
  lemma ConsAscending(x: ChartData, s: seq<ChartData>)
    requires Ascending(s)
    requires forall j :: 0 <= j < |s| ==> StrLt(x.date, s[j].date)
    ensures Ascending([x] + s)
  {
    var r := [x] + s;
    forall i, j | 0 <= i < j < |r| ensures StrLt(r[i].date, r[j].date) {
      assert r[j] == s[j - 1];
      if i > 0 { assert r[i] == s[i - 1]; }
    }
  }

  /** A sort by date: a permutation of the points. Since the days of the series are distinct,
      its result is fully determined by the order (`SortByDateAscending`) and the permutation,
      whatever algorithm `Array.prototype.sort` uses. */
  function SortByDate(s: seq<ChartData>): (r: seq<ChartData>)
    ensures multiset(r) == multiset(s)
    ensures SumTotals(r) == SumTotals(s)
  {
    if s == [] then []
    else
      assert s == [s[0]] + s[1..];
      InsertByDate(s[0], SortByDate(s[1..]))
  }

  /** Sorting points of distinct days orders them strictly ascending. */
  lemma {:induction false} SortByDateAscending(s: seq<ChartData>)
    requires DistinctDates(s)
    ensures Ascending(SortByDate(s))
  {
    if s != [] {
      assert s == [s[0]] + s[1..];
      var rest := SortByDate(s[1..]);
      assert DistinctDates(s[1..]) by {
        forall i, j | 0 <= i < j < |s| - 1 ensures s[1..][i].date != s[1..][j].date {
          assert s[1..][i] == s[i + 1] && s[1..][j] == s[j + 1];
        }
      }
      SortByDateAscending(s[1..]);
      forall i | 0 <= i < |rest| ensures rest[i].date != s[0].date {
        assert rest[i] in multiset(rest);
        var j :| 0 <= j < |s[1..]| && s[1..][j] == rest[i];
        assert s[1..][j] == s[j + 1];
      }
      InsertByDateAscending(s[0], rest);
    }
  }

  /** The sort keeps exactly the points it was given. */
  lemma SortByDateMembers(s: seq<ChartData>)
    ensures forall x :: x in SortByDate(s) <==> x in s
  {
    forall x ensures x in SortByDate(s) <==> x in s {
      assert x in SortByDate(s) <==> x in multiset(SortByDate(s));
      assert x in s <==> x in multiset(s);
    }
  }

  // ---------------------------------------------------------------------------------------

  /** The state of the Map after the `forEach` has visited the entries `es`: a key for each
      day seen, in the order first seen, holding that day's tally; together the records account
      for every visited entry. */
  ghost predicate Grouped(es: seq<Entry>, dayKey: string -> string, m: map<string, ChartData>, keys: seq<string>)
  {
    && (forall d :: d in m <==> d in keys)
    && Distinct(keys)
    && m.Keys == Days(es, dayKey)
    && (forall d :: d in m ==> m[d] == Tally(es, dayKey, d))
    && KeyedSum(keys, m) == |es|
  }

  /** The Map's state after appending an entry whose day already has a key. */
  lemma {:induction false} TallyUpdate(es: seq<Entry>, e: Entry, dayKey: string -> string,
                                       m: map<string, ChartData>, keys: seq<string>)
    requires Grouped(es, dayKey, m, keys)
    requires dayKey(e.createdAt) in m
    ensures Grouped(es + [e], dayKey,
                    m[dayKey(e.createdAt) := Bump(m[dayKey(e.createdAt)], e.sentimentLabel)], keys)
  {
    var date := dayKey(e.createdAt);
    var bumped := Bump(m[date], e.sentimentLabel);
    KeyedSumAfterUpdate(keys, m, date, bumped);
    var m2 := m[date := bumped];
    forall d | d in m2 ensures m2[d] == Tally(es + [e], dayKey, d) {
      TallyStep(es, e, dayKey, d);
    }
    assert (es + [e])[..|es|] == es;
    assert Days(es + [e], dayKey) == Days(es, dayKey) + {date};
    assert m2.Keys == m.Keys;
  }

  /** The counters of the first entry of a new day: its own label counted once. */
  lemma NewDayTallies(es: seq<Entry>, e: Entry, dayKey: string -> string,
                      m: map<string, ChartData>, m2: map<string, ChartData>)
    requires forall d :: d in m ==> m[d] == Tally(es, dayKey, d)
    requires dayKey(e.createdAt) !in Days(es, dayKey)
    requires m2 == m[dayKey(e.createdAt) := Bump(ChartData(dayKey(e.createdAt), 0, 0, 0), e.sentimentLabel)]
    ensures forall d :: d in m2 ==> m2[d] == Tally(es + [e], dayKey, d)
  {
    var date := dayKey(e.createdAt);
    CountOutsideDays(es, dayKey, date, Positive);
    CountOutsideDays(es, dayKey, date, Negative);
    CountOutsideDays(es, dayKey, date, Label.Neutral);
    forall d | d in m2 ensures m2[d] == Tally(es + [e], dayKey, d) {
      TallyStep(es, e, dayKey, d);
    }
  }

  /** The sum of the Map after a new day's key is appended with one entry counted. */
  lemma NewDaySum(keys: seq<string>, m: map<string, ChartData>, date: string, row: ChartData)
    requires forall d :: d in m <==> d in keys
    requires Distinct(keys) && date !in m
    ensures forall d :: d in m[date := row] <==> d in keys + [date]
    ensures Distinct(keys + [date])
    ensures KeyedSum(keys + [date], m[date := row]) == KeyedSum(keys, m) + Size(row)
  {
    var keys1 := keys + [date];
    KeyedSumIgnoresOthers(keys, m, date, row);
    assert keys1[..|keys|] == keys;
    forall a, b | 0 <= a < b < |keys1| ensures keys1[a] != keys1[b] {
      if b < |keys| { assert keys1[a] == keys[a] && keys1[b] == keys[b]; }
      else { assert keys1[a] in keys; }
    }
  }

  /** One step of the `forEach` on an entry of a day not seen before: the day is inserted with
      zero counters, then the counter of the entry's label is incremented. */
  lemma {:induction false} GroupedStep(es: seq<Entry>, e: Entry, dayKey: string -> string,
                                       m: map<string, ChartData>, keys: seq<string>)
    requires Grouped(es, dayKey, m, keys)
    requires dayKey(e.createdAt) !in m
    ensures var date := dayKey(e.createdAt);
            var m1 := m[date := ChartData(date, 0, 0, 0)];
            Grouped(es + [e], dayKey, m1[date := Bump(m1[date], e.sentimentLabel)], keys + [date])
  {
    var date := dayKey(e.createdAt);
    var bumped := Bump(ChartData(date, 0, 0, 0), e.sentimentLabel);
    var m2 := m[date := bumped];
    assert m[date := ChartData(date, 0, 0, 0)][date := bumped] == m2;
    NewDayTallies(es, e, dayKey, m, m2);
    NewDaySum(keys, m, date, bumped);
    assert (es + [e])[..|es|] == es;
    assert Days(es + [e], dayKey) == Days(es, dayKey) + {date};
  }

  /** `groupDataByDate`: one point per day that has entries, each point counting that day's
      entries per label, the points ascending by date, and together accounting for every
      entry exactly once. No entries give no points. */
  method GroupDataByDate(entries: seq<Entry>, dayKey: string -> string) returns (data: seq<ChartData>)
    ensures forall k :: 0 <= k < |data| ==> data[k] == Tally(entries, dayKey, data[k].date)
    ensures forall d :: d in Days(entries, dayKey) <==> exists k :: 0 <= k < |data| && data[k].date == d
    ensures Ascending(data)
    ensures SumTotals(data) == |entries|
    ensures entries == [] ==> data == []
  {
    var m: map<string, ChartData> := map[];
    var keys: seq<string> := [];
    var i := 0;
    while i < |entries|
      invariant 0 <= i <= |entries|
      invariant Grouped(entries[..i], dayKey, m, keys)
    {
      var entry := entries[i];
      var date := dayKey(entry.createdAt);
      assert entries[..i + 1] == entries[..i] + [entry];
      if date !in m {
        GroupedStep(entries[..i], entry, dayKey, m, keys);
        m := m[date := ChartData(date, 0, 0, 0)];
        keys := keys + [date];
      } else {
        TallyUpdate(entries[..i], entry, dayKey, m, keys);
      }
      m := m[date := Bump(m[date], entry.sentimentLabel)];
      i := i + 1;
    }
    assert entries[..i] == entries;
    FinishGrouping(entries, dayKey, m, keys);
    if entries == [] {
      NothingGrouped(dayKey, m, keys);
    }
    data := SortByDate(Values(keys, m));
  }

  /** Before any entry is visited, the Map has no keys. */
  lemma NothingGrouped(dayKey: string -> string, m: map<string, ChartData>, keys: seq<string>)
    requires Grouped([], dayKey, m, keys)
    ensures keys == []
  {
    assert m.Keys == {};
    assert forall d :: d !in keys;
  }

  /** The Map's values, read in key order, are the tallies of their keys. */
  lemma ValuesAreTallies(entries: seq<Entry>, dayKey: string -> string, m: map<string, ChartData>, keys: seq<string>)
    requires Grouped(entries, dayKey, m, keys)
    ensures var rows := Values(keys, m);
            forall j :: 0 <= j < |rows| ==> rows[j].date == keys[j] && rows[j] == Tally(entries, dayKey, keys[j])
  {
  }

  /** A permutation of points that are each their day's tally consists of such points. */
  lemma PointsStayTallies(entries: seq<Entry>, dayKey: string -> string, rows: seq<ChartData>, data: seq<ChartData>)
    requires forall x :: x in data ==> x in rows
    requires forall j :: 0 <= j < |rows| ==> rows[j] == Tally(entries, dayKey, rows[j].date)
    ensures forall k :: 0 <= k < |data| ==> data[k] == Tally(entries, dayKey, data[k].date)
  {
    forall k | 0 <= k < |data| ensures data[k] == Tally(entries, dayKey, data[k].date) {
      assert data[k] in rows;
    }
  }

  /** A permutation of points has a point on exactly the same days. */
  lemma PointsStayOnDays(days: set<string>, rows: seq<ChartData>, data: seq<ChartData>)
    requires forall x :: x in data <==> x in rows
    requires forall d :: d in days <==> exists j :: 0 <= j < |rows| && rows[j].date == d
    ensures forall d :: d in days <==> exists k :: 0 <= k < |data| && data[k].date == d
  {
    forall d | d in days ensures exists k :: 0 <= k < |data| && data[k].date == d {
      var j :| 0 <= j < |rows| && rows[j].date == d;
      assert rows[j] in data;
      var k :| 0 <= k < |data| && data[k] == rows[j];
    }
    forall k | 0 <= k < |data| ensures data[k].date in days {
      assert data[k] in rows;
      var j :| 0 <= j < |rows| && rows[j] == data[k];
    }
  }

  /** After the `forEach`, sorting the Map's values gives the series the method promises. */
  lemma FinishGrouping(entries: seq<Entry>, dayKey: string -> string, m: map<string, ChartData>, keys: seq<string>)
    requires Grouped(entries, dayKey, m, keys)
    ensures var data := SortByDate(Values(keys, m));
            && (forall k :: 0 <= k < |data| ==> data[k] == Tally(entries, dayKey, data[k].date))
            && (forall d :: d in Days(entries, dayKey) <==> exists k :: 0 <= k < |data| && data[k].date == d)
            && Ascending(data)
            && SumTotals(data) == |entries|
  {
    var rows := Values(keys, m);
    var data := SortByDate(rows);
    KeyedSumOfValues(keys, m);
    ValuesAreTallies(entries, dayKey, m, keys);
    assert DistinctDates(rows) by {
      forall a, b | 0 <= a < b < |rows| ensures rows[a].date != rows[b].date {
        assert rows[a].date == keys[a] && rows[b].date == keys[b];
      }
    }
    SortByDateAscending(rows);
    SortByDateMembers(rows);
    PointsStayTallies(entries, dayKey, rows, data);
    assert forall d :: d in Days(entries, dayKey) <==> exists j :: 0 <= j < |rows| && rows[j].date == d by {
      forall d ensures d in Days(entries, dayKey) <==> exists j :: 0 <= j < |rows| && rows[j].date == d {
        if d in Days(entries, dayKey) {
          assert d in keys;
          var j :| 0 <= j < |keys| && keys[j] == d;
          assert rows[j].date == d;
        }
      }
    }
    PointsStayOnDays(Days(entries, dayKey), rows, data);
  }
}
