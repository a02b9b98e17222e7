/**
  The reconciling fetcher: tags the data service's points with their series
  and the load day, drops missing values, keeps the points the mode's window
  admits and sorts the survivors by date.
 */
module Fetch {
  import opened FredTypes

  /**
    The mode-specific filter. A full load keeps what is dated up to the
    observation day; an incremental load keeps what is dated after the
    watermark and whose key is not among the recently stored ones.
   */
  datatype Window = UpTo(observation: Day) | Since(watermark: Day, recent: set<Key>)

  predicate Keeps<V>(w: Window, r: Record<V>) {
    match w
    case UpTo(observation) => r.date <= observation
    case Since(watermark, recent) => r.date > watermark && KeyOf(r) !in recent
  }

  /**
    `r` is one of the points the data service returned, with a value present,
    tagged with the series it was fetched under and with the load day.
   */
  ghost predicate IsFetched<V>(responses: seq<Response<V>>, today: Day, r: Record<V>) {
    && r.loadedAt == today
    && exists i, j ::
         && 0 <= i < |responses|
         && 0 <= j < |responses[i].points|
         && responses[i].series == r.series
         && responses[i].points[j] == Point(r.date, Some(r.value))
  }

  /**
    How many times the data service returned `r`'s date and value for `r`'s series,
    counted over every series' answer; zero unless `r` carries the load day.
   */
  ghost function FetchedCount<V>(responses: seq<Response<V>>, today: Day, r: Record<V>): nat
  {
    if |responses| == 0 then 0
    else
      var here := if responses[0].series == r.series && r.loadedAt == today
                  then multiset(responses[0].points)[Point(r.date, Some(r.value))] else 0;
      here + FetchedCount(responses[1..], today, r)
  }

  /** Tag the points of one series, keeping the ones whose value is present. */
  function TagSeries<V(==,!new)>(series: string, points: seq<Point<V>>, today: Day): (rows: seq<Record<V>>)
    ensures |rows| <= |points|
    ensures forall r :: r in rows <==>
      r.series == series && r.loadedAt == today && Point(r.date, Some(r.value)) in points
    ensures forall r :: multiset(rows)[r] ==
                        if r.series == series && r.loadedAt == today
                        then multiset(points)[Point(r.date, Some(r.value))] else 0
  {
    if |points| == 0 then []
    else
      var rest := TagSeries(series, points[1..], today);
      assert points == [points[0]] + points[1..];
      assert forall p :: p in points <==> p == points[0] || p in points[1..];
      match points[0].value
      case None => rest
      case Some(v) => [Record(points[0].date, v, series, today)] + rest
  }

  /** Concatenate the tagged, non-null points of every series, series by series. */
  function TagAndDropNulls<V(==,!new)>(responses: seq<Response<V>>, today: Day): (rows: seq<Record<V>>)
    ensures forall r :: r in rows <==> IsFetched(responses, today, r)
    ensures forall r :: multiset(rows)[r] == FetchedCount(responses, today, r)
  {
    if |responses| == 0 then []
    else
      var rest := TagAndDropNulls(responses[1..], today);
      var head := TagSeries(responses[0].series, responses[0].points, today);
      assert forall r :: IsFetched(responses, today, r) <==>
        (r in head || IsFetched(responses[1..], today, r)) by {
        forall r
          ensures IsFetched(responses, today, r) <==> (r in head || IsFetched(responses[1..], today, r))
        {
          IsFetchedSplit(responses, today, r);
        }
      }
      head + rest
  }

  /** A point is fetched when the first series returned it or a later one did. */
  lemma IsFetchedSplit<V>(responses: seq<Response<V>>, today: Day, r: Record<V>)
    requires |responses| > 0
    ensures IsFetched(responses, today, r) <==>
      || (r.loadedAt == today && responses[0].series == r.series
          && Point(r.date, Some(r.value)) in responses[0].points)
      || IsFetched(responses[1..], today, r)
  {
    if IsFetched(responses, today, r) {
      var i, j :| 0 <= i < |responses| && 0 <= j < |responses[i].points|
        && responses[i].series == r.series
        && responses[i].points[j] == Point(r.date, Some(r.value));
      if i > 0 {
        assert responses[1..][i - 1] == responses[i];
      }
    }
    if r.loadedAt == today && responses[0].series == r.series && Point(r.date, Some(r.value)) in responses[0].points {
      var j :| 0 <= j < |responses[0].points| && responses[0].points[j] == Point(r.date, Some(r.value));
    }
    if IsFetched(responses[1..], today, r) {
      var i, j :| 0 <= i < |responses[1..]| && 0 <= j < |responses[1..][i].points|
        && responses[1..][i].series == r.series
        && responses[1..][i].points[j] == Point(r.date, Some(r.value));
      assert responses[i + 1] == responses[1..][i];
    }
  }

  /** Keep the rows the window admits, in their order and with their multiplicity. */
  function FilterWindow<V(==,!new)>(w: Window, rows: seq<Record<V>>): (kept: seq<Record<V>>)
    ensures forall r :: multiset(kept)[r] == if Keeps(w, r) then multiset(rows)[r] else 0
  {
    if |rows| == 0 then []
    else
      var rest := FilterWindow(w, rows[1..]);
      assert rows == [rows[0]] + rows[1..];
      if Keeps(w, rows[0]) then [rows[0]] + rest else rest
  }

  ghost predicate SortedByDate<V>(rows: seq<Record<V>>) {
    forall i, j :: 0 <= i < j < |rows| ==> rows[i].date <= rows[j].date
  }

  /** A row no later than every row of a sorted sequence can head it. */
  lemma SortedCons<V>(head: Record<V>, rows: seq<Record<V>>)
    requires SortedByDate(rows)
    requires forall i :: 0 <= i < |rows| ==> head.date <= rows[i].date
    ensures SortedByDate([head] + rows)
  {
    var out := [head] + rows;
    forall i, j | 0 <= i < j < |out| ensures out[i].date <= out[j].date {
      assert out[j] == rows[j - 1];
      if i > 0 {
        assert out[i] == rows[i - 1];
      }
    }
  }

  /** Insert one row into a date-sorted sequence. */
  function InsertByDate<V(==,!new)>(r: Record<V>, rows: seq<Record<V>>): (out: seq<Record<V>>)
    requires SortedByDate(rows)
    ensures SortedByDate(out)
    ensures multiset(out) == multiset(rows) + multiset{r}
    ensures forall x :: x in out <==> x == r || x in rows
  {
    if |rows| == 0 then [r]
    else if r.date <= rows[0].date then
      SortedCons(r, rows);
      [r] + rows
    else
      var rest := InsertByDate(r, rows[1..]);
      assert rows == [rows[0]] + rows[1..];
      assert forall i :: 0 <= i < |rest| ==> rows[0].date <= rest[i].date by {
        forall i | 0 <= i < |rest| ensures rows[0].date <= rest[i].date {
          assert rest[i] in rest;
        }
      }
      SortedCons(rows[0], rest);
      [rows[0]] + rest
  }

  /**
    Sort by date, ascending. pandas' default sort is not stable, so nothing is
    promised about the order of rows with the same date: only that the result
    is sorted and holds the same rows.
   */
  function SortByDate<V(==,!new)>(rows: seq<Record<V>>): (out: seq<Record<V>>)
    ensures SortedByDate(out)
    ensures multiset(out) == multiset(rows)
  {
    if |rows| == 0 then []
    else
      assert rows == [rows[0]] + rows[1..];
      InsertByDate(rows[0], SortByDate(rows[1..]))
  }

  /**
    The records a run loads: every fetched point with a value, tagged with
    its series and today's date, admitted by the window, sorted by date.
   */
  function GetData<V(==,!new)>(responses: seq<Response<V>>, w: Window, today: Day): (out: seq<Record<V>>)
    ensures SortedByDate(out)
    ensures multiset(out) == multiset(FilterWindow(w, TagAndDropNulls(responses, today)))
    ensures forall r :: r in out <==> IsFetched(responses, today, r) && Keeps(w, r)
    ensures forall r :: multiset(out)[r] == if Keeps(w, r) then FetchedCount(responses, today, r) else 0
  {
    var tagged := TagAndDropNulls(responses, today);
    var kept := FilterWindow(w, tagged);
    var out := SortByDate(kept);
    assert forall r :: r in out <==> r in multiset(out);
    assert forall r :: r in tagged <==> r in multiset(tagged);
    out
  }

  /** A full load keeps exactly the fetched points dated up to the observation day. */
  lemma FullLoadOutput<V(!new)>(responses: seq<Response<V>>, observation: Day, today: Day, r: Record<V>)
    ensures r in GetData(responses, UpTo(observation), today) <==>
      IsFetched(responses, today, r) && r.date <= observation
  {
  }

  /** Nothing dated after the observation day survives a full load. */
  lemma FullLoadHasNothingLater<V(!new)>(responses: seq<Response<V>>, observation: Day, today: Day)
    ensures forall k :: 0 <= k < |GetData(responses, UpTo(observation), today)| ==>
      GetData(responses, UpTo(observation), today)[k].date <= observation
  {
    var out := GetData(responses, UpTo(observation), today);
    forall k | 0 <= k < |out| ensures out[k].date <= observation {
      assert out[k] in out;
    }
  }

  /**
    An incremental load keeps exactly the fetched points dated after the
    watermark whose keys are not recent; so no output key is recent.
   */
  lemma IncrementalOutput<V(!new)>(responses: seq<Response<V>>, watermark: Day, recent: set<Key>, today: Day, r: Record<V>)
    ensures r in GetData(responses, Since(watermark, recent), today) <==>
      IsFetched(responses, today, r) && r.date > watermark && KeyOf(r) !in recent
    ensures KeysOf(GetData(responses, Since(watermark, recent), today)) !! recent
  {
    var out := GetData(responses, Since(watermark, recent), today);
    forall k | k in KeysOf(out) ensures k !in recent {
      var i :| 0 <= i < |out| && KeyOf(out[i]) == k;
      assert out[i] in out;
    }
  }

  /**
    Filtering the same fetch again, once the keys just emitted count as
    recent, emits nothing.
   */
  lemma RefilterAfterEmitIsEmpty<V(!new)>(responses: seq<Response<V>>, watermark: Day, recent: set<Key>, today: Day)
    ensures var out := GetData(responses, Since(watermark, recent), today);
      GetData(responses, Since(watermark, recent + KeysOf(out)), today) == []
  {
    var out := GetData(responses, Since(watermark, recent), today);
    var again := GetData(responses, Since(watermark, recent + KeysOf(out)), today);
    forall r | Keeps(Since(watermark, recent), r) && FetchedCount(responses, today, r) > 0
      ensures !Keeps(Since(watermark, recent + KeysOf(out)), r)
    {
      assert multiset(out)[r] > 0;
      KeyOfMember(out, r);
    }
    assert forall r :: multiset(again)[r] == 0;
    assert multiset(again) == multiset{};
  }

  /** The key of a row is among the keys of any sequence holding that row. */
  lemma KeyOfMember<V>(rows: seq<Record<V>>, x: Record<V>)
    requires x in rows
    ensures KeyOf(x) in KeysOf(rows)
  {
    var i :| 0 <= i < |rows| && rows[i] == x;
  }

  /*
    Worked examples over whole-number values. Days count from 1970-01-01:
    19723 is 2024-01-01, 19724 is 2024-01-02 and so on.
   */

  /** A missing value at 2024-01-03 is dropped; the other two points load in date order. */
  lemma ExampleNullDropped()
    ensures var responses := [Response("DGS10", [Point(19724, Some(405)), Point(19725, None), Point(19726, Some(410))])];
      GetData(responses, Since(19723, {}), 19740)
        == [Record(19724, 405, "DGS10", 19740), Record(19726, 410, "DGS10", 19740)]
  {
    var points := [Point(19724, Some(405)), Point(19725, None), Point(19726, Some(410))];
    var responses := [Response("DGS10", points)];
    var r1, r2 := Record(19724, 405, "DGS10", 19740), Record(19726, 410, "DGS10", 19740);
    assert points[1..][1..][1..] == [];
    assert TagSeries("DGS10", points[1..][1..], 19740) == [r2];
    assert TagSeries("DGS10", points[1..], 19740) == [r2];
    assert TagSeries("DGS10", points, 19740) == [r1, r2];
    assert responses[1..] == [];
    assert TagAndDropNulls(responses, 19740) == [r1, r2];
    assert [r1, r2][1..] == [r2];
    assert FilterWindow(Since(19723, {}), [r2]) == [r2];
    assert FilterWindow(Since(19723, {}), [r1, r2]) == [r1, r2];
    assert SortByDate([r2]) == [r2];
    assert SortByDate([r1, r2]) == InsertByDate(r1, [r2]) == [r1, r2];
  }

  /** A point whose key is already stored in the trailing week is not loaded again. */
  lemma ExampleOverlapExcluded()
    ensures var responses := [Response("DGS10", [Point(19727, Some(412)), Point(19728, Some(415))])];
      GetData(responses, Since(19723, {Key(19727, "DGS10")}), 19740)
        == [Record(19728, 415, "DGS10", 19740)]
  {
    var points := [Point(19727, Some(412)), Point(19728, Some(415))];
    var responses := [Response("DGS10", points)];
    var w := Since(19723, {Key(19727, "DGS10")});
    var r1, r2 := Record(19727, 412, "DGS10", 19740), Record(19728, 415, "DGS10", 19740);
    assert points[1..][1..] == [];
    assert TagSeries("DGS10", points[1..], 19740) == [r2];
    assert TagSeries("DGS10", points, 19740) == [r1, r2];
    assert responses[1..] == [];
    assert TagAndDropNulls(responses, 19740) == [r1, r2];
    assert [r1, r2][1..] == [r2];
    assert FilterWindow(w, [r2]) == [r2];
    assert !Keeps(w, r1);
    assert FilterWindow(w, [r1, r2]) == [r2];
    assert SortByDate([r2]) == [r2];
  }
}

/**
  The job's comparison key is the text `DATE + "_" + API_CODE`.
  Because an ISO date is always ten characters, that text determines the
  date and the series, so comparing keys as pairs is the same comparison.
 */
module KeyText {

  /** The length of an ISO `YYYY-MM-DD` date. */
  const IsoDateLength: nat := 10

  function KeyString(isoDate: string, series: string): string {
    isoDate + "_" + series
  }

  lemma {:induction false} KeyStringInjective(d1: string, s1: string, d2: string, s2: string)
    requires |d1| == IsoDateLength && |d2| == IsoDateLength
    ensures KeyString(d1, s1) == KeyString(d2, s2) <==> d1 == d2 && s1 == s2
  {
    if KeyString(d1, s1) == KeyString(d2, s2) {
      var k := KeyString(d1, s1);
      assert k[..IsoDateLength] == d1;
      assert KeyString(d2, s2)[..IsoDateLength] == d2;
      assert k[IsoDateLength + 1..] == s1;
      assert KeyString(d2, s2)[IsoDateLength + 1..] == s2;
    }
  }
}
