/**
  The watermark reader: the high-water mark of the fact table, held back to
  at most one week before today, and the keys already stored in that
  trailing week.
 */
module Watermark {
  import opened FredTypes

  /** `select max(DATE)`: `None` when the table has no row. */
  function MaxDate<V>(rows: seq<Record<V>>): (m: Option<Day>)
    ensures m.None? <==> |rows| == 0
    ensures m.Some? ==> exists i :: 0 <= i < |rows| && rows[i].date == m.value
    ensures m.Some? ==> forall i :: 0 <= i < |rows| ==> rows[i].date <= m.value
  {
    if |rows| == 0 then None
    else
      var rest := MaxDate(rows[..|rows| - 1]);
      var last := rows[|rows| - 1].date;
      if rest.None? || rest.value < last then Some(last) else rest
  }

  /**
    The watermark: the stored maximum, moved back to the cutoff when it is
    later than the cutoff. An empty table has no maximum; that is reported
    as `NoPriorData` instead of failing on a comparison with nothing.
   */
  function GetMaxDate(stored: Option<Day>, today: Day): (r: Result<Day, RunError>)
    ensures r.Failure? <==> stored.None?
    ensures r.Failure? ==> r.error == NoPriorData
    ensures r.Success? ==> r.value <= Cutoff(today) && r.value <= stored.value
    ensures r.Success? ==> r.value == stored.value || r.value == Cutoff(today)
  {
    match stored
    case None => Failure(NoPriorData)
    case Some(m) => if m > Cutoff(today) then Success(Cutoff(today)) else Success(m)
  }

  /** The keys of the rows dated on or after the cutoff. */
  function RecentKeys<V>(rows: seq<Record<V>>, today: Day): set<Key> {
    set i | 0 <= i < |rows| && rows[i].date >= Cutoff(today) :: KeyOf(rows[i])
  }

  /** A later maximum or a later run never moves the watermark back. */
  lemma WatermarkMonotone(m1: Day, m2: Day, today1: Day, today2: Day)
    requires m1 <= m2 && today1 <= today2
    ensures GetMaxDate(Some(m1), today1).value <= GetMaxDate(Some(m2), today2).value
  {
  }

  /** Every row of the table is dated no later than its maximum. */
  lemma RowBelowMax<V>(rows: seq<Record<V>>, i: int)
    requires 0 <= i < |rows|
    ensures MaxDate(rows).Some? && rows[i].date <= MaxDate(rows).value
  {
  }

  /** Appending rows never lowers the maximum. */
  lemma MaxDateGrows<V>(rows: seq<Record<V>>, more: seq<Record<V>>)
    requires |rows| > 0
    ensures MaxDate(rows + more).Some?
    ensures MaxDate(rows).value <= MaxDate(rows + more).value
  {
    var i :| 0 <= i < |rows| && rows[i].date == MaxDate(rows).value;
    assert (rows + more)[i] == rows[i];
  }

  /**
    The recent keys are keys of stored rows, and appending rows never
    removes a key from them.
   */
  lemma RecentKeysStored<V>(rows: seq<Record<V>>, more: seq<Record<V>>, today: Day)
    ensures RecentKeys(rows, today) <= KeysOf(rows)
    ensures RecentKeys(rows, today) <= RecentKeys(rows + more, today)
  {
    forall k | k in RecentKeys(rows, today)
      ensures k in KeysOf(rows) && k in RecentKeys(rows + more, today)
    {
      var i :| 0 <= i < |rows| && rows[i].date >= Cutoff(today) && KeyOf(rows[i]) == k;
      assert (rows + more)[i] == rows[i];
    }
  }

  /** A key is recent exactly when some row on or after the cutoff carries it. */
  lemma RecentKeysMembership<V>(rows: seq<Record<V>>, today: Day, k: Key)
    ensures k in RecentKeys(rows, today) <==>
      exists i :: 0 <= i < |rows| && rows[i].date >= Cutoff(today) && KeyOf(rows[i]) == k
  {
  }
}
