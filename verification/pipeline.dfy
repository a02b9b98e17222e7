/**
  One run of the job: read the watermark and the recent keys, fetch and
  reconcile, then load. The run's environment (the data service's answers,
  the clock and the storage's answers to insert attempts) is given as
  parameters.
 */
module Pipeline {
  import opened FredTypes
  import opened Watermark
  import opened Fetch
  import opened Loader

  /**
    The run as the job orders it: the watermark is read before the mode
    is looked at, so an empty table stops every run, full loads included.
   */
  function RunAsWritten<V(==,!new)>(table: seq<Record<V>>, mode: SyncMode, responses: seq<Response<V>>,
                                    clock: Clock, succeeds: (nat, nat) -> bool): (r: Result<LoadState<V>, RunError>)
    ensures r.Failure? <==> |table| == 0
  {
    match GetMaxDate(MaxDate(table), clock.today)
    case Failure(e) => Failure(e)
    case Success(watermark) =>
      var w := if mode == FullLoad then UpTo(clock.observation)
               else Since(watermark, RecentKeys(table, clock.today));
      Success(Load(table, mode, GetData(responses, w, clock.today), succeeds))
  }

  /**
    The filter window of a run. Only an incremental load needs the
    watermark, so only an incremental load on an empty table fails.
   */
  function WindowFor<V>(table: seq<Record<V>>, mode: SyncMode, clock: Clock): (r: Result<Window, RunError>)
    ensures r.Failure? <==> mode == IncrementalLoad && |table| == 0
    ensures r.Success? && mode == FullLoad ==> r.value == UpTo(clock.observation)
    ensures r.Success? && mode == IncrementalLoad ==>
      r.value.Since? && r.value.watermark <= Cutoff(clock.today) && r.value.watermark <= MaxDate(table).value
    ensures r.Success? && mode == IncrementalLoad ==>
      r.value.watermark == MaxDate(table).value || r.value.watermark == Cutoff(clock.today)
    ensures r.Success? && mode == IncrementalLoad ==>
      forall k :: k in r.value.recent <==>
        exists i :: 0 <= i < |table| && table[i].date >= Cutoff(clock.today) && KeyOf(table[i]) == k
  {
    match mode
    case FullLoad => Success(UpTo(clock.observation))
    case IncrementalLoad =>
      match GetMaxDate(MaxDate(table), clock.today)
      case Failure(e) => Failure(e)
      case Success(watermark) => Success(Since(watermark, RecentKeys(table, clock.today)))
  }

  /** One run of the job, with the watermark read only when it is needed. */
  function Run<V(==,!new)>(table: seq<Record<V>>, mode: SyncMode, responses: seq<Response<V>>,
                           clock: Clock, succeeds: (nat, nat) -> bool): (r: Result<LoadState<V>, RunError>)
    ensures r.Failure? <==> mode == IncrementalLoad && |table| == 0
    ensures r.Failure? ==> r.error == NoPriorData
  {
    match WindowFor(table, mode, clock)
    case Failure(e) => Failure(e)
    case Success(w) => Success(Load(table, mode, GetData(responses, w, clock.today), succeeds))
  }

  /** A full load on a fresh, empty table stops with `NoPriorData` as written. */
  lemma AsWrittenFullLoadFailsOnEmptyTable<V(!new)>(responses: seq<Response<V>>, clock: Clock,
                                                   succeeds: (nat, nat) -> bool)
    ensures RunAsWritten([], FullLoad, responses, clock, succeeds) == Failure(NoPriorData)
  {
  }

  /** The corrected run bootstraps an empty table with a full load. */
  lemma FullLoadBootstrapsEmptyTable<V(!new)>(responses: seq<Response<V>>, clock: Clock,
                                             succeeds: (nat, nat) -> bool)
    ensures Run([], FullLoad, responses, clock, succeeds).Success?
    ensures var s := Run([], FullLoad, responses, clock, succeeds).value;
      AllCommitted(s.actions) ==> s.table == GetData(responses, UpTo(clock.observation), clock.today)
  {
  }

  /** On a table with rows the corrected run is the run as written. */
  lemma RunAgreesWithAsWritten<V(!new)>(table: seq<Record<V>>, mode: SyncMode, responses: seq<Response<V>>,
                                       clock: Clock, succeeds: (nat, nat) -> bool)
    requires |table| > 0
    ensures Run(table, mode, responses, clock, succeeds) == RunAsWritten(table, mode, responses, clock, succeeds)
  {
  }

  /**
    A full load that fetched records and committed every batch leaves exactly
    those records; one that fetched nothing leaves the table as it was, not
    even truncated.
   */
  lemma FullLoadReplacesTable<V(!new)>(table: seq<Record<V>>, responses: seq<Response<V>>, clock: Clock,
                                      succeeds: (nat, nat) -> bool)
    ensures var records := GetData(responses, UpTo(clock.observation), clock.today);
      var s := Run(table, FullLoad, responses, clock, succeeds).value;
      && (|records| == 0 ==> s.actions == [] && s.table == table)
      && (|records| > 0 && AllCommitted(s.actions) ==> s.table == records && s.actions[0] == Truncate)
  {
  }

  /**
    The reconciliation guarantee: a key already in the table never passes the
    incremental window computed from that table. Either its date is before the
    cutoff, and then it is no later than the watermark, or it is on or after
    the cutoff, and then it is among the recent keys.
   */
  lemma StoredKeyIsExcluded<V(!new)>(table: seq<Record<V>>, clock: Clock, k: int, x: Record<V>)
    requires 0 <= k < |table| && KeyOf(table[k]) == KeyOf(x)
    ensures WindowFor(table, IncrementalLoad, clock).Success?
    ensures !Keeps(WindowFor(table, IncrementalLoad, clock).value, x)
  {
    RowBelowMax(table, k);
    RecentKeysMembership(table, clock.today, KeyOf(x));
  }

  /**
    Filtering the same answers again against the table the first incremental
    run left, with no earlier clock, keeps nothing.
   */
  lemma {:induction false} RerunFilterIsEmpty<V(!new)>(table: seq<Record<V>>, responses: seq<Response<V>>,
                                                      c1: Clock, c2: Clock)
    requires |table| > 0 && c1.today <= c2.today
    ensures var w1 := WindowFor(table, IncrementalLoad, c1).value;
      var t := table + GetData(responses, w1, c1.today);
      GetData(responses, WindowFor(t, IncrementalLoad, c2).value, c2.today) == []
  {
    var w1 := WindowFor(table, IncrementalLoad, c1).value;
    var out1 := GetData(responses, w1, c1.today);
    var t := table + out1;
    MaxDateGrows(table, out1);
    var w2 := WindowFor(t, IncrementalLoad, c2).value;
    WatermarkMonotone(MaxDate(table).value, MaxDate(t).value, c1.today, c2.today);
    var out2 := GetData(responses, w2, c2.today);
    if |out2| > 0 {
      var x := out2[0];
      assert x in out2;
      var k := StoredIndexOf(table, responses, c1, w1.watermark, w2.watermark, x);
      StoredKeyIsExcluded(t, c2, k, x);
    }
  }

  /**
    A row that passes the second window was already stored: its key is in
    the old table, or its first-run copy was loaded after the old rows.
   */
  lemma StoredIndexOf<V(!new)>(table: seq<Record<V>>, responses: seq<Response<V>>, c1: Clock,
                               watermark1: Day, watermark2: Day, x: Record<V>) returns (k: int)
    requires WindowFor(table, IncrementalLoad, c1) == Success(Since(watermark1, RecentKeys(table, c1.today)))
    requires watermark1 <= watermark2 && x.date > watermark2
    requires IsFetched(responses, x.loadedAt, x)
    ensures var t := table + GetData(responses, Since(watermark1, RecentKeys(table, c1.today)), c1.today);
      0 <= k < |t| && KeyOf(t[k]) == KeyOf(x)
  {
    var recent1 := RecentKeys(table, c1.today);
    var out1 := GetData(responses, Since(watermark1, recent1), c1.today);
    if i :| 0 <= i < |table| && KeyOf(table[i]) == KeyOf(x) {
      k := i;
      assert (table + out1)[k] == table[i];
    } else {
      var x1 := x.(loadedAt := c1.today);
      assert IsFetched(responses, c1.today, x1);
      RecentKeysMembership(table, c1.today, KeyOf(x));
      assert KeyOf(x1) !in recent1;
      IncrementalOutput(responses, watermark1, recent1, c1.today, x1);
      assert x1 in out1;
      var j :| 0 <= j < |out1| && out1[j] == x1;
      k := |table| + j;
      assert (table + out1)[k] == x1;
    }
  }

  /**
    Running an incremental load again, with the same answers from the data
    service and no earlier clock, loads nothing once the first run committed
    all of its batches.
   */
  lemma {:induction false} IncrementalRerunLoadsNothing<V(!new)>(
    table: seq<Record<V>>, responses: seq<Response<V>>, c1: Clock, c2: Clock,
    s1: (nat, nat) -> bool, s2: (nat, nat) -> bool)
    requires |table| > 0
    requires c1.today <= c2.today
    requires AllCommitted(Run(table, IncrementalLoad, responses, c1, s1).value.actions)
    ensures var t := Run(table, IncrementalLoad, responses, c1, s1).value.table;
      Run(t, IncrementalLoad, responses, c2, s2) == Success(LoadState([], t))
  {
    var w1 := WindowFor(table, IncrementalLoad, c1).value;
    var out1 := GetData(responses, w1, c1.today);
    var t := Run(table, IncrementalLoad, responses, c1, s1).value.table;
    assert t == table + out1 by {
      if |out1| == 0 {
        assert table + out1 == table;
      }
    }
    RerunFilterIsEmpty(table, responses, c1, c2);
  }
}
