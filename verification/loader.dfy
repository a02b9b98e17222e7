/**
  The batched loader: each batch is inserted with at most three attempts,
  stopping at the first that commits, and a run that has records truncates
  the table first when it is a full load, then inserts its batches in order.
 */
module Loader {
  import opened FredTypes
  import opened Batches

  /** Attempts per batch: the insert loop runs while the attempt number is below 4. */
  const MaxAttempts: nat := 3

  /** How one batch's insert ended: the attempts made and whether one committed. */
  datatype Attempt = Attempt(attempts: nat, committed: bool)

  /**
    The insert loop of batch `batch` from attempt `a` on. `succeeds(batch, a)`
    is the storage's answer to attempt `a` on that batch; a failed attempt is
    followed by the next one until the last attempt has failed, and then the
    loop ends without raising.
   */
  function RetryFrom(succeeds: (nat, nat) -> bool, batch: nat, a: nat): (r: Attempt)
    requires 1 <= a <= MaxAttempts
    ensures a <= r.attempts <= MaxAttempts
    ensures r.committed <==> exists b :: a <= b <= MaxAttempts && succeeds(batch, b)
    ensures r.committed ==> succeeds(batch, r.attempts)
    ensures forall b :: a <= b < r.attempts ==> !succeeds(batch, b)
    ensures !r.committed ==> r.attempts == MaxAttempts
    decreases MaxAttempts - a
  {
    if succeeds(batch, a) then Attempt(a, true)
    else if a == MaxAttempts then Attempt(a, false)
    else RetryFrom(succeeds, batch, a + 1)
  }

  /** The insert loop of one batch, from its first attempt. */
  function Retry(succeeds: (nat, nat) -> bool, batch: nat): (r: Attempt)
    ensures 1 <= r.attempts <= MaxAttempts
    ensures r.committed <==> exists b :: 1 <= b <= MaxAttempts && succeeds(batch, b)
  {
    RetryFrom(succeeds, batch, 1)
  }

  /**
    The insert loop with the job's attempt counter: the batch commits at the
    first attempt that succeeds, so at most once, and after three failures
    the loop ends normally with nothing committed.
   */
  method InsertData(succeeds: (nat, nat) -> bool, batch: nat) returns (attempts: nat, committed: bool)
    ensures Attempt(attempts, committed) == Retry(succeeds, batch)
    ensures committed ==> succeeds(batch, attempts) && forall b :: 1 <= b < attempts ==> !succeeds(batch, b)
    ensures !committed ==> attempts == MaxAttempts && forall b :: 1 <= b <= MaxAttempts ==> !succeeds(batch, b)
  {
    attempts := 0;
    committed := false;
    var attempt := 1;
    while attempt < MaxAttempts + 1
      invariant 1 <= attempt <= MaxAttempts + 1
      invariant attempts == attempt - 1
      invariant forall b :: 1 <= b < attempt ==> !succeeds(batch, b)
      invariant !committed
      invariant attempt <= MaxAttempts ==> Retry(succeeds, batch) == RetryFrom(succeeds, batch, attempt)
      decreases MaxAttempts + 1 - attempt
    {
      attempts := attempt;
      if succeeds(batch, attempt) {
        committed := true;
        break;
      }
      attempt := attempt + 1;
    }
  }

  /** What the loader did, in order. */
  datatype Action = Truncate | Insert(batch: nat, attempts: nat, committed: bool)

  /** The actions of a load and the table they leave behind. */
  datatype LoadState<V> = LoadState(actions: seq<Action>, table: seq<Record<V>>)

  /** The rows a sequence of insert actions adds: the batches that committed. */
  function CommittedRows<V>(batches: seq<seq<Record<V>>>, actions: seq<Action>): seq<Record<V>>
    requires |actions| == |batches|
  {
    if |batches| == 0 then []
    else
      var head := if actions[0].Insert? && actions[0].committed then batches[0] else [];
      head + CommittedRows(batches[1..], actions[1..])
  }

  predicate AllCommitted(actions: seq<Action>) {
    forall i :: 0 <= i < |actions| ==> actions[i].Insert? ==> actions[i].committed
  }

  /**
    Insert the batches one after another, numbering them from `first`, and
    append each batch whose insert commits to the table.
   */
  function InsertBatches<V>(batches: seq<seq<Record<V>>>, first: nat, succeeds: (nat, nat) -> bool,
                            table: seq<Record<V>>): LoadState<V>
    decreases |batches|
  {
    if |batches| == 0 then LoadState([], table)
    else
      var r := Retry(succeeds, first);
      var table' := if r.committed then table + batches[0] else table;
      var rest := InsertBatches(batches[1..], first + 1, succeeds, table');
      LoadState([Insert(first, r.attempts, r.committed)] + rest.actions, rest.table)
  }

  /**
    Every batch is attempted exactly once, in order, whatever happened to the
    batches before it, and each action records that batch's insert loop.
   */
  lemma {:induction false} InsertBatchesInOrder<V>(batches: seq<seq<Record<V>>>, first: nat,
                                                   succeeds: (nat, nat) -> bool, table: seq<Record<V>>)
    ensures var s := InsertBatches(batches, first, succeeds, table);
      && |s.actions| == |batches|
      && forall i :: 0 <= i < |batches| ==>
           && s.actions[i].Insert?
           && s.actions[i].batch == first + i
           && Attempt(s.actions[i].attempts, s.actions[i].committed) == Retry(succeeds, first + i)
    decreases |batches|
  {
    if |batches| > 0 {
      var r := Retry(succeeds, first);
      var table' := if r.committed then table + batches[0] else table;
      InsertBatchesInOrder(batches[1..], first + 1, succeeds, table');
      var rest := InsertBatches(batches[1..], first + 1, succeeds, table');
      var s := InsertBatches(batches, first, succeeds, table);
      assert s.actions == [Insert(first, r.attempts, r.committed)] + rest.actions;
      forall i | 1 <= i < |batches|
        ensures && s.actions[i].Insert?
                && s.actions[i].batch == first + i
                && Attempt(s.actions[i].attempts, s.actions[i].committed) == Retry(succeeds, first + i)
      {
        assert s.actions[i] == rest.actions[i - 1];
      }
    }
  }

  /** The table grows by exactly the batches that committed, in order. */
  lemma {:induction false} InsertBatchesAppends<V>(batches: seq<seq<Record<V>>>, first: nat,
                                                   succeeds: (nat, nat) -> bool, table: seq<Record<V>>)
    ensures var s := InsertBatches(batches, first, succeeds, table);
      |s.actions| == |batches| && s.table == table + CommittedRows(batches, s.actions)
    decreases |batches|
  {
    if |batches| > 0 {
      var r := Retry(succeeds, first);
      var table' := if r.committed then table + batches[0] else table;
      InsertBatchesAppends(batches[1..], first + 1, succeeds, table');
      var rest := InsertBatches(batches[1..], first + 1, succeeds, table');
      var s := InsertBatches(batches, first, succeeds, table);
      assert s.actions[1..] == rest.actions;
      assert s.actions[0] == Insert(first, r.attempts, r.committed);
    }
  }

  /** When every batch commits, the committed rows are all the batches. */
  lemma {:induction false} AllCommittedRows<V>(batches: seq<seq<Record<V>>>, actions: seq<Action>)
    requires |actions| == |batches|
    requires forall i :: 0 <= i < |actions| ==> actions[i].Insert?
    requires AllCommitted(actions)
    ensures CommittedRows(batches, actions) == Flatten(batches)
    decreases |batches|
  {
    if |batches| > 0 {
      AllCommittedRows(batches[1..], actions[1..]);
    }
  }

  /**
    A load with records does what the storage answers: after the truncate
    of a full load, action k is batch k's insert loop, and the table holds
    exactly the batches whose insert committed, in order; a batch whose
    three attempts all failed is passed over.
   */
  lemma LoadFollowsStorage<V>(table: seq<Record<V>>, mode: SyncMode, records: seq<Record<V>>,
                              succeeds: (nat, nat) -> bool)
    requires |records| > 0
    ensures var s := Load(table, mode, records, succeeds);
      var offset := if mode == FullLoad then 1 else 0;
      && |s.actions| == offset + |Chunks(records)|
      && (forall j :: offset <= j < |s.actions| ==>
            s.actions[j].Insert? && Attempt(s.actions[j].attempts, s.actions[j].committed) == Retry(succeeds, j - offset))
      && s.table == (if mode == FullLoad then [] else table) + CommittedRows(Chunks(records), s.actions[offset..])
  {
    var prefix: seq<Action> := if mode == FullLoad then [Truncate] else [];
    var base := if mode == FullLoad then [] else table;
    var inserted := InsertBatches(Chunks(records), 0, succeeds, base);
    assert Load(table, mode, records, succeeds) == LoadState(prefix + inserted.actions, inserted.table);
    PrefixedInserts(Chunks(records), succeeds, base, prefix);
  }

  /** Dropping leading actions keeps every remaining insert committed. */
  lemma AllCommittedSuffix(prefix: seq<Action>, actions: seq<Action>)
    requires AllCommitted(prefix + actions)
    ensures AllCommitted(actions)
  {
    forall k | 0 <= k < |actions| && actions[k].Insert?
      ensures actions[k].committed
    {
      assert (prefix + actions)[|prefix| + k] == actions[k];
    }
  }

  /** The insert actions after a prefix of length at most one, indexed from the end of the prefix. */
  lemma PrefixedInserts<V>(batches: seq<seq<Record<V>>>, succeeds: (nat, nat) -> bool,
                           base: seq<Record<V>>, prefix: seq<Action>)
    requires |prefix| <= 1
    ensures var inserted := InsertBatches(batches, 0, succeeds, base);
      var actions := prefix + inserted.actions;
      && |actions| == |prefix| + |batches|
      && (forall j :: |prefix| <= j < |actions| ==>
            && actions[j].Insert?
            && actions[j].batch == j - |prefix|
            && Attempt(actions[j].attempts, actions[j].committed) == Retry(succeeds, j - |prefix|))
      && inserted.table == base + CommittedRows(batches, actions[|prefix|..])
  {
    var inserted := InsertBatches(batches, 0, succeeds, base);
    InsertBatchesInOrder(batches, 0, succeeds, base);
    InsertBatchesAppends(batches, 0, succeeds, base);
    var actions := prefix + inserted.actions;
    assert actions[|prefix|..] == inserted.actions;
    forall j | |prefix| <= j < |actions|
      ensures && actions[j].Insert?
              && actions[j].batch == j - |prefix|
              && Attempt(actions[j].attempts, actions[j].committed) == Retry(succeeds, j - |prefix|)
    {
      assert actions[j] == inserted.actions[j - |prefix|];
    }
  }

  /** A load with records: the truncate of a full load, then every batch's insert. */
  function LoadBatches<V>(table: seq<Record<V>>, mode: SyncMode, records: seq<Record<V>>,
                          succeeds: (nat, nat) -> bool): LoadState<V>
  {
    var prefix := if mode == FullLoad then [Truncate] else [];
    var base := if mode == FullLoad then [] else table;
    var inserted := InsertBatches(Chunks(records), 0, succeeds, base);
    LoadState(prefix + inserted.actions, inserted.table)
  }

  /** The shape of a load with records, and its table when every batch commits. */
  lemma LoadBatchesShape<V>(table: seq<Record<V>>, mode: SyncMode, records: seq<Record<V>>,
                            succeeds: (nat, nat) -> bool)
    requires |records| > 0
    ensures var s := LoadBatches(table, mode, records, succeeds);
      var offset := if mode == FullLoad then 1 else 0;
      && |s.actions| == offset + |Chunks(records)|
      && (forall i :: 0 <= i < |s.actions| && s.actions[i].Truncate? ==> i == 0 && mode == FullLoad)
      && (forall j :: offset <= j < |s.actions| ==> s.actions[j].Insert? && s.actions[j].batch == j - offset)
      && (mode == FullLoad ==> s.actions[0] == Truncate)
      && (AllCommitted(s.actions) ==> s.table == (if mode == FullLoad then [] else table) + records)
  {
    var prefix: seq<Action> := if mode == FullLoad then [Truncate] else [];
    var base := if mode == FullLoad then [] else table;
    var inserted := InsertBatches(Chunks(records), 0, succeeds, base);
    var actions := prefix + inserted.actions;
    assert LoadBatches(table, mode, records, succeeds) == LoadState(actions, inserted.table);
    PrefixedInserts(Chunks(records), succeeds, base, prefix);
    forall i | 0 <= i < |actions| && actions[i].Truncate?
      ensures i == 0 && mode == FullLoad
    {
      assert i < |prefix|;
    }
    if AllCommitted(actions) {
      AllCommittedSuffix(prefix, inserted.actions);
      InsertsAllCommitted(Chunks(records), succeeds, base);
      FlattenChunks(records);
    }
  }

  /** When every insert commits, the batches are appended whole and in order. */
  lemma InsertsAllCommitted<V>(batches: seq<seq<Record<V>>>, succeeds: (nat, nat) -> bool, base: seq<Record<V>>)
    requires AllCommitted(InsertBatches(batches, 0, succeeds, base).actions)
    ensures InsertBatches(batches, 0, succeeds, base).table == base + Flatten(batches)
  {
    InsertBatchesInOrder(batches, 0, succeeds, base);
    InsertBatchesAppends(batches, 0, succeeds, base);
    AllCommittedRows(batches, InsertBatches(batches, 0, succeeds, base).actions);
  }

  /**
    The load step of a run. With no records nothing happens. Otherwise a full
    load truncates the table first, and then every batch is inserted in order.
   */
  function Load<V>(table: seq<Record<V>>, mode: SyncMode, records: seq<Record<V>>,
                   succeeds: (nat, nat) -> bool): (s: LoadState<V>)
    ensures |records| == 0 ==> s.actions == [] && s.table == table
    ensures forall i :: 0 <= i < |s.actions| && s.actions[i].Truncate? ==>
      i == 0 && mode == FullLoad && |records| > 0
    ensures var offset := if mode == FullLoad && |records| > 0 then 1 else 0;
      && |s.actions| == offset + |Chunks(records)|
      && forall j :: offset <= j < |s.actions| ==>
           s.actions[j].Insert? && s.actions[j].batch == j - offset
    ensures mode == FullLoad && |records| > 0 ==> s.actions[0] == Truncate
    ensures |records| > 0 && AllCommitted(s.actions) ==>
      s.table == (if mode == FullLoad then [] else table) + records
  {
    if |records| == 0 then LoadState([], table)
    else
      LoadBatchesShape(table, mode, records, succeeds);
      LoadBatches(table, mode, records, succeeds)
  }
}
