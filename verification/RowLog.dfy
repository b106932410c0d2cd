/** The append-only result and failure logs: which rows they hold, and which of them a lookup still reaches. */
module RowLog {

  /** Remote tasks carry the identity of a control-service envelope; local ones are filed on the runner itself. */
  datatype TaskId = Remote(id: string) | Local(id: string)

  /** One row, with the bytes it takes up in the log, its newline included. */
  datatype Row = Row(id: TaskId, bytes: nat)

  type Log = seq<Row>

  /** How far back a lookup reads. */
  const FIND_RECORD_MAX_BYTES: nat := 64 * 1024 * 1024

  function Bytes(log: Log): nat { if log == [] then 0 else log[0].bytes + Bytes(log[1..]) }

  predicate Holds(log: Log, t: TaskId) { exists i :: 0 <= i < |log| && log[i].id == t }

  /** Row `i` lies wholly within the bytes a lookup reads. */
  predicate InReach(log: Log, i: nat)
    requires i < |log|
  {
    Bytes(log[i..]) <= FIND_RECORD_MAX_BYTES
  }

  /** A lookup comes back with a row of the task. */
  predicate Finds(log: Log, t: TaskId) { exists i :: 0 <= i < |log| && log[i].id == t && InReach(log, i) }

  predicate Appended(log: Log, log': Log, t: TaskId) {
    |log'| == |log| + 1 && log' == log + [log'[|log|]] && log'[|log|].id == t
  }

  /** If the log holds the task at all, its newest row is the task's. */
  predicate NewestIs(log: Log, t: TaskId) { Holds(log, t) ==> log[|log| - 1].id == t }

  predicate NewestInReach(log: Log) { log != [] && log[|log| - 1].bytes <= FIND_RECORD_MAX_BYTES }

  lemma {:induction false} SuffixHoldsNewest(log: Log, i: nat)
    requires i < |log|
    ensures Bytes(log[i..]) >= log[|log| - 1].bytes
    decreases |log| - i
  {
    if i + 1 < |log| {
      SuffixHoldsNewest(log, i + 1);
      assert log[i..][1..] == log[i + 1..];
    }
  }

  /** The task whose row is the newest is found exactly when that row fits into what a lookup reads. */
  lemma NewestIsFoundExactly(log: Log, t: TaskId)
    requires NewestIs(log, t)
    ensures Finds(log, t) <==> Holds(log, t) && NewestInReach(log)
  {
    if i :| 0 <= i < |log| && log[i].id == t && InReach(log, i) {
      SuffixHoldsNewest(log, i);
    }
    if Holds(log, t) && NewestInReach(log) {
      var last := |log| - 1;
      assert log[last..][1..] == [];
      assert Bytes(log[last..]) == log[last].bytes;
      assert InReach(log, last);
    }
  }

  lemma AppendHolds(log: Log, log': Log, t: TaskId, u: TaskId)
    requires Appended(log, log', t)
    ensures Holds(log', u) <==> Holds(log, u) || u == t
    ensures NewestIs(log', t)
  {
    if i :| 0 <= i < |log| && log[i].id == u { assert log'[i].id == u; }
    if u == t { assert log'[|log|].id == u; }
  }

  /** A row too large for a lookup hides every row before it as well. */
  lemma {:induction false} HugeRowHidesAll(log: Log, row: Row, t: TaskId)
    requires row.bytes > FIND_RECORD_MAX_BYTES
    ensures !Finds(log + [row], t)
  {
    var all := log + [row];
    forall i | 0 <= i < |all| ensures !InReach(all, i) { SuffixHoldsNewest(all, i); }
  }
}
