/** What the runner sends next after the control service refused an outcome for good. */
module Ladder {
  import opened Text
  import opened Json
  import opened BulkCandidates
  import opened OutcomeSize

  const OUTCOME_REJECTED_PREFIX := "outcome_rejected:"
  const OUTPUT_LOG := "output.jsonl"
  const FAILED_LOG := "failed_tasks.jsonl"
  const PERMANENT_REJECTION_STATUSES: set<int> := {400, 413, 422}

  type Outcome = seq<Member>

  predicate IsPermanentRejection(status: Option<int>) {
    status.Some? && status.value in PERMANENT_REJECTION_STATUSES
  }

  /** The control service's refusal of one report. */
  datatype Refusal = Refusal(code: string, status: int, message: string)

  datatype Rejection = Rejection(refusal: Refusal, bytes: nat)

  function OutcomeDocument(taskId: string, runnerId: string, state: string, at: string, result: Json,
                           error: Json): Outcome {
    [Member("schema_version", Int(1)),
     Member("task_id", Str(taskId)),
     Member("runner_id", Str(runnerId)),
     Member("state", Str(state)),
     Member("completed_at", Str(at)),
     Member(RESULT_KEY, result),
     Member("error", error)]
  }

  function CompletedOutcome(taskId: string, runnerId: string, at: string, result: Json): Outcome {
    OutcomeDocument(taskId, runnerId, "completed", at, result, Null)
  }

  function FailedOutcome(taskId: string, runnerId: string, at: string, error: string): Outcome {
    OutcomeDocument(taskId, runnerId, "failed", at, Null, Str(error))
  }

  predicate Completed(o: Outcome) { Get(o, "state") == Some(Str("completed")) }

  function ErrorText(o: Outcome): string {
    match Get(o, "error") case Some(Str(s)) => s case _ => ""
  }

  predicate Final(o: Outcome) { !Completed(o) && OUTCOME_REJECTED_PREFIX <= ErrorText(o) }

  /** Whether dropping every bulk value would drop anything. */
  predicate Reducible(o: Outcome) { HasResult(o) && Trim(o, "", "").Order() != [] }

  ghost predicate ValidOutcome(o: Outcome) { WellFormed(Obj(o)) }

  /** What the journal holds about an outcome waiting to be delivered. */
  datatype Pending = Pending(outcome: Outcome, rejections: seq<Rejection>)

  function Take(s: string, n: nat): string { if |s| <= n then s else s[..n] }

  function RejectionText(refusal: Refusal, o: Outcome): string {
    refusal.code + " (HTTP " + IntText(refusal.status) + "), " + Decimal(WireBytes(Obj(o))) + " bytes"
  }

  function PreflightReason(o: Outcome, budget: nat): string {
    "preflight: " + Decimal(WireBytes(Obj(o))) + " bytes over max_outcome_bytes " + Decimal(budget)
  }

  function PreflightTrim(o: Outcome, budget: nat): Trim { Trim(o, PreflightReason(o, budget), OUTPUT_LOG) }

  /** What trimming before the first send hands on: the outcome itself when it fits or has nothing to drop, else the
      shortest cut that fits, or everything dropped; None when trimming raises. */
  ghost predicate Preflighted(o: Outcome, budget: nat, r: Option<Outcome>) {
    var t := PreflightTrim(o, budget);
    if WireBytes(Obj(o)) <= budget || !HasResult(o) || t.Order() == [] then r == Some(o)
    else
      && (r == None <==> t.Raises(budget))
      && (r.Some? ==> exists k :: t.StopsAt(budget, k) && r.value == t.Final(k))
  }

  /** Trimming the completed outcome with this result raises, whenever it is made. */
  ghost predicate StagingRaises(taskId: string, runnerId: string, result: Json, budget: nat) {
    forall at: string :: Preflighted(CompletedOutcome(taskId, runnerId, at, result), budget, None)
  }

  /** The outcome with every bulk value dropped. */
  function Reduced(o: Outcome, refusal: Refusal): Outcome
    requires HasResult(o)
  {
    var t := Trim(o, "rejected: " + RejectionText(refusal, o), OUTPUT_LOG);
    t.Final(|t.Order()|)
  }

  function RejectedError(o: Outcome, refusal: Refusal): string {
    if Completed(o) then
      OUTCOME_REJECTED_PREFIX + " " + RejectionText(refusal, o) + "; full result kept at " + OUTPUT_LOG
    else
      OUTCOME_REJECTED_PREFIX + " " + RejectionText(refusal, o) + "; original error: " + Take(ErrorText(o), 200)
      + "; record kept at " + FAILED_LOG
  }

  /** The next rung; None when nothing smaller exists and the slot is to be cleared. */
  function Downgrade(taskId: string, runnerId: string, at: string, p: Pending, refusal: Refusal): Option<Pending> {
    var rejections := p.rejections + [Rejection(refusal, WireBytes(Obj(p.outcome)))];
    if Completed(p.outcome) && |rejections| == 1 && Reducible(p.outcome) then
      Some(Pending(Reduced(p.outcome, refusal), rejections))
    else if Completed(p.outcome) || !(OUTCOME_REJECTED_PREFIX <= ErrorText(p.outcome)) then
      Some(Pending(FailedOutcome(taskId, runnerId, at, RejectedError(p.outcome, refusal)), rejections))
    else
      None
  }

  /** How many rungs are left below a staged outcome. */
  function Rank(p: Pending): nat {
    if Completed(p.outcome) then (if p.rejections == [] && Reducible(p.outcome) then 2 else 1)
    else if Final(p.outcome) then 0
    else 1
  }

  lemma DocumentFields(taskId: string, runnerId: string, state: string, at: string, result: Json, error: Json)
    requires WellFormed(result) && WellFormed(error)
    ensures var o := OutcomeDocument(taskId, runnerId, state, at, result, error);
      && ValidOutcome(o)
      && Get(o, "state") == Some(Str(state))
      && Get(o, RESULT_KEY) == Some(result)
      && Get(o, "error") == Some(error)
  {
    var o := OutcomeDocument(taskId, runnerId, state, at, result, error);
    assert UniqueKeys(o);
    GetAt(o, 3);
    GetAt(o, 5);
    GetAt(o, 6);
  }

  /** Trimming keeps an outcome well formed and completed. */
  lemma PreflightKeepsState(o: Outcome, budget: nat, r: Outcome)
    requires ValidOutcome(o) && Preflighted(o, budget, Some(r))
    ensures ValidOutcome(r) && Completed(r) == Completed(o)
  {
    hide WireBytes, Decimal, Get, WellFormed;
    var t := PreflightTrim(o, budget);
    if WireBytes(Obj(o)) > budget && HasResult(o) && t.Order() != [] {
      var k :| t.StopsAt(budget, k) && r == t.Final(k);
      FinalResult(t, k, t.Measured(k));
    }
  }

  lemma FailedFields(taskId: string, runnerId: string, at: string, error: string)
    ensures var o := FailedOutcome(taskId, runnerId, at, error);
      ValidOutcome(o) && !Completed(o) && ErrorText(o) == error && !HasResult(o)
  {
    DocumentFields(taskId, runnerId, "failed", at, Null, Str(error));
  }

  /** A reduced outcome keeps every field but the result, still says completed, and is another document. */
  lemma ReducedDiffers(o: Outcome, refusal: Refusal)
    requires ValidOutcome(o) && Reducible(o)
    ensures var r := Reduced(o, refusal);
      && ValidOutcome(r) && r != o
      && Completed(r) == Completed(o)
      && !Reducible(r)
  {
    var t := Trim(o, "rejected: " + RejectionText(refusal, o), OUTPUT_LOG);
    var n := |t.Order()|;
    FinalResult(t, n, t.Measured(n));
    AllDroppedLeavesNoBulk(t, []);
    assert Cands(ResultOf(t.Final(n))) == [];
    OrderLength(t.Result());
    OrderLength(ResultOf(t.Final(n)));
  }

  lemma OrderLength(j: Json)
    ensures |DropOrder(j)| == |Cands(j)|
  {
    BulkCandidates.Sorting.SortKeepsElements(DropsFirst, Cands(j));
  }

  /** Each refusal steps strictly down; nothing refused is sent again; the last rung is a failure report
      that already names a rejection. */
  lemma DowngradeStepsDown(taskId: string, runnerId: string, at: string, p: Pending, refusal: Refusal)
    requires ValidOutcome(p.outcome)
    ensures match Downgrade(taskId, runnerId, at, p, refusal)
      case Some(q) =>
        && ValidOutcome(q.outcome)
        && Rank(q) < Rank(p)
        && q.outcome != p.outcome
        && q.rejections == p.rejections + [Rejection(refusal, WireBytes(Obj(p.outcome)))]
      case None => Rank(p) == 0
    ensures Downgrade(taskId, runnerId, at, p, refusal) == None <==> Final(p.outcome)
  {
    hide WireBytes, Set, Decimal, IntText;
    if Completed(p.outcome) && p.rejections == [] && Reducible(p.outcome) {
      ReducedDiffers(p.outcome, refusal);
    } else {
      FailedFields(taskId, runnerId, at, RejectedError(p.outcome, refusal));
    }
  }

  /** Somewhere in the result is a bulk value. */
  ghost predicate HasBulk(o: Outcome) { HasResult(o) && exists p :: BulkAt(ResultOf(o), p) }

  lemma ReducibleExactly(o: Outcome)
    requires ValidOutcome(o)
    ensures Reducible(o) <==> HasBulk(o)
  {
    hide WireBytes, BulkAt, Cands, DropOrder, Get, WellFormed;
    if HasResult(o) {
      var t := Trim(o, "", "");
      assert ResultOf(o) == t.Result();
      DroppedAreCandidates(t, |t.Order()|);
      if t.Order() != [] {
        CandidateIsBulk(t.Result(), t.Order()[0].path);
      } else if p :| BulkAt(ResultOf(o), p) {
        var c := FirstBulk(t.Result(), p);
      }
    }
  }

  lemma CandidateIsBulk(j: Json, p: Path)
    requires IsCandidate(j, p)
    ensures BulkAt(j, p)
  {}

  /** A refused outcome stays a completed one exactly when it said so, was never refused before, and holds a bulk
      value to drop. */
  lemma StaysCompletedExactly(taskId: string, runnerId: string, at: string, p: Pending, refusal: Refusal)
    requires ValidOutcome(p.outcome)
    ensures var r := Downgrade(taskId, runnerId, at, p, refusal);
      r.Some? && Completed(r.value.outcome) <==> Completed(p.outcome) && p.rejections == [] && HasBulk(p.outcome)
  {
    hide WireBytes, Set, Decimal, IntText, Get, HasBulk;
    ReducibleExactly(p.outcome);
    if Completed(p.outcome) && p.rejections == [] && Reducible(p.outcome) {
      ReducedDiffers(p.outcome, refusal);
    } else {
      FailedFields(taskId, runnerId, at, RejectedError(p.outcome, refusal));
    }
  }

  /** What it then says is the old outcome without its bulk values: no field but the result changes, and in the result
      no bulk value is left, and outside them and the delivery record every path leads to the same value. */
  lemma ReducedKeepsTheRest(taskId: string, runnerId: string, at: string, p: Pending, refusal: Refusal, q: Path)
    requires ValidOutcome(p.outcome) && Completed(p.outcome) && p.rejections == [] && HasBulk(p.outcome)
    ensures Downgrade(taskId, runnerId, at, p, refusal).Some?
    ensures var o := Downgrade(taskId, runnerId, at, p, refusal).value.outcome;
      var before, after := ResultOf(p.outcome), ResultOf(o);
      && (forall l :: l != RESULT_KEY ==> Get(o, l) == Get(p.outcome, l))
      && !BulkAt(after, q)
      && (q != [] && q[0] != Key(DELIVERY_KEY) ==>
            && ((exists b :: BulkAt(before, b) && b <= q) ==> Lookup(after, q) == None)
            && ((forall b :: BulkAt(before, b) ==> Unrelated(b, q)) ==> Lookup(after, q) == Lookup(before, q))
            && ((forall b :: BulkAt(before, b) ==> !(b <= q)) ==>
                 Lookup(after, q).Some? == Lookup(before, q).Some?
                 && (Lookup(after, q).Some? ==> SameKind(Lookup(before, q).value, Lookup(after, q).value))))
  {
    hide WireBytes, Set, Decimal, IntText, Get, BulkAt, DropOrder, Cands, WellFormed;
    ReducibleExactly(p.outcome);
    var t := Trim(p.outcome, "rejected: " + RejectionText(refusal, p.outcome), OUTPUT_LOG);
    var n := |t.Order()|;
    AllDroppedLeavesNoBulk(t, q);
    DroppedAreCandidates(t, n);
    FinalResult(t, n, t.Measured(n));
    if q != [] && q[0] != Key(DELIVERY_KEY) {
      TrimKeepsTheRest(t, n, q);
      if b :| BulkAt(t.Result(), b) && b <= q {
        var c := FirstBulk(t.Result(), b);
        assert c in t.Dropped(n) && c <= q;
      }
      forall c | c in t.Dropped(n) ensures BulkAt(t.Result(), c) { CandidateIsBulk(t.Result(), c); }
    }
  }

  /** The failure report that takes the place of any other refused outcome. */
  lemma FailureReportFields(taskId: string, runnerId: string, at: string, p: Pending, refusal: Refusal)
    requires ValidOutcome(p.outcome)
    requires var r := Downgrade(taskId, runnerId, at, p, refusal); r.Some? && !Completed(r.value.outcome)
    ensures var o := Downgrade(taskId, runnerId, at, p, refusal).value.outcome;
      && Final(o) && !HasResult(o)
      && Get(o, "task_id") == Some(Str(taskId)) && Get(o, "runner_id") == Some(Str(runnerId))
      && Get(o, "completed_at") == Some(Str(at))
      && OUTCOME_REJECTED_PREFIX + " " + refusal.code <= ErrorText(o)
      && (!Completed(p.outcome) ==> exists a, b :: ErrorText(o) == a + Take(ErrorText(p.outcome), 200) + b)
  {
    hide WireBytes, Set, Decimal, IntText, Get;
    StaysCompletedExactly(taskId, runnerId, at, p, refusal);
    ReducibleExactly(p.outcome);
    var error := RejectedError(p.outcome, refusal);
    FailedFields(taskId, runnerId, at, error);
    var o := FailedOutcome(taskId, runnerId, at, error);
    FailedIdentity(taskId, runnerId, at, error);
    ErrorKeepsCause(p.outcome, refusal);
  }

  lemma FailedIdentity(taskId: string, runnerId: string, at: string, error: string)
    ensures var o := FailedOutcome(taskId, runnerId, at, error);
      Get(o, "task_id") == Some(Str(taskId)) && Get(o, "runner_id") == Some(Str(runnerId))
      && Get(o, "completed_at") == Some(Str(at))
  {
    var o := FailedOutcome(taskId, runnerId, at, error);
    assert UniqueKeys(o);
    GetAt(o, 1);
    GetAt(o, 2);
    GetAt(o, 4);
  }

  lemma ErrorKeepsCause(o: Outcome, refusal: Refusal)
    ensures OUTCOME_REJECTED_PREFIX + " " + refusal.code <= RejectedError(o, refusal)
    ensures !Completed(o) ==> exists a, b :: RejectedError(o, refusal) == a + Take(ErrorText(o), 200) + b
  {
    hide WireBytes, IntText, Decimal, Completed, ErrorText, Take;
    var front := OUTCOME_REJECTED_PREFIX + " " + RejectionText(refusal, o) + "; original error: ";
    var back := "; record kept at " + FAILED_LOG;
    if !Completed(o) {
      assert RejectedError(o, refusal) == front + Take(ErrorText(o), 200) + back;
    }
    assert OUTCOME_REJECTED_PREFIX + " " + refusal.code <= OUTCOME_REJECTED_PREFIX + " " + RejectionText(refusal, o);
  }
}
