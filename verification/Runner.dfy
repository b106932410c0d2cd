/** The runner process itself: journal, queue, mailbox and boundary loop as objects that change step by step.
    A ghost trace records the machine state after every durable write and every contact, so each method is
    proved to be a path of the machine in Delivery, and every crash point is a state of that path. */
module Runner {
  import opened Text
  import opened Json
  import opened OutcomeSize
  import opened Ladder
  import opened Delivery
  import opened RowLog
  import opened Queue
  import opened Summary

  /** The durable slot for one remote task. */
  class DeliveryJournal {
    var active: Option<Active>

    constructor ()
      ensures active == None
    {
      active := None;
    }

    method SetActive(a: Active)
      modifies this
      ensures active == Some(a)
    {
      active := Some(a);
    }

    /** Raises without an active task. */
    method UpdateActive(stage: Stage) returns (ok: bool)
      modifies this
      ensures ok == old(active).Some?
      ensures active == if ok then Some(Active(old(active).value.id, stage)) else old(active)
    {
      ok := active.Some?;
      if ok { active := Some(active.value.(stage := stage)); }
    }

    method ClearActive()
      modifies this
      ensures active == None
    {
      active := None;
    }
  }

  datatype Request = ReportOutcome(id: TaskId, outcome: Outcome) | AskAccept(id: TaskId) | AskTask

  /** What the control service answers to one request; only a request for a task is answered with one. An unreachable
      service is an error without a status. */
  datatype Answer = Fine | Offer(id: TaskId) | Error(code: string, status: Option<int>, message: string)

  datatype Exchange = Exchange(request: Request, answer: Answer)

  const CLAIM_REFUSALS: set<string> := {"CLAIM_EXPIRED", "CLAIM_TOKEN_INVALID", "TASK_NOT_CLAIMED"}

  /** The payload can never succeed with the same bytes. */
  predicate Permanent(a: Answer) {
    a.Error? && a.status.Some? && a.status.value in PERMANENT_REJECTION_STATUSES
  }

  predicate ClaimRefused(a: Answer) { a.Error? && a.code in CLAIM_REFUSALS }

  /** The machine's latest reply is one the control service gave. */
  ghost predicate Backed(reply: Reply, log: seq<Exchange>) {
    match reply
    case NoReply => true
    case AcceptedReply(id) => Exchange(AskAccept(id), Fine) in log
    case RefusedAccept(id) =>
      exists k :: 0 <= k < |log| && log[k].request == AskAccept(id) && ClaimRefused(log[k].answer)
    case Confirmed(id, o) => Exchange(ReportOutcome(id, o), Fine) in log
    case RefusedOutcome(id, o) =>
      exists k :: 0 <= k < |log| && log[k].request == ReportOutcome(id, o) && Permanent(log[k].answer)
  }

  lemma BackedGrows(reply: Reply, log: seq<Exchange>, more: Exchange)
    requires Backed(reply, log)
    ensures Backed(reply, log + [more])
  {
    var all := log + [more];
    match reply
    case RefusedAccept(id) =>
      var k :| 0 <= k < |log| && log[k].request == AskAccept(id) && ClaimRefused(log[k].answer);
      assert all[k] == log[k];
    case RefusedOutcome(id, o) =>
      var k :| 0 <= k < |log| && log[k].request == ReportOutcome(id, o) && Permanent(log[k].answer);
      assert all[k] == log[k];
    case _ =>
  }

  lemma LastBacks(reply: Reply, log: seq<Exchange>)
    requires log != []
    requires var last := log[|log| - 1];
      match reply
      case NoReply => true
      case AcceptedReply(id) => last == Exchange(AskAccept(id), Fine)
      case RefusedAccept(id) => last.request == AskAccept(id) && ClaimRefused(last.answer)
      case Confirmed(id, o) => last == Exchange(ReportOutcome(id, o), Fine)
      case RefusedOutcome(id, o) => last.request == ReportOutcome(id, o) && Permanent(last.answer)
    ensures Backed(reply, log)
  {}

  /** Every exchange was a report of the task that was refused for good, and no two in a row sent alike. */
  ghost predicate AllRefused(id: TaskId, made: seq<Exchange>) {
    && (forall k :: 0 <= k < |made| ==>
          made[k].request.ReportOutcome? && made[k].request.id == id && Permanent(made[k].answer))
    && (forall k, l :: 0 <= k && k + 1 == l < |made| ==> made[k].request.outcome != made[l].request.outcome)
  }

  /** What the exchanges of one delivery of a staged outcome are, and what they leave in the slot. */
  ghost predicate Flushed(id: TaskId, outcome: Outcome, after: Option<Active>, made: seq<Exchange>) {
    && made != [] && made[0].request == ReportOutcome(id, outcome)
    && |made| <= (if Completed(outcome) then 3 else 2)
    && AllRefused(id, made[..|made| - 1])
    && (|made| > 1 ==> made[|made| - 1].request != made[|made| - 2].request)
    && var last := made[|made| - 1];
       && last.request.ReportOutcome? && last.request.id == id
       && (after == None <==> last.answer == Fine || (Permanent(last.answer) && Final(last.request.outcome)))
       && (after.Some? ==>
             && !Permanent(last.answer) && after.value.id == id
             && after.value.stage.OutcomePending? && after.value.stage.pending.outcome == last.request.outcome)
  }

  /** The disk, and the exchanges so far. */
  datatype Scene = Scene(disk: Disk, log: seq<Exchange>)

  ghost predicate SameLogs(x: Scene, y: Scene) {
    x.log <= y.log && y.disk.results == x.disk.results && y.disk.failures == x.disk.failures
  }

  /** The first outcome reported between the two. */
  ghost function FirstReport(x: Scene, y: Scene): Option<Outcome> {
    if |x.log| < |y.log| && y.log[|x.log|].request.ReportOutcome? then Some(y.log[|x.log|].request.outcome) else None
  }

  /** An outcome of the task was staged and delivered, and its file dropped; nothing else happened. */
  ghost predicate Delivered(x: Scene, y: Scene, id: TaskId) {
    && x.log <= y.log && y.disk.queue == x.disk.queue - {id} && FirstReport(x, y).Some?
    && Flushed(id, FirstReport(x, y).value, y.disk.active, y.log[|x.log|..])
  }

  /** The task was filed and its accept asked for; nothing else happened. */
  ghost predicate AcceptAsked(x: Scene, y: Scene, id: TaskId, task: Option<TaskId>) {
    && |y.log| == |x.log| + 1 && x.log <= y.log && y.log[|x.log|].request == AskAccept(id)
    && AcceptAnswered(id, y.log[|x.log|].answer, x.disk.queue + {id}, y.disk.active, y.disk.queue, task)
  }

  /** What the answer to an accept leaves behind, and whether the task is handed out. */
  ghost predicate AcceptAnswered(id: TaskId, answer: Answer, filed: set<TaskId>, after: Option<Active>,
                                 files: set<TaskId>, task: Option<TaskId>)
  {
    if answer == Fine then task == Some(id) && after == Some(Active(id, Accepted)) && files == filed
    else if ClaimRefused(answer) then task == None && after == None && files == filed - {id}
    else task == None && after == Some(Active(id, Imported)) && files == filed
  }

  lemma FirstReported(x: Scene, y: Scene, id: TaskId, o: Outcome)
    requires x.log <= y.log && Flushed(id, o, y.disk.active, y.log[|x.log|..])
    ensures FirstReport(x, y) == Some(o)
  {}

  /** In the middle of a delivery: everything sent so far was refused for good, and something else is staged now. */
  ghost predicate Refusing(a: Active, now: Option<Active>, made: seq<Exchange>)
    requires a.stage.OutcomePending?
  {
    && now.Some? && now.value.id == a.id && now.value.stage.OutcomePending? && AllRefused(a.id, made)
    && |made| + Rank(now.value.stage.pending) <= Rank(a.stage.pending)
    && (if made == [] then now == Some(a)
        else
          && made[0].request == ReportOutcome(a.id, a.stage.pending.outcome)
          && made[|made| - 1].request != ReportOutcome(a.id, now.value.stage.pending.outcome))
  }

  lemma NothingSentYet(a: Active)
    requires a.stage.OutcomePending?
    ensures Refusing(a, Some(a), [])
  {}

  lemma OneMoreRefused(a: Active, now: Option<Active>, made: seq<Exchange>, e: Exchange, next: Option<Active>)
    requires a.stage.OutcomePending? && Refusing(a, now, made) && Permanent(e.answer)
    requires e.request == ReportOutcome(a.id, now.value.stage.pending.outcome)
    requires next.Some? && next.value.id == a.id && next.value.stage.OutcomePending?
    requires Rank(next.value.stage.pending) < Rank(now.value.stage.pending)
    requires next.value.stage.pending.outcome != now.value.stage.pending.outcome
    ensures Refusing(a, next, made + [e])
  {
    hide Rank;
  }

  lemma LastOfDelivery(a: Active, now: Option<Active>, made: seq<Exchange>, e: Exchange, after: Option<Active>)
    requires a.stage.OutcomePending? && Refusing(a, now, made)
    requires e.request == ReportOutcome(a.id, now.value.stage.pending.outcome)
    requires if Permanent(e.answer) then after == None && Final(now.value.stage.pending.outcome)
             else after == if e.answer == Fine then None else now
    ensures Flushed(a.id, a.stage.pending.outcome, after, made + [e])
  {
    hide Final, Rank, Completed;
    RankBound(a.stage.pending);
    var all := made + [e];
    assert all[..|all| - 1] == made;
  }

  lemma CompletedIsValid(id: string, runnerId: string, at: string, result: Json)
    requires WellFormed(result)
    ensures var o := CompletedOutcome(id, runnerId, at, result); ValidOutcome(o) && Completed(o)
  {
    DocumentFields(id, runnerId, "completed", at, result, Null);
  }

  lemma RankBound(p: Pending)
    ensures Rank(p) <= if Completed(p.outcome) then 2 else 1
  {}

  lemma RaisedOrNot(o: Outcome, budget: nat, sent: Outcome)
    ensures !(Preflighted(o, budget, None) && Preflighted(o, budget, Some(sent)))
  {}

  /** What the newest row of `u` says once `t` has written a row. */
  function RowAfter(newest: TaskId -> ResultRow, t: TaskId, row: ResultRow, u: TaskId): ResultRow {
    if u == t then row else newest(u)
  }

  class Runner {
    const journal: DeliveryJournal
    const queue: TaskQueue
    const runnerId: string
    /** Whether the mailbox may claim tasks, or only watches. */
    const live: bool
    const maxOutcomeBytes: nat
    /** Why this deployment's code cannot turn the task's envelope into a task; None when it can. */
    const loadError: TaskId -> Option<string>
    var results: Log
    var failures: Log
    /** What the newest result and failure rows of each task say; a lookup that finds a row finds the newest one. */
    var newestRow: TaskId -> ResultRow
    var newestError: TaskId -> string

    ghost var pc: Pc
    ghost var reply: Reply
    ghost var trace: Run
    /** Every exchange of this process with the control service; only `Contact` adds to it. */
    ghost var exchanges: seq<Exchange>

    ghost function Repr(): set<object> { {this, journal, queue} }

    ghost function Now(): State
      reads this, journal, queue
    {
      State(Disk(journal.active, queue.files, results, failures), pc, reply)
    }

    ghost predicate Recorded()
      reads this`trace
    {
      trace != [] && IsPath(trace) && Inv(trace[|trace| - 1])
    }

    ghost predicate Valid()
      reads this, journal, queue
    {
      Recorded() && trace[|trace| - 1] == Now() && Backed(reply, exchanges)
    }

    /** A process started on what an earlier one left on disk. */
    constructor (j: DeliveryJournal, q: TaskQueue, id: string, claims: bool, maxBytes: nat,
                 loads: TaskId -> Option<string>, rows: Log, failed: Log, newest: TaskId -> ResultRow,
                 errors: TaskId -> string)
      requires Inv(State(Disk(j.active, q.files, rows, failed), Choose, NoReply))
      ensures Valid() && pc == Choose && exchanges == [] && |trace| == 1
      ensures journal == j && queue == q && runnerId == id && live == claims
      ensures maxOutcomeBytes == maxBytes && loadError == loads
      ensures results == rows && failures == failed && newestRow == newest && newestError == errors
    {
      journal, queue, runnerId, live, maxOutcomeBytes, loadError := j, q, id, claims, maxBytes, loads;
      results, failures, newestRow, newestError := rows, failed, newest, errors;
      pc, reply, exchanges := Choose, NoReply, [];
      trace := [State(Disk(j.active, q.files, rows, failed), Choose, NoReply)];
    }

    ghost function Here(): Scene
      reads this, journal, queue
    {
      Scene(Now().disk, exchanges)
    }

    /** Records the step just taken. */
    ghost method Record(pc': Pc, reply': Reply)
      requires Recorded()
      requires RunnerStep(trace[|trace| - 1], Now().(pc := pc', reply := reply')) && Backed(reply', exchanges)
      modifies this`pc, this`reply, this`trace
      ensures Valid() && pc == pc' && reply == reply'
      ensures old(trace) <= trace
    {
      hide FlushMove, ReconcileMove, AcceptMove, ChoiceMove, ExecutionMove, Inv;
      StepKeepsInv(trace[|trace| - 1], Now().(pc := pc', reply := reply'));
      pc, reply := pc', reply';
      trace := trace + [Now()];
    }

    ghost method RecordDeath()
      requires Valid()
      modifies this`pc, this`reply, this`trace
      ensures Valid() && pc == Dead && old(trace) <= trace
    {
      hide RunnerStep, Inv;
      StepKeepsInv(Now(), Now().(pc := Dead));
      pc := Dead;
      trace := trace + [Now()];
    }

    /** `_contact`: one request and its answer. */
    method Contact(request: Request) returns (answer: Answer)
      requires Valid()
      modifies this`exchanges
      ensures Valid() && exchanges == old(exchanges) + [Exchange(request, answer)]
      ensures answer.Offer? ==> request.AskTask?
    {
      hide Backed, Recorded;
      answer := *;
      if answer.Offer? && !request.AskTask? { answer := Fine; }
      BackedGrows(reply, exchanges, Exchange(request, answer));
      exchanges := exchanges + [Exchange(request, answer)];
    }

    predicate OwnsTask(t: TaskId)
      reads this, journal
    {
      journal.active.Some? && journal.active.value.id == t
    }

    predicate BlocksExecution()
      reads this, journal
    {
      journal.active.Some? && (journal.active.value.stage.Claimed? || journal.active.value.stage.Imported?)
    }

    // ----- outcome delivery -----

    /** `_downgrade_rejected_outcome`, down to the one journal write it makes. */
    method DowngradeRejectedOutcome(refusal: Refusal, ghost caller: Caller) returns (ghost stagedAt: string)
      requires Valid() && pc == FlushRefused(caller, refusal)
      modifies this`pc, this`reply, this`trace, journal
      ensures Valid() && pc == Flush(caller) && old(trace) <= trace
      ensures journal.active == None || Pends(Now().disk)
      ensures var a := old(journal.active.value);
        match Downgrade(a.id.id, runnerId, stagedAt, a.stage.pending, refusal)
        case Some(q) => journal.active == Some(Active(a.id, OutcomePending(q)))
        case None => journal.active == None
      ensures journal.active == None <==> Final(old(journal.active.value.stage.pending.outcome))
      ensures journal.active.Some? ==>
        var p, q := old(journal.active.value.stage.pending), journal.active.value.stage.pending;
        Rank(q) < Rank(p) && q.outcome != p.outcome
    {
      hide Finds, IsPath, Downgrade, Rank, WireBytes, DowngradeStep, ReconcileMove, AcceptMove, ChoiceMove,
        ExecutionMove;
      ghost var s := Now();
      var at: string := *;
      stagedAt := at;
      var a := journal.active.value;
      DowngradeStepsDown(a.id.id, runnerId, at, a.stage.pending, refusal);
      match Downgrade(a.id.id, runnerId, at, a.stage.pending, refusal) {
        case Some(q) =>
          var _ := journal.UpdateActive(OutcomePending(q));
          assert SetStage(s.disk, Now().disk, OutcomePending(q));
        case None =>
          journal.ClearActive();
      }
      assert Downgraded(s.disk, Now().disk, runnerId, at, refusal);
      DowngradeIsStep(s, Now().(pc := Flush(caller)), caller, refusal, runnerId, at);
      Record(Flush(caller), reply);
    }

    /** Sends still allowed for what the journal holds. */
    ghost function SendsLeft(): nat
      reads this, journal
    {
      if journal.active.Some? && journal.active.value.stage.OutcomePending? then
        1 + Rank(journal.active.value.stage.pending)
      else 0
    }

    lemma OnlyOutcomesHere(caller: Caller)
      requires Valid() && pc == Flush(caller)
      ensures journal.active == None || Pends(Now().disk)
    {}

    lemma StagedHere(t: TaskId)
      requires Recorded() && trace[|trace| - 1].pc == Finishing(t)
      ensures trace[|trace| - 1].disk.active == None || Pends(trace[|trace| - 1].disk)
    {}

    ghost method NothingToSend(caller: Caller)
      requires Valid() && pc == Flush(caller) && !Pends(Now().disk)
      modifies this`pc, this`reply, this`trace
      ensures Valid() && pc == FlushReturn(caller) && old(trace) <= trace
    {
      Record(FlushReturn(caller), reply);
    }

    /** One report of the staged outcome, with the downgrade when the payload is refused. */
    method SendOnce(ghost caller: Caller) returns (stop: bool, delivered: bool, ghost stagedAt: string)
      requires Valid() && pc == Flush(caller) && Pends(Now().disk)
      modifies this`pc, this`reply, this`trace, this`exchanges, journal
      ensures Valid() && old(trace) <= trace && pc == if stop then FlushReturn(caller) else Flush(caller)
      ensures |exchanges| == |old(exchanges)| + 1 && old(exchanges) <= exchanges
      ensures var a, made := old(journal.active.value), exchanges[|exchanges| - 1];
        && made.request == ReportOutcome(a.id, a.stage.pending.outcome)
        && stop == !Permanent(made.answer)
        && (stop ==> delivered == (made.answer == Fine))
        && (stop ==> journal.active == if made.answer == Fine then None else old(journal.active))
        && (!stop ==> (journal.active == None <==> Final(a.stage.pending.outcome)) && SendsLeft() < old(SendsLeft()))
        && (!stop ==>
              var refusal := Refusal(made.answer.code, made.answer.status.value, made.answer.message);
              journal.active ==
                match Downgrade(a.id.id, runnerId, stagedAt, a.stage.pending, refusal)
                case Some(q) => Some(Active(a.id, OutcomePending(q)))
                case None => None)
        && (journal.active.Some? ==> Pends(Now().disk) && journal.active.value.id == a.id)
        && (!stop && journal.active.Some? ==>
              journal.active.value.stage.pending.outcome != a.stage.pending.outcome
              && Rank(journal.active.value.stage.pending) < Rank(a.stage.pending))
    {
      hide Finds, IsPath, Downgrade, ValidOutcome, WireBytes, RunnerStep, Backed, Inv, JournalAt;
      var a := journal.active.value;
      var answer := Contact(ReportOutcome(a.id, a.stage.pending.outcome));
      if !answer.Error? {
        ReportConfirmed(caller);
        return true, true, "";
      }
      if !IsPermanentRejection(answer.status) {
        KeptForLater(caller);
        return true, false, "";
      }
      var refusal := Refusal(answer.code, answer.status.value, answer.message);
      ReportRefused(refusal, caller);
      ghost var at := DowngradeRejectedOutcome(refusal, caller);
      return false, false, at;
    }

    /** The last exchange was the report of what the slot holds, with such an answer. */
    ghost predicate JustReported(caller: Caller, fine: bool, refused: bool)
      reads this, journal, queue
    {
      && Valid() && pc == Flush(caller) && Pends(Now().disk) && exchanges != []
      && var last := exchanges[|exchanges| - 1];
         && last.request == ReportOutcome(journal.active.value.id, journal.active.value.stage.pending.outcome)
         && (fine ==> last.answer == Fine) && (refused ==> Permanent(last.answer))
    }

    method ReportConfirmed(ghost caller: Caller)
      requires JustReported(caller, true, false)
      modifies this`pc, this`reply, this`trace, journal
      ensures Valid() && old(trace) <= trace && pc == FlushReturn(caller) && journal.active == None
    {
      hide Finds, IsPath, Inv, JournalAt, ReconcileMove, AcceptMove, ChoiceMove, ExecutionMove, Backed;
      var a := journal.active.value;
      LastBacks(Confirmed(a.id, a.stage.pending.outcome), exchanges);
      Record(FlushDelivered(caller), Confirmed(a.id, a.stage.pending.outcome));
      journal.ClearActive();
      Record(FlushReturn(caller), reply);
    }

    ghost method KeptForLater(caller: Caller)
      requires JustReported(caller, false, false)
      modifies this`pc, this`reply, this`trace
      ensures Valid() && old(trace) <= trace && pc == FlushReturn(caller)
    {
      hide Finds, IsPath, Inv, JournalAt, ReconcileMove, AcceptMove, ChoiceMove, ExecutionMove, Backed;
      LastBacks(NoReply, exchanges);
      Record(FlushReturn(caller), NoReply);
    }

    ghost method ReportRefused(refusal: Refusal, caller: Caller)
      requires JustReported(caller, false, true)
      modifies this`pc, this`reply, this`trace
      ensures Valid() && old(trace) <= trace && pc == FlushRefused(caller, refusal)
    {
      hide Finds, IsPath, Inv, JournalAt, ReconcileMove, AcceptMove, ChoiceMove, ExecutionMove, Backed;
      var a := journal.active.value;
      LastBacks(RefusedOutcome(a.id, a.stage.pending.outcome), exchanges);
      Record(FlushRefused(caller, refusal), RefusedOutcome(a.id, a.stage.pending.outcome));
    }

    /** Reports the staged outcome and walks down the ladder on every refusal of the payload. True when nothing is
        pending afterwards: after a confirmation, or after the refusal of the last rung. Any other answer leaves what
        was sent last in the slot. */
    method FlushPendingOutcome(ghost caller: Caller) returns (nothingPending: bool)
      requires Valid() && pc == Flush(caller)
      modifies this`pc, this`reply, this`trace, this`exchanges, journal
      ensures Valid() && pc == FlushReturn(caller) && old(trace) <= trace && old(exchanges) <= exchanges
      ensures nothingPending == (journal.active == None)
      ensures old(journal.active) == None ==> journal.active == None && exchanges == old(exchanges)
      ensures old(journal.active).Some? ==>
        old(Pends(Now().disk))
        && var a := old(journal.active.value);
           Flushed(a.id, a.stage.pending.outcome, journal.active, exchanges[|old(exchanges)|..])
    {
      hide Finds, IsPath, Inv, Downgrade, ValidOutcome, WireBytes, Rank, RunnerStep, Flushed, Backed, Refusing;
      OnlyOutcomesHere(caller);
      if journal.active == None {
        NothingToSend(caller);
        return true;
      }
      ghost var a, start := journal.active.value, |exchanges|;
      NothingSentYet(a);
      assert exchanges[start..] == [];
      while true
        invariant Valid() && pc == Flush(caller) && old(trace) <= trace && old(exchanges) <= exchanges
        invariant Pends(Now().disk) && journal.active.value.id == a.id
        invariant Refusing(a, journal.active, exchanges[start..])
        decreases SendsLeft()
      {
        ghost var made, now := exchanges[start..], journal.active;
        ghost var at;
        var stop, delivered;
        stop, delivered, at := SendOnce(caller);
        ghost var e := exchanges[|exchanges| - 1];
        assert exchanges[start..] == made + [e];
        if stop {
          LastOfDelivery(a, now, made, e, journal.active);
          return delivered;
        }
        if journal.active == None {
          LastOfDelivery(a, now, made, e, None);
          NothingToSend(caller);
          return true;
        }
        OneMoreRefused(a, now, made, e, journal.active);
      }
    }

    /** Flushes, and goes back to whoever asked for it. */
    method Deliver(ghost caller: Caller)
      requires Valid() && pc == Flush(caller)
      modifies this`pc, this`reply, this`trace, this`exchanges, journal
      ensures Valid() && old(trace) <= trace && old(exchanges) <= exchanges && pc == FlushedTo(caller)
      ensures old(journal.active) == None ==> journal.active == None && exchanges == old(exchanges)
      ensures old(journal.active).Some? ==>
        old(Pends(Now().disk))
        && var a := old(journal.active.value);
           Flushed(a.id, a.stage.pending.outcome, journal.active, exchanges[|old(exchanges)|..])
    {
      hide Finds, IsPath, Inv, JournalAt, Downgrade, ValidOutcome, Completed, WireBytes, Rank, FlushStep,
        DowngradeStep, ReconcileMove, AcceptMove, ChoiceMove, ExecutionMove, Backed, Flushed;
      var _ := FlushPendingOutcome(caller);
      Record(FlushedTo(caller), reply);
    }

    /** Trims an outcome over the budget before its first send; None when trimming raised. */
    method PreflightSize(outcome: Outcome) returns (r: Option<Outcome>)
      requires ValidOutcome(outcome)
      ensures Preflighted(outcome, maxOutcomeBytes, r)
    {
      hide WireBytes, WellFormed, Decimal, Completed, HasResult;
      var size := WireBytes(Obj(outcome));
      if size <= maxOutcomeBytes { return Some(outcome); }
      var reason := "preflight: " + Decimal(size) + " bytes over max_outcome_bytes " + Decimal(maxOutcomeBytes);
      var trimmed := TrimOutcome(outcome, maxOutcomeBytes, reason, OUTPUT_LOG);
      assert PreflightTrim(outcome, maxOutcomeBytes) == Trim(outcome, reason, OUTPUT_LOG);
      if trimmed == None { return None; }
      if trimmed.value.dropped == [] { return Some(outcome); }
      return Some(trimmed.value.outcome);
    }

    /** What a completed outcome reports: the summary of the row, or just the task when there is none. */
    function Reported(t: TaskId, row: Option<ResultRow>): Json {
      Obj(Summarize(match row case Some(ms) => ms case None => [Member("task_id", Str(t.id))]))
    }

    /** The task in the slot has no outcome yet, its envelope loads, and trimming what its result row, which is in
        reach, is reported as raises. */
    ghost predicate Stuck()
      reads this`results, this`newestRow, journal
    {
      && journal.active.Some? && !journal.active.value.stage.OutcomePending?
      && var t := journal.active.value.id;
         loadError(t) == None && Finds(results, t)
         && StagingRaises(t.id, runnerId, Reported(t, Some(newestRow(t))), maxOutcomeBytes)
    }

    /** Stages a completed outcome for the row found; false when trimming it raised. */
    method StageSuccess(t: TaskId, row: Option<ResultRow>, ghost next: Pc) returns (ok: bool, ghost completedAt: string)
      requires Valid() && OwnsTask(t)
      requires (pc == Succeeded(t) && next == Finishing(t))
        || (pc.Reconcile? && !Pends(Now().disk) && Finds(results, t) && next == Unfile(pc.site))
      modifies this`pc, this`reply, this`trace, journal
      ensures Valid() && old(trace) <= trace && pc == if ok then next else Dead
      ensures ok ==> OwnsTask(t) && Staged(old(Now().disk), Now().disk, true)
      ensures ok ==> journal.active.value.stage.pending.rejections == []
      ensures !ok ==> journal.active == old(journal.active)
      ensures Preflighted(CompletedOutcome(t.id, runnerId, completedAt, Reported(t, row)), maxOutcomeBytes,
                          if ok then Some(journal.active.value.stage.pending.outcome) else None)
    {
      hide Finds, IsPath, Inv, JournalAt, ValidOutcome, WireBytes, CompletedOutcome, Preflighted, Completed;
      var at: string := *;
      completedAt := at;
      var result := Reported(t, row);
      ReportedWellFormed(t, row);
      CompletedIsValid(t.id, runnerId, at, result);
      var full := CompletedOutcome(t.id, runnerId, at, result);
      var outcome := PreflightSize(full);
      ok := outcome.Some?;
      if ok {
        PreflightKeepsState(full, maxOutcomeBytes, outcome.value);
        StageCompleted(t, outcome.value, next);
      } else {
        RecordDeath();
      }
    }

    lemma ReportedWellFormed(t: TaskId, row: Option<ResultRow>)
      ensures WellFormed(Reported(t, row))
    {
      SummaryWellFormed(match row case Some(ms) => ms case None => [Member("task_id", Str(t.id))]);
    }

    /** Journals a completed outcome for the active task. */
    method StageCompleted(t: TaskId, outcome: Outcome, ghost next: Pc)
      requires Valid() && OwnsTask(t) && ValidOutcome(outcome) && Completed(outcome)
      requires (pc == Succeeded(t) && next == Finishing(t))
        || (pc.Reconcile? && !Pends(Now().disk) && Finds(results, t) && next == Unfile(pc.site))
      modifies this`pc, this`reply, this`trace, journal
      ensures Valid() && old(trace) <= trace && pc == next
      ensures journal.active == Some(Active(t, OutcomePending(Pending(outcome, []))))
      ensures Staged(old(Now().disk), Now().disk, true)
    {
      hide Finds, IsPath, Inv, JournalAt, Downgrade, ValidOutcome, Completed, WireBytes, Rank, FlushMove, AcceptMove,
        ChoiceMove;
      ghost var s := Now();
      var _ := journal.UpdateActive(OutcomePending(Pending(outcome, [])));
      assert Staged(s.disk, Now().disk, true);
      Record(next, reply);
    }

    /** Stages a failed outcome with the given error. */
    method StageFailure(t: TaskId, error: string, ghost next: Pc)
      requires Valid() && OwnsTask(t)
      requires (pc == Failed(t) && next == Finishing(t))
        || (pc.Reconcile? && !Pends(Now().disk) && next == Flush(Unloadable(pc.site, t)))
        || (pc.Reconcile? && !Pends(Now().disk) && !Finds(results, t) && Finds(failures, t) && next == Unfile(pc.site))
      modifies this`pc, this`reply, this`trace, journal
      ensures Valid() && old(trace) <= trace && pc == next && OwnsTask(t) && Staged(old(Now().disk), Now().disk, false)
      ensures ErrorText(journal.active.value.stage.pending.outcome) == error
      ensures journal.active.value.stage.pending.rejections ==
        if old(Pends(Now().disk)) then old(journal.active.value.stage.pending.rejections) else []
    {
      hide Finds, IsPath, Inv, JournalAt, ValidOutcome, Completed, ErrorText, FailedOutcome, FlushMove, AcceptMove,
        ChoiceMove;
      var at: string := *;
      ghost var s := Now();
      FailedFields(t.id, runnerId, at, error);
      var rejections :=
        if journal.active.value.stage.OutcomePending? then journal.active.value.stage.pending.rejections else [];
      var _ := journal.UpdateActive(OutcomePending(Pending(FailedOutcome(t.id, runnerId, at, error), rejections)));
      assert Staged(s.disk, Now().disk, false);
      Record(next, reply);
    }

    // ----- reconcile and poll -----

    /** What a completed outcome of the task becomes for the row found, or for none. */
    ghost predicate Checked(t: TaskId, row: Option<ResultRow>, r: Option<Outcome>) {
      exists at :: Preflighted(CompletedOutcome(t.id, runnerId, at, Reported(t, row)), maxOutcomeBytes, r)
    }

    /** How a reconcile ends, for each state of the slot. */
    ghost predicate Reconciled(x: Scene, y: Scene, ok: bool, task: Option<TaskId>)
      reads this`newestRow, this`newestError
    {
      match x.disk.active
      case None => ok && task == None && y == x
      case Some(a) =>
        SameLogs(x, y)
        && if a.stage.OutcomePending? then
             ok && task == None && y.disk.queue == x.disk.queue
             && Flushed(a.id, a.stage.pending.outcome, y.disk.active, y.log[|x.log|..])
           else if loadError(a.id).Some? || Finds(x.disk.results, a.id) || Finds(x.disk.failures, a.id) then
             task == None && FoundReported(x, y, ok, a.id)
           else if a.stage.Accepted? then
             y == x && ok == (a.id in x.disk.queue) && task == if ok then Some(a.id) else None
           else if ok then
             AcceptAsked(x, y, a.id, task) && (a.stage.Imported? ==> a.id in x.disk.queue)
           else y == x && task == None && a.id !in x.disk.queue
    }

    /** The envelope cannot be loaded, or a row tells how the task went. */
    ghost predicate FoundReported(x: Scene, y: Scene, ok: bool, id: TaskId)
      reads this`newestRow, this`newestError
    {
      var o := FirstReport(x, y);
      if loadError(id).Some? then
        ok && Delivered(x, y, id) && !Completed(o.value) && ErrorText(o.value) == loadError(id).value
      else if !Finds(x.disk.results, id) then
        ok && Delivered(x, y, id) && !Completed(o.value) && ErrorText(o.value) == newestError(id)
      else if ok then
        Delivered(x, y, id) && Completed(o.value) && Checked(id, Some(newestRow(id)), o)
      else y == x && Checked(id, Some(newestRow(id)), None)
    }

    /** Some task to run, nothing, or an exception. */
    method Reconcile(ghost site: Site) returns (ok: bool, task: Option<TaskId>)
      requires Valid() && pc == Pc.Reconcile(site)
      modifies this`pc, this`reply, this`trace, this`exchanges, journal, queue
      ensures Valid() && old(trace) <= trace && old(exchanges) <= exchanges
      ensures pc == if !ok then Dead else match task case Some(t) => Running(t) case None => PollReturn(site)
      ensures Reconciled(old(Here()), Here(), ok, task)
      ensures ok && task.Some? ==>
        OwnsTask(task.value) && journal.active.value.stage.Accepted? && task.value in queue.files
      ensures old(Stuck()) ==> !ok && Now().disk == old(Now().disk)
    {
      hide StagingRaises, Finds, IsPath, Inv, JournalAt, Downgrade, ValidOutcome, Completed, WireBytes, Rank,
        AcceptMove, ChoiceMove, ExecutionMove, Backed, Flushed, Delivered, Checked, ErrorText, AcceptAsked;
      ok, task := true, None;
      if journal.active == None {
        Record(PollReturn(site), reply);
        return;
      }
      var id := journal.active.value.id;
      if journal.active.value.stage.OutcomePending? {
        Record(Flush(InReconcile(site)), reply);
        Deliver(InReconcile(site));
        return;
      }
      if loadError(id).Some? {
        FailUnloadableTask(id, loadError(id).value, site);
      } else if Finds(results, id) || Finds(failures, id) {
        ok := ReportFound(id, site);
      } else {
        ok, task := Advance(id, site);
      }
    }

    /** A row of the task is on disk: stages that outcome, drops the file, delivers. */
    method ReportFound(id: TaskId, ghost site: Site) returns (ok: bool)
      requires Valid() && pc == Pc.Reconcile(site) && OwnsTask(id) && !Pends(Now().disk)
      requires loadError(id) == None && (Finds(results, id) || Finds(failures, id))
      modifies this`pc, this`reply, this`trace, this`exchanges, journal, queue
      ensures Valid() && old(trace) <= trace && SameLogs(old(Here()), Here())
      ensures pc == if ok then PollReturn(site) else Dead
      ensures FoundReported(old(Here()), Here(), ok, id)
      ensures old(Stuck()) ==> !ok && Now().disk == old(Now().disk)
    {
      hide Finds, IsPath, Inv, JournalAt, ValidOutcome, Completed, ErrorText, WireBytes, Rank, RunnerStep,
        StagingRaises, Backed, Checked, Flushed, Stuck, Staged;
      ok := StageFound(id, site);
      if ok { DeliverFound(id, site); }
    }

    method DeliverFound(id: TaskId, ghost site: Site)
      requires Valid() && pc == Unfile(site) && OwnsTask(id) && Pends(Now().disk)
      modifies this`pc, this`reply, this`trace, this`exchanges, journal, queue
      ensures Valid() && old(trace) <= trace && pc == PollReturn(site) && Delivered(old(Here()), Here(), id)
      ensures FirstReport(old(Here()), Here()) == Some(old(journal.active.value.stage.pending.outcome))
    {
      hide Finds, IsPath, Inv, JournalAt, ValidOutcome, Completed, RunnerStep, Backed, Flushed;
      ghost var staged := journal.active.value.stage.pending.outcome;
      DropFound(id, site);
      Deliver(InReconcile(site));
      FirstReported(old(Here()), Here(), id, staged);
    }

    method DropFound(id: TaskId, ghost site: Site)
      requires Valid() && pc == Unfile(site) && OwnsTask(id)
      modifies this`pc, this`reply, this`trace, queue
      ensures Valid() && old(trace) <= trace && pc == Flush(InReconcile(site)) && queue.files == old(queue.files) - {id}
    {
      hide Finds, IsPath, Inv, JournalAt, Downgrade, ValidOutcome, Completed, WireBytes, Rank, FlushMove, AcceptMove,
        ChoiceMove, ExecutionMove, ReconcileStep, Backed, Staged;
      var _ := queue.RemoveTask(id);
      Record(Flush(InReconcile(site)), reply);
    }

    /** Imports what is claimed, accepts what is imported, hands out what is accepted. */
    method Advance(id: TaskId, ghost site: Site) returns (ok: bool, task: Option<TaskId>)
      requires Valid() && pc == Pc.Reconcile(site) && OwnsTask(id) && !Pends(Now().disk)
      requires !Finds(results, id) && !Finds(failures, id)
      modifies this`pc, this`reply, this`trace, this`exchanges, journal, queue
      ensures Valid() && old(trace) <= trace && SameLogs(old(Here()), Here())
      ensures pc == if !ok then Dead else match task case Some(t) => Running(t) case None => PollReturn(site)
      ensures ok && task.Some? ==>
        task.value == id && OwnsTask(id) && journal.active.value.stage.Accepted? && id in queue.files
      ensures var x, y, stage := old(Here()), Here(), old(journal.active.value.stage);
        if stage.Accepted? then y == x && ok == (id in x.disk.queue) && task == if ok then Some(id) else None
        else if ok then AcceptAsked(x, y, id, task) && (stage.Imported? ==> id in x.disk.queue)
        else y == x && task == None && id !in x.disk.queue
    {
      hide Finds, IsPath, Inv, JournalAt, RunnerStep, Backed;
      var accepted;
      ok, accepted := ReachAccepted(id, site);
      task := None;
      if ok && accepted {
        ok := HandOut(id, site);
        if ok { task := Some(id); }
      }
    }

    /** Brings the task as far as its acceptance; a claimed one is imported first. */
    method ReachAccepted(id: TaskId, ghost site: Site) returns (ok: bool, accepted: bool)
      requires Valid() && pc == Pc.Reconcile(site) && OwnsTask(id) && !Pends(Now().disk)
      requires !Finds(results, id) && !Finds(failures, id)
      modifies this`pc, this`reply, this`trace, this`exchanges, journal, queue
      ensures Valid() && old(trace) <= trace && SameLogs(old(Here()), Here())
      ensures pc == if !ok then Dead else if accepted then HandOver(site) else PollReturn(site)
      ensures ok && accepted ==> OwnsTask(id) && journal.active.value.stage.Accepted?
      ensures var x, y, stage := old(Here()), Here(), old(journal.active.value.stage);
        if stage.Accepted? then y == x && ok && accepted
        else if ok then
          AcceptAsked(x, y, id, if accepted then Some(id) else None) && (stage.Imported? ==> id in x.disk.queue)
        else y == x && id !in x.disk.queue
    {
      hide Finds, IsPath, Inv, JournalAt, Downgrade, ValidOutcome, Completed, WireBytes, Rank, AcceptMove, ChoiceMove,
        ExecutionMove, FlushMove, Backed;
      ok, accepted := true, true;
      if journal.active.value.stage.Claimed? {
        ok := ImportClaimed(id, site);
        if ok { ok, accepted := AcceptTask(id, site); }
      } else if journal.active.value.stage.Imported? {
        Record(Accept(site), reply);
        ok, accepted := AcceptTask(id, site);
        assert id in old(queue.files) ==> old(queue.files) + {id} == old(queue.files);
      } else {
        Record(HandOver(site), reply);
      }
    }

    /** The accepted task is started if its file is there. */
    method HandOut(id: TaskId, ghost site: Site) returns (ok: bool)
      requires Valid() && pc == HandOver(site) && OwnsTask(id)
      modifies this`pc, this`reply, this`trace
      ensures Valid() && old(trace) <= trace && ok == (id in queue.files) && pc == if ok then Running(id) else Dead
    {
      hide Finds, IsPath, Inv, JournalAt, FlushMove, AcceptMove, ChoiceMove, ExecutionMove;
      ok := queue.HasTask(id);
      Record(if ok then Running(id) else Dead, reply);
    }

    /** Files the claimed task unless it is filed already, and journals that. */
    method ImportClaimed(id: TaskId, ghost site: Site) returns (ok: bool)
      requires Valid() && pc == Pc.Reconcile(site) && OwnsTask(id) && journal.active.value.stage.Claimed?
      requires !Finds(results, id) && !Finds(failures, id)
      modifies this`pc, this`reply, this`trace, journal, queue
      ensures Valid() && old(trace) <= trace && results == old(results) && failures == old(failures)
      ensures pc == if ok then Accept(site) else Dead
      ensures ok ==> journal.active == Some(Active(id, Imported)) && queue.files == old(queue.files) + {id}
      ensures !ok ==> Now().disk == old(Now().disk) && id !in queue.files
    {
      hide Backed, Finds, IsPath, Inv, JournalAt, Downgrade, ValidOutcome, Completed, WireBytes, Rank, AcceptMove,
        ChoiceMove, ExecutionMove, FlushMove;
      if !queue.HasTask(id) {
        var valid: bool := *;
        if !valid {
          RecordDeath();
          return false;
        }
        queue.ImportTask(id);
      }
      assert queue.files == old(queue.files) + {id};
      Record(MarkImported(site), reply);
      ok := journal.UpdateActive(Imported);
      Record(Accept(site), reply);
    }

    /** The envelope cannot become a task here: reports it as failed and drops its file. */
    method FailUnloadableTask(id: TaskId, error: string, ghost site: Site)
      requires Valid() && pc == Pc.Reconcile(site) && OwnsTask(id) && !Pends(Now().disk)
      modifies this`pc, this`reply, this`trace, this`exchanges, journal, queue
      ensures Valid() && old(trace) <= trace && pc == PollReturn(site) && SameLogs(old(Here()), Here())
      ensures Delivered(old(Here()), Here(), id)
      ensures var o := FirstReport(old(Here()), Here()).value; !Completed(o) && ErrorText(o) == error
    {
      hide Finds, IsPath, Inv, JournalAt, ValidOutcome, Completed, ErrorText, WireBytes, Rank, RunnerStep, Backed,
        Flushed;
      StageFailure(id, error, Flush(Unloadable(site, id)));
      ghost var staged := journal.active.value.stage.pending.outcome;
      Deliver(Unloadable(site, id));
      FirstReported(old(Here()), Here(), id, staged);
      DropUnloadable(id, site);
    }

    method DropUnloadable(id: TaskId, ghost site: Site)
      requires Valid() && pc == RemoveUnloadable(site, id)
      modifies this`pc, this`reply, this`trace, queue
      ensures Valid() && old(trace) <= trace && pc == PollReturn(site) && queue.files == old(queue.files) - {id}
    {
      hide Finds, IsPath, Inv, JournalAt, Downgrade, ValidOutcome, Completed, WireBytes, Rank, FlushMove, AcceptMove,
        ChoiceMove, ExecutionMove, ReconcileStep, Backed, Staged;
      var _ := queue.RemoveTask(id);
      Record(PollReturn(site), reply);
    }

    /** Stages the outcome the rows on disk tell of; a result row wins over a failure row. */
    method StageFound(id: TaskId, ghost site: Site) returns (ok: bool)
      requires Valid() && pc == Pc.Reconcile(site) && OwnsTask(id) && !Pends(Now().disk)
      requires Finds(results, id) || Finds(failures, id)
      modifies this`pc, this`reply, this`trace, journal
      ensures Valid() && old(trace) <= trace && pc == if ok then Unfile(site) else Dead
      ensures ok ==> OwnsTask(id) && Staged(old(Now().disk), Now().disk, Finds(old(results), id))
      ensures ok ==>
        Pends(Now().disk) && (Completed(journal.active.value.stage.pending.outcome) <==> Finds(results, id))
      ensures !ok ==> journal.active == old(journal.active) && Finds(results, id)
      ensures Finds(results, id) ==>
        Checked(id, Some(newestRow(id)), if ok then Some(journal.active.value.stage.pending.outcome) else None)
      ensures !Finds(results, id) ==> ErrorText(journal.active.value.stage.pending.outcome) == newestError(id)
      ensures old(Stuck()) ==> !ok
    {
      hide Backed, CompletedOutcome, ErrorText, Finds, IsPath, Inv, JournalAt, Downgrade, ValidOutcome, Completed,
        WireBytes, Rank, Preflighted;
      if Finds(results, id) {
        var row := newestRow(id);
        ghost var at: string;
        ok, at := StageSuccess(id, Some(row), Unfile(site));
        if ok && old(Stuck()) {
          RaisedOrNot(CompletedOutcome(id.id, runnerId, at, Reported(id, Some(row))), maxOutcomeBytes,
                      journal.active.value.stage.pending.outcome);
        }
      } else {
        StageFailure(id, newestError(id), Unfile(site));
        ok := true;
      }
    }

    /** Confirms the claim with the control service, and journals that or drops the task. */
    method AcceptTask(id: TaskId, ghost site: Site) returns (ok: bool, accepted: bool)
      requires Valid() && pc == Accept(site) && OwnsTask(id)
      modifies this`pc, this`reply, this`trace, this`exchanges, journal, queue
      ensures Valid() && old(trace) <= trace && SameLogs(old(Here()), Here())
      ensures pc == if !ok then Dead else if accepted then HandOver(site) else PollReturn(site)
      ensures ok == (id in old(queue.files))
      ensures !ok ==> Here() == old(Here())
      ensures ok ==> AcceptAsked(old(Here()), Here(), id, if accepted then Some(id) else None)
    {
      hide Finds, IsPath, Inv, JournalAt, ValidOutcome, Completed, WireBytes, Rank, RunnerStep, Backed;
      ok, accepted := true, false;
      if !queue.HasTask(id) {
        FileIsMissing(id, site);
        ok := false;
        return;
      }
      assert queue.files + {id} == queue.files;
      ImportedHere();
      var answer := Contact(AskAccept(id));
      if !answer.Error? {
        JournalAcceptance(id, site);
        accepted := true;
      } else if answer.code in CLAIM_REFUSALS {
        AcceptRefused(id, site);
        DropRefusedTask(id, site);
      } else {
        AcceptLater(id, site);
      }
    }

    lemma ImportedHere()
      requires Valid() && pc.Accept?
      ensures journal.active.Some? && journal.active.value.stage.Imported?
    {}

    ghost method FileIsMissing(id: TaskId, site: Site)
      requires Valid() && pc == Accept(site) && OwnsTask(id) && id !in queue.files
      modifies this`pc, this`reply, this`trace
      ensures Valid() && old(trace) <= trace && pc == Dead
    {
      hide Finds, IsPath, Inv, JournalAt, FlushMove, ReconcileMove, ChoiceMove, ExecutionMove, Backed;
      Record(Dead, reply);
    }

    ghost method AcceptLater(id: TaskId, site: Site)
      requires Valid() && pc == Accept(site) && OwnsTask(id) && id in queue.files
      modifies this`pc, this`reply, this`trace
      ensures Valid() && old(trace) <= trace && pc == PollReturn(site)
    {
      hide Finds, IsPath, Inv, JournalAt, FlushMove, ReconcileMove, ChoiceMove, ExecutionMove;
      Record(PollReturn(site), NoReply);
    }

    /** The acceptance was confirmed. */
    method JournalAcceptance(id: TaskId, ghost site: Site)
      requires Valid() && pc == Accept(site) && OwnsTask(id) && id in queue.files
      requires exchanges != [] && exchanges[|exchanges| - 1] == Exchange(AskAccept(id), Fine)
      modifies this`pc, this`reply, this`trace, journal
      ensures Valid() && old(trace) <= trace && pc == HandOver(site) && journal.active == Some(Active(id, Accepted))
    {
      hide Finds, IsPath, Inv, JournalAt, Downgrade, ValidOutcome, Completed, WireBytes, Rank, FlushMove,
        ReconcileMove, ChoiceMove, ExecutionMove, Backed;
      LastBacks(AcceptedReply(id), exchanges);
      Record(MarkAccepted(site), AcceptedReply(id));
      var _ := journal.UpdateActive(Accepted);
      Record(HandOver(site), reply);
    }

    ghost method AcceptRefused(id: TaskId, site: Site)
      requires Valid() && pc == Accept(site) && OwnsTask(id) && id in queue.files && exchanges != []
      requires var last := exchanges[|exchanges| - 1]; last.request == AskAccept(id) && ClaimRefused(last.answer)
      modifies this`pc, this`reply, this`trace
      ensures Valid() && old(trace) <= trace && pc == DropRefused(site)
    {
      hide Finds, IsPath, Inv, JournalAt, FlushMove, ReconcileMove, ChoiceMove, ExecutionMove, Backed;
      LastBacks(RefusedAccept(id), exchanges);
      Record(DropRefused(site), RefusedAccept(id));
    }

    /** The claim is gone: first the file, then the slot. */
    method DropRefusedTask(id: TaskId, ghost site: Site)
      requires Valid() && pc == DropRefused(site) && OwnsTask(id)
      modifies this`pc, this`reply, this`trace, journal, queue
      ensures Valid() && old(trace) <= trace && pc == PollReturn(site)
      ensures queue.files == old(queue.files) - {id} && journal.active == None
    {
      hide Finds, IsPath, Inv, JournalAt, Downgrade, ValidOutcome, Completed, WireBytes, Rank, FlushMove,
        ReconcileMove, ChoiceMove, ExecutionMove, Backed;
      var _ := queue.RemoveTask(id);
      Record(ClearRefused(site), reply);
      journal.ClearActive();
      Record(PollReturn(site), reply);
    }

    /** A task was asked for: none came, or one that is no remote task, or it is journaled and reconciled. */
    ghost predicate TaskAsked(x: Scene, y: Scene, ok: bool, task: Option<TaskId>)
      reads this`newestRow, this`newestError
    {
      && |x.log| < |y.log| && y.log[|x.log|].request == AskTask
      && var asked := x.(log := x.log + [y.log[|x.log|]]);
         match y.log[|x.log|].answer
         case Offer(t) =>
           if t.Local? then y == asked && !ok
           else Reconciled(asked.(disk := x.disk.(active := Some(Active(t, Claimed)))), y, ok, task)
         case _ => y == asked && ok && task == None
    }

    /** Recovers what the journal holds, else claims at most one task when nothing is queued: `after` is what the
        recovery leaves. */
    method Poll(late: bool) returns (ok: bool, task: Option<TaskId>, ghost after: Scene)
      requires Valid() && pc == Pc.Reconcile(Site(late, false))
      modifies this`pc, this`reply, this`trace, this`exchanges, journal, queue
      ensures Valid() && old(trace) <= trace && old(exchanges) <= exchanges
      ensures pc == if !ok then Dead else match task case Some(t) => Running(t) case None => AfterPoll(Now().disk, late)
      ensures
        if after.disk.active == None && live && after.disk.queue == {} then
          Reconciled(old(Here()), after, true, None) && TaskAsked(after, Here(), ok, task)
        else Reconciled(old(Here()), after, ok, task) && Here() == after
      ensures ok && task.Some? ==> OwnsTask(task.value) && journal.active.value.stage.Accepted?
      ensures old(Stuck()) ==> !ok && Now().disk == old(Now().disk)
    {
      hide Stuck, Finds, IsPath, Inv, JournalAt, Downgrade, ValidOutcome, Completed, WireBytes, Rank, FlushMove,
        ReconcileMove, AcceptMove, ExecutionMove, Backed, Reconciled, TaskAsked;
      ok, task := Reconcile(Site(late, false));
      after := Here();
      if !ok || task.Some? {
        HandedOutOrDead(old(Here()), after, ok, task);
        return;
      }
      if journal.active.Some? || !live || queue.files != {} {
        LeavePoll(Site(late, false));
        return;
      }
      Record(Claim(late), reply);
      ok, task := ClaimTask(late);
    }

    lemma HandedOutOrDead(x: Scene, y: Scene, ok: bool, task: Option<TaskId>)
      requires Reconciled(x, y, ok, task) && (!ok || task.Some?)
      ensures y.disk.active.Some?
    {
      hide Finds, Flushed, Delivered, Completed, ErrorText, Checked;
    }

    lemma NothingToRecover(x: Scene, y: Scene)
      requires x.disk.active == None
      ensures forall ok, task :: Reconciled(x, y, ok, task) ==> y == x
      ensures forall z, ok, task :: TaskAsked(y, z, ok, task) ==> |y.log| < |z.log| && z.log[|y.log|].request == AskTask
    {}

    /** Asks for one task, journals it and brings it as far as it goes. */
    method ClaimTask(late: bool) returns (ok: bool, task: Option<TaskId>)
      requires Valid() && pc == Claim(late)
      modifies this`pc, this`reply, this`trace, this`exchanges, journal, queue
      ensures Valid() && old(trace) <= trace && old(exchanges) <= exchanges
      ensures pc == if !ok then Dead else match task case Some(t) => Running(t) case None => AfterPoll(Now().disk, late)
      ensures TaskAsked(old(Here()), Here(), ok, task)
      ensures ok && task.Some? ==> OwnsTask(task.value) && journal.active.value.stage.Accepted?
    {
      hide Finds, IsPath, Inv, JournalAt, ValidOutcome, Completed, WireBytes, Rank, RunnerStep, Backed, Reconciled;
      ok, task := true, None;
      var answer := Contact(AskTask);
      if !answer.Offer? {
        NothingClaimed(late);
        return;
      }
      if !answer.id.Remote? {
        RecordDeath();
        ok := false;
        return;
      }
      ok, task := TakeOffered(answer.id, late);
    }

    /** The task is journaled, then reconciled. */
    method TakeOffered(t: TaskId, late: bool) returns (ok: bool, task: Option<TaskId>)
      requires Valid() && pc == Claim(late) && t.Remote?
      modifies this`pc, this`reply, this`trace, this`exchanges, journal, queue
      ensures Valid() && old(trace) <= trace && old(exchanges) <= exchanges
      ensures pc == if !ok then Dead else match task case Some(t) => Running(t) case None => AfterPoll(Now().disk, late)
      ensures Reconciled(Scene(old(Now().disk).(active := Some(Active(t, Claimed))), old(exchanges)), Here(), ok, task)
      ensures ok && task.Some? ==> OwnsTask(task.value) && journal.active.value.stage.Accepted?
    {
      hide Finds, IsPath, Inv, JournalAt, ValidOutcome, Completed, WireBytes, Rank, RunnerStep, Backed, Reconciled;
      JournalClaim(t, late);
      ok, task := Reconcile(Site(late, true));
      if ok && task == None { LeavePoll(Site(late, true)); }
    }

    ghost method NothingClaimed(late: bool)
      requires Valid() && pc == Claim(late)
      modifies this`pc, this`reply, this`trace
      ensures Valid() && old(trace) <= trace && pc == AfterPoll(Now().disk, late)
    {
      hide Finds, IsPath, Inv, JournalAt, FlushMove, ReconcileMove, AcceptMove, ExecutionMove;
      Record(AfterPoll(Now().disk, late), NoReply);
    }

    ghost method LeavePoll(site: Site)
      requires Valid() && pc == PollReturn(site)
      modifies this`pc, this`reply, this`trace
      ensures Valid() && old(trace) <= trace && pc == AfterPoll(Now().disk, site.late)
    {
      hide Finds, IsPath, Inv, JournalAt, FlushMove, ReconcileMove, AcceptMove, ExecutionMove, Backed;
      Record(AfterPoll(Now().disk, site.late), reply);
    }

    method JournalClaim(t: TaskId, ghost late: bool)
      requires Valid() && pc == Claim(late) && t.Remote?
      modifies this`pc, this`reply, this`trace, journal
      ensures Valid() && old(trace) <= trace && pc == Pc.Reconcile(Site(late, true))
        && journal.active == Some(Active(t, Claimed))
    {
      hide Finds, IsPath, Inv, JournalAt, FlushMove, ReconcileMove, AcceptMove, ExecutionMove;
      journal.SetActive(Active(t, Claimed));
      Record(Pc.Reconcile(Site(late, true)), NoReply);
    }

    // ----- the boundary loop -----

    /** `get_next_task` at one of its three call sites. */
    method PickTask(ghost otherwise: Pc) returns (task: Option<TaskId>)
      requires Valid()
      requires (pc == PickLocal && otherwise == Pc.Reconcile(Site(true, false)))
        || (pc == PickLast && otherwise == Idle)
        || (pc == IdlePick && (otherwise == Idle || otherwise == Choose))
      modifies this`pc, this`reply, this`trace, queue
      ensures Valid() && old(trace) <= trace
      ensures pc == match task case Some(t) => Running(t) case None => otherwise
      ensures task.Some? ==>
        IsFirst(old(queue.files), task.value) && queue.files == old(queue.files) && !BlocksExecution()
      ensures old(queue.files) == {} ==> task == None && queue.files == {}
    {
      hide Finds, IsPath, Downgrade, ValidOutcome, Completed, WireBytes, Rank, FlushMove, ReconcileMove, AcceptMove,
        ExecutionMove;
      ghost var d := Now().disk;
      task := queue.GetNextTask();
      assert task == None && d.queue != {} ==> exists t :: t in d.queue && Unfiled(d, Now().disk, t);
      Record(match task case Some(t) => Running(t) case None => otherwise, reply);
    }

    /** `_choose_next`. */
    method ChooseNext() returns (ok: bool, task: Option<TaskId>)
      requires Valid() && pc == Choose
      modifies Repr()
      ensures Valid() && old(trace) <= trace && results == old(results) && failures == old(failures)
      ensures pc == if !ok then Dead else match task case Some(t) => Running(t) case None => Idle
      ensures old(exchanges) <= exchanges
      ensures ok && task.Some? ==> !BlocksExecution()
      ensures old(journal.active) == None && old(queue.files) == {} && live ==>
        old(exchanges) < exchanges && exchanges[|old(exchanges)|].request == AskTask
      ensures old(Stuck()) ==> !ok && Now().disk == old(Now().disk)
    {
      hide Stuck, Finds, IsPath, Inv, JournalAt, RunnerStep;
      ok, task := RecoverFirst();
      if !ok || task.Some? || BlocksExecution() { return; }
      task := PickTask(Pc.Reconcile(Site(true, false)));
      if task == None { ok, task := ClaimOrSchedule(); }
    }

    /** With no local file to run, poll, and let the subscribers file something when that brings nothing. */
    method ClaimOrSchedule() returns (ok: bool, task: Option<TaskId>)
      requires Valid() && pc == Pc.Reconcile(Site(true, false))
      modifies Repr()
      ensures Valid() && old(trace) <= trace && results == old(results) && failures == old(failures)
      ensures pc == if !ok then Dead else match task case Some(t) => Running(t) case None => Idle
      ensures old(exchanges) <= exchanges
      ensures ok && task.Some? ==> !BlocksExecution()
      ensures old(journal.active) == None && old(queue.files) == {} && live ==>
        old(exchanges) < exchanges && exchanges[|old(exchanges)|].request == AskTask
    {
      hide Finds, IsPath, Inv, JournalAt, RunnerStep, Backed, Reconciled, TaskAsked, Stuck;
      ghost var after;
      ok, task, after := Poll(true);
      if old(journal.active) == None { NothingToRecover(old(Here()), after); }
      if !ok || task.Some? || BlocksExecution() { return; }
      ScheduleNext();
      task := PickTask(Idle);
    }

    /** With something in the slot, poll before looking at local files. */
    method RecoverFirst() returns (ok: bool, task: Option<TaskId>)
      requires Valid() && pc == Choose
      modifies Repr()
      ensures Valid() && old(trace) <= trace && results == old(results) && failures == old(failures)
      ensures pc ==
        if !ok then Dead else match task case Some(t) => Running(t) case None => AfterPoll(Now().disk, false)
      ensures ok && task.Some? ==> OwnsTask(task.value) && journal.active.value.stage.Accepted?
      ensures old(exchanges) <= exchanges
      ensures old(journal.active) == None ==> ok && task == None && Here() == old(Here())
      ensures old(Stuck()) ==> !ok && Now().disk == old(Now().disk)
    {
      hide StagingRaises, Reconciled, TaskAsked, Backed, Finds, IsPath, Inv, JournalAt, FlushMove, ReconcileMove,
        AcceptMove, ExecutionMove;
      ok, task := true, None;
      if journal.active.Some? {
        Record(Pc.Reconcile(Site(false, false)), reply);
        ghost var after;
        ok, task, after := Poll(false);
      } else {
        Record(PickLocal, reply);
      }
    }

    /** Subscribers file local tasks; which ones is the subject of module Schedule. */
    method ScheduleNext()
      requires Valid() && pc == Pc.Schedule
      modifies this`pc, this`reply, this`trace, queue
      ensures Valid() && pc == PickLast && old(trace) <= trace
      ensures old(queue.files) <= queue.files && forall t :: t in queue.files && t.Remote? ==> t in old(queue.files)
    {
      hide Finds, IsPath, Inv, JournalAt, Downgrade, ValidOutcome, Completed, WireBytes, Rank, FlushMove,
        ReconcileMove, AcceptMove, ExecutionMove;
      var filed: set<TaskId> := *;
      queue.files := queue.files + set t | t in filed && t.Local?;
      Record(PickLast, reply);
    }

    /** The task runs: it may write its result row, and it may fail, which writes a failure row. */
    method Execute(t: TaskId) returns (failed: bool, error: string)
      requires Valid() && pc == Running(t)
      modifies this
      ensures Valid() && old(trace) <= trace && exchanges == old(exchanges)
      ensures pc == if failed then Failed(t) else Succeeded(t)
      ensures results == old(results) || Appended(old(results), results, t)
      ensures if failed then Appended(old(failures), failures, t) else failures == old(failures)
      ensures forall u :: u != t ==> newestRow(u) == old(newestRow)(u)
      ensures failed ==> newestError(t) == error
    {
      hide Finds, IsPath, Inv, JournalAt, RunnerStep, Backed;
      var rowWritten: bool;
      rowWritten, failed, error := *, *, *;
      if rowWritten { WriteRow(t); }
      EndExecution(t, failed);
      if failed { LogFailure(t, error); }
    }

    ghost method EndExecution(t: TaskId, failed: bool)
      requires Valid() && pc == Running(t)
      modifies this`pc, this`reply, this`trace
      ensures Valid() && old(trace) <= trace && pc == if failed then Failing(t) else Succeeded(t)
    {
      hide Finds, IsPath, Inv, JournalAt, Staged, FinishStep, FlushMove, ReconcileMove, AcceptMove, ChoiceMove, Backed;
      Record(if failed then Failing(t) else Succeeded(t), reply);
    }

    /** Appends a result row. */
    method WriteRow(t: TaskId)
      requires Valid() && pc == Running(t)
      modifies this`pc, this`reply, this`trace, this`results, this`newestRow
      ensures Valid() && old(trace) <= trace && pc == Running(t) && Appended(old(results), results, t)
      ensures forall u :: u != t ==> newestRow(u) == old(newestRow)(u)
    {
      hide Finds, IsPath, Inv, JournalAt, Downgrade, ValidOutcome, Completed, WireBytes, Rank, Staged, FinishStep,
        FlushMove, ReconcileMove, AcceptMove, ChoiceMove;
      var bytes: nat := *;
      var row: ResultRow := *;
      var before := newestRow;
      results := results + [Row(t, bytes)];
      newestRow := u => RowAfter(before, t, row, u);
      Record(Running(t), reply);
    }

    /** Appends the failure row. */
    method LogFailure(t: TaskId, error: string)
      requires Valid() && pc == Failing(t)
      modifies this`pc, this`reply, this`trace, this`failures, this`newestError
      ensures Valid() && old(trace) <= trace && pc == Failed(t) && Appended(old(failures), failures, t)
      ensures newestError(t) == error && forall u :: u != t ==> newestError(u) == old(newestError)(u)
    {
      hide Finds, IsPath, Inv, JournalAt, Downgrade, ValidOutcome, Completed, WireBytes, Rank, Staged, FinishStep,
        FlushMove, ReconcileMove, AcceptMove, ChoiceMove;
      var bytes: nat := *;
      var before := newestError;
      failures := failures + [Row(t, bytes)];
      newestError := u => if u == t then error else before(u);
      Record(Failed(t), reply);
    }

    /** Stages the outcome of a task this runner owes the control service. */
    method StageIfOwned(t: TaskId, failed: bool, error: string) returns (ok: bool)
      requires Valid() && pc == if failed then Failed(t) else Succeeded(t)
      modifies this`pc, this`reply, this`trace, journal
      ensures Valid() && old(trace) <= trace && pc == if ok then Finishing(t) else Dead
      ensures OwnsTask(t) == old(OwnsTask(t))
      ensures ok && OwnsTask(t) ==> Staged(old(Now().disk), Now().disk, !failed)
      ensures ok && !OwnsTask(t) ==> journal.active == old(journal.active)
      ensures ok && OwnsTask(t) ==>
        var o := journal.active.value.stage.pending.outcome;
        if failed then ErrorText(o) == error
        else Checked(t, if Finds(results, t) then Some(newestRow(t)) else None, Some(o))
      ensures !ok ==> journal.active == old(journal.active)
      ensures old(Stuck() && OwnsTask(t)) && !failed ==> !ok && Stuck()
    {
      hide Backed, ErrorText, Preflighted, CompletedOutcome, Finds, IsPath, Inv, JournalAt, Downgrade, ValidOutcome,
        Completed, WireBytes, Rank, FlushMove, ReconcileMove, AcceptMove, ChoiceMove;
      ok := true;
      if !OwnsTask(t) {
        Record(Finishing(t), reply);
      } else if failed {
        StageFailure(t, error, Finishing(t));
      } else {
        var row := if Finds(results, t) then Some(newestRow(t)) else None;
        ghost var at: string;
        ok, at := StageSuccess(t, row, Finishing(t));
        if ok && old(Stuck()) {
          RaisedOrNot(CompletedOutcome(t.id, runnerId, at, Reported(t, row)), maxOutcomeBytes,
                      journal.active.value.stage.pending.outcome);
        }
      }
    }

    /** One task: run, stage, delete its file, deliver. False after an exception outside the task. */
    method RunTask(t: TaskId) returns (ok: bool)
      requires Valid() && pc == Running(t)
      modifies Repr()
      ensures Valid() && old(trace) <= trace && pc == if ok then Choose else Dead
      ensures results == old(results) || Appended(old(results), results, t)
      ensures failures == old(failures) || Appended(old(failures), failures, t)
      ensures ok ==> t !in queue.files && (t in old(queue.files) ==> queue.files == old(queue.files) - {t})
      ensures ok && !old(OwnsTask(t)) ==> exchanges == old(exchanges) && journal.active == old(journal.active)
      ensures ok && old(OwnsTask(t)) ==>
        var o := FirstReport(old(Here()), Here());
        && o.Some? && Flushed(t, o.value, journal.active, exchanges[|old(exchanges)|..])
        && (Completed(o.value) <==> failures == old(failures))
        && if failures == old(failures) then Checked(t, if Finds(results, t) then Some(newestRow(t)) else None, o)
           else ErrorText(o.value) == newestError(t)
      ensures !ok ==> journal.active == old(journal.active) && queue.files == old(queue.files)
    {
      hide Finds, IsPath, Inv, JournalAt, ValidOutcome, Completed, WireBytes, Rank, RunnerStep, Backed, Flushed,
        Checked, ErrorText, Stuck;
      ghost var staged;
      ok, staged := ExecuteAndStage(t);
      if !ok { return; }
      FinishAndDeliver(t);
      if staged.Some? { FirstReported(old(Here()), Here(), t, staged.value); }
    }

    /** The task runs, and what it comes to is staged if the control service is owed it. */
    method ExecuteAndStage(t: TaskId) returns (ok: bool, ghost staged: Option<Outcome>)
      requires Valid() && pc == Running(t)
      modifies this, journal
      ensures Valid() && old(trace) <= trace && exchanges == old(exchanges) && pc == if ok then Finishing(t) else Dead
      ensures results == old(results) || Appended(old(results), results, t)
      ensures failures == old(failures) || Appended(old(failures), failures, t)
      ensures !ok || !old(OwnsTask(t)) ==> journal.active == old(journal.active)
      ensures OwnsTask(t) == old(OwnsTask(t)) && staged.Some? == (ok && OwnsTask(t))
      ensures staged.Some? ==>
        && Pends(Now().disk) && staged.value == journal.active.value.stage.pending.outcome
        && (Completed(staged.value) <==> failures == old(failures))
        && if failures == old(failures) then Checked(t, if Finds(results, t) then Some(newestRow(t)) else None, staged)
           else ErrorText(staged.value) == newestError(t)
    {
      hide Finds, IsPath, Inv, JournalAt, ValidOutcome, Completed, RunnerStep, Backed, Checked, ErrorText, Stuck;
      var failed, error := Execute(t);
      ok := StageIfOwned(t, failed, error);
      staged := if ok && OwnsTask(t) then Some(journal.active.value.stage.pending.outcome) else None;
    }

    /** Deletes the task's file and delivers what is staged. */
    method FinishAndDeliver(t: TaskId)
      requires Valid() && pc == Finishing(t)
      modifies this`pc, this`reply, this`trace, this`exchanges, journal, queue
      ensures Valid() && old(trace) <= trace && old(exchanges) <= exchanges && pc == Choose
      ensures t !in queue.files && (t in old(queue.files) ==> queue.files == old(queue.files) - {t})
      ensures !old(OwnsTask(t)) ==> exchanges == old(exchanges) && journal.active == old(journal.active)
      ensures old(OwnsTask(t)) ==>
        old(Pends(Now().disk))
        && Flushed(t, old(journal.active.value.stage.pending.outcome), journal.active, exchanges[|old(exchanges)|..])
    {
      hide Finds, IsPath, Inv, JournalAt, Downgrade, ValidOutcome, Completed, WireBytes, Rank, ReconcileMove,
        AcceptMove, ChoiceMove;
      ghost var d := Now().disk;
      var timestamp: string := *;
      queue.FinishTask(t, timestamp);
      assert t !in d.queue && queue.files != d.queue ==> exists u :: u in d.queue && Unfiled(d, Now().disk, u);
      if OwnsTask(t) {
        StagedHere(t);
        Record(Flush(AtBoundary), reply);
        Deliver(AtBoundary);
      } else {
        Record(Choose, reply);
      }
    }

    /** The idle loop's turn: look at the slot first, then at the queue, then choose anew. */
    method IdleTurn(timeToPoll: bool) returns (ok: bool, task: Option<TaskId>)
      requires Valid() && pc == Idle
      modifies Repr()
      ensures Valid() && old(trace) <= trace && results == old(results) && failures == old(failures)
      ensures pc == if !ok then Dead else match task case Some(t) => Running(t) case None => Idle
      ensures ok && task.Some? ==> !BlocksExecution()
      ensures old(journal.active) == None && old(queue.files) == {} && live && timeToPoll ==>
        old(exchanges) < exchanges && exchanges[|old(exchanges)|].request == AskTask
      ensures old(exchanges) <= exchanges
    {
      hide Finds, IsPath, Inv, JournalAt, FlushMove, ReconcileMove, AcceptMove, ExecutionMove, Backed, Stuck;
      ok := true;
      if journal.active.Some? {
        Record(Choose, reply);
        ok, task := ChooseNext();
        return;
      }
      Record(IdlePick, reply);
      task := PickTask(if timeToPoll then Choose else Idle);
      if task == None && timeToPoll { ok, task := ChooseNext(); }
    }

    /** The first `rounds` turns of `run`: all of it is one path of the machine. */
    method Run(rounds: nat) returns (ok: bool)
      requires Valid() && pc == Choose
      modifies Repr(), this
      ensures Valid() && old(trace) <= trace
      ensures !ok ==> pc == Dead
      ensures old(Stuck()) ==> !ok && Now().disk == old(Now().disk)
    {
      hide Stuck, IsPath, Inv, JournalAt, RunnerStep;
      var task: Option<TaskId>;
      ok, task := ChooseNext();
      for round := 0 to rounds
        invariant Valid() && old(trace) <= trace
        invariant pc == if !ok then Dead else match task case Some(t) => Running(t) case None => Idle
        invariant old(Stuck()) ==> !ok && Now().disk == old(Now().disk)
      {
        if !ok { return; }
        if task == None {
          var timeToPoll: bool := *;
          ok, task := IdleTurn(timeToPoll);
        } else {
          ok := RunTask(task.value);
          if ok { ok, task := ChooseNext(); }
        }
      }
    }
  }
}
