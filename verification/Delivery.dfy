/** The runner as a machine of atomic steps: every journal write, queue file change, log append and
    control-service reply is one step, and a crash keeps only what is on disk. */
module Delivery {
  import opened Text
  import Json
  import opened Ladder
  import opened RowLog

  datatype Stage = Claimed | Imported | Accepted | OutcomePending(pending: Pending)

  datatype Active = Active(id: TaskId, stage: Stage)

  datatype Disk = Disk(active: Option<Active>, queue: set<TaskId>, results: Log, failures: Log)

  /** Where a reconcile was called from: the second poll of a choice, and the call right after a claim. */
  datatype Site = Site(late: bool, afterClaim: bool)

  datatype Caller = AtBoundary | InReconcile(site: Site) | Unloadable(site: Site, id: TaskId)

  datatype Pc =
    | Choose
    | Reconcile(site: Site)
    | MarkImported(site: Site)
    | Accept(site: Site)
    | MarkAccepted(site: Site)
    | HandOver(site: Site)
    | DropRefused(site: Site)
    | ClearRefused(site: Site)
    | Unfile(site: Site)
    | Flush(caller: Caller)
    | FlushRefused(caller: Caller, refusal: Refusal)
    | FlushDelivered(caller: Caller)
    | FlushReturn(caller: Caller)
    | RemoveUnloadable(site: Site, id: TaskId)
    | PollReturn(site: Site)
    | Claim(late: bool)
    | PickLocal
    | Schedule
    | PickLast
    | Idle
    | IdlePick
    | Running(id: TaskId)
    | Failing(id: TaskId)
    | Succeeded(id: TaskId)
    | Failed(id: TaskId)
    | Finishing(id: TaskId)
    | Dead

  /** The control service's latest answer, as long as this process lives. */
  datatype Reply =
    | NoReply
    | AcceptedReply(id: TaskId)
    | RefusedAccept(id: TaskId)
    | Confirmed(id: TaskId, outcome: Outcome)
    | RefusedOutcome(id: TaskId, outcome: Outcome)

  datatype State = State(disk: Disk, pc: Pc, reply: Reply)

  predicate Owns(d: Disk, t: TaskId) { d.active.Some? && d.active.value.id == t }

  predicate Pends(d: Disk) { d.active.Some? && d.active.value.stage.OutcomePending? }

  predicate Blocks(d: Disk) { d.active.Some? && (d.active.value.stage.Claimed? || d.active.value.stage.Imported?) }

  predicate HasRow(d: Disk, t: TaskId) { Holds(d.results, t) || Holds(d.failures, t) }

  /** What the runner can know of it: a lookup reaches only the end of each log. */
  predicate FindsRow(d: Disk, t: TaskId) { Finds(d.results, t) || Finds(d.failures, t) }

  function StageRank(s: Stage): nat {
    match s case Claimed => 0 case Imported => 1 case Accepted => 2 case OutcomePending(_) => 3
  }

  function AfterPoll(d: Disk, late: bool): Pc {
    if Blocks(d) then Idle else if late then Schedule else PickLocal
  }

  // ----- steps -----

  /** A first outcome for the active task goes into the journal. */
  ghost predicate Staged(d: Disk, d': Disk, completed: bool) {
    && d.active.Some? && Pends(d')
    && d' == d.(active := Some(Active(d.active.value.id, d'.active.value.stage)))
    && var p := d'.active.value.stage.pending;
       ValidOutcome(p.outcome) && Completed(p.outcome) == completed && (completed ==> p.rejections == [])
  }

  ghost predicate SetStage(d: Disk, d': Disk, stage: Stage) {
    d.active.Some? && d' == d.(active := Some(Active(d.active.value.id, stage)))
  }

  ghost predicate Unfiled(d: Disk, d': Disk, t: TaskId) { d' == d.(queue := d.queue - {t}) }

  /** Files of local tasks come and go at any time. */
  ghost predicate LocalFilesChange(d: Disk, d': Disk) {
    && d' == d.(queue := d'.queue)
    && forall t: TaskId :: t.Remote? ==> (t in d'.queue <==> t in d.queue)
  }

  /** `get_next_task`: hand out a file, or set one aside and report none, or find none. */
  ghost predicate Picks(s: State, s': State, otherwise: set<Pc>) {
    || (s'.pc.Running? && s'.pc.id in s.disk.queue && s'.disk == s.disk)
    || (s'.pc in otherwise && s'.disk == s.disk && s.disk.queue == {})
    || (s'.pc in otherwise && exists t :: t in s.disk.queue && Unfiled(s.disk, s'.disk, t))
  }

  ghost predicate ReconcileStep(s: State, s': State, site: Site) {
    var d, d' := s.disk, s'.disk;
    if d.active == None then
      s'.pc == PollReturn(site) && d' == d
    else if Pends(d) then
      s'.pc == Flush(InReconcile(site)) && d' == d
    else
      var a := d.active.value;
      || (s'.pc == Flush(Unloadable(site, a.id)) && Staged(d, d', false))
      || (Finds(d.results, a.id) && s'.pc == Unfile(site) && Staged(d, d', true))
      || (!Finds(d.results, a.id) && Finds(d.failures, a.id) && s'.pc == Unfile(site) && Staged(d, d', false))
      || (!FindsRow(d, a.id) && a.stage.Claimed? && s'.pc == MarkImported(site) && d' == d.(queue := d.queue + {a.id}))
      || (!FindsRow(d, a.id) && a.stage.Imported? && s'.pc == Accept(site) && d' == d)
      || (!FindsRow(d, a.id) && a.stage.Accepted? && s'.pc == HandOver(site) && d' == d)
  }

  ghost predicate AcceptStep(s: State, s': State, site: Site) {
    && s.disk.active.Some? && s'.disk == s.disk
    && var id := s.disk.active.value.id;
       if id !in s.disk.queue then s'.pc == Dead && s'.reply == s.reply
       else
         || (s'.pc == MarkAccepted(site) && s'.reply == AcceptedReply(id))
         || (s'.pc == DropRefused(site) && s'.reply == RefusedAccept(id))
         || (s'.pc == PollReturn(site) && s'.reply == NoReply)
  }

  ghost predicate FlushStep(s: State, s': State, caller: Caller) {
    && s'.disk == s.disk
    && if !Pends(s.disk) then s'.pc == FlushReturn(caller) && s'.reply == s.reply
       else
         var id, o := s.disk.active.value.id, s.disk.active.value.stage.pending.outcome;
         || (s'.pc == FlushDelivered(caller) && s'.reply == Confirmed(id, o))
         || (s'.pc == FlushReturn(caller) && s'.reply == NoReply)
         || (s'.pc.FlushRefused? && s'.pc.caller == caller && s'.reply == RefusedOutcome(id, o))
  }

  ghost predicate DowngradeStep(s: State, s': State, caller: Caller, refusal: Refusal) {
    && Pends(s.disk) && s'.pc == Flush(caller)
    && exists runnerId, at :: Downgraded(s.disk, s'.disk, runnerId, at, refusal)
  }

  ghost predicate Downgraded(d: Disk, d': Disk, runnerId: string, at: string, refusal: Refusal)
    requires Pends(d)
  {
    match Downgrade(d.active.value.id.id, runnerId, at, d.active.value.stage.pending, refusal)
    case Some(q) => SetStage(d, d', OutcomePending(q))
    case None => d' == d.(active := None)
  }

  lemma DowngradeIsStep(s: State, s': State, caller: Caller, refusal: Refusal, runnerId: string, at: string)
    requires Pends(s.disk) && s'.pc == Flush(caller) && Downgraded(s.disk, s'.disk, runnerId, at, refusal)
    ensures DowngradeStep(s, s', caller, refusal)
  {}

  function FlushedTo(caller: Caller): Pc {
    match caller
    case AtBoundary => Choose
    case InReconcile(site) => PollReturn(site)
    case Unloadable(site, id) => RemoveUnloadable(site, id)
  }

  ghost predicate PollReturnStep(s: State, s': State, site: Site) {
    && s'.disk == s.disk
    && (s'.pc == AfterPoll(s.disk, site.late)
        || (s.disk.active == None && !site.afterClaim && s.disk.queue == {} && s'.pc == Claim(site.late)))
  }

  ghost predicate ClaimStep(s: State, s': State, late: bool) {
    || (s'.disk == s.disk && s'.pc == AfterPoll(s.disk, late))
    || (s'.pc == Reconcile(Site(late, true)) && s'.disk.active.Some?
        && s'.disk.active.value.id.Remote? && s'.disk.active.value.stage.Claimed?
        && s'.disk == s.disk.(active := s'.disk.active))
  }

  ghost predicate FinishStep(s: State, s': State, t: TaskId) {
    && (t in s.disk.queue ==> Unfiled(s.disk, s'.disk, t))
    && (t !in s.disk.queue ==>
         s'.disk == s.disk || exists u :: u in s.disk.queue && Unfiled(s.disk, s'.disk, u))
    && s'.pc == if Owns(s.disk, t) then Flush(AtBoundary) else Choose
  }

  /** Steps that deliver a staged outcome. */
  ghost predicate FlushMove(s: State, s': State) {
    var d, d' := s.disk, s'.disk;
    match s.pc
    case Flush(caller) => FlushStep(s, s', caller)
    case FlushRefused(caller, refusal) => s'.reply == s.reply && DowngradeStep(s, s', caller, refusal)
    case FlushDelivered(caller) => s'.reply == s.reply && d' == d.(active := None) && s'.pc == FlushReturn(caller)
    case FlushReturn(caller) => s'.reply == s.reply && d' == d && s'.pc == FlushedTo(caller)
    case _ => false
  }

  /** Steps that recover the task the journal holds. */
  ghost predicate ReconcileMove(s: State, s': State) {
    var d, d' := s.disk, s'.disk;
    match s.pc
    case Reconcile(site) => s'.reply == s.reply && ReconcileStep(s, s', site)
    case MarkImported(site) => s'.reply == s.reply && SetStage(d, d', Imported) && s'.pc == Accept(site)
    case HandOver(site) =>
      s'.reply == s.reply && d' == d && d.active.Some?
      && s'.pc == if d.active.value.id in d.queue then Running(d.active.value.id) else Dead
    case Unfile(site) =>
      s'.reply == s.reply && d.active.Some? && Unfiled(d, d', d.active.value.id) && s'.pc == Flush(InReconcile(site))
    case RemoveUnloadable(site, id) => s'.reply == s.reply && Unfiled(d, d', id) && s'.pc == PollReturn(site)
    case _ => false
  }

  /** Steps that confirm a claim with the control service. */
  ghost predicate AcceptMove(s: State, s': State) {
    var d, d' := s.disk, s'.disk;
    match s.pc
    case Accept(site) => AcceptStep(s, s', site)
    case MarkAccepted(site) => s'.reply == s.reply && SetStage(d, d', Accepted) && s'.pc == HandOver(site)
    case DropRefused(site) =>
      s'.reply == s.reply && d.active.Some? && Unfiled(d, d', d.active.value.id) && s'.pc == ClearRefused(site)
    case ClearRefused(site) => s'.reply == s.reply && d' == d.(active := None) && s'.pc == PollReturn(site)
    case _ => false
  }

  /** Steps that look for something to run. */
  ghost predicate ChoiceMove(s: State, s': State) {
    var d, d' := s.disk, s'.disk;
    match s.pc
    case Choose => d' == d && s'.reply == s.reply
      && s'.pc == if d.active.Some? then Reconcile(Site(false, false)) else PickLocal
    case PollReturn(site) => s'.reply == s.reply && PollReturnStep(s, s', site)
    case Claim(late) => s'.reply == NoReply && ClaimStep(s, s', late)
    case PickLocal => s'.reply == s.reply && Picks(s, s', {Reconcile(Site(true, false))})
    case Schedule => s'.reply == s.reply && LocalFilesChange(d, d') && s'.pc == PickLast
    case PickLast => s'.reply == s.reply && Picks(s, s', {Idle})
    case Idle => s'.reply == s.reply && d' == d && s'.pc == if d.active.Some? then Choose else IdlePick
    case IdlePick => s'.reply == s.reply && Picks(s, s', {Idle, Choose})
    case _ => false
  }

  /** Steps that run a task and stage its outcome. */
  ghost predicate ExecutionMove(s: State, s': State) {
    var d, d' := s.disk, s'.disk;
    match s.pc
    case Running(t) =>
      s'.reply == s.reply
      && ((d' == d.(results := d'.results) && Appended(d.results, d'.results, t) && s'.pc == s.pc)
        || (d' == d && s'.pc in {Succeeded(t), Failing(t)}))
    case Failing(t) =>
      s'.reply == s.reply && d' == d.(failures := d'.failures) && Appended(d.failures, d'.failures, t)
        && s'.pc == Failed(t)
    case Succeeded(t) => s'.reply == s.reply && s'.pc == Finishing(t)
      && if Owns(d, t) then Staged(d, d', true) else d' == d
    case Failed(t) => s'.reply == s.reply && s'.pc == Finishing(t)
      && if Owns(d, t) then Staged(d, d', false) else d' == d
    case Finishing(t) => s'.reply == s.reply && FinishStep(s, s', t)
    case _ => false
  }

  /** The next atomic step of the runner process. */
  ghost predicate RunnerStep(s: State, s': State) {
    FlushMove(s, s') || ReconcileMove(s, s') || AcceptMove(s, s') || ChoiceMove(s, s') || ExecutionMove(s, s')
  }

  /** An exception that leaves the process, at any point. */
  ghost predicate Dies(s: State, s': State) { s' == s.(pc := Dead) }

  /** The process is gone and a new one starts from the disk. */
  ghost predicate Crash(s: State, s': State) { s' == State(s.disk, Choose, NoReply) }

  ghost predicate Elsewhere(s: State, s': State) {
    LocalFilesChange(s.disk, s'.disk) && s' == s.(disk := s'.disk)
  }

  ghost predicate Next(s: State, s': State) {
    RunnerStep(s, s') || Dies(s, s') || Crash(s, s') || Elsewhere(s, s')
  }

  /** A queue file of a remote task whose delivery is over or already has an outcome. */
  predicate StaleFile(d: Disk, t: TaskId) {
    t.Remote? && t in d.queue && (!Owns(d, t) || Pends(d))
  }

  /** If the journal holds a task without an outcome that has a row, a lookup finds one of its rows. */
  predicate Readable(d: Disk) {
    d.active.Some? && !Pends(d) && HasRow(d, d.active.value.id) ==> FindsRow(d, d.active.value.id)
  }

  /** Fit to be restarted from. */
  ghost predicate Settled(d: Disk) { Readable(d) && forall t :: !StaleFile(d, t) }

  /** The process is lost only on a settled disk, and what is claimed has no row out of reach. */
  ghost predicate CleanNext(s: State, s': State) {
    || (RunnerStep(s, s') && (s.pc.Claim? ==> Readable(s'.disk)))
    || Elsewhere(s, s')
    || ((Dies(s, s') || Crash(s, s')) && Settled(s.disk))
  }

  ghost predicate Initial(s: State) {
    s.pc == Choose && s.reply == NoReply && s.disk.active == None && forall t :: t in s.disk.queue ==> t.Local?
  }

  type Run = seq<State>

  ghost predicate IsRun(run: Run) {
    && run != [] && Initial(run[0])
    && forall i :: 0 <= i < |run| - 1 ==> Next(run[i], run[i + 1])
  }

  ghost predicate IsCleanPath(run: Run) {
    run != [] && forall i :: 0 <= i < |run| - 1 ==> CleanNext(run[i], run[i + 1])
  }

  ghost predicate IsCleanRun(run: Run) { IsCleanPath(run) && Initial(run[0]) }

  // ----- what every step keeps, wherever the process crashes -----

  /** What the journal must show at each point of the program. */
  ghost predicate JournalAt(s: State) {
    var d := s.disk;
    match s.pc
    case Choose | Idle | Dead => true
    case Schedule | PickLast | PickLocal | IdlePick | FlushReturn(_) => d.active == None || Pends(d)
    case PollReturn(_) => d.active == None || Pends(d) || d.active.value.stage.Imported?
    case Reconcile(site) => site.afterClaim ==> d.active.Some? && d.active.value.stage.Claimed?
    case MarkImported(_) => d.active.Some? && d.active.value.stage.Claimed? && !FindsRow(d, d.active.value.id)
    case Accept(_) | MarkAccepted(_) =>
      d.active.Some? && d.active.value.stage.Imported? && !FindsRow(d, d.active.value.id)
    case DropRefused(_) | ClearRefused(_) =>
      d.active.Some? && d.active.value.stage.Imported? && !FindsRow(d, d.active.value.id)
      && s.reply == RefusedAccept(d.active.value.id)
      && (s.pc.ClearRefused? ==> d.active.value.id !in d.queue)
    case HandOver(_) => d.active.Some? && d.active.value.stage.Accepted? && !FindsRow(d, d.active.value.id)
    case Unfile(_) => Pends(d)
    case Flush(_) => d.active == None || Pends(d)
    case FlushRefused(_, _) => Pends(d)
      && s.reply == RefusedOutcome(d.active.value.id, d.active.value.stage.pending.outcome)
    case FlushDelivered(_) => Pends(d) && s.reply == Confirmed(d.active.value.id, d.active.value.stage.pending.outcome)
    case RemoveUnloadable(_, _) => d.active == None || Pends(d)
    case Claim(_) => d.active == None && forall t :: t in d.queue ==> t.Local?
    case Running(t) => d.active == None || Pends(d) || d.active == Some(Active(t, Accepted))
    case Failing(t) => d.active == None || Pends(d) || d.active == Some(Active(t, Accepted))
    case Succeeded(t) => d.active == None || Pends(d) || d.active == Some(Active(t, Accepted))
    case Failed(t) => d.active == None || Pends(d) || d.active == Some(Active(t, Accepted))
    case Finishing(t) => d.active == None || Pends(d)
  }

  ghost predicate Inv(s: State) {
    && (s.disk.active.Some? ==> s.disk.active.value.id.Remote?)
    && (s.disk.active.Some? ==> forall t: TaskId :: t.Remote? && t in s.disk.queue ==> Owns(s.disk, t))
    && (Pends(s.disk) ==> ValidOutcome(s.disk.active.value.stage.pending.outcome))
    && JournalAt(s)
  }

  lemma DowngradeKeepsInv(s: State, s': State, caller: Caller, refusal: Refusal)
    requires Inv(s) && s.pc == FlushRefused(caller, refusal) && DowngradeStep(s, s', caller, refusal)
      && s'.reply == s.reply
    ensures Inv(s')
  {
    var runnerId, at :| Downgraded(s.disk, s'.disk, runnerId, at, refusal);
    DowngradeStepsDown(s.disk.active.value.id.id, runnerId, at, s.disk.active.value.stage.pending, refusal);
  }

  lemma FlushKeepsInv(s: State, s': State)
    requires Inv(s) && FlushMove(s, s')
    ensures Inv(s')
  {
    hide Downgrade, ValidOutcome, Completed, Finds;
    if s.pc.FlushRefused? { DowngradeKeepsInv(s, s', s.pc.caller, s.pc.refusal); }
  }

  lemma ReconcileKeepsInv(s: State, s': State)
    requires Inv(s) && ReconcileMove(s, s')
    ensures Inv(s')
  {
    hide ValidOutcome, Completed, Finds;
  }

  lemma AcceptKeepsInv(s: State, s': State)
    requires Inv(s) && AcceptMove(s, s')
    ensures Inv(s')
  {
    hide ValidOutcome, Completed, Finds;
  }

  lemma ChoiceKeepsInv(s: State, s': State)
    requires Inv(s) && ChoiceMove(s, s')
    ensures Inv(s')
  {
    hide ValidOutcome, Completed, Finds;
  }

  lemma ExecutionKeepsInv(s: State, s': State)
    requires Inv(s) && ExecutionMove(s, s')
    ensures Inv(s')
  {
    hide ValidOutcome, Completed, Finds, Appended;
  }

  lemma LossKeepsInv(s: State, s': State)
    requires Inv(s) && (Dies(s, s') || Crash(s, s') || Elsewhere(s, s'))
    ensures Inv(s')
  {
    hide ValidOutcome, Finds;
  }

  lemma StepKeepsInv(s: State, s': State)
    requires Inv(s) && Next(s, s')
    ensures Inv(s')
  {
    hide FlushMove, ReconcileMove, AcceptMove, ChoiceMove, ExecutionMove, Inv;
    if FlushMove(s, s') {
      FlushKeepsInv(s, s');
    } else if ReconcileMove(s, s') {
      ReconcileKeepsInv(s, s');
    } else if AcceptMove(s, s') {
      AcceptKeepsInv(s, s');
    } else if ChoiceMove(s, s') {
      ChoiceKeepsInv(s, s');
    } else if ExecutionMove(s, s') {
      ExecutionKeepsInv(s, s');
    } else {
      LossKeepsInv(s, s');
    }
  }

  lemma {:induction false} RunKeepsInv(run: Run, i: nat)
    requires IsRun(run) && i < |run|
    ensures Inv(run[i])
  {
    if i > 0 {
      RunKeepsInv(run, i - 1);
      StepKeepsInv(run[i - 1], run[i]);
    }
  }

  /** The task whose file is about to go because its outcome was just staged. */
  function LeavingTask(s: State): Option<TaskId> {
    match s.pc
    case Unfile(_) => if s.disk.active.Some? then Some(s.disk.active.value.id) else None
    case Finishing(t) => Some(t)
    case Flush(Unloadable(_, t)) => Some(t)
    case FlushRefused(Unloadable(_, t), _) => Some(t)
    case FlushDelivered(Unloadable(_, t)) => Some(t)
    case FlushReturn(Unloadable(_, t)) => Some(t)
    case RemoveUnloadable(_, t) => Some(t)
    case _ => None
  }

  /** Between staging an outcome and deleting the queue file of its task. */
  predicate InWindow(s: State) { LeavingTask(s).Some? }

  predicate InExecution(pc: Pc) { pc.Running? || pc.Failing? || pc.Succeeded? || pc.Failed? }

  /** A remote task being run is the accepted one, its file is there, and its rows end the logs. */
  ghost predicate RunsAccepted(s: State) {
    InExecution(s.pc) && s.pc.id.Remote? ==>
      && s.disk.active == Some(Active(s.pc.id, Accepted)) && s.pc.id in s.disk.queue
      && NewestIs(s.disk.results, s.pc.id) && NewestIs(s.disk.failures, s.pc.id)
  }

  /** Without a crash on an unsettled disk: stale files exist only in the window, rows are out of reach only while
      their task runs, and a running remote task is the accepted one. */
  ghost predicate CleanInv(s: State) {
    && Inv(s)
    && (forall t :: StaleFile(s.disk, t) ==> LeavingTask(s) == Some(t))
    && (Readable(s.disk) || (InExecution(s.pc) && s.pc.id.Remote?))
    && RunsAccepted(s)
  }

  lemma StepKeepsFilesFresh(s: State, s': State, t: TaskId)
    requires CleanInv(s) && CleanNext(s, s') && Inv(s') && StaleFile(s'.disk, t)
    ensures LeavingTask(s') == Some(t)
  {
    hide Downgrade, ValidOutcome, Completed, Readable, RunsAccepted, FindsRow, HasRow, Appended;
    if StaleFile(s.disk, t) {
      assert LeavingTask(s) == Some(t);
    } else {
      assert t in s.disk.queue || s.pc.Reconcile?;
    }
  }

  /** The logs grow only by rows of the task being run. */
  lemma LogsStay(s: State, s': State)
    requires Next(s, s')
    ensures (s'.disk.results == s.disk.results && s'.disk.failures == s.disk.failures)
      || (s.pc.Running? && s'.pc == s.pc && s'.disk.active == s.disk.active && s'.disk.queue == s.disk.queue
          && s'.disk.failures == s.disk.failures && Appended(s.disk.results, s'.disk.results, s.pc.id))
      || (s.pc.Failing? && s'.pc == Failed(s.pc.id) && s'.disk.active == s.disk.active && s'.disk.queue == s.disk.queue
          && s'.disk.results == s.disk.results && Appended(s.disk.failures, s'.disk.failures, s.pc.id))
  {
    hide Downgrade, ValidOutcome, Completed, FindsRow, Finds, Appended;
  }

  /** A remote task starts from a handover, or as a stale file. */
  lemma StartsFrom(s: State, s': State, t: TaskId)
    requires Inv(s) && CleanNext(s, s') && InExecution(s'.pc) && s'.pc.id == t && t.Remote? && !InExecution(s.pc)
    ensures s.pc.HandOver? || (StaleFile(s.disk, t) && LeavingTask(s) == None)
    ensures s.pc.HandOver? ==>
      s'.disk == s.disk && s.disk.active == Some(Active(t, Accepted)) && t in s.disk.queue && !FindsRow(s.disk, t)
  {
    hide Downgrade, ValidOutcome, Completed, FindsRow, HasRow, Appended;
  }

  /** What starts is what was accepted, unless a stale file starts. */
  lemma StartIsAccepted(s: State, s': State)
    requires CleanInv(s) && CleanNext(s, s') && InExecution(s'.pc) && s'.pc.id.Remote? && !InExecution(s.pc)
    ensures s.pc.HandOver? && s'.disk == s.disk && s'.disk.active == Some(Active(s'.pc.id, Accepted))
    ensures s'.pc.id in s.disk.queue && !FindsRow(s.disk, s'.pc.id) && !HasRow(s.disk, s'.pc.id)
  {
    hide CleanNext, FindsRow, HasRow, JournalAt, LeavingTask, StaleFile;
    var t := s'.pc.id;
    StartsFrom(s, s', t);
    assert StaleFile(s.disk, t) ==> LeavingTask(s) == Some(t);
  }

  lemma StepKeepsExecution(s: State, s': State)
    requires CleanInv(s) && CleanNext(s, s') && InExecution(s.pc) && InExecution(s'.pc)
    ensures RunsAccepted(s')
  {
    hide Downgrade, ValidOutcome, Completed, FindsRow, HasRow, NewestIs, Appended;
    if s'.pc.id.Remote? {
      assert s'.pc.id == s.pc.id;
      LogsStay(s, s');
      if Appended(s.disk.results, s'.disk.results, s.pc.id) {
        AppendHolds(s.disk.results, s'.disk.results, s.pc.id, s.pc.id);
      }
      if Appended(s.disk.failures, s'.disk.failures, s.pc.id) {
        AppendHolds(s.disk.failures, s'.disk.failures, s.pc.id, s.pc.id);
      }
    }
  }

  lemma StepKeepsReadable(s: State, s': State)
    requires CleanInv(s) && CleanNext(s, s') && !(InExecution(s'.pc) && s'.pc.id.Remote?)
    ensures Readable(s'.disk)
  {
    hide Downgrade, ValidOutcome, Completed, Finds, Holds, Appended;
    LogsStay(s, s');
  }

  lemma StepKeepsCleanInv(s: State, s': State)
    requires CleanInv(s) && CleanNext(s, s')
    ensures CleanInv(s')
  {
    hide CleanNext, Inv, Readable, RunsAccepted, LeavingTask, StaleFile;
    assert Next(s, s') by { CleanIsNext(s, s'); }
    StepKeepsInv(s, s');
    forall t | StaleFile(s'.disk, t) ensures LeavingTask(s') == Some(t) {
      StepKeepsFilesFresh(s, s', t);
    }
    if InExecution(s'.pc) && s'.pc.id.Remote? {
      if InExecution(s.pc) {
        StepKeepsExecution(s, s');
      } else {
        StartIsAccepted(s, s');
        StartRuns(s, s');
      }
    } else {
      StepKeepsReadable(s, s');
      LocalRuns(s');
    }
  }

  lemma CleanIsNext(s: State, s': State)
    requires CleanNext(s, s')
    ensures Next(s, s')
  {}

  lemma StartRuns(s: State, s': State)
    requires InExecution(s'.pc) && s'.disk == s.disk && s'.disk.active == Some(Active(s'.pc.id, Accepted))
    requires s'.pc.id in s.disk.queue && !HasRow(s.disk, s'.pc.id)
    ensures RunsAccepted(s')
  {}

  lemma LocalRuns(s: State)
    requires !(InExecution(s.pc) && s.pc.id.Remote?)
    ensures RunsAccepted(s)
  {}

  lemma {:induction false} CleanPathKeepsInv(run: Run, i: nat)
    requires IsCleanPath(run) && CleanInv(run[0]) && i < |run|
    ensures CleanInv(run[i])
  {
    if i > 0 {
      CleanPathKeepsInv(run, i - 1);
      StepKeepsCleanInv(run[i - 1], run[i]);
    }
  }

  /** The step that starts a task. */
  predicate Starts(s: State, s': State, t: TaskId) { s'.pc == Running(t) && !s.pc.Running? }

  /** Without a crash on an unsettled disk, a remote task starts only with its acceptance journaled and no row of
      it anywhere in the logs. */
  lemma FinishedTaskIsNeverStartedAgain(run: Run, i: nat, t: TaskId)
    requires IsCleanRun(run) && i + 1 < |run| && t.Remote? && Starts(run[i], run[i + 1], t)
    ensures !HasRow(run[i].disk, t)
    ensures run[i].disk.active == Some(Active(t, Accepted))
  {
    StartIsSafe(run, i, t);
  }

  /** Wherever the process crashes: a remote task whose file is not stale starts only with its acceptance journaled
      and no row of it within reach of a lookup. */
  lemma StartFindsNoRow(run: Run, i: nat, t: TaskId)
    requires IsRun(run) && i + 1 < |run| && t.Remote? && Starts(run[i], run[i + 1], t) && !StaleFile(run[i].disk, t)
    ensures !FindsRow(run[i].disk, t)
    ensures run[i].disk.active == Some(Active(t, Accepted))
  {
    RunKeepsInv(run, i);
    assert Next(run[i], run[i + 1]);
    hide IsRun, Finds, Downgrade, ValidOutcome, Completed, Appended;
  }

  /** Wherever the process crashes, the task the journal holds as claimed or imported is not started. */
  lemma BlockedTaskIsNeverStarted(run: Run, i: nat, t: TaskId)
    requires IsRun(run) && i + 1 < |run| && Starts(run[i], run[i + 1], t)
    ensures run[i].disk.active.Some? ==>
      !run[i].disk.active.value.stage.Claimed? && !run[i].disk.active.value.stage.Imported?
    ensures Owns(run[i].disk, t) ==> run[i].disk.active.value.stage.Accepted? || Pends(run[i].disk)
  {
    RunKeepsInv(run, i);
    RunKeepsInv(run, i + 1);
  }

  /** The slot empties only on a confirmed report, a refused accept, or the refusal of the final failure report. */
  lemma SlotClearedOnlyWhenSettled(run: Run, i: nat)
    requires IsRun(run) && i + 1 < |run| && run[i].disk.active.Some? && run[i + 1].disk.active == None
    ensures var a := run[i].disk.active.value;
      || run[i].reply == RefusedAccept(a.id)
      || (a.stage.OutcomePending? && run[i].reply == Confirmed(a.id, a.stage.pending.outcome))
      || (a.stage.OutcomePending? && Final(a.stage.pending.outcome)
          && run[i].reply == RefusedOutcome(a.id, a.stage.pending.outcome))
  {
    RunKeepsInv(run, i);
    var s, s' := run[i], run[i + 1];
    assert Next(s, s');
    if s.pc.FlushRefused? {
      var runnerId, at :| Downgraded(s.disk, s'.disk, runnerId, at, s.pc.refusal);
      DowngradeStepsDown(s.disk.active.value.id.id, runnerId, at, s.disk.active.value.stage.pending, s.pc.refusal);
    }
  }

  /** A delivery in the slot keeps its task, and its stage never goes back. */
  lemma StageNeverGoesBack(run: Run, i: nat)
    requires IsRun(run) && i + 1 < |run| && run[i].disk.active.Some? && run[i + 1].disk.active.Some?
    ensures run[i].disk.active.value.id == run[i + 1].disk.active.value.id
    ensures StageRank(run[i].disk.active.value.stage) <= StageRank(run[i + 1].disk.active.value.stage)
  {
    RunKeepsInv(run, i);
    assert Next(run[i], run[i + 1]);
  }

  /** A claim is decided on only with the slot and the queue empty, and fills the slot only while it is empty. */
  lemma ClaimsOnlyWhenIdle(run: Run, i: nat)
    requires IsRun(run) && i + 1 < |run|
    ensures run[i + 1].pc.Claim? && !run[i].pc.Claim? ==> run[i].disk.active == None && run[i].disk.queue == {}
    ensures run[i].disk.active == None && run[i + 1].disk.active.Some? ==>
      run[i].pc.Claim? && run[i + 1].disk.active.value.stage.Claimed? && forall t :: t in run[i].disk.queue ==> t.Local?
  {
    RunKeepsInv(run, i);
    assert Next(run[i], run[i + 1]);
  }

  /** A refused outcome is never what the journal offers next, and each persisted downgrade lowers the rank. */
  lemma RefusedOutcomeIsReplaced(run: Run, i: nat)
    requires IsRun(run) && i + 1 < |run| && Pends(run[i].disk) && Pends(run[i + 1].disk)
    requires run[i].pc.FlushRefused? && run[i + 1].pc.Flush?
    ensures var p, q := run[i].disk.active.value.stage.pending, run[i + 1].disk.active.value.stage.pending;
      && run[i].reply == RefusedOutcome(run[i].disk.active.value.id, p.outcome)
      && q.outcome != p.outcome && Rank(q) < Rank(p)
  {
    RunKeepsInv(run, i);
    var s, s' := run[i], run[i + 1];
    assert Next(s, s');
    var runnerId, at :| Downgraded(s.disk, s'.disk, runnerId, at, s.pc.refusal);
    DowngradeStepsDown(s.disk.active.value.id.id, runnerId, at, s.disk.active.value.stage.pending, s.pc.refusal);
  }

  // ----- the window -----

  /** A run so far without a crash on an unsettled disk has stale files only in the window, and only of the leaving
      task. */
  lemma StaleOnlyInWindow(run: Run, i: nat, t: TaskId)
    requires IsCleanRun(run) && i < |run| && StaleFile(run[i].disk, t)
    ensures LeavingTask(run[i]) == Some(t)
  {
    CleanPathKeepsInv(run, i);
  }

  ghost predicate IsPath(run: Run) {
    run != [] && forall i :: 0 <= i < |run| - 1 ==> Next(run[i], run[i + 1])
  }

  /** From a restart with a stale file there is a continuation that starts its task again. */
  lemma StaleFileIsStartedAgain(d: Disk, t: TaskId) returns (path: Run)
    requires Inv(State(d, Choose, NoReply)) && StaleFile(d, t)
    ensures |path| >= 2 && IsCleanPath(path) && path[0] == State(d, Choose, NoReply)
    ensures Starts(path[|path| - 2], path[|path| - 1], t) && path[|path| - 2].disk == d
  {
    hide Downgrade, ValidOutcome, Completed, AcceptMove, ExecutionMove, Elsewhere, Crash, Dies;
    var c := State(d, Choose, NoReply);
    if d.active == None {
      var p := State(d, PickLocal, NoReply);
      path := [c, p, State(d, Running(t), NoReply)];
      assert RunnerStep(c, p) && RunnerStep(p, State(d, Running(t), NoReply));
    } else {
      assert Pends(d);
      var site := Site(false, false);
      var r := State(d, Reconcile(site), NoReply);
      var f := State(d, Flush(InReconcile(site)), NoReply);
      var g := State(d, FlushReturn(InReconcile(site)), NoReply);
      var q := State(d, PollReturn(site), NoReply);
      var p := State(d, PickLocal, NoReply);
      var e := State(d, Running(t), NoReply);
      path := [c, r, f, g, q, p, e];
      assert RunnerStep(c, r) && RunnerStep(r, f) && RunnerStep(f, g) && RunnerStep(g, q) && RunnerStep(q, p)
        && RunnerStep(p, e);
    }
  }

  /** From a restart whose accepted task has only rows out of reach, the task is run again. */
  lemma UnreadableIsStartedAgain(d: Disk, t: TaskId) returns (path: Run)
    requires d.active == Some(Active(t, Accepted)) && t in d.queue && !FindsRow(d, t)
    ensures |path| >= 2 && IsCleanPath(path) && path[0] == State(d, Choose, NoReply)
    ensures Starts(path[|path| - 2], path[|path| - 1], t) && path[|path| - 2].disk == d
  {
    hide Finds, Downgrade, ValidOutcome, Completed, FlushMove, AcceptMove, ExecutionMove, Elsewhere, Crash, Dies;
    var c := State(d, Choose, NoReply);
    var r := State(d, Reconcile(Site(false, false)), NoReply);
    var h := State(d, HandOver(Site(false, false)), NoReply);
    var e := State(d, Running(t), NoReply);
    path := [c, r, h, e];
    assert RunnerStep(c, r) && RunnerStep(r, h) && RunnerStep(h, e);
  }

  /** Whatever follows, a remote task starts only when it is the accepted one and has no row on disk. */
  ghost predicate SafeFrom(s: State) {
    forall path: Run, i: nat, t: TaskId ::
      IsCleanPath(path) && path[0] == s && i + 1 < |path| && t.Remote? && Starts(path[i], path[i + 1], t) ==>
        !HasRow(path[i].disk, t) && path[i].disk.active == Some(Active(t, Accepted))
  }

  /** A crash is harmless exactly when it leaves no stale file behind and a row of the journaled task, if there is
      one, within reach of a lookup. */
  lemma CrashIsSafeExactlyWhenSettled(s: State, s': State)
    requires CleanInv(s) && Crash(s, s')
    ensures SafeFrom(s') <==> Settled(s.disk)
  {
    hide CleanInv, IsCleanPath, StaleFile, Readable;
    if Settled(s.disk) {
      StepKeepsCleanInv(s, s');
      CleanIsSafe(s');
    } else {
      var path, t := UnsettledStartsAgain(s);
      var i := |path| - 2;
      assert path[0] == s' && i + 1 < |path| && IsCleanPath(path) && t.Remote? && Starts(path[i], path[i + 1], t);
      assert HasRow(path[i].disk, t) || path[i].disk.active != Some(Active(t, Accepted));
    }
  }

  lemma CleanIsSafe(s: State)
    requires CleanInv(s)
    ensures SafeFrom(s)
  {
    hide CleanInv, CleanNext, HasRow;
    forall path: Run, i: nat, t: TaskId |
      IsCleanPath(path) && path[0] == s && i + 1 < |path| && t.Remote? && Starts(path[i], path[i + 1], t)
      ensures !HasRow(path[i].disk, t) && path[i].disk.active == Some(Active(t, Accepted))
    {
      StartIsSafe(path, i, t);
    }
  }

  lemma UnsettledStartsAgain(s: State) returns (path: Run, t: TaskId)
    requires CleanInv(s) && !Settled(s.disk)
    ensures |path| >= 2 && IsCleanPath(path) && path[0] == State(s.disk, Choose, NoReply) && t.Remote?
    ensures Starts(path[|path| - 2], path[|path| - 1], t) && path[|path| - 2].disk == s.disk
    ensures HasRow(s.disk, t) || s.disk.active != Some(Active(t, Accepted))
  {
    hide FindsRow, HasRow, IsCleanPath;
    if u :| StaleFile(s.disk, u) {
      t := u;
      path := StaleFileIsStartedAgain(s.disk, t);
    } else {
      t := s.pc.id;
      path := UnreadableIsStartedAgain(s.disk, t);
    }
  }

  /** What the second half comes down to: while a remote task runs, its rows stay within reach exactly when it has
      none or the newest row of one of the logs is its own and not larger than what a lookup reads. */
  lemma ReadableExactly(run: Run, i: nat)
    requires IsCleanRun(run) && i < |run| && InExecution(run[i].pc) && run[i].pc.id.Remote?
    ensures var d, t := run[i].disk, run[i].pc.id;
      Readable(d) <==>
        !HasRow(d, t)
        || (Holds(d.results, t) && NewestInReach(d.results))
        || (Holds(d.failures, t) && NewestInReach(d.failures))
  {
    CleanPathKeepsInv(run, i);
    hide Finds, Holds;
    NewestIsFoundExactly(run[i].disk.results, run[i].pc.id);
    NewestIsFoundExactly(run[i].disk.failures, run[i].pc.id);
  }

  /** A claim is harmless exactly when the rows of the claimed task, if there are any, are within reach of a lookup. */
  lemma ClaimIsSafeExactlyWhenReadable(s: State, s': State)
    requires CleanInv(s) && s.pc.Claim? && RunnerStep(s, s') && s'.pc.Reconcile?
    ensures SafeFrom(s') <==> Readable(s'.disk)
  {
    if Readable(s'.disk) {
      hide CleanInv, SafeFrom;
      StepKeepsCleanInv(s, s');
      CleanIsSafe(s');
    } else {
      hide CleanInv, Finds, Holds;
      var path, t := UnreadableClaimStarts(s');
      var i := |path| - 2;
      assert path[0] == s' && i + 1 < |path| && IsCleanPath(path) && t.Remote? && Starts(path[i], path[i + 1], t);
      assert HasRow(path[i].disk, t);
    }
  }

  lemma UnreadableClaimStarts(s: State) returns (path: Run, t: TaskId)
    requires s.pc.Reconcile? && s.reply == NoReply && !Readable(s.disk)
    requires s.disk.active.value.stage.Claimed? && s.disk.active.value.id.Remote?
    ensures |path| >= 2 && IsCleanPath(path) && path[0] == s && t.Remote?
    ensures Starts(path[|path| - 2], path[|path| - 1], t) && HasRow(path[|path| - 2].disk, t)
  {
    hide Finds, Holds, IsCleanPath, FlushMove, AcceptMove, ExecutionMove, Staged;
    t := s.disk.active.value.id;
    var d := s.disk.(queue := s.disk.queue + {t});
    var rest := AcceptedPath(d, t, s.pc.site);
    assert ReconcileStep(s, rest[0], s.pc.site);
    RunnerStepIsClean(s, rest[0]);
    SingleIsPath(s);
    JoinCleanPaths([s], rest);
    path := [s] + rest;
  }

  lemma SingleIsPath(s: State)
    ensures IsCleanPath([s])
  {}

  /** The control service has had the acceptance of the task, in this run or before it. */
  ghost predicate AcceptedBefore(run: Run, i: nat, t: TaskId)
    requires i < |run|
  {
    HasRow(run[0].disk, t) || exists k :: 0 <= k <= i && run[k].reply == AcceptedReply(t)
  }

  /** What the control service hands out was never accepted before. */
  ghost predicate FreshClaims(run: Run) {
    forall i :: 0 <= i < |run| - 1 && run[i].disk.active == None && run[i + 1].disk.active.Some? ==>
      !AcceptedBefore(run, i, run[i + 1].disk.active.value.id)
  }

  /** The process is lost only on a settled disk. */
  ghost predicate SettledNext(s: State, s': State) {
    RunnerStep(s, s') || Elsewhere(s, s') || ((Dies(s, s') || Crash(s, s')) && Settled(s.disk))
  }

  ghost predicate IsSettledRun(run: Run) {
    && run != [] && Initial(run[0])
    && forall i :: 0 <= i < |run| - 1 ==> SettledNext(run[i], run[i + 1])
  }

  /** Remote tasks with rows, an accepted task, and one about to be journaled as accepted were all accepted before. */
  ghost predicate Warranted(run: Run, i: nat)
    requires i < |run|
  {
    var s := run[i];
    && (forall t: TaskId :: t.Remote? && HasRow(s.disk, t) ==> AcceptedBefore(run, i, t))
    && (s.disk.active.Some? && (s.disk.active.value.stage.Accepted? || s.pc.MarkAccepted?) ==>
          AcceptedBefore(run, i, s.disk.active.value.id))
  }

  /** Only a confirmed acceptance is journaled. */
  lemma AcceptanceIsConfirmed(s: State, s': State)
    requires Inv(s) && Next(s, s')
    requires s'.disk.active.Some? && (s'.disk.active.value.stage.Accepted? || s'.pc.MarkAccepted?)
    ensures s'.reply == AcceptedReply(s'.disk.active.value.id)
      || (s.disk.active.Some? && s.disk.active.value.id == s'.disk.active.value.id
          && (s.disk.active.value.stage.Accepted? || s.pc.MarkAccepted?))
  {
    hide Downgrade, ValidOutcome, Completed, Finds, Appended;
  }

  /** A new row is one of the task being run. */
  lemma NewRowIsOfRunning(s: State, s': State, t: TaskId)
    requires Next(s, s') && HasRow(s'.disk, t) && !HasRow(s.disk, t)
    ensures InExecution(s.pc) && s.pc.id == t
  {
    hide Next, Finds, Holds, Appended;
    LogsStay(s, s');
    if Appended(s.disk.results, s'.disk.results, s.pc.id) { AppendHolds(s.disk.results, s'.disk.results, s.pc.id, t); }
    if Appended(s.disk.failures, s'.disk.failures, s.pc.id) {
      AppendHolds(s.disk.failures, s'.disk.failures, s.pc.id, t);
    }
  }

  lemma StepKeepsWarrant(run: Run, i: nat)
    requires i + 1 < |run| && CleanInv(run[i]) && Next(run[i], run[i + 1]) && Warranted(run, i)
    ensures Warranted(run, i + 1)
  {
    hide Next, Inv, HasRow, Readable, StaleFile;
    var s, s' := run[i], run[i + 1];
    forall t: TaskId | t.Remote? && HasRow(s'.disk, t) ensures AcceptedBefore(run, i + 1, t) {
      if !HasRow(s.disk, t) { NewRowIsOfRunning(s, s', t); }
      assert AcceptedBefore(run, i, t);
    }
    if s'.disk.active.Some? && (s'.disk.active.value.stage.Accepted? || s'.pc.MarkAccepted?) {
      AcceptanceIsConfirmed(s, s');
    }
  }

  lemma FreshClaimIsReadable(run: Run, i: nat)
    requires i + 1 < |run| && Inv(run[i]) && run[i].pc.Claim? && RunnerStep(run[i], run[i + 1]) && Warranted(run, i)
    requires FreshClaims(run)
    ensures Readable(run[i + 1].disk)
  {
    hide Finds, Holds, AcceptedBefore;
  }

  /** A run that is lost only on settled disks is clean if nothing is handed out that was accepted before. */
  lemma FreshClaimsAreClean(run: Run)
    requires IsSettledRun(run) && FreshClaims(run)
    ensures IsCleanRun(run)
  {
    hide IsCleanRun, IsSettledRun, FreshClaims, Warranted;
    assert run != [] by { SettledRunStarts(run); }
    FreshPrefixIsClean(run, |run| - 1);
    assert run[..|run|] == run;
  }

  lemma SettledRunStarts(run: Run)
    requires IsSettledRun(run)
    ensures run != []
  {}

  lemma {:induction false} FreshPrefixIsClean(run: Run, n: nat)
    requires IsSettledRun(run) && FreshClaims(run) && n < |run|
    ensures IsCleanRun(run[..n + 1]) && Warranted(run, n) && CleanInv(run[n])
  {
    hide RunnerStep, Elsewhere, Dies, Crash, Settled, Warranted, FreshClaims, CleanInv;
    var part := run[..n + 1];
    if n > 0 {
      FreshPrefixIsClean(run, n - 1);
      var before := run[..n];
      assert SettledNext(run[n - 1], run[n]);
      assert RunnerStep(run[n - 1], run[n]) && run[n - 1].pc.Claim? ==> Readable(run[n].disk) by {
        if RunnerStep(run[n - 1], run[n]) && run[n - 1].pc.Claim? {
          CleanIncludesInv(run[n - 1]);
          FreshClaimIsReadable(run, n - 1);
        }
      }
      assert CleanNext(run[n - 1], run[n]);
      CleanIsNext(run[n - 1], run[n]);
      StepKeepsCleanInv(run[n - 1], run[n]);
      StepKeepsWarrant(run, n - 1);
      forall i | 0 <= i < |part| - 1 ensures CleanNext(part[i], part[i + 1]) {
        if i < n - 1 { assert CleanNext(before[i], before[i + 1]); }
      }
    } else {
      InitiallyClean(run);
    }
  }

  lemma CleanIncludesInv(s: State)
    requires CleanInv(s)
    ensures Inv(s)
  {}

  lemma InitiallyClean(run: Run)
    requires run != [] && Initial(run[0])
    ensures Warranted(run, 0) && CleanInv(run[0])
  {
    hide Holds, Finds;
  }

  lemma StartIsSafe(path: Run, i: nat, t: TaskId)
    requires IsCleanPath(path) && CleanInv(path[0])
    requires i + 1 < |path| && t.Remote? && Starts(path[i], path[i + 1], t)
    ensures !HasRow(path[i].disk, t) && path[i].disk.active == Some(Active(t, Accepted))
  {
    CleanPathKeepsInv(path, i);
    StartedFromOutside(path[i], path[i + 1]);
    StartIsAccepted(path[i], path[i + 1]);
  }

  lemma StartedFromOutside(s: State, s': State)
    requires CleanNext(s, s') && s'.pc.Running? && !s.pc.Running?
    ensures !InExecution(s.pc)
  {
    hide Downgrade, ValidOutcome, Completed, FindsRow, Appended;
  }

  lemma JoinCleanPaths(p: Run, q: Run)
    requires IsCleanPath(p) && IsCleanPath(q) && CleanNext(p[|p| - 1], q[0])
    ensures IsCleanPath(p + q)
  {
    hide CleanNext;
    var all := p + q;
    forall i | 0 <= i < |all| - 1 ensures CleanNext(all[i], all[i + 1]) {
      if i < |p| - 1 {
        assert CleanNext(p[i], p[i + 1]);
      } else if i >= |p| {
        assert CleanNext(q[i - |p|], q[i - |p| + 1]);
      }
    }
  }

  /** An idle runner claims a task. */
  lemma ClaimedRun(t: TaskId) returns (run: Run)
    requires t.Remote?
    ensures IsCleanRun(run)
    ensures run[|run| - 1] == State(Disk(Some(Active(t, Claimed)), {}, [], []), Reconcile(Site(true, true)), NoReply)
    ensures forall k :: 0 <= k < |run| ==> !run[k].pc.ClearRefused?
  {
    var late, empty := Site(true, false), Disk(None, {}, [], []);
    run := [
      State(empty, Choose, NoReply),
      State(empty, PickLocal, NoReply),
      State(empty, Reconcile(late), NoReply),
      State(empty, PollReturn(late), NoReply),
      State(empty, Claim(true), NoReply),
      State(Disk(Some(Active(t, Claimed)), {}, [], []), Reconcile(Site(true, true)), NoReply)];
    assert forall i :: 0 <= i < |run| - 1 ==> RunnerStep(run[i], run[i + 1]);
  }

  /** A claimed task is filed, its acceptance confirmed, and it is started. */
  lemma AcceptedPath(d: Disk, t: TaskId, site: Site) returns (path: Run)
    requires d.active == Some(Active(t, Claimed)) && t in d.queue && !FindsRow(d, t)
    ensures IsCleanPath(path) && |path| >= 2 && path[0] == State(d, MarkImported(site), NoReply)
    ensures Starts(path[|path| - 2], path[|path| - 1], t)
    ensures var end := d.(active := Some(Active(t, Accepted)));
      path[|path| - 2].disk == end && path[|path| - 1] == State(end, Running(t), AcceptedReply(t))
  {
    hide FindsRow;
    var imported := d.(active := Some(Active(t, Imported)));
    var accepted := d.(active := Some(Active(t, Accepted)));
    path := [
      State(d, MarkImported(site), NoReply),
      State(imported, Accept(site), NoReply),
      State(imported, MarkAccepted(site), AcceptedReply(t)),
      State(accepted, HandOver(site), AcceptedReply(t)),
      State(accepted, Running(t), AcceptedReply(t))];
    assert forall i :: 0 <= i < |path| - 1 ==> RunnerStep(path[i], path[i + 1]);
  }

  /** A claimed task is filed, its acceptance refused, and its file dropped again. */
  lemma RefusedPath(t: TaskId) returns (path: Run)
    ensures IsCleanPath(path)
    ensures path[0] == State(Disk(Some(Active(t, Claimed)), {t}, [], []), MarkImported(Site(true, true)), NoReply)
    ensures path[|path| - 1]
      == State(Disk(Some(Active(t, Imported)), {}, [], []), ClearRefused(Site(true, true)), RefusedAccept(t))
    ensures forall k :: 0 <= k < |path| - 1 ==> !path[k].pc.ClearRefused?
  {
    var again := Site(true, true);
    var imported := Disk(Some(Active(t, Imported)), {t}, [], []);
    var dropped := Disk(Some(Active(t, Imported)), {}, [], []);
    path := [
      State(Disk(Some(Active(t, Claimed)), {t}, [], []), MarkImported(again), NoReply),
      State(imported, Accept(again), NoReply),
      State(imported, DropRefused(again), RefusedAccept(t)),
      State(dropped, ClearRefused(again), RefusedAccept(t))];
    assert forall i :: 0 <= i < |path| - 1 ==> RunnerStep(path[i], path[i + 1]);
  }

  /** The disk once the task has written a row of that size. */
  function RowedDisk(name: string, bytes: nat): Disk {
    Disk(Some(Active(Remote(name), Accepted)), {Remote(name)}, [Row(Remote(name), bytes)], [])
  }

  /** Up to the row. */
  lemma RowedRun(name: string, bytes: nat) returns (run: Run)
    ensures IsCleanRun(run)
    ensures run[|run| - 1] == State(RowedDisk(name, bytes), Running(Remote(name)), AcceptedReply(Remote(name)))
  {
    hide CleanNext, FlushMove, AcceptMove, ChoiceMove, Staged;
    var t := Remote(name);
    var claim := ClaimedRun(t);
    var accept := AcceptedPath(Disk(Some(Active(t, Claimed)), {t}, [], []), t, Site(true, true));
    var rowed := [State(RowedDisk(name, bytes), Running(t), AcceptedReply(t))];
    RunnerStepIsClean(claim[|claim| - 1], accept[0]);
    RunnerStepIsClean(accept[|accept| - 1], rowed[0]);
    JoinCleanPaths(claim, accept);
    JoinCleanPaths(claim + accept, rowed);
    run := claim + accept + rowed;
  }

  lemma RunnerStepIsClean(s: State, s': State)
    requires RunnerStep(s, s') && !s.pc.Claim?
    ensures CleanNext(s, s')
  {}

  lemma RowIsFound(name: string)
    ensures Finds(RowedDisk(name, 1).results, Remote(name)) && Settled(RowedDisk(name, 1))
  {
    var log := RowedDisk(name, 1).results;
    assert log[0].id == Remote(name) && log[0..] == log && log[1..] == [];
    assert InReach(log, 0);
  }

  /** The task ends, and its outcome is staged. */
  lemma StagedPath(name: string) returns (path: Run)
    ensures IsCleanPath(path)
      && path[0] == State(RowedDisk(name, 1), Succeeded(Remote(name)), AcceptedReply(Remote(name)))
    ensures var s, t := path[|path| - 1], Remote(name); StaleFile(s.disk, t) && HasRow(s.disk, t) && InWindow(s)
  {
    hide FlushMove, ReconcileMove, AcceptMove, ChoiceMove, ValidOutcome, Completed, Crash, Dies, Elsewhere, Finds;
    var t := Remote(name);
    var o := FirstOutcome(name);
    var staged := RowedDisk(name, 1).(active := Some(Active(t, OutcomePending(Pending(o, [])))));
    path := [State(RowedDisk(name, 1), Succeeded(t), AcceptedReply(t)), State(staged, Finishing(t), AcceptedReply(t))];
    assert Staged(RowedDisk(name, 1), staged, true);
    assert RunnerStep(path[0], path[1]);
    assert staged.results[0].id == t;
  }

  lemma FirstOutcome(name: string) returns (o: Outcome)
    ensures ValidOutcome(o) && Completed(o)
  {
    DocumentFields(name, "runner", "completed", "now", Json.Obj([]), Json.Null);
    o := CompletedOutcome(name, "runner", "now", Json.Obj([]));
  }

  /** The window is real: an ordinary run gets there, with the row on disk, the outcome staged and the file still
      queued. */
  lemma WindowIsReachable(name: string) returns (run: Run)
    ensures IsCleanRun(run)
    ensures var s, t := run[|run| - 1], Remote(name);
      StaleFile(s.disk, t) && HasRow(s.disk, t) && InWindow(s)
  {
    hide CleanNext, StaleFile, InWindow, HasRow;
    var rowed := RowedRun(name, 1);
    var stage := StagedPath(name);
    assert RunnerStep(rowed[|rowed| - 1], stage[0]);
    RunnerStepIsClean(rowed[|rowed| - 1], stage[0]);
    JoinCleanPaths(rowed, stage);
    run := rowed + stage;
  }

  lemma CleanIsRun(run: Run)
    requires IsCleanPath(run)
    ensures IsPath(run) && (Initial(run[0]) ==> IsRun(run))
  {
    hide CleanNext, Next;
    forall i | 0 <= i < |run| - 1 ensures Next(run[i], run[i + 1]) {
      CleanIsNext(run[i], run[i + 1]);
    }
  }

  lemma OversizedRowIsLost(name: string)
    ensures var d := RowedDisk(name, FIND_RECORD_MAX_BYTES + 1); HasRow(d, Remote(name)) && !FindsRow(d, Remote(name))
  {
    var row := Row(Remote(name), FIND_RECORD_MAX_BYTES + 1);
    HugeRowHidesAll([], row, Remote(name));
    assert [] + [row] == [row] && [row][0].id == Remote(name);
  }

  /** A row out of reach is real: a run writes one, is lost at `i`, and its task is started a second time. */
  lemma OversizedRowIsStartedAgain(name: string) returns (run: Run, i: nat)
    ensures IsRun(run) && i + 2 < |run| && IsCleanRun(run[..i + 1]) && Crash(run[i], run[i + 1])
    ensures run[i].pc == Running(Remote(name)) && HasRow(run[i].disk, Remote(name)) && !Readable(run[i].disk)
    ensures Starts(run[|run| - 2], run[|run| - 1], Remote(name)) && HasRow(run[|run| - 2].disk, Remote(name))
  {
    hide CleanNext, Next, Finds, HasRow, FindsRow;
    var d := RowedDisk(name, FIND_RECORD_MAX_BYTES + 1);
    OversizedRowIsLost(name);
    var first := RowedRun(name, FIND_RECORD_MAX_BYTES + 1);
    var second := UnreadableIsStartedAgain(d, Remote(name));
    CleanIsRun(first);
    CleanIsRun(second);
    LivesCompose(first, second);
    run, i := first + second, |first| - 1;
    assert run[..i + 1] == first;
    assert run[|run| - 2] == second[|second| - 2];
  }

  // ----- after a restart -----

  /** A restarted process whose journaled task, not yet staged, has a row that a lookup finds. */
  predicate Recovering(s: State) {
    && (s.pc.Choose? || s.pc.Reconcile? || s.pc.Dead?)
    && s.disk.active.Some? && !Pends(s.disk) && FindsRow(s.disk, s.disk.active.value.id)
  }

  /** From there, whatever happens, nothing is started and the journal keeps the task until its outcome is
      staged; that outcome says completed exactly when the envelope still loads and a result row is found. */
  lemma {:induction false} RestartStagesMatchingOutcome(path: Run, j: nat)
    requires IsPath(path) && Recovering(path[0]) && j < |path|
    ensures
      || (forall i :: 0 <= i <= j ==>
            Recovering(path[i]) && path[i].disk.active == path[0].disk.active
              && path[i].disk.results == path[0].disk.results)
      || exists k :: 0 < k <= j && StagesMatching(path, k)
    decreases j
  {
    hide Finds;
    if j > 0 {
      RestartStagesMatchingOutcome(path, j - 1);
      assert Next(path[j - 1], path[j]);
      if forall i :: 0 <= i <= j - 1 ==>
            Recovering(path[i]) && path[i].disk.active == path[0].disk.active
              && path[i].disk.results == path[0].disk.results {
        var s, s' := path[j - 1], path[j];
        if Pends(s'.disk) {
          assert RunnerStep(s, s') && s.pc.Reconcile?;
          assert StagesMatching(path, j);
        }
      }
    }
  }

  ghost predicate StagesMatching(path: Run, k: nat)
    requires path != [] && Recovering(path[0]) && 0 < k < |path|
  {
    var d := path[k].disk;
    && (forall i :: 0 <= i < k ==> Recovering(path[i]))
    && Pends(d) && Owns(d, path[0].disk.active.value.id)
    && (path[k].pc.Unfile? || (path[k].pc.Flush? && path[k].pc.caller.Unloadable?))
    && (Completed(d.active.value.stage.pending.outcome) <==>
          path[k].pc.Unfile? && Finds(path[0].disk.results, path[0].disk.active.value.id))
  }

  /** As long as no restart manages to stage the row, the slot keeps its task and nothing is started. */
  lemma UnstagedRowKeepsSlot(path: Run, j: nat)
    requires IsPath(path) && Recovering(path[0]) && j < |path|
    requires forall k :: 0 <= k < |path| ==>
      !path[k].pc.Unfile? && !(path[k].pc.Flush? && path[k].pc.caller.Unloadable?)
    ensures Recovering(path[j]) && path[j].disk.active == path[0].disk.active
    ensures !path[j].pc.Running?
  {
    hide Finds, IsPath;
    RestartStagesMatchingOutcome(path, j);
  }

  lemma RestartedPath(name: string) returns (path: Run)
    ensures IsCleanPath(path) && path[0] == State(RowedDisk(name, 1), Choose, NoReply)
    ensures var s := path[|path| - 1];
      && s.disk.results == RowedDisk(name, 1).results && Owns(s.disk, Remote(name)) && Pends(s.disk)
      && !Completed(s.disk.active.value.stage.pending.outcome)
  {
    hide FlushMove, AcceptMove, ExecutionMove, ValidOutcome, Completed, Crash, Dies, Elsewhere, Finds;
    var t, site, d := Remote(name), Site(false, false), RowedDisk(name, 1);
    FailedFields(name, "runner", "now", "unknown task type");
    var o := FailedOutcome(name, "runner", "now", "unknown task type");
    var failed := d.(active := Some(Active(t, OutcomePending(Pending(o, [])))));
    path := [
      State(d, Choose, NoReply),
      State(d, Reconcile(site), NoReply),
      State(failed, Flush(Unloadable(site, t)), NoReply)];
    assert Staged(d, failed, false);
    assert RunnerStep(path[0], path[1]) && RunnerStep(path[1], path[2]);
  }

  /** The mismatch is real: a run gets to a failed outcome for a task whose result row a lookup would find. */
  lemma UnloadableTaskReportsFailure(name: string) returns (run: Run)
    ensures IsCleanRun(run)
    ensures var s := run[|run| - 1];
      && Finds(s.disk.results, Remote(name)) && Owns(s.disk, Remote(name)) && Pends(s.disk)
      && !Completed(s.disk.active.value.stage.pending.outcome)
  {
    var rowed := RowedRun(name, 1);
    var path := RestartedPath(name);
    RowIsFound(name);
    assert CleanNext(rowed[|rowed| - 1], path[0]);
    hide CleanNext, Completed, Finds;
    JoinCleanPaths(rowed, path);
    run := rowed + path;
  }

  // ----- the file of an imported task -----

  /** The queue holds the file of the task the journal has as imported or accepted, until a refused accept drops it. */
  ghost predicate FileKept(s: State) {
    s.disk.active.Some? && s.disk.active.value.id !in s.disk.queue ==>
      var stage := s.disk.active.value.stage;
      && (stage.Imported? ==> s.pc.ClearRefused?)
      && !stage.Accepted? && !s.pc.MarkImported?
  }

  /** Not lost between dropping the file of a refused accept and clearing the slot. */
  ghost predicate LostElsewhere(s: State, s': State) { s.pc.ClearRefused? ==> !Crash(s, s') && !Dies(s, s') }

  lemma StepKeepsFile(s: State, s': State)
    requires Inv(s) && FileKept(s) && Next(s, s') && LostElsewhere(s, s')
    ensures FileKept(s')
  {
    hide Downgrade, ValidOutcome, Completed, Finds, Appended;
    if s.pc.FlushRefused? && RunnerStep(s, s') {
      var runnerId, at :| Downgraded(s.disk, s'.disk, runnerId, at, s.pc.refusal);
    }
  }

  /** The two exceptions about a missing file. */
  predicate FileMissed(s: State, s': State) { (s.pc.Accept? || s.pc.HandOver?) && s'.pc.Dead? }

  lemma FileIsThere(s: State, s': State)
    requires Inv(s) && FileKept(s) && RunnerStep(s, s')
    ensures !FileMissed(s, s')
  {
    hide Downgrade, ValidOutcome, Completed, Finds, Appended;
  }

  /** Over every run, however often and wherever else it is lost: neither exception about a missing file is raised. */
  lemma {:induction false} FilesAreKept(run: Run, i: nat)
    requires IsRun(run) && i < |run|
    requires forall k :: 0 <= k < i ==> LostElsewhere(run[k], run[k + 1])
    ensures FileKept(run[i])
    ensures i + 1 < |run| && RunnerStep(run[i], run[i + 1]) ==> !FileMissed(run[i], run[i + 1])
  {
    hide Next, FileKept, FileMissed, LostElsewhere, RunnerStep;
    if i > 0 {
      FilesAreKept(run, i - 1);
      RunKeepsInv(run, i - 1);
      StepKeepsFile(run[i - 1], run[i]);
    } else {
      InitiallyKept(run[0]);
    }
    RunKeepsInv(run, i);
    if i + 1 < |run| && RunnerStep(run[i], run[i + 1]) { FileIsThere(run[i], run[i + 1]); }
  }

  lemma InitiallyKept(s: State)
    requires Initial(s)
    ensures FileKept(s)
  {}

  /** The journal still holds an imported task whose queue file is gone. */
  predicate Wedged(s: State) {
    && (s.pc.Choose? || s.pc.Reconcile? || s.pc.Accept? || s.pc.Dead?)
    && s.disk.active.Some? && s.disk.active.value.stage.Imported?
    && s.disk.active.value.id.Remote? && s.disk.active.value.id !in s.disk.queue
    && !FindsRow(s.disk, s.disk.active.value.id)
  }

  /** The first loss of a run that wedges the runner is exactly one between dropping the file of a refused accept and
      clearing the slot. */
  lemma LossWedgesExactly(run: Run, i: nat)
    requires IsRun(run) && i + 1 < |run| && (Crash(run[i], run[i + 1]) || Dies(run[i], run[i + 1]))
    requires forall k :: 0 <= k < i ==> LostElsewhere(run[k], run[k + 1])
    ensures Wedged(run[i + 1]) <==> run[i].pc.ClearRefused?
  {
    FilesAreKept(run, i);
    RunKeepsInv(run, i);
    hide IsRun, LostElsewhere, Finds;
  }

  /** The wedge is real: a run loses the process between the two. */
  lemma WedgeIsReachable(name: string) returns (run: Run)
    ensures IsRun(run) && |run| >= 2 && Crash(run[|run| - 2], run[|run| - 1])
    ensures run[|run| - 2].pc.ClearRefused? && Wedged(run[|run| - 1])
    ensures forall k :: 0 <= k < |run| - 2 ==> LostElsewhere(run[k], run[k + 1])
  {
    hide CleanNext, Next;
    var claim := ClaimedRun(Remote(name));
    var refused := RefusedPath(Remote(name));
    RunnerStepIsClean(claim[|claim| - 1], refused[0]);
    JoinCleanPaths(claim, refused);
    var alive := claim + refused;
    CleanIsRun(alive);
    var restarted := [State(alive[|alive| - 1].disk, Choose, NoReply)];
    LivesCompose(alive, restarted);
    run := alive + restarted;
    assert run[|run| - 2] == refused[|refused| - 1];
    forall k | 0 <= k < |run| - 2 ensures LostElsewhere(run[k], run[k + 1]) {
      assert run[k] == if k < |claim| then claim[k] else refused[k - |claim|];
    }
  }

  /** A wedged runner starts nothing and frees nothing, over any number of restarts, until a deployment
      comes that can no longer load the envelope. */
  lemma {:induction false} WedgedForGood(path: Run, j: nat)
    requires IsPath(path) && Wedged(path[0]) && j < |path|
    requires forall i :: 0 <= i < |path| ==> !(path[i].pc.Flush? && path[i].pc.caller.Unloadable?)
    ensures Wedged(path[j]) && path[j].disk.active == path[0].disk.active
    decreases j
  {
    hide Finds;
    if j > 0 {
      WedgedForGood(path, j - 1);
      assert Next(path[j - 1], path[j]);
    }
  }

  /** A restarted process continues the run of the one before it. */
  lemma LivesCompose(run: Run, path: Run)
    requires IsRun(run) && IsPath(path) && Crash(run[|run| - 1], path[0])
    ensures IsRun(run + path)
  {
    var all := run + path;
    forall i | 0 <= i < |all| - 1 ensures Next(all[i], all[i + 1]) {
      if i < |run| - 1 {
        assert Next(run[i], run[i + 1]);
      } else if i >= |run| {
        assert Next(path[i - |run|], path[i - |run| + 1]);
      }
    }
  }
}
