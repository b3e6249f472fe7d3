/**
 The governed-command protocol as a state machine: deliveries are validated on the
 network thread, and every accepted delivery gets a worker thread that takes the
 device's lock, journals "executing", runs the handler and journals the outcome
 (`novena_gateway/gateway/rpc_handler.py`, `_on_rpc_request` and its inner `execute`).

 Validation happens before the lock is taken and before anything is journaled, so
 redeliveries can overtake each other.  The steps below interleave freely, the disk may
 refuse a write, and the gateway may crash between any two steps.
 */
module CommandProtocol {
  import opened Common
  import opened CommandJournal
  import opened GovernedCommands

  /** Where a worker stands.  A failing worker has left the lock and still owes a terminal record. */
  datatype Stage = Queued | Locked | Journaled | Running | Failing

  /** `admittedAt` is the time stamp of the delivery that started the worker. */
  datatype Worker = Worker(env: Envelope, stage: Stage, admittedAt: nat)

  datatype Execution = Execution(env: Envelope, admittedAt: nat)

  datatype System = System(
    memory: Journal,
    disk: Journal,
    policy: Option<Policy>,
    policyFile: Option<PolicyBundle>,
    workers: map<nat, Worker>,
    locks: map<string, nat>,         // device -> worker holding its lock
    nextWorker: nat,
    time: nat,                       // history: steps taken
    files: seq<set<string>>,         // history: the command ids in the journal file as each step began
    executed: seq<Execution>)        // history: handler calls, oldest first

  datatype Step =
    | Deliver(env: Envelope, site: Site)
    | TakeLock(worker: nat)
    | PrerequisiteFails(worker: nat)
    | MarkExecuting(worker: nat, writable: bool)
    | ResponseFails(worker: nat)
    | CallHandler(worker: nat)
    | Complete(worker: nat, outcome: string, writable: bool, answered: bool)
    | HandlerRaises(worker: nat)
    | RecordFailure(worker: nat, outcome: string, writable: bool)
    | InstallPolicy(bundle: PolicyBundle, serial: string, fileWritable: bool, writable: bool)
    | Reset(writable: bool, removable: bool)
    | Crash(serial: string)

  function Start(): System {
    System(EMPTY, EMPTY, None, None, map[], map[], 0, 0, [], [])
  }

  predicate At(s: System, w: nat, stage: Stage) {
    w in s.workers && s.workers[w].stage == stage
  }

  predicate Enabled(s: System, step: Step) {
    match step
    case Deliver(_, _) => true
    case TakeLock(w) => At(s, w, Queued) && s.workers[w].env.deviceId !in s.locks
    case PrerequisiteFails(w) => At(s, w, Locked)
    case MarkExecuting(w, _) => At(s, w, Locked)
    case ResponseFails(w) => At(s, w, Journaled)
    case CallHandler(w) => At(s, w, Journaled)
    case Complete(w, _, _, _) => At(s, w, Running)
    case HandlerRaises(w) => At(s, w, Running)
    case RecordFailure(w, _, _) => At(s, w, Failing)
    case InstallPolicy(_, _, _, _) => true
    case Reset(_, _) => true
    case Crash(_) => true
  }

  function Move(s: System, w: nat, stage: Stage): System
    requires w in s.workers
  {
    s.(workers := s.workers[w := s.workers[w].(stage := stage)])
  }

  function Unlock(s: System, w: nat): System
    requires w in s.workers
  {
    s.(locks := s.locks - {s.workers[w].env.deviceId})
  }

  /** A journal whose memory becomes `j`; the file follows when the disk takes the write. */
  function Store(s: System, j: Journal, writable: bool): System {
    s.(memory := j, disk := if writable then j else s.disk)
  }

  function LoadPolicy(file: Option<PolicyBundle>, serial: string): Option<Policy> {
    if file.Some? && file.value.signatureOk && file.value.serial == serial then Some(file.value.policy) else None
  }

  /** One step of the gateway, without the bookkeeping of the history fields. */
  function Effect(s: System, step: Step): System
    requires Enabled(s, step)
  {
    match step
    case Deliver(e, site) =>
      if Validation(e, site, s.policy, s.memory).Accepted? then
        s.(workers := s.workers[s.nextWorker := Worker(e, Queued, s.time)], nextWorker := s.nextWorker + 1)
      else s
    case TakeLock(w) =>
      Move(s, w, Locked).(locks := s.locks[s.workers[w].env.deviceId := w])
    case PrerequisiteFails(w) =>
      Move(Unlock(s, w), w, Failing)
    case MarkExecuting(w, writable) =>
      var e := s.workers[w].env;
      var stored := Store(s, Written(s.memory, e.commandId, ExecutingRecord(e)), writable);
      if writable then Move(stored, w, Journaled) else Move(Unlock(stored, w), w, Failing)
    case ResponseFails(w) =>
      Move(Unlock(s, w), w, Failing)
    case CallHandler(w) =>
      Move(s, w, Running).(executed := s.executed + [Execution(s.workers[w].env, s.workers[w].admittedAt)])
    case Complete(w, outcome, writable, answered) =>
      var e := s.workers[w].env;
      var stored := Store(s, Written(s.memory, e.commandId, TerminalRecord(e, outcome)), writable);
      if writable && answered then Unlock(stored, w).(workers := s.workers - {w}) else Move(Unlock(stored, w), w, Failing)
    case HandlerRaises(w) =>
      Move(Unlock(s, w), w, Failing)
    case RecordFailure(w, outcome, writable) =>
      var e := s.workers[w].env;
      Store(s, Written(s.memory, e.commandId, TerminalRecord(e, outcome)), writable).(workers := s.workers - {w})
    case InstallPolicy(b, serial, fileWritable, writable) =>
      if Installable(b, serial, s.memory.maxEpoch) && fileWritable then
        Store(s, EpochRecorded(s.memory, b.policy.epoch), writable).(policy := Some(b.policy), policyFile := Some(b))
      else s
    case Reset(writable, removable) =>
      Store(s, EMPTY, writable).(policy := None, policyFile := if writable && removable then None else s.policyFile)
    case Crash(serial) =>
      s.(memory := s.disk, policy := LoadPolicy(s.policyFile, serial), workers := map[], locks := map[])
  }

  function Next(s: System, step: Step): System
    requires Enabled(s, step)
  {
    Effect(s, step).(time := s.time + 1, files := s.files + [s.disk.commands.Keys])
  }

  /** The steps can be taken one after the other from `s`. */
  predicate Possible(s: System, steps: seq<Step>)
    decreases |steps|
  {
    steps == [] || (Enabled(s, steps[0]) && Possible(Next(s, steps[0]), steps[1..]))
  }

  function Final(s: System, steps: seq<Step>): System
    requires Possible(s, steps)
    decreases |steps|
  {
    if steps == [] then s else Final(Next(s, steps[0]), steps[1..])
  }

  predicate NoReset(steps: seq<Step>) {
    forall i :: 0 <= i < |steps| ==> !steps[i].Reset?
  }

  // ---------------------------------------------------------------- mutual exclusion

  predicate HoldsLock(stage: Stage) { stage in {Locked, Journaled, Running} }

  /** `w` is in the critical section of device `d`. */
  predicate Holds(s: System, w: nat, d: string) {
    w in s.workers && HoldsLock(s.workers[w].stage) && s.workers[w].env.deviceId == d
  }

  /** The lock table says exactly who is in which critical section. */
  ghost predicate LockInv(s: System) {
    && (forall w :: w in s.workers ==> w < s.nextWorker)
    && (forall w, d :: Holds(s, w, d) ==> d in s.locks && s.locks[d] == w)
    && (forall d :: d in s.locks ==> Holds(s, s.locks[d], d))
  }

  predicate OfWorker(step: Step) { !(step.Deliver? || step.InstallPolicy? || step.Reset? || step.Crash?) }

  /** A step of worker `u` moves or removes `u`, and locks or unlocks the device of `u` accordingly. */
  lemma WorkerStep(s: System, step: Step)
    requires Enabled(s, step) && OfWorker(step)
    ensures step.worker in s.workers
    ensures var u := step.worker;
            var d := s.workers[u].env.deviceId;
            var t := Effect(s, step);
            && (t.workers == s.workers - {u} || exists stage :: t.workers == s.workers[u := s.workers[u].(stage := stage)])
            && (At(s, u, Queued) ==> At(t, u, Locked) && d !in s.locks && t.locks == s.locks[d := u])
            && (At(s, u, Failing) ==> u !in t.workers && t.locks == s.locks)
            && (HoldsLock(s.workers[u].stage) ==>
                  if u in t.workers && HoldsLock(t.workers[u].stage) then t.locks == s.locks else t.locks == s.locks - {d})
            && t.nextWorker == s.nextWorker
  {
    hide Written;
  }

  /** The other steps leave locks and workers alone, but for a new queued worker or a crash. */
  lemma OtherStep(s: System, step: Step)
    requires Enabled(s, step) && !OfWorker(step)
    ensures var t := Effect(s, step);
            || (t.locks == map[] && t.workers == map[] && t.nextWorker == s.nextWorker)
            || (t.locks == s.locks && t.workers == s.workers && t.nextWorker == s.nextWorker)
            || (&& t.locks == s.locks && t.nextWorker == s.nextWorker + 1 && step.Deliver?
                && t.workers == s.workers[s.nextWorker := Worker(step.env, Queued, s.time)])
  {
    hide Validation;
  }

  lemma LockKept(s: System, step: Step, w: nat, d: string)
    requires LockInv(s) && Enabled(s, step)
    ensures var t := Effect(s, step); Holds(t, w, d) ==> d in t.locks && t.locks[d] == w
  {
    hide Effect, Enabled;
    assert Holds(s, w, d) ==> d in s.locks && s.locks[d] == w;
    if OfWorker(step) {
      WorkerStep(s, step);
      assert Holds(s, step.worker, d) ==> s.locks[d] == step.worker;
    } else {
      OtherStep(s, step);
    }
  }

  lemma LockUsed(s: System, step: Step, d: string)
    requires LockInv(s) && Enabled(s, step)
    ensures var t := Effect(s, step); d in t.locks ==> Holds(t, t.locks[d], d)
  {
    hide Effect, Enabled;
    assert d in s.locks ==> Holds(s, s.locks[d], d);
    if OfWorker(step) { WorkerStep(s, step); } else { OtherStep(s, step); }
  }

  lemma WorkersNumbered(s: System, step: Step, w: nat)
    requires LockInv(s) && Enabled(s, step)
    ensures w in Effect(s, step).workers ==> w < Effect(s, step).nextWorker
  {
    hide Effect, Enabled, Holds;
    if OfWorker(step) { WorkerStep(s, step); } else { OtherStep(s, step); }
  }

  lemma LockStep(s: System, step: Step)
    requires LockInv(s) && Enabled(s, step)
    ensures LockInv(Next(s, step))
  {
    hide Effect, Enabled, HoldsLock;
    var t := Next(s, step);
    forall w | w in t.workers ensures w < t.nextWorker { WorkersNumbered(s, step, w); }
    forall w, d | Holds(t, w, d) ensures d in t.locks && t.locks[d] == w { LockKept(s, step, w, d); }
    forall d | d in t.locks ensures Holds(t, t.locks[d], d) { LockUsed(s, step, d); }
  }

  lemma {:induction false} LockRun(s: System, steps: seq<Step>)
    requires LockInv(s) && Possible(s, steps)
    ensures LockInv(Final(s, steps))
    decreases |steps|
  {
    if steps != [] {
      LockStep(s, steps[0]);
      LockRun(Next(s, steps[0]), steps[1..]);
    }
  }

  /**
   In every run, resets and crashes included, at most one worker per device is between
   taking the lock and leaving it, so at most one handler runs per device.  Of two workers
   of one device that have both begun, one has failed and only owes its terminal record.
   */
  lemma OneHandlerPerDevice(steps: seq<Step>, v: nat, w: nat)
    requires Possible(Start(), steps)
    requires var s := Final(Start(), steps);
             v in s.workers && w in s.workers && v != w && s.workers[v].env.deviceId == s.workers[w].env.deviceId
    ensures var s := Final(Start(), steps);
            && !(HoldsLock(s.workers[v].stage) && HoldsLock(s.workers[w].stage))
            && (s.workers[v].stage != Queued && s.workers[w].stage != Queued ==>
                  s.workers[v].stage == Failing || s.workers[w].stage == Failing)
  {
    hide Possible, Final;
    LockRun(Start(), steps);
    var s := Final(Start(), steps);
    var d := s.workers[v].env.deviceId;
    assert Holds(s, v, d) ==> s.locks[d] == v;
    assert Holds(s, w, d) ==> s.locks[d] == w;
  }

  // ------------------------------------------------------- arbitrary interleavings

  /** When the step with this stamp began, and ever before, the journal file did not know the command. */
  ghost predicate Unknown(s: System, commandId: string, stamp: nat) {
    stamp < |s.files| && forall k :: 0 <= k <= stamp ==> commandId !in s.files[k]
  }

  ghost predicate WorkerInv(s: System, w: Worker) {
    && Unknown(s, w.env.commandId, w.admittedAt)
    && (w.stage in {Journaled, Running} ==> w.env.commandId in s.disk.commands)
  }

  ghost predicate ExecutionInv(s: System, x: Execution) {
    Unknown(s, x.env.commandId, x.admittedAt) && x.env.commandId in s.disk.commands
  }

  /** The file never forgets a command, and never knows one that memory forgot. */
  ghost predicate FileInv(s: System) {
    && |s.files| == s.time
    && (forall k :: 0 <= k < |s.files| ==> s.files[k] <= s.disk.commands.Keys)
    && s.disk.commands.Keys <= s.memory.commands.Keys
  }

  ghost predicate JournalInv(s: System) {
    && FileInv(s)
    && (forall w :: w in s.workers ==> WorkerInv(s, s.workers[w]))
    && (forall i :: 0 <= i < |s.executed| ==> ExecutionInv(s, s.executed[i]))
  }

  /** A step leaves the journal alone, reloads it, or writes what the next memory holds. */
  ghost predicate Recorded(s: System, t: System) {
    || (t.memory == s.memory && t.disk == s.disk)
    || (t.memory == t.disk == s.disk)
    || ((t.disk == s.disk || t.disk == t.memory) && exists id, r :: t.memory == Written(s.memory, id, r))
    || ((t.disk == s.disk || t.disk == t.memory) && exists epoch :: t.memory == EpochRecorded(s.memory, epoch))
  }

  lemma StepRecords(s: System, step: Step)
    requires Enabled(s, step) && !step.Reset?
    ensures Recorded(s, Effect(s, step))
  {
    hide Validation, Written;
  }

  lemma FileStep(s: System, step: Step)
    requires FileInv(s) && Enabled(s, step) && !step.Reset?
    ensures FileInv(Next(s, step)) && s.disk.commands.Keys <= Next(s, step).disk.commands.Keys
  {
    hide Validation, Effect, Enabled;
    StepRecords(s, step);
    var t := Effect(s, step);
    assert s.disk.commands.Keys <= t.disk.commands.Keys <= t.memory.commands.Keys;
  }

  /** How one worker can have come out of a step. */
  ghost predicate Moved(s: System, t: System, w: nat)
    requires w in t.workers
  {
    var now := t.workers[w];
    if w in s.workers then
      var was := s.workers[w];
      && now.env == was.env && now.admittedAt == was.admittedAt
      && (now.stage == Queued ==> was.stage == Queued)
      && (now.stage == Locked && was.stage != Locked ==> was.stage == Queued && now.env.deviceId !in s.locks)
      && (now.stage == Running ==> was.stage in {Journaled, Running})
      && (now.stage == Journaled && was.stage != Journaled ==>
            was.stage == Locked && t.disk == Written(s.memory, now.env.commandId, ExecutingRecord(now.env)))
    else
      && now.stage == Queued && now.admittedAt == s.time
      && now.env.commandId !in s.memory.commands && t.disk == s.disk && now.env.deviceId != ""
  }

  /** What acceptance says about the journal. */
  lemma AcceptedIsNew(e: Envelope, site: Site, policy: Option<Policy>, j: Journal)
    ensures Validation(e, site, policy, j).Accepted? ==>
              e.commandId !in j.commands && e.sequence > j.MaxSequence(e.deviceId) && e.deviceId != ""
  {
    hide ScreenEnvelope, ScreenControl;
  }

  lemma WorkerMoves(s: System, step: Step, w: nat)
    requires LockInv(s) && Enabled(s, step) && w in Effect(s, step).workers
    ensures Moved(s, Effect(s, step), w)
  {
    hide Validation, Written;
    if step.Deliver? { AcceptedIsNew(step.env, step.site, s.policy, s.memory); }
  }

  lemma JournalStep(s: System, step: Step)
    requires LockInv(s) && JournalInv(s) && Enabled(s, step) && !step.Reset?
    ensures JournalInv(Next(s, step)) && s.disk.commands.Keys <= Next(s, step).disk.commands.Keys
  {
    hide Validation, Effect;
    var t := Next(s, step);
    FileStep(s, step);
    ExecutedStep(s, step);
    forall w | w in t.workers ensures WorkerInv(t, t.workers[w]) {
      WorkerMoves(s, step, w);
      assert Moved(s, t, w);
      assert w in s.workers ==> WorkerInv(s, s.workers[w]);
    }
    forall i | 0 <= i < |t.executed| ensures ExecutionInv(t, t.executed[i]) {
      if i < |s.executed| {
        assert ExecutionInv(s, s.executed[i]);
      } else {
        assert WorkerInv(s, s.workers[step.worker]);
      }
    }
  }

  lemma {:induction false} JournalRun(s: System, steps: seq<Step>)
    requires LockInv(s) && JournalInv(s) && Possible(s, steps) && NoReset(steps)
    ensures LockInv(Final(s, steps)) && JournalInv(Final(s, steps))
    ensures s.disk.commands.Keys <= Final(s, steps).disk.commands.Keys
    decreases |steps|
  {
    if steps != [] {
      assert !steps[0].Reset?;
      assert NoReset(steps[1..]) by {
        forall i | 0 <= i < |steps[1..]| ensures !steps[1..][i].Reset? { assert steps[1..][i] == steps[i + 1]; }
      }
      LockStep(s, steps[0]);
      JournalStep(s, steps[0]);
      JournalRun(Next(s, steps[0]), steps[1..]);
    }
  }

  /**
   Under every interleaving, refused write and crash: an executed command is in the
   journal file, and its execution stems from a delivery that was validated when neither
   the file nor any earlier state of it knew the command.
   */
  lemma ExecutionsPrecedeTheirRecord(steps: seq<Step>, i: nat)
    requires Possible(Start(), steps) && NoReset(steps)
    requires i < |Final(Start(), steps).executed|
    ensures var s := Final(Start(), steps);
            var x := s.executed[i];
            x.env.commandId in s.disk.commands && Unknown(s, x.env.commandId, x.admittedAt)
  {
    hide Possible, Final;
    JournalRun(Start(), steps);
    assert ExecutionInv(Final(Start(), steps), Final(Start(), steps).executed[i]);
  }

  /**
   Once a command id is in the journal file, no later delivery of it is ever accepted,
   whatever happens in between: it is answered from the terminal record or rejected.
   */
  lemma DurableCommandsNeverRestart(before: seq<Step>, after: seq<Step>, e: Envelope, site: Site)
    requires Possible(Start(), before) && NoReset(before)
    requires e.commandId in Final(Start(), before).disk.commands
    requires Possible(Final(Start(), before), after) && NoReset(after)
    ensures var s := Final(Final(Start(), before), after);
            var v := Validation(e, site, s.policy, s.memory);
            && (v.Rejected? || (v.Replay? && v.record == s.memory.commands[e.commandId] && v.record.state.Terminal?))
            && Next(s, Deliver(e, site)).workers == s.workers
  {
    hide Possible, Final, Screen;
    JournalRun(Start(), before);
    JournalRun(Final(Start(), before), after);
  }

  // ---------------------------------------------------------------- at most once

  predicate Unjournaled(stage: Stage) { stage in {Queued, Locked} }

  /**
   A delivery of `e` does no harm beside the workers that have not reached the journal
   yet: none has its command id, and one for its device is already in its critical
   section with a smaller sequence number.
   */
  ghost predicate Harmless(s: System, e: Envelope) {
    forall w :: w in s.workers && Unjournaled(s.workers[w].stage) ==>
      && s.workers[w].env.commandId != e.commandId
      && (s.workers[w].env.deviceId == e.deviceId ==> s.workers[w].stage == Locked && s.workers[w].env.sequence < e.sequence)
  }

  /** The delivery discipline: only harmless deliveries are accepted. */
  ghost predicate Disciplined(s: System, step: Step) {
    step.Deliver? && Validation(step.env, step.site, s.policy, s.memory).Accepted? ==> Harmless(s, step.env)
  }

  ghost predicate DisciplinedRun(s: System, steps: seq<Step>)
    requires Possible(s, steps)
    decreases |steps|
  {
    steps == [] || (Disciplined(s, steps[0]) && !steps[0].Reset? && DisciplinedRun(Next(s, steps[0]), steps[1..]))
  }

  /** Every command id was handed to a handler at most once. */
  ghost predicate AtMostOnce(executed: seq<Execution>) {
    forall i, j :: 0 <= i < j < |executed| ==> executed[i].env.commandId != executed[j].env.commandId
  }

  /** The sequence numbers executed on one device strictly increase. */
  ghost predicate Increasing(executed: seq<Execution>) {
    forall i, j :: 0 <= i < j < |executed| && executed[i].env.deviceId == executed[j].env.deviceId ==>
      executed[i].env.sequence < executed[j].env.sequence
  }

  /** `w` still has its handler call ahead of it. */
  predicate Pending(stage: Stage) { stage in {Queued, Locked, Journaled} }

  /** The sequence high-water marks cover what has been journaled, in memory and in the file. */
  ghost predicate SequenceInv(s: System) {
    && (forall d :: s.disk.MaxSequence(d) <= s.memory.MaxSequence(d))
    && (forall i :: 0 <= i < |s.executed| ==> s.executed[i].env.sequence <= s.disk.MaxSequence(s.executed[i].env.deviceId))
    && (forall w :: w in s.workers ==> s.workers[w].env.deviceId != "")
    && (forall w :: w in s.workers && s.workers[w].stage == Journaled ==>
          s.workers[w].env.sequence <= s.disk.MaxSequence(s.workers[w].env.deviceId))
  }

  /** A pending worker is ahead of everything executed on its device. */
  ghost predicate Ahead(s: System, w: nat)
    requires w in s.workers
  {
    forall i :: 0 <= i < |s.executed| ==>
      && s.executed[i].env.commandId != s.workers[w].env.commandId
      && (s.executed[i].env.deviceId == s.workers[w].env.deviceId ==> s.executed[i].env.sequence < s.workers[w].env.sequence)
  }

  /** `v` is in the critical section, `w` waits for the lock with a higher sequence number. */
  predicate GoesFirst(v: Worker, w: Worker) {
    v.stage in {Locked, Journaled} && w.stage == Queued && v.env.sequence < w.env.sequence
  }

  /** Two pending workers do not share a command, and on one device it is settled which goes first. */
  predicate Apart(v: Worker, w: Worker) {
    && v.env.commandId != w.env.commandId
    && (v.env.deviceId == w.env.deviceId ==> GoesFirst(v, w) || GoesFirst(w, v))
  }

  ghost predicate OrderInv(s: System) {
    && AtMostOnce(s.executed)
    && Increasing(s.executed)
    && (forall w :: w in s.workers && Pending(s.workers[w].stage) ==> Ahead(s, w))
    && (forall v, w ::
          v in s.workers && w in s.workers && v != w && Pending(s.workers[v].stage) && Pending(s.workers[w].stage)
          ==> Apart(s.workers[v], s.workers[w]))
  }

  ghost predicate SafeInv(s: System) {
    LockInv(s) && JournalInv(s) && SequenceInv(s) && OrderInv(s)
  }

  lemma SequenceStep(s: System, step: Step)
    requires LockInv(s) && JournalInv(s) && SequenceInv(s) && Enabled(s, step) && !step.Reset?
    ensures SequenceInv(Next(s, step))
  {
    hide Validation, Effect;
    ExecutedStep(s, step);
    var t := Next(s, step);
    forall d ensures s.disk.MaxSequence(d) <= t.disk.MaxSequence(d) <= t.memory.MaxSequence(d) {
      SequenceGrows(s, step, d);
    }
    forall w | w in t.workers
      ensures t.workers[w].env.deviceId != ""
      ensures t.workers[w].stage == Journaled ==>
                t.workers[w].env.sequence <= t.disk.MaxSequence(t.workers[w].env.deviceId)
    {
      WorkerMoves(s, step, w);
      assert Moved(s, t, w);
    }
  }

  /** Only a handler call extends the execution history. */
  lemma ExecutedStep(s: System, step: Step)
    requires Enabled(s, step)
    ensures Next(s, step).executed ==
            if step.CallHandler?
            then s.executed + [Execution(s.workers[step.worker].env, s.workers[step.worker].admittedAt)]
            else s.executed
  {
    hide Validation;
  }

  lemma SequenceGrows(s: System, step: Step, d: string)
    requires SequenceInv(s) && Enabled(s, step) && !step.Reset?
    ensures s.disk.MaxSequence(d) <= Next(s, step).disk.MaxSequence(d) <= Next(s, step).memory.MaxSequence(d)
  {
    hide Validation, Effect, Enabled;
    StepRecords(s, step);
    assert s.disk.MaxSequence(d) <= s.memory.MaxSequence(d);
  }

  lemma AcceptedDeliveryQueues(s: System, e: Envelope, site: Site)
    requires Validation(e, site, s.policy, s.memory).Accepted?
    ensures Enabled(s, Deliver(e, site))
    ensures var t := Next(s, Deliver(e, site));
            && t.workers == s.workers[s.nextWorker := Worker(e, Queued, s.time)]
            && t.nextWorker == s.nextWorker + 1 && t.time == s.time + 1
            && t.memory == s.memory && t.policy == s.policy && t.locks == s.locks && t.executed == s.executed
  {
    hide Validation;
  }

  lemma RejectedDeliveryChangesNothing(s: System, e: Envelope, site: Site)
    requires !Validation(e, site, s.policy, s.memory).Accepted?
    ensures var t := Next(s, Deliver(e, site)); t.workers == s.workers && t.executed == s.executed
  {
    hide Validation;
  }

  /** A newly accepted delivery is ahead of all executions and apart from all pending workers. */
  lemma DeliveryStep(s: System, e: Envelope, site: Site)
    requires SafeInv(s) && Disciplined(s, Deliver(e, site))
    ensures OrderInv(Next(s, Deliver(e, site)))
  {
    hide Validation, Next, AtMostOnce, Increasing;
    var t := Next(s, Deliver(e, site));
    if Validation(e, site, s.policy, s.memory).Accepted? {
      AcceptedIsNew(e, site, s.policy, s.memory);
      AcceptedDeliveryQueues(s, e, site);
      var n := s.nextWorker;
      assert Ahead(t, n) by {
        forall i | 0 <= i < |s.executed|
          ensures s.executed[i].env.commandId != e.commandId
          ensures s.executed[i].env.deviceId == e.deviceId ==> s.executed[i].env.sequence < e.sequence
        {
          assert ExecutionInv(s, s.executed[i]);
        }
      }
      forall w | w in s.workers && Pending(s.workers[w].stage)
        ensures Ahead(t, w) && Apart(s.workers[w], t.workers[n]) && Apart(t.workers[n], s.workers[w])
      {
        assert Ahead(s, w) && WorkerInv(s, s.workers[w]);
      }
    } else {
      RejectedDeliveryChangesNothing(s, e, site);
      forall w | w in s.workers && Pending(s.workers[w].stage) ensures Ahead(t, w) { assert Ahead(s, w); }
    }
  }

  /** The handler of a journaled worker runs before every other pending command of its device. */
  lemma HandlerStep(s: System, h: nat)
    requires SafeInv(s) && At(s, h, Journaled)
    ensures OrderInv(Next(s, CallHandler(h)))
  {
    hide Written, Validation;
    var t := Next(s, CallHandler(h));
    assert Ahead(s, h);
    forall w | w in t.workers && Pending(t.workers[w].stage)
      ensures Ahead(t, w)
    {
      assert Ahead(s, w) && Apart(s.workers[h], s.workers[w]);
    }
  }

  /** Steps that neither start a worker nor call a handler keep the order. */
  lemma QuietStep(s: System, step: Step)
    requires SafeInv(s) && Enabled(s, step) && !step.Reset? && !step.Deliver? && !step.CallHandler?
    ensures OrderInv(Next(s, step))
  {
    hide Validation, Effect, OrderInv, Moved;
    var t := Next(s, step);
    ExecutedStep(s, step);
    WorkersStay(s, step);
    forall w | w in t.workers ensures Moved(s, t, w) {
      WorkerMoves(s, step, w);
      SameMove(s, Effect(s, step), t, w);
    }
    MovesKeepOrder(s, t);
  }

  lemma WorkersStay(s: System, step: Step)
    requires Enabled(s, step) && !step.Deliver?
    ensures Effect(s, step).workers.Keys <= s.workers.Keys
  {
    hide Validation, Written;
  }

  lemma SameMove(s: System, u: System, t: System, w: nat)
    requires w in t.workers && u.workers == t.workers && u.disk == t.disk && Moved(s, u, w)
    ensures Moved(s, t, w)
  {
  }

  lemma MovesKeepOrder(s: System, t: System)
    requires LockInv(s) && OrderInv(s) && t.executed == s.executed && t.workers.Keys <= s.workers.Keys
    requires forall w :: w in t.workers ==> Moved(s, t, w)
    ensures OrderInv(t)
  {
    hide AtMostOnce, Increasing, Written;
    forall w | w in t.workers && Pending(t.workers[w].stage) ensures Ahead(t, w) {
      assert Moved(s, t, w);
      assert Ahead(s, w);
    }
    forall v, w | v in t.workers && w in t.workers && v != w && Pending(t.workers[v].stage) && Pending(t.workers[w].stage)
      ensures Apart(t.workers[v], t.workers[w])
    {
      assert Moved(s, t, v) && Moved(s, t, w);
      assert Apart(s.workers[v], s.workers[w]);
      var d := s.workers[v].env.deviceId;
      assert Holds(s, v, d) ==> d in s.locks;
      assert Holds(s, w, d) ==> d in s.locks;
    }
  }

  lemma {:induction false} SafeRun(s: System, steps: seq<Step>)
    requires SafeInv(s) && Possible(s, steps) && DisciplinedRun(s, steps)
    ensures SafeInv(Final(s, steps))
    decreases |steps|
  {
    hide LockInv, JournalInv, SequenceInv, OrderInv, Next, Disciplined, Moved;
    if steps != [] {
      var step := steps[0];
      LockStep(s, step);
      JournalStep(s, step);
      SequenceStep(s, step);
      if step.Deliver? {
        DeliveryStep(s, step.env, step.site);
      } else if step.CallHandler? {
        HandlerStep(s, step.worker);
      } else {
        QuietStep(s, step);
      }
      SafeRun(Next(s, step), steps[1..]);
    }
  }

  lemma StartIsSafe()
    ensures SafeInv(Start())
  {
  }

  /**
   With harmless deliveries, every run with crashes, refused writes, failing
   prerequisites and policy changes executes each command id at most once, and the
   sequence numbers executed on a device strictly increase.
   */
  lemma DisciplinedDeliveriesExecuteOnce(steps: seq<Step>)
    requires Possible(Start(), steps) && DisciplinedRun(Start(), steps)
    ensures AtMostOnce(Final(Start(), steps).executed)
    ensures Increasing(Final(Start(), steps).executed)
  {
    hide Possible, Final, DisciplinedRun;
    StartIsSafe();
    SafeRun(Start(), steps);
  }

  // ---------------------------------------------------------------- serialized deliveries

  /** No earlier accepted delivery for the same device or command id still waits for its first journal write. */
  ghost predicate Serial(s: System, step: Step) {
    step.Deliver? && Validation(step.env, step.site, s.policy, s.memory).Accepted? ==>
      forall w :: w in s.workers && Unjournaled(s.workers[w].stage) ==>
        s.workers[w].env.deviceId != step.env.deviceId && s.workers[w].env.commandId != step.env.commandId
  }

  ghost predicate SerialRun(s: System, steps: seq<Step>)
    requires Possible(s, steps)
    decreases |steps|
  {
    steps == [] || (Serial(s, steps[0]) && !steps[0].Reset? && SerialRun(Next(s, steps[0]), steps[1..]))
  }

  lemma {:induction false} SerialIsDisciplined(s: System, steps: seq<Step>)
    requires Possible(s, steps) && SerialRun(s, steps)
    ensures DisciplinedRun(s, steps)
    decreases |steps|
  {
    hide Next, Enabled, Validation;
    if steps != [] {
      assert Disciplined(s, steps[0]);
      SerialIsDisciplined(Next(s, steps[0]), steps[1..]);
    }
  }

  /**
   In particular this holds when every accepted delivery reaches the journal before the
   next one for its device or with its command id is validated.
   */
  lemma SerializedDeliveriesExecuteOnce(steps: seq<Step>)
    requires Possible(Start(), steps) && SerialRun(Start(), steps)
    ensures AtMostOnce(Final(Start(), steps).executed)
    ensures Increasing(Final(Start(), steps).executed)
  {
    hide Possible, Final, DisciplinedRun, SerialRun, AtMostOnce, Increasing;
    SerialIsDisciplined(Start(), steps);
    DisciplinedDeliveriesExecuteOnce(steps);
  }
}
