/**
 Runs of the governed-command protocol: which deliveries can go wrong, what a failing
 worker can overlap with, and a run from the start in which a command is executed.
 */
module CommandRuns {
  import opened Common
  import opened CommandJournal
  import opened GovernedCommands
  import opened CommandProtocol

  // ---------------------------------------------------------------- putting runs together

  predicate Quiet(step: Step) { !step.Deliver? && !step.Reset? }

  /** Steps of workers and policies only, from `s` to `t`. */
  ghost predicate Leads(s: System, steps: seq<Step>, t: System) {
    && Possible(s, steps) && Final(s, steps) == t
    && forall i :: 0 <= i < |steps| ==> Quiet(steps[i])
  }

  lemma LeadsNowhere(s: System)
    ensures Leads(s, [], s)
  {
  }

  lemma LeadsOne(s: System, step: Step)
    requires Enabled(s, step) && Quiet(step)
    ensures Leads(s, [step], Next(s, step))
  {
    hide Enabled, Next;
    assert [step][1..] == [];
    assert Final(s, [step]) == Final(Next(s, step), [step][1..]);
  }

  lemma {:induction false} Concatenate(s: System, first: seq<Step>, second: seq<Step>)
    requires Possible(s, first) && Possible(Final(s, first), second)
    ensures Possible(s, first + second) && Final(s, first + second) == Final(Final(s, first), second)
    decreases |first|
  {
    hide Enabled, Next;
    if first == [] {
      assert first + second == second;
    } else {
      assert (first + second)[0] == first[0] && (first + second)[1..] == first[1..] + second;
      Concatenate(Next(s, first[0]), first[1..], second);
    }
  }

  lemma LeadsOn(s: System, first: seq<Step>, m: System, second: seq<Step>, t: System)
    requires Leads(s, first, m) && Leads(m, second, t)
    ensures Leads(s, first + second, t)
  {
    hide Possible, Final;
    Concatenate(s, first, second);
  }

  // ---------------------------------------------------------------- single steps of a worker

  lemma TakesLock(s: System, w: nat)
    requires LockInv(s) && At(s, w, Queued) && s.workers[w].env.deviceId !in s.locks
    ensures Enabled(s, TakeLock(w)) && Leads(s, [TakeLock(w)], Next(s, TakeLock(w)))
    ensures var t := Next(s, TakeLock(w));
            && LockInv(t) && t.executed == s.executed && t.workers == s.workers[w := s.workers[w].(stage := Locked)]
            && t.memory == s.memory && t.disk == s.disk && t.policy == s.policy && t.nextWorker == s.nextWorker
  {
    hide LockInv;
    LeadsOne(s, TakeLock(w));
    LockStep(s, TakeLock(w));
  }

  lemma Journals(s: System, w: nat)
    requires LockInv(s) && At(s, w, Locked)
    ensures Enabled(s, MarkExecuting(w, true)) && Leads(s, [MarkExecuting(w, true)], Next(s, MarkExecuting(w, true)))
    ensures var t := Next(s, MarkExecuting(w, true));
            && LockInv(t) && t.executed == s.executed && t.workers == s.workers[w := s.workers[w].(stage := Journaled)]
            && t.policy == s.policy
  {
    hide LockInv, Written;
    LeadsOne(s, MarkExecuting(w, true));
    LockStep(s, MarkExecuting(w, true));
  }

  lemma Runs(s: System, w: nat)
    requires LockInv(s) && At(s, w, Journaled)
    ensures Enabled(s, CallHandler(w)) && Leads(s, [CallHandler(w)], Next(s, CallHandler(w)))
    ensures var t := Next(s, CallHandler(w));
            && LockInv(t) && t.executed == s.executed + [Execution(s.workers[w].env, s.workers[w].admittedAt)]
            && t.workers == s.workers[w := s.workers[w].(stage := Running)]
            && t.policy == s.policy
  {
    hide LockInv;
    LeadsOne(s, CallHandler(w));
    LockStep(s, CallHandler(w));
  }

  /** The step in which a worker fails inside its critical section and leaves the lock. */
  function Failure(stage: Stage, w: nat): Step
    requires HoldsLock(stage)
  {
    if stage == Locked then PrerequisiteFails(w) else if stage == Journaled then ResponseFails(w) else HandlerRaises(w)
  }

  lemma Fails(s: System, w: nat)
    requires LockInv(s) && w in s.workers && HoldsLock(s.workers[w].stage)
    ensures var step := Failure(s.workers[w].stage, w);
            && Enabled(s, step) && Leads(s, [step], Next(s, step))
            && var t := Next(s, step);
               && LockInv(t) && t.executed == s.executed && t.workers == s.workers[w := s.workers[w].(stage := Failing)]
               && t.locks == s.locks - {s.workers[w].env.deviceId} && t.memory == s.memory && t.policy == s.policy
               && t.disk == s.disk && t.nextWorker == s.nextWorker
  {
    hide LockInv;
    var step := Failure(s.workers[w].stage, w);
    LeadsOne(s, step);
    LockStep(s, step);
  }

  // ---------------------------------------------------------------- a worker can always be brought to its handler

  /** Every worker outside a critical section, but for `w`, is in `t` as it was in `s`. */
  ghost predicate OthersWait(s: System, t: System, w: nat) {
    forall x :: x != w && (At(s, x, Queued) || At(s, x, Failing)) ==> x in t.workers && t.workers[x] == s.workers[x]
  }

  lemma FreeDevice(s: System, d: string, w: nat) returns (steps: seq<Step>, t: System)
    requires LockInv(s) && At(s, w, Queued)
    ensures Leads(s, steps, t) && LockInv(t) && t.executed == s.executed && d !in t.locks
    ensures OthersWait(s, t, w) && At(t, w, Queued) && t.workers[w] == s.workers[w]
  {
    hide Leads, Next;
    if d in s.locks {
      var u := s.locks[d];
      assert Holds(s, u, d);
      Fails(s, u);
      steps := [Failure(s.workers[u].stage, u)];
      t := Next(s, steps[0]);
    } else {
      LeadsNowhere(s);
      steps, t := [], s;
    }
  }

  /** Whatever the journal says, a worker that has not reached it yet can run its handler. */
  lemma ReachHandler(s: System, w: nat) returns (steps: seq<Step>, t: System)
    requires LockInv(s) && w in s.workers && Unjournaled(s.workers[w].stage)
    ensures Leads(s, steps, t) && LockInv(t)
    ensures t.executed == s.executed + [Execution(s.workers[w].env, s.workers[w].admittedAt)]
    ensures OthersWait(s, t, w) && w in t.workers && t.workers[w] == s.workers[w].(stage := Running)
  {
    hide Leads, Next, LockInv;
    var m := s;
    LeadsNowhere(s);
    steps := [];
    if s.workers[w].stage == Queued {
      steps, m := FreeDevice(s, s.workers[w].env.deviceId, w);
      TakesLock(m, w);
      LeadsOn(s, steps, m, [TakeLock(w)], Next(m, TakeLock(w)));
      steps, m := steps + [TakeLock(w)], Next(m, TakeLock(w));
    }
    Journals(m, w);
    LeadsOn(s, steps, m, [MarkExecuting(w, true)], Next(m, MarkExecuting(w, true)));
    steps, m := steps + [MarkExecuting(w, true)], Next(m, MarkExecuting(w, true));
    Runs(m, w);
    LeadsOn(s, steps, m, [CallHandler(w)], Next(m, CallHandler(w)));
    steps, t := steps + [CallHandler(w)], Next(m, CallHandler(w));
  }

  /** Two workers that have not reached the journal, the second one still waiting, can run in this order. */
  lemma RunBoth(s: System, v: nat, w: nat) returns (steps: seq<Step>, t: System)
    requires LockInv(s) && v != w && v in s.workers && Unjournaled(s.workers[v].stage) && At(s, w, Queued)
    ensures Leads(s, steps, t)
    ensures t.executed == s.executed + [Execution(s.workers[v].env, s.workers[v].admittedAt),
                                        Execution(s.workers[w].env, s.workers[w].admittedAt)]
  {
    hide Leads, LockInv;
    var first, m := ReachHandler(s, v);
    var second, u := ReachHandler(m, w);
    LeadsOn(s, first, m, second, u);
    steps, t := first + second, u;
  }

  lemma LastTwo(executed: seq<Execution>, x: Execution, y: Execution)
    ensures y.env.commandId == x.env.commandId ==> !AtMostOnce(executed + [x, y])
    ensures y.env.deviceId == x.env.deviceId && y.env.sequence <= x.env.sequence ==> !Increasing(executed + [x, y])
  {
    var all := executed + [x, y];
    assert all[|executed|] == x && all[|executed| + 1] == y;
  }

  // ---------------------------------------------------------------- the exact discipline

  ghost predicate Good(s: System) { AtMostOnce(s.executed) && Increasing(s.executed) }

  /** An accepted delivery that is not harmless can go wrong without any further delivery. */
  lemma HarmfulDeliveryGoesWrong(s: System, e: Envelope, site: Site) returns (steps: seq<Step>, t: System)
    requires LockInv(s) && Validation(e, site, s.policy, s.memory).Accepted? && !Harmless(s, e)
    ensures Leads(Next(s, Deliver(e, site)), steps, t) && !Good(t)
  {
    hide Leads, Next, Validation, AtMostOnce, Increasing;
    var w :| w in s.workers && Unjournaled(s.workers[w].stage) &&
             !(&& s.workers[w].env.commandId != e.commandId
               && (s.workers[w].env.deviceId == e.deviceId ==> s.workers[w].stage == Locked && s.workers[w].env.sequence < e.sequence));
    var n := s.nextWorker;
    assert w < n;
    var delivered := Next(s, Deliver(e, site));
    AcceptedDeliveryQueues(s, e, site);
    LockStep(s, Deliver(e, site));
    var x, y := Execution(s.workers[w].env, s.workers[w].admittedAt), Execution(e, s.time);
    LastTwo(s.executed, x, y);
    LastTwo(s.executed, y, x);
    if e.commandId != s.workers[w].env.commandId && s.workers[w].env.sequence < e.sequence {
      steps, t := RunBoth(delivered, n, w);
    } else {
      steps, t := RunBoth(delivered, w, n);
    }
  }

  lemma {:induction false} QuietRunsAreDisciplined(s: System, steps: seq<Step>, t: System)
    requires Leads(s, steps, t)
    ensures DisciplinedRun(s, steps)
    decreases |steps|
  {
    hide Next, Enabled, Disciplined;
    if steps != [] {
      assert Quiet(steps[0]);
      QuietIsDisciplined(s, steps[0]);
      assert Leads(Next(s, steps[0]), steps[1..], t) by {
        forall i | 0 <= i < |steps[1..]| ensures Quiet(steps[1..][i]) { assert steps[1..][i] == steps[i + 1]; }
      }
      QuietRunsAreDisciplined(Next(s, steps[0]), steps[1..], t);
    }
  }

  lemma QuietIsDisciplined(s: System, step: Step)
    requires Quiet(step)
    ensures Disciplined(s, step)
  {
  }

  lemma HarmlessDeliveryIsSafe(s: System, e: Envelope, site: Site)
    requires SafeInv(s) && Harmless(s, e)
    ensures SafeInv(Next(s, Deliver(e, site)))
  {
    hide Validation, Effect, Harmless, LockInv, JournalInv, SequenceInv, OrderInv;
    var step := Deliver(e, site);
    LockStep(s, step);
    JournalStep(s, step);
    SequenceStep(s, step);
    DeliveryStep(s, e, site);
  }

  /**
   The discipline is exact: in every safe state an accepted delivery is harmless if and
   only if at-most-once and the order of sequence numbers survive whatever the workers,
   crashes and policies do afterwards.
   */
  lemma HarmlessExactly(s: System, e: Envelope, site: Site)
    requires SafeInv(s) && Validation(e, site, s.policy, s.memory).Accepted?
    ensures Harmless(s, e) <==> forall steps, t :: Leads(Next(s, Deliver(e, site)), steps, t) ==> Good(t)
  {
    hide Leads, Next, Validation, Good, Harmless, JournalInv, SequenceInv, OrderInv, LockInv;
    if Harmless(s, e) {
      var delivered := Next(s, Deliver(e, site));
      HarmlessDeliveryIsSafe(s, e, site);
      forall steps, t | Leads(delivered, steps, t) ensures Good(t) {
        SafeContinuation(delivered, steps, t);
      }
    } else {
      var steps, t := HarmfulDeliveryGoesWrong(s, e, site);
    }
  }

  lemma SafeContinuation(s: System, steps: seq<Step>, t: System)
    requires SafeInv(s) && Leads(s, steps, t)
    ensures Good(t)
  {
    hide Possible, Final, DisciplinedRun, LockInv, JournalInv, SequenceInv, AtMostOnce, Increasing;
    QuietRunsAreDisciplined(s, steps, t);
    SafeRun(s, steps);
  }

  /**
   In particular, in every state two deliveries that would each be accepted both run when
   the second is validated before the first has reached the journal: a redelivery
   (`f == e`), or one command id sent to two devices, then runs twice.
   */
  lemma OvertakingDeliveryAlsoExecutes(s: System, e: Envelope, f: Envelope, site: Site) returns (steps: seq<Step>, t: System)
    requires LockInv(s)
    requires Validation(e, site, s.policy, s.memory).Accepted? && Validation(f, site, s.policy, s.memory).Accepted?
    ensures Leads(Next(Next(s, Deliver(e, site)), Deliver(f, site)), steps, t)
    ensures t.executed == s.executed + [Execution(e, s.time), Execution(f, s.time + 1)]
    ensures f.commandId == e.commandId ==> !AtMostOnce(t.executed)
    ensures f.deviceId == e.deviceId && f.sequence <= e.sequence ==> !Increasing(t.executed)
  {
    hide Leads, Next, Validation, AtMostOnce, Increasing;
    var m := Next(s, Deliver(e, site));
    AcceptedDeliveryQueues(s, e, site);
    AcceptedDeliveryQueues(m, f, site);
    LockStep(s, Deliver(e, site));
    LockStep(m, Deliver(f, site));
    steps, t := RunBoth(Next(m, Deliver(f, site)), s.nextWorker, s.nextWorker + 1);
    LastTwo(s.executed, Execution(e, s.time), Execution(f, s.time + 1));
  }

  // ---------------------------------------------------------------- failing workers

  /**
   A failing command leaves the lock before its terminal record is written: of two
   waiting workers of one device, one can fail and the other be in its handler while the
   first still owes its record.
   */
  lemma FailingWorkerOverlaps(s: System, v: nat, w: nat) returns (steps: seq<Step>, t: System)
    requires LockInv(s) && v != w && At(s, v, Queued) && At(s, w, Queued)
    requires s.workers[v].env.deviceId == s.workers[w].env.deviceId
    ensures Leads(s, steps, t) && At(t, v, Failing) && At(t, w, Running)
    ensures t.workers[v].env.deviceId == t.workers[w].env.deviceId
  {
    hide Leads, Next, LockInv;
    var first, m := ReachHandler(s, v);
    Fails(m, v);
    var failed := Next(m, HandlerRaises(v));
    LeadsOn(s, first, m, [HandlerRaises(v)], failed);
    var second, u := ReachHandler(failed, w);
    LeadsOn(s, first + [HandlerRaises(v)], failed, second, u);
    steps, t := first + [HandlerRaises(v)] + second, u;
  }

  /** One serialized step in front of a serialized run. */
  lemma SerialOn(s: System, step: Step, rest: seq<Step>)
    requires Enabled(s, step) && Serial(s, step) && !step.Reset?
    requires Possible(Next(s, step), rest) && SerialRun(Next(s, step), rest)
    ensures Possible(s, [step] + rest) && SerialRun(s, [step] + rest)
    ensures Final(s, [step] + rest) == Final(Next(s, step), rest)
  {
    hide Enabled, Next, Serial;
    assert ([step] + rest)[0] == step && ([step] + rest)[1..] == rest;
  }

  lemma SerialEnd(s: System)
    ensures Possible(s, []) && SerialRun(s, []) && Final(s, []) == s
  {
  }

  /** Only deliveries are subject to the discipline. */
  lemma OthersAreSerial(s: System, step: Step)
    requires !step.Deliver?
    ensures Serial(s, step)
  {
  }

  /** A failing worker writes its terminal record and ends. */
  lemma Owes(s: System, v: nat, outcome: string)
    requires At(s, v, Failing)
    ensures Enabled(s, RecordFailure(v, outcome, true))
    ensures var e := s.workers[v].env;
            var t := Next(s, RecordFailure(v, outcome, true));
            && t.memory == t.disk == Written(s.memory, e.commandId, TerminalRecord(e, outcome))
            && t.workers == s.workers - {v} && t.policy == s.policy
  {
    hide Written;
  }

  /** A terminal record answers every later delivery of the command that would otherwise be screened through. */
  lemma TerminalAnswers(e: Envelope, site: Site, policy: Option<Policy>, j: Journal, k: Journal, outcome: string)
    requires Validation(e, site, policy, j).Accepted?
    ensures Validation(e, site, policy, Written(k, e.commandId, TerminalRecord(e, outcome))) == Replay(TerminalRecord(e, outcome))
  {
    hide Screen;
  }

  /** A delivery whose prerequisites fail, and a redelivery that runs before the failure is recorded. */
  function Masking(e: Envelope, site: Site, v: nat): seq<Step> {
    [Deliver(e, site)] + ([TakeLock(v)] + ([PrerequisiteFails(v)] + Redelivery(e, site, v)))
  }

  function Redelivery(e: Envelope, site: Site, v: nat): seq<Step> {
    [Deliver(e, site)] + ([TakeLock(v + 1)] + ([MarkExecuting(v + 1, true)] + ([CallHandler(v + 1)]
    + ([RecordFailure(v, "failed", true)] + []))))
  }

  /** What the redelivery comes to: its handler runs, and the journal says that the command has failed. */
  ghost predicate Masked(t: System, e: Envelope, site: Site, w: nat) {
    && At(t, w, Running) && t.workers[w].env == e
    && e.commandId in t.disk.commands && t.disk.commands[e.commandId] == TerminalRecord(e, "failed")
    && Validation(e, site, t.policy, t.memory) == Replay(TerminalRecord(e, "failed"))
  }

  lemma RedeliveryIsMasked(s: System, e: Envelope, site: Site, v: nat)
    requires LockInv(s) && e.deviceId !in s.locks && Validation(e, site, s.policy, s.memory).Accepted?
    requires Serial(s, Deliver(e, site)) && At(s, v, Failing) && s.workers[v].env == e && s.nextWorker == v + 1
    ensures Possible(s, Redelivery(e, site, v)) && SerialRun(s, Redelivery(e, site, v))
    ensures Masked(Final(s, Redelivery(e, site, v)), e, site, v + 1)
  {
    hide Next, Enabled, Validation, Leads, Possible, Final, SerialRun, Serial, LockInv, Written;
    var w := v + 1;
    AcceptedDeliveryQueues(s, e, site);
    LockStep(s, Deliver(e, site));
    var s1 := Next(s, Deliver(e, site));
    TakesLock(s1, w);
    var s2 := Next(s1, TakeLock(w));
    Journals(s2, w);
    var s3 := Next(s2, MarkExecuting(w, true));
    Runs(s3, w);
    var s4 := Next(s3, CallHandler(w));
    Owes(s4, v, "failed");
    var s5 := Next(s4, RecordFailure(v, "failed", true));
    TerminalAnswers(e, site, s.policy, s.memory, s4.memory, "failed");
    WriteOnlyAdvances(s4.memory, e.commandId, TerminalRecord(e, "failed"), e.deviceId);
    SerialEnd(s5);
    QuietSerial(s4, RecordFailure(v, "failed", true), []);
    QuietSerial(s3, CallHandler(w), [RecordFailure(v, "failed", true)] + []);
    QuietSerial(s2, MarkExecuting(w, true), [CallHandler(w)] + ([RecordFailure(v, "failed", true)] + []));
    QuietSerial(s1, TakeLock(w), [MarkExecuting(w, true)] + ([CallHandler(w)] + ([RecordFailure(v, "failed", true)] + [])));
    SerialOn(s, Deliver(e, site),
             [TakeLock(w)] + ([MarkExecuting(w, true)] + ([CallHandler(w)] + ([RecordFailure(v, "failed", true)] + []))));
  }

  lemma QuietSerial(s: System, step: Step, rest: seq<Step>)
    requires Enabled(s, step) && Quiet(step) && Possible(Next(s, step), rest) && SerialRun(Next(s, step), rest)
    ensures Possible(s, [step] + rest) && SerialRun(s, [step] + rest)
    ensures Final(s, [step] + rest) == Final(Next(s, step), rest)
  {
    hide Next, Enabled, Possible, Final, SerialRun, Serial;
    OthersAreSerial(s, step);
    SerialOn(s, step, rest);
  }

  /**
   Also in serialized runs, from every state in which a command is accepted and its device
   is free: the failure record of one delivery replaces the durable record of a
   redelivery whose handler is still running, and every later delivery is answered with
   that failure.
   */
  lemma FailureMasksARunningCommand(s: System, e: Envelope, site: Site)
    requires LockInv(s) && e.deviceId !in s.locks && Validation(e, site, s.policy, s.memory).Accepted?
    requires Serial(s, Deliver(e, site))
    ensures var steps := Masking(e, site, s.nextWorker);
            && Possible(s, steps) && SerialRun(s, steps)
            && Masked(Final(s, steps), e, site, s.nextWorker + 1)
  {
    hide Next, Enabled, Validation, Leads, Possible, Final, SerialRun, LockInv, Masked;
    var v := s.nextWorker;
    AcceptedDeliveryQueues(s, e, site);
    LockStep(s, Deliver(e, site));
    var s1 := Next(s, Deliver(e, site));
    TakesLock(s1, v);
    var s2 := Next(s1, TakeLock(v));
    Fails(s2, v);
    var s3 := Next(s2, PrerequisiteFails(v));
    RedeliveryIsMasked(s3, e, site, v);
    QuietSerial(s2, PrerequisiteFails(v), Redelivery(e, site, v));
    QuietSerial(s1, TakeLock(v), [PrerequisiteFails(v)] + Redelivery(e, site, v));
    SerialOn(s, Deliver(e, site), [TakeLock(v)] + ([PrerequisiteFails(v)] + Redelivery(e, site, v)));
  }

  // ---------------------------------------------------------------- when a record masks a running command

  /** A handler of the command runs while the journal says that the command has ended. */
  ghost predicate Contradicts(t: System, id: string) {
    && id in t.memory.commands && t.memory.commands[id].state == Terminal
    && exists w :: At(t, w, Running) && t.workers[w].env.commandId == id
  }

  /** Some worker with the command id has failed and still owes its record. */
  ghost predicate Owed(s: System, id: string) {
    exists v :: At(s, v, Failing) && s.workers[v].env.commandId == id
  }

  /** Worker `n` is the only one with the command id, and no terminal record precedes its failure. */
  ghost predicate Sole(s: System, n: nat, id: string) {
    && (forall w :: w in s.workers && s.workers[w].env.commandId == id ==> w == n)
    && (n in s.workers && s.workers[n].env.commandId == id && s.workers[n].stage != Failing && id in s.memory.commands ==>
          s.memory.commands[id].state == Executing)
  }

  /** What a step of worker `u` writes: a record for its own command, terminal only when it fails or ends. */
  lemma WorkerWrites(s: System, step: Step)
    requires Enabled(s, step) && OfWorker(step)
    ensures step.worker in s.workers
    ensures var u := step.worker;
            var t := Next(s, step);
            || t.memory == s.memory
            || exists r :: && t.memory == Written(s.memory, s.workers[u].env.commandId, r)
                           && (r.state == Terminal ==> u !in t.workers || t.workers[u].stage == Failing)
  {
    hide Written, Validation;
  }

  lemma OthersWrite(s: System, step: Step)
    requires Enabled(s, step) && !OfWorker(step) && Quiet(step)
    ensures var t := Next(s, step); t.workers == map[] || (t.workers == s.workers && t.memory.commands == s.memory.commands)
  {
    hide Validation;
  }

  lemma SoleStep(s: System, step: Step, n: nat, id: string)
    requires Sole(s, n, id) && Enabled(s, step) && Quiet(step)
    ensures Sole(Next(s, step), n, id)
  {
    hide Effect, Enabled, Written;
    var t := Next(s, step);
    if OfWorker(step) {
      var u := step.worker;
      WorkerStep(s, step);
      WorkerWrites(s, step);
      if t.memory != s.memory {
        var r :| && t.memory == Written(s.memory, s.workers[u].env.commandId, r)
                 && (r.state == Terminal ==> u !in t.workers || t.workers[u].stage == Failing);
        WriteOnlyAdvances(s.memory, s.workers[u].env.commandId, r, "");
      }
    } else {
      OthersWrite(s, step);
    }
  }

  lemma {:induction false} SoleRun(s: System, steps: seq<Step>, t: System, n: nat, id: string)
    requires Sole(s, n, id) && Leads(s, steps, t)
    ensures Sole(t, n, id)
    decreases |steps|
  {
    hide Sole, Next, Enabled;
    if steps != [] {
      assert Quiet(steps[0]);
      SoleStep(s, steps[0], n, id);
      assert Leads(Next(s, steps[0]), steps[1..], t) by {
        forall i | 0 <= i < |steps[1..]| ensures Quiet(steps[1..][i]) { assert steps[1..][i] == steps[i + 1]; }
      }
      SoleRun(Next(s, steps[0]), steps[1..], t, n, id);
    }
  }

  /** An owed record can be written while the handler of the redelivery runs. */
  lemma OwedRecordContradicts(s: System, e: Envelope, site: Site) returns (steps: seq<Step>, t: System)
    requires LockInv(s) && Validation(e, site, s.policy, s.memory).Accepted? && Owed(s, e.commandId)
    ensures Leads(Next(s, Deliver(e, site)), steps, t) && Contradicts(t, e.commandId)
  {
    hide Leads, Next, Validation, LockInv, Enabled, Written;
    var n := s.nextWorker;
    var v :| At(s, v, Failing) && s.workers[v].env.commandId == e.commandId;
    assert v < n by { WorkersAreNumbered(s, v); }
    AcceptedDeliveryQueues(s, e, site);
    var m := Next(s, Deliver(e, site));
    LockStep(s, Deliver(e, site));
    var first, u := ReachHandler(m, n);
    Owes(u, v, "failed");
    var last := RecordFailure(v, "failed", true);
    LeadsOne(u, last);
    t := Next(u, last);
    WriteOnlyAdvances(u.memory, e.commandId, TerminalRecord(u.workers[v].env, "failed"), "");
    assert At(t, n, Running);
    LeadsOn(m, first, u, [last], t);
    steps := first + [last];
  }

  lemma WorkersAreNumbered(s: System, w: nat)
    requires LockInv(s) && w in s.workers
    ensures w < s.nextWorker
  {
  }

  /** Right after a harmless delivery with nothing owed, the new worker is the only one of its command. */
  lemma FreshIsSole(s: System, e: Envelope, site: Site)
    requires LockInv(s) && JournalInv(s) && Harmless(s, e) && !Owed(s, e.commandId)
    requires Validation(e, site, s.policy, s.memory).Accepted?
    ensures Sole(Next(s, Deliver(e, site)), s.nextWorker, e.commandId)
  {
    hide Next, Validation, LockInv;
    AcceptedIsNew(e, site, s.policy, s.memory);
    AcceptedDeliveryQueues(s, e, site);
    forall w | w in s.workers ensures s.workers[w].env.commandId != e.commandId {
      assert WorkerInv(s, s.workers[w]);
      assert At(s, w, Failing) ==> s.workers[w].env.commandId != e.commandId;
    }
  }

  /**
   The condition is exact: after a harmless delivery the workers, crashes and policies can
   bring about a running handler beside a terminal record of its command if and only if,
   at the delivery, an earlier worker with that command id has failed and still owes its
   record.
   */
  lemma FailureMasksExactly(s: System, e: Envelope, site: Site)
    requires LockInv(s) && JournalInv(s) && Harmless(s, e) && Validation(e, site, s.policy, s.memory).Accepted?
    ensures (exists steps, t :: Leads(Next(s, Deliver(e, site)), steps, t) && Contradicts(t, e.commandId))
       <==> Owed(s, e.commandId)
  {
    hide Leads, Next, Validation, LockInv, JournalInv, Harmless, Owed, Contradicts;
    if Owed(s, e.commandId) {
      var steps, t := OwedRecordContradicts(s, e, site);
    } else {
      var m := Next(s, Deliver(e, site));
      FreshIsSole(s, e, site);
      forall steps, t | Leads(m, steps, t) ensures !Contradicts(t, e.commandId) {
        SoleRun(m, steps, t, s.nextWorker, e.commandId);
        SoleIsConsistent(t, s.nextWorker, e.commandId);
      }
    }
  }

  lemma SoleIsConsistent(t: System, n: nat, id: string)
    requires Sole(t, n, id)
    ensures !Contradicts(t, id)
  {
  }

  /**
   A success whose answer cannot be sent is recorded a second time, as a failure: the
   worker writes its terminal record, raises inside the lock, and owes another one.
   */
  lemma UnansweredSuccessBecomesFailure(s: System, w: nat, outcome: string)
    requires At(s, w, Running)
    ensures Enabled(s, Complete(w, outcome, true, false))
    ensures var e := s.workers[w].env;
            var m := Next(s, Complete(w, outcome, true, false));
            && m.disk == Written(s.memory, e.commandId, TerminalRecord(e, outcome)) && At(m, w, Failing)
            && Enabled(m, RecordFailure(w, "failed", true))
            && var t := Next(m, RecordFailure(w, "failed", true));
               t.disk.commands == s.memory.commands[e.commandId := TerminalRecord(e, "failed")] && w !in t.workers
  {
    hide Validation;
  }

  // ---------------------------------------------------------------- what is recorded is what is answered

  /** Memory and file hold this record for the command. */
  ghost predicate Holding(s: System, id: string, r: Record) {
    && id in s.memory.commands && s.memory.commands[id] == r
    && id in s.disk.commands && s.disk.commands[id] == r
  }

  /** What the writes of a worker record, when the disk takes them. */
  lemma StepsRecord(s: System, step: Step)
    requires Enabled(s, step)
    ensures (step.MarkExecuting? || step.Complete? || step.RecordFailure?) && step.writable ==>
              var e := s.workers[step.worker].env;
              Holding(Next(s, step), e.commandId,
                      if step.MarkExecuting? then Record(Executing, e.deviceId, e.sequence, "")
                      else Record(Terminal, e.deviceId, e.sequence, step.outcome))
  {
    hide Validation;
  }

  /** The step is a journal write of a worker with this command id. */
  predicate Writes(s: System, step: Step, id: string)
    requires Enabled(s, step)
  {
    (step.MarkExecuting? || step.Complete? || step.RecordFailure?) && s.workers[step.worker].env.commandId == id
  }

  ghost predicate NeverWrites(s: System, steps: seq<Step>, id: string)
    requires Possible(s, steps)
    decreases |steps|
  {
    steps == [] ||
    (!steps[0].Reset? && !Writes(s, steps[0], id) && NeverWrites(Next(s, steps[0]), steps[1..], id))
  }

  lemma HoldingStep(s: System, step: Step, id: string, r: Record)
    requires Holding(s, id, r) && Enabled(s, step) && !step.Reset? && !Writes(s, step, id)
    ensures Holding(Next(s, step), id, r)
  {
    hide Validation;
  }

  lemma {:induction false} HoldingRun(s: System, steps: seq<Step>, id: string, r: Record)
    requires Holding(s, id, r) && Possible(s, steps) && NeverWrites(s, steps, id)
    ensures Holding(Final(s, steps), id, r)
    decreases |steps|
  {
    hide Holding, Next, Enabled, Writes;
    if steps != [] {
      HoldingStep(s, steps[0], id, r);
      HoldingRun(Next(s, steps[0]), steps[1..], id, r);
    }
  }

  /**
   A command whose outcome was recorded and answered: memory and file hold its terminal
   record, and as long as nothing writes that command id again, every delivery of it that
   passes the conditions, also after crashes, is answered with exactly that outcome.
   */
  lemma CompletedCommandIsAnswered(s: System, w: nat, o: string, steps: seq<Step>, d: Envelope, site: Site)
    requires At(s, w, Running)
    requires Possible(Next(s, Complete(w, o, true, true)), steps)
    requires NeverWrites(Next(s, Complete(w, o, true, true)), steps, s.workers[w].env.commandId)
    requires d.commandId == s.workers[w].env.commandId
    ensures var e := s.workers[w].env;
            var r := Record(Terminal, e.deviceId, e.sequence, o);
            var t := Final(Next(s, Complete(w, o, true, true)), steps);
            && Holding(Next(s, Complete(w, o, true, true)), e.commandId, r)
            && Holding(t, e.commandId, r)
            && (Passes(d, site, t.policy) ==> Validation(d, site, t.policy, t.memory) == Replay(r))
  {
    hide Next, Possible, Final, Validation, Passes, NeverWrites;
    var e := s.workers[w].env;
    var r := Record(Terminal, e.deviceId, e.sequence, o);
    StepsRecord(s, Complete(w, o, true, true));
    var m := Next(s, Complete(w, o, true, true));
    HoldingRun(m, steps, e.commandId, r);
    var t := Final(m, steps);
    ReplayExactly(d, site, t.policy, t.memory, r);
  }

  /** No worker has the command id. */
  ghost predicate NoWorker(s: System, id: string) { forall w :: w in s.workers ==> s.workers[w].env.commandId != id }

  lemma AloneStep(s: System, step: Step, id: string, r: Record)
    requires Holding(s, id, r) && NoWorker(s, id) && LockInv(s) && Enabled(s, step) && !step.Reset?
    ensures !Writes(s, step, id) && NoWorker(Next(s, step), id) && LockInv(Next(s, step))
  {
    hide Next, Effect, Enabled, Validation, LockInv;
    LockStep(s, step);
    WriterExists(s, step);
    forall w | w in Next(s, step).workers ensures Next(s, step).workers[w].env.commandId != id {
      SameWorkers(s, step);
      WorkerMoves(s, step, w);
    }
  }

  lemma WriterExists(s: System, step: Step)
    requires Enabled(s, step)
    ensures step.MarkExecuting? || step.Complete? || step.RecordFailure? ==> step.worker in s.workers
  {
  }

  lemma SameWorkers(s: System, step: Step)
    requires Enabled(s, step)
    ensures Next(s, step).workers == Effect(s, step).workers
  {
    hide Effect;
  }

  lemma {:induction false} AloneNeverWrites(s: System, steps: seq<Step>, id: string, r: Record)
    requires Holding(s, id, r) && NoWorker(s, id) && LockInv(s) && Possible(s, steps) && NoReset(steps)
    ensures NeverWrites(s, steps, id)
    decreases |steps|
  {
    hide Holding, NoWorker, LockInv, Next, Enabled, Writes;
    if steps != [] {
      assert !steps[0].Reset?;
      assert NoReset(steps[1..]) by {
        forall i | 0 <= i < |steps[1..]| ensures !steps[1..][i].Reset? { assert steps[1..][i] == steps[i + 1]; }
      }
      AloneStep(s, steps[0], id, r);
      HoldingStep(s, steps[0], id, r);
      AloneNeverWrites(Next(s, steps[0]), steps[1..], id, r);
    }
  }

  /**
   When no other worker has the command id, nothing ever writes it again: from then on, in
   every run without reset, deliveries of the command that pass are answered with its
   outcome for good.
   */
  lemma CompletedCommandIsAnsweredForGood(s: System, w: nat, o: string, steps: seq<Step>, d: Envelope, site: Site)
    requires LockInv(s) && At(s, w, Running) && d.commandId == s.workers[w].env.commandId
    requires forall v :: v in s.workers && s.workers[v].env.commandId == d.commandId ==> v == w
    requires Possible(Next(s, Complete(w, o, true, true)), steps) && NoReset(steps)
    ensures var e := s.workers[w].env;
            var t := Final(Next(s, Complete(w, o, true, true)), steps);
            Passes(d, site, t.policy) ==>
              Validation(d, site, t.policy, t.memory) == Replay(Record(Terminal, e.deviceId, e.sequence, o))
  {
    hide Effect, Possible, Final, Validation, Passes, NeverWrites, LockInv, NoReset;
    var e := s.workers[w].env;
    var step := Complete(w, o, true, true);
    StepsRecord(s, step);
    LockStep(s, step);
    WorkerEnds(s, w, o);
    AloneNeverWrites(Next(s, step), steps, e.commandId, Record(Terminal, e.deviceId, e.sequence, o));
    CompletedCommandIsAnswered(s, w, o, steps, d, site);
  }

  lemma WorkerEnds(s: System, w: nat, o: string)
    requires At(s, w, Running)
    ensures Next(s, Complete(w, o, true, true)).workers == s.workers - {w}
    ensures Next(s, Complete(w, o, true, true)).locks == s.locks - {s.workers[w].env.deviceId}
  {
    hide Written;
  }

  // ---------------------------------------------------------------- how workers end

  /** The worker's last step: its success, recorded and answered, or its failure record. */
  predicate Ends(step: Step, w: nat) {
    || (step.Complete? && step.worker == w && step.writable && step.answered)
    || (step.RecordFailure? && step.worker == w)
  }

  /** The step raises in the worker. */
  predicate Raises(step: Step, w: nat) {
    match step
    case PrerequisiteFails(v) => v == w
    case MarkExecuting(v, writable) => v == w && !writable
    case ResponseFails(v) => v == w
    case HandlerRaises(v) => v == w
    case Complete(v, _, writable, answered) => v == w && !(writable && answered)
    case _ => false
  }

  /** A worker leaves only with a terminal record of its command, and one that raises gives the lock back and owes that record. */
  lemma WorkersEndExactly(s: System, step: Step, w: nat)
    requires Enabled(s, step) && w in s.workers && !step.Crash?
    ensures var t, e := Next(s, step), s.workers[w].env;
            && (w !in t.workers <==> Ends(step, w))
            && (Ends(step, w) ==>
                  e.commandId in t.memory.commands
                  && t.memory.commands[e.commandId] == Record(Terminal, e.deviceId, e.sequence, step.outcome))
            && (Raises(step, w) ==> At(t, w, Failing) && e.deviceId !in t.locks)
  {
    hide Validation;
  }

  lemma MemoryGrows(s: System, step: Step, id: string)
    requires Enabled(s, step) && !step.Crash? && !step.Reset? && id in s.memory.commands
    ensures id in Next(s, step).memory.commands
  {
    hide Validation;
  }

  lemma {:induction false} MemoryKeeps(s: System, steps: seq<Step>, id: string)
    requires Possible(s, steps) && NoStop(steps) && id in s.memory.commands
    ensures id in Final(s, steps).memory.commands
    decreases |steps|
  {
    hide Next, Enabled;
    if steps != [] {
      NoStopTail(steps);
      MemoryGrows(s, steps[0], id);
      MemoryKeeps(Next(s, steps[0]), steps[1..], id);
    }
  }

  /** Neither a crash nor a reset. */
  predicate NoStop(steps: seq<Step>) { forall i :: 0 <= i < |steps| ==> !steps[i].Crash? && !steps[i].Reset? }

  lemma NoStopTail(steps: seq<Step>)
    requires steps != [] && NoStop(steps)
    ensures !steps[0].Crash? && !steps[0].Reset? && NoStop(steps[1..])
  {
    forall i | 0 <= i < |steps[1..]| ensures !steps[1..][i].Crash? && !steps[1..][i].Reset? {
      assert steps[1..][i] == steps[i + 1];
    }
  }

  /**
   No command is dropped silently: as long as the gateway neither stops nor is reset, an
   accepted command whose worker is gone has ended in one of the two ways, and the journal
   knows it.
   */
  lemma {:induction false} NoCommandIsDropped(s: System, steps: seq<Step>, w: nat)
    requires LockInv(s) && Possible(s, steps) && NoStop(steps)
    requires w in s.workers && w !in Final(s, steps).workers
    ensures s.workers[w].env.commandId in Final(s, steps).memory.commands
    ensures exists i :: 0 <= i < |steps| && Ends(steps[i], w)
    decreases |steps|
  {
    hide Next, Enabled, LockInv, Ends;
    if steps != [] {
      var t := Next(s, steps[0]);
      NoStopTail(steps);
      LockStep(s, steps[0]);
      WorkersEndExactly(s, steps[0], w);
      if w in t.workers {
        SameWorkers(s, steps[0]);
        WorkerMoves(s, steps[0], w);
        NoCommandIsDropped(t, steps[1..], w);
        var i :| 0 <= i < |steps[1..]| && Ends(steps[1..][i], w);
        assert steps[i + 1] == steps[1..][i];
      } else {
        MemoryKeeps(t, steps[1..], s.workers[w].env.commandId);
      }
    }
  }

  /** A restart loads the journal file as it is, and the policy file's policy exactly when it is signed for this gateway. */
  lemma RestartLoads(s: System, serial: string)
    ensures var t := Next(s, Crash(serial));
            && t.memory == t.disk == s.disk && t.workers == map[] && t.policyFile == s.policyFile
            && (t.policy.Some? <==> s.policyFile.Some? && s.policyFile.value.signatureOk && s.policyFile.value.serial == serial)
            && (t.policy.Some? ==> t.policy.value == s.policyFile.value.policy)
  {
  }

  /** An offered bundle is adopted exactly when it is signed, checksummed, for this gateway, not stale, and its file can be written. */
  lemma InstallAdopts(s: System, b: PolicyBundle, serial: string, fileWritable: bool, writable: bool)
    ensures var t := Next(s, InstallPolicy(b, serial, fileWritable, writable));
            var good := b.signatureOk && b.checksumOk && b.schemaVersion == 1 && b.serial == serial
                        && s.memory.maxEpoch <= b.policy.epoch && fileWritable;
            && t.policy == (if good then Some(b.policy) else s.policy)
            && t.policyFile == (if good then Some(b) else s.policyFile)
            && t.memory.commands == s.memory.commands && t.workers == s.workers
  {
  }

  // ---------------------------------------------------------------- a first command

  const SITE := Site("gateway", true, 5.0, 100.0)

  const MAPPING := Mapping(Some(6), Some(1), "uint16")

  const POLICY := Policy(1, map[ControlKey("pump", "speed") := Control("r1", "sum", MAPPING, "rpm", Limits(None, Some(0.0), Some(50.0)))])

  const BUNDLE := PolicyBundle(true, true, 1, "gateway", POLICY)

  const COMMAND := Envelope(
    true, 1, "request", "command", "once", "gateway", "pump", Some(90.0), Some(200.0), 1, 1, "r1", "sum",
    Params("pump", "speed", MAPPING, "rpm", 20.0))

  lemma CommandIsAccepted(j: Journal)
    requires j == EpochRecorded(EMPTY, 1)
    ensures Validation(COMMAND, SITE, Some(POLICY), j).Accepted?
  {
    assert COMMAND.requestId[0] == 'r' && COMMAND.commandId[0] == 'c' && COMMAND.idempotencyKey[0] == 'o';
    assert !Blank(COMMAND.requestId) && !Blank(COMMAND.commandId) && !Blank(COMMAND.idempotencyKey);
    assert ScreenEnvelope(COMMAND, SITE) == None;
    assert POLICY.controls[ControlKey("pump", "speed")].limits == Limits(None, Some(0.0), Some(50.0));
  }

  function FirstCommand(): seq<Step> {
    [InstallPolicy(BUNDLE, "gateway", true, true)] + ([Deliver(COMMAND, SITE)] + ([TakeLock(0)]
    + ([MarkExecuting(0, true)] + ([CallHandler(0)] + []))))
  }

  /** From the start, a policy is installed and a command delivered and executed, in a serialized run. */
  lemma FirstCommandRuns()
    ensures Possible(Start(), FirstCommand()) && SerialRun(Start(), FirstCommand())
    ensures Final(Start(), FirstCommand()).executed == [Execution(COMMAND, 1)]
  {
    hide Next, Enabled, Validation, Leads, Possible, Final, SerialRun;
    var install := InstallPolicy(BUNDLE, "gateway", true, true);
    PolicyIsInstalled();
    var s1 := Next(Start(), install);
    CommandIsAccepted(s1.memory);
    AcceptedDeliveryQueues(s1, COMMAND, SITE);
    LockStep(s1, Deliver(COMMAND, SITE));
    var s2 := Next(s1, Deliver(COMMAND, SITE));
    TakesLock(s2, 0);
    var s3 := Next(s2, TakeLock(0));
    Journals(s3, 0);
    var s4 := Next(s3, MarkExecuting(0, true));
    Runs(s4, 0);
    var s5 := Next(s4, CallHandler(0));
    SerialEnd(s5);
    QuietSerial(s4, CallHandler(0), []);
    QuietSerial(s3, MarkExecuting(0, true), [CallHandler(0)] + []);
    QuietSerial(s2, TakeLock(0), [MarkExecuting(0, true)] + ([CallHandler(0)] + []));
    SerialOn(s1, Deliver(COMMAND, SITE), [TakeLock(0)] + ([MarkExecuting(0, true)] + ([CallHandler(0)] + [])));
    QuietSerial(Start(), install,
                [Deliver(COMMAND, SITE)] + ([TakeLock(0)] + ([MarkExecuting(0, true)] + ([CallHandler(0)] + []))));
  }

  lemma PolicyIsInstalled()
    ensures var install := InstallPolicy(BUNDLE, "gateway", true, true);
            && Enabled(Start(), install)
            && var t := Next(Start(), install);
               && LockInv(t) && t.workers == map[] && t.locks == map[] && t.executed == [] && t.nextWorker == 0
               && t.time == 1 && t.policy == Some(POLICY) && t.memory == EpochRecorded(EMPTY, 1)
  {
  }
}
