/**
 Policy epochs across crashes.  Installing a policy is three separate actions: replace
 the policy file, adopt the policy in memory, record its epoch in the journal; retiring
 one is three more (`novena_gateway/gateway/governed_commands.py`, `install_policy`,
 `_load_policy`, `reset_for_new_claim`).  The gateway may stop between any two of them.
 Only epochs matter here, so a policy is represented by its epoch.
 */
module PolicyEpochs {
  import opened Common
  import GovernedCommands
  import CommandProtocol

  datatype Phase = Idle | Replaced(epoch: int) | Adopted(epoch: int) | Cleared | JournalReset

  datatype Epochs = Epochs(
    policy: Option<int>,   // the policy in memory
    file: Option<int>,     // the policy file
    memoryMax: int,        // max_epoch in memory
    diskMax: int,          // max_epoch in the journal file
    phase: Phase,
    accepted: seq<int>)    // history: epochs of accepted bundles, oldest first

  datatype Step =
    | Offer(epoch: int, writable: bool)  // a bundle that passes every other check arrives
    | Adopt
    | RecordEpoch(writable: bool)
    | WriteJournal             // a command record is written; the file gets the whole journal
    | BeginReset
    | ResetJournal(writable: bool)
    | RemoveFile(removable: bool)
    | Crash(trusted: bool)     // stop and start; `trusted`: the policy file still verifies

  function Start(): Epochs { Epochs(None, None, 0, 0, Idle, []) }

  predicate Enabled(s: Epochs, step: Step) {
    match step
    case Offer(_, _) => s.phase == Idle
    case Adopt => s.phase.Replaced?
    case RecordEpoch(_) => s.phase.Adopted?
    case BeginReset => s.phase == Idle
    case WriteJournal => true
    case ResetJournal(_) => s.phase == Cleared
    case RemoveFile(_) => s.phase == JournalReset
    case Crash(_) => true
  }

  function Next(s: Epochs, step: Step): Epochs
    requires Enabled(s, step)
  {
    match step
    case Offer(e, writable) =>
      if e < s.memoryMax || !writable then s
      else s.(file := Some(e), phase := Replaced(e), accepted := s.accepted + [e])
    case Adopt => s.(policy := Some(s.phase.epoch), phase := Adopted(s.phase.epoch))
    case RecordEpoch(writable) =>
      var m := Max(s.phase.epoch, s.memoryMax);
      s.(memoryMax := m, diskMax := if writable then m else s.diskMax, phase := Idle)
    case BeginReset => s.(policy := None, phase := Cleared)
    case WriteJournal => s.(diskMax := s.memoryMax)
    case ResetJournal(writable) =>
      s.(memoryMax := 0, diskMax := if writable then 0 else s.diskMax, phase := if writable then JournalReset else Idle)
    case RemoveFile(removable) => s.(file := if removable then None else s.file, phase := Idle)
    case Crash(trusted) =>
      s.(policy := if trusted then s.file else None, memoryMax := s.diskMax, phase := Idle)
  }

  predicate Possible(s: Epochs, steps: seq<Step>)
    decreases |steps|
  {
    steps == [] || (Enabled(s, steps[0]) && Possible(Next(s, steps[0]), steps[1..]))
  }

  function Final(s: Epochs, steps: seq<Step>): Epochs
    requires Possible(s, steps)
    decreases |steps|
  {
    if steps == [] then s else Final(Next(s, steps[0]), steps[1..])
  }

  // ---------------------------------------------------------------- every crash point

  ghost predicate CrashInv(s: Epochs) {
    && 0 <= s.diskMax <= s.memoryMax
    && (s.file.Some? ==> s.memoryMax <= s.file.value)
    && (s.phase.Replaced? || s.phase.Adopted? ==> s.file == Some(s.phase.epoch))
  }

  /** A reset whose journal write is refused finds no epoch in the journal file. */
  ghost predicate SoundResets(s: Epochs, steps: seq<Step>)
    requires Possible(s, steps)
    decreases |steps|
  {
    steps == [] ||
    (&& (steps[0] == ResetJournal(false) ==> s.diskMax == 0)
     && SoundResets(Next(s, steps[0]), steps[1..]))
  }

  lemma {:induction false} CrashRun(s: Epochs, steps: seq<Step>)
    requires CrashInv(s) && Possible(s, steps) && SoundResets(s, steps)
    ensures CrashInv(Final(s, steps))
    decreases |steps|
  {
    if steps != [] {
      CrashRun(Next(s, steps[0]), steps[1..]);
    }
  }

  /**
   Wherever the gateway stops, in installs, refused writes and resets alike, a policy
   loaded at the next start has at least the epoch that the journal file records, as long
   as no reset is refused while that file records an epoch.
   */
  lemma LoadedPolicyIsNotBehindTheJournal(steps: seq<Step>, trusted: bool)
    requires Possible(Start(), steps) && SoundResets(Start(), steps)
    ensures var s := Next(Final(Start(), steps), Crash(trusted));
            s.policy.Some? ==> s.policy.value >= s.diskMax == s.memoryMax
  {
    CrashRun(Start(), steps);
  }

  /** After a refused reset and an offer, the gateway stops and loads a policy behind the journal file. */
  ghost predicate FallsBehind(s: Epochs, older: int)
    requires s.phase == Cleared
  {
    var t := Next(Next(Next(s, ResetJournal(false)), Offer(older, true)), Crash(true));
    t.policy.Some? && t.policy.value < t.diskMax
  }

  /**
   The condition is exact: a reset that the disk refuses forgets the epoch in memory only,
   so that an older policy can be installed and loaded, if and only if the journal file
   records an epoch at that moment.
   */
  lemma RefusedResetFallsBehindExactly(s: Epochs)
    requires CrashInv(s) && s.phase == Cleared
    ensures (exists older :: FallsBehind(s, older)) <==> s.diskMax > 0
  {
    if s.diskMax > 0 { assert FallsBehind(s, 0); }
  }

  // ---------------------------------------------------------------- monotone epochs

  /** The policy file is not ahead of the journal file; both can be read before a stop. */
  predicate FilesAgree(s: Epochs) { s.file.Some? ==> s.file.value == s.diskMax }

  /** No crash while the policy file is ahead of the journal file, and no reset. */
  predicate Orderly(s: Epochs, step: Step) {
    (step.Crash? ==> FilesAgree(s)) && !step.BeginReset?
  }

  ghost predicate OrderlyRun(s: Epochs, steps: seq<Step>)
    requires Possible(s, steps)
    decreases |steps|
  {
    steps == [] || (Orderly(s, steps[0]) && OrderlyRun(Next(s, steps[0]), steps[1..]))
  }

  ghost predicate NonDecreasing(epochs: seq<int>) {
    forall i, j :: 0 <= i < j < |epochs| ==> epochs[i] <= epochs[j]
  }

  ghost predicate MonotoneInv(s: Epochs) {
    && NonDecreasing(s.accepted)
    && 0 <= s.diskMax <= s.memoryMax
    && if s.accepted == [] then s.phase == Idle && s.policy == s.file == None
       else
         var last := s.accepted[|s.accepted| - 1];
         && s.file == Some(last)
         && s.memoryMax <= last
         && match s.phase
            case Idle => s.memoryMax == last && s.policy in {None, Some(last)}
            case Replaced(e) => e == last
            case Adopted(e) => e == last && s.policy == Some(last)
            case _ => false
  }

  lemma {:induction false} MonotoneRun(s: Epochs, steps: seq<Step>)
    requires MonotoneInv(s) && Possible(s, steps) && OrderlyRun(s, steps)
    ensures MonotoneInv(Final(s, steps))
    decreases |steps|
  {
    if steps != [] {
      MonotoneRun(Next(s, steps[0]), steps[1..]);
    }
  }

  /**
   As long as no crash finds the policy file ahead of the journal file, accepted epochs
   never decrease, refused writes included, and between installs the policy in force has
   exactly the epoch recorded in memory.
   */
  lemma OrderlyEpochsNeverDecrease(steps: seq<Step>)
    requires Possible(Start(), steps) && OrderlyRun(Start(), steps)
    ensures var s := Final(Start(), steps);
            && NonDecreasing(s.accepted)
            && (s.phase == Idle && s.policy.Some? ==> s.policy.value == s.memoryMax)
            && (s.phase == Idle && s.policy.Some? && FilesAgree(s) ==> s.policy.value == s.diskMax)
  {
    MonotoneRun(Start(), steps);
  }

  /** Accepting `older` right after a crash breaks the order. */
  ghost predicate CrashAdmits(s: Epochs, trusted: bool, older: int) {
    var t := Next(s, Crash(trusted));
    !NonDecreasing(Next(t, Offer(older, true)).accepted)
  }

  /**
   The condition is exact: in every state of such a run, whatever the phase, a crash lets
   a lower epoch be accepted if and only if the policy file is ahead of the journal file.
   */
  lemma CrashAdmitsOlderExactly(s: Epochs)
    requires MonotoneInv(s)
    ensures (exists trusted, older :: CrashAdmits(s, trusted, older)) <==> !FilesAgree(s)
  {
    if !FilesAgree(s) {
      var t := Next(Next(s, Crash(true)), Offer(s.diskMax, true));
      var n := |s.accepted|;
      assert t.accepted[n - 1] > t.accepted[n];
      assert CrashAdmits(s, true, s.diskMax);
    } else {
      forall trusted, older ensures !CrashAdmits(s, trusted, older) {
        var t := Next(Next(s, Crash(trusted)), Offer(older, true));
        assert t.accepted == s.accepted || t.accepted == s.accepted + [older];
      }
    }
  }

  /**
   One crash between the file replacement and the epoch record is enough to lose the
   order: any epoch from the recorded one up to the torn one is accepted afterwards.
   */
  lemma TornInstallAdmitsOlderEpoch(s: Epochs, torn: int, older: int)
    requires s.phase == Idle && s.memoryMax == s.diskMax <= older < torn
    ensures var steps := [Offer(torn, true), Crash(true), Offer(older, true)];
            && Possible(s, steps)
            && Final(s, steps).accepted == s.accepted + [torn, older]
            && !NonDecreasing(Final(s, steps).accepted)
  {
    ThreeActions(s, Offer(torn, true), Crash(true), Offer(older, true));
    var t := Next(Next(Next(s, Offer(torn, true)), Crash(true)), Offer(older, true));
    var n := |s.accepted|;
    assert t.accepted[n] == torn && t.accepted[n + 1] == older;
  }

  /** So is a crash after an install that completed, but whose epoch write the disk refused. */
  lemma RefusedEpochAdmitsOlderEpoch(s: Epochs, newer: int, older: int)
    requires s.phase == Idle && s.memoryMax == s.diskMax <= older < newer
    ensures var install := [Offer(newer, true), Adopt, RecordEpoch(false)];
            && Possible(s, install) && Final(s, install).phase == Idle
            && Possible(Final(s, install), [Crash(true), Offer(older, true)])
            && var accepted := Final(Final(s, install), [Crash(true), Offer(older, true)]).accepted;
               accepted == s.accepted + [newer, older] && !NonDecreasing(accepted)
  {
    ThreeActions(s, Offer(newer, true), Adopt, RecordEpoch(false));
    var m := Final(s, [Offer(newer, true), Adopt, RecordEpoch(false)]);
    TwoActions(m, Crash(true), Offer(older, true));
    var accepted := Next(Next(m, Crash(true)), Offer(older, true)).accepted;
    var n := |s.accepted|;
    assert accepted == s.accepted + [newer, older];
    assert accepted[n] == newer && accepted[n + 1] == older;
  }

  // ---------------------------------------------------------------- the command protocol's view

  /** What the command protocol's state says about epochs, between installs and resets. */
  function View(s: CommandProtocol.System, accepted: seq<int>): Epochs {
    Epochs(
      if s.policy.Some? then Some(s.policy.value.epoch) else None,
      if s.policyFile.Some? then Some(s.policyFile.value.policy.epoch) else None,
      s.memory.maxEpoch, s.disk.maxEpoch, Idle, accepted)
  }

  /** The single actions behind one step of the command protocol. */
  function Actions(s: CommandProtocol.System, step: CommandProtocol.Step): seq<Step> {
    match step
    case InstallPolicy(b, serial, fileWritable, writable) =>
      if GovernedCommands.Installable(b, serial, s.memory.maxEpoch) && fileWritable
      then [Offer(b.policy.epoch, true), Adopt, RecordEpoch(writable)] else []
    case MarkExecuting(_, writable) => if writable then [WriteJournal] else []
    case Complete(_, _, writable, _) => if writable then [WriteJournal] else []
    case RecordFailure(_, _, writable) => if writable then [WriteJournal] else []
    case Reset(writable, removable) =>
      if writable then [BeginReset, ResetJournal(true), RemoveFile(removable)] else [BeginReset, ResetJournal(false)]
    case Crash(serial) =>
      [Crash(s.policyFile.Some? && s.policyFile.value.signatureOk && s.policyFile.value.serial == serial)]
    case _ => []
  }

  lemma OneAction(s: Epochs, a: Step)
    requires Enabled(s, a)
    ensures Possible(s, [a]) && Final(s, [a]) == Next(s, a)
  {
    assert [a][1..] == [];
    assert Final(s, [a]) == Final(Next(s, a), [a][1..]);
  }

  lemma TwoActions(s: Epochs, a: Step, b: Step)
    requires Enabled(s, a) && Enabled(Next(s, a), b)
    ensures Possible(s, [a, b]) && Final(s, [a, b]) == Next(Next(s, a), b)
  {
    hide Enabled, Next;
    OneAction(Next(s, a), b);
    assert [a, b][1..] == [b];
  }

  lemma ThreeActions(s: Epochs, a: Step, b: Step, c: Step)
    requires Enabled(s, a) && Enabled(Next(s, a), b) && Enabled(Next(Next(s, a), b), c)
    ensures Possible(s, [a, b, c]) && Final(s, [a, b, c]) == Next(Next(Next(s, a), b), c)
  {
    hide Enabled, Next;
    TwoActions(Next(s, a), b, c);
    assert [a, b, c][1..] == [b, c];
  }

  /** What a step of the command protocol leaves of policy, policy file and recorded epochs. */
  lemma EpochsAfter(s: CommandProtocol.System, step: CommandProtocol.Step, accepted: seq<int>)
    requires CommandProtocol.Enabled(s, step)
    ensures var v, t := View(s, accepted), View(CommandProtocol.Next(s, step), accepted);
            match step
            case InstallPolicy(b, serial, fileWritable, writable) =>
              if GovernedCommands.Installable(b, serial, s.memory.maxEpoch) && fileWritable then
                var m := Max(b.policy.epoch, v.memoryMax);
                t == Epochs(Some(b.policy.epoch), Some(b.policy.epoch), m, if writable then m else v.diskMax, Idle, accepted)
              else t == v
            case Reset(writable, removable) =>
              t == if writable then Epochs(None, if removable then None else v.file, 0, 0, Idle, accepted) else v.(policy := None, memoryMax := 0)
            case Crash(_) => t == Next(v, Actions(s, step)[0])
            case _ => t == if Actions(s, step) == [] then v else v.(diskMax := v.memoryMax)
  {
    hide GovernedCommands.Validation;
  }

  /** Every step of the command protocol does to the epochs what its single actions do in turn. */
  lemma ProtocolStepsAreTheseActions(s: CommandProtocol.System, step: CommandProtocol.Step, accepted: seq<int>)
    requires CommandProtocol.Enabled(s, step)
    ensures var actions := Actions(s, step);
            && Possible(View(s, accepted), actions)
            && Final(View(s, accepted), actions) ==
               View(CommandProtocol.Next(s, step),
                    if step.InstallPolicy? && actions != [] then accepted + [step.bundle.policy.epoch] else accepted)
  {
    EpochsAfter(s, step, accepted);
    hide CommandProtocol.Next, CommandProtocol.Enabled;
    var v := View(s, accepted);
    match step
    case InstallPolicy(b, serial, fileWritable, writable) =>
      if GovernedCommands.Installable(b, serial, s.memory.maxEpoch) && fileWritable {
        ThreeActions(v, Offer(b.policy.epoch, true), Adopt, RecordEpoch(writable));
      }
    case Reset(writable, removable) =>
      if writable {
        ThreeActions(v, BeginReset, ResetJournal(true), RemoveFile(removable));
      } else {
        TwoActions(v, BeginReset, ResetJournal(false));
      }
    case Crash(_) => OneAction(v, Actions(s, step)[0]);
    case _ => OneAction(v, WriteJournal);
  }
}
