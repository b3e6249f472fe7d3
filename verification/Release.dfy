/**
 The two-phase release of a gateway by its owner
 (`novena_gateway/gateway/novena_mqtt_publisher.py`, `_handle_release`, and the gate in
 `novena_gateway/gateway/novena_gateway.py`, `_start_connectors`).

 Phase one durably empties the connector list and marks the release as pending; then the
 field state is reset; phase two durably records the request id; then the release is
 acknowledged.  The gateway may crash between any two of these, any write and the reset
 may fail, and the hub may redeliver the same or another release request at any time.
 */
module Release {
  import opened Common

  datatype Mode = Operational | ReleasePending

  datatype Config = Config(connectors: seq<string>, mode: Mode, requestId: Option<string>, claim: Option<string>)

  /** How far the release being handled has come. */
  datatype Phase =
    | Idle
    | Marked(request: string)    // phase one is on disk
    | Cleared(request: string)   // the field state has been reset
    | Recorded(request: string)  // phase two is on disk

  /** An acknowledgement, with the configuration file and the running connectors at that moment. */
  datatype Ack = Ack(request: string, config: Config, running: seq<string>)

  datatype System = System(
    disk: Config,
    requestId: Option<string>,   // _release_request_id
    releasing: bool,             // _release_in_progress
    claim: Option<string>,       // _claim_id
    gateway: Config,             // the gateway's configuration in memory
    running: seq<string>,        // connectors that are running
    phase: Phase,
    resets: seq<string>,         // history: completed field-state resets, by request
    acks: seq<Ack>)              // history: acknowledgements sent

  datatype Step =
    | Deliver(request: string, claim: string, verified: bool, writable: bool)
    | ResetField
    | ResetFails(stopped: bool)
    | WriteRecord(writable: bool)
    | Acknowledge
    | Crash
    | RetireCredentials
    | RestartConnectors
    | UpdateConnectors(connectors: seq<string>)
    | RotatePassword

  /** A gateway that has just started from the configuration on disk. */
  function Boot(disk: Config, resets: seq<string>, acks: seq<Ack>): System {
    System(disk, disk.requestId, disk.mode == ReleasePending, disk.claim, disk,
           Started(disk), Idle, resets, acks)
  }

  /** The connectors that `_start_connectors` brings up. */
  function Started(config: Config): seq<string> {
    if config.mode == ReleasePending then [] else config.connectors
  }

  predicate Enabled(s: System, step: Step) {
    match step
    case Deliver(_, _, _, _) => s.phase == Idle
    case ResetField => s.phase.Marked?
    case ResetFails(_) => s.phase.Marked?
    case WriteRecord(_) => s.phase.Cleared?
    case Acknowledge => s.phase.Recorded?
    case Crash => true
    case RetireCredentials => s.phase == Idle
    case RestartConnectors => true
    case UpdateConnectors(_) => s.phase == Idle
    case RotatePassword => s.phase == Idle
  }

  /** The request passes the signature, target, expiry and claim checks. */
  predicate Verified(s: System, claim: string, verified: bool) {
    verified && claim != "" && s.claim == Some(claim)
  }

  function MarkPending(s: System, request: string, writable: bool): System {
    if !writable then s
    else s.(disk := s.disk.(connectors := [], mode := ReleasePending), releasing := true, phase := Marked(request))
  }

  function ClearField(s: System): System
    requires s.phase.Marked?
  {
    s.(gateway := s.disk, running := [], phase := Cleared(s.phase.request), resets := s.resets + [s.phase.request])
  }

  /** The reset raised; `stopped` says whether it had already retired the connectors. */
  function AbandonReset(s: System, stopped: bool): System {
    if stopped then s.(gateway := s.disk, running := [], phase := Idle) else s.(phase := Idle)
  }

  function RecordRequest(s: System, writable: bool): System
    requires s.phase.Cleared?
  {
    if writable then s.(disk := s.disk.(requestId := Some(s.phase.request)), phase := Recorded(s.phase.request))
    else s.(phase := Idle)
  }

  function SendAck(s: System, request: string): System {
    s.(phase := Idle, requestId := Some(request), acks := s.acks + [Ack(request, s.disk, s.running)])
  }

  function Next(s: System, step: Step): System
    requires Enabled(s, step)
  {
    match step
    case Deliver(r, claim, verified, writable) =>
      if !Verified(s, claim, verified) then s
      else if s.requestId == Some(r) then SendAck(s, r)
      else MarkPending(s, r, writable)
    case ResetField => ClearField(s)
    case ResetFails(stopped) => AbandonReset(s, stopped)
    case WriteRecord(writable) => RecordRequest(s, writable)
    case Acknowledge => SendAck(s, s.phase.request)
    case Crash => Boot(s.disk, s.resets, s.acks)
    case RetireCredentials =>
      if s.releasing && s.requestId.Some? && s.disk.mode == ReleasePending && s.disk.requestId == s.requestId then
        var config := s.disk.(claim := None);
        s.(disk := config, gateway := config, claim := None)
      else s
    case RestartConnectors => s.(running := Started(s.gateway))
    case UpdateConnectors(connectors) =>
      if s.gateway.mode == ReleasePending then s
      else
        var config := s.disk.(connectors := connectors);
        s.(disk := config, gateway := config, running := Started(config))
    case RotatePassword => s.(disk := s.disk.(mode := Operational))
  }

  predicate Possible(s: System, steps: seq<Step>)
    decreases |steps|
  {
    steps == [] || (Enabled(s, steps[0]) && Possible(Next(s, steps[0]), steps[1..]))
  }

  function Final(s: System, steps: seq<Step>): System
    requires Possible(s, steps)
    decreases |steps|
  {
    if steps == [] then s else Final(Next(s, steps[0]), steps[1..])
  }

  /** Only release requests arrive on the provisioning topics. */
  predicate ReleaseOnly(steps: seq<Step>) {
    forall i :: 0 <= i < |steps| ==> !steps[i].RotatePassword?
  }

  /** A password is rotated only while the configuration file records no release request. */
  predicate SoundStep(s: System, step: Step) { step.RotatePassword? ==> s.disk.requestId.None? }

  ghost predicate SoundRotations(s: System, steps: seq<Step>)
    requires Possible(s, steps)
    decreases |steps|
  {
    steps == [] || (SoundStep(s, steps[0]) && SoundRotations(Next(s, steps[0]), steps[1..]))
  }

  // ---------------------------------------------------------------- the handler as one call

  /** Handling one message from start to end while nothing else happens. */
  function Handled(s: System, r: string, claim: string, verified: bool, outcome: Outcome): System
    requires s.phase == Idle
  {
    var s1 := Next(s, Deliver(r, claim, verified, outcome.markWritable));
    if s1.phase == Idle then s1
    else if !outcome.resetOk then AbandonReset(s1, outcome.stopped)
    else
      var s2 := RecordRequest(ClearField(s1), outcome.recordWritable);
      if s2.phase == Idle then s2 else SendAck(s2, r)
  }

  datatype Outcome = Outcome(markWritable: bool, resetOk: bool, stopped: bool, recordWritable: bool)

  class ReleaseHandler {
    var disk: Config
    var requestId: Option<string>
    var releasing: bool
    var claim: Option<string>
    var gateway: Config
    var running: seq<string>
    ghost var resets: seq<string>
    ghost var acks: seq<Ack>

    ghost function View(): (s: System)
      reads this
    {
      System(disk, requestId, releasing, claim, gateway, running, Idle, resets, acks)
    }

    constructor (file: Config)
      ensures View() == Boot(file, [], [])
    {
      disk, requestId, releasing, claim := file, file.requestId, file.mode == ReleasePending, file.claim;
      gateway, running := file, if file.mode == ReleasePending then [] else file.connectors;
      resets, acks := [], [];
    }

    method PublishAck(r: string)
      modifies this`acks
      ensures acks == old(acks) + [Ack(r, disk, running)]
    {
      acks := acks + [Ack(r, disk, running)];
    }

    method HandleRelease(r: string, requestClaim: string, verified: bool, outcome: Outcome)
      modifies this
      ensures View() == Handled(old(View()), r, requestClaim, verified, outcome)
    {
      if !verified || requestClaim == "" || claim != Some(requestClaim) { return; }
      if requestId != Some(r) {
        if !outcome.markWritable { return; }
        var config := disk.(connectors := [], mode := ReleasePending);
        disk := config;
        releasing := true;
        if outcome.resetOk || outcome.stopped {
          running := [];
          gateway := config;
        }
        if !outcome.resetOk { return; }
        resets := resets + [r];
        if !outcome.recordWritable { return; }
        disk := config.(requestId := Some(r));
        requestId := Some(r);
      }
      PublishAck(r);
    }
  }

  // ---------------------------------------------------------------- the invariant

  /** `r` may be acknowledged: it is backed by a completed reset and the file is still empty and pending. */
  ghost predicate Backed(s: System, r: string) {
    && r in s.resets
    && s.disk.connectors == [] && s.disk.mode == ReleasePending
    && s.gateway.connectors == [] && s.gateway.mode == ReleasePending && s.running == []
  }

  ghost predicate Sound(s: System, ack: Ack) {
    && ack.config.requestId == Some(ack.request)
    && ack.config.connectors == [] && ack.config.mode == ReleasePending && ack.running == []
    && ack.request in s.resets
  }

  ghost predicate Inv(s: System) {
    && s.claim == s.disk.claim
    && (s.disk.requestId.Some? ==> Backed(s, s.disk.requestId.value))
    && (match s.phase
        case Idle => s.requestId == s.disk.requestId
        case Marked(r) => s.requestId == s.disk.requestId && s.disk.mode == ReleasePending && s.disk.connectors == []
        case Cleared(r) => s.requestId == s.disk.requestId && Backed(s, r)
        case Recorded(r) => s.disk.requestId == Some(r) && Backed(s, r))
    && AllSound(s)
  }

  ghost predicate AllSound(s: System) { forall i :: 0 <= i < |s.acks| ==> Sound(s, s.acks[i]) }

  lemma StepKeeps(s: System, step: Step)
    requires Inv(s) && Enabled(s, step) && SoundStep(s, step)
    ensures Inv(Next(s, step))
  {
    var t := Next(s, step);
    assert forall r :: r in s.resets ==> r in t.resets;
    forall i | 0 <= i < |t.acks| ensures Sound(t, t.acks[i]) {
      if i < |s.acks| { assert Sound(s, s.acks[i]); }
    }
  }

  lemma {:induction false} RunKeeps(s: System, steps: seq<Step>)
    requires Inv(s) && Possible(s, steps) && SoundRotations(s, steps)
    ensures Inv(Final(s, steps))
    decreases |steps|
  {
    hide Inv, Next, Enabled;
    if steps != [] {
      StepKeeps(s, steps[0]);
      RunKeeps(Next(s, steps[0]), steps[1..]);
    }
  }

  lemma BootIsFine(config: Config)
    requires config.requestId == None
    ensures Inv(Boot(config, [], []))
  {
  }

  // ---------------------------------------------------------------- theorems

  /**
   For every crash point, redelivery and failure, and with password rotations while no
   request is recorded: an acknowledgement for `r` is sent only when the configuration
   file records `r`, is pending and has no connectors, no connector runs, and a
   field-state reset for `r` has completed.
   */
  lemma AcknowledgementsAreBacked(config: Config, steps: seq<Step>, i: nat)
    requires config.requestId == None
    requires Possible(Boot(config, [], []), steps) && SoundRotations(Boot(config, [], []), steps)
    requires i < |Final(Boot(config, [], []), steps).acks|
    ensures var s := Final(Boot(config, [], []), steps);
            var ack := s.acks[i];
            && ack.config.requestId == Some(ack.request)
            && ack.config.connectors == [] && ack.config.mode == ReleasePending && ack.running == []
            && ack.request in s.resets
  {
    hide Possible, Final, SoundRotations;
    BootIsFine(config);
    RunKeeps(Boot(config, [], []), steps);
    var s := Final(Boot(config, [], []), steps);
    assert Sound(s, s.acks[i]);
  }

  lemma OnlyTail(steps: seq<Step>)
    requires steps != [] && ReleaseOnly(steps)
    ensures !steps[0].RotatePassword? && ReleaseOnly(steps[1..])
  {
    forall i | 0 <= i < |steps[1..]| ensures !steps[1..][i].RotatePassword? { assert steps[1..][i] == steps[i + 1]; }
  }

  /** From phase one on, the file stays pending whatever the release messages, failures and crashes. */
  lemma {:induction false} FileStaysPending(s: System, steps: seq<Step>)
    requires Possible(s, steps) && ReleaseOnly(steps) && s.disk.mode == ReleasePending
    ensures Final(s, steps).disk.mode == ReleasePending
    decreases |steps|
  {
    if steps != [] {
      OnlyTail(steps);
      FileStaysPending(Next(s, steps[0]), steps[1..]);
    }
  }

  /** After a restart the gateway's own copy stays pending too, and nothing runs. */
  lemma {:induction false} NothingRuns(s: System, steps: seq<Step>)
    requires Possible(s, steps) && ReleaseOnly(steps)
    requires s.disk.mode == ReleasePending && s.gateway.mode == ReleasePending && s.running == []
    ensures Final(s, steps).running == []
    decreases |steps|
  {
    if steps != [] {
      OnlyTail(steps);
      NothingRuns(Next(s, steps[0]), steps[1..]);
    }
  }

  /**
   Once phase one is durable, no connector runs after any later restart, whatever release
   messages, failures and crashes come before and after it.
   */
  lemma NoConnectorAfterRestart(s: System, before: seq<Step>, after: seq<Step>)
    requires s.disk.mode == ReleasePending
    requires Possible(s, before) && ReleaseOnly(before)
    requires Possible(Next(Final(s, before), Crash), after) && ReleaseOnly(after)
    ensures Final(Next(Final(s, before), Crash), after).running == []
  {
    hide Possible, Final, ReleaseOnly;
    FileStaysPending(s, before);
    NothingRuns(Next(Final(s, before), Crash), after);
  }

  /**
   A crash before phase two loses nothing: redelivery of the request starts over, and the
   acknowledgement follows a second reset.
   */
  lemma InterruptedReleaseRunsAgain(s: System, claim: string)
    requires Inv(s) && (s.phase.Marked? || s.phase.Cleared?)
    requires s.disk.requestId != Some(s.phase.request) && claim != "" && s.disk.claim == Some(claim)
    ensures var r := s.phase.request;
            var again := Next(Next(s, Crash), Deliver(r, claim, true, true));
            && again.phase == Marked(r) && again.acks == s.acks
            && var done := Handled(Next(s, Crash), r, claim, true, Outcome(true, true, true, true));
               && done.resets == s.resets + [r]
               && done.acks == s.acks + [Ack(r, done.disk, [])] && done.disk.requestId == Some(r)
  {
  }

  // ---------------------------------------------------------------- what a reset does

  /** Nothing of the site runs or is configured, in the file and in the gateway's own copy. */
  ghost predicate Emptied(s: System) {
    && s.running == [] && s.gateway.connectors == [] && s.disk.connectors == []
    && s.gateway.mode == ReleasePending && s.disk.mode == ReleasePending
  }

  lemma {:induction false} StaysEmptied(s: System, steps: seq<Step>)
    requires Emptied(s) && Possible(s, steps) && ReleaseOnly(steps)
    ensures Emptied(Final(s, steps))
    decreases |steps|
  {
    if steps != [] {
      OnlyTail(steps);
      StaysEmptied(Next(s, steps[0]), steps[1..]);
    }
  }

  /**
   From a completed reset on, whatever release messages, failures and crashes follow, no
   connector runs and neither the file nor the gateway's own configuration has one; so
   none runs at any acknowledgement that follows.
   */
  lemma ResetStopsEverything(s: System, steps: seq<Step>)
    requires Inv(s) && s.phase.Marked?
    requires Possible(Next(s, ResetField), steps) && ReleaseOnly(steps)
    ensures var t := Final(Next(s, ResetField), steps);
            && t.running == [] && t.gateway.connectors == [] && t.disk.connectors == []
            && forall i :: |s.acks| <= i < |t.acks| ==> t.acks[i].running == []
  {
    hide Possible, Final, ReleaseOnly;
    StaysEmptied(Next(s, ResetField), steps);
    AcksAreQuiet(Next(s, ResetField), steps, |s.acks|);
  }

  /** No connector ran at the acknowledgements from number `n` on. */
  ghost predicate QuietFrom(s: System, n: nat) { forall i :: n <= i < |s.acks| ==> s.acks[i].running == [] }

  lemma QuietStep(s: System, step: Step, n: nat)
    requires Emptied(s) && QuietFrom(s, n) && Enabled(s, step) && !step.RotatePassword?
    ensures Emptied(Next(s, step)) && QuietFrom(Next(s, step), n)
  {
  }

  lemma {:induction false} AcksAreQuiet(s: System, steps: seq<Step>, n: nat)
    requires Emptied(s) && Possible(s, steps) && ReleaseOnly(steps) && QuietFrom(s, n)
    ensures QuietFrom(Final(s, steps), n)
    decreases |steps|
  {
    hide Next, Enabled, Emptied, QuietFrom;
    if steps != [] {
      OnlyTail(steps);
      QuietStep(s, steps[0], n);
      AcksAreQuiet(Next(s, steps[0]), steps[1..], n);
    }
  }

  /** A start, or a restart of the connectors, runs exactly what is configured, and nothing while a release is pending. */
  lemma StartsExactly(s: System)
    ensures Next(s, Crash).running == if s.disk.mode == Operational then s.disk.connectors else []
    ensures Next(s, RestartConnectors).running == if s.gateway.mode == Operational then s.gateway.connectors else []
    ensures var t := Next(s, Crash);
            t.releasing == (s.disk.mode == ReleasePending) && t.disk == t.gateway == s.disk && t.requestId == s.disk.requestId && t.claim == s.disk.claim
  {
  }

  /** A request that is not verified, or names another claim or none, changes nothing. */
  lemma UnverifiedChangesNothing(s: System, r: string, claim: string, verified: bool, writable: bool, outcome: Outcome)
    requires s.phase == Idle && (!verified || claim == "" || s.claim != Some(claim))
    ensures Next(s, Deliver(r, claim, verified, writable)) == s
    ensures Handled(s, r, claim, verified, outcome) == s
  {
  }

  /** A verified request that is not recorded yet, when nothing fails, ends recorded, emptied and acknowledged. */
  lemma ReleaseCompletes(s: System, r: string, claim: string)
    requires s.phase == Idle && claim != "" && s.claim == Some(claim) && s.requestId != Some(r)
    ensures var t := Handled(s, r, claim, true, Outcome(true, true, false, true));
            && Emptied(t) && t.disk.requestId == t.requestId == Some(r) && t.releasing && t.phase == Idle
            && t.resets == s.resets + [r] && t.acks == s.acks + [Ack(r, t.disk, [])]
            && t.disk.claim == s.disk.claim
  {
  }

  /**
   A reset that fails acknowledges and records nothing.  If it had stopped the connectors
   none runs from then on, and otherwise they run on.
   */
  lemma FailedResetIsNoReset(s: System, stopped: bool, steps: seq<Step>)
    requires Inv(s) && s.phase.Marked?
    requires Possible(Next(s, ResetFails(stopped)), steps) && ReleaseOnly(steps)
    ensures var t := Next(s, ResetFails(stopped));
            && t.resets == s.resets && t.acks == s.acks && t.disk == s.disk && t.requestId == s.requestId && t.phase == Idle
            && (!stopped ==> t.running == s.running && t.gateway == s.gateway)
            && (stopped ==> Final(t, steps).running == [] && Final(t, steps).gateway.connectors == [])
  {
    hide Possible, Final, ReleaseOnly;
    if stopped { StaysEmptied(Next(s, ResetFails(stopped)), steps); }
  }

  // ---------------------------------------------------------------- the owner's claim

  /**
   After a completed release, with a crash in between or not, the credentials are retired:
   file, gateway and handler forget the owner and keep the request, so that no release
   message is taken any more.
   */
  lemma ReleasedGatewayForgetsItsOwner(s: System, r: string, claim: string, crash: bool, later: Step)
    requires s.phase == Idle && claim != "" && s.claim == Some(claim) && s.requestId != Some(r)
    requires later.Deliver?
    ensures var t := Handled(s, r, claim, true, Outcome(true, true, false, true));
            var u := Next(if crash then Next(t, Crash) else t, RetireCredentials);
            && u.disk.claim == u.claim == u.gateway.claim == None && u.disk.requestId == Some(r)
            && Emptied(u) && u.phase == Idle && Next(u, later) == u
  {
  }

  lemma {:induction false} ClaimStays(s: System, steps: seq<Step>, claim: Option<string>)
    requires Possible(s, steps) && (s.disk.claim == claim || s.disk.requestId.Some?)
    ensures Final(s, steps).disk.claim == claim || Final(s, steps).disk.requestId.Some?
    decreases |steps|
  {
    if steps != [] { ClaimStays(Next(s, steps[0]), steps[1..], claim); }
  }

  /**
   Under every failure and crash, the configuration file loses the owner's claim only after
   a request is durably recorded, its reset has completed and nothing of the site is left.
   */
  lemma OwnerIsForgottenOnlyAfterRelease(config: Config, steps: seq<Step>)
    requires config.requestId == None
    requires Possible(Boot(config, [], []), steps) && SoundRotations(Boot(config, [], []), steps)
    requires Final(Boot(config, [], []), steps).disk.claim != config.claim
    ensures var s := Final(Boot(config, [], []), steps);
            s.disk.requestId.Some? && s.disk.requestId.value in s.resets && Emptied(s)
  {
    hide Possible, Final, SoundRotations, Boot;
    BootIsFine(config);
    RunKeeps(Boot(config, [], []), steps);
    BootClaim(config);
    ClaimStays(Boot(config, [], []), steps, config.claim);
  }

  lemma BootClaim(config: Config)
    ensures Boot(config, [], []).disk == config
  {
  }

  // ---------------------------------------------------------------- password rotation

  /** Without further rotations, `steps` lead from `s` to an acknowledgement that nothing backs. */
  ghost predicate Deceives(s: System, steps: seq<Step>) {
    Possible(s, steps) && ReleaseOnly(steps) && !AllSound(Final(s, steps))
  }

  /** A claim that a release message can name. */
  predicate Claimed(s: System) { s.disk.claim.Some? && s.disk.claim.value != "" }

  function AfterRotation(r: string, claim: string, connectors: seq<string>): seq<Step> {
    [Crash, UpdateConnectors(connectors), Deliver(r, claim, true, true)]
  }

  /**
   From every idle state with a recorded request: a rotation makes the gateway operational
   again but keeps the request, so the same request is later acknowledged with any
   connectors configured and no new reset.
   */
  lemma RotationBreaksTheGuarantee(s: System, connectors: seq<string>)
    requires Inv(s) && s.phase == Idle && s.disk.requestId.Some? && Claimed(s)
    ensures var r := s.disk.requestId.value;
            var rotated := Next(s, RotatePassword);
            var steps := AfterRotation(r, s.disk.claim.value, connectors);
            && Possible(rotated, steps) && ReleaseOnly(steps)
            && var t := Final(rotated, steps);
               t.acks == s.acks + [Ack(r, t.disk, connectors)] && t.resets == s.resets
               && t.disk.connectors == connectors && t.disk.mode == Operational
  {
    var steps := AfterRotation(s.disk.requestId.value, s.disk.claim.value, connectors);
    ThreeSteps(Next(s, RotatePassword), steps[0], steps[1], steps[2]);
  }

  lemma ThreeSteps(s: System, a: Step, b: Step, c: Step)
    requires Enabled(s, a) && Enabled(Next(s, a), b) && Enabled(Next(Next(s, a), b), c)
    ensures Possible(s, [a, b, c]) && Final(s, [a, b, c]) == Next(Next(Next(s, a), b), c)
  {
    hide Enabled, Next;
    var s1 := Next(s, a);
    var s2 := Next(s1, b);
    assert [a, b, c][1..] == [b, c] && [b, c][1..] == [c] && [c][1..] == [];
    assert Possible(s2, [c]) && Final(s2, [c]) == Next(s2, c);
    assert Possible(s1, [b, c]) && Final(s1, [b, c]) == Next(s2, c);
  }

  lemma {:induction false} ReleaseOnlyIsSound(s: System, steps: seq<Step>)
    requires Possible(s, steps) && ReleaseOnly(steps)
    ensures SoundRotations(s, steps)
    decreases |steps|
  {
    hide Next, Enabled;
    if steps != [] {
      OnlyTail(steps);
      ReleaseOnlyIsSound(Next(s, steps[0]), steps[1..]);
    }
  }

  /** Without a claim nothing is acknowledged any more. */
  lemma {:induction false} NoClaimNoAck(s: System, steps: seq<Step>)
    requires Possible(s, steps) && ReleaseOnly(steps) && s.phase == Idle && s.claim == s.disk.claim && !Claimed(s)
    ensures Final(s, steps).acks == s.acks && Final(s, steps).resets == s.resets
    decreases |steps|
  {
    if steps != [] {
      OnlyTail(steps);
      NoClaimNoAck(Next(s, steps[0]), steps[1..]);
    }
  }

  /**
   The condition is exact: after a rotation in an idle state an acknowledgement that
   nothing backs can follow if and only if a request was recorded and the claim is still
   there.
   */
  lemma RotationDeceivesExactly(s: System)
    requires Inv(s) && s.phase == Idle
    ensures (exists steps :: Deceives(Next(s, RotatePassword), steps)) <==> s.disk.requestId.Some? && Claimed(s)
    ensures Inv(Next(s, RotatePassword)) <==> s.disk.requestId.None?
  {
    hide Possible, Final, ReleaseOnly;
    var rotated := Next(s, RotatePassword);
    if s.disk.requestId.None? {
      forall steps | Possible(rotated, steps) && ReleaseOnly(steps) ensures AllSound(Final(rotated, steps)) {
        ReleaseOnlyIsSound(rotated, steps);
        RunKeeps(rotated, steps);
      }
    } else if Claimed(s) {
      var steps := AfterRotation(s.disk.requestId.value, s.disk.claim.value, ["meter"]);
      RotationBreaksTheGuarantee(s, ["meter"]);
      var t := Final(rotated, steps);
      assert !Sound(t, t.acks[|s.acks|]);
      assert Deceives(rotated, steps);
    } else {
      forall steps | Possible(rotated, steps) && ReleaseOnly(steps) ensures AllSound(Final(rotated, steps)) {
        NoClaimNoAck(rotated, steps);
        SameAcks(s, Final(rotated, steps));
      }
    }
  }

  lemma SameAcks(s: System, t: System)
    requires AllSound(s) && t.acks == s.acks && t.resets == s.resets
    ensures AllSound(t)
  {
    forall i | 0 <= i < |t.acks| ensures Sound(t, t.acks[i]) { assert Sound(s, s.acks[i]); }
  }
}
