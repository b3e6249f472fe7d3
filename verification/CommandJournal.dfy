/**
 The durable command journal and the guard that validates governed commands
 (`novena_gateway/gateway/governed_commands.py`).

 The journal lives twice: the dictionaries in memory and the file that the last
 successful write left on disk.  A write that fails to reach the disk still
 changes the dictionaries, exactly as the gateway's code does.
 */
module CommandJournal {
  import opened Common

  const EVENT_LIMIT: nat := 10000

  datatype RecordState = Executing | Terminal

  /** `outcome` stands for the status, result, error and stage of a terminal record. */
  datatype Record = Record(state: RecordState, device: string, sequence: int, outcome: string)

  datatype Event = Event(commandId: string, record: Record)

  /** The contents of the journal, in memory or in the file. */
  datatype Journal = Journal(
    commands: map<string, Record>,
    sequences: map<string, int>,
    events: seq<Event>,
    maxEpoch: int)
  {
    function MaxSequence(device: string): int {
      if device in sequences then sequences[device] else 0
    }
  }

  const EMPTY := Journal(map[], map[], [], 0)

  function LastEvents(events: seq<Event>): seq<Event> {
    if |events| <= EVENT_LIMIT then events else events[|events| - EVENT_LIMIT..]
  }

  /** The journal after one record is written; a record without device moves no sequence. */
  function Written(j: Journal, id: string, r: Record): Journal {
    Journal(
      j.commands[id := r],
      if r.device == "" then j.sequences
      else j.sequences[r.device := Max(r.sequence, j.MaxSequence(r.device))],
      LastEvents(j.events + [Event(id, r)]),
      j.maxEpoch)
  }

  function EpochRecorded(j: Journal, epoch: int): Journal {
    j.(maxEpoch := Max(epoch, j.maxEpoch))
  }

  /** A write forgets no command, lowers no device's sequence and covers its own. */
  lemma WriteOnlyAdvances(j: Journal, id: string, r: Record, device: string)
    ensures var w := Written(j, id, r);
            && w.commands.Keys == j.commands.Keys + {id}
            && w.commands[id] == r
            && (forall other :: other in j.commands && other != id ==> w.commands[other] == j.commands[other])
            && j.MaxSequence(device) <= w.MaxSequence(device)
            && (r.device != "" ==> r.sequence <= w.MaxSequence(r.device))
            && (device != r.device ==> w.MaxSequence(device) == j.MaxSequence(device))
  {
    if r.device != "" {
      assert r.device in Written(j, id, r).sequences;
    }
  }

  /** The journal after a list of writes. */
  function AfterWrites(j: Journal, writes: seq<Event>): Journal {
    if writes == [] then j
    else
      var before := AfterWrites(j, writes[..|writes| - 1]);
      Written(before, writes[|writes| - 1].commandId, writes[|writes| - 1].record)
  }

  lemma NewestOfMore(events: seq<Event>, e: Event)
    ensures LastEvents(LastEvents(events) + [e]) == LastEvents(events + [e])
  {
    if |events| > EVENT_LIMIT {
      var n := |events| - EVENT_LIMIT;
      assert (events[n..] + [e])[1..] == (events + [e])[n + 1..];
    }
  }

  lemma {:induction false} EventsAreLast(writes: seq<Event>)
    ensures AfterWrites(EMPTY, writes).events == LastEvents(writes)
    decreases |writes|
  {
    hide LastEvents;
    if writes == [] {
      NoEvents();
    } else {
      var before, last := writes[..|writes| - 1], writes[|writes| - 1];
      EventsAreLast(before);
      NewestOfMore(before, last);
      assert writes == before + [last] && Event(last.commandId, last.record) == last;
    }
  }

  lemma NoEvents()
    ensures LastEvents([]) == []
  {
  }

  /** The reconciliation events are the newest 10000 writes, in order. */
  lemma EventsAreTheNewestWrites(writes: seq<Event>)
    ensures AfterWrites(EMPTY, writes).events == if |writes| <= 10000 then writes else writes[|writes| - 10000..]
  {
    hide AfterWrites;
    EventsAreLast(writes);
  }

  /** A device's sequence is the highest that was written for it. */
  lemma {:induction false} SequencesAreTheHighest(writes: seq<Event>, device: string)
    requires device != ""
    ensures var highest := AfterWrites(EMPTY, writes).MaxSequence(device);
            && highest >= 0
            && (forall i :: 0 <= i < |writes| && writes[i].record.device == device ==> writes[i].record.sequence <= highest)
            && (highest == 0 || exists i :: 0 <= i < |writes| && writes[i].record.device == device && writes[i].record.sequence == highest)
    decreases |writes|
  {
    if writes != [] {
      var before, last := writes[..|writes| - 1], writes[|writes| - 1];
      SequencesAreTheHighest(before, device);
      WriteOnlyAdvances(AfterWrites(EMPTY, before), last.commandId, last.record, device);
      assert forall i :: 0 <= i < |before| ==> before[i] == writes[i];
    }
  }

  class DurableCommandJournal {
    var commands: map<string, Record>
    var sequences: map<string, int>
    var events: seq<Event>
    var maxEpoch: int
    /** What the journal file holds. */
    var disk: Journal

    ghost function Memory(): (j: Journal)
      reads this
    {
      Journal(commands, sequences, events, maxEpoch)
    }

    /** Opening the journal reads the file; a missing or unreadable file is an empty journal. */
    constructor (file: Option<Journal>)
      ensures Memory() == disk == if file.Some? then file.value else EMPTY
    {
      var loaded := if file.Some? then file.value else EMPTY;
      commands, sequences, events, maxEpoch :=
        loaded.commands, loaded.sequences, loaded.events, loaded.maxEpoch;
      disk := loaded;
    }

    /** Replaces the file with the whole in-memory state, or fails and leaves it alone. */
    method Persist(writable: bool) returns (ok: bool)
      modifies this`disk
      ensures ok == writable
      ensures disk == if writable then Memory() else old(disk)
    {
      ok := writable;
      if writable {
        disk := Journal(commands, sequences, events, maxEpoch);
      }
    }

    method Write(id: string, r: Record, writable: bool) returns (ok: bool)
      modifies this
      ensures ok == writable
      ensures Memory() == Written(old(Memory()), id, r)
      ensures disk == if writable then Memory() else old(disk)
    {
      commands := commands[id := r];
      if r.device != "" {
        var current := if r.device in sequences then sequences[r.device] else 0;
        sequences := sequences[r.device := if current < r.sequence then r.sequence else current];
      }
      events := events + [Event(id, r)];
      if |events| > EVENT_LIMIT {
        events := events[|events| - EVENT_LIMIT..];
      }
      ok := Persist(writable);
    }

    method RecordEpoch(epoch: int, writable: bool) returns (ok: bool)
      modifies this
      ensures ok == writable
      ensures Memory() == EpochRecorded(old(Memory()), epoch)
      ensures disk == if writable then Memory() else old(disk)
    {
      if maxEpoch < epoch { maxEpoch := epoch; }
      ok := Persist(writable);
    }

    method Reset(writable: bool) returns (ok: bool)
      modifies this
      ensures ok == writable
      ensures Memory() == EMPTY
      ensures disk == if writable then EMPTY else old(disk)
    {
      commands, sequences, events, maxEpoch := map[], map[], [], 0;
      ok := Persist(writable);
    }
  }
}

/** Validation of one governed command against the retained policy and the journal. */
module GovernedCommands {
  import opened Common
  import opened CommandJournal

  datatype Limits = Limits(allowed: Option<set<real>>, min: Option<real>, max: Option<real>)

  datatype Mapping = Mapping(functionCode: Option<int>, address: Option<int>, dataType: string)

  datatype Control = Control(
    revisions: string, policyChecksum: string, mapping: Mapping, unit: string, limits: Limits)

  /** `controls` is keyed by device id and command key, joined by a colon. */
  datatype Policy = Policy(epoch: int, controls: map<string, Control>)

  function ControlKey(device: string, command: string): string { device + [COLON] + command }

  const COLON := ':'

  /** `e` is `d`, a colon and something more. */
  predicate Extends(e: string, d: string) { |d| < |e| && e[..|d|] == d && e[|d|] == COLON }

  /** The parts of a joined key. */
  lemma KeyParts(device: string, command: string)
    ensures var key := ControlKey(device, command);
            key[..|device|] == device && key[|device|] == COLON && key[|device| + 1..] == command
  {
  }

  /** Of two equal keys, the one with the longer device id has an id that extends the other at a colon. */
  lemma LongerExtends(d: string, c: string, e: string, f: string)
    requires ControlKey(d, c) == ControlKey(e, f) && |d| < |e|
    ensures Extends(e, d)
  {
    var key := ControlKey(d, c);
    KeyParts(d, c);
    KeyParts(e, f);
    assert key[..|e|][..|d|] == key[..|d|] && key[..|e|][|d|] == key[|d|];
  }

  ghost predicate Collide(d: string, e: string) {
    exists c, f :: ControlKey(d, c) == ControlKey(e, f)
  }

  /**
   Controls of two different devices can share a policy key if and only if one device id
   extends the other at a colon; controls of one device never do.
   */
  lemma ControlKeysCollideExactly(d: string, e: string)
    ensures d != e ==> (Collide(d, e) <==> Extends(d, e) || Extends(e, d))
    ensures forall c, f :: ControlKey(d, c) == ControlKey(d, f) ==> c == f
  {
    forall c, f | ControlKey(d, c) == ControlKey(d, f) ensures c == f {
      KeyParts(d, c);
      KeyParts(d, f);
    }
    if d != e {
      if c, f :| ControlKey(d, c) == ControlKey(e, f) {
        if |d| < |e| {
          LongerExtends(d, c, e, f);
        } else if |e| < |d| {
          LongerExtends(e, f, d, c);
        } else {
          KeyParts(d, c);
          KeyParts(e, f);
        }
      }
      if Extends(e, d) { ExtensionsCollide(d, e, ""); }
      if Extends(d, e) { ExtensionsCollide(e, d, ""); }
    }
  }

  /** Every control of a device whose id extends another shares its key with one of that other device. */
  lemma ExtensionsCollide(d: string, e: string, c: string)
    requires Extends(e, d)
    ensures ControlKey(e, c) == ControlKey(d, e[|d| + 1..] + [COLON] + c)
  {
    assert e == d + [COLON] + e[|d| + 1..];
  }

  datatype Params = Params(
    deviceId: string, commandKey: string, mapping: Mapping, unit: string, expected: real)

  /**
   A command as received.  `signatureOk` is the outcome of the Ed25519 check over the
   body; the time stamps are absent when they do not parse.
   */
  datatype Envelope = Envelope(
    signatureOk: bool, schemaVersion: int,
    requestId: string, commandId: string, idempotencyKey: string,
    targetSerial: string, deviceId: string,
    issuedAt: Option<real>, expiresAt: Option<real>,
    epoch: int, sequence: int,
    revisions: string, policyChecksum: string, params: Params)

  /** What validation reads besides policy and journal. */
  datatype Site = Site(serial: string, clockReady: bool, maxClockOffset: real, now: real)

  datatype Rejection =
    | ClockNotReady | NoPolicy | BadSignature | BadSchema | MissingIdentity | OtherGateway
    | BadTimestamp | Expired | OutsideWindow | StaleEpoch | BadDevice | NotEnabled
    | StaleRevisions | StaleChecksum | MappingMismatch | TypeMismatch | UnitMismatch
    | NotAllowed | BelowMinimum | AboveMaximum | OutcomeUncertain | StaleSequence

  datatype Verdict =
    | Rejected(reason: Rejection)
    | Replay(record: Record)
    | Accepted(control: Control)

  function Default(value: Option<int>, absent: int): int {
    if value.Some? then value.value else absent
  }

  function Abs(x: real): real { if x < 0.0 then -x else x }

  /** The characters that `str.strip` removes. */
  predicate IsSpace(c: char) {
    var n := c as int;
    || 0x09 <= n <= 0x0d || 0x1c <= n <= 0x20 || 0x2000 <= n <= 0x200a
    || n in {0x85, 0xa0, 0x1680, 0x2028, 0x2029, 0x202f, 0x205f, 0x3000}
  }

  predicate Blank(s: string) { forall i :: 0 <= i < |s| ==> IsSpace(s[i]) }

  function ScreenLimits(expected: real, l: Limits): Option<Rejection> {
    if l.allowed.Some? && expected !in l.allowed.value then Some(NotAllowed)
    else if l.min.Some? && expected < l.min.value then Some(BelowMinimum)
    else if l.max.Some? && expected > l.max.value then Some(AboveMaximum)
    else None
  }

  function ScreenControl(e: Envelope, c: Control): Option<Rejection> {
    if e.revisions != c.revisions then Some(StaleRevisions)
    else if e.policyChecksum != c.policyChecksum then Some(StaleChecksum)
    else if Default(e.params.mapping.functionCode, -1) != Default(c.mapping.functionCode, -2)
         || Default(e.params.mapping.address, -1) != Default(c.mapping.address, -2)
    then Some(MappingMismatch)
    else if c.mapping.dataType != "" && e.params.mapping.dataType != c.mapping.dataType
    then Some(TypeMismatch)
    else if e.params.unit != c.unit then Some(UnitMismatch)
    else ScreenLimits(e.params.expected, c.limits)
  }

  function ScreenTimes(e: Envelope, site: Site): Option<Rejection> {
    if e.issuedAt.None? || e.expiresAt.None? then Some(BadTimestamp)
    else if e.expiresAt.value <= site.now then Some(Expired)
    else
      var lifetime := e.expiresAt.value - e.issuedAt.value;
      var window := if site.maxClockOffset < lifetime then lifetime else site.maxClockOffset;
      if Abs(site.now - e.issuedAt.value) > window then Some(OutsideWindow) else None
  }

  function ScreenEnvelope(e: Envelope, site: Site): Option<Rejection> {
    if !e.signatureOk then Some(BadSignature)
    else if e.schemaVersion != 1 then Some(BadSchema)
    else if Blank(e.requestId) || Blank(e.commandId) || Blank(e.idempotencyKey) then Some(MissingIdentity)
    else if e.targetSerial != site.serial then Some(OtherGateway)
    else ScreenTimes(e, site)
  }

  /** The checks in front of the journal, in the gateway's order. */
  function Screen(e: Envelope, site: Site, policy: Option<Policy>): Option<Rejection> {
    if !site.clockReady then Some(ClockNotReady)
    else if policy.None? then Some(NoPolicy)
    else if ScreenEnvelope(e, site).Some? then ScreenEnvelope(e, site)
    else if e.epoch != policy.value.epoch then Some(StaleEpoch)
    else if e.deviceId == "" || e.params.deviceId != e.deviceId || e.params.commandKey == "" then Some(BadDevice)
    else if ControlKey(e.deviceId, e.params.commandKey) !in policy.value.controls then Some(NotEnabled)
    else ScreenControl(e, policy.value.controls[ControlKey(e.deviceId, e.params.commandKey)])
  }

  function Validation(e: Envelope, site: Site, policy: Option<Policy>, j: Journal): Verdict {
    var screened := Screen(e, site, policy);
    if screened.Some? then Rejected(screened.value)
    else if e.commandId in j.commands then
      if j.commands[e.commandId].state.Terminal? then Replay(j.commands[e.commandId])
      else Rejected(OutcomeUncertain)
    else if e.sequence <= j.MaxSequence(e.deviceId) then Rejected(StaleSequence)
    else Accepted(policy.value.controls[ControlKey(e.deviceId, e.params.commandKey)])
  }

  // ---------------------------------------------------------------- what the verdicts mean

  /** Some character of the identity is no white space. */
  ghost predicate Named(s: string) { exists i :: 0 <= i < |s| && !IsSpace(s[i]) }

  /** Every condition on a command and the gateway's own state, apart from the policy's control. */
  ghost predicate Trusted(e: Envelope, site: Site, policy: Option<Policy>) {
    && site.clockReady && policy.Some?
    && e.signatureOk && e.schemaVersion == 1
    && Named(e.requestId) && Named(e.commandId) && Named(e.idempotencyKey)
    && e.targetSerial == site.serial
    && e.issuedAt.Some? && e.expiresAt.Some? && site.now < e.expiresAt.value
    && (|| -site.maxClockOffset <= site.now - e.issuedAt.value <= site.maxClockOffset
        || e.issuedAt.value - e.expiresAt.value <= site.now - e.issuedAt.value <= e.expiresAt.value - e.issuedAt.value)
    && e.epoch == policy.value.epoch
    && e.deviceId != "" && e.params.deviceId == e.deviceId && e.params.commandKey != ""
  }

  /** Every condition on a command and the control that the policy retains for it. */
  ghost predicate Allowed(e: Envelope, c: Control) {
    && e.revisions == c.revisions && e.policyChecksum == c.policyChecksum
    && (match (e.params.mapping.functionCode, c.mapping.functionCode)
        case (Some(x), Some(y)) => x == y
        case (Some(x), None) => x == -2
        case (None, Some(y)) => y == -1
        case (None, None) => false)
    && (match (e.params.mapping.address, c.mapping.address)
        case (Some(x), Some(y)) => x == y
        case (Some(x), None) => x == -2
        case (None, Some(y)) => y == -1
        case (None, None) => false)
    && (c.mapping.dataType == "" || e.params.mapping.dataType == c.mapping.dataType)
    && e.params.unit == c.unit
    && (c.limits.allowed.Some? ==> e.params.expected in c.limits.allowed.value)
    && (c.limits.min.Some? ==> c.limits.min.value <= e.params.expected)
    && (c.limits.max.Some? ==> e.params.expected <= c.limits.max.value)
  }

  /** The command is trusted and the policy has a control for it that allows it. */
  ghost predicate Passes(e: Envelope, site: Site, policy: Option<Policy>) {
    && Trusted(e, site, policy)
    && var key := e.deviceId + ":" + e.params.commandKey;
       key in policy.value.controls && Allowed(e, policy.value.controls[key])
  }

  lemma NamedIsNotBlank(s: string)
    ensures Named(s) <==> !Blank(s)
  {
  }

  lemma ControlScreenMeans(e: Envelope, c: Control)
    ensures ScreenControl(e, c) == None <==> Allowed(e, c)
  {
  }

  lemma EnvelopeScreenMeans(e: Envelope, site: Site)
    ensures ScreenEnvelope(e, site) == None <==>
              && e.signatureOk && e.schemaVersion == 1
              && Named(e.requestId) && Named(e.commandId) && Named(e.idempotencyKey)
              && e.targetSerial == site.serial
              && e.issuedAt.Some? && e.expiresAt.Some? && site.now < e.expiresAt.value
              && (|| -site.maxClockOffset <= site.now - e.issuedAt.value <= site.maxClockOffset
                  || e.issuedAt.value - e.expiresAt.value <= site.now - e.issuedAt.value <= e.expiresAt.value - e.issuedAt.value)
  {
    hide Blank, Named;
    NamedIsNotBlank(e.requestId);
    NamedIsNotBlank(e.commandId);
    NamedIsNotBlank(e.idempotencyKey);
  }

  lemma ScreenMeans(e: Envelope, site: Site, policy: Option<Policy>)
    ensures Screen(e, site, policy) == None <==> Passes(e, site, policy)
  {
    hide ScreenEnvelope, ScreenControl, Allowed, Named;
    EnvelopeScreenMeans(e, site);
    assert ControlKey(e.deviceId, e.params.commandKey) == e.deviceId + ":" + e.params.commandKey;
    if policy.Some? && e.deviceId + ":" + e.params.commandKey in policy.value.controls {
      ControlScreenMeans(e, policy.value.controls[e.deviceId + ":" + e.params.commandKey]);
    }
  }

  /**
   A command is accepted, with the control that the policy retains for its device and key,
   if and only if it passes every condition, its id is new and its sequence number is above
   the device's.
   */
  lemma AcceptedExactly(e: Envelope, site: Site, policy: Option<Policy>, j: Journal, c: Control)
    ensures Validation(e, site, policy, j) == Accepted(c) <==>
              && Passes(e, site, policy) && c == policy.value.controls[e.deviceId + ":" + e.params.commandKey]
              && e.commandId !in j.commands
              && (if e.deviceId in j.sequences then j.sequences[e.deviceId] else 0) < e.sequence
  {
    hide Screen, Passes;
    ScreenMeans(e, site, policy);
    assert ControlKey(e.deviceId, e.params.commandKey) == e.deviceId + ":" + e.params.commandKey;
  }

  /** A command is answered from a record if and only if it passes every condition and that is its terminal record. */
  lemma ReplayExactly(e: Envelope, site: Site, policy: Option<Policy>, j: Journal, r: Record)
    ensures Validation(e, site, policy, j) == Replay(r) <==>
              && Passes(e, site, policy)
              && e.commandId in j.commands && r == j.commands[e.commandId] && r.state == Terminal
  {
    hide Screen, Passes;
    ScreenMeans(e, site, policy);
  }

  /** Of the commands that pass, exactly those with an unfinished record are refused as uncertain. */
  lemma UncertainExactly(e: Envelope, site: Site, policy: Option<Policy>, j: Journal)
    requires Passes(e, site, policy)
    ensures Validation(e, site, policy, j) == Rejected(OutcomeUncertain) <==>
              e.commandId in j.commands && j.commands[e.commandId].state == Executing
  {
    hide Screen, Passes;
    ScreenMeans(e, site, policy);
  }

  /** The condition of the policy's control that a rejection complains about. */
  ghost predicate Contravened(reason: Rejection, e: Envelope, c: Control) {
    match reason
    case StaleRevisions => e.revisions != c.revisions
    case StaleChecksum => e.policyChecksum != c.policyChecksum
    case MappingMismatch => e.params.mapping != c.mapping || c.mapping.functionCode == None || c.mapping.address == None
    case TypeMismatch => e.params.mapping.dataType != c.mapping.dataType
    case UnitMismatch => e.params.unit != c.unit
    case NotAllowed => c.limits.allowed.Some? && e.params.expected !in c.limits.allowed.value
    case BelowMinimum => c.limits.min.Some? && e.params.expected < c.limits.min.value
    case AboveMaximum => c.limits.max.Some? && c.limits.max.value < e.params.expected
    case _ => false
  }

  /** The condition that a rejection complains about. */
  ghost predicate Violated(reason: Rejection, e: Envelope, site: Site, policy: Option<Policy>, j: Journal) {
    match reason
    case ClockNotReady => !site.clockReady
    case NoPolicy => policy == None
    case BadSignature => !e.signatureOk
    case BadSchema => e.schemaVersion != 1
    case MissingIdentity => !Named(e.requestId) || !Named(e.commandId) || !Named(e.idempotencyKey)
    case OtherGateway => e.targetSerial != site.serial
    case BadTimestamp => e.issuedAt == None || e.expiresAt == None
    case Expired => e.expiresAt.Some? && e.expiresAt.value <= site.now
    case OutsideWindow =>
      && e.issuedAt.Some?
      && (site.now < e.issuedAt.value - site.maxClockOffset || e.issuedAt.value + site.maxClockOffset < site.now)
    case StaleEpoch => policy.Some? && e.epoch != policy.value.epoch
    case BadDevice => e.deviceId == "" || e.params.deviceId != e.deviceId || e.params.commandKey == ""
    case NotEnabled => policy.Some? && e.deviceId + ":" + e.params.commandKey !in policy.value.controls
    case OutcomeUncertain => e.commandId in j.commands && j.commands[e.commandId].state == Executing
    case StaleSequence => e.sequence <= if e.deviceId in j.sequences then j.sequences[e.deviceId] else 0
    case _ =>
      && policy.Some? && e.deviceId + ":" + e.params.commandKey in policy.value.controls
      && Contravened(reason, e, policy.value.controls[e.deviceId + ":" + e.params.commandKey])
  }

  /** Every rejection names a condition that the command does violate. */
  lemma RejectionsAreJustified(e: Envelope, site: Site, policy: Option<Policy>, j: Journal)
    ensures Validation(e, site, policy, j).Rejected? ==> Violated(Validation(e, site, policy, j).reason, e, site, policy, j)
  {
    hide Blank, Named;
    NamedIsNotBlank(e.requestId);
    NamedIsNotBlank(e.commandId);
    NamedIsNotBlank(e.idempotencyKey);
    assert ControlKey(e.deviceId, e.params.commandKey) == e.deviceId + ":" + e.params.commandKey;
  }

  function ExecutingRecord(e: Envelope): Record {
    Record(Executing, e.deviceId, e.sequence, "")
  }

  function TerminalRecord(e: Envelope, outcome: string): Record {
    Record(Terminal, e.deviceId, e.sequence, outcome)
  }

  /** A signed policy bundle: its payload and the outcome of the checks on its wrapper. */
  datatype PolicyBundle = PolicyBundle(
    signatureOk: bool, checksumOk: bool, schemaVersion: int, serial: string, policy: Policy)

  predicate Installable(b: PolicyBundle, serial: string, maxEpoch: int) {
    b.signatureOk && b.checksumOk && b.schemaVersion == 1 && b.serial == serial && b.policy.epoch >= maxEpoch
  }

  /** An installed bundle was signed, checksummed, of this schema, for this gateway and not behind the recorded epoch. */
  lemma InstallableExactly(b: PolicyBundle, serial: string, maxEpoch: int)
    ensures Installable(b, serial, maxEpoch) <==>
              b.signatureOk && b.checksumOk && b.schemaVersion == 1 && b.serial == serial && maxEpoch <= b.policy.epoch
  {
  }

  class GovernedCommandGuard {
    const serial: string
    const journal: DurableCommandJournal
    var policy: Option<Policy>
    /** What the policy file holds. */
    var policyFile: Option<PolicyBundle>

    /** A start loads the journal, and the policy file when it is still trusted. */
    constructor (serial: string, journal: DurableCommandJournal, file: Option<PolicyBundle>)
      ensures this.serial == serial && this.journal == journal && policyFile == file
      ensures policy == if file.Some? && file.value.signatureOk && file.value.serial == serial
                        then Some(file.value.policy) else None
    {
      this.serial, this.journal, policyFile := serial, journal, file;
      policy := if file.Some? && file.value.signatureOk && file.value.serial == serial
                then Some(file.value.policy) else None;
    }

    method Validate(e: Envelope, site: Site) returns (v: Verdict)
      ensures v == Validation(e, site, policy, journal.Memory())
    {
      var screened := Screen(e, site, policy);
      if screened.Some? { return Rejected(screened.value); }
      if e.commandId in journal.commands {
        var existing := journal.commands[e.commandId];
        if existing.state == Terminal { return Replay(existing); }
        return Rejected(OutcomeUncertain);
      }
      var newest := if e.deviceId in journal.sequences then journal.sequences[e.deviceId] else 0;
      if e.sequence <= newest { return Rejected(StaleSequence); }
      v := Accepted(policy.value.controls[ControlKey(e.deviceId, e.params.commandKey)]);
    }

    method MarkExecuting(e: Envelope, writable: bool) returns (ok: bool)
      modifies journal
      ensures ok == writable
      ensures journal.Memory() == Written(old(journal.Memory()), e.commandId, ExecutingRecord(e))
      ensures journal.commands == old(journal.commands)[e.commandId := Record(Executing, e.deviceId, e.sequence, "")]
      ensures journal.disk == if writable then journal.Memory() else old(journal.disk)
    {
      ok := journal.Write(e.commandId, ExecutingRecord(e), writable);
    }

    method MarkTerminal(e: Envelope, outcome: string, writable: bool) returns (ok: bool)
      modifies journal
      ensures ok == writable
      ensures journal.Memory() == Written(old(journal.Memory()), e.commandId, TerminalRecord(e, outcome))
      ensures journal.commands == old(journal.commands)[e.commandId := Record(Terminal, e.deviceId, e.sequence, outcome)]
      ensures journal.disk == if writable then journal.Memory() else old(journal.disk)
    {
      ok := journal.Write(e.commandId, TerminalRecord(e, outcome), writable);
    }

    /**
     The policy file is replaced and the policy adopted before the epoch is recorded; when
     the policy file cannot be written, nothing changes.
     */
    method InstallPolicy(b: PolicyBundle, fileWritable: bool, writable: bool) returns (ok: bool)
      modifies this, journal
      ensures !Installable(b, serial, old(journal.maxEpoch)) || !fileWritable ==>
                !ok && policy == old(policy) && policyFile == old(policyFile)
                && journal.Memory() == old(journal.Memory()) && journal.disk == old(journal.disk)
      ensures Installable(b, serial, old(journal.maxEpoch)) && fileWritable ==>
                && ok == writable && policy == Some(b.policy) && policyFile == Some(b)
                && journal.Memory() == EpochRecorded(old(journal.Memory()), b.policy.epoch)
                && journal.disk == if writable then journal.Memory() else old(journal.disk)
    {
      ok := false;
      if !b.signatureOk || !b.checksumOk || b.schemaVersion != 1 || b.serial != serial { return; }
      if b.policy.epoch < journal.maxEpoch { return; }
      if !fileWritable { return; }
      policyFile := Some(b);
      policy := Some(b.policy);
      ok := journal.RecordEpoch(b.policy.epoch, writable);
    }

    /** The policy file is removed after the journal; either can fail and leave the file in place. */
    method ResetForNewClaim(writable: bool, removable: bool) returns (ok: bool)
      modifies this, journal
      ensures ok == (writable && removable)
      ensures policy == None && journal.Memory() == EMPTY
      ensures journal.disk == if writable then EMPTY else old(journal.disk)
      ensures policyFile == if ok then None else old(policyFile)
    {
      policy := None;
      ok := journal.Reset(writable);
      if ok {
        if removable { policyFile := None; } else { ok := false; }
      }
    }
  }
}
