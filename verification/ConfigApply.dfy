/**
 Applying connector changes with rollback
 (`novena_gateway/gateway/remote_config_handler.py`).  A request edits the configuration;
 the new file is written and the connectors are restarted, the previous file is put back
 when one of them fails, and the result is recorded and acknowledged.  Each of these
 actions can raise, which ends the update as failed wherever it stands.
 */
module ConfigApply {
  import opened Common

  /** A connector section; an empty name stands for a missing one. */
  datatype Connector = Connector(name: string, settings: string)

  /** The configuration file: the connector list, if there is one, and all other sections. */
  datatype Config = Config(sections: map<string, string>, connectors: Option<seq<Connector>>)
  {
    function List(): seq<Connector> { if connectors.Some? then connectors.value else [] }
  }

  /** The body of an update: one connector by name, a whole list, or a `connectors` field that is no list. */
  datatype UpdateBody = Named(connector: Connector) | WholeList(connectors: seq<Connector>) | NoList

  datatype Request = Add(connector: Connector) | Remove(name: string) | Update(body: UpdateBody) | Full(config: Config)

  /** What applying a configuration does, one thing at a time; any of these can raise. */
  datatype Action =
    | EnsureCopy      // keep a last-known-good copy if there is none
    | WriteNew        // replace the file and adopt the new configuration
    | Start           // start its connectors
    | WriteCopy       // make the new configuration the last-known-good one
    | WritePrevious   // put the previous file and configuration back
    | Restart         // start the previous connectors
    | RecordResult    // record the result in the replay journal
    | Acknowledge

  /**
   `valid`: the edited configuration passes validation; `started`: which connectors came up;
   `raisesAt`: the position of the action that raises, if one does.
   */
  datatype Outcome = Outcome(valid: bool, started: seq<bool>, raisesAt: Option<nat>)

  /** `Failed`: an exception, reported without a rollback. */
  datatype Status = Rejected | RolledBack | Success | Failed

  datatype State = State(disk: Config, gateway: Config, lastGood: Option<Config>)

  predicate AllStarted(started: seq<bool>) { forall i :: 0 <= i < |started| ==> started[i] }

  predicate HasName(connectors: seq<Connector>, name: string) {
    exists i :: 0 <= i < |connectors| && connectors[i].name == name
  }

  function Without(connectors: seq<Connector>, name: string): seq<Connector> {
    if connectors == [] then []
    else (if connectors[0].name == name then [] else [connectors[0]]) + Without(connectors[1..], name)
  }

  /** The first connector of that name is replaced. */
  function Replaced(connectors: seq<Connector>, c: Connector): seq<Connector> {
    if connectors == [] then []
    else if connectors[0].name == c.name then [c] + connectors[1..]
    else [connectors[0]] + Replaced(connectors[1..], c)
  }

  /** The edited configuration, or nothing when the request is refused. */
  function Proposed(disk: Config, r: Request): Option<Config> {
    var list := disk.List();
    match r
    case Add(c) =>
      if c.name == "" || HasName(list, c.name) then None else Some(disk.(connectors := Some(list + [c])))
    case Remove(name) =>
      if name == "" || !HasName(list, name) then None else Some(disk.(connectors := Some(Without(list, name))))
    case Update(Named(c)) =>
      if c.name == "" || !HasName(list, c.name) then None else Some(disk.(connectors := Some(Replaced(list, c))))
    case Update(WholeList(connectors)) => Some(disk.(connectors := Some(connectors)))
    case Update(NoList) => None
    case Full(config) => Some(config)
  }

  /** The actions of an update in which nothing raises. */
  function Plan(started: seq<bool>): seq<Action> {
    [EnsureCopy, WriteNew, Start]
    + (if AllStarted(started) then [WriteCopy] else [WritePrevious, Restart])
    + [RecordResult, Acknowledge]
  }

  /** Some action of the plan raises. */
  predicate IsCut(o: Outcome) { o.raisesAt.Some? && o.raisesAt.value < |Plan(o.started)| }

  /** The actions that were carried out. */
  function Performed(o: Outcome): seq<Action> {
    if IsCut(o) then Plan(o.started)[..o.raisesAt.value] else Plan(o.started)
  }

  function Do(s: State, previous: Config, edited: Config, a: Action): State {
    match a
    case EnsureCopy => if s.lastGood.None? then s.(lastGood := Some(s.disk)) else s
    case WriteNew => s.(disk := edited, gateway := edited)
    case WriteCopy => s.(lastGood := Some(edited))
    case WritePrevious => s.(disk := previous, gateway := previous)
    case _ => s
  }

  function DoAll(s: State, previous: Config, edited: Config, actions: seq<Action>): State {
    if actions == [] then s
    else Do(DoAll(s, previous, edited, actions[..|actions| - 1]), previous, edited, actions[|actions| - 1])
  }

  function Applied(s: State, edited: Config, o: Outcome): State {
    DoAll(s, s.disk, edited, Performed(o))
  }

  function StatusOfApply(o: Outcome): Status {
    if IsCut(o) then Failed else if AllStarted(o.started) then Success else RolledBack
  }

  function StatusOf(s: State, r: Request, o: Outcome): Status {
    if Proposed(s.disk, r).None? || !o.valid then Rejected else StatusOfApply(o)
  }

  function Handled(s: State, r: Request, o: Outcome): State {
    var proposed := Proposed(s.disk, r);
    if proposed.None? || !o.valid then s else Applied(s, proposed.value, o)
  }

  // ---------------------------------------------------------------- the handler object

  class RemoteConfigHandler {
    var disk: Config
    var gateway: Config
    var lastGood: Option<Config>

    ghost function View(): (s: State)
      reads this
    {
      State(disk, gateway, lastGood)
    }

    /** The last-known-good copy is that of an earlier process, if there was one. */
    constructor (file: Config, copy: Option<Config>)
      ensures View() == State(file, file, copy)
    {
      disk, gateway, lastGood := file, file, copy;
    }

    method Find(connectors: seq<Connector>, name: string) returns (at: Option<nat>)
      ensures at.None? <==> !HasName(connectors, name)
      ensures at.Some? ==> at.value < |connectors| && connectors[at.value].name == name
      ensures at.Some? ==> forall i :: 0 <= i < at.value ==> connectors[i].name != name
    {
      for i := 0 to |connectors|
        invariant forall j :: 0 <= j < i ==> connectors[j].name != name
      {
        if connectors[i].name == name { return Some(i); }
      }
      return None;
    }

    /** Applies, records and acknowledges, up to the action that raises. */
    method ApplyWithRollback(edited: Config, o: Outcome) returns (status: Status)
      modifies this
      ensures View() == Applied(old(View()), edited, o) && status == StatusOfApply(o)
    {
      hide AllStarted, DoAll, Plan;
      StateAfter(View(), edited, o);
      var raisesAt := if o.raisesAt.Some? then o.raisesAt.value else 7;
      if raisesAt == 0 { return Failed; }
      if lastGood.None? { lastGood := Some(disk); }
      var previous := disk;
      if raisesAt == 1 { return Failed; }
      disk := edited;
      gateway := edited;
      if raisesAt <= 3 { return Failed; }
      var failed := AnyFailed(o.started);
      if failed {
        disk := previous;
        gateway := previous;
        return if raisesAt < 7 then Failed else RolledBack;
      }
      lastGood := Some(edited);
      return if raisesAt < 6 then Failed else Success;
    }

    method AnyFailed(started: seq<bool>) returns (failed: bool)
      ensures failed == !AllStarted(started)
    {
      failed := false;
      for i := 0 to |started|
        invariant failed <==> exists j :: 0 <= j < i && !started[j]
      {
        if !started[i] { failed := true; }
      }
    }

    method FullUpdate(config: Config, o: Outcome) returns (status: Status)
      modifies this
      ensures View() == Handled(old(View()), Full(config), o) && status == StatusOf(old(View()), Full(config), o)
    {
      if !o.valid { return Rejected; }
      status := ApplyWithRollback(config, o);
    }

    method ConnectorAdd(c: Connector, o: Outcome) returns (status: Status)
      modifies this
      ensures View() == Handled(old(View()), Add(c), o) && status == StatusOf(old(View()), Add(c), o)
    {
      if c.name == "" { return Rejected; }
      var connectors := disk.List();
      var at := Find(connectors, c.name);
      if at.Some? || !o.valid { return Rejected; }
      status := ApplyWithRollback(disk.(connectors := Some(connectors + [c])), o);
    }

    method Drop(connectors: seq<Connector>, name: string) returns (kept: seq<Connector>)
      ensures kept == Without(connectors, name)
      ensures |kept| == |connectors| <==> !HasName(connectors, name)
    {
      kept := [];
      for i := 0 to |connectors|
        invariant kept + Without(connectors[i..], name) == Without(connectors, name)
        invariant |kept| <= i && (|kept| == i <==> forall j :: 0 <= j < i ==> connectors[j].name != name)
      {
        WithoutStep(connectors, i, name, kept);
        if connectors[i].name != name { kept := kept + [connectors[i]]; }
      }
    }

    method ConnectorRemove(name: string, o: Outcome) returns (status: Status)
      modifies this
      ensures View() == Handled(old(View()), Remove(name), o) && status == StatusOf(old(View()), Remove(name), o)
    {
      if name == "" { return Rejected; }
      var connectors := disk.List();
      var kept := Drop(connectors, name);
      if |kept| == |connectors| || !o.valid { return Rejected; }
      status := ApplyWithRollback(disk.(connectors := Some(kept)), o);
    }

    method ConnectorUpdate(body: UpdateBody, o: Outcome) returns (status: Status)
      modifies this
      ensures View() == Handled(old(View()), Update(body), o) && status == StatusOf(old(View()), Update(body), o)
    {
      var connectors := disk.List();
      match body {
        case NoList => return Rejected;
        case WholeList(list) => connectors := list;
        case Named(c) =>
          if c.name == "" { return Rejected; }
          var at := Find(connectors, c.name);
          if at.None? { return Rejected; }
          ReplacedAt(connectors, c, at.value);
          connectors := connectors[at.value := c];
      }
      if !o.valid { return Rejected; }
      status := ApplyWithRollback(disk.(connectors := Some(connectors)), o);
    }
  }

  lemma PlanIs(started: seq<bool>)
    ensures var plan := Plan(started);
            && (AllStarted(started) ==> plan == [EnsureCopy, WriteNew, Start, WriteCopy, RecordResult, Acknowledge])
            && (!AllStarted(started) ==> plan == [EnsureCopy, WriteNew, Start, WritePrevious, Restart, RecordResult, Acknowledge])
  {
    hide AllStarted;
  }

  /** One more action of a list. */
  lemma OneMore(s: State, previous: Config, edited: Config, actions: seq<Action>, n: nat)
    requires n < |actions|
    ensures DoAll(s, previous, edited, actions[..n + 1]) == Do(DoAll(s, previous, edited, actions[..n]), previous, edited, actions[n])
  {
    hide Do;
    var more := actions[..n + 1];
    assert more[..|more| - 1] == actions[..n] && more[|more| - 1] == actions[n];
  }

  /** One more connector moves from the rest to the part already kept. */
  lemma WithoutStep(connectors: seq<Connector>, i: nat, name: string, kept: seq<Connector>)
    requires i < |connectors|
    ensures kept + Without(connectors[i..], name)
         == (if connectors[i].name == name then kept else kept + [connectors[i]]) + Without(connectors[i + 1..], name)
  {
    assert connectors[i..][1..] == connectors[i + 1..];
    var rest := Without(connectors[i + 1..], name);
    if connectors[i].name == name {
      assert Without(connectors[i..], name) == [] + rest == rest;
    } else {
      assert Without(connectors[i..], name) == [connectors[i]] + rest;
      assert kept + ([connectors[i]] + rest) == (kept + [connectors[i]]) + rest;
    }
  }

  lemma {:induction false} ReplacedAt(connectors: seq<Connector>, c: Connector, at: nat)
    requires at < |connectors| && connectors[at].name == c.name
    requires forall i :: 0 <= i < at ==> connectors[i].name != c.name
    ensures Replaced(connectors, c) == connectors[at := c]
  {
    if at > 0 {
      ReplacedAt(connectors[1..], c, at - 1);
      assert connectors[at := c] == [connectors[0]] + connectors[1..][at - 1 := c];
    } else {
      assert connectors[0 := c] == [c] + connectors[1..];
    }
  }

  // ---------------------------------------------------------------- runs

  /** Named connectors have distinct names. */
  ghost predicate DistinctNames(connectors: seq<Connector>) {
    forall i, j :: 0 <= i < j < |connectors| && connectors[i].name != "" ==> connectors[i].name != connectors[j].name
  }

  /** The named connectors as a dictionary. */
  function ByName(connectors: seq<Connector>): map<string, Connector> {
    if connectors == [] then map[]
    else
      var rest := ByName(connectors[1..]);
      if connectors[0].name == "" then rest else rest[connectors[0].name := connectors[0]]
  }

  /** The reference: a configuration as its other sections and a dictionary of connectors. */
  datatype Table = Table(sections: map<string, string>, byName: map<string, Connector>)

  function TableOf(config: Config): Table { Table(config.sections, ByName(config.List())) }

  /** What a request means for a table. */
  function Meaning(t: Table, r: Request): Table {
    match r
    case Add(c) => if c.name == "" || c.name in t.byName then t else t.(byName := t.byName[c.name := c])
    case Remove(name) => t.(byName := t.byName - {name})
    case Update(Named(c)) => if c.name == "" || c.name !in t.byName then t else t.(byName := t.byName[c.name := c])
    case Update(WholeList(connectors)) => t.(byName := ByName(connectors))
    case Update(NoList) => t
    case Full(config) => TableOf(config)
  }

  /** The running configuration and the last-known-good copy, once there is one, are the file's. */
  ghost predicate InStep(s: State) {
    s.gateway == s.disk && (s.lastGood.Some? ==> s.lastGood.value == s.disk)
  }

  function Run(s: State, requests: seq<(Request, Outcome)>): State
    decreases |requests|
  {
    if requests == [] then s else Run(Handled(s, requests[0].0, requests[0].1), requests[1..])
  }

  /** The valid requests whose new file stays, applied to a table. */
  function Reference(t: Table, requests: seq<(Request, Outcome)>): Table
    decreases |requests|
  {
    if requests == [] then t
    else
      var (r, o) := requests[0];
      Reference(if o.valid && Stays(o) then Meaning(t, r) else t, requests[1..])
  }

  lemma {:induction false} NamesAgree(connectors: seq<Connector>, name: string)
    requires name != ""
    ensures HasName(connectors, name) <==> name in ByName(connectors)
    ensures name in ByName(connectors) ==> ByName(connectors)[name].name == name
    ensures "" !in ByName(connectors)
  {
    if connectors != [] {
      NamesAgree(connectors[1..], name);
      if HasName(connectors, name) && connectors[0].name != name {
        var i :| 0 <= i < |connectors| && connectors[i].name == name;
        assert connectors[1..][i - 1].name == name;
      }
    }
  }

  lemma {:induction false} AddMeans(connectors: seq<Connector>, c: Connector)
    requires c.name != "" && !HasName(connectors, c.name)
    ensures DistinctNames(connectors) ==> DistinctNames(connectors + [c])
    ensures ByName(connectors + [c]) == ByName(connectors)[c.name := c]
  {
    if connectors == [] {
      assert [c][1..] == [];
    } else {
      assert (connectors + [c])[1..] == connectors[1..] + [c];
      forall i | 0 <= i < |connectors[1..]| ensures connectors[1..][i].name != c.name {
        assert connectors[1..][i] == connectors[i + 1];
      }
      AddMeans(connectors[1..], c);
    }
  }

  lemma {:induction false} WithoutKeeps(connectors: seq<Connector>, name: string)
    ensures forall c :: c in Without(connectors, name) ==> c in connectors
  {
    if connectors != [] { WithoutKeeps(connectors[1..], name); }
  }

  lemma ConsDistinct(c: Connector, rest: seq<Connector>)
    requires DistinctNames(rest) && (c.name != "" ==> forall d :: d in rest ==> d.name != c.name)
    ensures DistinctNames([c] + rest) && ([c] + rest)[1..] == rest
  {
  }

  lemma TailDistinct(connectors: seq<Connector>)
    requires DistinctNames(connectors) && connectors != []
    ensures DistinctNames(connectors[1..])
    ensures connectors[0].name != "" ==> forall d :: d in connectors[1..] ==> d.name != connectors[0].name
  {
  }

  lemma {:induction false} RemoveKeepsDistinct(connectors: seq<Connector>, name: string)
    requires DistinctNames(connectors)
    ensures DistinctNames(Without(connectors, name))
  {
    if connectors != [] {
      TailDistinct(connectors);
      hide DistinctNames;
      RemoveKeepsDistinct(connectors[1..], name);
      var rest := Without(connectors[1..], name);
      assert [] + rest == rest;
      WithoutKeeps(connectors[1..], name);
      ConsDistinct(connectors[0], rest);
    }
  }

  lemma ByNameCons(c: Connector, rest: seq<Connector>)
    ensures ByName([c] + rest) == if c.name == "" then ByName(rest) else ByName(rest)[c.name := c]
  {
    assert ([c] + rest)[1..] == rest;
  }

  lemma {:induction false} RemoveMeans(connectors: seq<Connector>, name: string)
    requires name != ""
    ensures ByName(Without(connectors, name)) == ByName(connectors) - {name}
  {
    if connectors != [] {
      var head, tail := connectors[0], connectors[1..];
      var rest := Without(tail, name);
      RemoveMeans(tail, name);
      ByNameCons(head, tail);
      ByNameCons(head, rest);
      assert connectors == [head] + tail && [] + rest == rest;
    }
  }

  lemma {:induction false} ReplacedNames(connectors: seq<Connector>, c: Connector)
    ensures |Replaced(connectors, c)| == |connectors|
    ensures forall i :: 0 <= i < |connectors| ==> Replaced(connectors, c)[i].name == connectors[i].name
  {
    if connectors != [] { ReplacedNames(connectors[1..], c); }
  }

  lemma {:induction false} UpdateMeans(connectors: seq<Connector>, c: Connector)
    requires c.name != "" && HasName(connectors, c.name)
    ensures ByName(Replaced(connectors, c)) == ByName(connectors)[c.name := c]
  {
    if connectors[0].name != c.name {
      var i :| 0 <= i < |connectors| && connectors[i].name == c.name;
      assert connectors[1..][i - 1].name == c.name;
      UpdateMeans(connectors[1..], c);
      assert Replaced(connectors, c)[1..] == Replaced(connectors[1..], c);
    } else {
      assert Replaced(connectors, c)[1..] == connectors[1..];
    }
  }

  /** Names supplied by whole lists and whole configurations are distinct. */
  ghost predicate SuppliesDistinct(r: Request) {
    match r
    case Update(WholeList(connectors)) => DistinctNames(connectors)
    case Full(config) => DistinctNames(config.List())
    case _ => true
  }

  /** An edited configuration means what the table says; a refusal means no change. */
  lemma ProposalMeans(disk: Config, r: Request)
    ensures var p := Proposed(disk, r);
            if p.None? then Meaning(TableOf(disk), r) == TableOf(disk)
            else TableOf(p.value) == Meaning(TableOf(disk), r)
  {
    hide ByName, Without, Replaced;
    var list := disk.List();
    match r
    case Add(c) =>
      if c.name != "" {
        NamesAgree(list, c.name);
        if !HasName(list, c.name) { AddMeans(list, c); }
      }
    case Remove(name) => RemovalMeans(list, name);
    case Update(Named(c)) =>
      if c.name != "" {
        NamesAgree(list, c.name);
        if HasName(list, c.name) { UpdateMeans(list, c); }
      }
    case _ =>
  }

  lemma RemovalMeans(list: seq<Connector>, name: string)
    ensures name != "" ==> ByName(Without(list, name)) == ByName(list) - {name}
    ensures name == "" || !HasName(list, name) ==> ByName(list) - {name} == ByName(list)
  {
    hide ByName, Without;
    NamesAgree(list, if name == "" then "any" else name);
    if name != "" { RemoveMeans(list, name); }
  }

  /** Requests by name keep names distinct; a list or configuration brings its own. */
  lemma ProposalKeepsNames(disk: Config, r: Request)
    requires DistinctNames(disk.List()) && Proposed(disk, r).Some?
    ensures DistinctNames(Proposed(disk, r).value.List()) <==> SuppliesDistinct(r)
  {
    hide DistinctNames, Without, Replaced, ByName;
    var list := disk.List();
    match r
    case Add(c) => AddMeans(list, c);
    case Remove(name) => RemoveKeepsDistinct(list, name);
    case Update(Named(c)) => ReplacementKeepsDistinct(list, c);
    case _ =>
  }

  lemma ReplacementKeepsDistinct(list: seq<Connector>, c: Connector)
    requires DistinctNames(list)
    ensures DistinctNames(Replaced(list, c))
  {
    hide Replaced;
    ReplacedNames(list, c);
  }

  /** The new file was written and the previous one not put back. */
  predicate Stays(o: Outcome) { WriteNew in Performed(o) && WritePrevious !in Performed(o) }

  /** The state after `n` actions of a plan. */
  function After(s: State, edited: Config, all: bool, n: nat): State {
    var copy := if n >= 1 && s.lastGood.None? then Some(s.disk) else s.lastGood;
    if n < 2 then s.(lastGood := copy)
    else if n < 4 then State(edited, edited, copy)
    else if all then State(edited, edited, Some(edited))
    else State(s.disk, s.disk, copy)
  }

  lemma {:induction false} FileAfter(s: State, edited: Config, started: seq<bool>, n: nat)
    requires n <= |Plan(started)|
    ensures DoAll(s, s.disk, edited, Plan(started)[..n]) == After(s, edited, AllStarted(started), n)
    decreases n
  {
    hide AllStarted, Plan;
    PlanIs(started);
    if n > 0 {
      FileAfter(s, edited, started, n - 1);
      OneMore(s, s.disk, edited, Plan(started), n - 1);
    }
  }

  lemma StateAfter(s: State, edited: Config, o: Outcome)
    ensures Applied(s, edited, o) == After(s, edited, AllStarted(o.started), |Performed(o)|)
    ensures IsCut(o) <==> o.raisesAt.Some? && o.raisesAt.value < if AllStarted(o.started) then 6 else 7
    ensures |Performed(o)| == if IsCut(o) then o.raisesAt.value else if AllStarted(o.started) then 6 else 7
  {
    hide AllStarted, DoAll, Plan;
    PlanIs(o.started);
    var plan := Plan(o.started);
    assert plan[..|plan|] == plan;
    FileAfter(s, edited, o.started, |Performed(o)|);
  }

  /** When the two file writes have been carried out. */
  lemma WritesPerformed(o: Outcome)
    ensures WriteNew in Performed(o) <==> |Performed(o)| >= 2
    ensures WritePrevious in Performed(o) <==> !AllStarted(o.started) && |Performed(o)| >= 4
  {
    hide AllStarted, Plan;
    PlanIs(o.started);
    var done := Performed(o);
    assert forall i :: 0 <= i < |done| ==> done[i] == Plan(o.started)[i];
    assert |done| >= 2 ==> done[1] == WriteNew;
    assert !AllStarted(o.started) && |done| >= 4 ==> done[3] == WritePrevious;
  }

  lemma AppliedMeans(s: State, edited: Config, o: Outcome)
    ensures var t := Applied(s, edited, o);
            && t.disk == (if Stays(o) then edited else s.disk)
            && (s.gateway == s.disk ==> t.gateway == t.disk)
            && (!IsCut(o) ==> (Stays(o) <==> AllStarted(o.started)))
            && (!IsCut(o) ==>
                  t.lastGood == if AllStarted(o.started) then Some(edited)
                                else if s.lastGood.None? then Some(s.disk) else s.lastGood)
  {
    hide AllStarted, Applied, Performed, IsCut;
    StateAfter(s, edited, o);
    WritesPerformed(o);
  }

  /** One request means what the table says, keeps distinct names, and tells by its status what became of the file. */
  lemma StepMeans(s: State, r: Request, o: Outcome)
    ensures var t := Handled(s, r, o);
            && TableOf(t.disk) == (if o.valid && Stays(o) then Meaning(TableOf(s.disk), r) else TableOf(s.disk))
            && (DistinctNames(s.disk.List()) && SuppliesDistinct(r) ==> DistinctNames(t.disk.List()))
            && (StatusOf(s, r, o) == Success ==> t.disk == Proposed(s.disk, r).value && AllStarted(o.started))
            && (StatusOf(s, r, o) in {Rejected, RolledBack} ==> t.disk == s.disk)
            && (s.gateway == s.disk ==> t.gateway == t.disk)
            && (InStep(s) && StatusOf(s, r, o) != Failed ==> InStep(t))
  {
    hide DistinctNames, TableOf, Meaning, Proposed, AllStarted, SuppliesDistinct, Applied, Stays, IsCut;
    ProposalMeans(s.disk, r);
    if Proposed(s.disk, r).Some? {
      AppliedMeans(s, Proposed(s.disk, r).value, o);
      if DistinctNames(s.disk.List()) { ProposalKeepsNames(s.disk, r); }
    }
  }

  /**
   Without an exception a valid request takes effect exactly when no connector failed to
   start: one failure, and the file and the running configuration are the previous ones.
   An invalid or refused request changes nothing at all.
   */
  lemma OneFailureRollsBack(s: State, r: Request, o: Outcome)
    requires o.raisesAt == None
    ensures var t := Handled(s, r, o);
            var proposed := Proposed(s.disk, r);
            if !o.valid || proposed == None then t == s && StatusOf(s, r, o) == Rejected
            else if false in o.started then
              StatusOf(s, r, o) == RolledBack && t.disk == t.gateway == s.disk
            else StatusOf(s, r, o) == Success && t == State(proposed.value, proposed.value, proposed)
  {
    hide Proposed, Applied, Plan;
    if Proposed(s.disk, r).Some? { StateAfter(s, Proposed(s.disk, r).value, o); }
    assert AllStarted(o.started) <==> false !in o.started;
  }

  /**
   A failed update says nothing about the file.  The new one is in place, although no
   rollback is reported, if and only if the exception came after it was written and before
   the previous one was put back: an exception at the restart after a rollback, or at the
   journal or the acknowledgement behind it, leaves the previous file.
   */
  lemma FailedUpdateKeepsTheNewFile(s: State, r: Request, o: Outcome)
    requires StatusOf(s, r, o) == Failed && Proposed(s.disk, r).value != s.disk
    ensures Handled(s, r, o).disk == Proposed(s.disk, r).value <==> WriteNew in Performed(o) && WritePrevious !in Performed(o)
    ensures Handled(s, r, o).disk == Proposed(s.disk, r).value <==>
              o.raisesAt.value >= 2 && (AllStarted(o.started) || o.raisesAt.value <= 3)
    ensures Handled(s, r, o).disk != Proposed(s.disk, r).value ==> Handled(s, r, o).disk == s.disk
  {
    hide AllStarted, Applied, Performed, IsCut, Proposed;
    AppliedMeans(s, Proposed(s.disk, r).value, o);
    StateAfter(s, Proposed(s.disk, r).value, o);
    WritesPerformed(o);
  }

  /**
   Over any sequence of requests and exceptions the file's other sections and its connectors
   are exactly those that the valid requests whose new file stays leave in a table; the
   others leave no trace.  Names stay distinct as long as whole lists and configurations
   bring distinct names, and the running configuration is always the file's.
   */
  lemma {:induction false} FileFollowsTheReference(s: State, requests: seq<(Request, Outcome)>)
    ensures var t := Run(s, requests);
            && TableOf(t.disk) == Reference(TableOf(s.disk), requests)
            && (DistinctNames(s.disk.List()) && (forall i :: 0 <= i < |requests| ==> SuppliesDistinct(requests[i].0)) ==>
                  DistinctNames(t.disk.List()))
            && (s.gateway == s.disk ==> t.gateway == t.disk)
            && (InStep(s) && (forall i :: 0 <= i < |requests| ==> !IsCut(requests[i].1)) ==> InStep(t))
    decreases |requests|
  {
    hide DistinctNames, TableOf, Meaning, SuppliesDistinct, Handled, Stays, AllStarted, IsCut;
    if requests != [] {
      var (r, o) := requests[0];
      StepMeans(s, r, o);
      OnlyExceptionsFail(s, r, o);
      var rest := requests[1..];
      assert forall i :: 0 <= i < |rest| ==> rest[i] == requests[i + 1];
      FileFollowsTheReference(Handled(s, r, o), rest);
    }
  }

  lemma OnlyExceptionsFail(s: State, r: Request, o: Outcome)
    ensures StatusOf(s, r, o) == Failed ==> IsCut(o)
  {
    hide Proposed, AllStarted;
  }
}
