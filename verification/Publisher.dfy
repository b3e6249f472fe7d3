/**
 The MQTT publisher: live queue, offline buffer, throttled replay and claim tags
 (`novena_gateway/gateway/novena_mqtt_publisher.py`).

 Each publish call, each iteration of the publish loop and each event of a replay batch is
 one step; connection, bootstrap mode, claim and release change freely in between.  The
 event storage follows the abstract contract of `novena_gateway/storage/event_storage.py`:
 `put` may refuse, a pack is a prefix of what is stored, and finishing a pack removes
 exactly that pack.  Handing a message over means MQTT QoS 1 (section 4.3.2 of MQTT 3.1.1)
 as far as the local client: it accepts the message or returns an error code.
 */
module Publisher {
  import opened Common

  type Claim = Option<string>

  /** `id` numbers the accepted messages; the gateway itself does not carry it. */
  datatype Message = Message(id: nat, topic: string, payload: map<string, string>, tag: Claim)

  /** A replay batch in progress: its size, events looked at, events counted as done. */
  datatype Replay = Replay(size: nat, seen: nat, succeeded: nat, broken: bool)

  /** A message given to the client, with the claim in force at that moment. */
  datatype Handover = Handover(message: Message, claim: Claim)

  datatype History = History(
    delivered: set<nat>,    // accepted by the client at least once
    discarded: set<nat>,    // dropped as stale or because of a release
    foreign: set<nat>,      // of these, the ones that belonged to another claim
    lost: set<nat>,         // behind `dropped`
    crashed: set<nat>,      // in the live queue when the process ended
    earlier: set<nat>,      // lost, and counted, by an earlier process
    handed: seq<Handover>)

  datatype State = State(
    queue: seq<Message>,
    capacity: int,          // not positive: no bound
    stored: seq<Message>,
    replay: Option<Replay>,
    connected: bool,
    bootstrap: bool,
    releasing: bool,
    claim: Claim,
    dropped: nat,           // dropped_message_count
    nextId: nat,            // messages accepted so far
    history: History)

  function Initial(capacity: int, claim: Claim): State {
    State([], capacity, [], None, false, false, false, claim, 0, 0, History({}, {}, {}, {}, {}, {}, []))
  }

  /**
   A new process: the live queue and the counters are gone, the storage is kept, and claim,
   mode and release flag come from the configuration file.
   */
  function Restarted(s: State, capacity: int, claim: Claim, bootstrap: bool, releasing: bool): State {
    State([], capacity, s.stored, None, false, bootstrap, releasing, claim, 0, s.nextId,
          s.history.(lost := {}, earlier := s.history.earlier + s.history.lost,
                     crashed := s.history.crashed + Ids(s.queue)))
  }

  predicate EndsWith(s: string, suffix: string) {
    |suffix| <= |s| && s[|s| - |suffix|..] == suffix
  }

  /** Topics whose payload carries the claim. */
  predicate Scoped(topic: string) { EndsWith(topic, "/telemetry") || EndsWith(topic, "/logs") }

  predicate Truthy(claim: Claim) { claim.Some? && claim.value != "" }

  function WithClaimId(payload: map<string, string>, topic: string, claim: Claim): map<string, string> {
    if Truthy(claim) && Scoped(topic) then payload["claim_id" := claim.value] else payload
  }

  // ---------------------------------------------------------------- the steps

  /** `_buffer_event` and the counter behind it: `m` goes to the storage, or is lost. */
  function Buffer(s: State, m: Message, stores: bool): State {
    if s.releasing then s.(history := s.history.(discarded := s.history.discarded + {m.id}))
    else if stores then s.(stored := s.stored + [m])
    else Lose(s, m)
  }

  function Lose(s: State, m: Message): State {
    s.(dropped := s.dropped + 1, history := s.history.(lost := s.history.lost + {m.id}))
  }

  function Discard(s: State, m: Message): State {
    s.(history := s.history.(discarded := s.history.discarded + {m.id}))
  }

  /** Dropped because it belongs to another claim. */
  function Disown(s: State, m: Message): State {
    s.(history := s.history.(discarded := s.history.discarded + {m.id}, foreign := s.history.foreign + {m.id}))
  }

  function Hand(s: State, m: Message, accepted: bool): State {
    s.(history := s.history.(
         handed := s.history.handed + [Handover(m, s.claim)],
         delivered := if accepted then s.history.delivered + {m.id} else s.history.delivered))
  }

  function Published(s: State, payload: map<string, string>, topic: string, stores: bool): State {
    if s.releasing then s
    else
      var m := Message(s.nextId, topic, WithClaimId(payload, topic, s.claim), s.claim);
      var t := s.(nextId := s.nextId + 1);
      if !s.connected then Buffer(t, m, stores)
      else if 0 < s.capacity <= |s.queue| then Lose(t, s.queue[0]).(queue := s.queue[1..] + [m])
      else t.(queue := s.queue + [m])
  }

  /** One iteration of the publish loop over a non-empty queue. */
  function Drained(s: State, accepted: bool, stores: bool): State
    requires s.queue != []
  {
    var m := s.queue[0];
    var t := s.(queue := s.queue[1..]);
    if m.tag != s.claim then Disown(t, m)
    else if s.releasing then Discard(t, m)
    else if s.connected && !s.bootstrap then
      var handed := Hand(t, m, accepted);
      if accepted then handed else Buffer(handed, m, stores)
    else Buffer(t, m, stores)
  }

  function ReplayBegun(s: State, size: nat): State {
    s.(replay := Some(Replay(size, 0, 0, false)))
  }

  /** One event of the batch, or the break that ends the batch early. */
  function ReplayedOne(s: State, accepted: bool): State
    requires s.replay.Some? && s.replay.value.seen < |s.stored|
  {
    var r := s.replay.value;
    var m := s.stored[r.seen];
    if !s.connected || s.releasing then s.(replay := Some(r.(broken := true)))
    else if m.tag != s.claim then
      Disown(s, m).(replay := Some(r.(seen := r.seen + 1, succeeded := r.succeeded + 1)))
    else if s.bootstrap then s.(replay := Some(r.(broken := true)))
    else
      Hand(s, m, accepted).(
        replay := Some(r.(seen := r.seen + 1, succeeded := if accepted then r.succeeded + 1 else r.succeeded)))
  }

  function ReplayFinished(s: State): State
    requires s.replay.Some? && s.replay.value.size <= |s.stored|
  {
    var r := s.replay.value;
    if r.succeeded == r.size then s.(stored := s.stored[r.size..], replay := None) else s.(replay := None)
  }

  function Ids(messages: seq<Message>): set<nat> { set i | 0 <= i < |messages| :: messages[i].id }

  /** `clear_claim_buffer` up to the point where it raises when a replay does not stop. */
  function QueueCleared(s: State): State {
    s.(releasing := true, queue := [], history := s.history.(discarded := s.history.discarded + Ids(s.queue)))
  }

  /** `clear_claim_buffer`: a replay that does not stop leaves the storage alone. */
  function BufferCleared(s: State): State {
    if s.replay.Some? then QueueCleared(s)
    else
      var t := QueueCleared(s);
      t.(stored := [], history := t.history.(discarded := t.history.discarded + Ids(s.stored)))
  }

  datatype Step =
    | Publish(payload: map<string, string>, topic: string, stores: bool)
    | DrainQueue(accepted: bool, stores: bool)
    | BeginReplay(size: nat)
    | ReplayEvent(accepted: bool)
    | FinishReplay
    | ClearBuffer
    | SetConnected(connected: bool)
    | SetBootstrap(bootstrap: bool)
    | BeginRelease
    | Activate(claim: string)
    | RetireClaim
    | Restart(capacity: int, owner: Claim, limited: bool, releasing: bool)

  predicate Enabled(s: State, step: Step) {
    match step
    case DrainQueue(_, _) => s.queue != []
    case BeginReplay(size) =>
      s.replay.None? && s.connected && !s.bootstrap && !s.releasing && 0 < size <= |s.stored|
    case ReplayEvent(_) =>
      s.replay.Some? && !s.replay.value.broken && s.replay.value.seen < s.replay.value.size <= |s.stored|
    case FinishReplay =>
      && s.replay.Some? && s.replay.value.size <= |s.stored|
      && (s.replay.value.broken || s.replay.value.seen == s.replay.value.size)
    case _ => true
  }

  function Next(s: State, step: Step): State
    requires Enabled(s, step)
  {
    match step
    case Publish(payload, topic, stores) => Published(s, payload, topic, stores)
    case DrainQueue(accepted, stores) => Drained(s, accepted, stores)
    case BeginReplay(size) => ReplayBegun(s, size)
    case ReplayEvent(accepted) => ReplayedOne(s, accepted)
    case FinishReplay => ReplayFinished(s)
    case ClearBuffer => BufferCleared(s)
    case SetConnected(c) => s.(connected := c)
    case SetBootstrap(b) => s.(bootstrap := b)
    case BeginRelease => s.(releasing := true)
    case Activate(c) => s.(claim := Some(c), releasing := false)
    case RetireClaim => s.(claim := None)
    case Restart(capacity, claim, bootstrap, releasing) => Restarted(s, capacity, claim, bootstrap, releasing)
  }

  predicate Possible(s: State, steps: seq<Step>)
    decreases |steps|
  {
    steps == [] || (Enabled(s, steps[0]) && Possible(Next(s, steps[0]), steps[1..]))
  }

  function Final(s: State, steps: seq<Step>): State
    requires Possible(s, steps)
    decreases |steps|
  {
    if steps == [] then s else Final(Next(s, steps[0]), steps[1..])
  }

  /** A whole batch while nothing else happens: `outcomes[i]` is the client's answer to event i. */
  function ReplayedRest(s: State, outcomes: seq<bool>): (t: State)
    requires s.replay.Some? && s.replay.value.seen <= s.replay.value.size <= |s.stored|
    requires |outcomes| == s.replay.value.size
    ensures t.replay.Some? && t.replay.value.size == s.replay.value.size && t.stored == s.stored
    decreases s.replay.value.size - s.replay.value.seen, !s.replay.value.broken
  {
    var r := s.replay.value;
    if r.broken || r.seen == r.size then s
    else ReplayedRest(ReplayedOne(s, outcomes[r.seen]), outcomes)
  }

  lemma ReplayStep(s: State, outcomes: seq<bool>)
    requires s.replay.Some? && s.replay.value.seen < s.replay.value.size <= |s.stored| && !s.replay.value.broken
    requires |outcomes| == s.replay.value.size
    ensures ReplayedRest(s, outcomes) == ReplayedRest(ReplayedOne(s, outcomes[s.replay.value.seen]), outcomes)
  {
  }

  // ---------------------------------------------------------------- the publisher object

  class NovenaMqttPublisher {
    const capacity: int
    var queue: seq<Message>
    var stored: seq<Message>
    var connected: bool
    var bootstrap: bool
    var releasing: bool
    var claim: Claim
    var dropped: nat
    var nextId: nat
    ghost var history: History

    ghost function View(): (s: State)
      reads this
    {
      State(queue, capacity, stored, None, connected, bootstrap, releasing, claim, dropped, nextId, history)
    }

    /** A process starts with the storage that the previous one left. */
    constructor (capacity: int, storage: seq<Message>, claim: Claim, bootstrap: bool, releasing: bool,
                 accepted: nat, ghost previous: State)
      requires storage == previous.stored && accepted == previous.nextId
      ensures View() == Restarted(previous, capacity, claim, bootstrap, releasing)
    {
      this.capacity, this.claim, this.bootstrap, this.releasing := capacity, claim, bootstrap, releasing;
      queue, stored, connected, dropped, nextId := [], storage, false, 0, accepted;
      history := Restarted(previous, capacity, claim, bootstrap, releasing).history;
    }

    method BufferEvent(m: Message, stores: bool)
      modifies this
      ensures View() == Buffer(old(View()), m, stores)
      ensures stored == (if stores && !old(releasing) then old(stored) + [m] else old(stored))
      ensures dropped == (if stores || old(releasing) then old(dropped) else old(dropped) + 1)
    {
      if releasing {
        history := history.(discarded := history.discarded + {m.id});
        return;
      }
      if stores {
        stored := stored + [m];
      } else {
        dropped := dropped + 1;
        history := history.(lost := history.lost + {m.id});
      }
    }

    method Publish(payload: map<string, string>, topic: string, stores: bool)
      modifies this
      ensures View() == Published(old(View()), payload, topic, stores)
    {
      if releasing { return; }
      var m := Message(nextId, topic, WithClaimId(payload, topic, claim), claim);
      nextId := nextId + 1;
      if connected {
        if capacity > 0 && |queue| >= capacity {
          history := history.(lost := history.lost + {queue[0].id});
          queue := queue[1..];
          dropped := dropped + 1;
        }
        queue := queue + [m];
      } else {
        BufferEvent(m, stores);
      }
    }

    /** One iteration of the publish loop; `accepted` is the client's answer if it is asked. */
    method PublishNext(accepted: bool, stores: bool)
      requires queue != []
      modifies this
      ensures View() == Drained(old(View()), accepted, stores)
    {
      var m := queue[0];
      queue := queue[1..];
      if m.tag != claim {
        history := history.(discarded := history.discarded + {m.id}, foreign := history.foreign + {m.id});
        return;
      }
      if releasing {
        history := history.(discarded := history.discarded + {m.id});
        return;
      }
      if connected && !bootstrap {
        history := history.(
          handed := history.handed + [Handover(m, claim)],
          delivered := if accepted then history.delivered + {m.id} else history.delivered);
        if !accepted { BufferEvent(m, stores); }
      } else {
        BufferEvent(m, stores);
      }
    }

    /** The replay loop's body for the next event of the batch. */
    method ReplayNext(r: Replay, accepted: bool) returns (next: Replay)
      requires r.seen < |stored|
      modifies this`history
      ensures View().(replay := Some(next)) == ReplayedOne(old(View()).(replay := Some(r)), accepted)
    {
      var m := stored[r.seen];
      if !connected || releasing { return r.(broken := true); }
      if m.tag != claim {
        history := history.(discarded := history.discarded + {m.id}, foreign := history.foreign + {m.id});
        return r.(seen := r.seen + 1, succeeded := r.succeeded + 1);
      }
      if bootstrap { return r.(broken := true); }
      history := history.(
        handed := history.handed + [Handover(m, claim)],
        delivered := if accepted then history.delivered + {m.id} else history.delivered);
      next := r.(seen := r.seen + 1, succeeded := if accepted then r.succeeded + 1 else r.succeeded);
    }

    /** One pass of the replay loop over a pack of `size` events. */
    method ReplayPack(size: nat, outcomes: seq<bool>)
      requires 0 < size <= |stored| && |outcomes| == size
      modifies this
      ensures View() == ReplayFinished(ReplayedRest(ReplayBegun(old(View()), size), outcomes))
    {
      var r := Replay(size, 0, 0, false);
      ghost var goal := ReplayedRest(View().(replay := Some(r)), outcomes);
      while r.seen < size && !r.broken
        invariant r.size == size && r.seen <= size <= |stored|
        invariant ReplayedRest(View().(replay := Some(r)), outcomes) == goal
        decreases size - r.seen, !r.broken
      {
        hide ReplayedRest;
        ReplayStep(View().(replay := Some(r)), outcomes);
        r := ReplayNext(r, outcomes[r.seen]);
      }
      if r.succeeded == size { stored := stored[size..]; }
    }

    /** Erases queue and storage, or raises after the queue when a replay does not stop in time. */
    method ClearClaimBuffer(replayStops: bool) returns (ok: bool)
      modifies this
      ensures ok == replayStops
      ensures View() == if ok then BufferCleared(old(View())) else QueueCleared(old(View()))
    {
      releasing := true;
      history := history.(discarded := history.discarded + Ids(queue));
      queue := [];
      if !replayStops { return false; }
      history := history.(discarded := history.discarded + Ids(stored));
      stored := [];
      ok := true;
    }
  }

  // ---------------------------------------------------------------- conservation

  ghost predicate Distinct(messages: seq<Message>) {
    forall i, j :: 0 <= i < j < |messages| ==> messages[i].id != messages[j].id
  }

  /** Where the accepted messages are. */
  datatype Ledger = Ledger(
    queued: set<nat>, stored: set<nat>, delivered: set<nat>, discarded: set<nat>, lost: set<nat>,
    past: set<nat>, accepted: nat, dropped: nat)

  ghost function Books(s: State): Ledger {
    Ledger(Ids(s.queue), Ids(s.stored), s.history.delivered, s.history.discarded, s.history.lost,
           s.history.crashed + s.history.earlier, s.nextId, s.dropped)
  }

  /**
   Message `id` is in at most one of queue, storage and the accounts of lost messages, and
   in one of all accounts if it was ever accepted.
   */
  predicate Placed(l: Ledger, id: nat) {
    && (id in l.queued ==> id !in l.stored && id !in l.lost && id !in l.past)
    && (id in l.stored ==> id !in l.lost && id !in l.past)
    && (id in l.lost ==> id !in l.past)
    && (id in l.queued || id in l.stored || id in l.lost || id in l.past ==> id < l.accepted)
    && (id < l.accepted ==>
          || id in l.queued || id in l.stored || id in l.delivered
          || id in l.discarded || id in l.lost || id in l.past)
  }

  /** Every message has its place, and losses are counted. */
  ghost predicate Balanced(l: Ledger) {
    (forall id: nat :: Placed(l, id)) && l.dropped == |l.lost|
  }

  /** Balanced but for `id`, which is on its way from one place to the next. */
  ghost predicate Moving(l: Ledger, id: nat) {
    && Balanced(l.(discarded := l.discarded + {id}))
    && id < l.accepted && id !in l.queued && id !in l.stored && id !in l.lost && id !in l.past
  }

  lemma BooksTake(l: Ledger, id: nat, rest: set<nat>)
    requires Balanced(l) && l.queued == {id} + rest && id !in rest
    ensures Moving(l.(queued := rest), id)
  {
    var t := l.(queued := rest, discarded := l.discarded + {id});
    forall x: nat ensures Placed(t, x) { assert Placed(l, x); }
    assert Placed(l, id);
  }

  /** A new message has an id that no place knows yet. */
  lemma BooksAdmit(l: Ledger)
    requires Balanced(l)
    ensures Moving(l.(accepted := l.accepted + 1), l.accepted) && l.accepted !in l.queued
  {
    var t := l.(accepted := l.accepted + 1, discarded := l.discarded + {l.accepted});
    forall x: nat ensures Placed(t, x) { assert Placed(l, x); }
    assert Placed(l, l.accepted);
  }

  lemma BooksQueue(l: Ledger, id: nat)
    requires Moving(l, id)
    ensures Balanced(l.(queued := l.queued + {id}))
  {
    var t := l.(queued := l.queued + {id});
    forall x: nat ensures Placed(t, x) { assert Placed(l.(discarded := l.discarded + {id}), x); }
  }

  lemma BooksStore(l: Ledger, id: nat)
    requires Moving(l, id)
    ensures id !in l.stored && Balanced(l.(stored := l.stored + {id}))
  {
    var t := l.(stored := l.stored + {id});
    forall x: nat ensures Placed(t, x) { assert Placed(l.(discarded := l.discarded + {id}), x); }
  }

  lemma BooksDeliver(l: Ledger, id: nat)
    requires Moving(l, id)
    ensures Balanced(l.(delivered := l.delivered + {id}))
    ensures Moving(l.(delivered := l.delivered + {id}), id)
  {
    var t := l.(delivered := l.delivered + {id});
    forall x: nat ensures Placed(t, x) && Placed(t.(discarded := l.discarded + {id}), x) {
      assert Placed(l.(discarded := l.discarded + {id}), x);
    }
  }

  lemma BooksLose(l: Ledger, id: nat)
    requires Moving(l, id)
    ensures Balanced(l.(lost := l.lost + {id}, dropped := l.dropped + 1))
    ensures Balanced(l.(discarded := l.discarded + {id}))
  {
    var t := l.(lost := l.lost + {id}, dropped := l.dropped + 1);
    forall x: nat ensures Placed(t, x) { assert Placed(l.(discarded := l.discarded + {id}), x); }
  }

  lemma BooksRepeat(l: Ledger, ids: set<nat>)
    requires Balanced(l)
    ensures Balanced(l.(delivered := l.delivered + ids))
    ensures Balanced(l.(discarded := l.discarded + ids))
  {
    forall x: nat
      ensures Placed(l.(delivered := l.delivered + ids), x) && Placed(l.(discarded := l.discarded + ids), x)
    {
      assert Placed(l, x);
    }
  }

  lemma BooksRelease(l: Ledger, gone: set<nat>, rest: set<nat>)
    requires Balanced(l) && l.stored == gone + rest && gone <= l.delivered + l.discarded
    ensures Balanced(l.(stored := rest))
  {
    forall x: nat ensures Placed(l.(stored := rest), x) { assert Placed(l, x); }
  }

  lemma BooksClearQueue(l: Ledger)
    requires Balanced(l)
    ensures Balanced(l.(queued := {}, discarded := l.discarded + l.queued))
    ensures Balanced(l.(queued := {}, stored := {}, discarded := l.discarded + l.queued + l.stored))
  {
    forall x: nat
      ensures Placed(l.(queued := {}, discarded := l.discarded + l.queued), x)
      ensures Placed(l.(queued := {}, stored := {}, discarded := l.discarded + l.queued + l.stored), x)
    {
      assert Placed(l, x);
    }
  }

  lemma BooksRestart(l: Ledger)
    requires Balanced(l)
    ensures Balanced(l.(queued := {}, lost := {}, past := l.past + l.queued + l.lost, dropped := 0))
  {
    var t := l.(queued := {}, lost := {}, past := l.past + l.queued + l.lost, dropped := 0);
    forall x: nat ensures Placed(t, x) { assert Placed(l, x); }
  }

  /** While every event of the batch so far counted as done, each was accepted or belonged to another claim. */
  ghost predicate BatchSafe(s: State) {
    s.replay.Some? ==>
      var r := s.replay.value;
      && r.succeeded <= r.seen <= r.size <= |s.stored|
      && (r.broken ==> r.seen < r.size)
      && (r.succeeded == r.seen ==>
            forall i :: 0 <= i < r.seen ==> s.stored[i].id in s.history.delivered + s.history.foreign)
  }

  /** A scoped payload names the claim of its tag. */
  predicate Tagged(m: Message) {
    Truthy(m.tag) && Scoped(m.topic) ==> "claim_id" in m.payload && m.payload["claim_id"] == m.tag.value
  }

  ghost predicate AllTagged(messages: seq<Message>) {
    forall i :: 0 <= i < |messages| ==> Tagged(messages[i])
  }

  ghost predicate HandedOk(handed: seq<Handover>) {
    forall i :: 0 <= i < |handed| ==> Tagged(handed[i].message) && handed[i].message.tag == handed[i].claim
  }

  ghost predicate Inv(s: State) {
    && Distinct(s.queue) && Distinct(s.stored) && Balanced(Books(s))
    && BatchSafe(s) && s.history.foreign <= s.history.discarded
    && AllTagged(s.queue) && AllTagged(s.stored) && HandedOk(s.history.handed)
  }

  /** Facts about a list after one message is appended. */
  lemma Appended(q: seq<Message>, m: Message)
    requires Distinct(q) && AllTagged(q)
    ensures Ids(q + [m]) == Ids(q) + {m.id}
    ensures m.id !in Ids(q) ==> Distinct(q + [m])
    ensures Tagged(m) ==> AllTagged(q + [m])
  {
    forall id | id in Ids(q) + {m.id} ensures id in Ids(q + [m]) {
      if id != m.id {
        var i :| 0 <= i < |q| && q[i].id == id;
        assert (q + [m])[i].id == id;
      } else {
        assert (q + [m])[|q|].id == id;
      }
    }
    forall i | 0 <= i < |q| ensures q[i].id in Ids(q) {}
  }

  /** Facts about a list after its first `n` messages are removed. */
  lemma Removed(q: seq<Message>, n: nat)
    requires Distinct(q) && AllTagged(q) && n <= |q|
    ensures Distinct(q[n..]) && AllTagged(q[n..])
    ensures Ids(q) == Ids(q[..n]) + Ids(q[n..]) && Ids(q[..n]) !! Ids(q[n..])
    ensures n == 1 ==> Ids(q[..1]) == {q[0].id}
  {
    forall id | id in Ids(q) ensures id in Ids(q[..n]) + Ids(q[n..]) {
      var i :| 0 <= i < |q| && q[i].id == id;
      if i < n { assert q[..n][i].id == id; } else { assert q[n..][i - n].id == id; }
    }
    if n == 1 { assert q[..1] == [q[0]]; }
  }

  lemma HandedAppended(handed: seq<Handover>, h: Handover)
    requires HandedOk(handed) && Tagged(h.message) && h.message.tag == h.claim
    ensures HandedOk(handed + [h])
  {
  }

  /** Everything but the books of `m`, which is on its way from one place to the next. */
  ghost predicate InTransit(s: State, m: Message) {
    && Distinct(s.queue) && Distinct(s.stored)
    && Moving(Books(s), m.id)
    && BatchSafe(s) && s.history.foreign <= s.history.discarded
    && AllTagged(s.queue) && AllTagged(s.stored) && HandedOk(s.history.handed) && Tagged(m)
  }

  lemma BatchUnaffected(s: State, t: State)
    requires BatchSafe(s) && t.replay == s.replay && s.stored <= t.stored
    requires s.history.delivered <= t.history.delivered && s.history.foreign <= t.history.foreign
    ensures BatchSafe(t)
  {
  }

  /** The message arrives in the storage, or is lost or discarded for good. */
  lemma BufferKeeps(s: State, m: Message, stores: bool)
    requires InTransit(s, m)
    ensures Inv(Buffer(s, m, stores)) && Inv(Lose(s, m)) && Inv(Discard(s, m)) && Inv(Disown(s, m))
  {
    hide Ids, Balanced, Moving, Distinct, AllTagged, HandedOk, Tagged, BatchSafe;
    BooksStore(Books(s), m.id);
    BooksLose(Books(s), m.id);
    Appended(s.stored, m);
    BatchUnaffected(s, s.(stored := s.stored + [m]));
    BatchUnaffected(s, Lose(s, m));
    BatchUnaffected(s, Discard(s, m));
    BatchUnaffected(s, Disown(s, m));
  }

  lemma HeadTaken(s: State)
    requires Inv(s) && s.queue != []
    ensures InTransit(s.(queue := s.queue[1..]), s.queue[0])
  {
    assert Tagged(s.queue[0]);
    hide Ids, Balanced, Moving, Distinct, AllTagged, HandedOk, Tagged, BatchSafe;
    var t := s.(queue := s.queue[1..]);
    Removed(s.queue, 1);
    BooksTake(Books(s), s.queue[0].id, Ids(t.queue));
    BatchUnaffected(s, t);
  }

  lemma Enqueue(s: State, m: Message)
    requires Inv(s) && m.id == s.nextId && Tagged(m)
    ensures Inv(s.(queue := s.queue + [m], nextId := s.nextId + 1))
    ensures InTransit(s.(nextId := s.nextId + 1), m)
  {
    hide Ids, Balanced, Moving, Distinct, AllTagged, HandedOk, Tagged;
    var admitted := Books(s).(accepted := s.nextId + 1);
    BooksAdmit(Books(s));
    BooksQueue(admitted, m.id);
    Appended(s.queue, m);
  }

  lemma TaggedAtPublish(m: Message, payload: map<string, string>)
    requires m.payload == WithClaimId(payload, m.topic, m.tag)
    ensures Tagged(m)
  {
  }

  lemma PublishKeeps(s: State, payload: map<string, string>, topic: string, stores: bool)
    requires Inv(s)
    ensures Inv(Published(s, payload, topic, stores))
  {
    hide Ids, Balanced, Moving, Distinct, AllTagged, HandedOk, Tagged, WithClaimId;
    if !s.releasing {
      var m := Message(s.nextId, topic, WithClaimId(payload, topic, s.claim), s.claim);
      TaggedAtPublish(m, payload);
      Enqueue(s, m);
      if !s.connected {
        BufferKeeps(s.(nextId := s.nextId + 1), m, stores);
      } else if 0 < s.capacity <= |s.queue| {
        HeadTaken(s);
        BufferKeeps(s.(queue := s.queue[1..]), s.queue[0], stores);
        Enqueue(Lose(s.(queue := s.queue[1..]), s.queue[0]), m);
      }
    }
  }

  lemma HandKeeps(s: State, m: Message, accepted: bool)
    requires InTransit(s, m) && m.tag == s.claim
    ensures InTransit(Hand(s, m, accepted), m)
    ensures accepted ==> Inv(Hand(s, m, accepted))
  {
    hide Ids, Balanced, Moving, Distinct, AllTagged, HandedOk, Tagged;
    HandedAppended(s.history.handed, Handover(m, s.claim));
    BooksDeliver(Books(s), m.id);
  }

  lemma DrainKeeps(s: State, accepted: bool, stores: bool)
    requires Inv(s) && s.queue != []
    ensures Inv(Drained(s, accepted, stores))
  {
    hide Inv, InTransit, Ids, Hand, Buffer, Discard, Disown;
    var m := s.queue[0];
    var t := s.(queue := s.queue[1..]);
    HeadTaken(s);
    if m.tag != s.claim || s.releasing {
      BufferKeeps(t, m, stores);
    } else if s.connected && !s.bootstrap {
      HandKeeps(t, m, accepted);
      if !accepted { BufferKeeps(Hand(t, m, accepted), m, stores); }
    } else {
      BufferKeeps(t, m, stores);
    }
  }

  lemma BatchProgress(s: State, accepted: bool)
    requires BatchSafe(s) && Enabled(s, ReplayEvent(accepted))
    ensures BatchSafe(ReplayedOne(s, accepted))
  {
  }

  lemma ReplayKeeps(s: State, accepted: bool)
    requires Inv(s) && Enabled(s, ReplayEvent(accepted))
    ensures Inv(ReplayedOne(s, accepted))
  {
    var m := s.stored[s.replay.value.seen];
    assert Tagged(m);
    BatchProgress(s, accepted);
    hide Ids, Balanced, Moving, Distinct, AllTagged, HandedOk, Tagged, BatchSafe;
    BooksRepeat(Books(s), {m.id});
    if m.tag == s.claim {
      HandedAppended(s.history.handed, Handover(m, s.claim));
    }
  }

  /** The events of a batch that counted as done throughout are accounted for. */
  lemma DoneBatch(s: State)
    requires BatchSafe(s) && s.replay.Some? && s.replay.value.succeeded == s.replay.value.size
    ensures Ids(s.stored[..s.replay.value.size]) <= s.history.delivered + s.history.foreign
  {
    var n := s.replay.value.size;
    forall id | id in Ids(s.stored[..n]) ensures id in s.history.delivered + s.history.foreign {
      var i :| 0 <= i < n && s.stored[..n][i].id == id;
      assert s.stored[i].id == id;
    }
  }

  lemma FinishKeeps(s: State)
    requires Inv(s) && Enabled(s, FinishReplay)
    ensures Inv(ReplayFinished(s))
  {
    hide Ids, Balanced, Moving, Distinct, AllTagged, HandedOk, Tagged;
    var n := s.replay.value.size;
    Removed(s.stored, n);
    if s.replay.value.succeeded == n {
      DoneBatch(s);
      BooksRelease(Books(s), Ids(s.stored[..n]), Ids(s.stored[n..]));
    }
  }

  lemma NothingLeft()
    ensures Ids([]) == {} && Distinct([]) && AllTagged([])
  {
  }

  lemma ClearKeeps(s: State)
    requires Inv(s)
    ensures Inv(BufferCleared(s))
  {
    NothingLeft();
    hide Ids, Balanced, Moving, Distinct, AllTagged, HandedOk, Tagged;
    BooksClearQueue(Books(s));
  }

  lemma BeginKeeps(s: State, size: nat)
    requires Inv(s) && size <= |s.stored|
    ensures Inv(ReplayBegun(s, size))
  {
    hide Ids, Balanced, Moving, Distinct, AllTagged, HandedOk, Tagged;
  }

  lemma FlagsKeep(s: State, t: State)
    requires Inv(s) && t == s.(connected := t.connected, bootstrap := t.bootstrap, releasing := t.releasing, claim := t.claim)
    ensures Inv(t)
  {
    hide Ids, Balanced, Moving, Distinct, AllTagged, HandedOk, Tagged;
  }

  lemma RestartKeeps(s: State, capacity: int, claim: Claim, bootstrap: bool, releasing: bool)
    requires Inv(s)
    ensures Inv(Restarted(s, capacity, claim, bootstrap, releasing))
  {
    hide Balanced, Moving, HandedOk, Tagged, Ids;
    NothingLeft();
    BooksRestart(Books(s));
    var t := Restarted(s, capacity, claim, bootstrap, releasing);
    assert Books(t).past == Books(s).past + Books(s).queued + Books(s).lost;
  }

  lemma StepKeeps(s: State, step: Step)
    requires Inv(s) && Enabled(s, step)
    ensures Inv(Next(s, step))
  {
    hide Inv;
    match step
    case Publish(payload, topic, stores) => PublishKeeps(s, payload, topic, stores);
    case DrainQueue(accepted, stores) => DrainKeeps(s, accepted, stores);
    case BeginReplay(size) => BeginKeeps(s, size);
    case ReplayEvent(accepted) => ReplayKeeps(s, accepted);
    case FinishReplay => FinishKeeps(s);
    case ClearBuffer => ClearKeeps(s);
    case Restart(capacity, claim, bootstrap, releasing) => RestartKeeps(s, capacity, claim, bootstrap, releasing);
    case _ => FlagsKeep(s, Next(s, step));
  }

  lemma {:induction false} RunKeeps(s: State, steps: seq<Step>)
    requires Inv(s) && Possible(s, steps)
    ensures Inv(Final(s, steps))
    decreases |steps|
  {
    hide Inv;
    if steps != [] {
      StepKeeps(s, steps[0]);
      RunKeeps(Next(s, steps[0]), steps[1..]);
    }
  }

  lemma FreshStateIsFine(capacity: int, claim: Claim)
    ensures Inv(Initial(capacity, claim))
  {
  }

  lemma EveryIdIsKnown(s: State, id: nat)
    requires Inv(s)
    ensures Placed(Books(s), id) && s.dropped == |s.history.lost|
  {
    hide Placed, Ids, BatchSafe, Distinct, AllTagged, HandedOk;
  }

  /** The storage refused a message, or a full queue pushed it out. */
  predicate Overflows(s: State, step: Step) {
    match step
    case Publish(_, _, stores) => (s.connected && 0 < s.capacity <= |s.queue|) || (!s.connected && !stores)
    case DrainQueue(_, stores) => !stores
    case _ => false
  }

  predicate Accepts(step: Step) {
    (step.DrainQueue? && step.accepted) || (step.ReplayEvent? && step.accepted)
  }

  /**
   A message enters one of the final accounts only for its own reason: foreign when its tag
   differs from the claim in force, discarded for that or because a release is under way,
   lost when the storage refuses it or a full queue pushes it out, delivered when the
   client accepts it; and a restart takes along only the live queue and the count of what
   was lost.
   */
  lemma EveryExitHasItsReason(s: State, step: Step, id: nat)
    requires Enabled(s, step)
    ensures var t := Next(s, step);
            && (id in t.history.discarded - s.history.discarded ==>
                  s.releasing || step.ClearBuffer? || exists m :: m in s.queue + s.stored && m.id == id && m.tag != s.claim)
            && (id in t.history.foreign - s.history.foreign ==>
                  exists m :: m in s.queue + s.stored && m.id == id && m.tag != s.claim)
            && (id in t.history.lost - s.history.lost ==> Overflows(s, step))
            && (id in t.history.crashed - s.history.crashed ==> step.Restart? && id in Ids(s.queue))
            && (id in t.history.earlier - s.history.earlier ==> step.Restart? && id in s.history.lost)
            && (id in t.history.delivered - s.history.delivered ==>
                  Accepts(step) && t.history.handed != [] && t.history.handed[|t.history.handed| - 1].message.id == id)
  {
    hide WithClaimId;
    match step
    case DrainQueue(_, _) => assert s.queue[0] in s.queue + s.stored;
    case ReplayEvent(_) => assert s.stored[s.replay.value.seen] in s.queue + s.stored;
    case _ =>
  }

  /** `steps` lead from a first start of the publisher to `s`. */
  ghost predicate Leads(capacity: int, claim: Claim, steps: seq<Step>, s: State) {
    Possible(Initial(capacity, claim), steps) && Final(Initial(capacity, claim), steps) == s
  }

  ghost predicate Reachable(s: State) { exists capacity, claim, steps :: Leads(capacity, claim, steps, s) }

  lemma ReachableKeeps(s: State)
    requires Reachable(s)
    ensures Inv(s)
  {
    hide Possible, Final, Inv;
    var capacity, claim, steps :| Leads(capacity, claim, steps, s);
    FreshStateIsFine(capacity, claim);
    RunKeeps(Initial(capacity, claim), steps);
  }

  /**
   Across any number of restarts, every accepted message is in the queue, in the storage,
   was accepted by the client at least once, was discarded for a stale claim or a release,
   is one of the messages counted, once each, in `dropped_message_count`, was so counted by
   an earlier process, or was in the live queue when its process ended.
   */
  lemma MessagesAreConserved(s: State, id: nat)
    requires Reachable(s)
    ensures id < s.nextId ==>
              || id in Ids(s.queue) || id in Ids(s.stored)
              || id in s.history.delivered || id in s.history.discarded || id in s.history.lost
              || id in s.history.crashed || id in s.history.earlier
    ensures s.dropped == |s.history.lost|
    ensures id in Ids(s.queue) ==> id !in Ids(s.stored)
    ensures id in s.history.lost || id in s.history.crashed || id in s.history.earlier ==>
              id !in Ids(s.queue) && id !in Ids(s.stored)
    ensures id in s.history.lost ==> id !in s.history.crashed && id !in s.history.earlier
  {
    hide Reachable, Ids;
    ReachableKeeps(s);
    EveryIdIsKnown(s, id);
  }

  /** A batch leaves the storage only when each of its events was accepted or belonged to another claim. */
  lemma BatchLeavesOnlyWhenDone(s: State)
    requires Reachable(s) && Enabled(s, FinishReplay)
    ensures var t := Next(s, FinishReplay);
            t.stored == s.stored ||
            (&& t.stored == s.stored[s.replay.value.size..]
             && forall i :: 0 <= i < s.replay.value.size ==>
                  s.stored[i].id in s.history.delivered + s.history.foreign)
  {
    hide Reachable, Ids, Balanced, Distinct, AllTagged, HandedOk;
    ReachableKeeps(s);
  }

  /**
   Every message that either loop ever hands to the client, also one that an earlier
   process stored, carries the claim in force at that moment, and a telemetry or log
   payload names that claim.
   */
  lemma HandedMessagesCarryTheCurrentClaim(s: State, i: nat)
    requires Reachable(s) && i < |s.history.handed|
    ensures var h := s.history.handed[i];
            && h.message.tag == h.claim
            && (Truthy(h.claim) && Scoped(h.message.topic) ==>
                  "claim_id" in h.message.payload && h.message.payload["claim_id"] == h.claim.value)
  {
    hide Reachable, Ids, Balanced, Distinct, AllTagged, BatchSafe;
    ReachableKeeps(s);
  }

  // ---------------------------------------------------------------- what the messages say

  /** A call of `publish` that was taken, with the claim in force. */
  datatype Call = Call(topic: string, payload: map<string, string>, claim: Claim)

  function Taken(s: State, step: Step): seq<Call> {
    if step.Publish? && !s.releasing then [Call(step.topic, step.payload, s.claim)] else []
  }

  /** The calls taken in a run, in order. */
  function Calls(s: State, steps: seq<Step>): seq<Call>
    requires Possible(s, steps)
    decreases |steps|
  {
    if steps == [] then [] else Taken(s, steps[0]) + Calls(Next(s, steps[0]), steps[1..])
  }

  /** The topic is one for telemetry or logs. */
  predicate ForTelemetryOrLogs(topic: string) {
    || (|topic| >= 10 && topic[|topic| - 10..] == "/telemetry")
    || (|topic| >= 5 && topic[|topic| - 5..] == "/logs")
  }

  /** The message says what was published: nothing is lost, and at most the claim is added. */
  ghost predicate Says(m: Message, c: Call) {
    && m.topic == c.topic && m.tag == c.claim
    && if ForTelemetryOrLogs(c.topic) && c.claim.Some? && c.claim.value != "" then
         && m.payload.Keys == c.payload.Keys + {"claim_id"} && m.payload["claim_id"] == c.claim.value
         && (forall k :: k in c.payload && k != "claim_id" ==> m.payload[k] == c.payload[k])
       else m.payload == c.payload
  }

  /** The message says what the call with its number said. */
  ghost predicate SaysItsCall(m: Message, calls: seq<Call>) { m.id < |calls| && Says(m, calls[m.id]) }

  ghost predicate AllSay(messages: seq<Message>, calls: seq<Call>) {
    forall m :: m in messages ==> SaysItsCall(m, calls)
  }

  ghost predicate HandedSay(handed: seq<Handover>, calls: seq<Call>) {
    forall h :: h in handed ==> SaysItsCall(h.message, calls)
  }

  ghost predicate Truthful(s: State, calls: seq<Call>) {
    |calls| == s.nextId && AllSay(s.queue, calls) && AllSay(s.stored, calls) && HandedSay(s.history.handed, calls)
  }

  /** A new message says what its call said. */
  lemma NewMessageSays(id: nat, topic: string, payload: map<string, string>, claim: Claim)
    ensures Says(Message(id, topic, WithClaimId(payload, topic, claim), claim), Call(topic, payload, claim))
  {
  }

  lemma MoreCalls(m: Message, calls: seq<Call>, more: seq<Call>)
    requires SaysItsCall(m, calls)
    ensures SaysItsCall(m, calls + more)
  {
    assert (calls + more)[m.id] == calls[m.id];
  }

  /** The message of a call that is taken. */
  function NewMessage(s: State, step: Step): Message
    requires step.Publish?
  {
    Message(s.nextId, step.topic, WithClaimId(step.payload, step.topic, s.claim), s.claim)
  }

  /** Messages kept by the publisher were kept before, or come from the call. */
  lemma KeptMessages(s: State, step: Step, m: Message)
    requires Enabled(s, step)
    ensures var t := Next(s, step);
            m in t.queue || m in t.stored ==>
              m in s.queue || m in s.stored || (step.Publish? && !s.releasing && m == NewMessage(s, step))
  {
    hide WithClaimId, Ids;
  }

  /** Messages handed over were handed over before, or were kept. */
  lemma HandedMessages(s: State, step: Step, h: Handover)
    requires Enabled(s, step)
    ensures h in Next(s, step).history.handed ==> h in s.history.handed || h.message in s.queue || h.message in s.stored
  {
    hide WithClaimId, Ids;
  }

  lemma NumbersGrow(s: State, step: Step)
    requires Enabled(s, step)
    ensures Next(s, step).nextId == s.nextId + |Taken(s, step)|
  {
    hide WithClaimId, Ids;
  }

  lemma TruthfulStep(s: State, step: Step, calls: seq<Call>)
    requires Truthful(s, calls) && Enabled(s, step)
    ensures Truthful(Next(s, step), calls + Taken(s, step))
  {
    hide Says, WithClaimId, Ids, Next, Enabled;
    var t, more := Next(s, step), Taken(s, step);
    NumbersGrow(s, step);
    if step.Publish? && !s.releasing {
      NewMessageSays(s.nextId, step.topic, step.payload, s.claim);
      assert (calls + more)[s.nextId] == more[0];
      assert SaysItsCall(NewMessage(s, step), calls + more);
    }
    forall m | m in t.queue || m in t.stored ensures SaysItsCall(m, calls + more) {
      KeptMessages(s, step, m);
      if SaysItsCall(m, calls) { MoreCalls(m, calls, more); }
    }
    forall h | h in t.history.handed ensures SaysItsCall(h.message, calls + more) {
      HandedMessages(s, step, h);
      MoreCalls(h.message, calls, more);
    }
  }

  lemma {:induction false} TruthfulRun(s: State, steps: seq<Step>, calls: seq<Call>)
    requires Truthful(s, calls) && Possible(s, steps)
    ensures Truthful(Final(s, steps), calls + Calls(s, steps))
    decreases |steps|
  {
    hide Truthful, Next, Enabled, Taken;
    if steps == [] {
      assert calls + [] == calls;
    } else {
      TruthfulStep(s, steps[0], calls);
      TruthfulRun(Next(s, steps[0]), steps[1..], calls + Taken(s, steps[0]));
      assert calls + (Taken(s, steps[0]) + Calls(Next(s, steps[0]), steps[1..]))
          == (calls + Taken(s, steps[0])) + Calls(Next(s, steps[0]), steps[1..]);
    }
  }

  /**
   In every run with restarts, every message in the queue, in the storage or handed to the
   client has the topic of its publish call and all of its payload, and at most the claim
   is added: "claim_id", exactly for telemetry and logs under a claim.  Its id is the
   number of its call.
   */
  lemma MessagesSayWhatWasPublished(capacity: int, claim: Claim, steps: seq<Step>)
    requires Possible(Initial(capacity, claim), steps)
    ensures var s := Final(Initial(capacity, claim), steps);
            var calls := Calls(Initial(capacity, claim), steps);
            && |calls| == s.nextId
            && AllSay(s.queue, calls) && AllSay(s.stored, calls) && HandedSay(s.history.handed, calls)
  {
    hide Possible, Final, Calls;
    var start := Initial(capacity, claim);
    TruthfulRun(start, steps, []);
    assert [] + Calls(start, steps) == Calls(start, steps);
  }

  // ---------------------------------------------------------------- the order of the queue

  /** The queue is in the order of the calls, and within its bound. */
  ghost predicate InOrder(s: State) {
    && (forall i, j :: 0 <= i < j < |s.queue| ==> s.queue[i].id < s.queue[j].id)
    && (forall i :: 0 <= i < |s.queue| ==> s.queue[i].id < s.nextId)
    && (s.capacity > 0 ==> |s.queue| <= s.capacity)
  }

  /** What a step can do to the queue. */
  lemma QueueStep(s: State, step: Step)
    requires Enabled(s, step)
    ensures var t := Next(s, step);
            || (t.queue == s.queue && t.nextId >= s.nextId && t.capacity == s.capacity)
            || (t.queue == [] && t.nextId == s.nextId)
            || (s.queue != [] && t.queue == s.queue[1..] && t.nextId == s.nextId && t.capacity == s.capacity)
            || (&& step.Publish? && t.nextId == s.nextId + 1 && t.capacity == s.capacity
                && (t.queue == s.queue + [NewMessage(s, step)] || (s.queue != [] && t.queue == s.queue[1..] + [NewMessage(s, step)]))
                && (0 < s.capacity <= |s.queue| ==> t.queue == s.queue[1..] + [NewMessage(s, step)]))
  {
    hide WithClaimId, Ids;
  }

  lemma InOrderStep(s: State, step: Step)
    requires InOrder(s) && Enabled(s, step)
    ensures InOrder(Next(s, step))
  {
    hide Next, Enabled, WithClaimId;
    QueueStep(s, step);
    assert s.queue != [] ==> forall k :: 0 <= k < |s.queue[1..]| ==> s.queue[1..][k] == s.queue[k + 1];
  }

  lemma {:induction false} InOrderRun(s: State, steps: seq<Step>)
    requires InOrder(s) && Possible(s, steps)
    ensures InOrder(Final(s, steps))
    decreases |steps|
  {
    hide InOrder, Next, Enabled;
    if steps != [] {
      InOrderStep(s, steps[0]);
      InOrderRun(Next(s, steps[0]), steps[1..]);
    }
  }

  /** In every run the live queue is in the order of the publish calls and within its bound. */
  lemma QueueIsInOrder(s: State)
    requires Reachable(s)
    ensures forall i, j :: 0 <= i < j < |s.queue| ==> s.queue[i].id < s.queue[j].id
    ensures s.capacity > 0 ==> |s.queue| <= s.capacity
  {
    hide Possible, Final;
    var capacity, claim, steps :| Leads(capacity, claim, steps, s);
    InOrderRun(Initial(capacity, claim), steps);
  }

  /** First in, first out: as long as a message is in the live queue, so is every later one, whatever the step. */
  lemma FirstInFirstOut(s: State, step: Step, i: nat, j: nat)
    requires Reachable(s) && Enabled(s, step) && i < j < |s.queue|
    ensures s.queue[i] in Next(s, step).queue ==> s.queue[j] in Next(s, step).queue
  {
    hide Next, Enabled, WithClaimId, Reachable;
    QueueIsInOrder(s);
    QueueStep(s, step);
    var q, t := s.queue, Next(s, step).queue;
    assert forall k :: 0 <= k < |q[1..]| ==> q[1..][k] == q[k + 1];
    assert q[1..][j - 1] == q[j];
  }

  // ---------------------------------------------------------------- what one step is for

  /** A call that is taken puts its message, the newest, at the end of the queue, or else of the storage. */
  lemma PublishedMessagesArrive(s: State, payload: map<string, string>, topic: string, stores: bool)
    requires !s.releasing
    ensures var t := Next(s, Publish(payload, topic, stores));
            && t.nextId == s.nextId + 1
            && (s.connected ==> t.queue != [] && t.queue[|t.queue| - 1].id == s.nextId && t.stored == s.stored)
            && (!s.connected && stores ==> t.stored != [] && t.stored[|t.stored| - 1].id == s.nextId && t.queue == s.queue)
            && (!s.connected && !stores ==> t.dropped == s.dropped + 1 && t.queue == s.queue && t.stored == s.stored)
  {
    hide WithClaimId;
  }

  /** The publish loop hands the oldest message to the client exactly when it belongs to the claim, no release is under way and the client is connected for operation. */
  lemma DrainHandsExactly(s: State, accepted: bool, stores: bool)
    requires s.queue != []
    ensures var m := s.queue[0];
            var t := Next(s, DrainQueue(accepted, stores));
            && t.queue == s.queue[1..]
            && t.history.handed == (if m.tag == s.claim && !s.releasing && s.connected && !s.bootstrap
                                    then s.history.handed + [Handover(m, s.claim)] else s.history.handed)
            && (t.stored == s.stored + [m] <==>
                  m.tag == s.claim && !s.releasing && stores && !(s.connected && !s.bootstrap && accepted))
  {
    assert |s.stored + [s.queue[0]]| == |s.stored| + 1;
  }

  /** The replay hands the next stored event to the client exactly under the same conditions, and stops when it cannot. */
  lemma ReplayHandsExactly(s: State, accepted: bool)
    requires Enabled(s, ReplayEvent(accepted))
    ensures var m := s.stored[s.replay.value.seen];
            var t := Next(s, ReplayEvent(accepted));
            var hands := m.tag == s.claim && !s.releasing && s.connected && !s.bootstrap;
            && t.stored == s.stored
            && t.history.handed == (if hands then s.history.handed + [Handover(m, s.claim)] else s.history.handed)
            && t.replay.value.broken == (!s.connected || s.releasing || (m.tag == s.claim && s.bootstrap))
            && t.replay.value.succeeded == s.replay.value.succeeded +
                 (if hands && accepted then 1 else if s.connected && !s.releasing && m.tag != s.claim then 1 else 0)
  {
  }

  /** A batch leaves the storage exactly when every one of its events counted; erasing leaves nothing behind. */
  lemma StorageIsClearedExactly(s: State)
    ensures Enabled(s, FinishReplay) ==>
              var t := Next(s, FinishReplay);
              && t.stored == (if s.replay.value.succeeded == s.replay.value.size then s.stored[s.replay.value.size..] else s.stored)
              && t.replay == None
    ensures var t := Next(s, ClearBuffer);
            t.queue == [] && t.releasing && t.stored == if s.replay == None then [] else s.stored
  {
  }

  // ---------------------------------------------------------------- releases and changes of owner

  /** Neither an activation, nor a start that finds no release pending. */
  predicate KeepsReleasing(step: Step) { !step.Activate? && (step.Restart? ==> step.releasing) }

  /** Nothing is accepted, handed over or stored. */
  ghost predicate Silent(s: State, t: State) {
    && t.nextId == s.nextId && t.history.handed == s.history.handed
    && (forall m :: m in t.queue ==> m in s.queue) && (forall m :: m in t.stored ==> m in s.stored)
  }

  lemma SilentStep(s: State, step: Step)
    requires s.releasing && Enabled(s, step) && KeepsReleasing(step)
    ensures Next(s, step).releasing && Silent(s, Next(s, step))
  {
    hide Ids, WithClaimId;
  }

  lemma {:induction false} SilentRun(s: State, steps: seq<Step>)
    requires s.releasing && Possible(s, steps) && forall i :: 0 <= i < |steps| ==> KeepsReleasing(steps[i])
    ensures Silent(s, Final(s, steps))
    decreases |steps|
  {
    hide Next, Enabled, KeepsReleasing;
    if steps != [] {
      SilentStep(s, steps[0]);
      forall i | 0 <= i < |steps[1..]| ensures KeepsReleasing(steps[1..][i]) { assert steps[1..][i] == steps[i + 1]; }
      SilentRun(Next(s, steps[0]), steps[1..]);
    }
  }

  /**
   From the begin of a release on, restarts into the pending state included, no message is
   accepted, handed to the client or put into queue or storage, until an owner activates
   the gateway.
   */
  lemma ReleaseIsSilent(s: State, steps: seq<Step>)
    requires Possible(Next(s, BeginRelease), steps)
    requires forall i :: 0 <= i < |steps| ==> KeepsReleasing(steps[i])
    ensures Silent(s, Final(Next(s, BeginRelease), steps))
  {
    hide Possible, Final, KeepsReleasing;
    SilentRun(Next(s, BeginRelease), steps);
  }

  /** Neither a change of claim nor a start under another one. */
  predicate KeepsClaim(step: Step, claim: Claim) {
    !step.Activate? && !step.RetireClaim? && (step.Restart? ==> step.owner == claim)
  }

  /** What is handed over from number `n` on belongs to the claim. */
  ghost predicate HandedUnder(s: State, claim: Claim, n: nat) {
    forall i :: n <= i < |s.history.handed| ==>
      s.history.handed[i].claim == claim && s.history.handed[i].message.tag == claim
  }

  /** Only the two loops hand messages over. */
  lemma OnlyLoopsHand(s: State, step: Step)
    requires Enabled(s, step)
    ensures Next(s, step).history.handed == s.history.handed || step.DrainQueue? || step.ReplayEvent?
  {
    hide Ids, WithClaimId;
  }

  lemma HandedUnderStep(s: State, step: Step, n: nat)
    requires HandedUnder(s, s.claim, n) && Enabled(s, step) && KeepsClaim(step, s.claim)
    ensures Next(s, step).claim == s.claim && HandedUnder(Next(s, step), s.claim, n)
  {
    hide Ids, WithClaimId;
    OnlyLoopsHand(s, step);
    match step
    case DrainQueue(accepted, stores) => DrainHandsExactly(s, accepted, stores);
    case ReplayEvent(accepted) => ReplayHandsExactly(s, accepted);
    case _ =>
  }

  lemma {:induction false} HandedUnderRun(s: State, steps: seq<Step>, n: nat)
    requires HandedUnder(s, s.claim, n) && Possible(s, steps)
    requires forall i :: 0 <= i < |steps| ==> KeepsClaim(steps[i], s.claim)
    ensures HandedUnder(Final(s, steps), s.claim, n)
    decreases |steps|
  {
    hide Next, Enabled, KeepsClaim, HandedUnder;
    if steps != [] {
      HandedUnderStep(s, steps[0], n);
      forall i | 0 <= i < |steps[1..]| ensures KeepsClaim(steps[1..][i], s.claim) { assert steps[1..][i] == steps[i + 1]; }
      HandedUnderRun(Next(s, steps[0]), steps[1..], n);
    }
  }

  /**
   After an activation everything handed to the client belongs to the new owner, and after
   the claim is retired to nobody, until the next change of owner; whatever an earlier one
   left in queue or storage is never sent.
   */
  lemma OwnersAreSeparated(s: State, change: Step, steps: seq<Step>, i: nat)
    requires change.Activate? || change.RetireClaim?
    requires Possible(Next(s, change), steps)
    requires var owner := if change.Activate? then Some(change.claim) else None;
             forall j :: 0 <= j < |steps| ==> KeepsClaim(steps[j], owner)
    requires |s.history.handed| <= i < |Final(Next(s, change), steps).history.handed|
    ensures var owner := if change.Activate? then Some(change.claim) else None;
            var h := Final(Next(s, change), steps).history.handed[i];
            h.claim == owner && h.message.tag == owner
  {
    hide Possible, Final, KeepsClaim;
    var t := Next(s, change);
    HandedUnderRun(t, steps, |s.history.handed|);
    assert HandedUnder(Final(t, steps), t.claim, |s.history.handed|);
  }

  /** An activation ends a release: the next call is taken, for the new owner, and goes last into queue or storage. */
  lemma ActivationOpens(s: State, claim: string, payload: map<string, string>, topic: string)
    ensures var t := Next(Next(s, Activate(claim)), Publish(payload, topic, true));
            var messages := if s.connected then t.queue else t.stored;
            && t.nextId == s.nextId + 1 && messages != []
            && var m := messages[|messages| - 1]; m.id == s.nextId && m.topic == topic && m.tag == Some(claim)
  {
    hide WithClaimId;
  }
}
