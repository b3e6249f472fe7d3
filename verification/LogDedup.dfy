/**
 De-duplication of remote log records (`novena_gateway/gateway/remote_log_handler.py`).

 The cache is an ordered dictionary, modelled as a sequence of entries with distinct
 signatures, least recently touched first.  A suppressed record is counted; the count goes
 out as a summary when its entry expires, is evicted, or is forwarded again.
 */
module LogDedup {
  import opened Common

  const WARNING := 30
  const ERROR := 40

  /** `folded` is the case-folded message. */
  datatype Record = Record(level: int, logger: string, message: string, folded: string)

  datatype Signature = Signature(level: int, logger: string, message: string)

  datatype Cached = Cached(signature: Signature, forwardedAt: real, lastSeen: real, suppressed: nat)

  /** What is appended to the outgoing buffer: a record, or a summary of suppressed ones. */
  datatype Line = Forward(record: Record) | Summary(signature: Signature, count: nat, seconds: int)

  datatype Settings = Settings(enabled: bool, minLevel: int, window: real, summaries: bool, cacheSize: nat)

  /** An eligible record as it went through the cache. */
  datatype Touch = Touch(signature: Signature, at: real, forwarded: bool)

  datatype State = State(
    cache: seq<Cached>,
    lines: seq<Line>,        // everything ever appended to the buffer
    touches: seq<Touch>)     // history: eligible records, oldest first

  const EMPTY := State([], [], [])

  predicate StartsWith(s: string, prefix: string) { prefix <= s }

  predicate Contains(s: string, term: string) {
    exists i :: 0 <= i <= |s| && term <= s[i..]
  }

  /** The records that the handler takes: its own activity is never logged remotely. */
  predicate Handles(c: Settings, r: Record) {
    && c.enabled && r.level >= c.minLevel
    && !StartsWith(r.logger, "novena_gateway.mqtt_publisher") && r.logger != "novena_gateway.remote_log_handler"
  }

  /** The records that de-duplication looks at. */
  predicate Eligible(c: Settings, r: Record) {
    && Handles(c, r) && c.window > 0.0 && (r.level == WARNING || r.level == ERROR)
    && !StartsWith(r.logger, "novena_gateway.remote_config") && !StartsWith(r.logger, "novena_gateway.activation")
    && !Contains(r.folded, "activation") && !Contains(r.folded, "configuration failed")
    && !Contains(r.folded, "config failed") && !Contains(r.folded, "state changed")
    && !Contains(r.folded, "status changed")
  }

  lemma EligibleIsHandled(c: Settings, r: Record)
    ensures Eligible(c, r) ==> Handles(c, r)
  {
  }

  function SignatureOf(r: Record): Signature { Signature(r.level, r.logger, r.message) }

  function Lookup(cache: seq<Cached>, g: Signature): Option<Cached> {
    if cache == [] then None
    else if cache[0].signature == g then Some(cache[0])
    else Lookup(cache[1..], g)
  }

  function Remove(cache: seq<Cached>, g: Signature): seq<Cached> {
    if cache == [] then []
    else if cache[0].signature == g then cache[1..]
    else [cache[0]] + Remove(cache[1..], g)
  }

  /** `_append_duplicate_summary` */
  function SummaryOf(c: Settings, d: Cached): seq<Line> {
    if !c.summaries || d.suppressed == 0 then []
    else [Summary(d.signature, d.suppressed, Max(0, (d.lastSeen - d.forwardedAt).Floor))]
  }

  /** The least recently touched entries above the bound leave the cache, each with its summary. */
  function Evicted(c: Settings, s: State): State
    decreases |s.cache|
  {
    if |s.cache| <= c.cacheSize then s
    else Evicted(c, s.(cache := s.cache[1..], lines := s.lines + SummaryOf(c, s.cache[0])))
  }

  /** One eligible record at time `now`. */
  function Processed(c: Settings, s: State, r: Record, now: real): State {
    var g := SignatureOf(r);
    var found := Lookup(s.cache, g);
    if found.None? then
      var t := Evicted(c, s.(cache := s.cache + [Cached(g, now, now, 0)]));
      t.(lines := t.lines + [Forward(r)], touches := s.touches + [Touch(g, now, true)])
    else
      var d := found.value;
      var rest := Remove(s.cache, g);
      if now - d.forwardedAt < c.window then
        s.(cache := rest + [d.(suppressed := d.suppressed + 1, lastSeen := now)],
           touches := s.touches + [Touch(g, now, false)])
      else
        s.(cache := rest + [Cached(g, now, now, 0)],
           lines := s.lines + SummaryOf(c, d) + [Forward(r)],
           touches := s.touches + [Touch(g, now, true)])
  }

  function Emitted(c: Settings, s: State, r: Record, now: real): State {
    if Eligible(c, r) then Processed(c, s, r, now)
    else if Handles(c, r) then s.(lines := s.lines + [Forward(r)])
    else s
  }

  predicate Leaves(c: Settings, d: Cached, now: real, force: bool) { force || now - d.forwardedAt >= c.window }

  function Kept(c: Settings, cache: seq<Cached>, now: real, force: bool): seq<Cached> {
    if cache == [] then []
    else (if Leaves(c, cache[0], now, force) then [] else [cache[0]]) + Kept(c, cache[1..], now, force)
  }

  function SummariesOf(c: Settings, cache: seq<Cached>, now: real, force: bool): seq<Line> {
    if cache == [] then []
    else (if Leaves(c, cache[0], now, force) then SummaryOf(c, cache[0]) else []) + SummariesOf(c, cache[1..], now, force)
  }

  /** The cache part of a flush: expired entries, or on stop all of them, go out as summaries. */
  function Flushed(c: Settings, s: State, now: real, force: bool): State {
    if !c.summaries then s
    else s.(cache := Kept(c, s.cache, now, force), lines := s.lines + SummariesOf(c, s.cache, now, force))
  }

  lemma ExpiryStep(c: Settings, all: seq<Cached>, i: nat, now: real, force: bool, kept: seq<Cached>, lines: seq<Line>)
    requires i < |all|
    ensures kept + Kept(c, all[i..], now, force)
         == (if Leaves(c, all[i], now, force) then kept else kept + [all[i]]) + Kept(c, all[i + 1..], now, force)
    ensures lines + SummariesOf(c, all[i..], now, force)
         == (if Leaves(c, all[i], now, force) then lines + SummaryOf(c, all[i]) else lines)
            + SummariesOf(c, all[i + 1..], now, force)
  {
    hide SummaryOf, Leaves;
    assert all[i..][0] == all[i] && all[i..][1..] == all[i + 1..];
    var rest, tail := Kept(c, all[i + 1..], now, force), SummariesOf(c, all[i + 1..], now, force);
    assert [] + rest == rest && [] + tail == tail;
  }

  datatype Event = Emit(record: Record, at: real) | Flush(at: real, force: bool)

  function Next(c: Settings, s: State, ev: Event): State {
    match ev
    case Emit(r, now) => Emitted(c, s, r, now)
    case Flush(now, force) => Flushed(c, s, now, force)
  }

  function Run(c: Settings, s: State, events: seq<Event>): State
    decreases |events|
  {
    if events == [] then s else Run(c, Next(c, s, events[0]), events[1..])
  }

  // ---------------------------------------------------------------- conservation

  /** The event emits an eligible record with signature `g`. */
  predicate Emits(c: Settings, ev: Event, g: Signature) {
    ev.Emit? && Eligible(c, ev.record) && SignatureOf(ev.record) == g
  }

  /** How many of the events do. */
  function Emissions(c: Settings, events: seq<Event>, g: Signature): nat {
    if events == [] then 0 else (if Emits(c, events[0], g) then 1 else 0) + Emissions(c, events[1..], g)
  }

  /** Lines that forward an eligible record with signature `g`. */
  function Forwards(c: Settings, lines: seq<Line>, g: Signature): nat {
    if lines == [] then 0
    else (if lines[0].Forward? && Eligible(c, lines[0].record) && SignatureOf(lines[0].record) == g then 1 else 0)
         + Forwards(c, lines[1..], g)
  }

  /** Sum of the counts in the summaries for `g`. */
  function Summarized(lines: seq<Line>, g: Signature): nat {
    if lines == [] then 0
    else (if lines[0].Summary? && lines[0].signature == g then lines[0].count else 0) + Summarized(lines[1..], g)
  }

  /** Suppressed records for `g` that the cache still holds. */
  function Waiting(cache: seq<Cached>, g: Signature): nat {
    if cache == [] then 0
    else (if cache[0].signature == g then cache[0].suppressed else 0) + Waiting(cache[1..], g)
  }

  /** Everything accounted for in `s` under `g`. */
  function Accounted(c: Settings, s: State, g: Signature): nat {
    Forwards(c, s.lines, g) + Summarized(s.lines, g) + Waiting(s.cache, g)
  }

  lemma {:induction false} LinesAppend(c: Settings, a: seq<Line>, b: seq<Line>, g: Signature)
    ensures Forwards(c, a + b, g) == Forwards(c, a, g) + Forwards(c, b, g)
    ensures Summarized(a + b, g) == Summarized(a, g) + Summarized(b, g)
  {
    if a == [] {
      assert a + b == b;
    } else {
      assert (a + b)[1..] == a[1..] + b;
      LinesAppend(c, a[1..], b, g);
    }
  }

  lemma {:induction false} CacheAppend(a: seq<Cached>, d: Cached, g: Signature)
    ensures Waiting(a + [d], g) == Waiting(a, g) + if d.signature == g then d.suppressed else 0
  {
    if a != [] {
      assert (a + [d])[1..] == a[1..] + [d];
      CacheAppend(a[1..], d, g);
    }
  }

  lemma {:induction false} RemoveTakes(cache: seq<Cached>, h: Signature, g: Signature)
    requires Lookup(cache, h).Some?
    ensures Lookup(cache, h).value.signature == h
    ensures Waiting(cache, g) == Waiting(Remove(cache, h), g) + if h == g then Lookup(cache, h).value.suppressed else 0
  {
    if cache[0].signature != h {
      RemoveTakes(cache[1..], h, g);
      var tail := Remove(cache[1..], h);
      assert ([cache[0]] + tail)[1..] == tail;
    }
  }

  lemma SummaryCounts(c: Settings, d: Cached, g: Signature)
    requires c.summaries
    ensures Forwards(c, SummaryOf(c, d), g) == 0
    ensures Summarized(SummaryOf(c, d), g) == if d.signature == g then d.suppressed else 0
  {
  }

  lemma {:induction false} EvictionAccounts(c: Settings, s: State, g: Signature)
    requires c.summaries
    ensures Accounted(c, Evicted(c, s), g) == Accounted(c, s, g)
    decreases |s.cache|
  {
    if |s.cache| > c.cacheSize {
      LinesAppend(c, s.lines, SummaryOf(c, s.cache[0]), g);
      SummaryCounts(c, s.cache[0], g);
      EvictionAccounts(c, s.(cache := s.cache[1..], lines := s.lines + SummaryOf(c, s.cache[0])), g);
    }
  }

  lemma {:induction false} FlushAccounts(c: Settings, cache: seq<Cached>, now: real, force: bool, g: Signature)
    requires c.summaries
    ensures Forwards(c, SummariesOf(c, cache, now, force), g) == 0
    ensures Summarized(SummariesOf(c, cache, now, force), g) + Waiting(Kept(c, cache, now, force), g) == Waiting(cache, g)
  {
    if cache != [] {
      FlushAccounts(c, cache[1..], now, force, g);
      var rest := SummariesOf(c, cache[1..], now, force);
      var kept := Kept(c, cache[1..], now, force);
      SummaryCounts(c, cache[0], g);
      LinesAppend(c, SummaryOf(c, cache[0]), rest, g);
      if Leaves(c, cache[0], now, force) {
        assert [] + kept == kept;
      } else {
        assert [] + rest == rest;
        assert ([cache[0]] + kept)[1..] == kept;
      }
    }
  }

  /** A record that is not cached yet. */
  lemma NewAccounts(c: Settings, s: State, h: Signature, now: real, g: Signature)
    requires c.summaries
    ensures Accounted(c, Evicted(c, s.(cache := s.cache + [Cached(h, now, now, 0)])), g) == Accounted(c, s, g)
  {
    var grown := s.(cache := s.cache + [Cached(h, now, now, 0)]);
    CacheAppend(s.cache, Cached(h, now, now, 0), g);
    EvictionAccounts(c, grown, g);
  }

  /** A cached record: one more is counted, or the count goes out in a summary. */
  lemma RepeatAccounts(c: Settings, s: State, h: Signature, now: real, g: Signature)
    requires c.summaries && Lookup(s.cache, h).Some?
    ensures var d := Lookup(s.cache, h).value;
            var rest := Remove(s.cache, h);
            && Waiting(rest + [d.(suppressed := d.suppressed + 1, lastSeen := now)], g)
               == Waiting(s.cache, g) + (if h == g then 1 else 0)
            && Waiting(rest + [Cached(h, now, now, 0)], g) + Summarized(SummaryOf(c, d), g) == Waiting(s.cache, g)
            && Forwards(c, SummaryOf(c, d), g) == 0
  {
    hide Eligible, Waiting, Summarized, Forwards, SummaryOf;
    var d := Lookup(s.cache, h).value;
    RemoveTakes(s.cache, h, g);
    CacheAppend(Remove(s.cache, h), d.(suppressed := d.suppressed + 1, lastSeen := now), g);
    CacheAppend(Remove(s.cache, h), Cached(h, now, now, 0), g);
    SummaryCounts(c, d, g);
  }

  lemma OneForward(c: Settings, r: Record, g: Signature)
    ensures Forwards(c, [Forward(r)], g) == (if Eligible(c, r) && SignatureOf(r) == g then 1 else 0)
    ensures Summarized([Forward(r)], g) == 0
  {
  }

  lemma EmitAccounts(c: Settings, s: State, r: Record, now: real, g: Signature)
    requires c.summaries
    ensures Accounted(c, Emitted(c, s, r, now), g)
         == Accounted(c, s, g) + (if Emits(c, Emit(r, now), g) then 1 else 0)
  {
    hide Eligible, Handles, Waiting, Summarized, Forwards, SummaryOf, Evicted, Lookup, Remove;
    var h := SignatureOf(r);
    OneForward(c, r, g);
    LinesAppend(c, s.lines, [Forward(r)], g);
    if Eligible(c, r) {
      var found := Lookup(s.cache, h);
      if found.None? {
        NewAccounts(c, s, h, now, g);
        LinesAppend(c, Evicted(c, s.(cache := s.cache + [Cached(h, now, now, 0)])).lines, [Forward(r)], g);
      } else {
        RepeatAccounts(c, s, h, now, g);
        LinesAppend(c, s.lines, SummaryOf(c, found.value), g);
        LinesAppend(c, s.lines + SummaryOf(c, found.value), [Forward(r)], g);
      }
    }
  }

  lemma {:induction false} RunAccounts(c: Settings, s: State, events: seq<Event>, g: Signature)
    requires c.summaries
    ensures Accounted(c, Run(c, s, events), g) == Accounted(c, s, g) + Emissions(c, events, g)
    decreases |events|
  {
    hide Emitted, SummariesOf, Kept, Waiting, Summarized, Forwards, Eligible;
    if events != [] {
      match events[0]
      case Emit(r, now) =>
        EmitAccounts(c, s, r, now, g);
        RunAccounts(c, Emitted(c, s, r, now), events[1..], g);
      case Flush(now, force) =>
        FlushAccounts(c, s.cache, now, force, g);
        LinesAppend(c, s.lines, SummariesOf(c, s.cache, now, force), g);
        RunAccounts(c, Flushed(c, s, now, force), events[1..], g);
    }
  }

  lemma NothingAccounted(c: Settings, g: Signature)
    ensures Accounted(c, EMPTY, g) == 0
  {
  }

  /**
   With summaries on, for every sequence of records and flushes and for every signature:
   the eligible records among them are the ones forwarded, plus the counts in the
   summaries appended, plus the suppressed ones that the cache still holds.
   */
  lemma SuppressedRecordsAreConserved(c: Settings, events: seq<Event>, g: Signature)
    requires c.summaries
    ensures var s := Run(c, EMPTY, events);
            Emissions(c, events, g) == Forwards(c, s.lines, g) + Summarized(s.lines, g) + Waiting(s.cache, g)
  {
    hide Run, Emissions, Waiting, Summarized, Forwards;
    NothingAccounted(c, g);
    RunAccounts(c, EMPTY, events, g);
  }

  // ---------------------------------------------------------------- without summaries

  /** The entries that leave a cache that has grown too large. */
  function Excess(c: Settings, cache: seq<Cached>): seq<Cached> {
    if |cache| <= c.cacheSize then [] else cache[..|cache| - c.cacheSize]
  }

  /** Suppressed records under `g` that an event removes from the cache: evicted, or renewed by a forward. */
  function Removes(c: Settings, s: State, ev: Event, g: Signature): nat {
    if !ev.Emit? || !Eligible(c, ev.record) then 0
    else
      var h := SignatureOf(ev.record);
      var found := Lookup(s.cache, h);
      if found.None? then Waiting(Excess(c, s.cache + [Cached(h, ev.at, ev.at, 0)]), g)
      else if ev.at - found.value.forwardedAt >= c.window && h == g then found.value.suppressed
      else 0
  }

  function RemovedInAll(c: Settings, s: State, events: seq<Event>, g: Signature): nat
    decreases |events|
  {
    if events == [] then 0 else Removes(c, s, events[0], g) + RemovedInAll(c, Next(c, s, events[0]), events[1..], g)
  }

  /** No event removes a suppressed record under `g`: no entry with a positive count is evicted or renewed. */
  predicate KeepsCounts(c: Settings, s: State, events: seq<Event>, g: Signature)
    decreases |events|
  {
    events == [] || (Removes(c, s, events[0], g) == 0 && KeepsCounts(c, Next(c, s, events[0]), events[1..], g))
  }

  lemma {:induction false} WaitingJoins(a: seq<Cached>, b: seq<Cached>, g: Signature)
    ensures Waiting(a + b, g) == Waiting(a, g) + Waiting(b, g)
  {
    if a == [] {
      assert a + b == b;
    } else {
      assert (a + b)[1..] == a[1..] + b;
      WaitingJoins(a[1..], b, g);
    }
  }

  /** Without summaries, eviction takes the excess and appends nothing. */
  lemma {:induction false} SilentEviction(c: Settings, s: State)
    requires !c.summaries
    ensures Evicted(c, s).lines == s.lines
    ensures Evicted(c, s).cache == s.cache[|Excess(c, s.cache)|..]
    decreases |s.cache|
  {
    if |s.cache| > c.cacheSize {
      var next := s.(cache := s.cache[1..], lines := s.lines + SummaryOf(c, s.cache[0]));
      assert next.lines == s.lines;
      SilentEviction(c, next);
      var n := |Excess(c, s.cache)|;
      assert s.cache[1..][n - 1..] == s.cache[n..];
    }
  }

  lemma ExcessIsFront(c: Settings, cache: seq<Cached>)
    ensures |Excess(c, cache)| <= |cache| && cache == Excess(c, cache) + cache[|Excess(c, cache)|..]
  {
  }

  lemma SilentEmit(c: Settings, s: State, r: Record, now: real, g: Signature)
    requires !c.summaries
    ensures Accounted(c, Emitted(c, s, r, now), g) + Removes(c, s, Emit(r, now), g)
         == Accounted(c, s, g) + (if Emits(c, Emit(r, now), g) then 1 else 0)
  {
    hide Eligible, Handles, Waiting, Summarized, Forwards, Evicted, Lookup, Remove, Excess;
    var h := SignatureOf(r);
    OneForward(c, r, g);
    LinesAppend(c, s.lines, [Forward(r)], g);
    if Eligible(c, r) {
      var found := Lookup(s.cache, h);
      if found.None? {
        var grown := s.(cache := s.cache + [Cached(h, now, now, 0)]);
        CacheAppend(s.cache, Cached(h, now, now, 0), g);
        SilentEviction(c, grown);
        ExcessIsFront(c, grown.cache);
        WaitingJoins(Excess(c, grown.cache), Evicted(c, grown).cache, g);
      } else {
        var d := found.value;
        RemoveTakes(s.cache, h, g);
        CacheAppend(Remove(s.cache, h), d.(suppressed := d.suppressed + 1, lastSeen := now), g);
        CacheAppend(Remove(s.cache, h), Cached(h, now, now, 0), g);
        assert s.lines + SummaryOf(c, d) == s.lines;
      }
    }
  }

  /** Without summaries, what is emitted is forwarded, still waiting, or was removed from the cache unsaid. */
  lemma {:induction false} SilentRun(c: Settings, s: State, events: seq<Event>, g: Signature)
    requires !c.summaries
    ensures Accounted(c, Run(c, s, events), g) + RemovedInAll(c, s, events, g) == Accounted(c, s, g) + Emissions(c, events, g)
    ensures RemovedInAll(c, s, events, g) == 0 <==> KeepsCounts(c, s, events, g)
    decreases |events|
  {
    hide Emitted, Waiting, Summarized, Forwards, Eligible, Lookup, Excess;
    if events != [] {
      var ev := events[0];
      if ev.Emit? { SilentEmit(c, s, ev.record, ev.at, g); }
      SilentRun(c, Next(c, s, ev), events[1..], g);
    }
  }

  /**
   With summaries off, the law holds for a run and a signature if and only if no entry of
   that signature with a positive count is evicted or renewed in it.
   */
  lemma SilentLawHoldsExactly(c: Settings, events: seq<Event>, g: Signature)
    requires !c.summaries
    ensures Emissions(c, events, g) == Accounted(c, Run(c, EMPTY, events), g) <==> KeepsCounts(c, EMPTY, events, g)
  {
    hide Run, Emissions, Waiting, Summarized, Forwards, RemovedInAll, KeepsCounts;
    NothingAccounted(c, g);
    SilentRun(c, EMPTY, events, g);
  }

  /** The same record three times: forwarded, suppressed, and forwarded again when the window is over. */
  function ThreeTimes(c: Settings, r: Record): seq<Event> {
    [Emit(r, 0.0), Emit(r, 0.0), Emit(r, c.window)]
  }

  lemma OneEvent(c: Settings, s: State, events: seq<Event>, g: Signature)
    requires events != []
    ensures KeepsCounts(c, s, events, g) <==>
              Removes(c, s, events[0], g) == 0 && KeepsCounts(c, Next(c, s, events[0]), events[1..], g)
  {
    hide Removes, Next;
  }

  /** Such a run loses a suppressed record for every eligible record, so the law fails. */
  lemma SilentRunForgets(c: Settings, r: Record)
    requires !c.summaries && Eligible(c, r) && c.cacheSize >= 1
    ensures !KeepsCounts(c, EMPTY, ThreeTimes(c, r), SignatureOf(r))
  {
    hide KeepsCounts, Eligible;
    var g := SignatureOf(r);
    var events := ThreeTimes(c, r);
    WindowIsPositive(c, r);
    var s1 := Next(c, EMPTY, events[0]);
    var first := Cached(g, 0.0, 0.0, 0);
    assert [] + [first] == [first];
    assert s1.cache == [first];
    var s2 := Next(c, s1, events[1]);
    var second := first.(suppressed := 1);
    assert Remove([first], g) == [] && [] + [second] == [second];
    assert s2.cache == [second];
    assert Removes(c, s2, events[2], g) == 1;
    OneEvent(c, EMPTY, events, g);
    OneEvent(c, s1, events[1..], g);
    OneEvent(c, s2, events[1..][1..], g);
  }

  lemma WindowIsPositive(c: Settings, r: Record)
    requires Eligible(c, r)
    ensures c.window > 0.0
  {
  }

  // ---------------------------------------------------------------- the window and the cache size

  function Signatures(cache: seq<Cached>): set<Signature> {
    if cache == [] then {} else {cache[0].signature} + Signatures(cache[1..])
  }

  /** Signatures touched more recently than `g`. */
  function After(cache: seq<Cached>, g: Signature): set<Signature> {
    if cache == [] then {}
    else if cache[0].signature == g then Signatures(cache[1..])
    else After(cache[1..], g)
  }

  ghost predicate Distinct(cache: seq<Cached>) {
    cache == [] || (cache[0].signature !in Signatures(cache[1..]) && Distinct(cache[1..]))
  }

  lemma {:induction false} CountDistinct(cache: seq<Cached>)
    requires Distinct(cache)
    ensures |Signatures(cache)| == |cache|
  {
    if cache != [] { CountDistinct(cache[1..]); }
  }

  lemma {:induction false} LookupKnows(cache: seq<Cached>, g: Signature)
    ensures Lookup(cache, g).Some? <==> g in Signatures(cache)
  {
    if cache != [] { LookupKnows(cache[1..], g); }
  }

  /** What appending a new entry does to the cache, seen from `g`. */
  lemma {:induction false} AppendView(cache: seq<Cached>, d: Cached, g: Signature)
    requires Distinct(cache) && d.signature !in Signatures(cache)
    ensures Distinct(cache + [d]) && Signatures(cache + [d]) == Signatures(cache) + {d.signature}
    ensures g in Signatures(cache) ==>
              Lookup(cache + [d], g) == Lookup(cache, g) && After(cache + [d], g) == After(cache, g) + {d.signature}
    ensures g == d.signature ==> Lookup(cache + [d], g) == Some(d) && After(cache + [d], g) == {}
  {
    if cache == [] {
      assert cache + [d] == [d];
    } else {
      assert (cache + [d])[0] == cache[0] && (cache + [d])[1..] == cache[1..] + [d];
      AppendView(cache[1..], d, g);
    }
  }

  /** What removing the entry of `h` does to the cache, seen from another signature `g`. */
  lemma {:induction false} RemoveView(cache: seq<Cached>, h: Signature, g: Signature)
    requires Distinct(cache)
    ensures Distinct(Remove(cache, h)) && Signatures(Remove(cache, h)) == Signatures(cache) - {h}
    ensures g != h ==> Lookup(Remove(cache, h), g) == Lookup(cache, g) && After(Remove(cache, h), g) <= After(cache, g)
    ensures |Remove(cache, h)| <= |cache| && (h in Signatures(cache) ==> |Remove(cache, h)| == |cache| - 1)
  {
    if cache != [] && cache[0].signature != h {
      RemoveView(cache[1..], h, g);
      var tail := Remove(cache[1..], h);
      assert Remove(cache, h)[0] == cache[0] && Remove(cache, h)[1..] == tail;
    }
  }

  /** A flush at `now` keeps every entry that is still inside its window, in the same order. */
  lemma {:induction false} KeptView(c: Settings, cache: seq<Cached>, now: real, g: Signature)
    requires Distinct(cache)
    ensures var kept := Kept(c, cache, now, false);
            && Distinct(kept) && Signatures(kept) <= Signatures(cache) && |kept| <= |cache|
            && After(kept, g) <= After(cache, g)
            && (Lookup(cache, g).Some? && now - Lookup(cache, g).value.forwardedAt < c.window ==>
                  Lookup(kept, g) == Lookup(cache, g))
  {
    if cache != [] {
      KeptView(c, cache[1..], now, g);
      var tail := Kept(c, cache[1..], now, false);
      if Leaves(c, cache[0], now, false) {
        assert Kept(c, cache, now, false) == tail;
        LookupKnows(cache[1..], g);
        if cache[0].signature == g { NotInside(tail, g); }
      } else {
        assert ([cache[0]] + tail)[0] == cache[0] && ([cache[0]] + tail)[1..] == tail;
      }
    }
  }

  lemma {:induction false} NotInside(cache: seq<Cached>, g: Signature)
    requires g !in Signatures(cache)
    ensures After(cache, g) == {}
  {
    if cache != [] { NotInside(cache[1..], g); }
  }

  /** Other signatures touched after touch `i`. */
  ghost function Others(touches: seq<Touch>, i: nat): set<Signature>
    requires i < |touches|
  {
    set k | i < k < |touches| && touches[k].signature != touches[i].signature :: touches[k].signature
  }

  lemma OthersGrow(touches: seq<Touch>, t: Touch, i: nat)
    requires i < |touches|
    ensures Others(touches, i) <= Others(touches + [t], i)
    ensures t.signature != touches[i].signature ==> t.signature in Others(touches + [t], i)
  {
    var more := touches + [t];
    forall g | g in Others(touches, i) ensures g in Others(more, i) {
      var k :| i < k < |touches| && touches[k].signature != touches[i].signature && touches[k].signature == g;
      assert more[k].signature == g && more[i] == touches[i];
    }
    assert more[|touches|] == t && more[i] == touches[i];
  }

  /** Touch `i`, a forward, still protects its signature: by its entry, or by the size of the cache. */
  ghost predicate Protects(c: Settings, cache: seq<Cached>, touches: seq<Touch>, i: nat)
    requires i < |touches|
  {
    var g := touches[i].signature;
    || (&& Lookup(cache, g).Some? && Lookup(cache, g).value.forwardedAt >= touches[i].at
        && After(cache, g) <= Others(touches, i))
    || |Others(touches, i)| >= c.cacheSize
  }

  ghost predicate WindowInv(c: Settings, s: State, now: real) {
    && Distinct(s.cache) && |s.cache| <= c.cacheSize
    && (forall i :: 0 <= i < |s.touches| ==> s.touches[i].at <= now)
    && (forall i :: 0 <= i < |s.touches| && s.touches[i].forwarded && now - s.touches[i].at < c.window ==>
          Protects(c, s.cache, s.touches, i))
  }

  lemma SubsetSize<T>(a: set<T>, b: set<T>)
    requires a <= b
    ensures |a| <= |b|
  {
    if a != {} {
      var x :| x in a;
      SubsetSize(a - {x}, b - {x});
    }
  }

  /** A touch of another signature `h` that moves or adds `h` at the end keeps the protection. */
  lemma TouchProtects(c: Settings, s: State, t: Touch, d: Cached, i: nat)
    requires Distinct(s.cache) && i < |s.touches| && Protects(c, s.cache, s.touches, i)
    requires d.signature == t.signature != s.touches[i].signature
    ensures Protects(c, Remove(s.cache, t.signature) + [d], s.touches + [t], i)
  {
    var g := s.touches[i].signature;
    assert (s.touches + [t])[i] == s.touches[i];
    OthersGrow(s.touches, t, i);
    SubsetSize(Others(s.touches, i), Others(s.touches + [t], i));
    RemoveView(s.cache, t.signature, g);
    AppendView(Remove(s.cache, t.signature), d, g);
    LookupKnows(s.cache, g);
    LookupKnows(Remove(s.cache, t.signature), g);
  }

  /** Evicting the oldest of cacheSize + 1 entries keeps the protection. */
  lemma EvictionProtects(c: Settings, cache: seq<Cached>, touches: seq<Touch>, i: nat)
    requires Distinct(cache) && |cache| == c.cacheSize + 1 && i < |touches| && Protects(c, cache, touches, i)
    ensures Distinct(cache[1..]) && Protects(c, cache[1..], touches, i)
  {
    if cache[0].signature == touches[i].signature && |Others(touches, i)| < c.cacheSize {
      CountDistinct(cache[1..]);
      SubsetSize(Signatures(cache[1..]), Others(touches, i));
      assert false;
    }
  }

  /** The latest entry protects the forward that created it. */
  lemma NewestProtects(c: Settings, rest: seq<Cached>, d: Cached, touches: seq<Touch>, t: Touch)
    requires Distinct(rest) && d.signature == t.signature && d.signature !in Signatures(rest) && d.forwardedAt >= t.at
    ensures Protects(c, rest + [d], touches + [t], |touches|)
  {
    AppendView(rest, d, d.signature);
    assert (touches + [t])[|touches|] == t;
  }

  lemma {:induction false} RemoveAbsent(cache: seq<Cached>, h: Signature)
    requires h !in Signatures(cache)
    ensures Remove(cache, h) == cache
  {
    if cache != [] {
      RemoveAbsent(cache[1..], h);
      assert cache == [cache[0]] + cache[1..];
    }
  }

  /** Any touch keeps the protection of an earlier forward, before eviction. */
  lemma AnyTouchProtects(c: Settings, s: State, t: Touch, d: Cached, i: nat)
    requires Distinct(s.cache) && i < |s.touches| && Protects(c, s.cache, s.touches, i)
    requires d.signature == t.signature && s.touches[i].at <= t.at
    requires d.forwardedAt == t.at || Some(d.forwardedAt) ==
               (if Lookup(s.cache, t.signature).Some? then Some(Lookup(s.cache, t.signature).value.forwardedAt) else None)
    ensures Protects(c, Remove(s.cache, t.signature) + [d], s.touches + [t], i)
  {
    if s.touches[i].signature != t.signature {
      TouchProtects(c, s, t, d, i);
    } else {
      assert (s.touches + [t])[i] == s.touches[i];
      OthersGrow(s.touches, t, i);
      SubsetSize(Others(s.touches, i), Others(s.touches + [t], i));
      RemoveView(s.cache, t.signature, t.signature);
      AppendView(Remove(s.cache, t.signature), d, t.signature);
    }
  }

  /** The cache and history after touch `t`, before eviction. */
  lemma TouchKeepsWindow(c: Settings, s: State, t: Touch, d: Cached, was: real)
    requires WindowInv(c, s, was) && was <= t.at && d.signature == t.signature
    requires d.forwardedAt == t.at || (!t.forwarded && Lookup(s.cache, t.signature).Some?
               && d.forwardedAt == Lookup(s.cache, t.signature).value.forwardedAt)
    ensures var cache := Remove(s.cache, t.signature) + [d];
            var touches := s.touches + [t];
            && Distinct(cache)
            && (forall i :: 0 <= i < |touches| ==> touches[i].at <= t.at)
            && (forall i :: 0 <= i < |touches| && touches[i].forwarded && t.at - touches[i].at < c.window ==>
                  Protects(c, cache, touches, i))
  {
    hide Protects, Distinct;
    var rest := Remove(s.cache, t.signature);
    var touches := s.touches + [t];
    RemoveView(s.cache, t.signature, t.signature);
    AppendView(rest, d, t.signature);
    forall i | 0 <= i < |touches| && touches[i].forwarded && t.at - touches[i].at < c.window
      ensures Protects(c, rest + [d], touches, i)
    {
      if i < |s.touches| {
        assert touches[i] == s.touches[i];
        AnyTouchProtects(c, s, t, d, i);
      } else {
        NewestProtects(c, rest, d, s.touches, t);
      }
    }
  }

  lemma EmitKeepsWindow(c: Settings, s: State, r: Record, was: real, now: real)
    requires WindowInv(c, s, was) && was <= now && c.cacheSize >= 1
    ensures WindowInv(c, Emitted(c, s, r, now), now)
  {
    hide Eligible, Protects, Distinct;
    if Eligible(c, r) {
      var h := SignatureOf(r);
      var found := Lookup(s.cache, h);
      LookupKnows(s.cache, h);
      RemoveView(s.cache, h, h);
      if found.None? {
        var d, t := Cached(h, now, now, 0), Touch(h, now, true);
        var grown := s.cache + [d];
        var touches := s.touches + [t];
        RemoveAbsent(s.cache, h);
        TouchKeepsWindow(c, s, t, d, was);
        if |grown| > c.cacheSize {
          DropOldest(grown);
          EvictOne(c, s.(cache := grown));
          forall i | 0 <= i < |touches| && touches[i].forwarded && now - touches[i].at < c.window
            ensures Protects(c, grown[1..], touches, i)
          {
            EvictionProtects(c, grown, touches, i);
          }
        }
      } else if now - found.value.forwardedAt < c.window {
        RemoveTakes(s.cache, h, h);
        var d := found.value.(suppressed := found.value.suppressed + 1, lastSeen := now);
        TouchKeepsWindow(c, s, Touch(h, now, false), d, was);
      } else {
        TouchKeepsWindow(c, s, Touch(h, now, true), Cached(h, now, now, 0), was);
      }
    } else {
      LaterIsFine(c, s, was, now, s.(lines := s.lines + [Forward(r)]));
    }
  }

  lemma EvictOne(c: Settings, s: State)
    requires |s.cache| == c.cacheSize + 1
    ensures Evicted(c, s).cache == s.cache[1..] && Evicted(c, s).touches == s.touches
  {
    var t := s.(cache := s.cache[1..], lines := s.lines + SummaryOf(c, s.cache[0]));
    assert Evicted(c, s) == Evicted(c, t) == t;
  }

  lemma DropOldest(cache: seq<Cached>)
    requires Distinct(cache) && cache != []
    ensures Distinct(cache[1..])
  {
  }

  lemma LaterIsFine(c: Settings, s: State, was: real, now: real, t: State)
    requires WindowInv(c, s, was) && was <= now && t.cache == s.cache && t.touches == s.touches
    ensures WindowInv(c, t, now)
  {
  }

  lemma FlushKeepsWindow(c: Settings, s: State, was: real, now: real)
    requires WindowInv(c, s, was) && was <= now
    ensures WindowInv(c, Flushed(c, s, now, false), now)
  {
    var t := Flushed(c, s, now, false);
    forall i | 0 <= i < |s.touches| && s.touches[i].forwarded && now - s.touches[i].at < c.window
      ensures Protects(c, t.cache, s.touches, i)
    {
      assert Protects(c, s.cache, s.touches, i);
      KeptView(c, s.cache, now, s.touches[i].signature);
    }
    if s.cache != [] { KeptView(c, s.cache, now, s.cache[0].signature); }
  }

  /** Two forwards of one signature inside the window are separated by cacheSize other signatures. */
  ghost predicate Spaced(c: Settings, touches: seq<Touch>) {
    forall i, j ::
      (&& 0 <= i < j < |touches| && touches[i].forwarded && touches[j].forwarded
       && touches[i].signature == touches[j].signature && touches[j].at - touches[i].at < c.window)
      ==> |Others(touches[..j], i)| >= c.cacheSize
  }

  /** A forward inside the window of an earlier one happens only when that one is protected by size. */
  lemma EmitKeepsSpacing(c: Settings, s: State, r: Record, was: real, now: real)
    requires WindowInv(c, s, was) && was <= now && Spaced(c, s.touches)
    ensures Spaced(c, Emitted(c, s, r, now).touches)
  {
    hide Eligible, Distinct, Evicted;
    if Eligible(c, r) {
      var touches := Processed(c, s, r, now).touches;
      var n := |s.touches|;
      assert touches[..n] == s.touches;
      forall i, j | 0 <= i < j < |touches| && touches[i].forwarded && touches[j].forwarded &&
                    touches[i].signature == touches[j].signature && touches[j].at - touches[i].at < c.window
        ensures |Others(touches[..j], i)| >= c.cacheSize
      {
        if j < n {
          assert touches[..j] == s.touches[..j];
        } else {
          assert Protects(c, s.cache, s.touches, i);
        }
      }
    }
  }

  /** Times do not run backwards, and no flush is forced by a stop. */
  predicate Timed(events: seq<Event>, was: real)
    decreases |events|
  {
    events == [] ||
    (was <= events[0].at && (events[0].Flush? ==> !events[0].force) && Timed(events[1..], events[0].at))
  }

  lemma {:induction false} RunKeepsSpacing(c: Settings, s: State, events: seq<Event>, was: real)
    requires WindowInv(c, s, was) && Spaced(c, s.touches) && c.cacheSize >= 1 && Timed(events, was)
    ensures Spaced(c, Run(c, s, events).touches)
    decreases |events|
  {
    hide WindowInv, Spaced, Emitted, Flushed;
    if events != [] {
      var now := events[0].at;
      match events[0]
      case Emit(r, _) =>
        EmitKeepsWindow(c, s, r, was, now);
        EmitKeepsSpacing(c, s, r, was, now);
        RunKeepsSpacing(c, Emitted(c, s, r, now), events[1..], now);
      case Flush(_, _) =>
        FlushKeepsWindow(c, s, was, now);
        FlushForwardsNothing(c, s, now);
        RunKeepsSpacing(c, Flushed(c, s, now, false), events[1..], now);
    }
  }

  lemma FlushForwardsNothing(c: Settings, s: State, now: real)
    ensures Flushed(c, s, now, false).touches == s.touches
  {
  }

  /**
   Before stop, two forwards of one signature inside the window imply that at least
   cacheSize other signatures were touched in between.
   */
  lemma RepeatedForwardsAreSpaced(c: Settings, events: seq<Event>, i: nat, j: nat)
    requires c.cacheSize >= 1 && Timed(events, 0.0)
    requires var touches := Run(c, EMPTY, events).touches;
             && i < j < |touches| && touches[i].forwarded && touches[j].forwarded
             && touches[i].signature == touches[j].signature && touches[j].at - touches[i].at < c.window
    ensures |Others(Run(c, EMPTY, events).touches[..j], i)| >= c.cacheSize
  {
    RunKeepsSpacing(c, EMPTY, events, 0.0);
  }

  // ---------------------------------------------------------------- what the history records

  /** The eligible records of the events, with their times. */
  function EligibleEvents(c: Settings, events: seq<Event>): seq<(Signature, real)> {
    if events == [] then []
    else (if events[0].Emit? && Eligible(c, events[0].record) then [(SignatureOf(events[0].record), events[0].at)] else [])
         + EligibleEvents(c, events[1..])
  }

  function Stamps(touches: seq<Touch>): seq<(Signature, real)> {
    if touches == [] then [] else [(touches[0].signature, touches[0].at)] + Stamps(touches[1..])
  }

  function ForwardTouches(touches: seq<Touch>, g: Signature): nat {
    if touches == [] then 0
    else (if touches[0].forwarded && touches[0].signature == g then 1 else 0) + ForwardTouches(touches[1..], g)
  }

  lemma {:induction false} TouchAppends(touches: seq<Touch>, t: Touch, g: Signature)
    ensures Stamps(touches + [t]) == Stamps(touches) + [(t.signature, t.at)]
    ensures ForwardTouches(touches + [t], g) == ForwardTouches(touches, g) + if t.forwarded && t.signature == g then 1 else 0
  {
    if touches == [] {
      assert touches + [t] == [t] && [t][1..] == [];
    } else {
      assert (touches + [t])[1..] == touches[1..] + [t];
      TouchAppends(touches[1..], t, g);
    }
  }

  lemma {:induction false} SummariesForwardNothing(c: Settings, cache: seq<Cached>, now: real, force: bool, g: Signature)
    ensures Forwards(c, SummariesOf(c, cache, now, force), g) == 0
  {
    if cache != [] {
      SummariesForwardNothing(c, cache[1..], now, force, g);
      SummaryForwardsNothing(c, cache[0], g);
      LinesAppend(c, SummaryOf(c, cache[0]), SummariesOf(c, cache[1..], now, force), g);
      LinesAppend(c, [], SummariesOf(c, cache[1..], now, force), g);
    }
  }

  lemma SummaryForwardsNothing(c: Settings, d: Cached, g: Signature)
    ensures Forwards(c, SummaryOf(c, d), g) == 0
  {
  }

  lemma {:induction false} EvictionForwardsNothing(c: Settings, s: State, g: Signature)
    ensures Forwards(c, Evicted(c, s).lines, g) == Forwards(c, s.lines, g)
    ensures Evicted(c, s).touches == s.touches
    decreases |s.cache|
  {
    if |s.cache| > c.cacheSize {
      SummaryForwardsNothing(c, s.cache[0], g);
      LinesAppend(c, s.lines, SummaryOf(c, s.cache[0]), g);
      EvictionForwardsNothing(c, s.(cache := s.cache[1..], lines := s.lines + SummaryOf(c, s.cache[0])), g);
    }
  }

  lemma EmitRecords(c: Settings, s: State, r: Record, now: real, g: Signature)
    ensures var t := Emitted(c, s, r, now);
            && Stamps(t.touches) == Stamps(s.touches) + (if Eligible(c, r) then [(SignatureOf(r), now)] else [])
            && ForwardTouches(t.touches, g) - ForwardTouches(s.touches, g) == Forwards(c, t.lines, g) - Forwards(c, s.lines, g)
  {
    hide Eligible, Handles, Forwards, SummaryOf, Evicted, Lookup, Remove, Summarized, Stamps, ForwardTouches;
    var h := SignatureOf(r);
    OneForward(c, r, g);
    LinesAppend(c, s.lines, [Forward(r)], g);
    if Eligible(c, r) {
      TouchAppends(s.touches, Touch(h, now, true), g);
      TouchAppends(s.touches, Touch(h, now, false), g);
      var found := Lookup(s.cache, h);
      if found.None? {
        var grown := s.(cache := s.cache + [Cached(h, now, now, 0)]);
        EvictionForwardsNothing(c, grown, g);
        LinesAppend(c, Evicted(c, grown).lines, [Forward(r)], g);
      } else {
        SummaryForwardsNothing(c, found.value, g);
        LinesAppend(c, s.lines, SummaryOf(c, found.value), g);
        LinesAppend(c, s.lines + SummaryOf(c, found.value), [Forward(r)], g);
      }
    }
  }

  lemma {:induction false} RunRecords(c: Settings, s: State, events: seq<Event>, g: Signature)
    ensures var t := Run(c, s, events);
            && Stamps(t.touches) == Stamps(s.touches) + EligibleEvents(c, events)
            && ForwardTouches(t.touches, g) - ForwardTouches(s.touches, g) == Forwards(c, t.lines, g) - Forwards(c, s.lines, g)
    decreases |events|
  {
    hide Emitted, SummariesOf, Kept, Forwards, Eligible, Stamps, ForwardTouches;
    if events != [] {
      var next := Next(c, s, events[0]);
      match events[0] {
        case Emit(r, now) => EmitRecords(c, s, r, now, g);
        case Flush(now, force) =>
          SummariesForwardNothing(c, s.cache, now, force, g);
          LinesAppend(c, s.lines, SummariesOf(c, s.cache, now, force), g);
      }
      RunRecords(c, next, events[1..], g);
      var head := if events[0].Emit? && Eligible(c, events[0].record) then [(SignatureOf(events[0].record), events[0].at)] else [];
      assert Stamps(s.touches) + (head + EligibleEvents(c, events[1..])) == (Stamps(s.touches) + head) + EligibleEvents(c, events[1..]);
    }
  }

  /**
   The history behind the spacing theorem is that of the events and of the lines: it lists
   exactly the eligible records in order, and marks as forwarded as many of a signature as
   the lines forward.
   */
  lemma HistoryIsFaithful(c: Settings, events: seq<Event>, g: Signature)
    ensures var s := Run(c, EMPTY, events);
            Stamps(s.touches) == EligibleEvents(c, events) && ForwardTouches(s.touches, g) == Forwards(c, s.lines, g)
  {
    hide Run, EligibleEvents;
    RunRecords(c, EMPTY, events, g);
  }

  // ---------------------------------------------------------------- records outside de-duplication

  /** A record that the handler takes, condition by condition. */
  predicate IsHandled(c: Settings, r: Record) {
    && c.enabled && c.minLevel <= r.level
    && !("novena_gateway.mqtt_publisher" <= r.logger)
    && r.logger != "novena_gateway.remote_log_handler"
  }

  /** The term occurs nowhere in the text. */
  predicate Lacks(text: string, term: string) { forall i :: 0 <= i <= |text| ==> !(term <= text[i..]) }

  /** A record that de-duplication looks at, condition by condition: a warning or an error without an exempt source or term. */
  predicate IsDeduplicated(c: Settings, r: Record) {
    && IsHandled(c, r) && c.window > 0.0 && r.level in {30, 40}
    && !("novena_gateway.remote_config" <= r.logger) && !("novena_gateway.activation" <= r.logger)
    && Lacks(r.folded, "activation") && Lacks(r.folded, "configuration failed") && Lacks(r.folded, "config failed")
    && Lacks(r.folded, "state changed") && Lacks(r.folded, "status changed")
  }

  lemma TermsMean(c: Settings, r: Record)
    ensures Handles(c, r) <==> IsHandled(c, r)
    ensures Eligible(c, r) <==> IsDeduplicated(c, r)
  {
    assert forall term :: Contains(r.folded, term) <==> !Lacks(r.folded, term);
  }

  /** The forwarded records that de-duplication does not look at, in order. */
  function PlainForwards(c: Settings, lines: seq<Line>): seq<Record> {
    if lines == [] then []
    else (if lines[0].Forward? && !IsDeduplicated(c, lines[0].record) then [lines[0].record] else [])
         + PlainForwards(c, lines[1..])
  }

  /** The emitted records that are handled and that de-duplication does not look at, in order. */
  function PlainEmissions(c: Settings, events: seq<Event>): seq<Record> {
    if events == [] then []
    else (if events[0].Emit? && IsHandled(c, events[0].record) && !IsDeduplicated(c, events[0].record)
          then [events[0].record] else [])
         + PlainEmissions(c, events[1..])
  }

  lemma {:induction false} PlainForwardsJoin(c: Settings, a: seq<Line>, b: seq<Line>)
    ensures PlainForwards(c, a + b) == PlainForwards(c, a) + PlainForwards(c, b)
  {
    hide IsDeduplicated;
    if a == [] {
      assert a + b == b;
    } else {
      assert (a + b)[0] == a[0] && (a + b)[1..] == a[1..] + b;
      PlainForwardsJoin(c, a[1..], b);
      var head := if a[0].Forward? && !IsDeduplicated(c, a[0].record) then [a[0].record] else [];
      assert head + (PlainForwards(c, a[1..]) + PlainForwards(c, b)) == (head + PlainForwards(c, a[1..])) + PlainForwards(c, b);
    }
  }

  lemma SummaryIsPlainNothing(c: Settings, d: Cached)
    ensures PlainForwards(c, SummaryOf(c, d)) == []
  {
  }

  lemma OnePlainForward(c: Settings, r: Record)
    ensures PlainForwards(c, [Forward(r)]) == if IsDeduplicated(c, r) then [] else [r]
  {
    hide IsDeduplicated;
    assert [Forward(r)][1..] == [];
  }

  lemma {:induction false} SummariesArePlainNothing(c: Settings, cache: seq<Cached>, now: real, force: bool)
    ensures PlainForwards(c, SummariesOf(c, cache, now, force)) == []
  {
    if cache != [] {
      SummariesArePlainNothing(c, cache[1..], now, force);
      SummaryIsPlainNothing(c, cache[0]);
      var head := if Leaves(c, cache[0], now, force) then SummaryOf(c, cache[0]) else [];
      PlainForwardsJoin(c, head, SummariesOf(c, cache[1..], now, force));
    }
  }

  lemma {:induction false} EvictionIsPlainNothing(c: Settings, s: State)
    ensures PlainForwards(c, Evicted(c, s).lines) == PlainForwards(c, s.lines)
    decreases |s.cache|
  {
    if |s.cache| > c.cacheSize {
      SummaryIsPlainNothing(c, s.cache[0]);
      PlainForwardsJoin(c, s.lines, SummaryOf(c, s.cache[0]));
      EvictionIsPlainNothing(c, s.(cache := s.cache[1..], lines := s.lines + SummaryOf(c, s.cache[0])));
    }
  }

  lemma EmitPlain(c: Settings, s: State, r: Record, now: real)
    ensures PlainForwards(c, Emitted(c, s, r, now).lines)
         == PlainForwards(c, s.lines) + if IsHandled(c, r) && !IsDeduplicated(c, r) then [r] else []
  {
    hide Eligible, Handles, IsHandled, IsDeduplicated, PlainForwards, SummaryOf, Evicted, Lookup, Remove;
    TermsMean(c, r);
    OnePlainForward(c, r);
    PlainForwardsJoin(c, s.lines, [Forward(r)]);
    if Eligible(c, r) {
      var found := Lookup(s.cache, SignatureOf(r));
      if found.None? {
        var grown := s.(cache := s.cache + [Cached(SignatureOf(r), now, now, 0)]);
        EvictionIsPlainNothing(c, grown);
        PlainForwardsJoin(c, Evicted(c, grown).lines, [Forward(r)]);
      } else {
        SummaryIsPlainNothing(c, found.value);
        PlainForwardsJoin(c, s.lines, SummaryOf(c, found.value));
        PlainForwardsJoin(c, s.lines + SummaryOf(c, found.value), [Forward(r)]);
      }
    }
  }

  lemma {:induction false} RunPlain(c: Settings, s: State, events: seq<Event>)
    ensures PlainForwards(c, Run(c, s, events).lines) == PlainForwards(c, s.lines) + PlainEmissions(c, events)
    decreases |events|
  {
    hide Emitted, SummariesOf, Kept, PlainForwards, IsHandled, IsDeduplicated;
    if events != [] {
      match events[0] {
        case Emit(r, now) => EmitPlain(c, s, r, now);
        case Flush(now, force) =>
          SummariesArePlainNothing(c, s.cache, now, force);
          PlainForwardsJoin(c, s.lines, SummariesOf(c, s.cache, now, force));
      }
      var next := Next(c, s, events[0]);
      RunPlain(c, next, events[1..]);
      var head := if events[0].Emit? && IsHandled(c, events[0].record) && !IsDeduplicated(c, events[0].record)
                  then [events[0].record] else [];
      assert PlainForwards(c, next.lines) == PlainForwards(c, s.lines) + head;
      assert PlainForwards(c, s.lines) + (head + PlainEmissions(c, events[1..]))
          == (PlainForwards(c, s.lines) + head) + PlainEmissions(c, events[1..]);
    }
  }

  /**
   The records that the handler takes and de-duplication does not look at are forwarded
   one for one and in order, in every run; records that it does not take are never
   forwarded.
   */
  lemma PlainRecordsAreForwarded(c: Settings, events: seq<Event>)
    ensures PlainForwards(c, Run(c, EMPTY, events).lines) == PlainEmissions(c, events)
    ensures forall line :: line in Run(c, EMPTY, events).lines && line.Forward? ==> IsHandled(c, line.record)
  {
    hide Run, PlainForwards, IsHandled, PlainEmissions;
    RunPlain(c, EMPTY, events);
    NothingPlain(c);
    RunForwardsHandled(c, EMPTY, events);
  }

  lemma NothingPlain(c: Settings)
    ensures PlainForwards(c, EMPTY.lines) == []
  {
  }

  ghost predicate ForwardsHandled(c: Settings, lines: seq<Line>) {
    forall line :: line in lines && line.Forward? ==> IsHandled(c, line.record)
  }

  lemma {:induction false} EvictionForwardsHandled(c: Settings, s: State)
    requires ForwardsHandled(c, s.lines)
    ensures ForwardsHandled(c, Evicted(c, s).lines)
    decreases |s.cache|
  {
    hide IsHandled;
    if |s.cache| > c.cacheSize {
      EvictionForwardsHandled(c, s.(cache := s.cache[1..], lines := s.lines + SummaryOf(c, s.cache[0])));
    }
  }

  lemma {:induction false} SummariesForwardHandled(c: Settings, cache: seq<Cached>, now: real, force: bool)
    ensures ForwardsHandled(c, SummariesOf(c, cache, now, force))
  {
    hide IsHandled;
    if cache != [] { SummariesForwardHandled(c, cache[1..], now, force); }
  }

  lemma {:induction false} RunForwardsHandled(c: Settings, s: State, events: seq<Event>)
    requires ForwardsHandled(c, s.lines)
    ensures ForwardsHandled(c, Run(c, s, events).lines)
    decreases |events|
  {
    hide IsHandled, Eligible, Handles, Evicted, Lookup, Remove, Kept, SummariesOf;
    if events != [] {
      match events[0] {
        case Emit(r, now) =>
          TermsMean(c, r);
          EligibleIsHandled(c, r);
          EvictionForwardsHandled(c, s.(cache := s.cache + [Cached(SignatureOf(r), now, now, 0)]));
        case Flush(now, force) => SummariesForwardHandled(c, s.cache, now, force);
      }
      RunForwardsHandled(c, Next(c, s, events[0]), events[1..]);
    }
  }

  // ---------------------------------------------------------------- the cache

  /** After a flush with summaries on, every entry left is inside its window; after a stop none is left. */
  lemma {:induction false} KeptIsFresh(c: Settings, cache: seq<Cached>, now: real)
    ensures forall d :: d in Kept(c, cache, now, false) <==> d in cache && now - d.forwardedAt < c.window
    ensures Kept(c, cache, now, true) == []
  {
    if cache != [] { KeptIsFresh(c, cache[1..], now); }
  }

  lemma FlushLeavesOnlyFresh(c: Settings, s: State, now: real)
    requires c.summaries
    ensures forall d :: d in Flushed(c, s, now, false).cache <==> d in s.cache && now - d.forwardedAt < c.window
    ensures Flushed(c, s, now, true).cache == []
  {
    KeptIsFresh(c, s.cache, now);
  }

  lemma {:induction false} EvictionBounds(c: Settings, s: State)
    ensures |Evicted(c, s).cache| <= c.cacheSize
    decreases |s.cache|
  {
    if |s.cache| > c.cacheSize {
      EvictionBounds(c, s.(cache := s.cache[1..], lines := s.lines + SummaryOf(c, s.cache[0])));
    }
  }

  lemma {:induction false} RemoveShrinks(cache: seq<Cached>, g: Signature)
    ensures Lookup(cache, g).Some? ==> |Remove(cache, g)| == |cache| - 1
  {
    if cache != [] { RemoveShrinks(cache[1..], g); }
  }

  lemma {:induction false} KeptShrinks(c: Settings, cache: seq<Cached>, now: real, force: bool)
    ensures |Kept(c, cache, now, force)| <= |cache|
  {
    if cache != [] { KeptShrinks(c, cache[1..], now, force); }
  }

  /** The cache never grows beyond its bound. */
  lemma {:induction false} CacheIsBounded(c: Settings, s: State, events: seq<Event>)
    requires |s.cache| <= c.cacheSize
    ensures |Run(c, s, events).cache| <= c.cacheSize
    decreases |events|
  {
    hide Evicted, Lookup, Remove, Kept, Eligible, Handles, SummariesOf;
    if events != [] {
      match events[0] {
        case Emit(r, now) =>
          EvictionBounds(c, s.(cache := s.cache + [Cached(SignatureOf(r), now, now, 0)]));
          RemoveShrinks(s.cache, SignatureOf(r));
        case Flush(now, force) => KeptShrinks(c, s.cache, now, force);
      }
      CacheIsBounded(c, Next(c, s, events[0]), events[1..]);
    }
  }

  /** A summary names its signature, how many records were suppressed, and for how many whole seconds. */
  lemma SummarySays(c: Settings, d: Cached)
    requires d.forwardedAt <= d.lastSeen
    ensures SummaryOf(c, d) ==
            if c.summaries && d.suppressed > 0
            then [Summary(d.signature, d.suppressed, (d.lastSeen - d.forwardedAt).Floor)] else []
  {
  }

  /** An earlier forward of the signature is less than a window before the touch. */
  ghost predicate Preceded(c: Settings, touches: seq<Touch>, j: nat)
    requires j < |touches|
  {
    exists i :: 0 <= i < j && touches[i].forwarded && touches[i].signature == touches[j].signature
                && touches[j].at - touches[i].at < c.window
  }

  /** Every cached entry stems from a forward in the history. */
  ghost predicate Founded(s: State) {
    forall d :: d in s.cache ==>
      exists i :: 0 <= i < |s.touches| && s.touches[i].forwarded && s.touches[i].signature == d.signature
                  && s.touches[i].at == d.forwardedAt
  }

  ghost predicate Reasons(c: Settings, s: State) {
    Founded(s) && forall j :: 0 <= j < |s.touches| && !s.touches[j].forwarded ==> Preceded(c, s.touches, j)
  }

  lemma {:induction false} LookupIsIn(cache: seq<Cached>, g: Signature)
    ensures Lookup(cache, g).Some? ==> Lookup(cache, g).value in cache && Lookup(cache, g).value.signature == g
    ensures forall d :: d in Remove(cache, g) ==> d in cache
  {
    if cache != [] { LookupIsIn(cache[1..], g); }
  }

  lemma {:induction false} EvictedIsIn(c: Settings, s: State)
    ensures Evicted(c, s).touches == s.touches && forall d :: d in Evicted(c, s).cache ==> d in s.cache
    decreases |s.cache|
  {
    if |s.cache| > c.cacheSize {
      EvictedIsIn(c, s.(cache := s.cache[1..], lines := s.lines + SummaryOf(c, s.cache[0])));
    }
  }

  /** Appending a touch keeps what was founded, and founds an entry of its own when it is a forward. */
  lemma FoundedGrows(s: State, t: Touch, cache: seq<Cached>)
    requires Founded(s)
    requires forall d :: d in cache ==>
               || d in s.cache
               || (t.forwarded && d.signature == t.signature && d.forwardedAt == t.at)
               || exists o :: o in s.cache && o.signature == d.signature && o.forwardedAt == d.forwardedAt
    ensures Founded(s.(cache := cache, touches := s.touches + [t]))
  {
    var touches := s.touches + [t];
    forall d | d in cache
      ensures exists i :: 0 <= i < |touches| && touches[i].forwarded && touches[i].signature == d.signature
                          && touches[i].at == d.forwardedAt
    {
      if t.forwarded && d.signature == t.signature && d.forwardedAt == t.at {
        assert touches[|s.touches|] == t;
      } else {
        var o :| o in s.cache && o.signature == d.signature && o.forwardedAt == d.forwardedAt;
        var i :| 0 <= i < |s.touches| && s.touches[i].forwarded && s.touches[i].signature == o.signature
                 && s.touches[i].at == o.forwardedAt;
        assert touches[i] == s.touches[i];
      }
    }
  }

  lemma PrecededStays(c: Settings, touches: seq<Touch>, t: Touch, j: nat)
    requires j < |touches| && Preceded(c, touches, j)
    ensures Preceded(c, touches + [t], j)
  {
    var i :| 0 <= i < j && touches[i].forwarded && touches[i].signature == touches[j].signature
             && touches[j].at - touches[i].at < c.window;
    var more := touches + [t];
    assert more[i] == touches[i] && more[j] == touches[j];
  }

  ghost predicate ForwardedRecently(c: Settings, touches: seq<Touch>, t: Touch) {
    exists i :: 0 <= i < |touches| && touches[i].forwarded && touches[i].signature == t.signature
                && t.at - touches[i].at < c.window
  }

  lemma TouchReasons(c: Settings, s: State, t: Touch)
    requires Reasons(c, s)
    requires !t.forwarded ==> ForwardedRecently(c, s.touches, t)
    ensures var touches := s.touches + [t];
            forall j :: 0 <= j < |touches| && !touches[j].forwarded ==> Preceded(c, touches, j)
  {
    hide Preceded;
    var touches := s.touches + [t];
    forall j | 0 <= j < |touches| && !touches[j].forwarded ensures Preceded(c, touches, j) {
      if j < |s.touches| {
        assert touches[j] == s.touches[j];
        PrecededStays(c, s.touches, t, j);
      } else {
        LastPreceded(c, s.touches, t);
      }
    }
  }

  lemma LastPreceded(c: Settings, touches: seq<Touch>, t: Touch)
    requires ForwardedRecently(c, touches, t)
    ensures Preceded(c, touches + [t], |touches|)
  {
    var i :| 0 <= i < |touches| && touches[i].forwarded
             && touches[i].signature == t.signature && t.at - touches[i].at < c.window;
    assert (touches + [t])[i] == touches[i];
  }

  lemma ProcessedReasons(c: Settings, s: State, r: Record, now: real)
    requires Reasons(c, s)
    ensures Reasons(c, Processed(c, s, r, now))
  {
    hide Evicted, Lookup, Remove, SummaryOf, Founded, Preceded;
    var g := SignatureOf(r);
    var found := Lookup(s.cache, g);
    LookupIsIn(s.cache, g);
    if found.None? {
      var grown := s.(cache := s.cache + [Cached(g, now, now, 0)]);
      EvictedIsIn(c, grown);
      TouchReasons(c, s, Touch(g, now, true));
      FoundedGrows(s, Touch(g, now, true), Evicted(c, grown).cache);
      SameFoundation(s.(cache := Evicted(c, grown).cache, touches := s.touches + [Touch(g, now, true)]), Processed(c, s, r, now));
    } else if now - found.value.forwardedAt < c.window {
      var d := found.value;
      var cache := Remove(s.cache, g) + [d.(suppressed := d.suppressed + 1, lastSeen := now)];
      FoundedEntry(s, d);
      TouchReasons(c, s, Touch(g, now, false));
      FoundedGrows(s, Touch(g, now, false), cache);
      SameFoundation(s.(cache := cache, touches := s.touches + [Touch(g, now, false)]), Processed(c, s, r, now));
    } else {
      var cache := Remove(s.cache, g) + [Cached(g, now, now, 0)];
      TouchReasons(c, s, Touch(g, now, true));
      FoundedGrows(s, Touch(g, now, true), cache);
      SameFoundation(s.(cache := cache, touches := s.touches + [Touch(g, now, true)]), Processed(c, s, r, now));
    }
  }

  lemma FoundedEntry(s: State, d: Cached)
    requires Founded(s) && d in s.cache
    ensures exists i :: 0 <= i < |s.touches| && s.touches[i].forwarded && s.touches[i].signature == d.signature
                        && s.touches[i].at == d.forwardedAt
  {
  }

  lemma SameFoundation(s: State, t: State)
    requires Founded(s) && t.touches == s.touches && forall d :: d in t.cache ==> d in s.cache
    ensures Founded(t)
  {
  }

  lemma {:induction false} RunReasons(c: Settings, s: State, events: seq<Event>)
    requires Reasons(c, s)
    ensures Reasons(c, Run(c, s, events))
    decreases |events|
  {
    hide Processed, Founded, Preceded, Kept, SummariesOf, Eligible, Handles;
    if events != [] {
      match events[0] {
        case Emit(r, now) =>
          ProcessedReasons(c, s, r, now);
          SameFoundation(s, s.(lines := s.lines + [Forward(r)]));
        case Flush(now, force) =>
          KeptIsIn(c, s.cache, now, force);
          SameFoundation(s, Flushed(c, s, now, force));
      }
      RunReasons(c, Next(c, s, events[0]), events[1..]);
    }
  }

  lemma {:induction false} KeptIsIn(c: Settings, cache: seq<Cached>, now: real, force: bool)
    ensures forall d :: d in Kept(c, cache, now, force) ==> d in cache
  {
    if cache != [] { KeptIsIn(c, cache[1..], now, force); }
  }

  /** A record is suppressed only when one with its signature was forwarded less than a window before. */
  lemma SuppressionHasAReason(c: Settings, events: seq<Event>, j: nat)
    requires j < |Run(c, EMPTY, events).touches| && !Run(c, EMPTY, events).touches[j].forwarded
    ensures Preceded(c, Run(c, EMPTY, events).touches, j)
  {
    hide Run, Preceded;
    RunReasons(c, EMPTY, events);
  }

  // ---------------------------------------------------------------- what counts as a repetition

  /** Two records say the same: level, logger and message agree. */
  predicate SaysTheSame(r: Record, q: Record) { r.level == q.level && r.logger == q.logger && r.message == q.message }

  lemma {:induction false} EligibleEventsStem(c: Settings, events: seq<Event>, g: Signature, at: real)
    requires (g, at) in EligibleEvents(c, events)
    ensures exists i :: 0 <= i < |events| && events[i].Emit? && SignatureOf(events[i].record) == g
    decreases |events|
  {
    hide Eligible;
    var head := events[0];
    if !(head.Emit? && SignatureOf(head.record) == g) {
      EligibleEventsStem(c, events[1..], g, at);
      var i :| 0 <= i < |events[1..]| && events[1..][i].Emit? && SignatureOf(events[1..][i].record) == g;
      assert events[i + 1] == events[1..][i];
    }
  }

  lemma {:induction false} StampAt(touches: seq<Touch>, i: nat)
    requires i < |touches|
    ensures (touches[i].signature, touches[i].at) in Stamps(touches)
  {
    if i > 0 { StampAt(touches[1..], i - 1); }
  }

  /** Whatever is cached was emitted before. */
  lemma CachedWasEmitted(c: Settings, events: seq<Event>, d: Cached)
    requires d in Run(c, EMPTY, events).cache
    ensures exists i :: 0 <= i < |events| && events[i].Emit? && SignatureOf(events[i].record) == d.signature
  {
    hide Run, EligibleEvents, SignatureOf;
    var s := Run(c, EMPTY, events);
    RunReasons(c, EMPTY, events);
    FoundedEntry(s, d);
    var i :| 0 <= i < |s.touches| && s.touches[i].forwarded && s.touches[i].signature == d.signature
             && s.touches[i].at == d.forwardedAt;
    HistoryIsFaithful(c, events, d.signature);
    StampAt(s.touches, i);
    EligibleEventsStem(c, events, d.signature, s.touches[i].at);
  }

  /** Nothing new is ever suppressed: a record that says what none before it said is forwarded. */
  lemma NewRecordsAreForwarded(c: Settings, events: seq<Event>, r: Record, now: real)
    requires IsHandled(c, r)
    requires forall i :: 0 <= i < |events| && events[i].Emit? ==> !SaysTheSame(events[i].record, r)
    ensures var t := Next(c, Run(c, EMPTY, events), Emit(r, now));
            t.lines != [] && t.lines[|t.lines| - 1] == Forward(r)
  {
    hide Run, Evicted, Eligible, Handles, IsHandled;
    TermsMean(c, r);
    var s := Run(c, EMPTY, events);
    LookupIsIn(s.cache, SignatureOf(r));
    if Lookup(s.cache, SignatureOf(r)).Some? {
      CachedWasEmitted(c, events, Lookup(s.cache, SignatureOf(r)).value);
      assert false;
    }
  }

  /** A record that says the same as one forwarded less than a window before is suppressed. */
  lemma RepetitionsAreSuppressed(c: Settings, r: Record, q: Record, a: real, b: real)
    requires IsDeduplicated(c, r) && IsDeduplicated(c, q) && SaysTheSame(r, q)
    requires c.cacheSize > 0 && b - a < c.window
    ensures Run(c, EMPTY, [Emit(r, a), Emit(q, b)]).lines == [Forward(r)]
  {
    hide Eligible, Handles, IsHandled, IsDeduplicated;
    TermsMean(c, r);
    TermsMean(c, q);
    var entry := Cached(SignatureOf(r), a, a, 0);
    var one := Next(c, EMPTY, Emit(r, a));
    assert [] + [entry] == [entry];
    assert one.cache == [entry] && one.lines == [Forward(r)];
    assert [Emit(r, a), Emit(q, b)][1..] == [Emit(q, b)];
    assert Run(c, one, [Emit(q, b)]) == Next(c, one, Emit(q, b));
  }

  // ---------------------------------------------------------------- the handler object

  /** What a deque of at most `max` lines holds after these appends. */
  function Newest(lines: seq<Line>, max: nat): seq<Line> {
    if |lines| <= max then lines else lines[|lines| - max..]
  }

  class RemoteLogHandler {
    const settings: Settings
    const maxBuffer: nat
    const batchSize: nat
    var cache: seq<Cached>
    var buffer: seq<Line>
    ghost var lines: seq<Line>
    ghost var touches: seq<Touch>
    /** How many lines had been appended when the buffer was last flushed. */
    ghost var flushed: nat

    ghost function View(): (s: State)
      reads this
    {
      State(cache, lines, touches)
    }

    /** The buffer holds the newest lines since the last flush. */
    ghost predicate Valid()
      reads this
    {
      flushed <= |lines| && buffer == Newest(lines[flushed..], maxBuffer)
    }

    constructor (settings: Settings, maxBuffer: nat, batchSize: nat)
      ensures this.settings == settings && this.maxBuffer == maxBuffer && this.batchSize == batchSize
      ensures Valid() && View() == EMPTY && flushed == 0
    {
      this.settings, this.maxBuffer, this.batchSize := settings, maxBuffer, batchSize;
      cache, buffer, lines, touches, flushed := [], [], [], [], 0;
    }

    /** The buffer is a deque of bounded length: the oldest line makes room. */
    method Append(line: Line)
      requires Valid()
      modifies this`buffer, this`lines
      ensures Valid() && lines == old(lines) + [line]
    {
      assert (lines + [line])[flushed..] == lines[flushed..] + [line];
      lines := lines + [line];
      if |buffer| < maxBuffer {
        buffer := buffer + [line];
      } else if maxBuffer > 0 {
        buffer := buffer[1..] + [line];
      }
    }

    method AppendSummary(d: Cached)
      requires Valid()
      modifies this`buffer, this`lines
      ensures Valid() && lines == old(lines) + SummaryOf(settings, d)
    {
      if settings.summaries && d.suppressed > 0 {
        var seconds := (d.lastSeen - d.forwardedAt).Floor;
        Append(Summary(d.signature, d.suppressed, if seconds < 0 then 0 else seconds));
      } else {
        assert lines == lines + SummaryOf(settings, d);
      }
    }

    method RememberDuplicate(g: Signature, now: real)
      requires Valid()
      modifies this`cache, this`buffer, this`lines
      ensures Valid()
      ensures View() == Evicted(settings, old(View()).(cache := old(cache) + [Cached(g, now, now, 0)]))
    {
      cache := cache + [Cached(g, now, now, 0)];
      ghost var goal := Evicted(settings, View());
      while |cache| > settings.cacheSize
        invariant Valid() && Evicted(settings, View()) == goal
      {
        var oldest := cache[0];
        cache := cache[1..];
        AppendSummary(oldest);
      }
    }

    method FindDuplicate(g: Signature) returns (found: Option<Cached>)
      ensures found == Lookup(cache, g)
    {
      found := None;
      for i := 0 to |cache|
        invariant Lookup(cache, g) == Lookup(cache[i..], g)
      {
        if cache[i].signature == g { return Some(cache[i]); }
        assert cache[i..][1..] == cache[i + 1..];
      }
    }

    method Emit(r: Record, now: real)
      requires Valid()
      modifies this
      ensures Valid() && flushed == old(flushed)
      ensures View() == Emitted(settings, old(View()), r, now)
    {
      hide Eligible, Handles, Evicted, Newest;
      EligibleIsHandled(settings, r);
      if !Handles(settings, r) { return; }
      if Eligible(settings, r) {
        var g := SignatureOf(r);
        var found := FindDuplicate(g);
        if found.None? {
          RememberDuplicate(g, now);
        } else {
          var d := found.value;
          if now - d.forwardedAt < settings.window {
            cache := Remove(cache, g) + [d.(suppressed := d.suppressed + 1, lastSeen := now)];
            touches := touches + [Touch(g, now, false)];
            return;
          }
          AppendSummary(d);
          cache := Remove(cache, g) + [Cached(g, now, now, 0)];
        }
        touches := touches + [Touch(g, now, true)];
      }
      Append(Forward(r));
    }

    method AppendExpired(now: real, force: bool)
      requires Valid()
      modifies this`cache, this`buffer, this`lines
      ensures Valid() && View() == Flushed(settings, old(View()), now, force)
    {
      if !settings.summaries { return; }
      hide Newest;
      var all, kept := cache, [];
      ghost var before := lines;
      for i := 0 to |all|
        invariant Valid() && cache == all
        invariant Kept(settings, all, now, force) == kept + Kept(settings, all[i..], now, force)
        invariant before + SummariesOf(settings, all, now, force) == lines + SummariesOf(settings, all[i..], now, force)
      {
        hide Kept, SummariesOf, SummaryOf;
        ExpiryStep(settings, all, i, now, force, kept, lines);
        if Leaves(settings, all[i], now, force) {
          AppendSummary(all[i]);
        } else {
          kept := kept + [all[i]];
        }
      }
      cache := kept;
    }

    /** What is published is exactly the newest lines, up to the buffer's size, since the last flush. */
    method Flush(now: real, stopped: bool) returns (batches: seq<seq<Line>>)
      requires Valid() && batchSize >= 1
      modifies this
      ensures Valid() && flushed == |lines|
      ensures View() == Flushed(settings, old(View()), now, stopped)
      ensures Flatten(batches) == Newest(lines[old(flushed)..], maxBuffer)
      ensures forall i :: 0 <= i < |batches| ==> 0 < |batches[i]| <= batchSize
    {
      AppendExpired(now, stopped);
      batches := SplitIntoBatches(buffer, batchSize);
      buffer := [];
      flushed := |lines|;
    }
  }

  /** Everything leaves, in order, in batches of at most `size` lines. */
  method SplitIntoBatches(entries: seq<Line>, size: nat) returns (batches: seq<seq<Line>>)
    requires size >= 1
    ensures Flatten(batches) == entries
    ensures forall n :: 0 <= n < |batches| ==> 0 < |batches[n]| <= size
    ensures forall n :: 0 <= n < |batches| - 1 ==> |batches[n]| == size
  {
    batches := [];
    var i := 0;
    while i < |entries|
      invariant 0 <= i <= |entries|
      invariant Flatten(batches) == entries[..i]
      invariant forall n :: 0 <= n < |batches| ==> 0 < |batches[n]| <= size
      invariant i < |entries| ==> forall n :: 0 <= n < |batches| ==> |batches[n]| == size
      invariant forall n :: 0 <= n < |batches| - 1 ==> |batches[n]| == size
    {
      var next := Min(i + size, |entries|);
      FlattenOne(batches, entries[i..next]);
      assert entries[..next] == entries[..i] + entries[i..next];
      batches := batches + [entries[i..next]];
      i := next;
    }
    assert entries[..i] == entries;
  }

  function Flatten(batches: seq<seq<Line>>): seq<Line> {
    if batches == [] then [] else batches[0] + Flatten(batches[1..])
  }

  lemma {:induction false} FlattenOne(batches: seq<seq<Line>>, batch: seq<Line>)
    ensures Flatten(batches + [batch]) == Flatten(batches) + batch
  {
    if batches == [] {
      assert [batch][1..] == [];
    } else {
      assert (batches + [batch])[1..] == batches[1..] + [batch];
      FlattenOne(batches[1..], batch);
    }
  }
}
