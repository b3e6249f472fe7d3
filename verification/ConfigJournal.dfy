/**
 The replay journal for signed configuration (`novena_gateway/gateway/deployment_setup.py`).

 A Python dictionary keeps insertion order, so `requests` is a sequence of entries with
 distinct keys.  Above 500 entries the journal sorts by revision, newest first, and keeps
 500.  The theorems compare it with a journal that never forgets.
 */
module ConfigJournal {
  import opened Common

  const CAPACITY: nat := 500

  datatype Entry = Entry(key: string, revision: int, result: string)

  datatype Journal = Journal(maxRevision: int, requests: seq<Entry>)

  const EMPTY := Journal(0, [])

  function Lookup(requests: seq<Entry>, key: string): Option<Entry> {
    if requests == [] then None
    else if requests[0].key == key then Some(requests[0])
    else Lookup(requests[1..], key)
  }

  /** Dictionary assignment: an existing key keeps its place, a new one goes last. */
  function Assign(requests: seq<Entry>, e: Entry): seq<Entry> {
    if requests == [] then [e]
    else if requests[0].key == e.key then [e] + requests[1..]
    else [requests[0]] + Assign(requests[1..], e)
  }

  /** Insertion in front of every entry with at most the same revision keeps the sort stable. */
  function Insert(e: Entry, sorted: seq<Entry>): (r: seq<Entry>)
    ensures |r| == |sorted| + 1
  {
    if sorted == [] then [e]
    else if e.revision >= sorted[0].revision then [e] + sorted
    else [sorted[0]] + Insert(e, sorted[1..])
  }

  /** Python's stable `sorted(..., reverse=True)` by revision. */
  function SortNewestFirst(requests: seq<Entry>): (r: seq<Entry>)
    ensures |r| == |requests|
  {
    if requests == [] then [] else Insert(requests[0], SortNewestFirst(requests[1..]))
  }

  function Trim(requests: seq<Entry>): seq<Entry> {
    if |requests| > CAPACITY then SortNewestFirst(requests)[..CAPACITY] else requests
  }

  /** The journal after `e` is recorded, trimmed as the gateway does or kept forever. */
  function Recorded(j: Journal, e: Entry, trimmed: bool): Journal {
    var requests := Assign(j.requests, e);
    Journal(Max(e.revision, j.maxRevision), if trimmed then Trim(requests) else requests)
  }

  // ---------------------------------------------------------------- dictionary facts

  ghost predicate DistinctKeys(s: seq<Entry>) {
    forall i, j :: 0 <= i < j < |s| ==> s[i].key != s[j].key
  }

  ghost predicate Has(s: seq<Entry>, key: string) {
    exists i :: 0 <= i < |s| && s[i].key == key
  }

  lemma {:induction false} LookupFinds(s: seq<Entry>, key: string)
    ensures Lookup(s, key).Some? <==> Has(s, key)
    ensures Lookup(s, key).Some? ==> Lookup(s, key).value in s && Lookup(s, key).value.key == key
  {
    if s != [] && s[0].key != key {
      LookupFinds(s[1..], key);
      if Has(s, key) {
        var i :| 0 <= i < |s| && s[i].key == key;
        assert s[1..][i - 1].key == key;
      }
    }
  }

  lemma {:induction false} AssignNew(s: seq<Entry>, e: Entry)
    requires !Has(s, e.key)
    ensures Assign(s, e) == s + [e]
  {
    if s != [] {
      assert s == [s[0]] + s[1..];
      forall i | 0 <= i < |s[1..]| ensures s[1..][i].key != e.key { assert s[1..][i] == s[i + 1]; }
      AssignNew(s[1..], e);
    }
  }

  // ---------------------------------------------------------------- the sort

  ghost predicate NewestFirst(s: seq<Entry>) {
    forall i, j :: 0 <= i < j < |s| ==> s[i].revision >= s[j].revision
  }

  lemma {:induction false} InsertPermutes(e: Entry, sorted: seq<Entry>)
    ensures multiset(Insert(e, sorted)) == multiset(sorted) + multiset{e}
  {
    if sorted != [] {
      assert sorted == [sorted[0]] + sorted[1..];
      InsertPermutes(e, sorted[1..]);
    }
  }

  lemma {:induction false} InsertBelow(e: Entry, sorted: seq<Entry>, bound: int)
    requires e.revision <= bound && forall i :: 0 <= i < |sorted| ==> sorted[i].revision <= bound
    ensures forall i :: 0 <= i < |Insert(e, sorted)| ==> Insert(e, sorted)[i].revision <= bound
  {
    if sorted != [] { InsertBelow(e, sorted[1..], bound); }
  }

  lemma {:induction false} InsertSorts(e: Entry, sorted: seq<Entry>)
    requires NewestFirst(sorted)
    ensures NewestFirst(Insert(e, sorted))
  {
    if sorted != [] && e.revision < sorted[0].revision {
      InsertSorts(e, sorted[1..]);
      InsertBelow(e, sorted[1..], sorted[0].revision);
    }
  }

  /** The sorted list is a rearrangement of the entries, newest revision first. */
  lemma {:induction false} SortSorts(requests: seq<Entry>)
    ensures NewestFirst(SortNewestFirst(requests))
    ensures multiset(SortNewestFirst(requests)) == multiset(requests)
  {
    if requests != [] {
      assert requests == [requests[0]] + requests[1..];
      SortSorts(requests[1..]);
      InsertSorts(requests[0], SortNewestFirst(requests[1..]));
      InsertPermutes(requests[0], SortNewestFirst(requests[1..]));
    }
  }

  /** Rearranging keeps the keys distinct. */
  lemma RearrangedKeysDistinct(s: seq<Entry>, t: seq<Entry>)
    requires DistinctKeys(s) && multiset(s) == multiset(t)
    ensures DistinctKeys(t) && |t| == |s|
    ensures forall e :: e in t <==> e in s
  {
    assert |multiset(s)| == |s| && |multiset(t)| == |t|;
    forall e ensures e in t <==> e in s { assert e in multiset(s) <==> e in multiset(t); }
    forall i, j | 0 <= i < j < |t| ensures t[i].key != t[j].key {
      if t[i] == t[j] {
        AtMostOneCopy(s, t[i]);
        TwoCopies(t, i, j);
      } else {
        assert t[i] in s && t[j] in s;
      }
    }
  }

  lemma {:induction false} AtMostOneCopy(s: seq<Entry>, e: Entry)
    requires DistinctKeys(s)
    ensures multiset(s)[e] <= 1
  {
    if s != [] {
      assert s == [s[0]] + s[1..];
      AtMostOneCopy(s[1..], e);
    }
  }

  lemma TwoCopies(t: seq<Entry>, i: int, j: int)
    requires 0 <= i < j < |t| && t[i] == t[j]
    ensures multiset(t)[t[i]] >= 2
  {
    assert t == t[..i] + [t[i]] + t[i + 1..j] + [t[j]] + t[j + 1..];
  }

  // ---------------------------------------------------------------- the journal object

  class ConfigReplayJournal {
    var maxRevision: int
    var requests: seq<Entry>
    /** What the journal file holds. */
    var disk: Journal

    ghost function State(): (j: Journal)
      reads this
    {
      Journal(maxRevision, requests)
    }

    constructor (file: Option<Journal>)
      ensures State() == disk == if file.Some? then file.value else EMPTY
    {
      var loaded := if file.Some? then file.value else EMPTY;
      maxRevision, requests, disk := loaded.maxRevision, loaded.requests, loaded;
    }

    method Get(key: string) returns (e: Option<Entry>)
      ensures e == Lookup(requests, key)
    {
      e := None;
      var i := 0;
      while i < |requests|
        invariant 0 <= i <= |requests|
        invariant Lookup(requests, key) == Lookup(requests[i..], key)
      {
        if requests[i].key == key { return Some(requests[i]); }
        assert requests[i..][1..] == requests[i + 1..];
        i := i + 1;
      }
    }

    /** A write that the disk refuses still changes the dictionary. */
    method Record(e: Entry, writable: bool) returns (ok: bool)
      modifies this
      ensures ok == writable && State() == Recorded(old(State()), e, true)
      ensures disk == if writable then State() else old(disk)
    {
      if maxRevision < e.revision { maxRevision := e.revision; }
      requests := Assign(requests, e);
      if |requests| > CAPACITY {
        var ordered := SortNewestFirst(requests);
        requests := ordered[..CAPACITY];
      }
      if writable { disk := Journal(maxRevision, requests); }
      ok := writable;
    }

    method Reset(writable: bool) returns (ok: bool)
      modifies this
      ensures ok == writable && State() == EMPTY
      ensures disk == if writable then EMPTY else old(disk)
    {
      maxRevision, requests := 0, [];
      if writable { disk := EMPTY; }
      ok := writable;
    }

    /** The guard's verdict on one signed envelope; nothing is changed. */
    method Verify(w: Wire, site: Site) returns (v: Verdict)
      ensures v == VerdictOf(State(), w, site)
    {
      var refusal := Examine(w, site);
      if refusal.Some? { return Refused(refusal.value); }
      var replay := Get(w.key);
      if replay.Some? { return Replay(replay.value.result); }
      if w.revision.None? { return Refused(BadRevision); }
      if w.revision.value <= maxRevision { return Stale; }
      v := Fresh;
    }
  }

  // ---------------------------------------------------------------- envelopes

  /** What the guard knows of itself: its serial, whether keys and clock are in place, and the time. */
  datatype Site = Site(serial: string, ready: bool, now: real)

  /** An envelope; the Booleans are outcomes of the key lookup, Ed25519 and SHA-256 checks. */
  datatype Wire = Wire(
    keyTrusted: bool, signatureOk: bool, schemaVersion: int, targetSerial: string,
    requestId: string, key: string, expiresAt: Option<real>,
    hasConfig: bool, checksumOk: bool, revision: Option<int>)

  datatype Refusal =
    | NotReady | UntrustedKey | BadSignature | BadSchema | OtherGateway | NoIdentity
    | BadExpiry | Expired | NoConfig | BadChecksum | BadRevision

  function Examine(w: Wire, site: Site): Option<Refusal> {
    if !site.ready then Some(NotReady)
    else if !w.keyTrusted then Some(UntrustedKey)
    else if !w.signatureOk then Some(BadSignature)
    else if w.schemaVersion != 1 then Some(BadSchema)
    else if w.targetSerial != site.serial then Some(OtherGateway)
    else if w.requestId == "" || w.key == "" then Some(NoIdentity)
    else if w.expiresAt.None? then Some(BadExpiry)
    else if w.expiresAt.value <= site.now then Some(Expired)
    else if !w.hasConfig then Some(NoConfig)
    else if !w.checksumOk then Some(BadChecksum)
    else None
  }

  // ---------------------------------------------------------------- deliveries

  datatype Verdict = Refused(why: Refusal) | Replay(result: string) | Stale | Fresh

  /** The journal's part of the verdict on an envelope that passed every other check. */
  function Judge(j: Journal, key: string, revision: int): Verdict {
    var found := Lookup(j.requests, key);
    if found.Some? then Replay(found.value.result)
    else if revision <= j.maxRevision then Stale
    else Fresh
  }

  function VerdictOf(j: Journal, w: Wire, site: Site): Verdict {
    var refusal := Examine(w, site);
    if refusal.Some? then Refused(refusal.value)
    else if w.revision.Some? then Judge(j, w.key, w.revision.value)
    else if Lookup(j.requests, w.key).Some? then Replay(Lookup(j.requests, w.key).value.result)
    else Refused(BadRevision)
  }

  /** Every condition on an envelope apart from the journal. */
  ghost predicate Genuine(w: Wire, site: Site) {
    && site.ready && w.keyTrusted && w.signatureOk && w.schemaVersion == 1 && w.targetSerial == site.serial
    && w.requestId != "" && w.key != "" && w.expiresAt.Some? && site.now < w.expiresAt.value
    && w.hasConfig && w.checksumOk
  }

  /**
   A body is let through as fresh if and only if its envelope is genuine, its key is not in
   the journal and its revision is above every one recorded; what is recorded for the key
   is what a genuine envelope with that key is answered with.
   */
  lemma VerdictsExactly(j: Journal, w: Wire, site: Site, result: string)
    ensures VerdictOf(j, w, site) == Fresh <==>
              Genuine(w, site) && !Has(j.requests, w.key) && w.revision.Some? && j.maxRevision < w.revision.value
    ensures VerdictOf(j, w, site) == Stale <==>
              Genuine(w, site) && !Has(j.requests, w.key) && w.revision.Some? && w.revision.value <= j.maxRevision
    ensures DistinctKeys(j.requests) ==>
              (VerdictOf(j, w, site) == Replay(result) <==>
                 Genuine(w, site) && exists e :: e in j.requests && e.key == w.key && e.result == result)
    ensures VerdictOf(j, w, site).Refused? <==>
              !Genuine(w, site) || (!Has(j.requests, w.key) && w.revision == None)
  {
    LookupFinds(j.requests, w.key);
    if DistinctKeys(j.requests) && Lookup(j.requests, w.key).Some? {
      OnlyEntry(j.requests, w.key);
    }
    if e :| e in j.requests && e.key == w.key {
      var i :| 0 <= i < |j.requests| && j.requests[i] == e;
    }
  }

  /** Every refusal names what is wrong with the envelope. */
  lemma RefusalsAreJustified(j: Journal, w: Wire, site: Site)
    requires VerdictOf(j, w, site).Refused?
    ensures (match VerdictOf(j, w, site).why
            case NotReady => !site.ready
            case UntrustedKey => !w.keyTrusted
            case BadSignature => !w.signatureOk
            case BadSchema => w.schemaVersion != 1
            case OtherGateway => w.targetSerial != site.serial
            case NoIdentity => w.requestId == "" || w.key == ""
            case BadExpiry => w.expiresAt == None
            case Expired => w.expiresAt.Some? && w.expiresAt.value <= site.now
            case NoConfig => !w.hasConfig
            case BadChecksum => !w.checksumOk
            case BadRevision => w.revision == None && !Has(j.requests, w.key))
  {
    LookupFinds(j.requests, w.key);
  }

  /** Under distinct keys the entry found for a key is the only one. */
  lemma OnlyEntry(s: seq<Entry>, key: string)
    requires DistinctKeys(s) && Lookup(s, key).Some?
    ensures forall e :: e in s && e.key == key ==> e == Lookup(s, key).value
  {
    LookupFinds(s, key);
    var found := Lookup(s, key).value;
    forall e | e in s && e.key == key ensures e == found {
      var i :| 0 <= i < |s| && s[i] == e;
      var k :| 0 <= k < |s| && s[k] == found;
    }
  }

  /** How the application of a fresh body ends: recorded, in the file or in memory only, or abandoned. */
  datatype Outcome = Completes(result: string, writable: bool) | Fails

  datatype Event =
    | Deliver(key: string, revision: int, outcome: Outcome)
    | Restart(order: seq<Entry>)  // reload; the file lists the entries in its own order
    | Reset(writable: bool)       // the gateway changes hands

  datatype Gateway = Gateway(
    journal: Journal,
    disk: Journal,                // the journal file
    applied: seq<(string, int)>,  // history: bodies handed to the configuration code
    completed: seq<Entry>)        // history: bodies recorded as done

  const FACTORY := Gateway(EMPTY, EMPTY, [], [])

  function Next(g: Gateway, ev: Event, trimmed: bool): Gateway {
    match ev
    case Deliver(key, revision, outcome) =>
      if Judge(g.journal, key, revision).Fresh? then
        var tried := g.(applied := g.applied + [(key, revision)]);
        if outcome.Completes? then
          var e := Entry(key, revision, outcome.result);
          var j := Recorded(g.journal, e, trimmed);
          tried.(journal := j, disk := if outcome.writable then j else g.disk, completed := g.completed + [e])
        else tried
      else g
    case Restart(order) =>
      if trimmed && multiset(order) == multiset(g.disk.requests)
      then g.(journal := g.disk.(requests := order), disk := g.disk.(requests := order))
      else g.(journal := g.disk)
    case Reset(writable) => g.(journal := EMPTY, disk := if writable then EMPTY else g.disk)
  }

  function Run(g: Gateway, events: seq<Event>, trimmed: bool): Gateway
    decreases |events|
  {
    if events == [] then g else Run(Next(g, events[0], trimmed), events[1..], trimmed)
  }

  /** Every idempotency key is always delivered with the revision it is bound to. */
  ghost predicate BoundKeys(events: seq<Event>, bound: string -> int) {
    forall i :: 0 <= i < |events| && events[i].Deliver? ==> events[i].revision == bound(events[i].key)
  }

  ghost predicate UniqueRevisions(s: seq<Entry>) {
    forall d, e :: d in s && e in s && d.revision == e.revision ==> d == e
  }

  /** Everything of `all` that `kept` leaves out is older than everything it keeps. */
  ghost predicate Newest(kept: seq<Entry>, all: seq<Entry>) {
    && (forall e :: e in kept ==> e in all)
    && (forall k, e :: k in kept && e in all && e !in kept ==> e.revision < k.revision)
  }

  /** How the trimmed journal `b` and the reference journal `u` relate after the same deliveries. */
  ghost predicate Refines(b: Journal, u: Journal) {
    && b.maxRevision == u.maxRevision >= 0
    && DistinctKeys(b.requests) && DistinctKeys(u.requests)
    && UniqueRevisions(u.requests)
    && (forall e :: e in u.requests ==> e.revision <= u.maxRevision)
    && Newest(b.requests, u.requests)
    && |b.requests| == Min(|u.requests|, CAPACITY)
  }

  lemma KeysAgree(b: Journal, u: Journal, key: string)
    requires Refines(b, u)
    ensures Lookup(b.requests, key).Some? ==> Lookup(u.requests, key) == Lookup(b.requests, key)
  {
    LookupFinds(b.requests, key);
    LookupFinds(u.requests, key);
    if Lookup(b.requests, key).Some? {
      var e := Lookup(b.requests, key).value;
      assert e in u.requests;
      var i :| 0 <= i < |u.requests| && u.requests[i] == e;
      assert Has(u.requests, key);
      var f := Lookup(u.requests, key).value;
      var k :| 0 <= k < |u.requests| && u.requests[k] == f;
      assert i == k;
    }
  }

  lemma PrefixIsNewest(sorted: seq<Entry>, n: nat)
    requires NewestFirst(sorted) && DistinctKeys(sorted) && UniqueRevisions(sorted) && n <= |sorted|
    ensures DistinctKeys(sorted[..n]) && Newest(sorted[..n], sorted)
  {
    forall k, e | k in sorted[..n] && e in sorted && e !in sorted[..n] ensures e.revision < k.revision {
      var i :| 0 <= i < n && sorted[i] == k;
      var j :| 0 <= j < |sorted| && sorted[j] == e;
      assert k in sorted;
      assert forall m :: 0 <= m < n ==> sorted[..n][m] == sorted[m];
      assert j >= n;
    }
  }

  /** The journal keeps the newest 500 entries of a list whose revisions differ. */
  lemma TrimKeepsNewest(s: seq<Entry>)
    requires DistinctKeys(s) && UniqueRevisions(s)
    ensures DistinctKeys(Trim(s)) && |Trim(s)| == Min(|s|, CAPACITY) && Newest(Trim(s), s)
  {
    hide SortNewestFirst;
    if |s| > CAPACITY {
      var sorted := SortNewestFirst(s);
      SortSorts(s);
      RearrangedKeysDistinct(s, sorted);
      PrefixIsNewest(sorted, CAPACITY);
    }
  }

  lemma KeptKeyIsKnown(b: Journal, u: Journal, key: string)
    requires Refines(b, u) && Has(b.requests, key)
    ensures Has(u.requests, key)
  {
    var i :| 0 <= i < |b.requests| && b.requests[i].key == key;
    assert b.requests[i] in u.requests;
  }

  /** Recording a fresh body keeps the refinement, and never evicts the body just recorded. */
  lemma RecordRefines(b: Journal, u: Journal, e: Entry)
    requires Refines(b, u) && !Has(u.requests, e.key) && e.revision > u.maxRevision
    ensures Refines(Recorded(b, e, true), Recorded(u, e, false))
    ensures e in Recorded(b, e, true).requests
  {
    hide Assign, Trim;
    assert !Has(b.requests, e.key) by {
      if Has(b.requests, e.key) { KeptKeyIsKnown(b, u, e.key); }
    }
    AssignNew(b.requests, e);
    AssignNew(u.requests, e);
    ExtendUnique(u.requests, e, u.maxRevision);
    ExtendUnique(b.requests, e, u.maxRevision);
    var all := b.requests + [e];
    TrimKeepsNewest(all);
    NewestIsTransitive(Trim(all), b.requests, u.requests, e);
  }

  lemma ExtendUnique(s: seq<Entry>, e: Entry, max: int)
    requires UniqueRevisions(s) && DistinctKeys(s) && !Has(s, e.key)
    requires (forall d :: d in s ==> d.revision <= max) && e.revision > max
    ensures UniqueRevisions(s + [e]) && DistinctKeys(s + [e])
  {
  }

  lemma NewestIsTransitive(kept: seq<Entry>, b: seq<Entry>, u: seq<Entry>, e: Entry)
    requires Newest(kept, b + [e]) && Newest(b, u) && kept != []
    requires forall d :: d in u ==> d.revision < e.revision
    ensures Newest(kept, u + [e]) && e in kept
  {
    assert e in b + [e];
    assert kept[0] in b + [e];
  }

  ghost predicate BoundEntries(s: seq<Entry>, bound: string -> int) {
    forall e :: e in s ==> e.revision == bound(e.key)
  }

  /** Memory and file of the two gateways relate, and both have done the same. */
  ghost predicate Together(b: Gateway, u: Gateway, bound: string -> int) {
    && Refines(b.journal, u.journal) && Refines(b.disk, u.disk)
    && BoundEntries(u.journal.requests, bound) && BoundEntries(u.disk.requests, bound)
    && b.applied == u.applied && b.completed == u.completed
  }

  /** With bound keys, eviction only ever turns a replay into a stale rejection. */
  lemma JudgeAgrees(b: Journal, u: Journal, bound: string -> int, key: string)
    requires Refines(b, u) && BoundEntries(u.requests, bound)
    ensures var vb := Judge(b, key, bound(key));
            var vu := Judge(u, key, bound(key));
            vb == vu || (vu.Replay? && vb.Stale?)
  {
    KeysAgree(b, u, key);
    LookupFinds(u.requests, key);
  }

  lemma EmptyRefines()
    ensures Refines(EMPTY, EMPTY)
  {
  }

  /** The order in which a dictionary is listed does not matter. */
  lemma ReorderedRefines(b: Journal, u: Journal, order: seq<Entry>)
    requires Refines(b, u) && multiset(order) == multiset(b.requests)
    ensures Refines(b.(requests := order), u)
  {
    RearrangedKeysDistinct(b.requests, order);
  }

  lemma DeliveryTogether(b: Gateway, u: Gateway, key: string, revision: int, outcome: Outcome, bound: string -> int)
    requires Together(b, u, bound) && revision == bound(key)
    ensures Together(Next(b, Deliver(key, revision, outcome), true), Next(u, Deliver(key, revision, outcome), false), bound)
  {
    hide Refines, Recorded;
    JudgeAgrees(b.journal, u.journal, bound, key);
    LookupFinds(u.journal.requests, key);
    if Judge(u.journal, key, revision).Fresh? && outcome.Completes? {
      var e := Entry(key, revision, outcome.result);
      RecordRefines(b.journal, u.journal, e);
      RecordAppends(u.journal, e);
    }
  }

  lemma RecordAppends(j: Journal, e: Entry)
    requires !Has(j.requests, e.key)
    ensures Recorded(j, e, false) == Journal(Max(e.revision, j.maxRevision), j.requests + [e])
  {
    AssignNew(j.requests, e);
  }

  lemma StepTogether(b: Gateway, u: Gateway, ev: Event, bound: string -> int)
    requires Together(b, u, bound)
    requires ev.Deliver? ==> ev.revision == bound(ev.key)
    ensures Together(Next(b, ev, true), Next(u, ev, false), bound)
  {
    hide Refines, Recorded, Judge;
    match ev
    case Deliver(key, revision, outcome) => DeliveryTogether(b, u, key, revision, outcome, bound);
    case Restart(order) =>
      if multiset(order) == multiset(b.disk.requests) { ReorderedRefines(b.disk, u.disk, order); }
    case Reset(writable) => EmptyRefines();
  }

  lemma BoundTail(events: seq<Event>, bound: string -> int)
    requires events != [] && BoundKeys(events, bound)
    ensures BoundKeys(events[1..], bound) && (events[0].Deliver? ==> events[0].revision == bound(events[0].key))
  {
    forall i | 0 <= i < |events[1..]| && events[1..][i].Deliver?
      ensures events[1..][i].revision == bound(events[1..][i].key)
    { assert events[1..][i] == events[i + 1]; }
  }

  lemma {:induction false} RunTogether(b: Gateway, u: Gateway, events: seq<Event>, bound: string -> int)
    requires Together(b, u, bound) && BoundKeys(events, bound)
    ensures Together(Run(b, events, true), Run(u, events, false), bound)
    decreases |events|
  {
    hide Together, BoundKeys, Next;
    if events != [] {
      BoundTail(events, bound);
      StepTogether(b, u, events[0], bound);
      RunTogether(Next(b, events[0], true), Next(u, events[0], false), events[1..], bound);
    }
  }

  /**
   The 500-entry journal applies exactly what an unbounded one applies, in every run of
   deliveries, failures, refused writes, restarts and resets, as long as each key keeps
   its revision; what memory and file retain is always the newest min(n, 500) of what the
   unbounded journal retains.
   */
  lemma TrimmedJournalRefinesUnbounded(events: seq<Event>, bound: string -> int)
    requires BoundKeys(events, bound)
    ensures var b := Run(FACTORY, events, true);
            var u := Run(FACTORY, events, false);
            && b.applied == u.applied && b.completed == u.completed
            && Refines(b.journal, u.journal) && Refines(b.disk, u.disk)
  {
    hide Run, BoundKeys;
    EmptyRefines();
    RunTogether(FACTORY, FACTORY, events, bound);
  }

  // ---------------------------------------------------------------- at most once

  /** No reset, and no restart while the journal file is behind the journal in memory. */
  predicate Orderly(g: Gateway, ev: Event) {
    !ev.Reset? && (ev.Restart? ==> g.disk.maxRevision == g.journal.maxRevision)
  }

  ghost predicate OrderlyRun(g: Gateway, events: seq<Event>, trimmed: bool)
    decreases |events|
  {
    events == [] || (Orderly(g, events[0]) && OrderlyRun(Next(g, events[0], trimmed), events[1..], trimmed))
  }

  /**
   Without a bound on the journal and without resets, the completed bodies are exactly its
   entries, and the file holds an earlier state of it.
   */
  ghost predicate Complete(u: Gateway) {
    && u.completed == u.journal.requests && DistinctKeys(u.completed)
    && u.disk.requests <= u.journal.requests
    && 0 <= u.disk.maxRevision <= u.journal.maxRevision
    && (forall e :: e in u.disk.requests ==> e.revision <= u.disk.maxRevision)
    && (|u.disk.requests| < |u.journal.requests| ==>
          var last := u.journal.requests[|u.journal.requests| - 1];
          last.revision == u.journal.maxRevision > u.disk.maxRevision)
    && (|u.disk.requests| == |u.journal.requests| ==> u.disk.maxRevision == u.journal.maxRevision)
  }

  lemma CompleteStep(u: Gateway, ev: Event)
    requires Complete(u) && Orderly(u, ev)
    requires forall e :: e in u.journal.requests ==> e.revision <= u.journal.maxRevision
    ensures Complete(Next(u, ev, false))
  {
    hide Recorded;
    if ev.Deliver? && Judge(u.journal, ev.key, ev.revision).Fresh? && ev.outcome.Completes? {
      var e := Entry(ev.key, ev.revision, ev.outcome.result);
      LookupFinds(u.journal.requests, ev.key);
      RecordAppends(u.journal, e);
      ExtendKeys(u.journal.requests, e);
    }
  }

  lemma ExtendKeys(s: seq<Entry>, e: Entry)
    requires DistinctKeys(s) && !Has(s, e.key)
    ensures DistinctKeys(s + [e])
  {
  }

  lemma {:induction false} CompleteRun(b: Gateway, u: Gateway, events: seq<Event>, bound: string -> int)
    requires Together(b, u, bound) && BoundKeys(events, bound) && Complete(u) && OrderlyRun(b, events, true)
    ensures Together(Run(b, events, true), Run(u, events, false), bound) && Complete(Run(u, events, false))
    decreases |events|
  {
    hide BoundKeys, Next, Complete;
    if events != [] {
      BoundTail(events, bound);
      CompleteStep(u, events[0]);
      StepTogether(b, u, events[0], bound);
      CompleteRun(Next(b, events[0], true), Next(u, events[0], false), events[1..], bound);
    }
  }

  lemma FactoryIsComplete(bound: string -> int)
    ensures Together(FACTORY, FACTORY, bound) && Complete(FACTORY)
  {
  }

  /**
   No idempotency key is ever completed twice, however many entries have been evicted, in
   every run with failures, refused writes and restarts, as long as no restart finds the
   journal file behind.
   */
  lemma EachKeyCompletesOnce(events: seq<Event>, bound: string -> int)
    requires BoundKeys(events, bound) && OrderlyRun(FACTORY, events, true)
    ensures DistinctKeys(Run(FACTORY, events, true).completed)
  {
    hide Run, BoundKeys, OrderlyRun;
    FactoryIsComplete(bound);
    CompleteRun(FACTORY, FACTORY, events, bound);
  }

  /**
   After such a run a completed body, delivered again with its revision, is answered with
   the result recorded for it while the journal holds it, that is, as one of the newest
   500, and is stale afterwards.
   */
  lemma CompletedIsReplayed(events: seq<Event>, bound: string -> int, i: nat)
    requires BoundKeys(events, bound) && OrderlyRun(FACTORY, events, true)
    requires i < |Run(FACTORY, events, true).completed|
    ensures var b := Run(FACTORY, events, true);
            var e := b.completed[i];
            && e.revision == bound(e.key)
            && Judge(b.journal, e.key, e.revision) == (if e in b.journal.requests then Replay(e.result) else Stale)
            && (|b.completed| <= 500 ==> e in b.journal.requests)
            && (e !in b.journal.requests ==> |b.journal.requests| == 500 && forall k :: k in b.journal.requests ==> e.revision < k.revision)
  {
    hide Run, BoundKeys, OrderlyRun;
    FactoryIsComplete(bound);
    CompleteRun(FACTORY, FACTORY, events, bound);
    HeldIsReplayed(Run(FACTORY, events, true), Run(FACTORY, events, false), bound, i);
  }

  lemma HeldIsReplayed(b: Gateway, u: Gateway, bound: string -> int, i: nat)
    requires Together(b, u, bound) && Complete(u) && i < |b.completed|
    ensures var e := b.completed[i];
            && e.revision == bound(e.key)
            && Judge(b.journal, e.key, e.revision) == (if e in b.journal.requests then Replay(e.result) else Stale)
            && (|b.completed| <= 500 ==> e in b.journal.requests)
            && (e !in b.journal.requests ==> |b.journal.requests| == 500 && forall k :: k in b.journal.requests ==> e.revision < k.revision)
  {
    var e := b.completed[i];
    assert e in u.journal.requests;
    LookupFinds(b.journal.requests, e.key);
    KeysAgree(b.journal, u.journal, e.key);
    LookupFinds(u.journal.requests, e.key);
    OnlyEntry(u.journal.requests, e.key);
    if e in b.journal.requests {
      var k :| 0 <= k < |b.journal.requests| && b.journal.requests[k] == e;
    } else if |b.completed| <= 500 {
      SameWhenSmall(b.journal.requests, u.journal.requests);
    }
  }

  /** A list with distinct keys inside another one of the same length holds everything of it. */
  lemma SameWhenSmall(b: seq<Entry>, u: seq<Entry>)
    requires DistinctKeys(b) && DistinctKeys(u) && |b| == |u| && forall e :: e in b ==> e in u
    ensures forall e :: e in u ==> e in b
  {
    forall e | e in u ensures e in b {
      if e !in b {
        var i :| 0 <= i < |u| && u[i] == e;
        var rest := u[..i] + u[i + 1..];
        if b != [] {
          forall k | k in b ensures k in rest {
            var m :| 0 <= m < |u| && u[m] == k;
            assert k == if m < i then rest[m] else rest[m - 1];
          }
          Pigeonhole(rest, b);
        }
      }
    }
  }

  /** After a restart, a body that is already completed would be applied once more. */
  ghost predicate Repeats(b: Gateway, bound: string -> int, i: nat)
    requires i < |b.completed|
  {
    Judge(b.disk, b.completed[i].key, bound(b.completed[i].key)).Fresh?
  }

  /**
   The condition is exact: after every such run, a restart lets some completed body be
   applied again if and only if the journal file is behind the journal in memory.
   */
  lemma RestartRepeatsExactly(b: Gateway, u: Gateway, bound: string -> int)
    requires Together(b, u, bound) && Complete(u)
    ensures (exists i :: 0 <= i < |b.completed| && Repeats(b, bound, i)) <==> b.disk.maxRevision < b.journal.maxRevision
  {
    hide Judge;
    if b.disk.maxRevision < b.journal.maxRevision {
      LastIsForgotten(b, u, bound);
    } else {
      forall i | 0 <= i < |b.completed| ensures !Repeats(b, bound, i) {
        DurableIsNotFresh(b, u, bound, i);
      }
    }
  }

  lemma LastIsForgotten(b: Gateway, u: Gateway, bound: string -> int)
    requires Together(b, u, bound) && Complete(u) && b.disk.maxRevision < b.journal.maxRevision
    ensures b.completed != [] && Repeats(b, bound, |b.completed| - 1)
  {
    var last := u.completed[|u.completed| - 1];
    LookupFinds(b.disk.requests, last.key);
    forall k | 0 <= k < |b.disk.requests| ensures b.disk.requests[k].key != last.key {
      assert b.disk.requests[k] in u.disk.requests;
    }
  }

  lemma DurableIsNotFresh(b: Gateway, u: Gateway, bound: string -> int, i: nat)
    requires Together(b, u, bound) && Complete(u) && b.disk.maxRevision >= b.journal.maxRevision && i < |b.completed|
    ensures !Repeats(b, bound, i)
  {
    assert u.completed[i] in u.journal.requests;
  }

  // ---------------------------------------------------------------- where they part

  /**
   The exact divergence: one journal applies a body and the other does not, precisely
   when its key has been evicted and it arrives with a revision above the high-water mark.
   */
  lemma DivergesExactlyOnEvictedKeys(b: Journal, u: Journal, key: string, revision: int)
    requires Refines(b, u)
    ensures Judge(b, key, revision).Fresh? != Judge(u, key, revision).Fresh?
       <==> Has(u.requests, key) && !Has(b.requests, key) && revision > u.maxRevision
  {
    KeysAgree(b, u, key);
    LookupFinds(b.requests, key);
    LookupFinds(u.requests, key);
  }

  function KeyNumber(n: nat): string { seq(n, _ => 'k') }

  function FreshDeliveries(n: nat): seq<Event> {
    seq(n, i requires 0 <= i < n => Deliver(KeyNumber(i), i + 1, Completes("done", true)))
  }

  lemma RunAppend(g: Gateway, events: seq<Event>, ev: Event, trimmed: bool)
    ensures Run(g, events + [ev], trimmed) == Next(Run(g, events, trimmed), ev, trimmed)
    decreases |events|
  {
    if events == [] {
      assert events + [ev] == [ev] && [ev][1..] == [];
      assert Run(g, [ev], trimmed) == Run(Next(g, ev, trimmed), [], trimmed);
    } else {
      assert (events + [ev])[0] == events[0] && (events + [ev])[1..] == events[1..] + [ev];
      RunAppend(Next(g, events[0], trimmed), events[1..], ev, trimmed);
    }
  }

  /** After n fresh deliveries the reference journal holds them all, in order. */
  lemma {:induction false} FreshRun(n: nat)
    ensures var u := Run(FACTORY, FreshDeliveries(n), false);
            && u.journal.maxRevision == n && |u.journal.requests| == n
            && (forall i :: 0 <= i < n ==> u.journal.requests[i] == Entry(KeyNumber(i), i + 1, "done"))
  {
    if n > 0 {
      var ev := Deliver(KeyNumber(n - 1), n, Completes("done", true));
      FreshRun(n - 1);
      assert FreshDeliveries(n) == FreshDeliveries(n - 1) + [ev];
      RunAppend(FACTORY, FreshDeliveries(n - 1), ev, false);
      var j := Run(FACTORY, FreshDeliveries(n - 1), false).journal;
      forall i | 0 <= i < |j.requests| ensures j.requests[i].key != ev.key {
        assert |j.requests[i].key| == i && |ev.key| == n - 1;
      }
      LookupFinds(j.requests, ev.key);
      AssignNew(j.requests, Entry(ev.key, n, "done"));
    }
  }

  lemma {:induction false} Pigeonhole(small: seq<Entry>, large: seq<Entry>)
    requires DistinctKeys(large) && |small| < |large|
    ensures exists e :: e in large && e !in small
    decreases |small|
  {
    if small == [] {
      assert large[0] in large;
    } else if i :| 0 <= i < |large| && large[i] == small[0] {
      var rest := large[..i] + large[i + 1..];
      Pigeonhole(small[1..], rest);
      var e :| e in rest && e !in small[1..];
      assert e in large && e != large[i];
    } else {
      Pigeonhole(small[1..], large);
      var e :| e in large && e !in small[1..];
      assert e != small[0];
    }
  }

  lemma {:induction false} FreshIsOrderly(g: Gateway, events: seq<Event>)
    requires forall i :: 0 <= i < |events| ==> events[i].Deliver?
    ensures OrderlyRun(g, events, true)
    decreases |events|
  {
    hide Next;
    if events != [] {
      forall i | 0 <= i < |events[1..]| ensures events[1..][i].Deliver? { assert events[1..][i] == events[i + 1]; }
      FreshIsOrderly(Next(g, events[0], true), events[1..]);
    }
  }

  /** Among 501 fresh bodies it is the first one that has been evicted. */
  lemma FirstKeyIsEvicted()
    ensures var b := Run(FACTORY, FreshDeliveries(501), true);
            var u := Run(FACTORY, FreshDeliveries(501), false);
            && Refines(b.journal, u.journal) && u.journal.maxRevision == 501
            && b.applied == u.applied && b.completed == u.completed == u.journal.requests
            && |u.journal.requests| == 501 && u.journal.requests[0].key == KeyNumber(0)
            && !Has(b.journal.requests, KeyNumber(0))
  {
    hide Run, OrderlyRun;
    var prior := FreshDeliveries(501);
    var bound := (key: string) => |key| + 1;
    FactoryIsComplete(bound);
    FreshIsOrderly(FACTORY, prior);
    CompleteRun(FACTORY, FACTORY, prior, bound);
    var b, u := Run(FACTORY, prior, true).journal.requests, Run(FACTORY, prior, false).journal.requests;
    FreshRun(501);
    Pigeonhole(b, u);
    var lost :| lost in u && lost !in b;
    assert lost.revision >= 1;
    forall i | 0 <= i < |b| ensures b[i].key != KeyNumber(0) {
      assert b[i] in u;
      assert lost.revision < b[i].revision;
      assert u[0].key == KeyNumber(0);
    }
  }

  /**
   The binding of keys to revisions is needed: after 501 fresh bodies the first key has
   been evicted, and sending it again with a higher revision applies it a second time.
   */
  lemma RebornKeyAppliesTwice()
    ensures var events := FreshDeliveries(501) + [Deliver(KeyNumber(0), 502, Completes("again", true))];
            var b := Run(FACTORY, events, true);
            && !DistinctKeys(b.completed)
            && b.applied != Run(FACTORY, events, false).applied
  {
    hide Run, FreshDeliveries, Refines, Recorded;
    var prior := FreshDeliveries(501);
    var again := Deliver(KeyNumber(0), 502, Completes("again", true));
    FirstKeyIsEvicted();
    RunAppend(FACTORY, prior, again, true);
    RunAppend(FACTORY, prior, again, false);
    var b, u := Run(FACTORY, prior, true), Run(FACTORY, prior, false);
    DivergesExactlyOnEvictedKeys(b.journal, u.journal, KeyNumber(0), 502);
    LookupFinds(u.journal.requests, KeyNumber(0));
    var done := Next(b, again, true).completed;
    assert done[0].key == done[501].key;
  }
}
