/**
 The network watchdog: uplink selection with hysteresis, route-metric changes and their
 restoration (`novena_gateway/gateway/network_watchdog_handler.py`).

 What the operating system answers during one check (routes, link state, pings, whether
 NetworkManager knows a profile, whether the privileged helper succeeds) is the input of
 that check.
 */
module Watchdog {
  import opened Common

  const HYSTERESIS: nat := 3

  datatype Profile = Profile(uuid: string, metric: int)

  /** The configuration: interfaces in order of preference, configured roles, and the mode. */
  datatype Site = Site(interfaces: seq<string>, roles: map<string, string>, mayChangeMetrics: bool)

  datatype Check = Check(
    routes: map<string, int>,     // default routes and their metrics
    up: set<string>,              // physically up
    reachable: set<string>,       // a ping through the interface succeeds
    known: set<string>,           // NetworkManager resolves a profile
    changeOk: bool,               // the helper accepts the metric change
    restoreOk: set<string>)       // the helper accepts the restoration

  datatype State = State(
    active: string,
    streak: nat,                       // _consecutive_preferred_successes
    failovers: nat,
    originals: map<string, Profile>,   // _original_metrics
    profiles: map<string, Profile>,    // the connection profiles themselves
    writes: set<(string, int)>)        // history: metric writes of the latest check

  function Role(site: Site, k: Check, i: string): string {
    if i in site.roles && site.roles[i] != "" then site.roles[i]
    else if i in k.routes then "uplink"
    else "field"
  }

  predicate Routed(site: Site, k: Check, i: string) { i in k.routes && Role(site, k, i) == "uplink" }

  predicate Healthy(site: Site, k: Check, i: string) { Routed(site, k, i) && i in k.up && i in k.reachable }

  /** The first healthy interface in order of preference, or none. */
  function Preferred(site: Site, k: Check, interfaces: seq<string>): string {
    if interfaces == [] then ""
    else if Healthy(site, k, interfaces[0]) then interfaces[0]
    else Preferred(site, k, interfaces[1..])
  }

  /** The healthy interfaces, in order of preference. */
  function HealthyAmong(site: Site, k: Check, interfaces: seq<string>): seq<string> {
    if interfaces == [] then []
    else (if Healthy(site, k, interfaces[0]) then [interfaces[0]] else []) + HealthyAmong(site, k, interfaces[1..])
  }

  /** The routed uplink with the smallest metric, the first one on a tie, or none. */
  function Cheapest(site: Site, k: Check, interfaces: seq<string>): (i: string)
    ensures i != "" ==> i in k.routes
  {
    if interfaces == [] then ""
    else
      var rest := Cheapest(site, k, interfaces[1..]);
      var first := interfaces[0];
      if !Routed(site, k, first) || first == "" then rest
      else if rest != "" && k.routes[rest] < k.routes[first] then rest
      else first
  }

  /** The smallest metric among the other routed uplinks. */
  function LowestOther(site: Site, k: Check, interfaces: seq<string>, chosen: string): Option<int> {
    if interfaces == [] then None
    else
      var rest := LowestOther(site, k, interfaces[1..], chosen);
      var first := interfaces[0];
      if first == chosen || !Routed(site, k, first) then rest
      else if rest.Some? && rest.value < k.routes[first] then rest
      else Some(k.routes[first])
  }

  predicate ValidSite(site: Site) {
    && (forall i :: 0 <= i < |site.interfaces| ==> site.interfaces[i] != "")
    && (forall i, j :: 0 <= i < j < |site.interfaces| ==> site.interfaces[i] != site.interfaces[j])
  }

  // ---------------------------------------------------------------- one check

  /** The interface in use when the check begins; at first, the cheapest routed uplink. */
  function Current(site: Site, active: string, k: Check): string {
    if active != "" then active else Cheapest(site, k, site.interfaces)
  }

  predicate Usable(site: Site, k: Check, i: string) { i in site.interfaces && Healthy(site, k, i) }

  function Best(site: Site, k: Check): string { Preferred(site, k, site.interfaces) }

  /** The check finds a healthy interface in use that is not the preferred one. */
  predicate FindsBetter(site: Site, active: string, k: Check) {
    Usable(site, k, Current(site, active, k)) && Best(site, k) != Current(site, active, k)
  }

  function NewStreak(site: Site, active: string, streak: nat, k: Check): nat {
    if FindsBetter(site, active, k) then streak + 1 else 0
  }

  /** The interface that should be in use: the current one while it is healthy, unless three checks found a better one. */
  function Candidate(site: Site, active: string, streak: nat, k: Check): string {
    if !Usable(site, k, Current(site, active, k)) then Best(site, k)
    else if NewStreak(site, active, streak, k) >= HYSTERESIS then Best(site, k)
    else Current(site, active, k)
  }

  predicate NeedsMetric(site: Site, k: Check, chosen: string) {
    var other := LowestOther(site, k, site.interfaces, chosen);
    other.Some? && chosen in k.routes && k.routes[chosen] >= other.value
  }

  /** A needed metric change can be made and the helper accepts it. */
  predicate MetricChanges(site: Site, profiles: map<string, Profile>, k: Check, chosen: string) {
    var other := LowestOther(site, k, site.interfaces, chosen);
    && other.Some? && site.mayChangeMetrics && other.value > 0
    && chosen in k.known && chosen in profiles && k.changeOk
  }

  predicate SwitchSucceeds(site: Site, profiles: map<string, Profile>, k: Check, chosen: string) {
    NeedsMetric(site, k, chosen) ==> MetricChanges(site, profiles, k, chosen)
  }

  /** Switching from `current` to `chosen`, with the metric change if one is needed and possible. */
  function Switched(site: Site, s: State, k: Check, current: string, chosen: string): State {
    if !SwitchSucceeds(site, s.profiles, k, chosen) then s.(active := current)
    else if !NeedsMetric(site, k, chosen) then s.(active := chosen)
    else
      var metric := LowestOther(site, k, site.interfaces, chosen).value - 1;
      s.(active := chosen,
         failovers := if current != "" then s.failovers + 1 else s.failovers,
         originals := if chosen in s.originals then s.originals else s.originals[chosen := s.profiles[chosen]],
         profiles := s.profiles[chosen := s.profiles[chosen].(metric := metric)],
         writes := s.writes + {(chosen, metric)})
  }

  function Selected(site: Site, s: State, k: Check): State {
    var current := Current(site, s.active, k);
    var chosen := Candidate(site, s.active, s.streak, k);
    var t := s.(streak := NewStreak(site, s.active, s.streak, k), writes := {});
    if chosen != "" && chosen != current then Switched(site, t, k, current, chosen)
    else t.(active := chosen)
  }

  /** The profile is still the recorded one and the helper accepts the write. */
  predicate Reinstatable(originals: map<string, Profile>, profiles: map<string, Profile>, k: Check, i: string) {
    && i in originals && i in k.known && i in profiles
    && profiles[i].uuid == originals[i].uuid && i in k.restoreOk
  }

  /** Interfaces whose recorded metric a check puts back: uplinks that are not in use. */
  predicate Due(site: Site, active: string, k: Check, i: string) {
    i != active && i in site.interfaces && Role(site, k, i) == "uplink"
  }

  function PutBack(s: State, i: string): State
    requires i in s.originals && i in s.profiles
  {
    s.(originals := s.originals - {i},
       profiles := s.profiles[i := s.profiles[i].(metric := s.originals[i].metric)],
       writes := s.writes + {(i, s.originals[i].metric)})
  }

  function Metrics(originals: map<string, Profile>, back: set<string>): set<(string, int)>
    requires back <= originals.Keys
  {
    set i | i in back :: (i, originals[i].metric)
  }

  /** The state in which exactly the interfaces of `back` have been put back, in whatever order. */
  ghost function PutAllBack(s: State, back: set<string>): (t: State)
    requires back <= s.originals.Keys && back <= s.profiles.Keys
    ensures t.active == s.active && t.streak == s.streak && t.failovers == s.failovers
    ensures t.originals == s.originals - back && t.profiles.Keys == s.profiles.Keys
    ensures forall i :: i in s.profiles ==>
              t.profiles[i] == if i in back then s.profiles[i].(metric := s.originals[i].metric) else s.profiles[i]
    ensures t.writes == s.writes + Metrics(s.originals, back)
    decreases |back|
  {
    if back == {} then s
    else
      var i :| i in back;
      PutAllBack(PutBack(s, i), back - {i})
  }

  /** What a check puts back once the selection has been made. */
  function DueBack(site: Site, s: State, k: Check): set<string> {
    set i | i in s.originals && Due(site, s.active, k, i) && Reinstatable(s.originals, s.profiles, k, i)
  }

  ghost function Checked(site: Site, s: State, k: Check): State {
    var t := Selected(site, s, k);
    PutAllBack(t, DueBack(site, t, k))
  }

  function AllBack(s: State, k: Check): set<string> {
    set i | i in s.originals && Reinstatable(s.originals, s.profiles, k, i)
  }

  /** `stop`: every recorded metric is put back, whatever the role of the interface is now. */
  ghost function Stopped(site: Site, s: State, k: Check): State {
    if !site.mayChangeMetrics then s
    else PutAllBack(s, AllBack(s, k))
  }

  lemma PutNothingBack(s: State)
    ensures PutAllBack(s, {}) == s
  {
    assert PutAllBack(s, {}).profiles == s.profiles;
    assert PutAllBack(s, {}).originals == s.originals;
    assert PutAllBack(s, {}).writes == s.writes;
  }

  lemma PutBackOneMore(s: State, back: set<string>, i: string)
    requires back <= s.originals.Keys && back <= s.profiles.Keys
    requires i in s.originals && i in s.profiles && i !in back
    ensures PutBack(PutAllBack(s, back), i) == PutAllBack(s, back + {i})
  {
    hide PutAllBack;
    var t := PutBack(PutAllBack(s, back), i);
    var u := PutAllBack(s, back + {i});
    assert t.originals == u.originals;
    assert t.profiles == u.profiles;
    assert t.writes == u.writes;
  }

  // ---------------------------------------------------------------- the watchdog object

  class NetworkWatchdog {
    const site: Site
    var active: string
    var streak: nat
    var failovers: nat
    var originals: map<string, Profile>
    var profiles: map<string, Profile>
    ghost var writes: set<(string, int)>

    ghost function View(): (s: State)
      reads this
    {
      State(active, streak, failovers, originals, profiles, writes)
    }

    constructor (site: Site, profiles: map<string, Profile>)
      ensures this.site == site && View() == State("", 0, 0, map[], profiles, {})
    {
      this.site, this.profiles := site, profiles;
      active, streak, failovers, originals := "", 0, 0, map[];
      writes := {};
    }

    method HealthyUplinks(k: Check) returns (healthy: seq<string>)
      ensures healthy == HealthyAmong(site, k, site.interfaces)
      ensures forall i :: i in healthy <==> i in site.interfaces && Healthy(site, k, i)
      ensures Best(site, k) == if healthy == [] then "" else healthy[0]
    {
      healthy := [];
      for n := 0 to |site.interfaces|
        invariant healthy + HealthyAmong(site, k, site.interfaces[n..]) == HealthyAmong(site, k, site.interfaces)
      {
        HealthyStep(site, k, site.interfaces, n, healthy);
        if Healthy(site, k, site.interfaces[n]) { healthy := healthy + [site.interfaces[n]]; }
      }
      HealthyAmongMeans(site, k, site.interfaces);
    }

    method CheapestUplink(k: Check) returns (best: string)
      ensures best == Cheapest(site, k, site.interfaces)
    {
      best := "";
      for n := 0 to |site.interfaces|
        invariant best != "" ==> best in k.routes
        invariant Cheapest(site, k, site.interfaces) ==
                  var rest := Cheapest(site, k, site.interfaces[n..]);
                  if best == "" then rest
                  else if rest != "" && k.routes[rest] < k.routes[best] then rest else best
      {
        var i := site.interfaces[n];
        assert site.interfaces[n..][1..] == site.interfaces[n + 1..];
        if Routed(site, k, i) && i != "" && (best == "" || k.routes[i] < k.routes[best]) { best := i; }
      }
    }

    method LowestMetricExcept(k: Check, chosen: string) returns (low: Option<int>)
      ensures low == LowestOther(site, k, site.interfaces, chosen)
    {
      low := None;
      for n := 0 to |site.interfaces|
        invariant LowestOther(site, k, site.interfaces, chosen) ==
                  var rest := LowestOther(site, k, site.interfaces[n..], chosen);
                  if low.None? then rest
                  else if rest.Some? && rest.value < low.value then rest else low
      {
        var i := site.interfaces[n];
        assert site.interfaces[n..][1..] == site.interfaces[n + 1..];
        if i != chosen && Routed(site, k, i) && (low.None? || k.routes[i] < low.value) {
          low := Some(k.routes[i]);
        }
      }
    }

    /** Reads the profile, asks the helper, and remembers the metric found before the first change. */
    method SetInterfaceMetric(i: string, metric: int, k: Check) returns (ok: bool)
      modifies this`originals, this`profiles, this`writes
      ensures ok == (site.mayChangeMetrics ==> i in k.known && i in old(profiles) && k.changeOk)
      ensures !(ok && site.mayChangeMetrics) ==>
                originals == old(originals) && profiles == old(profiles) && writes == old(writes)
      ensures ok && site.mayChangeMetrics ==>
                && originals == (if i in old(originals) then old(originals) else old(originals)[i := old(profiles)[i]])
                && profiles == old(profiles)[i := old(profiles)[i].(metric := metric)]
                && writes == old(writes) + {(i, metric)}
    {
      if !site.mayChangeMetrics { return true; }
      if i !in k.known || i !in profiles { return false; }
      var found := profiles[i];
      if !k.changeOk { return false; }
      profiles := profiles[i := found.(metric := metric)];
      writes := writes + {(i, metric)};
      if i !in originals { originals := originals[i := found]; }
      ok := true;
    }

    /** Puts the metrics of `due` back, one interface at a time. */
    method Restore(due: set<string>)
      requires due <= originals.Keys && due <= profiles.Keys
      modifies this`originals, this`profiles, this`writes
      ensures View() == PutAllBack(old(View()), due)
    {
      hide PutAllBack;
      var left := due;
      ghost var start := View();
      PutNothingBack(start);
      assert due - left == {};
      while left != {}
        invariant left <= due && left <= originals.Keys && left <= profiles.Keys
        invariant View() == PutAllBack(start, due - left)
      {
        var i :| i in left;
        PutBackOneMore(start, due - left, i);
        assert due - left + {i} == due - (left - {i});
        var metric := originals[i].metric;
        profiles := profiles[i := profiles[i].(metric := metric)];
        originals := originals - {i};
        writes := writes + {(i, metric)};
        left := left - {i};
      }
      assert due - left == due;
    }

    method CheckNetwork(k: Check)
      modifies this
      ensures View() == Checked(site, old(View()), k)
    {
      hide Selected, PutAllBack;
      Select(k);
      var due := set i | i in originals && Due(site, active, k, i) && Reinstatable(originals, profiles, k, i);
      Restore(due);
    }

    method Select(k: Check)
      modifies this
      ensures View() == Selected(site, old(View()), k)
    {
      hide Switched, Healthy, Preferred, Cheapest;
      writes := {};
      var current, candidate := Choose(k);
      if candidate != "" && candidate != current {
        SwitchTo(current, candidate, k);
      } else {
        active := candidate;
      }
    }

    method Choose(k: Check) returns (current: string, candidate: string)
      modifies this`streak
      ensures current == Current(site, active, k)
      ensures candidate == Candidate(site, active, old(streak), k)
      ensures streak == NewStreak(site, active, old(streak), k)
      ensures candidate == "" || candidate == current || Usable(site, k, candidate)
    {
      var healthy := HealthyUplinks(k);
      var preferred := if healthy == [] then "" else healthy[0];
      current := active;
      if active == "" { current := CheapestUplink(k); }
      candidate := current;
      if current !in healthy {
        candidate := preferred;
        streak := 0;
      } else if preferred != current {
        streak := streak + 1;
        if streak >= HYSTERESIS { candidate := preferred; }
      } else {
        streak := 0;
      }
    }

    method SwitchTo(current: string, chosen: string, k: Check)
      requires Usable(site, k, chosen)
      modifies this
      ensures View() == Switched(site, old(View()), k, current, chosen)
    {
      var other := LowestMetricExcept(k, chosen);
      var needsMetric := other.Some? && k.routes[chosen] >= other.value;
      var success := !needsMetric;
      if needsMetric && site.mayChangeMetrics && other.value > 0 {
        success := SetInterfaceMetric(chosen, other.value - 1, k);
      }
      if success {
        active := chosen;
        if current != "" && needsMetric { failovers := failovers + 1; }
      } else {
        active := current;
      }
    }

    method RestoreMetrics(k: Check)
      modifies this
      ensures View() == Stopped(site, old(View()), k)
    {
      hide PutAllBack;
      if !site.mayChangeMetrics { return; }
      var due := set i | i in originals && Reinstatable(originals, profiles, k, i);
      Restore(due);
    }
  }

  lemma HealthyStep(site: Site, k: Check, interfaces: seq<string>, n: nat, healthy: seq<string>)
    requires n < |interfaces|
    ensures healthy + HealthyAmong(site, k, interfaces[n..])
         == (if Healthy(site, k, interfaces[n]) then healthy + [interfaces[n]] else healthy)
            + HealthyAmong(site, k, interfaces[n + 1..])
  {
    hide Healthy;
    var rest := HealthyAmong(site, k, interfaces[n + 1..]);
    assert interfaces[n..][1..] == interfaces[n + 1..];
    assert [] + rest == rest && healthy + ([interfaces[n]] + rest) == (healthy + [interfaces[n]]) + rest;
  }

  /** Exactly the healthy interfaces, the preferred one in front. */
  lemma {:induction false} HealthyAmongMeans(site: Site, k: Check, interfaces: seq<string>)
    ensures var healthy := HealthyAmong(site, k, interfaces);
            && (forall i :: i in healthy <==> i in interfaces && Healthy(site, k, i))
            && Preferred(site, k, interfaces) == if healthy == [] then "" else healthy[0]
  {
    hide Healthy;
    if interfaces != [] {
      assert interfaces == [interfaces[0]] + interfaces[1..];
      HealthyAmongMeans(site, k, interfaces[1..]);
    }
  }

  // ---------------------------------------------------------------- what a check achieves

  predicate Named(interfaces: seq<string>) { forall i :: 0 <= i < |interfaces| ==> interfaces[i] != "" }

  lemma {:induction false} PreferredIsFirstHealthy(site: Site, k: Check, interfaces: seq<string>)
    requires Named(interfaces)
    ensures var p := Preferred(site, k, interfaces);
            && (p != "" ==> p in interfaces && Healthy(site, k, p))
            && (p == "" <==> forall i :: i in interfaces ==> !Healthy(site, k, i))
  {
    if interfaces != [] && !Healthy(site, k, interfaces[0]) {
      PreferredIsFirstHealthy(site, k, interfaces[1..]);
    }
  }

  lemma {:induction false} CheapestIsRouted(site: Site, k: Check, interfaces: seq<string>)
    requires Named(interfaces)
    ensures var c := Cheapest(site, k, interfaces);
            && (c != "" ==> c in interfaces && Routed(site, k, c))
            && (c == "" <==> forall i :: i in interfaces ==> !Routed(site, k, i))
            && (c != "" ==> forall i :: i in interfaces && Routed(site, k, i) ==> k.routes[c] <= k.routes[i])
  {
    if interfaces != [] { CheapestIsRouted(site, k, interfaces[1..]); }
  }

  /** Of the healthy interfaces the preferred one is the first, and of the cheapest routed uplinks the one in use at the start. */
  lemma {:induction false} EarlierInterfacesLose(site: Site, k: Check, interfaces: seq<string>)
    requires Named(interfaces)
    ensures var p := Preferred(site, k, interfaces);
            p != "" ==> exists n :: 0 <= n < |interfaces| && interfaces[n] == p
                                    && forall m :: 0 <= m < n ==> !Healthy(site, k, interfaces[m])
    ensures var c := Cheapest(site, k, interfaces);
            c != "" ==> exists n :: 0 <= n < |interfaces| && interfaces[n] == c
                                    && forall m :: 0 <= m < n && Routed(site, k, interfaces[m]) ==>
                                                     k.routes[c] < k.routes[interfaces[m]]
  {
    hide Healthy, Routed;
    if interfaces != [] {
      EarlierInterfacesLose(site, k, interfaces[1..]);
    }
  }

  lemma {:induction false} LowestOtherIsLowest(site: Site, k: Check, interfaces: seq<string>, chosen: string)
    ensures var low := LowestOther(site, k, interfaces, chosen);
            forall i :: i in interfaces && i != chosen && Routed(site, k, i) ==>
              low.Some? && low.value <= k.routes[i]
    ensures var low := LowestOther(site, k, interfaces, chosen);
            low.Some? ==> exists i :: i in interfaces && i != chosen && Routed(site, k, i) && k.routes[i] == low.value
  {
    if interfaces != [] {
      LowestOtherIsLowest(site, k, interfaces[1..], chosen);
      assert interfaces[0] in interfaces && forall i :: i in interfaces[1..] ==> i in interfaces;
    }
  }

  /** The check wanted to switch, needed a metric change for it, and did not get it. */
  predicate MetricRefused(site: Site, s: State, k: Check) {
    var chosen := Candidate(site, s.active, s.streak, k);
    && chosen != "" && chosen != Current(site, s.active, k)
    && NeedsMetric(site, k, chosen) && !MetricChanges(site, s.profiles, k, chosen)
  }

  lemma CandidateIsHealthy(site: Site, active: string, streak: nat, k: Check)
    requires ValidSite(site) && (active == "" || active in site.interfaces)
    ensures var c := Candidate(site, active, streak, k);
            && (c == "" <==> forall i :: i in site.interfaces ==> !Healthy(site, k, i))
            && (c != "" ==> c in site.interfaces && Healthy(site, k, c))
            && (c != "" ==> Current(site, active, k) != "" && Current(site, active, k) in site.interfaces)
  {
    PreferredIsFirstHealthy(site, k, site.interfaces);
    CheapestIsRouted(site, k, site.interfaces);
    hide Healthy, Preferred, Cheapest;
  }

  /**
   After every check: no interface is in use exactly when no uplink is healthy, and an
   unhealthy one stays in use only because the metric change it needed was refused.
   */
  lemma CheckSelectsAHealthyUplink(site: Site, s: State, k: Check)
    requires ValidSite(site) && (s.active == "" || s.active in site.interfaces)
    ensures var t := Checked(site, s, k);
            && (t.active == "" <==> forall i :: i in site.interfaces ==> !Healthy(site, k, i))
            && (t.active != "" ==> t.active in site.interfaces)
            && (t.active != "" && !Healthy(site, k, t.active) ==> MetricRefused(site, s, k))
  {
    CandidateIsHealthy(site, s.active, s.streak, k);
    hide Healthy, Candidate, Current, NewStreak;
    assert Checked(site, s, k).active == Selected(site, s, k).active;
  }

  /** The route metric that NetworkManager gives an interface whose profile names none. */
  type Automatic = string -> int

  /** The route metric that a profile brings about; a negative one, such as -1, stands for the automatic metric. */
  function Effective(auto: Automatic, i: string, p: Profile): int { if p.metric >= 0 then p.metric else auto(i) }

  /** The check reads, for every routed uplink, the metric that its profile brings about. */
  ghost predicate Agrees(site: Site, auto: Automatic, s: State, k: Check) {
    forall i :: i in site.interfaces && Routed(site, k, i) ==> i in s.profiles && k.routes[i] == Effective(auto, i, s.profiles[i])
  }

  /** What the watchdog has changed, it has lowered: every recorded original lies above what is in force. */
  ghost predicate OriginalsAbove(auto: Automatic, s: State) {
    forall i :: i in s.originals ==>
      i in s.profiles && Effective(auto, i, s.originals[i]) > Effective(auto, i, s.profiles[i])
  }

  /** The selection changes the metric of the chosen interface only, and only downwards. */
  lemma SelectionLowers(site: Site, auto: Automatic, s: State, k: Check)
    requires ValidSite(site) && (s.active == "" || s.active in site.interfaces)
    requires Agrees(site, auto, s, k) && OriginalsAbove(auto, s)
    ensures var t := Selected(site, s, k);
            && OriginalsAbove(auto, t) && t.profiles.Keys == s.profiles.Keys
            && (forall i :: i in s.profiles && i != t.active ==> t.profiles[i] == s.profiles[i])
            && (forall i :: i in s.profiles ==> Effective(auto, i, t.profiles[i]) <= Effective(auto, i, s.profiles[i]))
  {
    hide NewStreak, LowestOther, Candidate, Current;
    CandidateIsHealthy(site, s.active, s.streak, k);
  }

  /** Restoring raises metrics, and never that of the interface in use. */
  lemma RestoringRaises(site: Site, auto: Automatic, t: State, k: Check)
    requires OriginalsAbove(auto, t)
    ensures var u := PutAllBack(t, DueBack(site, t, k));
            && OriginalsAbove(auto, u) && u.active == t.active && u.profiles.Keys == t.profiles.Keys
            && (forall i :: i in t.profiles ==> Effective(auto, i, u.profiles[i]) >= Effective(auto, i, t.profiles[i]))
            && (t.active in t.profiles ==> u.profiles[t.active] == t.profiles[t.active])
  {
    hide Role;
  }

  /** The interface switched to has, right after the selection, less than every other routed uplink. */
  lemma SelectionWins(site: Site, auto: Automatic, s: State, k: Check, other: string)
    requires ValidSite(site) && (s.active == "" || s.active in site.interfaces)
    requires Agrees(site, auto, s, k)
    requires var t := Selected(site, s, k); t.active != "" && t.active != Current(site, s.active, k)
    ensures var t := Selected(site, s, k);
            var chosen := t.active;
            && chosen in site.interfaces && Routed(site, k, chosen) && chosen in t.profiles
            && (NeedsMetric(site, k, chosen) ==>
                  t.profiles[chosen].metric >= 0 && (chosen, t.profiles[chosen].metric) in t.writes)
            && (!NeedsMetric(site, k, chosen) ==> t.profiles == s.profiles && t.writes == {})
            && t.failovers <= s.failovers + 1
            && (other in site.interfaces && other != chosen && Routed(site, k, other) ==>
                  Effective(auto, chosen, t.profiles[chosen]) < k.routes[other])
  {
    hide Candidate, Current, NewStreak, LowestOther, Healthy;
    CandidateIsHealthy(site, s.active, s.streak, k);
    LowestOtherIsLowest(site, k, site.interfaces, Selected(site, s, k).active);
    var candidate := Candidate(site, s.active, s.streak, k);
    if candidate != "" { HealthyIsRouted(site, k, candidate); }
  }

  /**
   At the end of a check that switched, restorations included, the metric of the interface
   switched to is strictly below that of every other routed uplink, and a metric that had
   to be written is not negative.
   */
  lemma SwitchWinsTheRoute(site: Site, auto: Automatic, s: State, k: Check, other: string)
    requires ValidSite(site) && (s.active == "" || s.active in site.interfaces)
    requires Agrees(site, auto, s, k) && OriginalsAbove(auto, s)
    requires var t := Checked(site, s, k); t.active != "" && t.active != Current(site, s.active, k)
    ensures var t := Checked(site, s, k);
            && Routed(site, k, t.active) && t.active in t.profiles
            && (NeedsMetric(site, k, t.active) ==>
                  t.profiles[t.active].metric >= 0 && (t.active, t.profiles[t.active].metric) in t.writes)
            && (other in site.interfaces && other != t.active && Routed(site, k, other) ==>
                  other in t.profiles && Effective(auto, t.active, t.profiles[t.active]) < Effective(auto, other, t.profiles[other]))
  {
    hide Selected, Current, NeedsMetric, Routed, DueBack, Healthy;
    var t := Selected(site, s, k);
    assert Checked(site, s, k).active == t.active;
    SelectionWins(site, auto, s, k, other);
    SelectionLowers(site, auto, s, k);
    RestoringRaises(site, auto, t, k);
  }

  /** A check keeps every recorded original above the present metric. */
  lemma CheckKeepsOriginalsAbove(site: Site, auto: Automatic, s: State, k: Check)
    requires ValidSite(site) && (s.active == "" || s.active in site.interfaces)
    requires Agrees(site, auto, s, k) && OriginalsAbove(auto, s)
    ensures OriginalsAbove(auto, Checked(site, s, k))
  {
    hide Selected, DueBack, Routed;
    SelectionLowers(site, auto, s, k);
    RestoringRaises(site, auto, Selected(site, s, k), k);
  }

  /** No other role is configured for the interface, and it has a default route or is configured as an uplink. */
  predicate ActsAsUplink(site: Site, k: Check, i: string) {
    if i in site.roles && site.roles[i] != "" then site.roles[i] == "uplink" else i in k.routes
  }

  /** An interface is healthy exactly when it acts as an uplink, has a route, is up and answers. */
  lemma HealthyExactly(site: Site, k: Check, i: string)
    ensures Healthy(site, k, i) <==> ActsAsUplink(site, k, i) && i in k.routes && i in k.up && i in k.reachable
    ensures Role(site, k, i) == "uplink" <==> ActsAsUplink(site, k, i)
  {
  }

  /** Every metric write of a check targets an interface of the site that acts as an uplink. */
  lemma WritesTargetUplinks(site: Site, s: State, k: Check, i: string, metric: int)
    requires ValidSite(site) && (s.active == "" || s.active in site.interfaces)
    requires (i, metric) in Checked(site, s, k).writes
    ensures i in site.interfaces && ActsAsUplink(site, k, i)
  {
    hide Candidate, Current, NewStreak, LowestOther, Role, ActsAsUplink;
    CandidateIsHealthy(site, s.active, s.streak, k);
    HealthyExactly(site, k, i);
  }

  // ---------------------------------------------------------------- hysteresis over runs

  /** What one check saw and did. */
  datatype Observation = Observation(current: string, preferred: string, better: bool, activeAfter: string)

  ghost function Observe(site: Site, s: State, k: Check): Observation {
    Observation(Current(site, s.active, k), Best(site, k), FindsBetter(site, s.active, k), Checked(site, s, k).active)
  }

  ghost function Run(site: Site, s: State, checks: seq<Check>): State
    decreases |checks|
  {
    if checks == [] then s else Checked(site, Run(site, s, checks[..|checks| - 1]), checks[|checks| - 1])
  }

  ghost function Log(site: Site, s: State, checks: seq<Check>): (log: seq<Observation>)
    ensures |log| == |checks|
    decreases |checks|
  {
    if checks == [] then []
    else
      var before := checks[..|checks| - 1];
      Log(site, s, before) + [Observe(site, Run(site, s, before), checks[|checks| - 1])]
  }

  /** Length of the unbroken streak, at the end of the log, of checks that found a better interface. */
  function StreakOf(log: seq<Observation>): nat {
    if log == [] || !log[|log| - 1].better then 0 else 1 + StreakOf(log[..|log| - 1])
  }

  function Booted(profiles: map<string, Profile>): State { State("", 0, 0, map[], profiles, {}) }

  /** In every run the interface in use is one of the site's, so the theorems above apply to every check of it. */
  lemma {:induction false} ActiveBelongsToTheSite(site: Site, profiles: map<string, Profile>, checks: seq<Check>)
    requires ValidSite(site)
    ensures var s := Run(site, Booted(profiles), checks); s.active == "" || s.active in site.interfaces
    decreases |checks|
  {
    hide Checked;
    if checks != [] {
      var before := checks[..|checks| - 1];
      ActiveBelongsToTheSite(site, profiles, before);
      CheckSelectsAHealthyUplink(site, Run(site, Booted(profiles), before), checks[|checks| - 1]);
    }
  }

  /** The operating system has applied every metric by the time of the next check. */
  ghost predicate AgreeingRun(site: Site, auto: Automatic, profiles: map<string, Profile>, checks: seq<Check>)
    decreases |checks|
  {
    checks == [] ||
    var before := checks[..|checks| - 1];
    AgreeingRun(site, auto, profiles, before) && Agrees(site, auto, Run(site, Booted(profiles), before), checks[|checks| - 1])
  }

  lemma {:induction false} RunKeepsOriginalsAbove(site: Site, auto: Automatic, profiles: map<string, Profile>, checks: seq<Check>)
    requires ValidSite(site) && AgreeingRun(site, auto, profiles, checks)
    ensures OriginalsAbove(auto, Run(site, Booted(profiles), checks))
    decreases |checks|
  {
    hide Checked, Agrees;
    if checks != [] {
      var before := checks[..|checks| - 1];
      RunKeepsOriginalsAbove(site, auto, profiles, before);
      ActiveBelongsToTheSite(site, profiles, before);
      CheckKeepsOriginalsAbove(site, auto, Run(site, Booted(profiles), before), checks[|checks| - 1]);
    }
  }

  /** In every run whose routes follow the profiles, every switch ends with the best route. */
  lemma EverySwitchWinsTheRoute(site: Site, auto: Automatic, profiles: map<string, Profile>, checks: seq<Check>, other: string)
    requires ValidSite(site) && checks != [] && AgreeingRun(site, auto, profiles, checks)
    requires var o := Log(site, Booted(profiles), checks)[|checks| - 1]; o.activeAfter != "" && o.activeAfter != o.current
    requires other in site.interfaces && Routed(site, checks[|checks| - 1], other)
    ensures var t := Run(site, Booted(profiles), checks);
            && t.active in t.profiles
            && (other != t.active ==> other in t.profiles && Effective(auto, t.active, t.profiles[t.active]) < Effective(auto, other, t.profiles[other]))
  {
    hide Checked, Agrees, Routed, Current, Best, FindsBetter;
    var before := checks[..|checks| - 1];
    RunKeepsOriginalsAbove(site, auto, profiles, before);
    ActiveBelongsToTheSite(site, profiles, before);
    SwitchWinsTheRoute(site, auto, Run(site, Booted(profiles), before), checks[|checks| - 1], other);
  }

  /** What a check does to the counter, and when it leaves a healthy interface. */
  lemma CheckedStreak(site: Site, s: State, k: Check)
    ensures Checked(site, s, k).streak == NewStreak(site, s.active, s.streak, k)
    ensures FindsBetter(site, s.active, k) && Checked(site, s, k).active != Current(site, s.active, k) ==>
              NewStreak(site, s.active, s.streak, k) >= HYSTERESIS && Checked(site, s, k).active == Best(site, k)
  {
    hide LowestOther, Reinstatable, Due, Healthy, Cheapest, Preferred;
  }

  /** The counter is the length of the current streak, in every run. */
  lemma {:induction false} CounterIsTheStreak(site: Site, profiles: map<string, Profile>, checks: seq<Check>)
    ensures Run(site, Booted(profiles), checks).streak == StreakOf(Log(site, Booted(profiles), checks))
    decreases |checks|
  {
    if checks != [] {
      var before := checks[..|checks| - 1];
      CounterIsTheStreak(site, profiles, before);
      var log := Log(site, Booted(profiles), checks);
      assert log[..|log| - 1] == Log(site, Booted(profiles), before);
      CheckedStreak(site, Run(site, Booted(profiles), before), checks[|checks| - 1]);
    }
  }

  lemma {:induction false} StreakMeans(log: seq<Observation>, n: nat)
    requires StreakOf(log) >= n
    ensures n <= |log| && forall i :: |log| - n <= i < |log| ==> log[i].better
  {
    if n > 0 {
      StreakMeans(log[..|log| - 1], n - 1);
      forall i | |log| - n <= i < |log| ensures log[i].better {
        if i < |log| - 1 { assert log[..|log| - 1][i] == log[i]; }
      }
    }
  }

  /** The latest check gives up a healthy interface. */
  predicate Preempts(log: seq<Observation>) {
    log != [] && var last := log[|log| - 1]; last.better && last.activeAfter != last.current
  }

  /** A healthy interface is preempted only when the last three checks each found a better one. */
  lemma PreemptionTakesThreeChecks(site: Site, profiles: map<string, Profile>, checks: seq<Check>)
    requires Preempts(Log(site, Booted(profiles), checks))
    ensures var log := Log(site, Booted(profiles), checks);
            && |log| >= 3 && log[|log| - 1].activeAfter == log[|log| - 1].preferred
            && forall i :: |log| - 3 <= i < |log| ==> log[i].better
  {
    hide Checked, FindsBetter, Best, Current;
    var before := checks[..|checks| - 1];
    CheckedStreak(site, Run(site, Booted(profiles), before), checks[|checks| - 1]);
    CounterIsTheStreak(site, profiles, checks);
    StreakMeans(Log(site, Booted(profiles), checks), 3);
  }

  // ---------------------------------------------------------------- two interfaces, and more

  /** The log speaks about interfaces of the site. */
  lemma {:induction false} LogIsAboutTheSite(site: Site, profiles: map<string, Profile>, checks: seq<Check>, n: nat)
    requires ValidSite(site) && n < |checks|
    requires Log(site, Booted(profiles), checks)[n].better
    ensures var o := Log(site, Booted(profiles), checks)[n];
            && o.current in site.interfaces && o.preferred in site.interfaces && o.current != o.preferred
            && o.preferred == Best(site, checks[n]) && Healthy(site, checks[n], o.current)
    decreases |checks|
  {
    hide Checked, Current, Preferred, Healthy;
    var before := checks[..|checks| - 1];
    if n < |before| {
      assert Log(site, Booted(profiles), checks)[n] == Log(site, Booted(profiles), before)[n];
      LogIsAboutTheSite(site, profiles, before, n);
    } else {
      PreferredIsFirstHealthy(site, checks[n], site.interfaces);
    }
  }

  /** An interface that a check can find to be an uplink: no other role is configured for it. */
  predicate CanBeUplink(site: Site, i: string) {
    i in site.interfaces && (i in site.roles ==> site.roles[i] in {"", "uplink"})
  }

  /** Positions, in order of preference, of three interfaces that can all be uplinks. */
  predicate ThreeUplinks(site: Site, a: nat, b: nat, c: nat) {
    && a < b < c < |site.interfaces|
    && CanBeUplink(site, site.interfaces[a]) && CanBeUplink(site, site.interfaces[b]) && CanBeUplink(site, site.interfaces[c])
  }

  /** What the watchdog promises: an interface that preempts a healthy one was healthy in the last three checks. */
  ghost predicate ProvesItself(site: Site, profiles: map<string, Profile>, checks: seq<Check>) {
    var log := Log(site, Booted(profiles), checks);
    Preempts(log) ==>
      && |log| >= 3
      && forall n :: |log| - 3 <= n < |log| ==> Healthy(site, checks[n], log[|log| - 1].preferred)
  }

  ghost predicate PromiseHolds(site: Site) {
    forall profiles, checks :: ProvesItself(site, profiles, checks)
  }

  /** The preferred interface stands in front of every healthy one. */
  lemma {:induction false} PreferredComesFirst(site: Site, k: Check, interfaces: seq<string>, y: nat) returns (p: nat)
    requires y < |interfaces| && Healthy(site, k, interfaces[y])
    ensures p <= y && interfaces[p] == Preferred(site, k, interfaces) && Healthy(site, k, interfaces[p])
  {
    if Healthy(site, k, interfaces[0]) {
      p := 0;
    } else {
      assert interfaces[1..][y - 1] == interfaces[y];
      p := PreferredComesFirst(site, k, interfaces[1..], y - 1);
      p := p + 1;
    }
  }

  /** Positions of the preferred interface and of the one in use in a check that found a better one. */
  lemma Positions(site: Site, profiles: map<string, Profile>, checks: seq<Check>, n: nat) returns (p: nat, c: nat)
    requires ValidSite(site) && n < |checks| && Log(site, Booted(profiles), checks)[n].better
    ensures p < c < |site.interfaces|
    ensures CanBeUplink(site, site.interfaces[p]) && CanBeUplink(site, site.interfaces[c])
    ensures Log(site, Booted(profiles), checks)[n].preferred == site.interfaces[p]
    ensures Healthy(site, checks[n], site.interfaces[p])
  {
    hide Log, Preferred;
    LogIsAboutTheSite(site, profiles, checks, n);
    var o := Log(site, Booted(profiles), checks)[n];
    c :| 0 <= c < |site.interfaces| && site.interfaces[c] == o.current;
    p := PreferredComesFirst(site, checks[n], site.interfaces, c);
  }

  /** With at most two possible uplinks there is only one pair of them. */
  lemma OnlyPair(site: Site, p: nat, c: nat, q: nat, d: nat)
    requires p < c < |site.interfaces| && q < d < |site.interfaces|
    requires CanBeUplink(site, site.interfaces[p]) && CanBeUplink(site, site.interfaces[c])
    requires CanBeUplink(site, site.interfaces[q]) && CanBeUplink(site, site.interfaces[d])
    ensures (p == q && c == d) || exists x, y, z :: ThreeUplinks(site, x, y, z)
  {
    hide CanBeUplink;
    assert p < c < d ==> ThreeUplinks(site, p, c, d);
    assert p < d < c ==> ThreeUplinks(site, p, d, c);
    assert d < p < c ==> ThreeUplinks(site, d, p, c);
    assert p < c < q ==> ThreeUplinks(site, p, c, q);
    assert p < q < c ==> ThreeUplinks(site, p, q, c);
    assert q < p < c ==> ThreeUplinks(site, q, p, c);
  }

  /** With at most two possible uplinks, the three checks before a preemption all preferred the same healthy primary. */
  lemma TwoUplinksProveThePrimary(site: Site, profiles: map<string, Profile>, checks: seq<Check>)
    requires ValidSite(site) && !exists a, b, c :: ThreeUplinks(site, a, b, c)
    ensures ProvesItself(site, profiles, checks)
  {
    hide Log, Healthy, CanBeUplink;
    var log := Log(site, Booted(profiles), checks);
    if Preempts(log) {
      PreemptionTakesThreeChecks(site, profiles, checks);
      var p, c := Positions(site, profiles, checks, |log| - 1);
      forall n | |log| - 3 <= n < |log| ensures Healthy(site, checks[n], log[|log| - 1].preferred) {
        var q, d := Positions(site, profiles, checks, n);
        OnlyPair(site, p, c, q, d);
      }
    }
  }

  /** Only the two named uplinks have a route; both answer, and the first one has the better metric. */
  function Duel(better: string, worse: string): Check {
    Check(map[better := 1, worse := 2], {better, worse}, {better, worse}, {}, false, {})
  }

  function Alone(i: string): Check { Check(map[i := 1], {i}, {i}, {}, false, {}) }

  lemma {:induction false} PreferredAt(site: Site, k: Check, interfaces: seq<string>, n: nat)
    requires n < |interfaces| && Healthy(site, k, interfaces[n])
    requires forall i :: 0 <= i < n ==> !Healthy(site, k, interfaces[i])
    ensures Preferred(site, k, interfaces) == interfaces[n]
  {
    if n > 0 {
      assert interfaces[1..][n - 1] == interfaces[n];
      PreferredAt(site, k, interfaces[1..], n - 1);
    }
  }

  lemma DuelIsBetweenTwo(site: Site, x: nat, y: nat, i: string)
    requires x < |site.interfaces| && y < |site.interfaces|
    requires CanBeUplink(site, site.interfaces[x]) && CanBeUplink(site, site.interfaces[y])
    ensures Healthy(site, Duel(site.interfaces[x], site.interfaces[y]), i) <==> i in {site.interfaces[x], site.interfaces[y]}
    ensures Routed(site, Duel(site.interfaces[x], site.interfaces[y]), i) <==> i in {site.interfaces[x], site.interfaces[y]}
  {
  }

  lemma DuelSelects(site: Site, s: State, x: nat, y: nat)
    requires ValidSite(site) && x < y < |site.interfaces| && s.active == site.interfaces[y]
    requires CanBeUplink(site, site.interfaces[x]) && CanBeUplink(site, site.interfaces[y])
    ensures var better, worse := site.interfaces[x], site.interfaces[y];
            var k := Duel(better, worse);
            && Best(site, k) == better && FindsBetter(site, s.active, k)
            && !NeedsMetric(site, k, better)
  {
    var better, worse := site.interfaces[x], site.interfaces[y];
    var k := Duel(better, worse);
    forall i ensures Healthy(site, k, i) <==> i in {better, worse} { DuelIsBetweenTwo(site, x, y, i); }
    hide Healthy;
    PreferredAt(site, k, site.interfaces, x);
    LowestOtherIsLowest(site, k, site.interfaces, better);
    DuelIsBetweenTwo(site, x, y, worse);
    forall i ensures Routed(site, k, i) <==> i in {better, worse} { DuelIsBetweenTwo(site, x, y, i); }
  }

  /** With `worse` in use, the duel counts towards `better` and is decided by the third count. */
  lemma DuelStep(site: Site, s: State, x: nat, y: nat)
    requires ValidSite(site) && s.originals == map[]
    requires x < y < |site.interfaces| && s.active == site.interfaces[y]
    requires CanBeUplink(site, site.interfaces[x]) && CanBeUplink(site, site.interfaces[y])
    ensures var better, worse := site.interfaces[x], site.interfaces[y];
            var k := Duel(better, worse);
            && Observe(site, s, k).better && Observe(site, s, k).preferred == better && Observe(site, s, k).current == worse
            && Checked(site, s, k) ==
               s.(streak := s.streak + 1, active := if s.streak + 1 >= HYSTERESIS then better else worse, writes := {})
  {
    hide Healthy, Preferred, Cheapest, NeedsMetric, PutAllBack;
    var better, worse := site.interfaces[x], site.interfaces[y];
    var k := Duel(better, worse);
    DuelSelects(site, s, x, y);
    var t := Selected(site, s, k);
    assert t == s.(streak := s.streak + 1, active := if s.streak + 1 >= HYSTERESIS then better else worse, writes := {});
    assert DueBack(site, t, k) == {};
    PutNothingBack(t);
  }

  lemma AloneStep(site: Site, profiles: map<string, Profile>, c: nat)
    requires ValidSite(site) && c < |site.interfaces| && CanBeUplink(site, site.interfaces[c])
    ensures Checked(site, Booted(profiles), Alone(site.interfaces[c])) == Booted(profiles).(active := site.interfaces[c])
  {
    hide PutAllBack;
    var i := site.interfaces[c];
    var k := Alone(i);
    var s := Booted(profiles);
    CheapestIsRouted(site, k, site.interfaces);
    PreferredIsFirstHealthy(site, k, site.interfaces);
    assert Healthy(site, k, i);
    var t := s.(active := i);
    assert Selected(site, s, k) == t;
    assert DueBack(site, t, k) == {};
    PutNothingBack(t);
  }

  function BackupRecovers(site: Site, b: nat, c: nat): seq<Check>
    requires b < c < |site.interfaces|
  {
    var duel := Duel(site.interfaces[b], site.interfaces[c]);
    [] + [Alone(site.interfaces[c])] + [duel] + [duel] + [duel]
  }

  function Cascade(site: Site, a: nat, b: nat, c: nat): seq<Check>
    requires a < b < c < |site.interfaces|
  {
    BackupRecovers(site, b, c) + [Duel(site.interfaces[a], site.interfaces[b])]
  }

  lemma RunOne(site: Site, s: State, checks: seq<Check>, k: Check)
    ensures Run(site, s, checks + [k]) == Checked(site, Run(site, s, checks), k)
    ensures Log(site, s, checks + [k]) == Log(site, s, checks) + [Observe(site, Run(site, s, checks), k)]
  {
    hide Checked, Observe;
    var all := checks + [k];
    assert all[..|all| - 1] == checks && all[|all| - 1] == k;
  }

  lemma BackupTakesOver(site: Site, profiles: map<string, Profile>, b: nat, c: nat)
    requires ValidSite(site) && b < c < |site.interfaces|
    requires CanBeUplink(site, site.interfaces[b]) && CanBeUplink(site, site.interfaces[c])
    ensures Run(site, Booted(profiles), BackupRecovers(site, b, c))
         == Booted(profiles).(active := site.interfaces[b], streak := 3)
  {
    hide Checked, Observe, Healthy, Alone, Duel, CanBeUplink;
    var s0 := Booted(profiles);
    var k1, k2 := Alone(site.interfaces[c]), Duel(site.interfaces[b], site.interfaces[c]);
    RunOne(site, s0, [], k1);
    RunOne(site, s0, [] + [k1], k2);
    RunOne(site, s0, [] + [k1] + [k2], k2);
    RunOne(site, s0, [] + [k1] + [k2] + [k2], k2);
    assert Run(site, s0, []) == s0;
    AloneStep(site, profiles, c);
    var s1 := s0.(active := site.interfaces[c]);
    DuelStep(site, s1, b, c);
    DuelStep(site, s1.(streak := 1), b, c);
    DuelStep(site, s1.(streak := 2), b, c);
  }

  /** In the first four checks the primary has no route. */
  lemma PrimaryIsAbsent(site: Site, a: nat, b: nat, c: nat, n: nat)
    requires ValidSite(site) && a < b < c < |site.interfaces| && n < 4
    ensures !Healthy(site, Cascade(site, a, b, c)[n], site.interfaces[a])
  {
    assert site.interfaces[a] !in {site.interfaces[b], site.interfaces[c]};
    assert site.interfaces[a] !in Cascade(site, a, b, c)[n].routes;
  }

  /**
   With three possible uplinks or more, whatever roles the other interfaces have, the
   streak carries over a switch: an interface that was never healthy before preempts a
   healthy one after a single check.
   */
  lemma ThreeUplinksCascade(site: Site, profiles: map<string, Profile>, a: nat, b: nat, c: nat)
    requires ValidSite(site) && ThreeUplinks(site, a, b, c)
    ensures var log := Log(site, Booted(profiles), Cascade(site, a, b, c));
            && |log| == 5 && Preempts(log) && log[4].preferred == log[4].activeAfter == site.interfaces[a]
            && forall i :: 0 <= i < 4 ==> !Healthy(site, Cascade(site, a, b, c)[i], site.interfaces[a])
  {
    hide Checked, Run, Log, Healthy, CanBeUplink;
    var s := Booted(profiles);
    forall i | 0 <= i < 4 ensures !Healthy(site, Cascade(site, a, b, c)[i], site.interfaces[a]) {
      PrimaryIsAbsent(site, a, b, c, i);
    }
    BackupTakesOver(site, profiles, b, c);
    RunOne(site, s, BackupRecovers(site, b, c), Duel(site.interfaces[a], site.interfaces[b]));
    DuelStep(site, s.(active := site.interfaces[b], streak := 3), a, b);
  }

  /**
   Every run of a site keeps the promise that a primary recovers for three checks before
   it preempts a healthy backup if and only if at most two interfaces can be uplinks.
   */
  lemma PromiseHoldsExactly(site: Site)
    requires ValidSite(site)
    ensures PromiseHolds(site) <==> !exists a, b, c :: ThreeUplinks(site, a, b, c)
  {
    hide Log, Healthy, CanBeUplink;
    if a, b, c :| ThreeUplinks(site, a, b, c) {
      ThreeUplinksCascade(site, map[], a, b, c);
      var checks := Cascade(site, a, b, c);
      assert !Healthy(site, checks[2], Log(site, Booted(map[]), checks)[4].preferred);
      assert !ProvesItself(site, map[], checks);
    } else {
      forall profiles, checks ensures ProvesItself(site, profiles, checks) {
        TwoUplinksProveThePrimary(site, profiles, checks);
      }
    }
  }

  // ---------------------------------------------------------------- metrics run out

  /** The interface in use keeps its route, some uplink is healthy, and routes follow the profiles. */
  ghost predicate Steady(site: Site, auto: Automatic, s: State, k: Check) {
    && Agrees(site, auto, s, k) && Best(site, k) != ""
    && Current(site, s.active, k) in site.interfaces && Routed(site, k, Current(site, s.active, k))
    && forall i :: i in k.routes ==> k.routes[i] >= 0
  }

  ghost predicate SteadyRun(site: Site, auto: Automatic, profiles: map<string, Profile>, checks: seq<Check>)
    decreases |checks|
  {
    checks == [] ||
    var before := checks[..|checks| - 1];
    SteadyRun(site, auto, profiles, before) && Steady(site, auto, Run(site, Booted(profiles), before), checks[|checks| - 1])
  }

  /** What a check does to the interface in use: it stays with its metric, or one with a smaller metric follows. */
  lemma FailoverCosts(site: Site, auto: Automatic, s: State, k: Check)
    requires ValidSite(site) && (s.active == "" || s.active in site.interfaces)
    requires Steady(site, auto, s, k) && OriginalsAbove(auto, s)
    ensures var current := Current(site, s.active, k);
            var t := Checked(site, s, k);
            && current in s.profiles && t.active != "" && t.active in t.profiles
            && 0 <= Effective(auto, t.active, t.profiles[t.active])
            && t.failovers - s.failovers <=
               Effective(auto, current, s.profiles[current]) - Effective(auto, t.active, t.profiles[t.active])
  {
    hide NeedsMetric, DueBack, Healthy, Cheapest, Preferred, LowestOther, NewStreak, PutAllBack, Selected;
    var current := Current(site, s.active, k);
    var t := Selected(site, s, k);
    CandidateIsHealthy(site, s.active, s.streak, k);
    PreferredIsFirstHealthy(site, k, site.interfaces);
    CheckSelectsAHealthyUplink(site, s, k);
    SelectionLowers(site, auto, s, k);
    RestoringRaises(site, auto, t, k);
    if t.active != current {
      SelectionWins(site, auto, s, k, current);
    } else {
      StayingKeepsTheMetric(site, s, k);
    }
  }

  lemma StayingKeepsTheMetric(site: Site, s: State, k: Check)
    requires Selected(site, s, k).active == Current(site, s.active, k)
    ensures Selected(site, s, k).profiles == s.profiles && Selected(site, s, k).failovers == s.failovers
  {
    hide NeedsMetric, Current, NewStreak, LowestOther, Candidate, MetricChanges;
  }

  /**
   While some uplink answers and routes stay in place, the failovers of a whole run are
   bounded by the metric of the interface in use at first: each one takes at least one
   from the metric of the interface in use, and nothing gives it back.
   */
  lemma {:induction false} FailoversAreBounded(site: Site, auto: Automatic, profiles: map<string, Profile>, checks: seq<Check>)
    requires ValidSite(site) && checks != [] && SteadyRun(site, auto, profiles, checks)
    ensures var first := Current(site, "", checks[0]);
            var t := Run(site, Booted(profiles), checks);
            && first in profiles && t.active in t.profiles && t.active != "" && OriginalsAbove(auto, t)
            && 0 <= Effective(auto, t.active, t.profiles[t.active]) <= Effective(auto, first, profiles[first]) - t.failovers
    decreases |checks|
  {
    hide Checked, Steady, Current;
    var before := checks[..|checks| - 1];
    var s, k := Run(site, Booted(profiles), before), checks[|checks| - 1];
    assert SteadyRun(site, auto, profiles, before) && Steady(site, auto, s, k);
    if before == [] {
      assert s == Booted(profiles) && OriginalsAbove(auto, s);
    } else {
      assert before[0] == checks[0];
      FailoversAreBounded(site, auto, profiles, before);
      CurrentIsActive(site, s, k);
    }
    ActiveBelongsToTheSite(site, profiles, before);
    SteadyAgrees(site, auto, s, k);
    CheckKeepsOriginalsAbove(site, auto, s, k);
    FailoverCosts(site, auto, s, k);
  }

  lemma CurrentIsActive(site: Site, s: State, k: Check)
    ensures s.active != "" ==> Current(site, s.active, k) == s.active
  {
  }

  lemma SteadyAgrees(site: Site, auto: Automatic, s: State, k: Check)
    requires Steady(site, auto, s, k)
    ensures Agrees(site, auto, s, k)
  {
  }

  /** Once the interface in use has metric zero, it stays in use although it is unhealthy and another one is healthy. */
  lemma ExhaustedMetricBlocksTheSwitch(site: Site, s: State, k: Check)
    requires ValidSite(site) && s.active in site.interfaces && Routed(site, k, s.active) && k.routes[s.active] == 0
    requires (forall i :: i in k.routes ==> k.routes[i] >= 0) && !Healthy(site, k, s.active) && Best(site, k) != ""
    ensures Checked(site, s, k).active == s.active && Checked(site, s, k).failovers == s.failovers
    ensures MetricRefused(site, s, k)
  {
    hide Healthy, Preferred, Cheapest, LowestOther;
    CandidateIsHealthy(site, s.active, s.streak, k);
    PreferredIsFirstHealthy(site, k, site.interfaces);
    LowestOtherIsLowest(site, k, site.interfaces, Best(site, k));
    HealthyIsRouted(site, k, Best(site, k));
    assert Checked(site, s, k).active == Selected(site, s, k).active;
  }

  lemma HealthyIsRouted(site: Site, k: Check, i: string)
    requires Healthy(site, k, i)
    ensures Routed(site, k, i)
  {
  }

  /** Both uplinks have a route; only `to` answers. */
  function Flap(from: string, to: string, fromMetric: int, toMetric: int): Check {
    Check(map[from := fromMetric, to := toMetric], {from, to}, {to}, {from, to}, true, {from, to})
  }

  /** The state, up to the history of writes, after `n` failovers that end with `x` in use. */
  function Flapped(start: map<string, Profile>, x: string, n: nat, metric: int): State
    requires x in start
  {
    if n == 0 then Booted(start)
    else State(x, 0, n, map[x := start[x]], start[x := start[x].(metric := metric)], {})
  }

  /** The two uplinks of a flapping site, the first with the smaller metric at the start. */
  ghost predicate Flappable(site: Site, auto: Automatic, start: map<string, Profile>, a: string, b: string) {
    && ValidSite(site) && site.mayChangeMetrics
    && CanBeUplink(site, a) && CanBeUplink(site, b)
    && a in start && b in start && 0 <= Effective(auto, a, start[a]) < Effective(auto, b, start[b])
  }

  function Winner(a: string, b: string, n: nat): string { if n % 2 == 0 then a else b }

  function FlapCheck(auto: Automatic, start: map<string, Profile>, a: string, b: string, n: nat): Check
    requires a in start && b in start
  {
    var x, y := Winner(a, b, n), Winner(a, b, n + 1);
    Flap(x, y, Effective(auto, a, start[a]) - n, Effective(auto, y, start[y]))
  }

  function Flaps(auto: Automatic, start: map<string, Profile>, a: string, b: string, n: nat): (checks: seq<Check>)
    requires a in start && b in start
    ensures |checks| == n
  {
    if n == 0 then [] else Flaps(auto, start, a, b, n - 1) + [FlapCheck(auto, start, a, b, n - 1)]
  }

  /** What the check makes of the two uplinks. */
  lemma FlapIsSeen(site: Site, auto: Automatic, start: map<string, Profile>, a: string, b: string, n: nat, active: string)
    requires Flappable(site, auto, start, a, b) && n <= Effective(auto, a, start[a])
    requires active == if n == 0 then "" else Winner(a, b, n)
    ensures var x, y := Winner(a, b, n), Winner(a, b, n + 1);
            var k := FlapCheck(auto, start, a, b, n);
            && Current(site, active, k) == x && Best(site, k) == y && !Healthy(site, k, x) && Healthy(site, k, y)
            && LowestOther(site, k, site.interfaces, y) == Some(Effective(auto, a, start[a]) - n) && NeedsMetric(site, k, y)
            && Routed(site, k, x)
  {
    hide Preferred, LowestOther, Cheapest;
    var x, y := Winner(a, b, n), Winner(a, b, n + 1);
    var k := FlapCheck(auto, start, a, b, n);
    assert forall i :: Routed(site, k, i) ==> i in {x, y};
    assert Routed(site, k, x) && Routed(site, k, y);
    PreferredIsFirstHealthy(site, k, site.interfaces);
    CheapestIsRouted(site, k, site.interfaces);
    LowestOtherIsLowest(site, k, site.interfaces, y);
  }

  lemma FlapSwitches(site: Site, auto: Automatic, start: map<string, Profile>, a: string, b: string, n: nat, s: State)
    requires Flappable(site, auto, start, a, b) && n < Effective(auto, a, start[a])
    requires s.(writes := {}) == Flapped(start, Winner(a, b, n), n, Effective(auto, a, start[a]) - n)
    ensures var x, y := Winner(a, b, n), Winner(a, b, n + 1);
            var t := Selected(site, s, FlapCheck(auto, start, a, b, n));
            && t.active == y && t.streak == 0 && t.failovers == n + 1
            && t.originals == s.originals[y := start[y]]
            && t.profiles == s.profiles[y := start[y].(metric := Effective(auto, a, start[a]) - n - 1)]
  {
    hide Healthy, Preferred, LowestOther, Cheapest, Best, Current;
    FlapIsSeen(site, auto, start, a, b, n, s.active);
  }

  /** What the check puts back: the metric of the uplink just left, if it had been changed. */
  lemma FlapPutsBack(site: Site, auto: Automatic, start: map<string, Profile>, a: string, b: string, n: nat, t: State)
    requires Flappable(site, auto, start, a, b)
    requires t.active == Winner(a, b, n + 1)
    requires var x, y := Winner(a, b, n), Winner(a, b, n + 1);
             && t.originals == (if n == 0 then map[] else map[x := start[x]])[y := start[y]]
             && t.profiles.Keys == start.Keys && t.profiles[x].uuid == start[x].uuid
    ensures DueBack(site, t, FlapCheck(auto, start, a, b, n)) == if n == 0 then {} else {Winner(a, b, n)}
  {
  }

  lemma FlapRestores(start: map<string, Profile>, x: string, y: string, n: nat, t: State, metric: int)
    requires x in start && y in start && x != y
    requires t.originals == (if n == 0 then map[] else map[x := start[x]])[y := start[y]]
    requires n == 0 ==> t.profiles == start[y := start[y].(metric := metric)]
    requires n > 0 ==> exists m :: t.profiles == start[x := start[x].(metric := m)][y := start[y].(metric := metric)]
    ensures var u := PutAllBack(t, if n == 0 then {} else {x});
            u.originals == map[y := start[y]] && u.profiles == start[y := start[y].(metric := metric)]
  {
    hide PutAllBack;
    var u := PutAllBack(t, if n == 0 then {} else {x});
    assert u.originals == map[y := start[y]];
    assert u.profiles == start[y := start[y].(metric := metric)];
  }

  lemma FlapStep(site: Site, auto: Automatic, start: map<string, Profile>, a: string, b: string, n: nat, s: State)
    requires Flappable(site, auto, start, a, b) && n < Effective(auto, a, start[a])
    requires s.(writes := {}) == Flapped(start, Winner(a, b, n), n, Effective(auto, a, start[a]) - n)
    ensures Checked(site, s, FlapCheck(auto, start, a, b, n)).(writes := {})
         == Flapped(start, Winner(a, b, n + 1), n + 1, Effective(auto, a, start[a]) - (n + 1))
  {
    hide Selected, DueBack, PutAllBack, CanBeUplink, ValidSite, FlapCheck;
    var x, y := Winner(a, b, n), Winner(a, b, n + 1);
    FlapSwitches(site, auto, start, a, b, n, s);
    var t := Selected(site, s, FlapCheck(auto, start, a, b, n));
    FlapPutsBack(site, auto, start, a, b, n, t);
    FlapRestores(start, x, y, n, t, Effective(auto, a, start[a]) - n - 1);
  }

  lemma NoFlaps(site: Site, auto: Automatic, start: map<string, Profile>, a: string, b: string)
    requires a in start && b in start
    ensures Run(site, Booted(start), Flaps(auto, start, a, b, 0)).(writes := {}) == Flapped(start, a, 0, Effective(auto, a, start[a]))
  {
  }

  lemma RunFlaps(site: Site, auto: Automatic, start: map<string, Profile>, a: string, b: string, n: nat)
    requires a in start && b in start && n > 0
    ensures Run(site, Booted(start), Flaps(auto, start, a, b, n))
         == Checked(site, Run(site, Booted(start), Flaps(auto, start, a, b, n - 1)), FlapCheck(auto, start, a, b, n - 1))
  {
    hide Checked, FlapCheck, Run, Log, Observe;
    RunOne(site, Booted(start), Flaps(auto, start, a, b, n - 1), FlapCheck(auto, start, a, b, n - 1));
  }

  lemma {:induction false} FlapRun(site: Site, auto: Automatic, start: map<string, Profile>, a: string, b: string, n: nat)
    requires Flappable(site, auto, start, a, b) && n <= Effective(auto, a, start[a])
    ensures Run(site, Booted(start), Flaps(auto, start, a, b, n)).(writes := {})
         == Flapped(start, Winner(a, b, n), n, Effective(auto, a, start[a]) - n)
  {
    hide Checked, ValidSite, CanBeUplink, FlapCheck, Flapped, Run, Flaps;
    if n == 0 {
      NoFlaps(site, auto, start, a, b);
    } else {
      FlapRun(site, auto, start, a, b, n - 1);
      RunFlaps(site, auto, start, a, b, n);
      FlapStep(site, auto, start, a, b, n - 1, Run(site, Booted(start), Flaps(auto, start, a, b, n - 1)));
    }
  }

  /**
   The bound is reached: two uplinks that lose their connection in turn fail over exactly
   as often as the smaller start metric says, and then the watchdog is stuck on a dead
   uplink beside a healthy one, although every helper call would succeed.
   */
  lemma FlappingExhaustsTheMetric(site: Site, auto: Automatic, start: map<string, Profile>, a: string, b: string)
    requires Flappable(site, auto, start, a, b) && Effective(auto, a, start[a]) > 0
    ensures var m := Effective(auto, a, start[a]);
            var s := Run(site, Booted(start), Flaps(auto, start, a, b, m));
            var k := FlapCheck(auto, start, a, b, m);
            && s.failovers == m && s.active in s.profiles && s.profiles[s.active].metric == 0
            && Checked(site, s, k).active == s.active && !Healthy(site, k, s.active) && Best(site, k) != ""
            && k.changeOk && k.known == {a, b}
  {
    hide Checked, Healthy, Best;
    var m := Effective(auto, a, start[a]);
    FlapRun(site, auto, start, a, b, m);
    FlapIsSeen(site, auto, start, a, b, m, Winner(a, b, m));
    ExhaustedMetricBlocksTheSwitch(site, Run(site, Booted(start), Flaps(auto, start, a, b, m)), FlapCheck(auto, start, a, b, m));
  }

  // ---------------------------------------------------------------- restoration

  /** Each recorded original is the start value, and every other profile still has it. */
  ghost predicate Remembered(s: State, start: map<string, Profile>) {
    && s.profiles.Keys == start.Keys
    && (forall i :: i in start ==> s.profiles[i].uuid == start[i].uuid)
    && (forall i :: i in s.originals ==> i in start && s.originals[i] == start[i])
    && (forall i :: i in start && i !in s.originals ==> s.profiles[i] == start[i])
  }

  lemma PutAllBackRemembers(s: State, back: set<string>, start: map<string, Profile>)
    requires Remembered(s, start) && back <= s.originals.Keys && back <= s.profiles.Keys
    ensures Remembered(PutAllBack(s, back), start)
  {
    var t := PutAllBack(s, back);
    forall i | i in start && i !in t.originals ensures t.profiles[i] == start[i] {
      assert i in back || i !in s.originals;
    }
  }

  lemma CheckRemembers(site: Site, s: State, k: Check, start: map<string, Profile>)
    requires Remembered(s, start)
    ensures Remembered(Checked(site, s, k), start)
  {
    hide Candidate, Current, NewStreak, LowestOther, NeedsMetric, Due;
    var t := Selected(site, s, k);
    assert Remembered(t, start);
    var back := DueBack(site, t, k);
    PutAllBackRemembers(t, back, start);
  }

  lemma {:induction false} RunRemembers(site: Site, start: map<string, Profile>, checks: seq<Check>)
    ensures Remembered(Run(site, Booted(start), checks), start)
    decreases |checks|
  {
    if checks != [] {
      var before := checks[..|checks| - 1];
      RunRemembers(site, start, before);
      CheckRemembers(site, Run(site, Booted(start), before), checks[|checks| - 1], start);
    }
  }

  lemma PassiveCheck(site: Site, s: State, k: Check)
    requires !site.mayChangeMetrics && s.originals == map[]
    ensures var t := Checked(site, s, k);
            t.originals == map[] && t.profiles == s.profiles && t.writes == {} && t.failovers == s.failovers
  {
    hide Candidate, Current, NewStreak, LowestOther, NeedsMetric, PutAllBack;
    var t := Selected(site, s, k);
    assert t.originals == map[] && t.profiles == s.profiles && t.writes == {};
    assert DueBack(site, t, k) == {};
    PutNothingBack(t);
  }

  /** The profile found is the one that was recorded, and the helper accepts its metric. */
  ghost predicate CanBePutBack(s: State, k: Check, i: string) {
    i in s.profiles && i in s.originals && i in k.known && i in k.restoreOk && s.profiles[i].uuid == s.originals[i].uuid
  }

  /** A stop puts back exactly the recorded metrics whose own profile is still there, and keeps the others recorded. */
  lemma StopRestoresExactly(site: Site, s: State, k: Check, i: string)
    requires i in s.profiles
    ensures var t := Stopped(site, s, k);
            var back := site.mayChangeMetrics && CanBePutBack(s, k, i);
            && t.profiles.Keys == s.profiles.Keys
            && t.profiles[i] == (if back then s.profiles[i].(metric := s.originals[i].metric) else s.profiles[i])
            && (i in t.originals <==> i in s.originals && !back)
  {
    hide PutAllBack;
  }

  /** A check puts back exactly those of them that act as uplinks of the site and are not in use afterwards. */
  lemma CheckRestoresExactly(site: Site, s: State, k: Check, i: string)
    requires i in s.profiles
    ensures var t := Checked(site, s, k);
            i in s.originals && i != t.active ==>
              var back := CanBePutBack(s, k, i) && i in site.interfaces && ActsAsUplink(site, k, i);
              && i in t.profiles
              && t.profiles[i] == (if back then s.profiles[i].(metric := s.originals[i].metric) else s.profiles[i])
              && (i in t.originals <==> !back)
  {
    hide Candidate, Current, NewStreak, NeedsMetric, LowestOther, Role, ActsAsUplink, PutAllBack;
    HealthyExactly(site, k, i);
    var t := Selected(site, s, k);
    assert t.active == Checked(site, s, k).active;
    assert i != t.active ==> t.profiles[i] == s.profiles[i] && (i in t.originals <==> i in s.originals);
  }

  /** Unless the mode allows it, no run of checks changes a metric. */
  lemma {:induction false} PassiveRunsChangeNothing(site: Site, start: map<string, Profile>, checks: seq<Check>)
    requires !site.mayChangeMetrics
    ensures var s := Run(site, Booted(start), checks); s.profiles == start && s.originals == map[] && s.writes == {}
    decreases |checks|
  {
    hide Checked;
    if checks != [] {
      var before := checks[..|checks| - 1];
      PassiveRunsChangeNothing(site, start, before);
      PassiveCheck(site, Run(site, Booted(start), before), checks[|checks| - 1]);
    }
  }

  /**
   After any run of checks, a stop whose lookups and helper calls all succeed returns
   every profile to the metric it had when the watchdog started.
   */
  lemma StopRestoresEverything(site: Site, start: map<string, Profile>, checks: seq<Check>, k: Check)
    requires site.mayChangeMetrics && start.Keys <= k.known && start.Keys <= k.restoreOk
    ensures var s := Stopped(site, Run(site, Booted(start), checks), k);
            s.profiles == start && s.originals == map[]
  {
    hide Run, PutAllBack, Remembered;
    RunRemembers(site, start, checks);
    var s := Run(site, Booted(start), checks);
    EverythingIsBack(s, k, start);
    PutAllBackRemembers(s, s.originals.Keys, start);
    NothingRecorded(PutAllBack(s, s.originals.Keys), start);
  }

  lemma EverythingIsBack(s: State, k: Check, start: map<string, Profile>)
    requires Remembered(s, start) && start.Keys <= k.known && start.Keys <= k.restoreOk
    ensures AllBack(s, k) == s.originals.Keys && s.originals.Keys <= s.profiles.Keys
  {
  }

  lemma NothingRecorded(s: State, start: map<string, Profile>)
    requires Remembered(s, start) && s.originals == map[]
    ensures s.profiles == start
  {
  }
}
