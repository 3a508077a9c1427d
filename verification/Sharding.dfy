/** All envelope processors together: every envelope goes through exactly one of them, and through exactly one tick. */
module Sharding {
  import opened EnvelopeProcessors

  /** A processor's channel, its current window, and the windows its ticks have closed. */
  datatype Shard = Shard(queue: seq<Timer>, window: seq<Timer>, closed: seq<seq<Timer>>)

  datatype State = State(shards: seq<Shard>, received: seq<Timer>)

  datatype Action = Receive(t: Timer) | Process(p: nat) | Tick(p: nat)

  /** owner is the hash of an app modulo the number of processors. */
  predicate Enabled(owner: string -> nat, s: State, a: Action) {
    match a
    case Receive(t) => owner(t.app) < |s.shards|
    case Process(p) => p < |s.shards| && s.shards[p].queue != []
    case Tick(p) => p < |s.shards|
  }

  /** A processor never waits for another: each may take its next envelope, or tick, at any time. */
  lemma {:induction false} NothingBlocks(owner: string -> nat, s: State, t: Timer, p: nat)
    ensures owner(t.app) < |s.shards| ==> Enabled(owner, s, Receive(t))
    ensures p < |s.shards| ==> Enabled(owner, s, Tick(p))
    ensures p < |s.shards| && s.shards[p].queue != [] ==> Enabled(owner, s, Process(p))
  {
  }

  function Next(owner: string -> nat, s: State, a: Action): State
    requires Enabled(owner, s, a)
  {
    match a
    case Receive(t) =>
      var p := owner(t.app);
      State(s.shards[p := s.shards[p].(queue := s.shards[p].queue + [t])], s.received + [t])
    case Process(p) =>
      var h := s.shards[p];
      s.(shards := s.shards[p := h.(queue := h.queue[1..], window := h.window + [h.queue[0]])])
    case Tick(p) =>
      var h := s.shards[p];
      s.(shards := s.shards[p := h.(window := [], closed := h.closed + [h.window])])
  }

  function Flatten(windows: seq<seq<Timer>>): seq<Timer> {
    if windows == [] then [] else Flatten(windows[..|windows| - 1]) + windows[|windows| - 1]
  }

  /** The timers of the apps a processor owns, in order of arrival. */
  function RoutedTo(owner: string -> nat, timers: seq<Timer>, p: nat): seq<Timer> {
    if timers == [] then []
    else
      var r := RoutedTo(owner, timers[..|timers| - 1], p);
      if owner(timers[|timers| - 1].app) == p then r + [timers[|timers| - 1]] else r
  }

  /** All a processor has got, by the tick that closed it, the window that holds it or the channel it waits in. */
  function Held(h: Shard): seq<Timer> {
    Flatten(h.closed) + h.window + h.queue
  }

  ghost predicate Conserved(owner: string -> nat, s: State) {
    forall p :: 0 <= p < |s.shards| ==> Held(s.shards[p]) == RoutedTo(owner, s.received, p)
  }

  lemma RoutedGrows(owner: string -> nat, timers: seq<Timer>, t: Timer, p: nat)
    ensures RoutedTo(owner, timers + [t], p) == RoutedTo(owner, timers, p) + if owner(t.app) == p then [t] else []
  {
    assert (timers + [t])[..|timers|] == timers;
  }

  lemma ProcessKeepsHeld(h: Shard)
    requires h.queue != []
    ensures Held(h.(queue := h.queue[1..], window := h.window + [h.queue[0]])) == Held(h)
  {
    assert h.queue == [h.queue[0]] + h.queue[1..];
  }

  lemma TickKeepsHeld(h: Shard)
    ensures Held(h.(window := [], closed := h.closed + [h.window])) == Held(h)
  {
    assert (h.closed + [h.window])[..|h.closed|] == h.closed;
  }

  lemma NextConserves(owner: string -> nat, s: State, a: Action)
    requires Conserved(owner, s) && Enabled(owner, s, a)
    ensures Conserved(owner, Next(owner, s, a))
  {
    var n := Next(owner, s, a);
    forall p | 0 <= p < |n.shards| ensures Held(n.shards[p]) == RoutedTo(owner, n.received, p) {
      match a
      case Receive(t) =>
        RoutedGrows(owner, s.received, t, p);
        assert Held(n.shards[p]) == Held(s.shards[p]) + if owner(t.app) == p then [t] else [];
      case Process(q) =>
        ProcessKeepsHeld(s.shards[q]);
      case Tick(q) =>
        TickKeepsHeld(s.shards[q]);
    }
  }

  ghost predicate IsRun(owner: string -> nat, states: seq<State>, actions: seq<Action>) {
    && |states| == |actions| + 1
    && states[0].received == []
    && (forall p :: 0 <= p < |states[0].shards| ==> states[0].shards[p] == Shard([], [], []))
    && forall i :: 0 <= i < |actions| ==>
         Enabled(owner, states[i], actions[i]) && states[i + 1] == Next(owner, states[i], actions[i])
  }

  /**
   * For any hash and any number of processors, in every run: what a processor has closed, accumulated and still queues
   * is, in order, exactly what was received for the apps it owns.
   */
  lemma {:induction false} EveryTimerAccountedFor(
    owner: string -> nat, states: seq<State>, actions: seq<Action>, i: nat)
    requires IsRun(owner, states, actions) && i < |states|
    ensures Conserved(owner, states[i])
  {
    if i > 0 {
      EveryTimerAccountedFor(owner, states, actions, i - 1);
      NextConserves(owner, states[i - 1], actions[i - 1]);
    } else {
      assert Flatten([]) == [];
    }
  }

  /** A timer is counted by its owner as often as it was received, and by no other processor. */
  lemma {:induction false} RoutedOnce(owner: string -> nat, timers: seq<Timer>, p: nat, t: Timer)
    ensures multiset(RoutedTo(owner, timers, p))[t] == if owner(t.app) == p then multiset(timers)[t] else 0
  {
    if timers != [] {
      var n := |timers| - 1;
      RoutedOnce(owner, timers[..n], p, t);
      assert timers == timers[..n] + [timers[n]];
    }
  }

  lemma OwnTimersOnly(owner: string -> nat, s: State, p: nat, app: string)
    requires Conserved(owner, s) && p < |s.shards| && owner(app) != p
    ensures !Active(s.shards[p].window, app)
  {
    var h := s.shards[p];
    forall i | 0 <= i < |h.window| ensures h.window[i].app != app {
      var t := h.window[i];
      RoutedOnce(owner, s.received, p, t);
      assert Held(h)[|Flatten(h.closed)| + i] == t;
      assert t in multiset(Held(h));
    }
  }

  /**
   * When every processor ticks in such a state, the throughput of an app is sent if the app is monitored, and by its
   * owner alone: one zero if the app was idle there, otherwise, for each instance with a request in the window and for
   * no other, the requests per second to the nearest integer.
   */
  lemma {:induction false} ThroughputFromOwnerOnly(
    owner: string -> nat, s: State, apps: set<string>, seconds: real, p: nat, app: string, instance: int, value: int)
    requires Conserved(owner, s) && p < |s.shards| && seconds > 0.0
    ensures var w := s.shards[p].window;
            IsSent(Throughput(app, instance, value), w, apps, owner(app) == p, seconds)
            <==> app in apps && p == owner(app) &&
                 if exists i :: 0 <= i < |w| && w[i].app == app
                 then (exists i :: 0 <= i < |w| && w[i].app == app && w[i].instance == instance)
                     && value as real - 0.5 <= Count(w, app, instance) as real / seconds < value as real + 0.5
                 else instance == 0 && value == 0
  {
    var w := s.shards[p].window;
    CountedIsPresent(w, app, instance);
    if owner(app) != p {
      OwnTimersOnly(owner, s, p, app);
    }
    RateIsNearest(Count(w, app, instance), seconds, value);
    assert forall i :: 0 <= i < |w| ==> (Of(w[i], app, instance) <==> w[i].app == app && w[i].instance == instance);
  }

  /**
   * A response time is sent by the owner alone, for each instance with a request in the window: the mean of the
   * durations, in milliseconds, cut off towards zero.
   */
  lemma {:induction false} ResponseTimeFromOwnerOnly(
    owner: string -> nat, s: State, apps: set<string>, seconds: real, p: nat, app: string, instance: int, value: int)
    requires Conserved(owner, s) && p < |s.shards| && seconds > 0.0
    ensures var w := s.shards[p].window;
            var total, unit := Total(w, app, instance), 1_000_000 * Count(w, app, instance);
            IsSent(ResponseTime(app, instance, value), w, apps, owner(app) == p, seconds)
            <==> && app in apps && p == owner(app)
                 && (exists i :: 0 <= i < |w| && w[i].app == app && w[i].instance == instance)
                 && if 0 <= total then value * unit <= total < (value + 1) * unit
                    else (value - 1) * unit < total <= value * unit
  {
    var w := s.shards[p].window;
    CountedIsPresent(w, app, instance);
    if owner(app) != p {
      OwnTimersOnly(owner, s, p, app);
    }
    if Count(w, app, instance) > 0 {
      QuotientUnique(Total(w, app, instance), Count(w, app, instance) * 1_000_000, value);
    }
    assert forall i :: 0 <= i < |w| ==> (Of(w[i], app, instance) <==> w[i].app == app && w[i].instance == instance);
  }
}
