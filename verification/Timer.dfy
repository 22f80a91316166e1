/**
 * The restartable timer over setTimeout and clearTimeout, and the promise timer built on it
 * (common/lib/common-utils/src/timer.ts), as a state machine whose steps are the calls of a client, the
 * passing of time and the firing of timeouts. It implements an ideal timer that knows only the last
 * (re)start: when it was, for how long, and which handler is to run.
 */
module Timer {
  import opened EventLoop
  import opened Options

  /** Handlers and timeouts are known by number. */
  type Handler = nat

  datatype Timeout = Timeout(startTick: int, duration: int, handler: Handler)

  datatype Running = Running(
    startTick: int, duration: int, handler: Handler, timeout: nat,
    intendedDuration: int, restart: Option<Timeout>)

  /** `live` maps the timeouts that have been set and not cleared to the ticks at which they are due. */
  datatype State = State(now: int, live: map<nat, int>, nextId: nat, running: Option<Running>)

  const IDLE := State(0, map[], 0, None)

  // ---------- The operations of the timer ----------

  function Due(t: Timeout): int {
    t.startTick + t.duration
  }

  function UnderlyingDue(r: Running): int {
    r.startTick + r.duration
  }

  function Cleared(s: State): State {
    match s.running
    case None => s
    case Some(r) => s.(live := s.live - {r.timeout}, running := None)
  }

  function Armed(s: State, duration: int, handler: Handler, intendedDuration: int): State {
    var c := Cleared(s);
    c.(live := c.live[c.nextId := c.now + duration], nextId := c.nextId + 1,
       running := Some(Running(c.now, duration, handler, c.nextId, intendedDuration, None)))
  }

  function Started(s: State, ms: int, handler: Handler): State {
    Armed(s, ms, handler, ms)
  }

  /** What `restart` takes for an omitted duration and an omitted handler. */
  function EffectiveDuration(r: Running, ms: Option<int>): int {
    if ms.Some? then ms.value else r.intendedDuration
  }

  function EffectiveHandler(r: Running, handler: Option<Handler>): Handler {
    if handler.Some? then handler.value
    else if r.restart.Some? then r.restart.value.handler
    else r.handler
  }

  function Restarted(s: State, duration: int, handler: Handler): State
    requires s.running.Some?
  {
    var r := s.running.value;
    var remaining := r.duration - (s.now - r.startTick);
    if duration < remaining then Started(s, duration, handler)
    else if duration == remaining then
      s.(running := Some(r.(handler := handler, restart := None, intendedDuration := duration)))
    else s.(running := Some(r.(restart := Some(Timeout(s.now, duration, handler)))))
  }

  /** The state after a step and the handler that ran, or the failure of an assertion. */
  datatype Outcome = Done(state: State, ran: Option<Handler>) | AssertionFailed

  /** The callback of the underlying timeout: it arms the rest of a restart, or clears and runs the handler. */
  function Fired(s: State): Outcome {
    match s.running
    case None => AssertionFailed
    case Some(r) =>
      match r.restart
      case Some(t) => Done(Armed(s, t.duration - (s.now - t.startTick), t.handler, t.duration), None)
      case None => Done(Cleared(s), Some(r.handler))
  }

  // ---------- Steps ----------

  datatype Event =
    | Start(ms: Option<int>, handler: Option<Handler>)
    | Restart(ms: Option<int>, handler: Option<Handler>)
    | Clear
    | Tick(to: int)
    | Fire(timeout: nat)

  /** The clock does not go back; timeouts fire at their tick or later, never early. */
  predicate Enabled(s: State, e: Event) {
    match e
    case Tick(to) => s.now <= to
    case Fire(id) => id in s.live && s.live[id] <= s.now
    case _ => true
  }

  datatype Defaults = Defaults(timeout: int, handler: Handler)

  function OrElse<T>(o: Option<T>, t: T): T {
    if o.Some? then o.value else t
  }

  /** A timeout that has fired is no longer live when its callback runs. */
  function Expired(s: State, id: nat): State {
    s.(live := s.live - {id})
  }

  function Step(d: Defaults, s: State, e: Event): Outcome
    requires Enabled(s, e)
  {
    match e
    case Start(ms, h) => Done(Started(s, OrElse(ms, d.timeout), OrElse(h, d.handler)), None)
    case Restart(ms, h) => (
      match s.running
      case None => Done(Started(s, OrElse(ms, d.timeout), OrElse(h, d.handler)), None)
      case Some(r) => Done(Restarted(s, EffectiveDuration(r, ms), EffectiveHandler(r, h)), None))
    case Clear => Done(Cleared(s), None)
    case Tick(to) => Done(s.(now := to), None)
    case Fire(id) => Fired(Expired(s, id))
  }

  // ---------- The ideal timer ----------

  /** Each start or restart has a number of its own. */
  datatype Pending = Pending(serial: nat, tick: int, duration: int, handler: Handler)

  /** A handler that ran, and one that was armed again for the rest of its time. */
  datatype Ran = Ran(pending: Pending, tick: int)

  datatype Ideal = Ideal(serial: nat, pending: Option<Pending>, runs: seq<Ran>, rearmed: seq<nat>)

  const FRESH := Ideal(0, None, [], [])

  function Deadline(p: Pending): int {
    p.tick + p.duration
  }

  function Begin(i: Ideal, tick: int, duration: int, handler: Handler): Ideal {
    i.(serial := i.serial + 1, pending := Some(Pending(i.serial, tick, duration, handler)))
  }

  predicate RanHandler(o: Outcome) {
    o.Done? && o.ran.Some?
  }

  function PendingHandler(i: Ideal, default: Handler): Handler {
    if i.pending.Some? then i.pending.value.handler else default
  }

  /** What the ideal timer does at each event; it learns from the timer only whether a firing ran the handler. */
  function Follow(d: Defaults, s: State, i: Ideal, e: Event): Ideal
    requires Enabled(s, e)
  {
    match e
    case Start(ms, h) => Begin(i, s.now, OrElse(ms, d.timeout), OrElse(h, d.handler))
    case Restart(ms, h) => (
      match s.running
      case None => Begin(i, s.now, OrElse(ms, d.timeout), OrElse(h, d.handler))
      case Some(r) =>
        Begin(i, s.now, EffectiveDuration(r, ms),
              OrElse(h, PendingHandler(i, d.handler))))
    case Clear => i.(pending := None)
    case Tick(_) => i
    case Fire(_) =>
      if i.pending.None? then i
      else if RanHandler(Step(d, s, e)) then i.(pending := None, runs := i.runs + [Ran(i.pending.value, s.now)])
      else i.(rearmed := i.rearmed + [i.pending.value.serial])
  }

  // ---------- The invariant ----------

  predicate HasTimer(s: State) {
    s.running.Some?
  }

  /** The running timer stands for the pending start. */
  predicate Stands(r: Running, p: Pending) {
    match r.restart
    case None => UnderlyingDue(r) == Deadline(p) && r.handler == p.handler && r.intendedDuration == p.duration
    case Some(t) => t == Timeout(p.tick, p.duration, p.handler) && UnderlyingDue(r) < Due(t)
  }

  /** There is exactly one live timeout when the timer runs, and none otherwise. */
  predicate OneTimeout(s: State) {
    match s.running
    case None => s.live == map[]
    case Some(r) => s.live == map[r.timeout := UnderlyingDue(r)] && r.timeout < s.nextId
  }

  predicate Serials(i: Ideal) {
    && (forall k :: 0 <= k < |i.runs| ==> i.runs[k].pending.serial < i.serial)
    && (forall k :: 0 <= k < |i.rearmed| ==> i.rearmed[k] < i.serial)
    && (i.pending.Some? ==> i.pending.value.serial < i.serial)
  }

  /** Handlers run in the order of their starts, each at most once and never early; each is armed again at most once. */
  predicate History(i: Ideal) {
    && (forall k :: 0 <= k < |i.runs| ==> Deadline(i.runs[k].pending) <= i.runs[k].tick)
    && (forall j, k :: 0 <= j < k < |i.runs| ==> i.runs[j].pending.serial < i.runs[k].pending.serial)
    && (forall j, k :: 0 <= j < k < |i.rearmed| ==> i.rearmed[j] < i.rearmed[k])
  }

  /** What is pending has not run, and has been armed again only if no restart is waiting. */
  predicate StillPending(s: State, i: Ideal) {
    i.pending.Some? ==>
      && (forall k :: 0 <= k < |i.runs| ==> i.runs[k].pending.serial < i.pending.value.serial)
      && (forall k :: 0 <= k < |i.rearmed| ==> i.rearmed[k] <= i.pending.value.serial)
      && (s.running.Some? && s.running.value.restart.Some? ==>
            forall k :: 0 <= k < |i.rearmed| ==> i.rearmed[k] < i.pending.value.serial)
  }

  predicate Implements(s: State, i: Ideal) {
    && OneTimeout(s) && HasTimer(s) == i.pending.Some?
    && (HasTimer(s) ==> Stands(s.running.value, i.pending.value))
    && Serials(i) && History(i) && StillPending(s, i)
  }

  lemma IdleImplements()
    ensures Implements(IDLE, FRESH)
  {
  }

  // ---------- Every step keeps the invariant ----------

  lemma BeginImplements(s: State, i: Ideal, duration: int, handler: Handler)
    requires Implements(s, i)
    ensures Implements(Started(s, duration, handler), Begin(i, s.now, duration, handler))
  {
  }

  lemma RestartImplements(s: State, i: Ideal, duration: int, handler: Handler)
    requires Implements(s, i) && HasTimer(s)
    ensures Implements(Restarted(s, duration, handler), Begin(i, s.now, duration, handler))
  {
    if duration < s.running.value.duration - (s.now - s.running.value.startTick) {
      BeginImplements(s, i, duration, handler);
    }
  }

  /** An omitted handler is that of the pending start. */
  lemma SameHandler(s: State, i: Ideal, h: Option<Handler>, default: Handler)
    requires Implements(s, i) && HasTimer(s)
    ensures EffectiveHandler(s.running.value, h) == OrElse(h, PendingHandler(i, default))
  {
    hide Serials, History, StillPending;
  }

  /**
   * The assertion of the callback holds. A handler runs only when its deadline has come; a firing that
   * runs none arms the timeout for the rest of a restart, which ends at its deadline.
   */
  lemma FireRunsOrRearms(d: Defaults, s: State, i: Ideal, id: nat)
    requires Implements(s, i) && Enabled(s, Fire(id))
    ensures var o := Step(d, s, Fire(id));
      && o.Done? && i.pending.Some? && s.live.Keys == {id}
      && (o.ran.Some? ==>
        o.ran.value == i.pending.value.handler && Deadline(i.pending.value) <= s.now && !HasTimer(o.state))
      && (o.ran.None? ==>
            && HasTimer(o.state) && o.state.running.value.restart.None?
            && o.state.live[o.state.running.value.timeout] == Deadline(i.pending.value))
  {
    hide Serials, History, StillPending;
  }

  lemma FireImplements(d: Defaults, s: State, i: Ideal, id: nat)
    requires Implements(s, i) && Enabled(s, Fire(id))
    ensures Step(d, s, Fire(id)).Done? && Implements(Step(d, s, Fire(id)).state, Follow(d, s, i, Fire(id)))
  {
    FireRunsOrRearms(d, s, i, id);
  }

  /** Every step of the timer is a step of the ideal timer. */
  lemma StepImplements(d: Defaults, s: State, i: Ideal, e: Event)
    requires Implements(s, i) && Enabled(s, e)
    ensures Step(d, s, e).Done? && Implements(Step(d, s, e).state, Follow(d, s, i, e))
  {
    match e {
      case Start(ms, h) =>
        hide Implements, Started, Begin;
        BeginImplements(s, i, OrElse(ms, d.timeout), OrElse(h, d.handler));
      case Restart(ms, h) =>
        hide Implements, Started, Begin, Restarted, EffectiveDuration, EffectiveHandler;
        if HasTimer(s) {
          SameHandler(s, i, h, d.handler);
          RestartImplements(s, i, EffectiveDuration(s.running.value, ms), EffectiveHandler(s.running.value, h));
        } else {
          BeginImplements(s, i, OrElse(ms, d.timeout), OrElse(h, d.handler));
        }
      case Clear =>
      case Tick(_) =>
      case Fire(id) =>
        FireImplements(d, s, i, id);
    }
  }

  // ---------- Whole runs ----------

  datatype Both = Both(state: State, ideal: Ideal)

  /** The timer and the ideal timer after the events; None when one of them cannot happen. */
  function Run(d: Defaults, b: Both, events: seq<Event>): Option<Both>
    decreases events
  {
    if events == [] then Some(b)
    else if !Enabled(b.state, events[0]) then None
    else
      match Step(d, b.state, events[0])
      case AssertionFailed => None
      case Done(s, _) => Run(d, Both(s, Follow(d, b.state, b.ideal, events[0])), events[1..])
  }

  /** In every run exactly one timeout is live while the timer runs, and handlers run in order, once and never early. */
  lemma {:induction false} RunImplements(d: Defaults, b: Both, events: seq<Event>)
    requires Implements(b.state, b.ideal)
    ensures Run(d, b, events).Some? ==> Implements(Run(d, b, events).value.state, Run(d, b, events).value.ideal)
    decreases events
  {
    if events != [] && Enabled(b.state, events[0]) {
      hide Implements, Follow, Step;
      StepImplements(d, b.state, b.ideal, events[0]);
      RunImplements(d, Both(Step(d, b.state, events[0]).state, Follow(d, b.state, b.ideal, events[0])), events[1..]);
    }
  }

  predicate OnlyTime(events: seq<Event>) {
    forall k :: 0 <= k < |events| ==> events[k].Tick? || events[k].Fire?
  }

  /**
   * The ideal timer as time passes: the pending start still waits, or its handler has run once, at its deadline or
   * later.
   */
  predicate Passed(i: Ideal, i': Ideal, p: Pending) {
    && (i'.rearmed == i.rearmed || i'.rearmed == i.rearmed + [p.serial])
    && match i'.pending
       case Some(q) => q == p && i'.runs == i.runs
       case None => |i'.runs| == |i.runs| + 1 && i'.runs[..|i.runs|] == i.runs
                    && i'.runs[|i.runs|].pending == p && Deadline(p) <= i'.runs[|i.runs|].tick
  }

  lemma {:induction false} NothingRuns(d: Defaults, b: Both, events: seq<Event>)
    requires Implements(b.state, b.ideal) && b.ideal.pending.None? && OnlyTime(events)
    ensures Run(d, b, events).Some? ==> Run(d, b, events).value.ideal == b.ideal
    decreases events
  {
    if events != [] && Enabled(b.state, events[0]) {
      hide History, Serials, StillPending, Stands;
      StepImplements(d, b.state, b.ideal, events[0]);
      NothingRuns(d, Both(Step(d, b.state, events[0]).state, Follow(d, b.state, b.ideal, events[0])), events[1..]);
    }
  }

  /** One step of time leaves the start pending, perhaps armed again, or runs its handler. */
  lemma TimeStep(d: Defaults, s: State, i: Ideal, e: Event)
    requires Implements(s, i) && Enabled(s, e) && i.pending.Some? && (e.Tick? || e.Fire?)
    ensures Passed(i, Follow(d, s, i, e), i.pending.value)
  {
    if e.Fire? {
      FireRunsOrRearms(d, s, i, e.timeout);
    }
  }

  /** A start cannot be armed again twice. */
  lemma PassedOn(i: Ideal, j: Ideal, k: Ideal, p: Pending)
    requires Passed(i, j, p) && j.pending == Some(p) && Passed(j, k, p) && History(k)
    ensures Passed(i, k, p)
  {
    hide History;
    if j.rearmed != i.rearmed && k.rearmed == j.rearmed + [p.serial] {
      InOrder(k, |i.rearmed|);
    }
  }

  lemma InOrder(i: Ideal, n: nat)
    requires History(i) && n + 1 < |i.rearmed|
    ensures i.rearmed[n] < i.rearmed[n + 1]
  {
  }

  lemma ImpliesHistory(s: State, i: Ideal)
    requires Implements(s, i)
    ensures History(i)
  {
  }

  /**
   * After a start that is neither restarted nor cleared, its handler runs exactly once, or the timer is still
   * running.
   */
  lemma {:induction false} LastStartRuns(d: Defaults, b: Both, events: seq<Event>)
    requires Implements(b.state, b.ideal) && b.ideal.pending.Some? && OnlyTime(events) && Run(d, b, events).Some?
    ensures Passed(b.ideal, Run(d, b, events).value.ideal, b.ideal.pending.value)
    decreases events
  {
    if events != [] {
      hide Implements, Follow, Step, Passed, History;
      var p := b.ideal.pending.value;
      var next := Both(Step(d, b.state, events[0]).state, Follow(d, b.state, b.ideal, events[0]));
      var end := Run(d, b, events).value;
      StepImplements(d, b.state, b.ideal, events[0]);
      TimeStep(d, b.state, b.ideal, events[0]);
      SamePending(b.ideal, next.ideal, p);
      if next.ideal.pending.Some? {
        LastStartRuns(d, next, events[1..]);
        RunImplements(d, b, events);
        ImpliesHistory(end.state, end.ideal);
        PassedOn(b.ideal, next.ideal, end.ideal, p);
      } else {
        NothingRuns(d, next, events[1..]);
      }
    } else {
      NoTimePassed(b.ideal);
    }
  }

  lemma SamePending(i: Ideal, j: Ideal, p: Pending)
    requires Passed(i, j, p)
    ensures j.pending.Some? ==> j.pending.value == p
  {
  }

  lemma NoTimePassed(i: Ideal)
    requires i.pending.Some?
    ensures Passed(i, i, i.pending.value)
  {
  }

  function Firings(events: seq<Event>): nat {
    if events == [] then 0 else (if events[0].Fire? then 1 else 0) + Firings(events[1..])
  }

  lemma {:induction false} OneFiringRuns(d: Defaults, b: Both, events: seq<Event>)
    requires Implements(b.state, b.ideal) && OnlyTime(events) && Run(d, b, events).Some? && Firings(events) >= 1
    requires HasTimer(b.state) && b.state.running.value.restart.None?
    ensures Run(d, b, events).value.ideal.pending.None?
    decreases events
  {
    hide History, Serials, StillPending, Stands;
    var next := Both(Step(d, b.state, events[0]).state, Follow(d, b.state, b.ideal, events[0]));
    StepImplements(d, b.state, b.ideal, events[0]);
    if events[0].Tick? {
      OneFiringRuns(d, next, events[1..]);
    } else {
      NothingRuns(d, next, events[1..]);
    }
  }

  /** However late timeouts fire, the second firing after the last start or restart has run its handler. */
  lemma {:induction false} TwoFiringsRun(d: Defaults, b: Both, events: seq<Event>)
    requires Implements(b.state, b.ideal) && b.ideal.pending.Some? && OnlyTime(events) && Run(d, b, events).Some?
    ensures Firings(events) >= 2 ==> Run(d, b, events).value.ideal.pending.None?
    decreases events
  {
    if events != [] {
      hide History, Serials, StillPending, Stands, OneTimeout;
      var next := Both(Step(d, b.state, events[0]).state, Follow(d, b.state, b.ideal, events[0]));
      StepImplements(d, b.state, b.ideal, events[0]);
      if events[0].Tick? {
        TwoFiringsRun(d, next, events[1..]);
      } else if Firings(events) >= 2 {
        FireRunsOrRearms(d, b.state, b.ideal, events[0].timeout);
        if next.ideal.pending.Some? {
          OneFiringRuns(d, next, events[1..]);
        } else {
          NothingRuns(d, next, events[1..]);
        }
      }
    }
  }

  // ---------- Punctual timeouts ----------

  /** Time does not pass the tick at which a live timeout is due, and durations are not negative. */
  predicate Punctual(d: Defaults, s: State, e: Event) {
    d.timeout >= 0
    && match e
       case Tick(to) => forall id :: id in s.live ==> to <= s.live[id]
       case Start(ms, _) => OrElse(ms, 0) >= 0
       case Restart(ms, _) => OrElse(ms, 0) >= 0
       case _ => true
  }

  /** What punctual runs keep: every timeout is still to come. */
  predicate Prompt(s: State) {
    match s.running
    case None => true
    case Some(r) =>
      s.now <= UnderlyingDue(r) && r.intendedDuration >= 0 && (r.restart.Some? ==> r.restart.value.duration >= 0)
  }

  lemma StepPrompt(d: Defaults, s: State, i: Ideal, e: Event)
    requires Implements(s, i) && Enabled(s, e) && Prompt(s) && Punctual(d, s, e)
    ensures Step(d, s, e).Done? && Prompt(Step(d, s, e).state)
    ensures RanHandler(Step(d, s, e)) ==> i.pending.Some? && s.now == Deadline(i.pending.value)
  {
    hide History, Serials, StillPending;
    if e.Tick? && HasTimer(s) {
      assert s.running.value.timeout in s.live;
    }
  }

  /** The handlers that ran from `from` on did so exactly at their deadlines. */
  predicate OnTime(i: Ideal, from: nat) {
    forall k :: from <= k < |i.runs| ==> i.runs[k].tick == Deadline(i.runs[k].pending)
  }

  predicate PunctualRun(d: Defaults, b: Both, events: seq<Event>)
    decreases events
  {
    events == []
    || (Enabled(b.state, events[0]) && Punctual(d, b.state, events[0])
        && match Step(d, b.state, events[0])
           case AssertionFailed => false
           case Done(s, _) => PunctualRun(d, Both(s, Follow(d, b.state, b.ideal, events[0])), events[1..]))
  }

  /** In a punctual run every handler runs exactly at its deadline. */
  lemma {:induction false} PunctualRunsOnTime(d: Defaults, b: Both, events: seq<Event>, from: nat)
    requires Implements(b.state, b.ideal) && Prompt(b.state) && OnTime(b.ideal, from) && PunctualRun(d, b, events)
    ensures Run(d, b, events).Some? && OnTime(Run(d, b, events).value.ideal, from)
    decreases events
  {
    if events != [] {
      hide Implements, Prompt, Step, Punctual, OnTime;
      StepImplements(d, b.state, b.ideal, events[0]);
      StepPrompt(d, b.state, b.ideal, events[0]);
      StepOnTime(d, b.state, b.ideal, events[0], from);
      PunctualRunsOnTime(d, Both(Step(d, b.state, events[0]).state, Follow(d, b.state, b.ideal, events[0])),
        events[1..], from);
    }
  }

  /** Punctual runs pass no deadline of a timer that is still running. */
  lemma {:induction false} PunctualRunsPrompt(d: Defaults, b: Both, events: seq<Event>)
    requires Implements(b.state, b.ideal) && Prompt(b.state) && PunctualRun(d, b, events)
    ensures Run(d, b, events).Some? && Prompt(Run(d, b, events).value.state)
    decreases events
  {
    if events != [] {
      hide Implements, Prompt, Step, Punctual;
      StepImplements(d, b.state, b.ideal, events[0]);
      StepPrompt(d, b.state, b.ideal, events[0]);
      PunctualRunsPrompt(
        d, Both(Step(d, b.state, events[0]).state, Follow(d, b.state, b.ideal, events[0])), events[1..]);
    }
  }

  /** What is pending has its deadline still to come, or a restart waits behind an underlying timeout still to come. */
  lemma PendingIsAhead(s: State, i: Ideal)
    requires Implements(s, i) && Prompt(s) && i.pending.Some?
    ensures s.now <= Deadline(i.pending.value)
  {
    hide History, Serials, StillPending;
  }

  /** The handler of p has run, as the only one since `before`, exactly at its deadline. */
  predicate RanOnce(before: Ideal, after: Ideal, p: Pending) {
    after.pending.None? && after.runs == before.runs + [Ran(p, Deadline(p))]
  }

  /**
   * After a start that is neither restarted nor cleared, with punctual timeouts, the handler runs exactly once and
   * exactly at the deadline: as long as the clock has not reached the deadline it has not run, and when the clock
   * has passed the deadline it has.
   */
  lemma LastStartRunsOnTime(d: Defaults, b: Both, events: seq<Event>)
    requires Implements(b.state, b.ideal) && Prompt(b.state) && b.ideal.pending.Some?
    requires OnlyTime(events) && PunctualRun(d, b, events)
    ensures Run(d, b, events).Some?
    ensures
      var p := b.ideal.pending.value;
      var end := Run(d, b, events).value;
      && (end.state.now < Deadline(p) ==> end.ideal.pending == Some(p) && end.ideal.runs == b.ideal.runs)
      && (end.state.now > Deadline(p) ==> RanOnce(b.ideal, end.ideal, p))
      && (end.ideal.pending.None? ==> RanOnce(b.ideal, end.ideal, p))
  {
    hide Implements, Prompt, OnTime, PunctualRun;
    var p := b.ideal.pending.value;
    PunctualRunsPrompt(d, b, events);
    RunImplements(d, b, events);
    LastStartRuns(d, b, events);
    NoneBehind(b.ideal);
    PunctualRunsOnTime(d, b, events, |b.ideal.runs|);
    ClockAtLastRun(d, b, events);
    var end := Run(d, b, events).value;
    if end.ideal.pending.Some? {
      PendingIsAhead(end.state, end.ideal);
    } else {
      OnTimeAt(end.ideal, |b.ideal.runs|);
    }
  }

  lemma NoneBehind(i: Ideal)
    ensures OnTime(i, |i.runs|)
  {
  }

  lemma OnTimeAt(i: Ideal, k: nat)
    requires OnTime(i, k) && k < |i.runs|
    ensures i.runs[k].tick == Deadline(i.runs[k].pending)
  {
  }

  /** Nothing has run later than the clock shows. */
  predicate RunsPast(s: State, i: Ideal, from: nat) {
    forall k :: from <= k < |i.runs| ==> i.runs[k].tick <= s.now
  }

  lemma {:induction false} RunsPastKept(d: Defaults, b: Both, events: seq<Event>, from: nat)
    requires Run(d, b, events).Some? && RunsPast(b.state, b.ideal, from)
    ensures RunsPast(Run(d, b, events).value.state, Run(d, b, events).value.ideal, from)
    decreases events
  {
    if events != [] {
      RunsPastKept(d, Both(Step(d, b.state, events[0]).state, Follow(d, b.state, b.ideal, events[0])), events[1..],
        from);
    }
  }

  lemma ClockAtLastRun(d: Defaults, b: Both, events: seq<Event>)
    requires Run(d, b, events).Some?
    ensures
      var end := Run(d, b, events).value;
      |end.ideal.runs| > |b.ideal.runs| ==> end.ideal.runs[|b.ideal.runs|].tick <= end.state.now
  {
    RunsPastKept(d, b, events, |b.ideal.runs|);
  }

  lemma StepOnTime(d: Defaults, s: State, i: Ideal, e: Event, from: nat)
    requires Enabled(s, e) && OnTime(i, from)
    requires RanHandler(Step(d, s, e)) ==> i.pending.Some? && s.now == Deadline(i.pending.value)
    ensures OnTime(Follow(d, s, i, e), from)
  {
  }

  // ---------- The duration that restart takes when none is given ----------

  function Remaining(r: Running, now: int): int {
    r.duration - (now - r.startTick)
  }

  /**
   * After a restart for ms, a restart without a duration is one for ms again if and only if ms did not exceed the
   * time that remained or was the duration that the timer took for an omitted one before.
   */
  lemma OmittedDuration(d: Defaults, s: State, ms: int, h: Option<Handler>)
    requires HasTimer(s)
    ensures
      var r := s.running.value;
      var o := Step(d, s, Restart(Some(ms), h));
      && o.Done? && HasTimer(o.state)
      && (EffectiveDuration(o.state.running.value, None) == ms
        <==> ms <= Remaining(r, s.now) || ms == r.intendedDuration)
  {
  }

  function StartThenRestart(d0: int, t1: int, ms: int): seq<Event> {
    [Start(Some(d0), None), Tick(t1), Restart(Some(ms), None), Restart(None, None)]
  }

  /**
   * The same on the calls of a client: started for d0 and restarted for ms at t1, a restart without a duration waits
   * for ms if and only if ms does not reach beyond the end of the start or is the duration of the start.
   */
  lemma OmittedDurationOfCalls(d: Defaults, b: Both, d0: int, t1: int, ms: int)
    requires b.state.now <= t1
    ensures
      var end := Run(d, b, StartThenRestart(d0, t1, ms));
      && end.Some? && end.value.ideal.pending.Some?
      && (end.value.ideal.pending.value.duration == ms <==> t1 + ms <= b.state.now + d0 || ms == d0)
  {
    var events := StartThenRestart(d0, t1, ms);
    var b1 := Both(Step(d, b.state, events[0]).state, Follow(d, b.state, b.ideal, events[0]));
    var b2 := Both(Step(d, b1.state, events[1]).state, Follow(d, b1.state, b1.ideal, events[1]));
    var b3 := Both(Step(d, b2.state, events[2]).state, Follow(d, b2.state, b2.ideal, events[2]));
    var b4 := Both(Step(d, b3.state, events[3]).state, Follow(d, b3.state, b3.ideal, events[3]));
    OmittedDuration(d, b2.state, ms, None);
    assert Run(d, b4, events[4..]) == Some(b4);
    RunStep(d, b3, events, 3);
    RunStep(d, b2, events, 2);
    RunStep(d, b1, events, 1);
    RunStep(d, b, events, 0);
    assert events[0..] == events;
  }

  lemma RunStep(d: Defaults, b: Both, events: seq<Event>, k: nat)
    requires k < |events| && Enabled(b.state, events[k]) && Step(d, b.state, events[k]).Done?
    ensures Run(d, b, events[k..])
      == Run(d, Both(Step(d, b.state, events[k]).state, Follow(d, b.state, b.ideal, events[k])), events[k + 1..])
  {
    hide Step, Follow, Enabled;
    assert events[k..][1..] == events[k + 1..];
  }

  /** Started for 10 and restarted for 20, a restart for "the same time" waits 10 again. */
  lemma OlderDurationReturns()
    ensures
      var d := Defaults(10, 0);
      var end := Run(d, Both(IDLE, FRESH), [Start(None, None), Restart(Some(20), None), Restart(None, None)]);
      end.Some? && end.value.ideal.pending == Some(Pending(2, 0, 10, 0))
  {
    var d := Defaults(10, 0);
    var events := [Start(None, None), Restart(Some(20), None), Restart(None, None)];
    assert events[1..] == [Restart(Some(20), None), Restart(None, None)];
    assert events[1..][1..] == [Restart(None, None)];
    assert events[1..][1..][1..] == [];
  }

  // ---------- The timer ----------

  class Timer {
    const loop: EventLoop<int>
    const defaults: Defaults
    var runningState: Option<Running>

    constructor (loop: EventLoop<int>, defaultTimeout: int, defaultHandler: Handler)
      ensures this.loop == loop && defaults == Defaults(defaultTimeout, defaultHandler) && runningState == None
    {
      this.loop := loop;
      defaults := Defaults(defaultTimeout, defaultHandler);
      runningState := None;
    }

    ghost function Abstract(): State
      reads this, loop
    {
      State(loop.now, loop.live, loop.nextId, runningState)
    }

    method Clear()
      modifies this, loop
      ensures Abstract() == Cleared(old(Abstract()))
    {
      if runningState.None? {
        return;
      }
      loop.ClearTimeout(runningState.value.timeout);
      runningState := None;
    }

    method StartCore(duration: int, handler: Handler, intendedDuration: int)
      modifies this, loop
      ensures Abstract() == Armed(old(Abstract()), duration, handler, intendedDuration)
    {
      Clear();
      var startTick := loop.now;
      var timeout := loop.SetTimeout(startTick + duration);
      runningState := Some(Running(startTick, duration, handler, timeout, intendedDuration, None));
    }

    method Start(ms: Option<int>, handler: Option<Handler>)
      modifies this, loop
      ensures Done(Abstract(), None) == Step(defaults, old(Abstract()), Event.Start(ms, handler))
    {
      var duration := OrElse(ms, defaults.timeout);
      StartCore(duration, OrElse(handler, defaults.handler), duration);
    }

    method Restart(ms: Option<int>, handler: Option<Handler>)
      modifies this, loop
      ensures Done(Abstract(), None) == Step(defaults, old(Abstract()), Event.Restart(ms, handler))
    {
      if runningState.None? {
        Start(ms, handler);
      } else {
        var r := runningState.value;
        var duration := if ms.Some? then ms.value else r.intendedDuration;
        var handlerToUse := EffectiveHandler(r, handler);
        var remainingTime := r.duration - (loop.now - r.startTick);
        if duration < remainingTime {
          Start(Some(duration), Some(handlerToUse));
        } else if duration == remainingTime {
          runningState := Some(r.(handler := handlerToUse, restart := None, intendedDuration := duration));
        } else {
          runningState := Some(r.(restart := Some(Timeout(loop.now, duration, handlerToUse))));
        }
      }
    }

    /** The callback; None when it only armed the timeout again, and false when its assertion fails. */
    method OnTimeout() returns (ok: bool, ran: Option<Handler>)
      modifies this, loop
      ensures if ok then Fired(old(Abstract())) == Done(Abstract(), ran) else Fired(old(Abstract())) == AssertionFailed
    {
      if runningState.None? {
        return false, None;
      }
      var r := runningState.value;
      if r.restart.Some? {
        var restart := r.restart.value;
        var remainingTime := restart.duration - (loop.now - restart.startTick);
        StartCore(remainingTime, restart.handler, restart.duration);
        return true, None;
      }
      Clear();
      return true, Some(r.handler);
    }
  }

  // ---------- The promise timer ----------

  datatype Result = TimedOut | Cancelled

  datatype Resolution = Resolution(promise: nat, result: Result)

  /** How often a promise was resolved. */
  function Resolutions(resolved: seq<Resolution>, promise: nat): nat {
    if resolved == [] then 0
    else
      var last := |resolved| - 1;
      Resolutions(resolved[..last], promise) + if resolved[last].promise == promise then 1 else 0
  }

  /** Of the promises created so far, each but the waiting one was resolved exactly once, and it not yet. */
  ghost predicate Settled(created: nat, deferred: Option<nat>, resolved: seq<Resolution>) {
    && (deferred.Some? ==> deferred.value < created)
    && (forall q :: 0 <= q < created ==> Resolutions(resolved, q) == if deferred == Some(q) then 0 else 1)
    && (forall q :: q >= created ==> Resolutions(resolved, q) == 0)
  }

  lemma ResolveSettles(created: nat, promise: nat, resolved: seq<Resolution>, result: Result)
    requires Settled(created, Some(promise), resolved)
    ensures Settled(created, None, resolved + [Resolution(promise, result)])
  {
    var after := resolved + [Resolution(promise, result)];
    assert after[..|resolved|] == resolved;
    forall q: nat ensures Resolutions(after, q) == Resolutions(resolved, q) + if promise == q then 1 else 0 {
    }
  }

  class PromiseTimer {
    const timer: Timer
    var deferred: Option<nat>
    var created: nat
    var resolved: seq<Resolution>

    /**
     * Each promise but the one that still waits was resolved exactly once, and one waits exactly while the timer
     * runs.
     */
    ghost predicate Valid()
      reads this, timer, timer.loop
    {
      && OneTimeout(timer.Abstract()) && HasTimer(timer.Abstract()) == deferred.Some?
      && (HasTimer(timer.Abstract()) ==> timer.runningState.value.restart.None?)
      && Settled(created, deferred, resolved)
    }

    constructor (timer: Timer)
      requires timer.Abstract() == IDLE
      ensures Valid() && this.timer == timer && deferred == None && created == 0 && resolved == []
    {
      this.timer := timer;
      deferred, created, resolved := None, 0, [];
    }

    method Resolve(result: Result)
      requires deferred.Some?
      modifies this
      ensures deferred == None && created == old(created)
          && resolved == old(resolved) + [Resolution(old(deferred).value, result)]
    {
      resolved := resolved + [Resolution(deferred.value, result)];
      deferred := None;
    }

    method Clear()
      requires Valid()
      modifies this, timer, timer.loop
      ensures Valid() && deferred == None && created == old(created)
          && timer.Abstract() == Cleared(old(timer.Abstract()))
      ensures resolved
        == old(resolved) + if old(deferred).Some? then [Resolution(old(deferred).value, Cancelled)] else []
    {
      hide Settled;
      timer.Clear();
      if deferred.Some? {
        ResolveSettles(created, deferred.value, resolved, Cancelled);
        Resolve(Cancelled);
      }
    }

    /** Cancels what was waiting and promises the end of the new timeout. */
    method Start(ms: Option<int>, handler: Option<Handler>) returns (promise: nat)
      requires Valid()
      modifies this, timer, timer.loop
      ensures Valid() && promise == old(created) && deferred == Some(promise) && created == old(created) + 1
      ensures Done(timer.Abstract(), None)
          == Step(timer.defaults, Cleared(old(timer.Abstract())), Event.Start(ms, handler))
      ensures resolved
        == old(resolved) + if old(deferred).Some? then [Resolution(old(deferred).value, Cancelled)] else []
    {
      Clear();
      promise := created;
      deferred := Some(promise);
      created := created + 1;
      timer.Start(ms, handler);
    }

    /** The callback of the timeout: the handler runs, the assertions hold and the promise is resolved. */
    method OnTimeout() returns (ok: bool, ran: Option<Handler>)
      requires Valid() && HasTimer(timer.Abstract())
      modifies this, timer, timer.loop
      ensures Valid() && ok && deferred == None && created == old(created)
      ensures ran == Some(old(timer.runningState.value.handler))
      ensures resolved == old(resolved) + [Resolution(old(deferred).value, TimedOut)]
    {
      hide Settled;
      ok, ran := timer.OnTimeout();
      if ran.Some? {
        if deferred.None? {
          return false, ran;
        }
        ResolveSettles(created, deferred.value, resolved, TimedOut);
        Resolve(TimedOut);
      }
    }
  }
}
