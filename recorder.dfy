/** The session recorder of the application's main screen: a toggle that starts
    and stops a recording, a screen tap that counts while recording and leaves a
    transient click effect, a one-second tick that advances the elapsed time, the
    deletion of a past session and the expiry of a click effect.

    `State`, `Event` and `Next` describe every transition as a value; the class
    `App` holds the same five pieces of state as mutable fields, as the component
    does, and each of its methods is proved to perform the transition `Next`
    describes. The lemmas below `Next` state what the transitions promise. */
module Recorder {
  import opened Filtering

  /** A finished recording in the history list. */
  datatype Session = Session(id: int, date: string, duration: nat, taps: nat, craft: string)

  /** A transient marker drawn where the screen was tapped. */
  datatype ClickEffect = ClickEffect(id: int, x: int, y: int)

  /** The vibration an event asks the device for, if any. */
  datatype Haptic = Silent | Vibrate(pattern: seq<nat>)

  const StartPattern: seq<nat> := [15]
  const StopPattern: seq<nat> := [30, 50, 30]
  const TapPattern: seq<nat> := [5]

  /** The craft label given to every session recorded on this screen. */
  const NewCraft: string := "新工艺"

  function SessionId(s: Session): int { s.id }

  function EffectId(e: ClickEffect): int { e.id }

  /** The history the screen starts with: two sessions, ids 1 and 2. */
  function SeedSessions(): (r: seq<Session>)
    ensures |r| == 2 && r[0].id == 1 && r[1].id == 2
  {
    [Session(1, "2026.05.20", 5400, 124, "木工"),
     Session(2, "2026.05.19", 3200, 89, "皮艺")]
  }

  /** `d.replace(/-/g, '.')`: the locale date `YYYY-MM-DD` written with dots. */
  function DateLabel(d: string): (r: string)
    ensures |r| == |d|
    ensures forall i :: 0 <= i < |d| ==> r[i] == if d[i] == '-' then '.' else d[i]
  {
    if d == [] then []
    else [if d[0] == '-' then '.' else d[0]] + DateLabel(d[1..])
  }

  datatype State = State(
    isRecording: bool,
    duration: nat,
    taps: nat,
    sessions: seq<Session>,
    clickEffects: seq<ClickEffect>)

  /** What can happen to the screen. `now` is the clock reading in milliseconds
      at the event, `localeDate` the day as `toLocaleDateString('en-CA')` gives
      it, `x` and `y` the tap's client coordinates. `IntervalTick` is a firing of
      the one-second interval, `EffectExpired` the 600 ms timer of one effect. */
  datatype Event =
    | ToggleRecording(now: int, localeDate: string)
    | ScreenTap(now: int, x: int, y: int)
    | IntervalTick
    | DeleteSession(id: int)
    | EffectExpired(id: int)

  datatype Step = Step(next: State, haptic: Haptic)

  /** The state the component mounts with: idle, both counters zero, the two
      seed sessions and no click effects. */
  function Initial(): (r: State)
    ensures !r.isRecording && r.duration == 0 && r.taps == 0
    ensures r.sessions == SeedSessions() && r.clickEffects == []
    ensures CountersClearWhenIdle(r)
  {
    State(false, 0, 0, SeedSessions(), [])
  }

  /** The recorder's invariant: while idle both counters are zero. */
  predicate CountersClearWhenIdle(s: State) {
    !s.isRecording ==> s.duration == 0 && s.taps == 0
  }

  /** The session that stopping in state `s` records. */
  function Recorded(s: State, now: int, localeDate: string): Session {
    Session(now, DateLabel(localeDate), s.duration, s.taps, NewCraft)
  }

  /** The effect of one event. The interval exists only while recording, so a
      tick reaching an idle recorder cannot happen and changes nothing.
      Every event keeps the counters at zero while idle, and only a toggle or
      a tap while recording asks for a vibration. What each event does in
      full is stated by the lemmas below. */
  function Next(s: State, e: Event): (r: Step)
    ensures CountersClearWhenIdle(s) ==> CountersClearWhenIdle(r.next)
    ensures r.haptic != Silent <==> e.ToggleRecording? || (e.ScreenTap? && s.isRecording)
  {
    match e
    case ToggleRecording(now, localeDate) =>
      if s.isRecording then
        Step(State(false, 0, 0, [Recorded(s, now, localeDate)] + s.sessions, s.clickEffects),
             Vibrate(StopPattern))
      else
        Step(s.(isRecording := true), Vibrate(StartPattern))
    case ScreenTap(now, x, y) =>
      if !s.isRecording then Step(s, Silent)
      else Step(s.(taps := s.taps + 1, clickEffects := s.clickEffects + [ClickEffect(now, x, y)]),
                Vibrate(TapPattern))
    case IntervalTick =>
      if s.isRecording then Step(s.(duration := s.duration + 1), Silent) else Step(s, Silent)
    case DeleteSession(id) =>
      Step(s.(sessions := Reject(s.sessions, SessionId, id)), Silent)
    case EffectExpired(id) =>
      Step(s.(clickEffects := Reject(s.clickEffects, EffectId, id)), Silent)
  }

  /** The state after a sequence of events, in order. Each event adds at most
      one session (a stop) and at most one click effect (a tap). */
  function Run(s: State, es: seq<Event>): (r: State)
    ensures |r.sessions| <= |s.sessions| + |es|
    ensures |r.clickEffects| <= |s.clickEffects| + |es|
    decreases |es|
  {
    if es == [] then s else Run(Next(s, es[0]).next, es[1..])
  }

  // ---------------------------------------------------------------------------
  // One event at a time

  lemma InitialState()
    ensures !Initial().isRecording && Initial().duration == 0 && Initial().taps == 0
    ensures |Initial().sessions| == 2
    ensures Initial().sessions[0].id == 1 && Initial().sessions[1].id == 2
    ensures Initial().clickEffects == []
    ensures CountersClearWhenIdle(Initial())
  {
  }

  /** Starting sets the flag, asks for [15], and touches neither the history
      nor the counters (starting does not reset them). */
  lemma StartRecording(s: State, now: int, localeDate: string)
    requires !s.isRecording
    ensures Next(s, ToggleRecording(now, localeDate)).next.isRecording
    ensures Next(s, ToggleRecording(now, localeDate)).next.duration == s.duration
    ensures Next(s, ToggleRecording(now, localeDate)).next.taps == s.taps
    ensures Next(s, ToggleRecording(now, localeDate)).next.sessions == s.sessions
    ensures Next(s, ToggleRecording(now, localeDate)).next.clickEffects == s.clickEffects
    ensures Next(s, ToggleRecording(now, localeDate)).haptic == Vibrate([15])
  {
  }

  /** Stopping prepends exactly one session carrying the counters as they were,
      keeps the previous history intact behind it, clears the counters and the
      flag, and asks for [30, 50, 30]. */
  lemma StopRecording(s: State, now: int, localeDate: string)
    requires s.isRecording
    ensures var r := Next(s, ToggleRecording(now, localeDate)).next;
      |r.sessions| == |s.sessions| + 1 && r.sessions[1..] == s.sessions &&
      r.sessions[0] == Session(now, DateLabel(localeDate), s.duration, s.taps, "新工艺") &&
      !r.isRecording && r.duration == 0 && r.taps == 0 && r.clickEffects == s.clickEffects
    ensures Next(s, ToggleRecording(now, localeDate)).haptic == Vibrate([30, 50, 30])
  {
    var r := Next(s, ToggleRecording(now, localeDate)).next;
    assert r.sessions[1..] == s.sessions;
  }

  /** A tap while idle changes nothing and asks for no vibration. */
  lemma TapWhileIdle(s: State, now: int, x: int, y: int)
    requires !s.isRecording
    ensures Next(s, ScreenTap(now, x, y)) == Step(s, Silent)
  {
  }

  /** A tap while recording adds one to the tap count, appends exactly one
      effect at the end of the effect list with the others unchanged and in
      order, leaves everything else alone and asks for [5]. */
  lemma TapWhileRecording(s: State, now: int, x: int, y: int)
    requires s.isRecording
    ensures var r := Next(s, ScreenTap(now, x, y)).next;
      r.taps == s.taps + 1 &&
      |r.clickEffects| == |s.clickEffects| + 1 &&
      r.clickEffects[..|s.clickEffects|] == s.clickEffects &&
      r.clickEffects[|s.clickEffects|] == ClickEffect(now, x, y) &&
      r.isRecording && r.duration == s.duration && r.sessions == s.sessions
    ensures Next(s, ScreenTap(now, x, y)).haptic == Vibrate([5])
  {
    var r := Next(s, ScreenTap(now, x, y)).next;
    assert r.clickEffects[..|s.clickEffects|] == s.clickEffects;
  }

  /** A tick adds exactly one second while recording and nothing while idle. */
  lemma TickCountsOnlyWhileRecording(s: State)
    ensures Next(s, IntervalTick).next.duration == if s.isRecording then s.duration + 1 else s.duration
    ensures Next(s, IntervalTick).next == s.(duration := Next(s, IntervalTick).next.duration)
    ensures Next(s, IntervalTick).haptic == Silent
  {
  }

  /** Deleting removes every session with the id, keeps each other session
      with its multiplicity and in its relative order, leaves the list as it
      was when no session has the id, and deleting again changes nothing. */
  lemma DeleteSessionFilters(s: State, id: int)
    ensures var r := Next(s, DeleteSession(id)).next;
      (forall x :: x in r.sessions <==> x in s.sessions && x.id != id) &&
      (forall x :: multiset(r.sessions)[x] == if x.id == id then 0 else multiset(s.sessions)[x]) &&
      IsSubsequence(r.sessions, s.sessions) &&
      ((forall i :: 0 <= i < |s.sessions| ==> s.sessions[i].id != id) <==> r.sessions == s.sessions) &&
      Next(r, DeleteSession(id)).next == r &&
      r == s.(sessions := r.sessions)
  {
    var r := Next(s, DeleteSession(id)).next;
    forall x ensures multiset(r.sessions)[x] == if x.id == id then 0 else multiset(s.sessions)[x] {
      RejectMultiplicity(s.sessions, SessionId, id, x);
    }
    forall x ensures x in r.sessions <==> x in s.sessions && x.id != id {
      RejectMembership(s.sessions, SessionId, id, x);
    }
    RejectIsSubsequence(s.sessions, SessionId, id);
    RejectUnchangedIffAbsent(s.sessions, SessionId, id);
    RejectIdempotent(s.sessions, SessionId, id);
  }

  /** An expiry removes every effect with the id (ids are clock readings and may
      collide), keeps the other effects unchanged and in order, and an expiry
      of an id that is already gone changes nothing. */
  lemma EffectExpiryFilters(s: State, id: int)
    ensures var r := Next(s, EffectExpired(id)).next;
      (forall x :: x in r.clickEffects <==> x in s.clickEffects && x.id != id) &&
      (forall x :: multiset(r.clickEffects)[x] == if x.id == id then 0 else multiset(s.clickEffects)[x]) &&
      IsSubsequence(r.clickEffects, s.clickEffects) &&
      ((forall i :: 0 <= i < |s.clickEffects| ==> s.clickEffects[i].id != id) <==> r.clickEffects == s.clickEffects) &&
      Next(r, EffectExpired(id)).next == r &&
      r == s.(clickEffects := r.clickEffects)
  {
    var r := Next(s, EffectExpired(id)).next;
    forall x ensures multiset(r.clickEffects)[x] == if x.id == id then 0 else multiset(s.clickEffects)[x] {
      RejectMultiplicity(s.clickEffects, EffectId, id, x);
    }
    forall x ensures x in r.clickEffects <==> x in s.clickEffects && x.id != id {
      RejectMembership(s.clickEffects, EffectId, id, x);
    }
    RejectIsSubsequence(s.clickEffects, EffectId, id);
    RejectUnchangedIffAbsent(s.clickEffects, EffectId, id);
    RejectIdempotent(s.clickEffects, EffectId, id);
  }

  // ---------------------------------------------------------------------------
  // Sequences of events

  lemma {:induction false} RunAppend(s: State, a: seq<Event>, b: seq<Event>)
    ensures Run(s, a + b) == Run(Run(s, a), b)
    decreases |a|
  {
    if a != [] {
      RunAppend(Next(s, a[0]).next, a[1..], b);
      assert (a + b)[1..] == a[1..] + b;
    } else {
      assert a + b == b;
    }
  }

  /** Every event keeps the counters at zero while idle, so every reachable
      state satisfies the invariant. */
  lemma {:induction false} RunKeepsCountersClear(s: State, es: seq<Event>)
    requires CountersClearWhenIdle(s)
    ensures CountersClearWhenIdle(Run(s, es))
    decreases |es|
  {
    if es != [] {
      RunKeepsCountersClear(Next(s, es[0]).next, es[1..]);
    }
  }

  lemma ReachableCountersClear(es: seq<Event>)
    ensures CountersClearWhenIdle(Run(Initial(), es))
  {
    RunKeepsCountersClear(Initial(), es);
  }

  predicate AllTaps(es: seq<Event>) {
    forall i :: 0 <= i < |es| ==> es[i].ScreenTap?
  }

  predicate NoToggle(es: seq<Event>) {
    forall i :: 0 <= i < |es| ==> !es[i].ToggleRecording?
  }

  function TapCount(es: seq<Event>): nat {
    if es == [] then 0 else (if es[0].ScreenTap? then 1 else 0) + TapCount(es[1..])
  }

  function TickCount(es: seq<Event>): nat {
    if es == [] then 0 else (if es[0].IntervalTick? then 1 else 0) + TickCount(es[1..])
  }

  /** The effects a run of taps enqueues, one per tap, in tap order. */
  function EffectsOf(es: seq<Event>): (r: seq<ClickEffect>)
    requires AllTaps(es)
    ensures |r| == |es|
  {
    if es == [] then [] else [ClickEffect(es[0].now, es[0].x, es[0].y)] + EffectsOf(es[1..])
  }

  /** Any number of taps while idle changes nothing at all. */
  lemma {:induction false} IdleTapsChangeNothing(s: State, es: seq<Event>)
    requires !s.isRecording && AllTaps(es)
    ensures Run(s, es) == s
    decreases |es|
  {
    if es != [] {
      IdleTapsChangeNothing(s, es[1..]);
    }
  }

  /** While recording, every tap adds exactly one to the count and enqueues
      exactly one effect after those already there. */
  lemma {:induction false} RecordingTapsCount(s: State, es: seq<Event>)
    requires s.isRecording && AllTaps(es)
    ensures Run(s, es) == s.(taps := s.taps + |es|, clickEffects := s.clickEffects + EffectsOf(es))
    decreases |es|
  {
    if es != [] {
      var e := ClickEffect(es[0].now, es[0].x, es[0].y);
      var t := s.(taps := s.taps + 1, clickEffects := s.clickEffects + [e]);
      assert Next(s, es[0]).next == t;
      RecordingTapsCount(t, es[1..]);
      assert EffectsOf(es) == [e] + EffectsOf(es[1..]);
      assert (s.clickEffects + [e]) + EffectsOf(es[1..]) == s.clickEffects + EffectsOf(es);
    }
  }

  /** While recording and until the next toggle, the recorder stays recording
      and its counters grow by exactly the number of ticks and taps. */
  lemma {:induction false} RecordingRun(s: State, es: seq<Event>)
    requires s.isRecording && NoToggle(es)
    ensures Run(s, es).isRecording
    ensures Run(s, es).duration == s.duration + TickCount(es)
    ensures Run(s, es).taps == s.taps + TapCount(es)
    decreases |es|
  {
    if es != [] {
      RecordingRun(Next(s, es[0]).next, es[1..]);
    }
  }

  /** The session a stop records holds exactly the ticks and taps since the
      most recent start: starting does not reset the counters, but from any
      state that keeps the invariant they are already zero at the start. */
  lemma SessionReflectsSinceStart(s: State, start: Event, mid: seq<Event>, stop: Event)
    requires CountersClearWhenIdle(s) && !s.isRecording
    requires start.ToggleRecording? && stop.ToggleRecording? && NoToggle(mid)
    ensures var r := Run(s, [start] + mid + [stop]);
      |r.sessions| >= 1 &&
      r.sessions[0] == Session(stop.now, DateLabel(stop.localeDate), TickCount(mid), TapCount(mid), NewCraft) &&
      r.sessions[1..] == Run(Next(s, start).next, mid).sessions &&
      !r.isRecording && r.duration == 0 && r.taps == 0
  {
    var started := Next(s, start).next;
    RunAppend(s, [start] + mid, [stop]);
    RunAppend(s, [start], mid);
    assert Run(s, [start]) == started;
    RecordingRun(started, mid);
    var before := Run(started, mid);
    StopRecording(before, stop.now, stop.localeDate);
    assert Run(before, [stop]) == Next(before, stop).next;
  }

  // ---------------------------------------------------------------------------
  // Worked scenarios

  /** From the seeded history: start, three taps, ten ticks, stop. The new
      session has 10 seconds and 3 taps and sits in front of the two seeds;
      deleting the first seed then leaves the new session and the second seed. */
  lemma ScenarioRecordThenDelete(t0: int, t1: int)
    requires t1 != 1
    ensures var mid := [ScreenTap(t0 + 100, 10, 20), ScreenTap(t0 + 200, 30, 40), ScreenTap(t0 + 300, 50, 60)]
                       + seq(10, _ => IntervalTick);
      var c := Session(t1, "2026.10.14", 10, 3, NewCraft);
      var r := Run(Initial(), [ToggleRecording(t0, "2026-10-14")] + mid + [ToggleRecording(t1, "2026-10-14")]);
      r.sessions == [c] + SeedSessions() &&
      Run(r, [DeleteSession(1)]).sessions == [c, SeedSessions()[1]]
  {
    var taps := [ScreenTap(t0 + 100, 10, 20), ScreenTap(t0 + 200, 30, 40), ScreenTap(t0 + 300, 50, 60)];
    var ticks := seq(10, _ => IntervalTick);
    var mid := taps + ticks;
    var start, stop := ToggleRecording(t0, "2026-10-14"), ToggleRecording(t1, "2026-10-14");
    var c := Session(t1, "2026.10.14", 10, 3, NewCraft);
    MidOfScenario(taps, ticks);
    DateLabelOfScenario();
    NonHistoryEventsKeepSessions(Next(Initial(), start).next, mid);
    SessionReflectsSinceStart(Initial(), start, mid, stop);
    var r := Run(Initial(), [start] + mid + [stop]);
    assert r.sessions == [c] + SeedSessions();
    DeleteFirstSeed(r, c);
  }

  lemma DateLabelOfScenario()
    ensures DateLabel("2026-10-14") == "2026.10.14"
  {
    var r := DateLabel("2026-10-14");
    assert r[4] == '.' && r[7] == '.';
    assert forall i :: 0 <= i < 10 && i != 4 && i != 7 ==> r[i] == "2026-10-14"[i];
  }

  lemma MidOfScenario(taps: seq<Event>, ticks: seq<Event>)
    requires |taps| == 3 && AllTaps(taps) && ticks == seq(10, _ => IntervalTick)
    ensures NoToggle(taps + ticks)
    ensures forall i :: 0 <= i < |taps + ticks| ==> !(taps + ticks)[i].DeleteSession?
    ensures TickCount(taps + ticks) == 10 && TapCount(taps + ticks) == 3
  {
    CountTicks(10);
    CountTaps(taps);
    CountAppend(taps, ticks);
  }

  lemma DeleteFirstSeed(r: State, c: Session)
    requires c.id != 1 && r.sessions == [c] + SeedSessions()
    ensures Run(r, [DeleteSession(1)]).sessions == [c, SeedSessions()[1]]
  {
    assert Run(r, [DeleteSession(1)]) == Next(r, DeleteSession(1)).next;
    var s := r.sessions;
    assert Reject(s, SessionId, 1) == [c] + Reject(s[1..], SessionId, 1);
    assert Reject(s[1..], SessionId, 1) == Reject(s[2..], SessionId, 1);
    assert s[2..][1..] == [];
    assert Reject(s[2..], SessionId, 1) == [SeedSessions()[1]];
  }

  /** Starting and stopping at once records a session of 0 seconds and 0 taps. */
  lemma ScenarioImmediateStop(s: State, t0: int, t1: int, d0: string, d1: string)
    requires CountersClearWhenIdle(s) && !s.isRecording
    ensures var r := Run(s, [ToggleRecording(t0, d0), ToggleRecording(t1, d1)]);
      r.sessions == [Session(t1, DateLabel(d1), 0, 0, NewCraft)] + s.sessions
  {
    SessionReflectsSinceStart(s, ToggleRecording(t0, d0), [], ToggleRecording(t1, d1));
    assert [ToggleRecording(t0, d0)] + [] + [ToggleRecording(t1, d1)] == [ToggleRecording(t0, d0), ToggleRecording(t1, d1)];
  }

  lemma {:induction false} CountTicks(n: nat)
    ensures TickCount(seq(n, _ => IntervalTick)) == n
    ensures TapCount(seq(n, _ => IntervalTick)) == 0
    ensures NoToggle(seq(n, _ => IntervalTick))
  {
    if n > 0 {
      CountTicks(n - 1);
      assert seq(n, _ => IntervalTick)[1..] == seq(n - 1, _ => IntervalTick);
    }
  }

  lemma {:induction false} CountTaps(es: seq<Event>)
    requires AllTaps(es)
    ensures TapCount(es) == |es| && TickCount(es) == 0 && NoToggle(es)
  {
    if es != [] {
      CountTaps(es[1..]);
    }
  }

  lemma {:induction false} CountAppend(a: seq<Event>, b: seq<Event>)
    ensures TickCount(a + b) == TickCount(a) + TickCount(b)
    ensures TapCount(a + b) == TapCount(a) + TapCount(b)
  {
    if a == [] {
      assert a + b == b;
    } else {
      CountAppend(a[1..], b);
      assert (a + b)[1..] == a[1..] + b;
    }
  }

  /** Events that are neither toggles nor deletions leave the history alone. */
  lemma {:induction false} NonHistoryEventsKeepSessions(s: State, es: seq<Event>)
    requires forall i :: 0 <= i < |es| ==> !es[i].ToggleRecording? && !es[i].DeleteSession?
    ensures Run(s, es).sessions == s.sessions
    decreases |es|
  {
    if es != [] {
      NonHistoryEventsKeepSessions(Next(s, es[0]).next, es[1..]);
    }
  }

  // ---------------------------------------------------------------------------
  // The component's state, updated in place

  class App {
    var isRecording: bool
    var duration: nat
    var taps: nat
    var sessions: seq<Session>
    var clickEffects: seq<ClickEffect>

    ghost function Snapshot(): State
      reads this
    {
      State(isRecording, duration, taps, sessions, clickEffects)
    }

    ghost predicate Valid()
      reads this
    {
      CountersClearWhenIdle(Snapshot())
    }

    /** The state the component mounts with. */
    constructor ()
      ensures Valid() && Snapshot() == Initial()
    {
      isRecording := false;
      duration := 0;
      taps := 0;
      sessions := SeedSessions();
      clickEffects := [];
    }

    /** The record button: stop (recording the session) or start. */
    method Toggle(now: int, localeDate: string) returns (haptic: Haptic)
      requires Valid()
      modifies this
      ensures Valid()
      ensures Snapshot() == Next(old(Snapshot()), ToggleRecording(now, localeDate)).next
      ensures haptic == Next(old(Snapshot()), ToggleRecording(now, localeDate)).haptic
    {
      if isRecording {
        var newSession := Session(now, DateLabel(localeDate), duration, taps, NewCraft);
        sessions := [newSession] + sessions;
        duration := 0;
        taps := 0;
        haptic := Vibrate(StopPattern);
      } else {
        haptic := Vibrate(StartPattern);
      }
      isRecording := !isRecording;
    }

    /** A tap anywhere on the screen. */
    method Tap(now: int, x: int, y: int) returns (haptic: Haptic)
      requires Valid()
      modifies this
      ensures Valid()
      ensures Snapshot() == Next(old(Snapshot()), ScreenTap(now, x, y)).next
      ensures haptic == Next(old(Snapshot()), ScreenTap(now, x, y)).haptic
    {
      if !isRecording {
        return Silent;
      }
      taps := taps + 1;
      haptic := Vibrate(TapPattern);
      clickEffects := clickEffects + [ClickEffect(now, x, y)];
    }

    /** A firing of the one-second interval, which is armed only while recording. */
    method Tick()
      requires Valid()
      modifies this
      ensures Valid()
      ensures Snapshot() == Next(old(Snapshot()), IntervalTick).next
    {
      if isRecording {
        duration := duration + 1;
      }
    }

    /** The delete button of one session card. */
    method Delete(id: int)
      requires Valid()
      modifies this
      ensures Valid()
      ensures Snapshot() == Next(old(Snapshot()), DeleteSession(id)).next
    {
      sessions := Reject(sessions, SessionId, id);
    }

    /** The 600 ms timer a tap sets for the effect it enqueued. */
    method ExpireEffect(id: int)
      requires Valid()
      modifies this
      ensures Valid()
      ensures Snapshot() == Next(old(Snapshot()), EffectExpired(id)).next
    {
      clickEffects := Reject(clickEffects, EffectId, id);
    }
  }
}
