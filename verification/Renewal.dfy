/**
 Starting and stopping the certificate renewal service. Any number of callers
 call Start and Stop; each started loop runs concurrently with them. The lock
 covers only the flag and the stop channel: the wait group is raised, the loop
 is spawned and its end is awaited outside it, and a loop reads the service's
 current stop channel anew each time it gets to its select.
 */
module Renewal {
  type Caller = nat

  type LoopId = nat

  /** What the lock protects. Stop channels are numbered in the order they are made. */
  datatype Flags = Flags(running: bool, stopCh: nat, made: nat, closed: set<nat>, panicked: bool)

  function StartFlags(f: Flags): Flags {
    if f.running then f else f.(running := true, stopCh := f.made, made := f.made + 1)
  }

  function StopFlags(f: Flags): Flags {
    if f.running
    then f.(running := false, closed := f.closed + {f.stopCh}, panicked := f.panicked || f.stopCh in f.closed)
    else f
  }

  class Service {
    var running: bool
    var stopCh: nat
    var made: nat
    var closed: set<nat>
    var panicked: bool

    ghost function Value(): Flags
      reads this
    {
      Flags(running, stopCh, made, closed, panicked)
    }

    constructor ()
      ensures Value() == Flags(false, 0, 1, {}, false)
    {
      running, stopCh, made, closed, panicked := false, 0, 1, {}, false;
    }

    /** Start's critical section; the caller goes on only if it made the change. */
    method LockedStart() returns (goOn: bool)
      modifies this
      ensures Value() == StartFlags(old(Value())) && goOn == !old(running)
    {
      if running {
        return false;
      }
      running := true;
      stopCh, made := made, made + 1;
      goOn := true;
    }

    method LockedStop() returns (goOn: bool)
      modifies this
      ensures Value() == StopFlags(old(Value())) && goOn == old(running)
    {
      if !running {
        return false;
      }
      running := false;
      Close(stopCh);
      goOn := true;
    }

    /** Closing a closed channel panics. */
    method Close(ch: nat)
      modifies this`closed, this`panicked
      ensures closed == old(closed) + {ch} && panicked == (old(panicked) || ch in old(closed))
    {
      if ch in closed {
        panicked := true;
      }
      closed := closed + {ch};
    }
  }

  // ------------------------------------------------------------ executions

  /** Inside Start: Adding, Spawning. Inside Stop: Stopping (about to wait), Blocked, Released. */
  datatype CallerPc = Idle | Adding | Spawning | Stopping | Blocked | Released

  /** Selecting holds the stop channel the loop read when it got to its select. */
  datatype LoopPc = Checking | Selecting(ch: nat)

  /** `loops` holds the loops that have not ended. */
  datatype State = State(
    flags: Flags, callers: map<Caller, CallerPc>, loops: map<LoopId, LoopPc>, spawned: nat, wg: int)

  datatype Event =
    | StartLock(caller: Caller)
    | StartAdd(caller: Caller)
    | StartGo(caller: Caller)
    | StopLock(caller: Caller)
    | StopWait(caller: Caller)
    | StopReturn(caller: Caller)
    | LoopSelect(loop: LoopId)
    | LoopTick(loop: LoopId)
    | LoopEnd(loop: LoopId)

  const START: State := State(Flags(false, 0, 1, {}, false), map[], map[], 0, 0)

  function Pc(s: State, c: Caller): CallerPc {
    if c in s.callers then s.callers[c] else Idle
  }

  predicate Enabled(s: State, e: Event) {
    match e
    case StartLock(c) => Pc(s, c).Idle?
    case StartAdd(c) => Pc(s, c).Adding?
    case StartGo(c) => Pc(s, c).Spawning?
    case StopLock(c) => Pc(s, c).Idle?
    case StopWait(c) => Pc(s, c).Stopping?
    case StopReturn(c) => Pc(s, c).Released?
    case LoopSelect(l) => l in s.loops && s.loops[l].Checking?
    case LoopTick(l) => l in s.loops && s.loops[l].Selecting?
    case LoopEnd(l) => l in s.loops && s.loops[l].Selecting? && s.loops[l].ch in s.flags.closed
  }

  function Move(s: State, c: Caller, pc: CallerPc): State {
    s.(callers := s.callers[c := pc])
  }

  /** The wait group's count reaching zero frees every waiter. */
  function Freed(callers: map<Caller, CallerPc>): map<Caller, CallerPc> {
    map c | c in callers :: if callers[c].Blocked? then Released else callers[c]
  }

  function Apply(s: State, e: Event): State
    requires Enabled(s, e)
  {
    match e
    case StartLock(c) =>
      if s.flags.running then s else Move(s, c, Adding).(flags := StartFlags(s.flags))
    case StartAdd(c) => Move(s, c, Spawning).(wg := s.wg + 1)
    case StartGo(c) => Move(s, c, Idle).(loops := s.loops[s.spawned := Checking], spawned := s.spawned + 1)
    case StopLock(c) =>
      if s.flags.running then Move(s, c, Stopping).(flags := StopFlags(s.flags)) else s
    case StopWait(c) => Move(s, c, if s.wg == 0 then Released else Blocked)
    case StopReturn(c) => Move(s, c, Idle)
    case LoopSelect(l) => s.(loops := s.loops[l := Selecting(s.flags.stopCh)])
    case LoopTick(l) => s.(loops := s.loops[l := Checking])
    case LoopEnd(l) =>
      s.(loops := s.loops - {l}, wg := s.wg - 1, callers := if s.wg == 1 then Freed(s.callers) else s.callers)
  }

  ghost predicate Execution(events: seq<Event>)
    decreases |events|, 0
  {
    events == [] || (
      var before := events[..|events| - 1];
      Execution(before) && Enabled(After(before), events[|events| - 1]))
  }

  ghost function After(events: seq<Event>): State
    requires Execution(events)
    decreases |events|, 1
  {
    if events == [] then START
    else Apply(After(events[..|events| - 1]), events[|events| - 1])
  }

  // -------------------------------------------------------- every execution

  ghost function SpawningCallers(s: State): set<Caller> {
    set c | c in s.callers && s.callers[c].Spawning?
  }

  /** The wait group counts the loops that run and those about to be spawned. */
  ghost predicate Counted(s: State) {
    s.wg == |s.loops| + |SpawningCallers(s)| && forall l :: l in s.loops ==> l < s.spawned
  }

  ghost predicate Safe(s: State) {
    && !s.flags.panicked
    && (s.flags.running ==> s.flags.stopCh !in s.flags.closed)
    && s.flags.stopCh < s.flags.made
    && (forall ch :: ch in s.flags.closed ==> ch < s.flags.made)
  }

  /** How many loops more a step leaves running. */
  function LoopsMore(e: Event): int {
    if e.StartGo? then 1 else if e.LoopEnd? then -1 else 0
  }

  function SpawningMore(e: Event): int {
    if e.StartAdd? then 1 else if e.StartGo? then -1 else 0
  }

  lemma SpawningChanges(s: State, e: Event)
    requires Enabled(s, e)
    ensures var before, after := SpawningCallers(s), SpawningCallers(Apply(s, e));
            && (e.StartAdd? ==> e.caller !in before && after == before + {e.caller})
            && (e.StartGo? ==> e.caller in before && after == before - {e.caller})
            && (!e.StartAdd? && !e.StartGo? ==> after == before)
  {
  }

  lemma SpawningCount(s: State, e: Event)
    requires Enabled(s, e)
    ensures |SpawningCallers(Apply(s, e))| == |SpawningCallers(s)| + SpawningMore(e)
  {
    hide SpawningCallers, Apply, Enabled;
    SpawningChanges(s, e);
  }

  lemma LoopCount(s: State, e: Event)
    requires Enabled(s, e) && s.spawned !in s.loops
    ensures |Apply(s, e).loops| == |s.loops| + LoopsMore(e)
  {
    match e {
      case StartGo(c) => LoopAdded(s.loops, s.spawned);
      case LoopSelect(l) => LoopReplaced(s.loops, l, Selecting(s.flags.stopCh));
      case LoopTick(l) => LoopReplaced(s.loops, l, Checking);
      case LoopEnd(l) => LoopRemoved(s.loops, l);
      case _ =>
    }
  }

  lemma StepKeepsCount(s: State, e: Event)
    requires Counted(s) && Enabled(s, e)
    ensures Counted(Apply(s, e))
  {
    hide SpawningCallers;
    SpawningCount(s, e);
    LoopCount(s, e);
  }

  lemma LoopAdded(loops: map<LoopId, LoopPc>, l: LoopId)
    requires l !in loops
    ensures |loops[l := Checking]| == |loops| + 1
  {
    assert loops[l := Checking].Keys == loops.Keys + {l};
    assert |loops.Keys| == |loops| && |loops[l := Checking].Keys| == |loops[l := Checking]|;
  }

  lemma LoopReplaced(loops: map<LoopId, LoopPc>, l: LoopId, pc: LoopPc)
    requires l in loops
    ensures |loops[l := pc]| == |loops|
  {
    assert loops[l := pc].Keys == loops.Keys;
    assert |loops.Keys| == |loops| && |loops[l := pc].Keys| == |loops[l := pc]|;
  }

  lemma LoopRemoved(loops: map<LoopId, LoopPc>, l: LoopId)
    requires l in loops
    ensures |loops - {l}| == |loops| - 1
  {
    assert (loops - {l}).Keys == loops.Keys - {l};
    assert |loops.Keys| == |loops| && |(loops - {l}).Keys| == |loops - {l}|;
  }

  /**
   Whatever the callers do, no stop channel is closed twice, a running service
   has an open stop channel, and the wait group counts exactly the running
   loops and those about to be spawned, so it never goes below zero.
   */
  lemma {:induction false} NoDoubleClose(events: seq<Event>)
    requires Execution(events)
    ensures Safe(After(events)) && Counted(After(events)) && After(events).wg >= 0
    decreases |events|
  {
    if events != [] {
      var n := |events| - 1;
      NoDoubleClose(events[..n]);
      StepKeepsCount(After(events[..n]), events[n]);
    }
  }

  // ---------------------------------------------------- calls that take turns

  predicate Quiet(s: State) {
    forall c :: c in s.callers ==> s.callers[c].Idle?
  }

  /** The call changes the running flag; a Start of a running service or a Stop of a stopped one does nothing. */
  predicate Takes(s: State, e: Event) {
    (e.StartLock? && !s.flags.running) || (e.StopLock? && s.flags.running)
  }

  /** No call takes effect while another is under way. */
  ghost predicate TakingTurns(events: seq<Event>)
    requires Execution(events)
    decreases |events|
  {
    events == [] || (
      var before := events[..|events| - 1];
      TakingTurns(before) && (Takes(After(before), events[|events| - 1]) ==> Quiet(After(before))))
  }

  predicate ByOnly(c: Caller, e: Event) {
    e.LoopSelect? || e.LoopTick? || e.LoopEnd? || e.caller == c
  }

  /** A single caller always takes turns with itself. */
  lemma {:induction false} SingleCallerTakesTurns(events: seq<Event>, c: Caller)
    requires Execution(events) && forall i :: 0 <= i < |events| ==> ByOnly(c, events[i])
    ensures TakingTurns(events) && After(events).callers.Keys <= {c}
    decreases |events|
  {
    if events != [] {
      SingleCallerTakesTurns(events[..|events| - 1], c);
      assert ByOnly(c, events[|events| - 1]);
    }
  }

  predicate OneCaller(s: State) {
    forall a, b :: a in s.callers && b in s.callers && !s.callers[a].Idle? && !s.callers[b].Idle? ==> a == b
  }

  predicate OneLoop(s: State) {
    forall l, k :: l in s.loops && k in s.loops ==> l == k
  }

  predicate CallerAgrees(s: State, pc: CallerPc) {
    match pc
    case Idle => true
    case Adding | Spawning => s.flags.running && s.loops == map[]
    case Stopping | Blocked => !s.flags.running
    case Released => !s.flags.running && s.loops == map[]
  }

  predicate LoopAgrees(s: State, l: LoopId)
    requires l in s.loops
  {
    && (s.loops[l].Selecting? ==> s.loops[l].ch == s.flags.stopCh)
    && (!s.flags.running ==> s.flags.stopCh in s.flags.closed
                             && exists c :: c in s.callers && (s.callers[c].Stopping? || s.callers[c].Blocked?))
  }

  /** What holds when calls take turns. */
  ghost predicate Orderly(s: State) {
    && OneCaller(s) && OneLoop(s)
    && (forall c :: c in s.callers ==> CallerAgrees(s, s.callers[c]))
    && (forall l :: l in s.loops ==> LoopAgrees(s, l))
    && (forall c :: c in s.callers && s.callers[c].Blocked? ==> s.wg > 0)
  }

  lemma LockIsOrderly(s: State, e: Event)
    requires Orderly(s) && Safe(s) && Enabled(s, e) && (e.StartLock? || e.StopLock?) && (Takes(s, e) ==> Quiet(s))
    ensures Orderly(Apply(s, e))
  {
    var t := Apply(s, e);
    if e.StopLock? && Takes(s, e) {
      assert t.callers[e.caller].Stopping?;
    } else if Takes(s, e) {
      assert s.loops == map[];
    }
  }

  lemma StartIsOrderly(s: State, e: Event)
    requires Orderly(s) && Enabled(s, e) && (e.StartAdd? || e.StartGo?)
    ensures Orderly(Apply(s, e))
  {
    assert CallerAgrees(s, s.callers[e.caller]);
  }

  lemma StopIsOrderly(s: State, e: Event)
    requires Orderly(s) && Counted(s) && Enabled(s, e) && (e.StopWait? || e.StopReturn?)
    ensures Orderly(Apply(s, e))
  {
    var t := Apply(s, e);
    assert CallerAgrees(s, s.callers[e.caller]);
    if t.loops != map[] {
      assert t.callers[e.caller].Blocked?;
    }
  }

  lemma LoopIsOrderly(s: State, e: Event)
    requires Orderly(s) && Counted(s) && Enabled(s, e) && (e.LoopSelect? || e.LoopTick? || e.LoopEnd?)
    ensures Orderly(Apply(s, e))
  {
    var t := Apply(s, e);
    assert LoopAgrees(s, e.loop);
    if e.LoopEnd? {
      assert t.loops == map[];
      assert s.wg == 1 by { LoopAlone(s, e.loop); }
    }
  }

  /** The only loop is all the wait group counts. */
  lemma LoopAlone(s: State, l: LoopId)
    requires Orderly(s) && Counted(s) && l in s.loops
    ensures s.wg == 1
  {
    assert s.loops.Keys == {l};
    assert |s.loops| == |s.loops.Keys|;
    assert SpawningCallers(s) == {};
  }

  lemma StepIsOrderly(s: State, e: Event)
    requires Orderly(s) && Safe(s) && Counted(s) && Enabled(s, e) && (Takes(s, e) ==> Quiet(s))
    ensures Orderly(Apply(s, e))
  {
    hide Orderly, Safe, Counted;
    if e.StartLock? || e.StopLock? {
      LockIsOrderly(s, e);
    } else if e.StartAdd? || e.StartGo? {
      StartIsOrderly(s, e);
    } else if e.StopWait? || e.StopReturn? {
      StopIsOrderly(s, e);
    } else {
      LoopIsOrderly(s, e);
    }
  }

  lemma {:induction false} TurnsAreOrderly(events: seq<Event>)
    requires Execution(events) && TakingTurns(events)
    ensures Orderly(After(events))
    decreases |events|
  {
    if events != [] {
      var n := |events| - 1;
      TurnsAreOrderly(events[..n]);
      NoDoubleClose(events[..n]);
      StepIsOrderly(After(events[..n]), events[n]);
    }
  }

  /**
   When calls take turns, two loops never coexist, and when a Stop that had
   something to stop returns, no loop is left and none is about to start.
   */
  lemma StopWaitsForTheLoop(events: seq<Event>)
    requires Execution(events) && TakingTurns(events)
    ensures |After(events).loops| <= 1
    ensures forall c :: Enabled(After(events), StopReturn(c)) ==>
              |After(events).loops| == 0 && After(events).wg == 0 && !After(events).flags.running
  {
    TurnsAreOrderly(events);
    NoDoubleClose(events);
    var s := After(events);
    if l :| l in s.loops {
      LoopAlone(s, l);
    } else {
      assert s.loops == map[];
    }
  }

  /**
   When calls take turns, a waiting Stop is never stuck: its loop can end at
   its next select, and that frees the call.
   */
  lemma StopCanReturn(events: seq<Event>, c: Caller) returns (rest: seq<Event>)
    requires Execution(events) && TakingTurns(events) && Pc(After(events), c).Blocked?
    ensures |rest| <= 2 && Execution(events + rest) && TakingTurns(events + rest)
    ensures Enabled(After(events + rest), StopReturn(c))
  {
    hide Execution, After, TakingTurns, Orderly, Counted, Safe;
    TurnsAreOrderly(events);
    NoDoubleClose(events);
    var l := LastLoop(After(events), c);
    if After(events).loops[l].Checking? {
      Extend(events, LoopSelect(l));
      Extend(events + [LoopSelect(l)], LoopEnd(l));
      rest := [LoopSelect(l), LoopEnd(l)];
      assert events + rest == events + [LoopSelect(l)] + [LoopEnd(l)];
    } else {
      Extend(events, LoopEnd(l));
      rest := [LoopEnd(l)];
    }
  }

  /** The one loop a blocked Stop waits for; its stop channel is closed. */
  lemma LastLoop(s: State, c: Caller) returns (l: LoopId)
    requires Orderly(s) && Counted(s) && Pc(s, c).Blocked?
    ensures l in s.loops && s.wg == 1 && s.flags.stopCh in s.flags.closed
    ensures s.loops[l].Selecting? ==> s.loops[l].ch == s.flags.stopCh
  {
    assert CallerAgrees(s, s.callers[c]);
    assert SpawningCallers(s) == {};
    l :| l in s.loops;
    assert LoopAgrees(s, l);
    LoopAlone(s, l);
  }

  lemma Extend(events: seq<Event>, e: Event)
    requires Execution(events) && Enabled(After(events), e)
    ensures Execution(events + [e]) && After(events + [e]) == Apply(After(events), e)
    ensures TakingTurns(events) && !Takes(After(events), e) ==> TakingTurns(events + [e])
  {
    assert (events + [e])[..|events|] == events;
  }

  // ------------------------------------------------- when two loops can run

  /** The callers of a Start that took effect and has not spawned its loop yet. */
  ghost function Starters(s: State): set<Caller> {
    set c | c in s.callers && (s.callers[c].Adding? || s.callers[c].Spawning?)
  }

  /** The loops that run and those on their way. */
  ghost function Load(s: State): nat {
    |s.loops| + |Starters(s)|
  }

  /** This Start takes effect. */
  predicate Starts(s: State, e: Event) {
    e.StartLock? && !s.flags.running
  }

  /** Events from s on, none of them a Start that takes effect. */
  predicate StartFree(s: State, rest: seq<Event>)
    decreases |rest|
  {
    rest == [] || (Enabled(s, rest[0]) && !Starts(s, rest[0]) && StartFree(Apply(s, rest[0]), rest[1..]))
  }

  function Reached(s: State, rest: seq<Event>): State
    requires StartFree(s, rest)
    decreases |rest|
  {
    if rest == [] then s else Reached(Apply(s, rest[0]), rest[1..])
  }

  /** Such events continue an execution. */
  lemma {:induction false} ReachedExtends(events: seq<Event>, rest: seq<Event>)
    requires Execution(events) && StartFree(After(events), rest)
    ensures Execution(events + rest) && After(events + rest) == Reached(After(events), rest)
    decreases |rest|
  {
    if rest == [] {
      assert events + rest == events;
    } else {
      hide Execution, After, Apply, Enabled, Starts;
      Extend(events, rest[0]);
      ReachedExtends(events + [rest[0]], rest[1..]);
      assert events + [rest[0]] + rest[1..] == events + rest;
    }
  }

  /** From s on, without a further Start that takes effect, n loops can come to run together. */
  ghost predicate CanRun(s: State, n: nat) {
    exists rest :: StartFree(s, rest) && |Reached(s, rest).loops| >= n
  }

  lemma StartersChange(s: State, e: Event)
    requires Enabled(s, e)
    ensures var before, after := Starters(s), Starters(Apply(s, e));
            && (Starts(s, e) ==> e.caller !in before && after == before + {e.caller})
            && (e.StartGo? ==> e.caller in before && after == before - {e.caller})
            && (!Starts(s, e) && !e.StartGo? ==> after == before)
  {
  }

  /** Only a Start that takes effect raises the load, and only a loop that ends lowers it. */
  lemma LoadChange(s: State, e: Event)
    requires Enabled(s, e) && s.spawned !in s.loops
    ensures Load(Apply(s, e)) == Load(s) + (if Starts(s, e) then 1 else if e.LoopEnd? then -1 else 0)
  {
    hide Starters, Apply, Enabled;
    StartersChange(s, e);
    LoopCount(s, e);
  }

  lemma {:induction false} LoadNeverGrows(s: State, rest: seq<Event>)
    requires Counted(s) && StartFree(s, rest)
    ensures Load(Reached(s, rest)) <= Load(s)
    decreases |rest|
  {
    if rest != [] {
      hide Load, Counted, Apply, Enabled, Starts;
      assert s.spawned !in s.loops by { CountedIsFresh(s); }
      LoadChange(s, rest[0]);
      StepKeepsCount(s, rest[0]);
      LoadNeverGrows(Apply(s, rest[0]), rest[1..]);
    }
  }

  lemma CountedIsFresh(s: State)
    requires Counted(s)
    ensures s.spawned !in s.loops
  {
  }

  /** Every loop on its way can be spawned before any loop ends. */
  lemma {:induction false} LoadCanRun(s: State) returns (rest: seq<Event>)
    requires Counted(s)
    ensures StartFree(s, rest) && |Reached(s, rest).loops| == Load(s)
    decreases Load(s) - |s.loops|, |AddingCallers(s)|
  {
    hide Counted, Apply;
    rest := [];
    if c :| c in Starters(s) {
      var e := if s.callers[c].Adding? then StartAdd(c) else StartGo(c);
      CountedIsFresh(s);
      LoadChange(s, e);
      LoopCount(s, e);
      if e.StartAdd? {
        AddingShrinks(s, e);
      }
      StepKeepsCount(s, e);
      var more := LoadCanRun(Apply(s, e));
      rest := [e] + more;
      assert rest[1..] == more;
    }
  }

  ghost function AddingCallers(s: State): set<Caller> {
    set c | c in s.callers && s.callers[c].Adding?
  }

  lemma AddingShrinks(s: State, e: Event)
    requires Enabled(s, e) && e.StartAdd?
    ensures |AddingCallers(Apply(s, e))| < |AddingCallers(s)|
  {
    assert e.caller in AddingCallers(s);
    assert AddingCallers(Apply(s, e)) == AddingCallers(s) - {e.caller};
  }

  /** After any execution, n loops can come to run together exactly when n loops run or are on their way. */
  lemma LoopsPossibleExactly(events: seq<Event>, n: nat)
    requires Execution(events)
    ensures CanRun(After(events), n) <==> Load(After(events)) >= n
  {
    hide Execution, After, Load;
    NoDoubleClose(events);
    var s := After(events);
    forall rest | StartFree(s, rest)
      ensures |Reached(s, rest).loops| <= Load(s)
    {
      LoadNeverGrows(s, rest);
      LoadCovers(Reached(s, rest));
    }
    var all := LoadCanRun(s);
    assert StartFree(s, all) && |Reached(s, all).loops| == Load(s);
  }

  lemma LoadCovers(s: State)
    ensures |s.loops| <= Load(s)
  {
  }

  /** Nothing runs and nothing is on its way. */
  predicate Clear(s: State) {
    s.loops == map[] && forall c :: c in s.callers ==> !s.callers[c].Adding? && !s.callers[c].Spawning?
  }

  lemma ClearIsNoLoad(s: State)
    ensures Clear(s) <==> Load(s) == 0
  {
    if Load(s) == 0 {
      assert s.loops == map[];
      forall c | c in s.callers
        ensures !s.callers[c].Adding? && !s.callers[c].Spawning?
      {
        assert c !in Starters(s);
      }
    }
    if Clear(s) {
      assert Starters(s) == {};
    }
  }

  /**
   A Start that takes effect makes two loops possible exactly when a loop runs
   or another Start is on its way.
   */
  lemma StartRisksTwoExactly(events: seq<Event>, c: Caller)
    requires Execution(events) && Enabled(After(events), StartLock(c)) && Starts(After(events), StartLock(c))
    ensures CanRun(Apply(After(events), StartLock(c)), 2) <==> !Clear(After(events))
  {
    hide Execution, After, Clear, Starters;
    var s := After(events);
    NoDoubleClose(events);
    CountedIsFresh(s);
    LoadChange(s, StartLock(c));
    ClearIsNoLoad(s);
    Extend(events, StartLock(c));
    LoopsPossibleExactly(events + [StartLock(c)], 2);
  }

  /** Every Start that takes effect does so with nothing running and nothing on its way. */
  ghost predicate ClearStarts(events: seq<Event>)
    requires Execution(events)
    decreases |events|
  {
    events == [] || (
      var before := events[..|events| - 1];
      ClearStarts(before) && (Starts(After(before), events[|events| - 1]) ==> Clear(After(before))))
  }

  /** At no point of the execution can two loops come to run together. */
  ghost predicate OneAtATime(events: seq<Event>)
    requires Execution(events)
    decreases |events|
  {
    !CanRun(After(events), 2) && (events == [] || OneAtATime(events[..|events| - 1]))
  }

  /**
   So two loops can come to run together at no point of an execution exactly
   when all its effective Starts are clear; and then at most one ever runs.
   */
  lemma {:induction false} OneLoopExactly(events: seq<Event>)
    requires Execution(events)
    ensures OneAtATime(events) <==> ClearStarts(events)
    ensures ClearStarts(events) ==> |After(events).loops| <= 1
    decreases |events|
  {
    LoopsPossibleExactly(events, 2);
    LoadCovers(After(events));
    if events == [] {
      ClearIsNoLoad(START);
    } else {
      hide Load, Clear, Apply, Starts, Enabled, CanRun;
      var n := |events| - 1;
      var before, e := events[..n], events[n];
      OneLoopExactly(before);
      LoopsPossibleExactly(before, 2);
      NoDoubleClose(before);
      CountedIsFresh(After(before));
      LoadChange(After(before), e);
      ClearIsNoLoad(After(before));
    }
  }

  /**
   In every execution a Stop is let go only at a moment without a loop. A loop
   can then still start, without a further Start that takes effect, exactly
   when some Start had taken effect but not yet raised the wait group.
   */
  lemma ReleasedStopSawNoLoop(events: seq<Event>, e: Event, c: Caller)
    requires Execution(events) && Enabled(After(events), e)
    requires !Pc(After(events), c).Released? && Pc(Apply(After(events), e), c).Released?
    ensures var t := Apply(After(events), e);
            && t.wg == 0 && t.loops == map[]
            && (CanRun(t, 1) <==> exists x :: x in t.callers && t.callers[x].Adding?)
  {
    var t := Apply(After(events), e);
    NoDoubleClose(events);
    StepKeepsCount(After(events), e);
    assert t.wg == 0;
    hide Execution, After, Apply, Enabled, StartFree;
    Extend(events, e);
    LoopsPossibleExactly(events + [e], 1);
    assert |t.loops| == 0 && |SpawningCallers(t)| == 0;
    assert t.loops == map[];
    OnlyAddingLeft(t);
  }

  lemma OnlyAddingLeft(t: State)
    requires |t.loops| == 0 && |SpawningCallers(t)| == 0
    ensures Load(t) >= 1 <==> exists x :: x in t.callers && t.callers[x].Adding?
  {
    assert SpawningCallers(t) == {};
    if x :| x in t.callers && t.callers[x].Adding? {
      assert x in Starters(t);
    }
    if Load(t) >= 1 {
      var x :| x in Starters(t);
      assert x !in SpawningCallers(t);
    }
  }

  /**
   Without turns the promise fails: caller 1 stops the service while its first
   loop is still checking certificates, caller 0 starts it again before the loop
   gets to its select. The old loop then reads the new channel, so two loops
   run and caller 1 stays blocked.
   */
  lemma OverlappingCallsLeaveTwoLoops() returns (events: seq<Event>)
    ensures Execution(events) && |After(events).loops| == 2
    ensures Pc(After(events), 1).Blocked? && After(events).flags.running
  {
    hide Execution, After;
    events := NoEvents();
    events := Then(events, StartLock(0));
    events := Then(events, StartAdd(0));
    events := Then(events, StartGo(0));
    events := Then(events, StopLock(1));
    events := Then(events, StopWait(1));
    events := Then(events, StartLock(0));
    events := Then(events, StartAdd(0));
    events := Then(events, StartGo(0));
    assert After(events).loops == map[0 := Checking, 1 := Checking];
  }

  lemma NoEvents() returns (none: seq<Event>)
    ensures none == [] && Execution(none) && After(none) == START
  {
    none := [];
  }

  lemma Then(events: seq<Event>, e: Event) returns (longer: seq<Event>)
    requires Execution(events) && Enabled(After(events), e)
    ensures longer == events + [e] && Execution(longer) && After(longer) == Apply(After(events), e)
  {
    Extend(events, e);
    longer := events + [e];
  }
}
