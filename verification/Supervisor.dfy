/**
  The supervising process (Daemon/src/main.cpp, the loop of PeakworkDaemonProc): fork a
  worker, wait for a signal, reap and restart or stop. The kernel's side - children, their wait
  statuses, pending signals - moves on its own between the supervisor's steps.
*/
module Supervisor {
  import opened Common

  datatype Signal = SIGCHLD | Other(number: nat)
  datatype WaitStatus = ExitedWith(code: nat) | KilledBy(number: nat)
  datatype Child = Alive | Zombie(status: WaitStatus)

  const NEED_TO_TERMINATE := 1

  /** WEXITSTATUS reads bits 8 to 15, which are zero for a child killed by a signal. */
  function ExitStatus(w: WaitStatus): nat {
    match w case ExitedWith(code) => code % 256 case KilledBy(_) => 0
  }

  /** Loop head, signal wait, child wait, after the break, returned. */
  datatype Pc = Top | Waiting | Reaping | Broken | Returned

  /** `log` records the supervisor's own steps, `told` every process it has sent SIGTERM. */
  datatype State = State(pc: Pc, needStart: bool, pid: int, status: nat, log: seq<Event>, told: seq<int>,
                         children: map<int, Child>, pending: set<Signal>, pidFile: bool)

  datatype Event =
    // the supervisor's own steps
    | Forked(child: int) | ForkFailed | SkippedFork
    | Took(signal: Signal) | Reaped(child: int, wait: WaitStatus) | WaitFailed | Unlinked
    // the world's
    | ChildEnds(child: int, wait: WaitStatus) | ChildStops(child: int) | Arrives(signal: Signal)

  predicate OfWorld(e: Event) {
    e.ChildEnds? || e.ChildStops? || e.Arrives?
  }

  function Next(s: State, e: Event): Option<State> {
    match e
    case Forked(child) =>
      if s.pc.Top? && s.needStart && child > 0 && child !in s.children
      then Some(s.(pc := Waiting, needStart := true, pid := child, children := s.children[child := Alive], log := s.log + [e]))
      else None
    case ForkFailed =>
      if s.pc.Top? && s.needStart then Some(s.(pid := -1, needStart := true, log := s.log + [e])) else None
    case SkippedFork =>
      if s.pc.Top? && !s.needStart
      then Some(s.(pc := if s.pid == -1 then Top else Waiting, needStart := true, log := s.log + [e])) else None
    case Took(signal) =>
      if !s.pc.Waiting? || signal !in s.pending then None
      else if signal.SIGCHLD? then Some(s.(pc := Reaping, pending := s.pending - {signal}, log := s.log + [e]))
      else Some(s.(pc := Broken, status := 0, told := s.told + [s.pid], pending := s.pending - {signal}, log := s.log + [e]))
    case Reaped(child, wait) =>
      if s.pc.Reaping? && child in s.children && s.children[child] == Zombie(wait)
      then Some(s.(pc := if ExitStatus(wait) == NEED_TO_TERMINATE then Broken else Top,
                   status := ExitStatus(wait), children := s.children - {child}, log := s.log + [e]))
      else None
    case WaitFailed =>
      if s.pc.Reaping? && s.children == map[]
      then Some(s.(pc := if s.status == NEED_TO_TERMINATE then Broken else Top, log := s.log + [e])) else None
    case Unlinked =>
      if s.pc.Broken? then Some(s.(pc := Returned, pidFile := false, log := s.log + [e])) else None
    case ChildEnds(child, wait) =>
      if child in s.children && s.children[child].Alive?
      then Some(s.(children := s.children[child := Zombie(wait)], pending := s.pending + {SIGCHLD})) else None
    case ChildStops(child) =>
      if child in s.children && s.children[child].Alive? then Some(s.(pending := s.pending + {SIGCHLD})) else None
    case Arrives(signal) => Some(s.(pending := s.pending + {signal}))
  }

  function Run(s: State, events: seq<Event>): Option<State> {
    if events == [] then Some(s) else
    match Run(s, events[..|events| - 1])
    case None => None
    case Some(mid) => Next(mid, events[|events| - 1])
  }

  /** Before the loop; stray signals may already be pending, and the pid file may not have been written. */
  predicate Initial(s: State) {
    s.pc.Top? && s.needStart && s.children == map[] && s.log == [] && s.told == []
  }

  // ----- the invariant -----

  /** What the supervisor's next own step may be, after each of its steps. */
  predicate MayFollow(first: Event, second: Event) {
    match first
    case ForkFailed => second.Forked? || second.ForkFailed?
    case Forked(_) => second.Took?
    case Took(signal) => if signal.SIGCHLD? then second.Reaped? else second.Unlinked?
    case Reaped(_, wait) =>
      if ExitStatus(wait) == NEED_TO_TERMINATE then second.Unlinked? else second.Forked? || second.ForkFailed?
    case _ => false
  }

  ghost predicate WellOrdered(log: seq<Event>) {
    && (log != [] ==> log[0].Forked? || log[0].ForkFailed?)
    && forall i :: 0 <= i < |log| - 1 ==> MayFollow(log[i], log[i + 1])
  }

  /** Where the program counter stands is what the last own step left. */
  ghost predicate AtItsPlace(s: State) {
    if s.log == [] then s.pc.Top? else
    match s.log[|s.log| - 1]
    case ForkFailed => s.pc.Top?
    case Forked(_) => s.pc.Waiting?
    case Took(signal) => if signal.SIGCHLD? then s.pc.Reaping? else s.pc.Broken?
    case Reaped(_, wait) => if ExitStatus(wait) == NEED_TO_TERMINATE then s.pc.Broken? else s.pc.Top?
    case Unlinked => s.pc.Returned? && !s.pidFile
    case _ => false
  }

  /** The exit status that the supervisor's own steps so far call for, once it has left the loop. */
  ghost predicate StatusKept(s: State) {
    (s.pc.Broken? ==> s.log != [] && s.status == StatusAfter(s.log[|s.log| - 1]))
    && (s.pc.Returned? ==> |s.log| >= 2 && s.status == StatusAfter(s.log[|s.log| - 2]))
  }

  function StatusAfter(e: Event): nat {
    match e case Reaped(_, wait) => ExitStatus(wait) case _ => 0
  }

  /** The child being waited for is the one last forked; only a signal makes the supervisor tell it to end. */
  ghost predicate ChildKept(s: State) {
    && (s.pc.Waiting? || s.pc.Reaping? ==> s.pid in s.children)
    && (s.log != [] && s.log[|s.log| - 1].ForkFailed? ==> s.pid == -1)
    && (if LeftBySignal(s) then s.told == [s.pid] && s.pid in s.children else s.told == [])
    && ((s.pc.Broken? || s.pc.Returned?) && !LeftBySignal(s) ==> s.children == map[])
  }

  /** It is out of the loop, and a signal other than SIGCHLD has got it there. */
  predicate LeftBySignal(s: State) {
    || (s.pc.Broken? && s.log != [] && IsOtherSignal(s.log[|s.log| - 1]))
    || (s.pc.Returned? && |s.log| >= 2 && IsOtherSignal(s.log[|s.log| - 2]))
  }

  predicate IsOtherSignal(e: Event) {
    e.Took? && !e.signal.SIGCHLD?
  }

  ghost predicate Inv(s: State) {
    && s.needStart && WellOrdered(s.log) && AtItsPlace(s)
    && |s.children| <= 1
    && (s.pc.Top? ==> s.children == map[])
    && (s.pc.Waiting? || s.pc.Reaping? ==> |s.children| == 1)
    && Forks(s.log) == Reaps(s.log) + |s.children|
  }

  function Forks(log: seq<Event>): nat {
    if log == [] then 0 else Forks(log[..|log| - 1]) + if log[|log| - 1].Forked? then 1 else 0
  }

  function Reaps(log: seq<Event>): nat {
    if log == [] then 0 else Reaps(log[..|log| - 1]) + if log[|log| - 1].Reaped? then 1 else 0
  }

  lemma LogGrows(log: seq<Event>, e: Event)
    requires WellOrdered(log)
    requires if log == [] then e.Forked? || e.ForkFailed? else MayFollow(log[|log| - 1], e)
    ensures WellOrdered(log + [e])
    ensures Forks(log + [e]) == Forks(log) + if e.Forked? then 1 else 0
    ensures Reaps(log + [e]) == Reaps(log) + if e.Reaped? then 1 else 0
  {
    assert (log + [e])[..|log|] == log;
  }

  lemma OnlyChild(children: map<int, Child>, child: int)
    requires |children| == 1 && child in children
    ensures children - {child} == map[] && children.Keys == {child}
  {
    assert children.Keys == {child} by {
      assert |children.Keys - {child}| == 0;
    }
  }

  lemma WorldKeepsInv(s: State, e: Event)
    requires Inv(s) && OfWorld(e) && Next(s, e).Some?
    ensures Inv(Next(s, e).value)
  {
    var next := Next(s, e).value;
    assert next.children.Keys == s.children.Keys;
    assert |next.children| == |next.children.Keys| && |s.children| == |s.children.Keys|;
  }

  lemma NextIsInOrder(s: State, e: Event)
    requires Inv(s) && !OfWorld(e) && Next(s, e).Some?
    ensures if s.log == [] then e.Forked? || e.ForkFailed? else MayFollow(s.log[|s.log| - 1], e)
  {
  }

  lemma OwnStepIsLogged(s: State, e: Event)
    requires s.needStart && !OfWorld(e) && Next(s, e).Some?
    ensures var next := Next(s, e).value; next.log == s.log + [e] && next.needStart
  {
  }

  lemma OwnStepKeepsOrder(s: State, e: Event)
    requires Inv(s) && !OfWorld(e) && Next(s, e).Some?
    ensures var next := Next(s, e).value;
      && next.needStart && next.log == s.log + [e] && WellOrdered(next.log)
      && Forks(next.log) == Forks(s.log) + (if e.Forked? then 1 else 0)
      && Reaps(next.log) == Reaps(s.log) + (if e.Reaped? then 1 else 0)
  {
    NextIsInOrder(s, e);
    OwnStepIsLogged(s, e);
    LogGrows(s.log, e);
  }

  lemma OwnStepKeepsPlace(s: State, e: Event)
    requires Inv(s) && !OfWorld(e) && Next(s, e).Some?
    ensures AtItsPlace(Next(s, e).value)
  {
    NextIsInOrder(s, e);
    var log := Next(s, e).value.log;
    assert log == s.log + [e] && log[|log| - 1] == e;
  }

  lemma ForkKeepsFamily(s: State, e: Event)
    requires Inv(s) && e.Forked? && Next(s, e).Some?
    ensures |s.children| == 0 && |Next(s, e).value.children| == 1 && Next(s, e).value.pc.Waiting?
  {
    assert s.children == map[];
    assert Next(s, e).value.children == map[e.child := Alive];
  }

  lemma ReapKeepsFamily(s: State, e: Event)
    requires Inv(s) && e.Reaped? && Next(s, e).Some?
    ensures |s.children| == 1 && Next(s, e).value.children == map[]
    ensures Next(s, e).value.pc.Top? || Next(s, e).value.pc.Broken?
  {
    OnlyChild(s.children, e.child);
  }

  lemma OwnStepKeepsFamily(s: State, e: Event)
    requires Inv(s) && !OfWorld(e) && Next(s, e).Some?
    ensures var next := Next(s, e).value;
      && |next.children| <= 1
      && (next.pc.Top? ==> next.children == map[])
      && (next.pc.Waiting? || next.pc.Reaping? ==> |next.children| == 1)
      && |next.children| + (if e.Reaped? then 1 else 0) == |s.children| + (if e.Forked? then 1 else 0)
  {
    if e.Forked? {
      ForkKeepsFamily(s, e);
    } else if e.Reaped? {
      ReapKeepsFamily(s, e);
    } else {
      assert Next(s, e).value.children == s.children;
    }
  }

  lemma OwnStepKeepsInv(s: State, e: Event)
    requires Inv(s) && !OfWorld(e) && Next(s, e).Some?
    ensures Inv(Next(s, e).value)
  {
    OwnStepKeepsOrder(s, e);
    OwnStepKeepsPlace(s, e);
    OwnStepKeepsFamily(s, e);
  }

  lemma StepKeepsInv(s: State, e: Event)
    requires Inv(s) && Next(s, e).Some?
    ensures Inv(Next(s, e).value)
  {
    if OfWorld(e) { WorldKeepsInv(s, e); } else { OwnStepKeepsInv(s, e); }
  }

  lemma {:induction false} RunKeepsInv(s: State, events: seq<Event>)
    requires Initial(s) && Run(s, events).Some?
    ensures Inv(Run(s, events).value)
    decreases |events|
  {
    if events == [] {
    } else {
      RunKeepsInv(s, events[..|events| - 1]);
      StepKeepsInv(Run(s, events[..|events| - 1]).value, events[|events| - 1]);
    }
  }

  /**
    In every run: never two unreaped children, none at all whenever a fork is tried, every
    fork is reaped but for the child still out, the fork is never skipped and the wait never
    fails.
  */
  lemma OneChildAtATime(s: State, events: seq<Event>)
    requires Initial(s) && Run(s, events).Some?
    ensures var end := Run(s, events).value;
      && |end.children| <= 1 && (end.pc.Top? ==> end.children == map[])
      && Forks(end.log) == Reaps(end.log) + |end.children|
      && Next(end, SkippedFork).None? && Next(end, WaitFailed).None?
  {
    RunKeepsInv(s, events);
  }

  /** What the supervisor does next, read off the wait status and the signal themselves. */
  ghost predicate RestartsOrStops(first: Event, second: Event) {
    && (first.Reaped? && (first.wait.KilledBy? || first.wait == ExitedWith(0)) ==> second.Forked? || second.ForkFailed?)
    && (first.Reaped? && first.wait == ExitedWith(1) ==> second.Unlinked?)
    && (first.Reaped? ==> (second.Unlinked? <==> first.wait.ExitedWith? && first.wait.code % 256 == 1))
    && (first.Reaped? && !second.Unlinked? ==> second.Forked? || second.ForkFailed?)
    && (second.Unlinked? ==> first.Reaped? || IsOtherSignal(first))
    && !first.Unlinked?
  }

  lemma OrderSays(first: Event, second: Event)
    requires MayFollow(first, second)
    ensures RestartsOrStops(first, second)
  {
  }

  /**
    After a child that was killed or exited with 0, NeedToWork, the next thing the supervisor does
    is try to fork again; after one that exited with 1, NeedToTerminate, it is to unlink the pid
    file, which it does only then or after a signal other than SIGCHLD, and as its last step.
  */
  lemma RestartsUnlessToldToStop(s: State, events: seq<Event>, i: nat)
    requires Initial(s) && Run(s, events).Some? && i + 1 < |Run(s, events).value.log|
    ensures RestartsOrStops(Run(s, events).value.log[i], Run(s, events).value.log[i + 1])
  {
    RunKeepsInv(s, events);
    OrderSays(Run(s, events).value.log[i], Run(s, events).value.log[i + 1]);
  }

  lemma StepKeepsEnding(s: State, e: Event)
    requires Inv(s) && StatusKept(s) && ChildKept(s) && Next(s, e).Some?
    ensures StatusKept(Next(s, e).value) && ChildKept(Next(s, e).value)
  {
    var next := Next(s, e).value;
    if OfWorld(e) {
      assert next.log == s.log && next.children.Keys == s.children.Keys;
    } else {
      OwnStepIsLogged(s, e);
      assert e.Unlinked? ==> next.log[|next.log| - 2] == s.log[|s.log| - 1];
      if e.Reaped? { ReapKeepsFamily(s, e); }
    }
  }

  lemma {:induction false} RunKeepsEnding(s: State, events: seq<Event>)
    requires Initial(s) && Run(s, events).Some?
    ensures StatusKept(Run(s, events).value) && ChildKept(Run(s, events).value)
    decreases |events|
  {
    if events == [] {
    } else {
      var n := |events| - 1;
      RunKeepsEnding(s, events[..n]);
      RunKeepsInv(s, events[..n]);
      StepKeepsEnding(Run(s, events[..n]).value, events[n]);
    }
  }

  /**
    A returned supervisor answers 1 exactly when its last child exited with NeedToTerminate, and
    0 otherwise, which is after another signal; then, and only then, it has told its child, which
    is still unreaped, to end.
  */
  lemma ReturnsTheStatus(s: State, events: seq<Event>)
    requires Initial(s) && Run(s, events).Some? && Run(s, events).value.pc.Returned?
    ensures |Run(s, events).value.log| >= 2
    ensures var end := Run(s, events).value; var last := end.log[|end.log| - 2];
      && (end.status == 1 <==> last.Reaped? && last.wait.ExitedWith? && last.wait.code % 256 == 1)
      && (end.status == 0 <==> IsOtherSignal(last))
      && (end.status == 0 || end.status == 1)
      && (if end.status == 0 then end.told == [end.pid] && end.children.Keys == {end.pid}
          else end.told == [] && end.children == map[])
  {
    RunKeepsInv(s, events);
    RunKeepsEnding(s, events);
    var end := Run(s, events).value;
    var n := |end.log|;
    assert MayFollow(end.log[n - 2], end.log[n - 1]);
    if IsOtherSignal(end.log[n - 2]) { OnlyChild(end.children, end.pid); }
  }

  /** The supervisor's own steps among the events, in order. */
  function Own(events: seq<Event>): seq<Event> {
    if events == [] then [] else
    Own(events[..|events| - 1]) + if OfWorld(events[|events| - 1]) then [] else [events[|events| - 1]]
  }

  lemma StepAfterTheLoop(s: State, e: Event)
    requires (s.pc.Broken? || (s.pc.Returned? && !s.pidFile)) && Next(s, e).Some?
    ensures var next := Next(s, e).value;
      && next.status == s.status
      && (if OfWorld(e) then next.pc == s.pc && next.log == s.log && next.pidFile == s.pidFile
          else s.pc.Broken? && e.Unlinked? && next.pc.Returned? && !next.pidFile && next.log == s.log + [e])
  {
  }

  /**
    Whatever happens around it after it has left the loop, the supervisor does one thing at
    most, unlinking the pid file, and has returned exactly if it has done that.
  */
  lemma {:induction false} AfterTheLoop(s: State, events: seq<Event>)
    requires s.pc.Broken? && Run(s, events).Some?
    ensures var end := Run(s, events).value;
      && (if end.pc.Returned? then Own(events) == [Unlinked] && !end.pidFile else end.pc.Broken? && Own(events) == [])
      && end.status == s.status && end.log == s.log + Own(events)
    decreases |events|
  {
    if events == [] {
    } else {
      var n := |events| - 1;
      AfterTheLoop(s, events[..n]);
      StepAfterTheLoop(Run(s, events[..n]).value, events[n]);
    }
  }

  /**
    A supervisor has returned exactly if the last thing it did was to unlink its pid file, which
    is then gone; one that has left the loop does that next, whatever happens around it.
  */
  lemma EveryExitUnlinks(s: State, events: seq<Event>, more: seq<Event>)
    requires Initial(s) && Run(s, events).Some?
    ensures var end := Run(s, events).value;
      && (end.pc.Returned? <==> end.log != [] && end.log[|end.log| - 1].Unlinked?)
      && (end.pc.Returned? ==> !end.pidFile)
      && (end.pc.Broken? ==> Next(end, Unlinked).Some?)
      && (end.pc.Broken? && Run(end, more).Some? && Own(more) != [] ==>
            Own(more) == [Unlinked] && Run(end, more).value.pc.Returned? && !Run(end, more).value.pidFile)
  {
    RunKeepsInv(s, events);
    var end := Run(s, events).value;
    if end.pc.Broken? && Run(end, more).Some? { AfterTheLoop(end, more); }
  }

  /** The supervisor is never stuck while it has something to react to. */
  lemma AlwaysReacts(s: State, events: seq<Event>)
    requires Initial(s) && Run(s, events).Some?
    ensures var end := Run(s, events).value;
      && (end.pc.Top? ==> Next(end, ForkFailed).Some? && Next(end, Forked(1)).Some?)
      && (forall signal :: end.pc.Waiting? && signal in end.pending ==> Next(end, Took(signal)).Some?)
      && (forall child :: end.pc.Reaping? && child in end.children && end.children[child].Zombie? ==>
            Next(end, Reaped(child, end.children[child].status)).Some?)
  {
    RunKeepsInv(s, events);
  }
}
