/**
  The price worker and its shutdown (Daemon/src/controller.cpp): one worker thread, one thread
  calling Start and Stop, an atomic flag, a mutex, a condition variable and a join. `Next`
  gives one atomic step; a run is a sequence of events in any order the scheduler likes.
*/
module Controller {
  import opened Common
  import opened Sql
  import opened Companies
  import opened Ingest

  datatype Holder = Nobody | WorkerThread | StopperThread

  datatype Worker =
    | NotStarted | Begin | LoopCheck
    | Fetch(i: nat)
    | AddCompany(i: nat, info: CompanyInfo)
    | LookUp(i: nat, info: CompanyInfo)
    | AddPrice(i: nat, info: CompanyInfo, id: int, j: nat)
    | AcquireLock | CheckPredicate | GoToSleep | Asleep(notified: bool) | Reacquire(timedOut: bool) | Release
    | Exited
    | Crashed  // an exception left the thread function: the process is terminated

  /** `Idle` has no thread to join; `Running` is between Start and Stop; the rest is inside Stop. */
  datatype Stopper = Idle | Running | AtLock | AtNotify | AtUnlock | AtJoin

  /** `asked` and `log` record every symbol fetched and what came back, oldest first. */
  datatype State = State(flag: bool, holder: Holder, worker: Worker, stopper: Stopper,
                         db: Db, asked: seq<string>, log: seq<CompanyInfo>)

  /** Whether `wait_for` may time out or wake up spuriously is left to the environment. */
  datatype Env = Env(symbols: seq<string>, timeouts: bool, spurious: bool)

  datatype Event =
    | Start | StopperStep
    | Fetched(info: CompanyInfo) | Added(gap: nat) | Answered(answer: Result<int, Failure>)
    | WorkerStep | Timeout | SpuriousWakeup

  /** What GetRowID can answer, a missing table included. */
  predicate LookUpAnswer(db: Db, symbol: string, answer: Result<int, Failure>) {
    match db.companies
    case None => answer == Err(NoSuchTable)
    case Some(t) => RowIdAnswer(t.rows, symbol, answer)
  }

  function Next(env: Env, s: State, e: Event): Option<State> {
    if s.worker.Crashed? then None else
    match e
    case Start =>
      if s.stopper.Idle? then Some(s.(flag := false, worker := Begin, stopper := Running)) else None
    case StopperStep => StopperNext(s)
    case _ => WorkerNext(env, s, e)
  }

  function StopperNext(s: State): Option<State> {
    match s.stopper
    case Idle => None
    case Running => Some(s.(flag := true, stopper := AtLock))
    case AtLock => if s.holder.Nobody? then Some(s.(holder := StopperThread, stopper := AtNotify)) else None
    case AtNotify =>
      Some(s.(stopper := AtUnlock, worker := if s.worker.Asleep? then Asleep(true) else s.worker))
    case AtUnlock => Some(s.(holder := Nobody, stopper := AtJoin))
    case AtJoin => if s.worker.Exited? then Some(s.(stopper := Idle)) else None
  }

  function WorkerNext(env: Env, s: State, e: Event): Option<State> {
    match (s.worker, e)
    case (Begin, WorkerStep) => Some(s.(worker := if env.symbols == [] then Exited else LoopCheck))
    case (LoopCheck, WorkerStep) => Some(s.(worker := if s.flag then Exited else Fetch(0)))
    case (Fetch(i), WorkerStep) => if i >= |env.symbols| then Some(s.(worker := AcquireLock)) else None
    case (Fetch(i), Fetched(info)) =>
      if i < |env.symbols|
      then Some(s.(worker := AddCompany(i, info), asked := s.asked + [env.symbols[i]], log := s.log + [info])) else None
    case (AddCompany(i, info), Added(gap)) =>
      (match Exec(s.db, InsertCompany(info.shortName, info.fullName, info.logo, gap))
       case Ok(next) => Some(s.(worker := LookUp(i, info), db := next))
       case Err(_) => Some(s.(worker := Crashed)))
    case (LookUp(i, info), Answered(answer)) =>
      if !LookUpAnswer(s.db, info.shortName, answer) then None
      else Some(s.(worker := if answer.Ok? then AddPrice(i, info, answer.value, 0) else Crashed))
    case (AddPrice(i, info, id, j), WorkerStep) =>
      if j >= |info.priceList| then Some(s.(worker := Fetch(i + 1))) else
      (match Exec(s.db, InsertPrice(id, info.priceList[j].amount, info.priceList[j].time))
       case Ok(next) => Some(s.(worker := AddPrice(i, info, id, j + 1), db := next))
       case Err(_) => Some(s.(worker := Crashed)))
    case (AcquireLock, WorkerStep) =>
      if s.holder.Nobody? then Some(s.(holder := WorkerThread, worker := CheckPredicate)) else None
    case (CheckPredicate, WorkerStep) => Some(s.(worker := if s.flag then Release else GoToSleep))
    case (GoToSleep, WorkerStep) => Some(s.(holder := Nobody, worker := Asleep(false)))
    case (Asleep(notified), WorkerStep) => if notified then Some(s.(worker := Reacquire(false))) else None
    case (Asleep(_), SpuriousWakeup) => if env.spurious then Some(s.(worker := Reacquire(false))) else None
    case (Asleep(_), Timeout) => if env.timeouts then Some(s.(worker := Reacquire(true))) else None
    case (Reacquire(timedOut), WorkerStep) =>
      if s.holder.Nobody?
      then Some(s.(holder := WorkerThread, worker := if timedOut then Release else CheckPredicate)) else None
    case (Release, WorkerStep) => Some(s.(holder := Nobody, worker := LoopCheck))
    case (_, _) => None
  }

  function Run(env: Env, s: State, events: seq<Event>): Option<State>
    decreases |events|
  {
    if events == [] then Some(s) else
    match Run(env, s, events[..|events| - 1])
    case None => None
    case Some(mid) => Next(env, mid, events[|events| - 1])
  }

  // ----- what every step keeps -----

  predicate Stopping(s: State) {
    !s.stopper.Idle? && !s.stopper.Running?
  }

  /** Who holds the mutex, what the flag means, and the heart of it: no sleep behind a spent notify. */
  ghost predicate Protocol(env: Env, s: State) {
    && (s.holder.WorkerThread? <==> s.worker.CheckPredicate? || s.worker.GoToSleep? || s.worker.Release?)
    && (s.holder.StopperThread? <==> s.stopper.AtNotify? || s.stopper.AtUnlock?)
    && (Stopping(s) ==> s.flag) && (s.stopper.Running? ==> !s.flag)
    && (s.stopper.Idle? ==> s.worker.NotStarted? || s.worker.Exited?)
    && (s.worker.NotStarted? ==> s.stopper.Idle?)
    && ((s.worker.Asleep? && !s.worker.notified) || s.worker.GoToSleep? ==>
          s.stopper.Running? || s.stopper.AtLock? || s.stopper.AtNotify?)
    && (s.worker.Fetch? ==> s.worker.i <= |env.symbols|)
    && (s.worker.AddCompany? || s.worker.LookUp? || s.worker.AddPrice? ==> s.worker.i < |env.symbols|)
    && (s.worker.AddPrice? ==> s.worker.j <= |s.worker.info.priceList|)
  }

  lemma StopperKeepsProtocol(env: Env, s: State)
    requires Protocol(env, s) && StopperNext(s).Some?
    ensures Protocol(env, StopperNext(s).value)
  {
  }

  /** The worker's steps that write to the store stay clear of flag, mutex and wait. */
  lemma WriterKeepsProtocol(env: Env, s: State, e: Event)
    requires Protocol(env, s) && WorkerNext(env, s, e).Some?
    requires s.worker.Fetch? || s.worker.AddCompany? || s.worker.LookUp? || s.worker.AddPrice?
    ensures Protocol(env, WorkerNext(env, s, e).value)
  {
  }

  lemma WaiterKeepsProtocol(env: Env, s: State, e: Event)
    requires Protocol(env, s) && WorkerNext(env, s, e).Some?
    requires !s.worker.Fetch? && !s.worker.AddCompany? && !s.worker.LookUp? && !s.worker.AddPrice?
    ensures Protocol(env, WorkerNext(env, s, e).value)
  {
  }

  lemma StepKeepsProtocol(env: Env, s: State, e: Event)
    requires Protocol(env, s) && Next(env, s, e).Some?
    ensures Protocol(env, Next(env, s, e).value)
  {
    if e.StopperStep? {
      StopperKeepsProtocol(env, s);
    } else if !e.Start? {
      if s.worker.Fetch? || s.worker.AddCompany? || s.worker.LookUp? || s.worker.AddPrice? {
        WriterKeepsProtocol(env, s, e);
      } else {
        WaiterKeepsProtocol(env, s, e);
      }
    }
  }

  /** No thread has been started; the flag's first value does not matter. */
  predicate Initial(s: State) {
    s.holder.Nobody? && s.worker.NotStarted? && s.stopper.Idle? && s.log == []
  }

  lemma {:induction false} RunKeepsProtocol(env: Env, s: State, events: seq<Event>)
    requires Protocol(env, s) && Run(env, s, events).Some?
    ensures Protocol(env, Run(env, s, events).value)
    decreases |events|
  {
    if events == [] {
    } else {
      RunKeepsProtocol(env, s, events[..|events| - 1]);
      StepKeepsProtocol(env, Run(env, s, events[..|events| - 1]).value, events[|events| - 1]);
    }
  }

  /**
    In every interleaving, timeouts or none: once Stop has done its notify, a worker still in
    the wait has been notified; and only one thread at a time is inside the mutex.
  */
  lemma NoLostWakeup(env: Env, s: State, events: seq<Event>)
    requires Initial(s) && Run(env, s, events).Some?
    ensures var end := Run(env, s, events).value;
      && (end.flag && (end.stopper.AtUnlock? || end.stopper.AtJoin?) && end.worker.Asleep? ==> end.worker.notified)
      && !((end.worker.CheckPredicate? || end.worker.GoToSleep? || end.worker.Release?)
           && (end.stopper.AtNotify? || end.stopper.AtUnlock?))
  {
    RunKeepsProtocol(env, s, events);
  }

  // ----- shutdown terminates -----

  /** Worker phases in the only order they can still happen once the flag is set. */
  function Phase(w: Worker): nat {
    match w
    case Fetch(_) => 10 case AddCompany(_, _) => 10 case LookUp(_, _) => 10 case AddPrice(_, _, _, _) => 10
    case AcquireLock => 9 case GoToSleep => 8 case Asleep(_) => 7 case Reacquire(_) => 6
    case CheckPredicate => 5 case Release => 4 case Begin => 3 case LoopCheck => 2
    case NotStarted => 0 case Exited => 0 case Crashed => 0
  }

  function StopperLeft(p: Stopper): nat {
    match p case Idle => 0 case Running => 5 case AtLock => 4 case AtNotify => 3 case AtUnlock => 2 case AtJoin => 1
  }

  /** How many more fetches this pass can make. */
  function FetchesLeft(env: Env, w: Worker): nat {
    match w
    case Fetch(i) => if i <= |env.symbols| then |env.symbols| - i else 0
    case AddCompany(i, _) => if i < |env.symbols| then |env.symbols| - i - 1 else 0
    case LookUp(i, _) => if i < |env.symbols| then |env.symbols| - i - 1 else 0
    case AddPrice(i, _, _, _) => if i < |env.symbols| then |env.symbols| - i - 1 else 0
    case _ => 0
  }

  /** Work left between two fetches: the add, the lookup, the prices, the step on. */
  function PriceStepsLeft(w: Worker): nat {
    match w
    case AddCompany(_, info) => |info.priceList| + 4
    case LookUp(_, info) => |info.priceList| + 3
    case AddPrice(_, info, _, j) => if j <= |info.priceList| then |info.priceList| - j + 2 else 0
    case Fetch(_) => 1
    case _ => 0
  }

  /** Lexicographic: stopper steps, phase, fetches left, price steps left. */
  ghost predicate Smaller(env: Env, a: State, b: State) {
    || StopperLeft(a.stopper) < StopperLeft(b.stopper)
    || (StopperLeft(a.stopper) == StopperLeft(b.stopper)
        && (|| Phase(a.worker) < Phase(b.worker)
            || (Phase(a.worker) == Phase(b.worker)
                && (|| FetchesLeft(env, a.worker) < FetchesLeft(env, b.worker)
                    || (FetchesLeft(env, a.worker) == FetchesLeft(env, b.worker)
                        && PriceStepsLeft(a.worker) < PriceStepsLeft(b.worker))))))
  }

  lemma WorkerStepGetsSmaller(env: Env, s: State, e: Event)
    requires Protocol(env, s) && s.flag && WorkerNext(env, s, e).Some?
    ensures var next := WorkerNext(env, s, e).value; Smaller(env, next, s) && next.stopper == s.stopper
  {
  }

  lemma StopStepGetsSmaller(env: Env, s: State, e: Event)
    requires Protocol(env, s) && Stopping(s) && Next(env, s, e).Some?
    ensures Smaller(env, Next(env, s, e).value, s)
    ensures Stopping(Next(env, s, e).value) || Next(env, s, e).value.stopper.Idle?
  {
    if !e.Start? && !e.StopperStep? { WorkerStepGetsSmaller(env, s, e); }
  }

  /** Some step is always possible until the join is over, even if no timeout ever fires. */
  lemma NoDeadlock(env: Env, s: State)
    requires Protocol(env, s) && Stopping(s) && !s.worker.Crashed?
    ensures exists e :: Next(env, s, e).Some?
  {
    if s.stopper.AtNotify? || s.stopper.AtUnlock? || (s.stopper.AtJoin? && s.worker.Exited?) {
      assert Next(env, s, StopperStep).Some?;
    } else if s.stopper.AtLock? && s.holder.Nobody? {
      assert Next(env, s, StopperStep).Some?;
    } else if s.worker.Fetch? && s.worker.i < |env.symbols| {
      assert Next(env, s, Fetched(CompanyInfo("", "", "", []))).Some?;
    } else if s.worker.AddCompany? {
      assert Next(env, s, Added(0)).Some?;
    } else if s.worker.LookUp? && s.db.companies.None? {
      assert Next(env, s, Answered(Err(NoSuchTable))).Some?;
    } else if s.worker.LookUp? {
      var rows := s.db.companies.value.rows;
      if CutByNul(s.worker.info.shortName) {
        assert Next(env, s, Answered(Err(SyntaxError))).Some?;
      } else if k :| 0 <= k < |rows| && Matches(rows[k], s.worker.info.shortName) {
        assert Next(env, s, Answered(Ok(rows[k].id))).Some?;
      } else {
        assert Next(env, s, Answered(Err(NoRow))).Some?;
      }
    } else {
      assert Next(env, s, WorkerStep).Some?;
    }
  }

  /** The n-th event really is the step from the n-th state to the next, before the join is over. */
  ghost predicate Takes(env: Env, states: nat -> State, events: nat -> Event, n: nat) {
    !states(n).stopper.Idle? && Next(env, states(n), events(n)) == Some(states(n + 1))
  }

  lemma {:induction false} NoInfiniteDescent(env: Env, states: nat -> State, events: nat -> Event, n: nat)
    requires Protocol(env, states(n)) && Stopping(states(n))
    requires forall m: nat :: Takes(env, states, events, m)
    ensures false
    decreases StopperLeft(states(n).stopper), Phase(states(n).worker),
              FetchesLeft(env, states(n).worker), PriceStepsLeft(states(n).worker)
  {
    assert Takes(env, states, events, n) && Takes(env, states, events, n + 1);
    StepKeepsProtocol(env, states(n), events(n));
    StopStepGetsSmaller(env, states(n), events(n));
    NoInfiniteDescent(env, states, events, n + 1);
  }

  /**
    Stop always gets through: no schedule, however unfair, takes steps for ever after the flag
    is set without the join completing.
  */
  lemma StopTerminates(env: Env, states: nat -> State, events: nat -> Event)
    requires Protocol(env, states(0)) && Stopping(states(0))
    ensures exists n: nat :: !Takes(env, states, events, n)
  {
    if forall n: nat :: Takes(env, states, events, n) {
      NoInfiniteDescent(env, states, events, 0);
    }
  }

  function Fetches(events: seq<Event>): nat {
    if events == [] then 0 else
    Fetches(events[..|events| - 1]) + if events[|events| - 1].Fetched? then 1 else 0
  }

  lemma WorkerStepCounts(env: Env, s: State, e: Event)
    requires Protocol(env, s) && s.flag && WorkerNext(env, s, e).Some?
    ensures var next := WorkerNext(env, s, e).value;
      && FetchesLeft(env, next.worker) + (if e.Fetched? then 1 else 0) <= FetchesLeft(env, s.worker)
      && |next.log| == |s.log| + (if e.Fetched? then 1 else 0)
      && next.flag && next.stopper == s.stopper
  {
  }

  lemma StopStepCounts(env: Env, s: State, e: Event)
    requires Protocol(env, s) && s.flag && !s.stopper.Running? && !e.Start? && Next(env, s, e).Some?
    ensures var next := Next(env, s, e).value;
      && Protocol(env, next) && next.flag && !next.stopper.Running?
      && FetchesLeft(env, next.worker) + (if e.Fetched? then 1 else 0) <= FetchesLeft(env, s.worker)
      && |next.log| == |s.log| + if e.Fetched? then 1 else 0
  {
    StepKeepsProtocol(env, s, e);
    if !e.StopperStep? { WorkerStepCounts(env, s, e); }
  }

  /** After the flag is set the worker fetches at most the rest of the pass it is in. */
  lemma {:induction false} AtMostTheRestOfOnePass(env: Env, s: State, events: seq<Event>)
    requires Protocol(env, s) && Stopping(s) && Start !in events && Run(env, s, events).Some?
    ensures var end := Run(env, s, events).value;
      && Protocol(env, end) && end.flag && !end.stopper.Running?
      && Fetches(events) + FetchesLeft(env, end.worker) <= FetchesLeft(env, s.worker) <= |env.symbols|
      && |end.log| == |s.log| + Fetches(events)
    decreases |events|
  {
    if events == [] {
    } else {
      var n := |events| - 1;
      AtMostTheRestOfOnePass(env, s, events[..n]);
      assert events[n] in events;
      StopStepCounts(env, Run(env, s, events[..n]).value, events[n]);
    }
  }

  /** Once the worker has exited, and so after every join, nothing but a new Start moves the store. */
  lemma {:induction false} StoreIsStillAfterExit(env: Env, s: State, events: seq<Event>)
    requires Protocol(env, s) && s.worker.Exited? && Start !in events && Run(env, s, events).Some?
    ensures var end := Run(env, s, events).value; end.worker.Exited? && end.db == s.db && end.log == s.log
    decreases |events|
  {
    if events == [] {
    } else {
      assert events[|events| - 1] in events;
      StoreIsStillAfterExit(env, s, events[..|events| - 1]);
    }
  }

  // ----- what the store holds, at every moment of every run -----

  /** The info being written. */
  function InHand(w: Worker): Option<CompanyInfo> {
    match w
    case AddCompany(_, info) => Some(info)
    case LookUp(_, info) => Some(info)
    case AddPrice(_, info, _, _) => Some(info)
    case _ => None
  }

  /** The infos merged in full so far; the one in hand is not among them. */
  function Merged(w: Worker, log: seq<CompanyInfo>): seq<CompanyInfo> {
    if InHand(w).Some? && log != [] then log[..|log| - 1] else log
  }

  /** Everything merged, plus the part of the info in hand that has been written. */
  function Expected(book: Book, w: Worker, log: seq<CompanyInfo>): Book {
    var done := MergeAll(book, Merged(w, log));
    match w
    case LookUp(_, info) => Merge(done, FirstPrices(info, 0))
    case AddPrice(_, info, _, j) =>
      if j <= |info.priceList| then Merge(done, FirstPrices(info, j)) else done
    case _ => done
  }

  /** The info in hand is the last one fetched. */
  predicate HandKept(w: Worker, log: seq<CompanyInfo>) {
    InHand(w).Some? ==> log != [] && log[|log| - 1] == InHand(w).value
  }

  ghost predicate LinksKept(db: Db, w: Worker)
    requires Ready(db)
  {
    Integral(db) && (w.AddPrice? ==> HasId(db.companies.value.rows, w.id))
  }

  ghost predicate RowHas(db: Db, id: int, uuid: string)
    requires Ready(db)
  {
    exists i :: 0 <= i < |db.companies.value.rows| && db.companies.value.rows[i].id == id
             && db.companies.value.rows[i].uuid == uuid
  }

  ghost predicate BookKept(db: Db, w: Worker, log: seq<CompanyInfo>, book: Book)
    requires Ready(db)
  {
    && !w.Crashed?
    && BookOf(db) == Expected(book, w, log)
    && (w.LookUp? ==> HasUuid(db.companies.value.rows, w.info.shortName))
    && (w.AddPrice? ==> RowHas(db, w.id, w.info.shortName))
  }

  ghost predicate StoreKept(db: Db, w: Worker, log: seq<CompanyInfo>, book: Book) {
    && Ready(db) && HandKept(w, log)
    && (NoneCloses(log) ==> LinksKept(db, w))
    && (AllPlain(log) ==> BookKept(db, w, log, book))
  }

  lemma FetchKeepsStore(db: Db, i: nat, log: seq<CompanyInfo>, info: CompanyInfo, book: Book)
    requires StoreKept(db, Fetch(i), log, book)
    ensures StoreKept(db, AddCompany(i, info), log + [info], book)
  {
    var now := log + [info];
    assert forall k :: 0 <= k < |log| ==> now[k] == log[k];
    assert now[..|now| - 1] == log;
  }

  lemma AddKeepsStore(db: Db, i: nat, log: seq<CompanyInfo>, info: CompanyInfo, gap: nat, book: Book)
    requires StoreKept(db, AddCompany(i, info), log, book)
    ensures StoreKept(After(db, InsertCompany(info.shortName, info.fullName, info.logo, gap)), LookUp(i, info), log, book)
  {
    StatementKeepsValid(db, InsertCompany(info.shortName, info.fullName, info.logo, gap));
    PlainNeverCloses(log);
    if NoneCloses(log) { AddMergesProfile(db, info, gap); }
  }

  lemma LookUpKeepsStore(db: Db, i: nat, log: seq<CompanyInfo>, info: CompanyInfo, answer: Result<int, Failure>, book: Book)
    requires StoreKept(db, LookUp(i, info), log, book) && RowIdAnswer(db.companies.value.rows, info.shortName, answer)
    ensures StoreKept(db, if answer.Ok? then AddPrice(i, info, answer.value, 0) else Crashed, log, book)
  {
    PlainNeverCloses(log);
    if NoneCloses(log) { LookupFindsLiveRow(db, info.shortName, answer); }
  }

  lemma PassedPrices(db: Db, i: nat, log: seq<CompanyInfo>, info: CompanyInfo, id: int, book: Book)
    requires StoreKept(db, AddPrice(i, info, id, |info.priceList|), log, book)
    ensures StoreKept(db, Fetch(i + 1), log, book)
  {
    assert FirstPrices(info, |info.priceList|) == info;
  }

  lemma ExpectedGrows(book: Book, i: nat, log: seq<CompanyInfo>, info: CompanyInfo, id: int, j: nat)
    requires j < |info.priceList|
    ensures var was := Expected(book, AddPrice(i, info, id, j), log);
            Expected(book, AddPrice(i, info, id, j + 1), log) ==
              was.(journal := was.journal + [(info.shortName, info.priceList[j])])
  {
    TaggedGrows(info.shortName, info.priceList, j);
  }

  lemma PriceKeepsBook(db: Db, i: nat, log: seq<CompanyInfo>, info: CompanyInfo, id: int, j: nat, book: Book)
    requires Ready(db) && BookKept(db, AddPrice(i, info, id, j), log, book) && j < |info.priceList|
    ensures var next := After(db, InsertPrice(id, info.priceList[j].amount, info.priceList[j].time));
            Ready(next) && BookKept(next, AddPrice(i, info, id, j + 1), log, book)
  {
    var rows := db.companies.value.rows;
    AddAppendsToJournal(db, id, info.priceList[j]);
    assert HasId(rows, id) && UuidOf(rows, id) == info.shortName by {
      var at :| 0 <= at < |rows| && rows[at].id == id && rows[at].uuid == info.shortName;
      UuidOfRow(db.companies.value, at);
    }
    ExpectedGrows(book, i, log, info, id, j);
  }

  lemma PriceKeepsStore(db: Db, i: nat, log: seq<CompanyInfo>, info: CompanyInfo, id: int, j: nat, book: Book)
    requires StoreKept(db, AddPrice(i, info, id, j), log, book) && j < |info.priceList|
    ensures match Exec(db, InsertPrice(id, info.priceList[j].amount, info.priceList[j].time))
            case Ok(next) => StoreKept(next, AddPrice(i, info, id, j + 1), log, book)
            case Err(_) => StoreKept(db, Crashed, log, book)
  {
    PlainNeverCloses(log);
    AddAppendsToJournal(db, id, info.priceList[j]);
    if AllPlain(log) { PriceKeepsBook(db, i, log, info, id, j, book); }
  }

  predicate Writing(w: Worker) {
    InHand(w).Some? || w.Crashed?
  }

  lemma QuietKeepsStore(db: Db, w: Worker, next: Worker, log: seq<CompanyInfo>, book: Book)
    requires StoreKept(db, w, log, book) && !Writing(w) && !Writing(next)
    ensures StoreKept(db, next, log, book)
  {
    assert Expected(book, next, log) == Expected(book, w, log);
  }

  ghost predicate Kept(s: State, book: Book) {
    StoreKept(s.db, s.worker, s.log, book)
  }

  lemma FetchStepKeeps(env: Env, s: State, e: Event, book: Book)
    requires Kept(s, book) && s.worker.Fetch? && WorkerNext(env, s, e).Some?
    ensures Kept(WorkerNext(env, s, e).value, book)
  {
    if e.Fetched? {
      FetchKeepsStore(s.db, s.worker.i, s.log, e.info, book);
    } else {
      QuietKeepsStore(s.db, s.worker, AcquireLock, s.log, book);
    }
  }

  lemma AddStepIs(env: Env, s: State, e: Event)
    requires s.db.companies.Some? && s.worker.AddCompany? && WorkerNext(env, s, e).Some?
    ensures e.Added?
    ensures var AddCompany(i, info) := s.worker;
      WorkerNext(env, s, e).value ==
        s.(worker := LookUp(i, info), db := After(s.db, InsertCompany(info.shortName, info.fullName, info.logo, e.gap)))
  {
  }

  lemma AddStepKeeps(env: Env, s: State, e: Event, book: Book)
    requires Kept(s, book) && s.worker.AddCompany? && WorkerNext(env, s, e).Some?
    ensures Kept(WorkerNext(env, s, e).value, book)
  {
    var AddCompany(i, info) := s.worker;
    AddStepIs(env, s, e);
    var next := WorkerNext(env, s, e).value;
    assert StoreKept(next.db, next.worker, next.log, book) by { AddKeepsStore(s.db, i, s.log, info, e.gap, book); }
  }

  lemma LookUpStepKeeps(env: Env, s: State, e: Event, book: Book)
    requires Kept(s, book) && s.worker.LookUp? && WorkerNext(env, s, e).Some?
    ensures Kept(WorkerNext(env, s, e).value, book)
  {
    LookUpKeepsStore(s.db, s.worker.i, s.log, s.worker.info, e.answer, book);
  }

  /** The three ways a price step can go: no price left, one more in, or refused. */
  function AfterPrice(s: State): State
    requires s.worker.AddPrice?
  {
    var AddPrice(i, info, id, j) := s.worker;
    if j >= |info.priceList| then s.(worker := Fetch(i + 1)) else
    var r := Exec(s.db, InsertPrice(id, info.priceList[j].amount, info.priceList[j].time));
    if r.Ok? then s.(worker := AddPrice(i, info, id, j + 1), db := r.value) else s.(worker := Crashed)
  }

  lemma PriceStepIs(env: Env, s: State, e: Event)
    requires s.worker.AddPrice? && WorkerNext(env, s, e).Some?
    ensures WorkerNext(env, s, e).value == AfterPrice(s)
  {
  }

  lemma PriceStepKeeps(s: State, book: Book)
    requires Kept(s, book) && s.worker.AddPrice? && s.worker.j <= |s.worker.info.priceList|
    ensures Kept(AfterPrice(s), book)
  {
    var AddPrice(i, info, id, j) := s.worker;
    var next := AfterPrice(s);
    assert next.log == s.log;
    if j < |info.priceList| {
      var r := Exec(s.db, InsertPrice(id, info.priceList[j].amount, info.priceList[j].time));
      assert next.db == (if r.Ok? then r.value else s.db);
      assert next.worker == if r.Ok? then AddPrice(i, info, id, j + 1) else Crashed;
      assert StoreKept(next.db, next.worker, s.log, book) by { PriceKeepsStore(s.db, i, s.log, info, id, j, book); }
    } else {
      assert StoreKept(next.db, next.worker, s.log, book) by { PassedPrices(s.db, i, s.log, info, id, book); }
    }
  }

  /** No other step of either thread touches the store. */
  lemma QuietStep(env: Env, s: State, e: Event)
    requires Next(env, s, e).Some? && (e.Start? || e.StopperStep? || !(s.worker.Fetch? || Writing(s.worker)))
    ensures var next := Next(env, s, e).value;
      && next.db == s.db && next.log == s.log
      && (next.worker == s.worker || e.Start? || !(Writing(s.worker) || Writing(next.worker)))
      && (e.Start? ==> next.worker == Begin && s.stopper.Idle?)
  {
  }

  lemma StepKeepsStore(env: Env, s: State, e: Event, book: Book)
    requires Kept(s, book) && Protocol(env, s) && Next(env, s, e).Some?
    ensures Kept(Next(env, s, e).value, book)
  {
    if e.Start? || e.StopperStep? || !(s.worker.Fetch? || Writing(s.worker)) {
      var next := Next(env, s, e).value;
      QuietStep(env, s, e);
      if next.worker != s.worker { QuietKeepsStore(s.db, s.worker, next.worker, s.log, book); }
    } else if s.worker.Fetch? {
      FetchStepKeeps(env, s, e, book);
    } else if s.worker.AddCompany? {
      AddStepKeeps(env, s, e, book);
    } else if s.worker.LookUp? {
      LookUpStepKeeps(env, s, e, book);
    } else {
      PriceStepIs(env, s, e);
      PriceStepKeeps(s, book);
    }
  }

  lemma {:induction false} RunKeepsStore(env: Env, s: State, events: seq<Event>, book: Book)
    requires Protocol(env, s) && Kept(s, book) && Run(env, s, events).Some?
    ensures Kept(Run(env, s, events).value, book)
    decreases |events|
  {
    if events == [] {
    } else {
      var n := |events| - 1;
      RunKeepsStore(env, s, events[..n], book);
      RunKeepsProtocol(env, s, events[..n]);
      StepKeepsStore(env, Run(env, s, events[..n]).value, events[n], book);
    }
  }

  /**
    At every moment of every run, stops and restarts included: as long as no fetched symbol
    closes the quote, every price row names a company in the table; and as long as all fetched
    symbols are plain, the worker has not crashed and the store reads as exactly the fetched
    infos merged in order, the one in hand up to the price in hand.
  */
  lemma StoreOverWholeRuns(env: Env, s: State, events: seq<Event>)
    requires Initial(s) && Ready(s.db) && Integral(s.db) && Run(env, s, events).Some?
    ensures var end := Run(env, s, events).value;
      && Ready(end.db)
      && (NoneCloses(end.log) ==> Integral(end.db))
      && (AllPlain(end.log) ==>
            !end.worker.Crashed? && BookOf(end.db) == Expected(BookOf(s.db), end.worker, end.log))
      && (AllPlain(end.log) && end.stopper.Idle? ==> BookOf(end.db) == MergeAll(BookOf(s.db), end.log))
  {
    RunKeepsStore(env, s, events, BookOf(s.db));
    RunKeepsProtocol(env, s, events);
  }
}
