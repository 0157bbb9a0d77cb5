/**
  What the price worker gets done (Daemon/src/controller.cpp, UpdatePrices): it never quits
  unasked, every pass asks for every symbol once and in order, and passes can go on for ever.
*/
module Passes {
  import opened Common
  import opened Sql
  import opened Companies
  import opened Ingest
  import opened Controller

  // ----- safety: no pass is cut short -----

  lemma StepStaysAtWork(env: Env, s: State, e: Event)
    requires Next(env, s, e).Some?
    requires s.worker.Exited? && !s.flag ==> env.symbols == []
    ensures var next := Next(env, s, e).value; next.worker.Exited? && !next.flag ==> env.symbols == []
  {
  }

  /** At every moment of every run a worker that has left without being told to had nothing to fetch. */
  lemma {:induction false} NeverQuitsUnasked(env: Env, s: State, events: seq<Event>)
    requires Initial(s) && Run(env, s, events).Some?
    ensures var end := Run(env, s, events).value; end.worker.Exited? && !end.flag ==> env.symbols == []
    decreases |events|
  {
    if events == [] {
    } else {
      var n := |events| - 1;
      NeverQuitsUnasked(env, s, events[..n]);
      StepStaysAtWork(env, Run(env, s, events[..n]).value, events[n]);
    }
  }

  /** With no symbols configured the worker leaves at once, asks for nothing and keeps nobody waiting. */
  lemma {:induction false} NoSymbolsNoWork(env: Env, s: State, events: seq<Event>)
    requires Initial(s) && env.symbols == [] && Run(env, s, events).Some?
    ensures var end := Run(env, s, events).value;
      && (end.worker.NotStarted? || end.worker.Begin? || end.worker.Exited?)
      && end.asked == s.asked && end.db == s.db
    decreases |events|
  {
    if events == [] {
    } else {
      NoSymbolsNoWork(env, s, events[..|events| - 1]);
    }
  }

  /** How many symbols the pass under way has asked for. */
  function InPass(w: Worker): nat {
    match w
    case Fetch(i) => i
    case AddCompany(i, _) => i + 1
    case LookUp(i, _) => i + 1
    case AddPrice(i, _, _, _) => i + 1
    case _ => 0
  }

  /** The worker has come to the end of a pass. */
  predicate Arrives(s: State, next: State) {
    next.worker.AcquireLock? && !s.worker.AcquireLock?
  }

  /** How many passes a run completes. */
  function PassesDone(env: Env, s: State, events: seq<Event>): nat
    requires Run(env, s, events).Some?
    decreases |events|
  {
    if events == [] then 0 else
    var front := events[..|events| - 1];
    PassesDone(env, s, front)
      + if Arrives(Run(env, s, front).value, Run(env, s, events).value) then 1 else 0
  }

  /** The symbols of `n` whole passes. */
  function Rounds(symbols: seq<string>, n: nat): seq<string> {
    if n == 0 then [] else Rounds(symbols, n - 1) + symbols
  }

  /** The symbols asked for by whole passes and a pass that has come to its `k`-th symbol. */
  function AskedFor(symbols: seq<string>, passes: nat, k: nat): seq<string>
    requires k <= |symbols|
  {
    Rounds(symbols, passes) + symbols[..k]
  }

  lemma WorkerStepAsks(env: Env, s: State, e: Event)
    requires Protocol(env, s) && WorkerNext(env, s, e).Some? && !WorkerNext(env, s, e).value.worker.Crashed?
    ensures var next := WorkerNext(env, s, e).value; var k := InPass(s.worker);
      && k <= |env.symbols|
      && (if e.Fetched? then
            && k < |env.symbols| && InPass(next.worker) == k + 1 && !Arrives(s, next)
            && next.asked == s.asked + [env.symbols[k]] && next.log == s.log + [e.info]
          else
            && next.asked == s.asked && next.log == s.log
            && if Arrives(s, next) then k == |env.symbols| && InPass(next.worker) == 0 else InPass(next.worker) == k)
  {
  }

  lemma StepAsks(env: Env, s: State, e: Event)
    requires Protocol(env, s) && Next(env, s, e).Some? && !Next(env, s, e).value.worker.Crashed?
    ensures var next := Next(env, s, e).value; var k := InPass(s.worker);
      && k <= |env.symbols|
      && (if e.Fetched? then
            && k < |env.symbols| && InPass(next.worker) == k + 1 && !Arrives(s, next)
            && next.asked == s.asked + [env.symbols[k]] && next.log == s.log + [e.info]
          else
            && next.asked == s.asked && next.log == s.log
            && if Arrives(s, next) then k == |env.symbols| && InPass(next.worker) == 0 else InPass(next.worker) == k)
  {
    if !e.Start? && !e.StopperStep? { WorkerStepAsks(env, s, e); }
  }

  lemma OneMoreAsked(symbols: seq<string>, passes: nat, k: nat)
    requires k <= |symbols|
    ensures k < |symbols| ==> AskedFor(symbols, passes, k + 1) == AskedFor(symbols, passes, k) + [symbols[k]]
    ensures AskedFor(symbols, passes, |symbols|) == AskedFor(symbols, passes + 1, 0)
  {
    assert symbols[..|symbols|] == symbols;
  }

  /** What a run from `s` to `end` that has completed so many passes and made so many fetches has asked for. */
  ghost predicate Asked(env: Env, s: State, end: State, passes: nat, fetches: nat) {
    var k := InPass(end.worker);
    && k <= |env.symbols|
    && end.asked == s.asked + AskedFor(env.symbols, passes, k)
    && |end.log| - |s.log| == |end.asked| - |s.asked| == fetches
  }

  lemma AskedGrows(env: Env, s: State, mid: State, e: Event, passes: nat, fetches: nat)
    requires Asked(env, s, mid, passes, fetches) && Protocol(env, mid)
    requires Next(env, mid, e).Some? && !Next(env, mid, e).value.worker.Crashed?
    ensures var next := Next(env, mid, e).value;
      Asked(env, s, next, passes + (if Arrives(mid, next) then 1 else 0), fetches + (if e.Fetched? then 1 else 0))
  {
    StepAsks(env, mid, e);
    OneMoreAsked(env.symbols, passes, InPass(mid.worker));
  }

  /**
    Over every run from outside a pass, restarts included: the symbols asked for are those of
    the completed passes, each whole and in order, and the part of the pass under way; and each
    brought one info.
  */
  lemma {:induction false} AskedInOrder(env: Env, s: State, events: seq<Event>)
    requires Protocol(env, s) && InPass(s.worker) == 0 && Run(env, s, events).Some?
    requires !Run(env, s, events).value.worker.Crashed?
    ensures Asked(env, s, Run(env, s, events).value, PassesDone(env, s, events), Fetches(events))
    decreases |events|
  {
    if events == [] {
      assert AskedFor(env.symbols, 0, 0) == [];
    } else {
      var n := |events| - 1;
      AskedInOrder(env, s, events[..n]);
      RunKeepsProtocol(env, s, events[..n]);
      AskedGrows(env, s, Run(env, s, events[..n]).value, events[n], PassesDone(env, s, events[..n]), Fetches(events[..n]));
    }
  }

  /** From one loop head to the end of the next pass exactly the symbols are fetched, in order. */
  lemma OnePassAsksForAll(env: Env, s: State, events: seq<Event>)
    requires Protocol(env, s) && s.worker.LoopCheck? && Run(env, s, events).Some?
    requires Run(env, s, events).value.worker.AcquireLock? && PassesDone(env, s, events) == 1
    ensures var end := Run(env, s, events).value;
      && end.asked == s.asked + env.symbols && Fetches(events) == |env.symbols| == |end.log| - |s.log|
  {
    AskedInOrder(env, s, events);
    assert AskedFor(env.symbols, 1, 0) == env.symbols by {
      assert Rounds(env.symbols, 1) == Rounds(env.symbols, 0) + env.symbols;
    }
  }

  /** An exception out of a lookup, or a refused price, is the last thing a run sees. */
  lemma {:induction false} ThrowEndsTheRun(env: Env, s: State, events: seq<Event>, k: nat)
    requires Run(env, s, events).Some? && k < |events| && events[k].Answered? && events[k].answer.Err?
    ensures k == |events| - 1 && Run(env, s, events).value.worker.Crashed?
    decreases |events|
  {
    var n := |events| - 1;
    if k < n {
      ThrowEndsTheRun(env, s, events[..n], k);
    }
  }

  // ----- liveness: passes happen -----

  predicate Own(e: Event) {
    !e.Start? && !e.StopperStep?
  }

  ghost predicate Leads(env: Env, s: State, events: seq<Event>, end: State) {
    Run(env, s, events) == Some(end) && forall k :: 0 <= k < |events| ==> Own(events[k])
  }

  /** The worker can get there by its own steps alone. */
  ghost predicate Reaches(env: Env, s: State, end: State) {
    exists events :: Leads(env, s, events, end)
  }

  lemma RunOneMore(env: Env, s: State, front: seq<Event>, e: Event)
    requires Run(env, s, front).Some?
    ensures Run(env, s, front + [e]) == Next(env, Run(env, s, front).value, e)
  {
    assert (front + [e])[..|front|] == front;
  }

  lemma RunStopped(env: Env, s: State, front: seq<Event>, e: Event)
    requires Run(env, s, front).None?
    ensures Run(env, s, front + [e]).None?
  {
    assert (front + [e])[..|front|] == front;
  }

  lemma SplitEnd(first: seq<Event>, second: seq<Event>)
    requires second != []
    ensures var n := |second| - 1; second == second[..n] + [second[n]] && first + second == first + second[..n] + [second[n]]
  {
  }

  lemma {:induction false} RunConcat(env: Env, s: State, first: seq<Event>, second: seq<Event>)
    requires Run(env, s, first).Some?
    ensures Run(env, s, first + second) == Run(env, Run(env, s, first).value, second)
    decreases |second|
  {
    if second == [] {
      assert first + second == first;
    } else {
      var front, e, mid := second[..|second| - 1], second[|second| - 1], Run(env, s, first).value;
      RunConcat(env, s, first, front);
      SplitEnd(first, second);
      if Run(env, mid, front).Some? {
        RunOneMore(env, mid, front, e);
        RunOneMore(env, s, first + front, e);
      } else {
        RunStopped(env, mid, front, e);
        RunStopped(env, s, first + front, e);
      }
    }
  }

  lemma ReachesSelf(env: Env, s: State)
    ensures Reaches(env, s, s)
  {
    assert Leads(env, s, [], s);
  }

  lemma ReachesOn(env: Env, s: State, mid: State, end: State)
    requires Reaches(env, s, mid) && Reaches(env, mid, end)
    ensures Reaches(env, s, end)
  {
    var first :| Leads(env, s, first, mid);
    var second :| Leads(env, mid, second, end);
    RunConcat(env, s, first, second);
    assert Leads(env, s, first + second, end);
  }

  lemma ReachesNext(env: Env, s: State, mid: State, e: Event)
    requires Reaches(env, s, mid) && Own(e) && Next(env, mid, e).Some?
    ensures Reaches(env, s, Next(env, mid, e).value)
  {
    assert [e][..0] == [];
    assert Leads(env, mid, [e], Next(env, mid, e).value);
    ReachesOn(env, s, mid, Next(env, mid, e).value);
  }

  /** Where a price step that is not refused leaves the worker. */
  function PastPrice(w: Worker): Worker
    requires w.AddPrice?
  {
    if w.j >= |w.info.priceList| then Fetch(w.i + 1) else w.(j := w.j + 1)
  }

  lemma PriceIsKept(db: Db, w: Worker, book: Book) returns (next: Db)
    requires w.AddPrice? && w.j <= |w.info.priceList| && Plain(w.info.shortName) && StoreKept(db, w, [w.info], book)
    ensures StoreKept(next, PastPrice(w), [w.info], book)
    ensures if w.j == |w.info.priceList| then next == db
            else Exec(db, InsertPrice(w.id, w.info.priceList[w.j].amount, w.info.priceList[w.j].time)) == Ok(next)
  {
    if w.j == |w.info.priceList| {
      next := db;
      PassedPrices(db, w.i, [w.info], w.info, w.id, book);
    } else {
      assert AllPlain([w.info]);
      PriceKeepsStore(db, w.i, [w.info], w.info, w.id, w.j, book);
      next := Exec(db, InsertPrice(w.id, w.info.priceList[w.j].amount, w.info.priceList[w.j].time)).value;
    }
  }

  lemma PriceHappens(env: Env, s: State, book: Book) returns (next: State)
    requires s.worker.AddPrice? && s.worker.j <= |s.worker.info.priceList| && Plain(s.worker.info.shortName)
    requires StoreKept(s.db, s.worker, [s.worker.info], book)
    ensures Reaches(env, s, next) && next == s.(worker := PastPrice(s.worker), db := next.db)
    ensures StoreKept(next.db, next.worker, [s.worker.info], book)
  {
    var db := PriceIsKept(s.db, s.worker, book);
    next := s.(worker := PastPrice(s.worker), db := db);
    assert Next(env, s, WorkerStep) == Some(next);
    ReachesSelf(env, s);
    ReachesNext(env, s, s, WorkerStep);
  }

  /** The prices of the info in hand go in one by one. */
  lemma {:induction false} PricesHappen(env: Env, s: State, book: Book) returns (end: State)
    requires s.worker.AddPrice? && s.worker.j <= |s.worker.info.priceList| && Plain(s.worker.info.shortName)
    requires StoreKept(s.db, s.worker, [s.worker.info], book)
    ensures Reaches(env, s, end) && end == s.(worker := Fetch(s.worker.i + 1), db := end.db)
    ensures StoreKept(end.db, end.worker, [s.worker.info], book)
    decreases |s.worker.info.priceList| - s.worker.j
  {
    end := PriceHappens(env, s, book);
    if s.worker.j < |s.worker.info.priceList| {
      var next := end;
      end := PricesHappen(env, next, book);
      ReachesOn(env, s, next, end);
    }
  }

  lemma PlainAnswer(db: Db, symbol: string) returns (id: int)
    requires db.companies.Some? && Plain(symbol) && HasUuid(db.companies.value.rows, symbol)
    ensures RowIdAnswer(db.companies.value.rows, symbol, Ok(id))
  {
    var rows := db.companies.value.rows;
    var k :| 0 <= k < |rows| && rows[k].uuid == symbol;
    assert Matches(rows[k], symbol);
    id := rows[k].id;
  }

  lemma FetchHappens(env: Env, s: State, info: CompanyInfo)
    requires s.worker.Fetch? && s.worker.i < |env.symbols| && Ready(s.db) && Integral(s.db)
    ensures var i := s.worker.i;
      var fetched := s.(worker := AddCompany(i, info), asked := s.asked + [env.symbols[i]], log := s.log + [info]);
      Reaches(env, s, fetched) && StoreKept(s.db, fetched.worker, [info], BookOf(s.db))
  {
    ReachesSelf(env, s);
    ReachesNext(env, s, s, Fetched(info));
    assert StoreKept(s.db, Fetch(s.worker.i), [], BookOf(s.db));
    FetchKeepsStore(s.db, s.worker.i, [], info, BookOf(s.db));
    assert [] + [info] == [info];
  }

  lemma AddHappens(env: Env, s: State, book: Book)
    requires s.worker.AddCompany? && StoreKept(s.db, s.worker, [s.worker.info], book)
    ensures var AddCompany(i, info) := s.worker;
      var added := s.(worker := LookUp(i, info), db := After(s.db, InsertCompany(info.shortName, info.fullName, info.logo, 0)));
      Reaches(env, s, added) && StoreKept(added.db, added.worker, [info], book)
  {
    var AddCompany(i, info) := s.worker;
    ReachesSelf(env, s);
    ReachesNext(env, s, s, Added(0));
    AddKeepsStore(s.db, i, [info], info, 0, book);
  }

  lemma LookUpHappens(env: Env, s: State, book: Book) returns (id: int)
    requires s.worker.LookUp? && StoreKept(s.db, s.worker, [s.worker.info], book) && Plain(s.worker.info.shortName)
    ensures var found := s.(worker := AddPrice(s.worker.i, s.worker.info, id, 0));
      Reaches(env, s, found) && StoreKept(s.db, found.worker, [s.worker.info], book)
  {
    var LookUp(i, info) := s.worker;
    assert AllPlain([info]);
    id := PlainAnswer(s.db, info.shortName);
    ReachesSelf(env, s);
    ReachesNext(env, s, s, Answered(Ok(id)));
    LookUpKeepsStore(s.db, i, [info], info, Ok(id), book);
  }

  lemma MergeOfOne(book: Book, info: CompanyInfo)
    ensures MergeAll(book, [info]) == Merge(book, info)
  {
    assert [info][..0] == [];
  }

  lemma KeptAtFetch(db: Db, i: nat, info: CompanyInfo, book: Book)
    requires StoreKept(db, Fetch(i), [info], book) && Plain(info.shortName)
    ensures Ready(db) && Integral(db) && BookOf(db) == Merge(book, info)
  {
    MergeOfOne(book, info);
    assert AllPlain([info]) && NoneCloses([info]);
  }

  lemma FiledHappens(env: Env, s: State, book: Book) returns (end: State)
    requires s.worker.LookUp? && StoreKept(s.db, s.worker, [s.worker.info], book) && Plain(s.worker.info.shortName)
    ensures Reaches(env, s, end) && end == s.(worker := Fetch(s.worker.i + 1), db := end.db)
    ensures StoreKept(end.db, end.worker, [s.worker.info], book)
  {
    var id := LookUpHappens(env, s, book);
    var found := s.(worker := AddPrice(s.worker.i, s.worker.info, id, 0));
    end := PricesHappen(env, found, book);
    ReachesOn(env, s, found, end);
  }

  lemma StoredHappens(env: Env, s: State, book: Book) returns (end: State)
    requires s.worker.AddCompany? && StoreKept(s.db, s.worker, [s.worker.info], book) && Plain(s.worker.info.shortName)
    ensures Reaches(env, s, end) && end == s.(worker := Fetch(s.worker.i + 1), db := end.db)
    ensures StoreKept(end.db, end.worker, [s.worker.info], book)
  {
    var AddCompany(i, info) := s.worker;
    AddHappens(env, s, book);
    var added := s.(worker := LookUp(i, info), db := After(s.db, InsertCompany(info.shortName, info.fullName, info.logo, 0)));
    end := FiledHappens(env, added, book);
    ReachesOn(env, s, added, end);
  }

  /** A fetched info with a plain symbol can always be merged. */
  lemma TurnHappens(env: Env, s: State, info: CompanyInfo) returns (end: State)
    requires s.worker.Fetch? && s.worker.i < |env.symbols| && Plain(info.shortName)
    requires Ready(s.db) && Integral(s.db)
    ensures Reaches(env, s, end)
    ensures end == s.(worker := Fetch(s.worker.i + 1), db := end.db,
                      asked := s.asked + [env.symbols[s.worker.i]], log := s.log + [info])
    ensures Ready(end.db) && Integral(end.db) && BookOf(end.db) == Merge(BookOf(s.db), info)
  {
    var i := s.worker.i;
    var fetched := s.(worker := AddCompany(i, info), asked := s.asked + [env.symbols[i]], log := s.log + [info]);
    FetchHappens(env, s, info);
    end := StoredHappens(env, fetched, BookOf(s.db));
    ReachesOn(env, s, fetched, end);
    KeptAtFetch(end.db, i + 1, info, BookOf(s.db));
  }

  /** What the first `n` turns of a pass leave. */
  ghost predicate TurnsDone(env: Env, s: State, infos: seq<CompanyInfo>, n: nat, end: State)
    requires Ready(s.db) && n <= |infos| == |env.symbols|
  {
    && end == s.(worker := Fetch(n), db := end.db, asked := s.asked + env.symbols[..n], log := s.log + infos[..n])
    && Ready(end.db) && Integral(end.db) && BookOf(end.db) == MergeAll(BookOf(s.db), infos[..n])
  }

  lemma OneMoreTurn(env: Env, s: State, infos: seq<CompanyInfo>, n: nat, mid: State, end: State)
    requires Ready(s.db) && n < |infos| == |env.symbols| && TurnsDone(env, s, infos, n, mid)
    requires end == mid.(worker := Fetch(n + 1), db := end.db,
                         asked := mid.asked + [env.symbols[n]], log := mid.log + [infos[n]])
    requires Ready(end.db) && Integral(end.db) && BookOf(end.db) == Merge(BookOf(mid.db), infos[n])
    ensures TurnsDone(env, s, infos, n + 1, end)
  {
    MergeAllAppend(BookOf(s.db), infos, n);
    assert infos[..n + 1] == infos[..n] + [infos[n]] && env.symbols[..n + 1] == env.symbols[..n] + [env.symbols[n]];
  }

  lemma {:induction false} TurnsHappen(env: Env, s: State, infos: seq<CompanyInfo>, n: nat) returns (end: State)
    requires s.worker == Fetch(0) && Ready(s.db) && Integral(s.db)
    requires n <= |infos| == |env.symbols| && AllPlain(infos)
    ensures Reaches(env, s, end) && TurnsDone(env, s, infos, n, end)
    decreases n
  {
    if n == 0 {
      end := s;
      ReachesSelf(env, s);
      assert s.asked + env.symbols[..0] == s.asked && s.log + infos[..0] == s.log;
    } else {
      var mid := TurnsHappen(env, s, infos, n - 1);
      end := TurnHappens(env, mid, infos[n - 1]);
      assert Reaches(env, s, end) by { ReachesOn(env, s, mid, end); }
      assert TurnsDone(env, s, infos, n, end) by { OneMoreTurn(env, s, infos, n - 1, mid, end); }
    }
  }

  /** What a pass that brings `infos` leaves, the worker now at `w`. */
  ghost predicate PassDone(env: Env, s: State, infos: seq<CompanyInfo>, w: Worker, end: State)
    requires Ready(s.db)
  {
    && end == s.(worker := w, db := end.db, asked := s.asked + env.symbols, log := s.log + infos)
    && Ready(end.db) && Integral(end.db) && BookOf(end.db) == MergeAll(BookOf(s.db), infos)
  }

  /**
    From any unstopped loop head, whatever plain infos the fetches bring, the worker can by its
    own steps get to the end of the pass, having asked for every symbol and merged every info.
  */
  lemma PassHappens(env: Env, s: State, infos: seq<CompanyInfo>)
    requires s.worker.LoopCheck? && !s.flag && Ready(s.db) && Integral(s.db)
    requires |infos| == |env.symbols| && AllPlain(infos)
    ensures exists end :: Reaches(env, s, end) && PassDone(env, s, infos, AcquireLock, end)
  {
    var n := |infos|;
    ReachesSelf(env, s);
    ReachesNext(env, s, s, WorkerStep);
    var begun := s.(worker := Fetch(0));
    var mid := TurnsHappen(env, begun, infos, n);
    ReachesOn(env, s, begun, mid);
    ReachesNext(env, s, mid, WorkerStep);
    assert infos[..n] == infos && env.symbols[..n] == env.symbols;
    assert PassDone(env, s, infos, AcquireLock, mid.(worker := AcquireLock));
  }

  lemma FallsAsleep(env: Env, s: State)
    requires s.worker.AcquireLock? && !s.flag && s.holder.Nobody?
    ensures Reaches(env, s, s.(worker := Asleep(false)))
  {
    ReachesSelf(env, s);
    ReachesNext(env, s, s, WorkerStep);
    var locked := s.(holder := WorkerThread, worker := CheckPredicate);
    ReachesNext(env, s, locked, WorkerStep);
    ReachesNext(env, s, locked.(worker := GoToSleep), WorkerStep);
    assert s == s.(holder := Nobody);
  }

  lemma WakesByTimeout(env: Env, s: State)
    requires s.worker == Asleep(false) && s.holder.Nobody? && env.timeouts
    ensures Reaches(env, s, s.(worker := LoopCheck))
  {
    ReachesSelf(env, s);
    ReachesNext(env, s, s, Timeout);
    ReachesNext(env, s, s.(worker := Reacquire(true)), WorkerStep);
    ReachesNext(env, s, s.(holder := WorkerThread, worker := Release), WorkerStep);
    assert s == s.(holder := Nobody);
  }

  /** An unstopped wait that times out, as the written one of zero seconds does, ends at the loop head. */
  lemma WaitTimesOut(env: Env, s: State)
    requires s.worker.AcquireLock? && !s.flag && s.holder.Nobody? && env.timeouts
    ensures Reaches(env, s, s.(worker := LoopCheck))
  {
    var asleep := s.(worker := Asleep(false));
    FallsAsleep(env, s);
    WakesByTimeout(env, asleep);
    ReachesOn(env, s, asleep, s.(worker := LoopCheck));
  }

  lemma {:induction false} MergeAllConcat(book: Book, first: seq<CompanyInfo>, second: seq<CompanyInfo>)
    ensures MergeAll(book, first + second) == MergeAll(MergeAll(book, first), second)
    decreases |second|
  {
    if second == [] {
      assert first + second == first;
    } else {
      var n := |second| - 1;
      assert (first + second)[..|first| + n] == first + second[..n];
      MergeAllConcat(book, first, second[..n]);
    }
  }

  /** What whole passes leave, the worker back at the loop head. */
  ghost predicate Served(env: Env, s: State, passes: seq<seq<CompanyInfo>>, end: State)
    requires Ready(s.db)
  {
    && end == s.(db := end.db, asked := s.asked + Rounds(env.symbols, |passes|), log := s.log + Concat(passes))
    && Ready(end.db) && Integral(end.db) && BookOf(end.db) == MergeAll(BookOf(s.db), Concat(passes))
  }

  lemma OneMorePass(env: Env, s: State, passes: seq<seq<CompanyInfo>>, mid: State, end: State)
    requires Ready(s.db) && s.worker.LoopCheck? && passes != [] && Served(env, s, passes[..|passes| - 1], mid)
    requires PassDone(env, mid, passes[|passes| - 1], LoopCheck, end)
    ensures Served(env, s, passes, end)
  {
    MergeAllConcat(BookOf(s.db), Concat(passes[..|passes| - 1]), passes[|passes| - 1]);
  }

  lemma PassComesRound(env: Env, s: State, infos: seq<CompanyInfo>) returns (end: State)
    requires s.worker.LoopCheck? && !s.flag && s.holder.Nobody? && env.timeouts && Ready(s.db) && Integral(s.db)
    requires |infos| == |env.symbols| && AllPlain(infos)
    ensures Reaches(env, s, end) && PassDone(env, s, infos, LoopCheck, end)
  {
    PassHappens(env, s, infos);
    var done :| Reaches(env, s, done) && PassDone(env, s, infos, AcquireLock, done);
    WaitTimesOut(env, done);
    end := done.(worker := LoopCheck);
    ReachesOn(env, s, done, end);
  }

  /** Unstopped and with time-outs, the worker can go through any number of passes, whatever they bring. */
  lemma {:induction false} ServiceGoesOn(env: Env, s: State, passes: seq<seq<CompanyInfo>>)
    requires s.worker.LoopCheck? && !s.flag && s.holder.Nobody? && env.timeouts && Ready(s.db) && Integral(s.db)
    requires forall p :: 0 <= p < |passes| ==> |passes[p]| == |env.symbols| && AllPlain(passes[p])
    ensures exists end :: Reaches(env, s, end) && Served(env, s, passes, end)
    decreases |passes|
  {
    if passes == [] {
      ReachesSelf(env, s);
      assert s.asked + Rounds(env.symbols, 0) == s.asked && s.log + Concat(passes) == s.log;
      assert Served(env, s, passes, s);
    } else {
      var n := |passes| - 1;
      ServiceGoesOn(env, s, passes[..n]);
      var mid :| Reaches(env, s, mid) && Served(env, s, passes[..n], mid);
      var end := PassComesRound(env, mid, passes[n]);
      ReachesOn(env, s, mid, end);
      OneMorePass(env, s, passes, mid, end);
    }
  }

  /** An unflagged worker that leaves the wait can do nothing but begin another pass. */
  lemma LeavesTheWaitForAPass(env: Env, s: State, first: Event, second: Event)
    requires s.worker.Release? && !s.flag && Own(first) && Own(second) && Run(env, s, [first, second]).Some?
    ensures Run(env, s, [first, second]).value.worker == Fetch(0)
  {
    assert [first, second][..1] == [first] && [first][..0] == [];
    assert Run(env, s, [first]) == Next(env, s, first);
  }
}
