/**
  Many threads calling the table operations at once (Daemon/db/itable.h, itable.cpp and the
  three tables). Every operation is the code it runs between its lock_guards, one step at a
  time; all tables share one recursive mutex. Any interleaving of the steps is shown to end
  where running the operations one by one, in order of outermost acquisition, would end.
*/
module TableLocks {
  import opened Common
  import opened Sql
  import opened Companies
  import opened Startup

  datatype Answer = Nothing | Yes(yes: bool) | Id(id: int) | Text(text: string) | Texts(texts: seq<string>) | Version(version: int) | Threw(failure: Failure)

  datatype TableName = VersionTable | CompaniesTable | PricesTable

  datatype Question = TableExists(table: TableName) | RowIdOf(uuid: string) | UuidPresent(uuid: string) | IdPresent(id: int) | VersionPresent | FirstVersion

  datatype Act =
    | Prepare
    | Begin | Execute(s: Statement) | Commit | Rollback
    | Query(q: Question)
    | StepOnce(id: int, column: Column) | StepAgain(id: int)
    | OpenList

  /** The rest of an operation, as nested lock_guard scopes leave it; `Each` steps a list row by row. */
  datatype Code =
    | Done | Lock(k: Code) | Unlock(k: Code) | Do(act: Act, k: Code)
    | IfYes(yes: Code, no: Code) | Each(column: Column, k: Code)

  /** A running operation's own variables: the open transaction's rollback image, its answer, its cursor. */
  datatype Local = Local(saved: Option<Db>, answer: Answer, pos: nat)

  const FRESH := Local(None, Nothing, 0)

  datatype Outcome = Outcome(db: Db, local: Local, threw: bool)

  function Raise(db: Db, l: Local, e: Failure): Outcome {
    Outcome(db, l.(answer := Threw(e)), true)
  }

  function Cell(row: Company, column: Column): Option<string> {
    match column
    case IdColumn => Some(Digits(if row.id >= 0 then row.id else 0))
    case UuidColumn => Some(row.uuid)
    case NameColumn => Some(row.name)
    case LogoColumn => row.logo
  }

  /** The first row, in id order, satisfying `uuid = "text"`. */
  function FirstMatch(rows: seq<Company>, text: string): Option<Company> {
    if rows == [] then None
    else if Matches(rows[0], text) then Some(rows[0]) else FirstMatch(rows[1..], text)
  }

  lemma {:induction false} FirstMatchIsAMatch(rows: seq<Company>, text: string)
    ensures match FirstMatch(rows, text)
            case Some(row) => Matches(row, text) && row in rows
            case None => forall i :: 0 <= i < |rows| ==> !Matches(rows[i], text)
    decreases |rows|
  {
    if rows == [] {
    } else if !Matches(rows[0], text) {
      FirstMatchIsAMatch(rows[1..], text);
      assert rows == [rows[0]] + rows[1..];
    }
  }

  /** The id lookup: an exception for a text that cuts the query, else the first match. */
  function Found(rows: seq<Company>, text: string): Result<int, Failure> {
    if CutByNul(text) then Err(SyntaxError) else
    match FirstMatch(rows, text) case Some(row) => Ok(row.id) case None => Err(NoRow)
  }

  /** Taking the first match is one of the answers the lookup may give. */
  lemma FirstMatchIsAnAnswer(rows: seq<Company>, text: string)
    ensures RowIdAnswer(rows, text, Found(rows, text))
  {
    FirstMatchIsAMatch(rows, text);
    if !ClosesQuote(text) && !CutByNul(text) && FirstMatch(rows, text).Some? {
      var i :| 0 <= i < |rows| && rows[i] == FirstMatch(rows, text).value;
      assert Matches(rows[i], text) && Found(rows, text) == Ok(rows[i].id);
    }
  }

  predicate Exists(db: Db, table: TableName) {
    match table
    case VersionTable => db.version.Some?
    case CompaniesTable => db.companies.Some?
    case PricesTable => db.prices.Some?
  }

  function Ask(db: Db, q: Question): Answer {
    match q
    case TableExists(table) => Yes(Exists(db, table))
    case RowIdOf(uuid) =>
      if db.companies.None? then Threw(NoSuchTable) else
      (match Found(db.companies.value.rows, uuid) case Ok(id) => Id(id) case Err(e) => Threw(e))
    case UuidPresent(uuid) =>
      if db.companies.None? then Threw(NoSuchTable)
      else if CutByNul(uuid) then Threw(SyntaxError) else Yes(FirstMatch(db.companies.value.rows, uuid).Some?)
    case IdPresent(id) =>
      if db.companies.None? then Threw(NoSuchTable) else Yes(HasId(db.companies.value.rows, id))
    case VersionPresent => if db.version.None? then Threw(NoSuchTable) else Yes(db.version.value != [])
    case FirstVersion =>
      if db.version.None? then Threw(NoSuchTable)
      else if db.version.value == [] then Threw(NoRow) else Version(db.version.value[0])
  }

  function Effect(act: Act, db: Db, l: Local): Outcome {
    match act
    case Prepare => Outcome(db, l, false)
    case Begin => Outcome(db, l.(saved := Some(db)), false)
    case Execute(s) => (match Exec(db, s) case Ok(next) => Outcome(next, l, false) case Err(e) => Raise(db, l, e))
    case Commit => Outcome(db, l.(saved := None), false)
    case Rollback => Outcome(if l.saved.Some? then l.saved.value else db, l.(saved := None), false)
    case Query(q) => Outcome(db, l.(answer := Ask(db, q)), Ask(db, q).Threw?)
    case StepOnce(id, column) =>
      if db.companies.None? then Raise(db, l, NoSuchTable) else
      var hit := Selected(db.companies.value.rows, id);
      if hit == [] then Raise(db, l, NoRow)
      else if Cell(hit[0], column).None? then Raise(db, l, NullValue)
      else Outcome(db, l.(answer := Text(Cell(hit[0], column).value)), false)
    case StepAgain(id) =>
      if db.companies.Some? && |Selected(db.companies.value.rows, id)| > 1
      then Raise(db, l, ManyRows) else Outcome(db, l, false)
    case OpenList =>
      if db.companies.None? then Raise(db, l, NoSuchTable) else Outcome(db, l.(answer := Texts([]), pos := 0), false)
  }

  // ----- list reads -----

  function Rows(db: Db): seq<Company> {
    if db.companies.Some? then db.companies.value.rows else []
  }

  /** The text of a cell; a NULL reads as the empty string. */
  function TextOf(row: Company, column: Column): string {
    match Cell(row, column) case Some(text) => text case None => ""
  }

  /** One more row pushed onto the result. */
  function Push(l: Local, row: Company, column: Column): Local {
    l.(answer := Texts((if l.answer.Texts? then l.answer.texts else []) + [TextOf(row, column)]), pos := l.pos + 1)
  }

  /** All the rows from the cursor on pushed. */
  function Listed(l: Local, rows: seq<Company>, column: Column): Local
    decreases |rows| - l.pos
  {
    if l.pos >= |rows| then l else Listed(Push(l, rows[l.pos], column), rows, column)
  }

  function TextsOf(rows: seq<Company>, column: Column): (texts: seq<string>)
    ensures |texts| == |rows|
  {
    seq(|rows|, i requires 0 <= i < |rows| => TextOf(rows[i], column))
  }

  lemma {:induction false} ListedIsTheColumn(l: Local, rows: seq<Company>, column: Column)
    requires l.pos <= |rows| && l.answer == Texts(TextsOf(rows[..l.pos], column))
    ensures Listed(l, rows, column) == l.(answer := Texts(TextsOf(rows, column)), pos := |rows|)
    decreases |rows| - l.pos
  {
    if l.pos == |rows| {
      assert rows[..l.pos] == rows;
    } else {
      assert TextsOf(rows[..l.pos + 1], column) == TextsOf(rows[..l.pos], column) + [TextOf(rows[l.pos], column)];
      ListedIsTheColumn(Push(l, rows[l.pos], column), rows, column);
    }
  }

  // ----- the operations -----

  /** `Transact` is a bare RunTransaction: a drop, the creation of companies, the version update. */
  datatype Call =
    | AddCompany(uuid: string, name: string, logo: string, gap: nat)
    | GetRowID(uuid: string)
    | GetField(id: int, column: Column)
    | SetLogo(id: int, link: string)
    | RemoveCompany(id: int)
    | IsUuidPresent(uuid: string)
    | IsIdPresent(id: int)
    | AddPrice(company: int, amount: real, time: int)
    | RemovePricesOf(company: int)
    | CreatePricesTable
    | Transact(s: Statement)
    | ListField(column: Column)
    | TableIsThere(table: TableName)
    | CreateVersionTable(version: int)
    | GetVersion

  /** RunTransaction: its own lock_guard, begin, the command, commit. */
  function Transaction(s: Statement, k: Code): Code {
    Lock(Do(Begin, Do(Execute(s), Do(Commit, Unlock(k)))))
  }

  function Guarded(act: Act, k: Code): Code {
    Lock(Do(act, Unlock(k)))
  }

  function Program(call: Call): Code {
    match call
    case AddCompany(uuid, name, logo, gap) =>
      Lock(Do(Prepare, Transaction(InsertCompany(uuid, name, logo, gap), Unlock(Done))))
    case GetRowID(uuid) => Guarded(Query(RowIdOf(uuid)), Done)
    case GetField(id, column) => Lock(Guarded(Prepare, Do(StepOnce(id, column), Do(StepAgain(id), Unlock(Done)))))
    case SetLogo(id, link) => Lock(Do(Prepare, Transaction(UpdateLogo(id, link), Unlock(Done))))
    case RemoveCompany(id) => Lock(Do(Prepare, Transaction(DeleteCompany(id), Unlock(Done))))
    case IsUuidPresent(uuid) => Guarded(Query(UuidPresent(uuid)), Done)
    case IsIdPresent(id) => Guarded(Query(IdPresent(id)), Done)
    case AddPrice(company, amount, time) => Do(Prepare, Transaction(InsertPrice(company, amount, time), Done))
    case RemovePricesOf(company) => Lock(Do(Prepare, Transaction(DeletePricesOf(company), Unlock(Done))))
    case CreatePricesTable =>
      Lock(Do(Begin, Do(Execute(PragmaForeignKeysOn), Do(Execute(CreatePrices), Do(Commit, Unlock(Done))))))
    case Transact(s) => Transaction(s, Done)
    case ListField(column) => Lock(Guarded(Prepare, Do(OpenList, Each(column, Unlock(Done)))))
    case TableIsThere(table) => Guarded(Query(TableExists(table)), Done)
    case CreateVersionTable(version) =>
      Lock(Transaction(CreateVersion, Guarded(Query(VersionPresent),
        IfYes(Unlock(Done), Transaction(InsertVersion(version), Unlock(Done))))))
    case GetVersion => Guarded(Query(FirstVersion), Done)
  }

  /** What a throw leaves to run: the transaction's rollback, then one unlock per lock_guard. */
  function Unwind(l: Local, depth: nat): Code {
    if l.saved.Some? then Do(Rollback, Unlocks(depth)) else Unlocks(depth)
  }

  function Unlocks(depth: nat): Code {
    if depth == 0 then Done else Unlock(Unlocks(depth - 1))
  }

  // ----- threads -----

  datatype Thread = Thread(todo: seq<Call>, current: Option<Call>, code: Code, local: Local)

  /**
    `order` lists the operations by outermost acquisition and `replies` their answers as they
    let go; both only record.
  */
  datatype System = System(db: Db, owner: Option<nat>, depth: nat, threads: seq<Thread>,
                           order: seq<(nat, Call)>, replies: seq<Answer>)

  function Put(sys: System, t: nat, th: Thread): System
    requires t < |sys.threads|
  {
    sys.(threads := sys.threads[t := th])
  }

  /** One step of thread `t`; a thread that waits for the mutex has none. */
  function Step(sys: System, t: nat): Option<System>
    requires t < |sys.threads|
  {
    var th := sys.threads[t];
    match th.code
    case Done =>
      if th.current.Some? then Some(Put(sys, t, th.(current := None)))
      else if th.todo == [] then None
      else Some(Put(sys, t, Thread(th.todo[1..], Some(th.todo[0]), Program(th.todo[0]), FRESH)))
    case Lock(k) =>
      if sys.owner == Some(t) then Some(Put(sys.(depth := sys.depth + 1), t, th.(code := k)))
      else if sys.owner.Some? || th.current.None? then None
      else Some(Put(sys.(owner := Some(t), depth := 1, order := sys.order + [(t, th.current.value)]), t, th.(code := k)))
    case Unlock(k) =>
      if sys.owner != Some(t) || sys.depth == 0 then None
      else if sys.depth > 1 then Some(Put(sys.(depth := sys.depth - 1), t, th.(code := k)))
      else Some(Put(sys.(owner := None, depth := 0, replies := sys.replies + [th.local.answer]), t, th.(code := k)))
    case Do(act, k) =>
      var out := Effect(act, sys.db, th.local);
      var held := if sys.owner == Some(t) then sys.depth else 0;
      Some(Put(sys.(db := out.db), t,
               th.(code := if out.threw then Unwind(out.local, held) else k, local := out.local)))
    case IfYes(yes, no) => Some(Put(sys, t, th.(code := if th.local.answer == Yes(true) then yes else no)))
    case Each(column, k) =>
      var rows := Rows(sys.db);
      Some(Put(sys, t, if th.local.pos < |rows| then th.(local := Push(th.local, rows[th.local.pos], column))
                       else th.(code := k)))
  }

  function Run(sys: System, schedule: seq<nat>): Option<System>
    decreases |schedule|
  {
    if schedule == [] then Some(sys) else
    match Run(sys, schedule[..|schedule| - 1])
    case None => None
    case Some(mid) =>
      var t := schedule[|schedule| - 1];
      if t < |mid.threads| then Step(mid, t) else None
  }

  // ----- one operation alone, and operations one at a time -----

  function Solo(code: Code, db: Db, l: Local): (Db, Answer) {
    match code
    case Done => (db, l.answer)
    case Lock(k) => Solo(k, db, l)
    case Unlock(k) => Solo(k, db, l)
    case Do(act, k) =>
      var out := Effect(act, db, l);
      if out.threw then (if out.local.saved.Some? then out.local.saved.value else out.db, out.local.answer)
      else Solo(k, out.db, out.local)
    case IfYes(yes, no) => if l.answer == Yes(true) then Solo(yes, db, l) else Solo(no, db, l)
    case Each(column, k) => Solo(k, db, Listed(l, Rows(db), column))
  }

  function Perform(db: Db, call: Call): (Db, Answer) {
    Solo(Program(call), db, FRESH)
  }

  function Serial(db: Db, order: seq<(nat, Call)>): (out: (Db, seq<Answer>))
    ensures |out.1| == |order|
  {
    if order == [] then (db, []) else
    var n := |order| - 1;
    var before := Serial(db, order[..n]);
    var last := Perform(before.0, order[n].1);
    (last.0, before.1 + [last.1])
  }

  /** The direct meaning of an operation: the statement or question it is about, all or nothing. */
  function Told(db: Db, s: Statement): (Db, Answer) {
    match Exec(db, s) case Ok(next) => (next, Nothing) case Err(e) => (db, Threw(e))
  }

  function Direct(db: Db, call: Call): (Db, Answer) {
    match call
    case AddCompany(uuid, name, logo, gap) => Told(db, InsertCompany(uuid, name, logo, gap))
    case GetRowID(uuid) => (db, Ask(db, RowIdOf(uuid)))
    case GetField(id, column) =>
      (db, if db.companies.None? then Threw(NoSuchTable) else
           var hit := Selected(db.companies.value.rows, id);
           if hit == [] then Threw(NoRow) else if Cell(hit[0], column).None? then Threw(NullValue)
           else if |hit| > 1 then Threw(ManyRows) else Text(Cell(hit[0], column).value))
    case SetLogo(id, link) => Told(db, UpdateLogo(id, link))
    case RemoveCompany(id) => Told(db, DeleteCompany(id))
    case IsUuidPresent(uuid) => (db, Ask(db, UuidPresent(uuid)))
    case IsIdPresent(id) => (db, Ask(db, IdPresent(id)))
    case AddPrice(company, amount, time) => Told(db, InsertPrice(company, amount, time))
    case RemovePricesOf(company) => Told(db, DeletePricesOf(company))
    case CreatePricesTable => Told(db, CreatePrices)
    case Transact(s) => Told(db, s)
    case ListField(column) =>
      (db, if db.companies.None? then Threw(NoSuchTable) else Texts(TextsOf(db.companies.value.rows, column)))
    case TableIsThere(table) => (db, Yes(Exists(db, table)))
    case CreateVersionTable(version) =>
      var made := After(db, CreateVersion);
      if made.version.value != [] then (made, Yes(true)) else (After(made, InsertVersion(version)), Yes(false))
    case GetVersion => (db, Ask(db, FirstVersion))
  }

  lemma SoloTransaction(s: Statement, k: Code, db: Db, l: Local)
    requires l.saved.None?
    ensures Solo(Transaction(s, k), db, l) ==
            if Exec(db, s).Ok? then Solo(k, Exec(db, s).value, l) else (db, Threw(Exec(db, s).error))
  {
    var l' := l.(saved := Some(db));
    assert Solo(Transaction(s, k), db, l) == Solo(Do(Execute(s), Do(Commit, Unlock(k))), db, l');
    match Exec(db, s) {
      case Ok(next) =>
        assert l'.(saved := None) == l;
        assert Solo(Do(Commit, Unlock(k)), next, l') == Solo(Unlock(k), next, l);
      case Err(e) =>
    }
  }

  lemma SoloGuarded(act: Act, k: Code, db: Db, l: Local)
    ensures Solo(Guarded(act, k), db, l) ==
            var out := Effect(act, db, l);
            if out.threw then (if out.local.saved.Some? then out.local.saved.value else out.db, out.local.answer)
            else Solo(k, out.db, out.local)
  {
    var out := Effect(act, db, l);
    assert Solo(Unlock(k), out.db, out.local) == Solo(k, out.db, out.local);
    assert Solo(Guarded(act, k), db, l) == Solo(Do(act, Unlock(k)), db, l);
  }

  /** An operation run alone means exactly its one statement or question, whatever it throws. */
  lemma PerformIsDirect(db: Db, call: Call)
    ensures Perform(db, call) == Direct(db, call)
  {
    match call {
      case AddCompany(uuid, name, logo, gap) => PreparedTransaction(InsertCompany(uuid, name, logo, gap), db);
      case SetLogo(id, link) => PreparedTransaction(UpdateLogo(id, link), db);
      case RemoveCompany(id) => PreparedTransaction(DeleteCompany(id), db);
      case RemovePricesOf(company) => PreparedTransaction(DeletePricesOf(company), db);
      case AddPrice(company, amount, time) => SoloTransaction(InsertPrice(company, amount, time), Done, db, FRESH);
      case Transact(s) => SoloTransaction(s, Done, db, FRESH);
      case TableIsThere(table) => SoloGuarded(Query(TableExists(table)), Done, db, FRESH);
      case ListField(column) => ListIsDirect(db, column);
      case GetRowID(uuid) => SoloGuarded(Query(RowIdOf(uuid)), Done, db, FRESH);
      case IsUuidPresent(uuid) => SoloGuarded(Query(UuidPresent(uuid)), Done, db, FRESH);
      case IsIdPresent(id) => SoloGuarded(Query(IdPresent(id)), Done, db, FRESH);
      case GetVersion => SoloGuarded(Query(FirstVersion), Done, db, FRESH);
      case GetField(id, column) => FieldIsDirect(db, id, column);
      case CreatePricesTable => CreatePricesTableIsDirect(db);
      case CreateVersionTable(version) => CreateVersionTableIsDirect(db, version);
    }
  }

  lemma FieldIsDirect(db: Db, id: int, column: Column)
    ensures Perform(db, GetField(id, column)) == Direct(db, GetField(id, column))
  {
    var steps := Do(StepOnce(id, column), Do(StepAgain(id), Unlock(Done)));
    SoloGuarded(Prepare, steps, db, FRESH);
    assert Perform(db, GetField(id, column)) == Solo(Guarded(Prepare, steps), db, FRESH);
    var out := Effect(StepOnce(id, column), db, FRESH);
    if !out.threw {
      assert Solo(Unlock(Done), out.db, out.local) == (out.db, out.local.answer);
      assert Solo(steps, db, FRESH) == Solo(Do(StepAgain(id), Unlock(Done)), out.db, out.local);
    }
  }

  lemma CreatePricesTableIsDirect(db: Db)
    ensures Perform(db, CreatePricesTable) == Direct(db, CreatePricesTable)
  {
    var l' := FRESH.(saved := Some(db));
    var last := Do(Execute(CreatePrices), Do(Commit, Unlock(Done)));
    assert Solo(Do(Begin, Do(Execute(PragmaForeignKeysOn), last)), db, FRESH)
        == Solo(Do(Execute(PragmaForeignKeysOn), last), db, l');
    assert Perform(db, CreatePricesTable) == Solo(Do(Execute(PragmaForeignKeysOn), last), db, l');
    assert Solo(Do(Execute(PragmaForeignKeysOn), last), db, l') == Solo(last, db, l');
    assert Solo(last, db, l') == Solo(Do(Commit, Unlock(Done)), After(db, CreatePrices), l');
    assert Solo(Unlock(Done), After(db, CreatePrices), FRESH) == (After(db, CreatePrices), Nothing);
  }

  lemma ListIsDirect(db: Db, column: Column)
    ensures Perform(db, ListField(column)) == Direct(db, ListField(column))
  {
    var steps := Do(OpenList, Each(column, Unlock(Done)));
    SoloGuarded(Prepare, steps, db, FRESH);
    assert Perform(db, ListField(column)) == Solo(Guarded(Prepare, steps), db, FRESH) == Solo(steps, db, FRESH);
    if db.companies.Some? {
      var open := FRESH.(answer := Texts([]), pos := 0);
      assert TextsOf(Rows(db)[..0], column) == [];
      ListedIsTheColumn(open, Rows(db), column);
      var read := Listed(open, Rows(db), column);
      assert Solo(steps, db, FRESH) == Solo(Each(column, Unlock(Done)), db, open) == Solo(Unlock(Done), db, read);
      assert Solo(Unlock(Done), db, read) == (db, read.answer);
    }
  }

  lemma PreparedTransaction(s: Statement, db: Db)
    ensures Solo(Lock(Do(Prepare, Transaction(s, Unlock(Done)))), db, FRESH) == Told(db, s)
  {
    SoloTransaction(s, Unlock(Done), db, FRESH);
  }

  lemma StampIsDirect(db: Db, version: int)
    requires db.version.Some?
    ensures var branch := IfYes(Unlock(Done), Transaction(InsertVersion(version), Unlock(Done)));
      Solo(Guarded(Query(VersionPresent), branch), db, FRESH) ==
        if db.version.value != [] then (db, Yes(true)) else (After(db, InsertVersion(version)), Yes(false))
  {
    var insert := Transaction(InsertVersion(version), Unlock(Done));
    SoloGuarded(Query(VersionPresent), IfYes(Unlock(Done), insert), db, FRESH);
    var l' := FRESH.(answer := Yes(db.version.value != []));
    SoloTransaction(InsertVersion(version), Unlock(Done), db, l');
    var stamped := After(db, InsertVersion(version));
    assert Solo(Unlock(Done), db, l') == (db, l'.answer) && Solo(Unlock(Done), stamped, l') == (stamped, l'.answer);
  }

  lemma CreateVersionTableIsDirect(db: Db, version: int)
    ensures Perform(db, CreateVersionTable(version)) == Direct(db, CreateVersionTable(version))
  {
    var branch := IfYes(Unlock(Done), Transaction(InsertVersion(version), Unlock(Done)));
    var check := Guarded(Query(VersionPresent), branch);
    assert Perform(db, CreateVersionTable(version)) == Solo(Transaction(CreateVersion, check), db, FRESH);
    SoloTransaction(CreateVersion, check, db, FRESH);
    StampIsDirect(After(db, CreateVersion), version);
  }

  // ----- lock discipline -----

  /** Well-bracketed from depth `d`: nothing but a prepare outside the mutex, and one outermost scope. */
  ghost predicate Balanced(code: Code, d: nat) {
    match code
    case Done => d == 0
    case Lock(k) => Balanced(k, d + 1)
    case Unlock(k) => d >= 1 && (d == 1 ==> k == Done) && Balanced(k, d - 1)
    case Do(act, k) => (d >= 1 || (act == Prepare && k != Done)) && Balanced(k, d)
    case IfYes(yes, no) => d >= 1 && Balanced(yes, d) && Balanced(no, d)
    case Each(_, k) => d >= 1 && Balanced(k, d)
  }

  lemma TransactionIsBalanced(s: Statement, k: Code, d: nat)
    requires Balanced(k, d) && (d == 0 ==> k == Done)
    ensures Balanced(Transaction(s, k), d)
  {
    assert Balanced(Unlock(k), d + 1);
    assert Balanced(Do(Commit, Unlock(k)), d + 1);
    assert Balanced(Do(Execute(s), Do(Commit, Unlock(k))), d + 1);
  }

  lemma GuardedIsBalanced(act: Act, k: Code, d: nat)
    requires Balanced(k, d) && (d == 0 ==> k == Done)
    ensures Balanced(Guarded(act, k), d)
  {
    assert Balanced(Unlock(k), d + 1);
    assert Balanced(Do(act, Unlock(k)), d + 1);
  }

  lemma PreparedIsBalanced(s: Statement)
    ensures Balanced(Lock(Do(Prepare, Transaction(s, Unlock(Done)))), 0)
  {
    TransactionIsBalanced(s, Unlock(Done), 1);
    assert Balanced(Do(Prepare, Transaction(s, Unlock(Done))), 1);
  }

  lemma ProgramIsBalanced(call: Call)
    ensures Balanced(Program(call), 0) && Program(call) != Done
  {
    match call {
      case AddCompany(uuid, name, logo, gap) => PreparedIsBalanced(InsertCompany(uuid, name, logo, gap));
      case SetLogo(id, link) => PreparedIsBalanced(UpdateLogo(id, link));
      case RemoveCompany(id) => PreparedIsBalanced(DeleteCompany(id));
      case RemovePricesOf(company) => PreparedIsBalanced(DeletePricesOf(company));
      case AddPrice(company, amount, time) => TransactionIsBalanced(InsertPrice(company, amount, time), Done, 0);
      case Transact(s) => TransactionIsBalanced(s, Done, 0);
      case TableIsThere(table) => GuardedIsBalanced(Query(TableExists(table)), Done, 0);
      case ListField(column) =>
        assert Balanced(Each(column, Unlock(Done)), 1);
        GuardedIsBalanced(Prepare, Do(OpenList, Each(column, Unlock(Done))), 1);
      case GetRowID(uuid) => GuardedIsBalanced(Query(RowIdOf(uuid)), Done, 0);
      case IsUuidPresent(uuid) => GuardedIsBalanced(Query(UuidPresent(uuid)), Done, 0);
      case IsIdPresent(id) => GuardedIsBalanced(Query(IdPresent(id)), Done, 0);
      case GetVersion => GuardedIsBalanced(Query(FirstVersion), Done, 0);
      case GetField(id, column) =>
        var steps := Do(StepOnce(id, column), Do(StepAgain(id), Unlock(Done)));
        assert Balanced(Do(StepAgain(id), Unlock(Done)), 1);
        GuardedIsBalanced(Prepare, steps, 1);
      case CreatePricesTable =>
        var last := Do(Execute(CreatePrices), Do(Commit, Unlock(Done)));
        assert Balanced(Do(Commit, Unlock(Done)), 1);
        assert Balanced(last, 1);
        assert Balanced(Do(Begin, Do(Execute(PragmaForeignKeysOn), last)), 1);
      case CreateVersionTable(version) =>
        TransactionIsBalanced(InsertVersion(version), Unlock(Done), 1);
        var branch := IfYes(Unlock(Done), Transaction(InsertVersion(version), Unlock(Done)));
        GuardedIsBalanced(Query(VersionPresent), branch, 1);
        TransactionIsBalanced(CreateVersion, Guarded(Query(VersionPresent), branch), 1);
    }
  }

  lemma {:induction false} UnlocksAreBalanced(depth: nat)
    ensures Balanced(Unlocks(depth), depth)
    decreases depth
  {
    if depth == 0 {
    } else {
      UnlocksAreBalanced(depth - 1);
    }
  }

  lemma {:induction false} UnlocksDoNothing(depth: nat, db: Db, l: Local)
    ensures Solo(Unlocks(depth), db, l) == (db, l.answer)
    decreases depth
  {
    if depth == 0 {
    } else {
      UnlocksDoNothing(depth - 1, db, l);
    }
  }

  /** A throw releases every lock_guard and leaves the same store and answer as running alone. */
  lemma UnwindIsBalanced(l: Local, depth: nat, db: Db)
    requires depth >= 1
    ensures Balanced(Unwind(l, depth), depth)
    ensures Solo(Unwind(l, depth), db, l) == (if l.saved.Some? then l.saved.value else db, l.answer)
  {
    UnlocksAreBalanced(depth);
    var l' := l.(saved := None);
    UnlocksDoNothing(depth, if l.saved.Some? then l.saved.value else db, l');
    UnlocksDoNothing(depth, db, l);
  }

  // ----- the invariant of every interleaving -----

  /** The calls of `order` made by thread `t`, in order. */
  function CallsOf(order: seq<(nat, Call)>, t: nat): seq<Call> {
    if order == [] then [] else
    CallsOf(order[..|order| - 1], t) + if order[|order| - 1].0 == t then [order[|order| - 1].1] else []
  }

  ghost predicate Waiting(th: Thread) {
    th.code != Done && th.current.Some?
    && Balanced(th.code, 0)
    && forall db :: Solo(th.code, db, th.local) == Perform(db, th.current.value)
  }

  /** A thread outside the mutex: between operations, or in front of its outermost lock. */
  ghost predicate Outside(th: Thread, t: nat, order: seq<(nat, Call)>, calls: seq<Call>) {
    if th.code == Done then CallsOf(order, t) + th.todo == calls
    else Waiting(th) && CallsOf(order, t) + [th.current.value] + th.todo == calls
  }

  ghost predicate Inside(sys: System, t: nat, start: Db, calls: seq<Call>)
    requires t < |sys.threads|
  {
    var th, n := sys.threads[t], |sys.order| - 1;
    && sys.depth >= 1 && Balanced(th.code, sys.depth)
    && th.current.Some? && n >= 0 && sys.order[n] == (t, th.current.value)
    && CallsOf(sys.order, t) + th.todo == calls
    && sys.replies == Serial(start, sys.order[..n]).1
    && Solo(th.code, sys.db, th.local) == (Serial(start, sys.order).0, Serial(start, sys.order).1[n])
  }

  ghost predicate Consistent(sys: System, start: Db, calls: seq<seq<Call>>) {
    && |sys.threads| == |calls|
    && (forall t :: 0 <= t < |calls| && sys.owner != Some(t) ==> Outside(sys.threads[t], t, sys.order, calls[t]))
    && (match sys.owner
        case None => sys.depth == 0 && (sys.db, sys.replies) == Serial(start, sys.order)
        case Some(t) => t < |calls| && Inside(sys, t, start, calls[t]))
  }

  function Initially(start: Db, calls: seq<seq<Call>>): System {
    System(start, None, 0, seq(|calls|, t requires 0 <= t < |calls| => Thread(calls[t], None, Done, FRESH)), [], [])
  }

  lemma OthersStayOutside(sys: System, next: System, t: nat, start: Db, calls: seq<seq<Call>>)
    requires Consistent(sys, start, calls) && t < |calls| && |next.threads| == |calls|
    requires forall u :: 0 <= u < |calls| && u != t ==> next.threads[u] == sys.threads[u]
    requires next.order == sys.order || (|next.order| == |sys.order| + 1 && next.order[..|sys.order|] == sys.order
               && next.order[|sys.order|].0 == t)
    requires sys.owner == Some(t) || sys.owner.None?
    ensures forall u :: 0 <= u < |calls| && u != t ==> Outside(next.threads[u], u, next.order, calls[u])
  {
    forall u | 0 <= u < |calls| && u != t ensures Outside(next.threads[u], u, next.order, calls[u]) {
      assert sys.owner != Some(u);
      assert CallsOf(next.order, u) == CallsOf(sys.order, u);
    }
  }

  /** A move of a thread outside the mutex is no concern of the others. */
  lemma OutsideMoveKeepsConsistent(sys: System, t: nat, th: Thread, start: Db, calls: seq<seq<Call>>)
    requires Consistent(sys, start, calls) && t < |calls| && sys.owner != Some(t)
    requires Outside(th, t, sys.order, calls[t])
    ensures Consistent(Put(sys, t, th), start, calls)
  {
    var next := Put(sys, t, th);
    forall u | 0 <= u < |calls| && sys.owner != Some(u) ensures Outside(next.threads[u], u, next.order, calls[u]) {
      assert u != t ==> Outside(sys.threads[u], u, sys.order, calls[u]);
    }
    if sys.owner.Some? {
      assert Inside(sys, sys.owner.value, start, calls[sys.owner.value]);
      assert Inside(next, sys.owner.value, start, calls[sys.owner.value]);
    }
  }

  /** The owner is never between operations. */
  lemma OwnerIsAtWork(sys: System, t: nat, start: Db, calls: seq<seq<Call>>)
    requires Consistent(sys, start, calls) && t < |calls| && sys.owner == Some(t)
    ensures sys.threads[t].code != Done
  {
  }

  lemma StartIsWaiting(call: Call, todo: seq<Call>)
    ensures Waiting(Thread(todo, Some(call), Program(call), FRESH))
  {
    ProgramIsBalanced(call);
  }

  lemma StartKeepsConsistent(sys: System, t: nat, start: Db, calls: seq<seq<Call>>)
    requires Consistent(sys, start, calls) && t < |calls| && sys.threads[t].code == Done && Step(sys, t).Some?
    ensures Consistent(Step(sys, t).value, start, calls)
  {
    var th := sys.threads[t];
    assert sys.owner != Some(t) by {
      if sys.owner == Some(t) { OwnerIsAtWork(sys, t, start, calls); }
    }
    assert CallsOf(sys.order, t) + th.todo == calls[t] by { assert Outside(th, t, sys.order, calls[t]); }
    var after := if th.current.Some? then th.(current := None)
                 else Thread(th.todo[1..], Some(th.todo[0]), Program(th.todo[0]), FRESH);
    assert Step(sys, t) == Some(Put(sys, t, after));
    assert Outside(after, t, sys.order, calls[t]) by {
      if th.current.None? {
        StartIsWaiting(th.todo[0], th.todo[1..]);
        assert th.todo == [th.todo[0]] + th.todo[1..];
      }
    }
    OutsideMoveKeepsConsistent(sys, t, after, start, calls);
  }

  lemma OutsideStepKeepsConsistent(sys: System, t: nat, start: Db, calls: seq<seq<Call>>)
    requires Consistent(sys, start, calls) && t < |calls| && sys.owner != Some(t)
    requires sys.threads[t].code != Done && Step(sys, t).Some?
    ensures Consistent(Step(sys, t).value, start, calls)
  {
    var th := sys.threads[t];
    assert Outside(th, t, sys.order, calls[t]);
    if th.code.Lock? {
      AcquireKeepsConsistent(sys, t, start, calls);
    } else {
      PrepareKeepsConsistent(sys, t, start, calls);
    }
  }

  lemma AcquireKeepsConsistent(sys: System, t: nat, start: Db, calls: seq<seq<Call>>)
    requires Consistent(sys, start, calls) && t < |calls| && sys.owner != Some(t)
    requires sys.threads[t].code.Lock? && Step(sys, t).Some?
    ensures Consistent(Step(sys, t).value, start, calls)
  {
    var th, next := sys.threads[t], Step(sys, t).value;
    assert Outside(th, t, sys.order, calls[t]);
    assert next.order[..|sys.order|] == sys.order;
    OthersStayOutside(sys, next, t, start, calls);
    assert Solo(th.code, sys.db, th.local) == Perform(sys.db, th.current.value);
    assert Inside(next, t, start, calls[t]);
  }

  /** All a thread can do before its outermost lock is prepare, which no one notices. */
  lemma PrepareKeepsConsistent(sys: System, t: nat, start: Db, calls: seq<seq<Call>>)
    requires Consistent(sys, start, calls) && t < |calls| && sys.owner != Some(t)
    requires sys.threads[t].code != Done && !sys.threads[t].code.Lock? && Step(sys, t).Some?
    ensures Consistent(Step(sys, t).value, start, calls)
  {
    var th, next := sys.threads[t], Step(sys, t).value;
    assert Outside(th, t, sys.order, calls[t]);
    assert th.code.Do? && th.code.act == Prepare && th.code.k != Done;
    var k := th.code.k;
    assert next == Put(sys, t, th.(code := k));
    assert Outside(th.(code := k), t, sys.order, calls[t]) by {
      forall db ensures Solo(k, db, th.local) == Perform(db, th.current.value) {
        assert Solo(th.code, db, th.local) == Solo(k, db, th.local);
      }
    }
    OutsideMoveKeepsConsistent(sys, t, th.(code := k), start, calls);
  }

  /** The outermost unlock hands over exactly the serial store and answers. */
  lemma ReleaseKeepsConsistent(sys: System, t: nat, start: Db, calls: seq<seq<Call>>)
    requires Consistent(sys, start, calls) && t < |calls| && sys.owner == Some(t) && Step(sys, t).Some?
    requires sys.threads[t].code.Unlock? && sys.depth == 1
    ensures Consistent(Step(sys, t).value, start, calls)
  {
    var th, next, n := sys.threads[t], Step(sys, t).value, |sys.order| - 1;
    assert Inside(sys, t, start, calls[t]);
    OthersStayOutside(sys, next, t, start, calls);
    assert th.code.k == Done && Solo(th.code, sys.db, th.local) == (sys.db, th.local.answer);
    assert Serial(start, sys.order).1 == Serial(start, sys.order[..n]).1 + [Serial(start, sys.order).1[n]];
    assert next.db == Serial(start, sys.order).0 && next.replies == Serial(start, sys.order).1;
    assert Outside(next.threads[t], t, next.order, calls[t]);
  }

  lemma InsideStepKeepsConsistent(sys: System, t: nat, start: Db, calls: seq<seq<Call>>)
    requires Consistent(sys, start, calls) && t < |calls| && sys.owner == Some(t) && Step(sys, t).Some?
    requires sys.threads[t].code != Done && !(sys.threads[t].code.Unlock? && sys.depth == 1)
    ensures Consistent(Step(sys, t).value, start, calls)
  {
    var th, next := sys.threads[t], Step(sys, t).value;
    assert Inside(sys, t, start, calls[t]);
    OthersStayOutside(sys, next, t, start, calls);
    if th.code.Do? {
      var out := Effect(th.code.act, sys.db, th.local);
      if out.threw { UnwindIsBalanced(out.local, sys.depth, out.db); }
    } else if th.code.Each? {
      assert Listed(th.local, Rows(sys.db), th.code.column) == Listed(next.threads[t].local, Rows(sys.db), th.code.column);
    }
    assert Inside(next, t, start, calls[t]);
  }

  lemma {:induction false} RunKeepsConsistent(start: Db, calls: seq<seq<Call>>, schedule: seq<nat>)
    requires Run(Initially(start, calls), schedule).Some?
    ensures Consistent(Run(Initially(start, calls), schedule).value, start, calls)
    decreases |schedule|
  {
    if schedule == [] {
      forall t | 0 <= t < |calls| ensures Outside(Initially(start, calls).threads[t], t, [], calls[t]) {}
    } else {
      var n := |schedule| - 1;
      RunKeepsConsistent(start, calls, schedule[..n]);
      var mid, t := Run(Initially(start, calls), schedule[..n]).value, schedule[n];
      if mid.threads[t].code == Done {
        StartKeepsConsistent(mid, t, start, calls);
      } else if mid.owner == Some(t) {
        if mid.threads[t].code.Unlock? && mid.depth == 1 {
          ReleaseKeepsConsistent(mid, t, start, calls);
        } else {
          InsideStepKeepsConsistent(mid, t, start, calls);
        }
      } else {
        OutsideStepKeepsConsistent(mid, t, start, calls);
      }
    }
  }

  /**
    Serialisability, for any number of threads, calls and any schedule: whenever the mutex is
    free, the store and every answer given are those of running the calls one at a time in the
    order of their outermost acquisitions, and that order keeps each thread's own.
  */
  lemma Serialisable(start: Db, calls: seq<seq<Call>>, schedule: seq<nat>)
    requires Run(Initially(start, calls), schedule).Some?
    ensures var end := Run(Initially(start, calls), schedule).value;
      && |end.threads| == |calls|
      && (end.owner.None? ==> (end.db, end.replies) == Serial(start, end.order) && end.depth == 0)
      && (forall t :: 0 <= t < |calls| ==> CallsOf(end.order, t) <= calls[t])
      && ((forall t :: 0 <= t < |calls| ==> end.threads[t].todo == [] && end.threads[t].code == Done) ==>
            end.owner.None? && forall t :: 0 <= t < |calls| ==> CallsOf(end.order, t) == calls[t])
  {
    RunKeepsConsistent(start, calls, schedule);
    var end := Run(Initially(start, calls), schedule).value;
    forall t | 0 <= t < |calls|
      ensures CallsOf(end.order, t) <= calls[t]
      ensures end.threads[t].todo == [] && end.threads[t].code == Done ==>
                CallsOf(end.order, t) == calls[t] && end.owner != Some(t)
    {
      if end.owner == Some(t) {
        assert Inside(end, t, start, calls[t]);
      } else {
        assert Outside(end.threads[t], t, end.order, calls[t]);
      }
    }
    if end.owner.Some? { assert end.owner.value < |calls|; }
  }

  /** Only the owner begins, executes, steps, commits or rolls back; and nobody unlocks what it does not hold. */
  lemma OnlyTheOwnerTouchesTheStore(start: Db, calls: seq<seq<Call>>, schedule: seq<nat>, t: nat)
    requires Run(Initially(start, calls), schedule).Some? && t < |calls|
    ensures var end := Run(Initially(start, calls), schedule).value;
      && |end.threads| == |calls|
      && (end.threads[t].code.Unlock? || (end.threads[t].code.Do? && end.threads[t].code.act != Prepare) ==>
            end.owner == Some(t) && end.depth >= 1)
      && (end.threads[t].code.Done? ==> end.owner != Some(t))
  {
    RunKeepsConsistent(start, calls, schedule);
    var end := Run(Initially(start, calls), schedule).value;
    if end.owner == Some(t) {
      assert Inside(end, t, start, calls[t]);
    } else {
      assert Outside(end.threads[t], t, end.order, calls[t]);
    }
  }

  predicate Finished(th: Thread) {
    th.code == Done && th.current.None? && th.todo == []
  }

  /** The one mutex cannot deadlock: while any thread has work left, some thread can step. */
  lemma SomeThreadCanStep(start: Db, calls: seq<seq<Call>>, schedule: seq<nat>, u: nat)
    requires Run(Initially(start, calls), schedule).Some? && u < |calls|
    ensures var end := Run(Initially(start, calls), schedule).value;
      |end.threads| == |calls| && (Finished(end.threads[u]) || exists t :: 0 <= t < |calls| && Step(end, t).Some?)
  {
    RunKeepsConsistent(start, calls, schedule);
    var end := Run(Initially(start, calls), schedule).value;
    if end.owner.Some? {
      assert Inside(end, end.owner.value, start, calls[end.owner.value]);
      assert Step(end, end.owner.value).Some?;
    } else if !Finished(end.threads[u]) {
      assert Outside(end.threads[u], u, end.order, calls[u]);
      assert Step(end, u).Some?;
    }
  }

  // ----- the same operations as the table classes' -----

  function AsId(a: Answer): Result<int, Failure> {
    match a case Id(id) => Ok(id) case Threw(e) => Err(e) case _ => Err(NoRow)
  }

  function AsText(a: Answer): Result<string, Failure> {
    match a case Text(text) => Ok(text) case Threw(e) => Err(e) case _ => Err(NoRow)
  }

  /** The statement behind a writing call. */
  function Spoken(call: Call): Option<Statement> {
    match call
    case AddCompany(uuid, name, logo, gap) => Some(InsertCompany(uuid, name, logo, gap))
    case SetLogo(id, link) => Some(UpdateLogo(id, link))
    case RemoveCompany(id) => Some(DeleteCompany(id))
    case AddPrice(company, amount, time) => Some(InsertPrice(company, amount, time))
    case RemovePricesOf(company) => Some(DeletePricesOf(company))
    case Transact(s) => Some(s)
    case _ => None
  }

  /** Performed alone, the locking model's calls keep the contracts of the table classes. */
  lemma PerformMeetsContracts(db: Db, call: Call)
    requires Valid(db)
    ensures Spoken(call).Some? ==>
      && Perform(db, call).0 == After(db, Spoken(call).value)
      && Perform(db, call).1 == (match Exec(db, Spoken(call).value) case Ok(_) => Nothing case Err(e) => Threw(e))
    ensures call.GetRowID? && db.companies.Some? ==>
      Perform(db, call).0 == db && RowIdAnswer(db.companies.value.rows, call.uuid, AsId(Perform(db, call).1))
    ensures call.GetField? && db.companies.Some? ==>
      && Perform(db, call).0 == db
      && FieldAnswer(db.companies.value.rows, (row: Company) => Cell(row, call.column), call.id, AsText(Perform(db, call).1))
    ensures call.ListField? && db.companies.Some? ==>
      Perform(db, call) == (db, Texts(TextsOf(db.companies.value.rows, call.column)))
  {
    PerformIsDirect(db, call);
    if db.companies.Some? {
      if call.GetRowID? { FirstMatchIsAnAnswer(db.companies.value.rows, call.uuid); }
      if call.GetField? { FieldIsAnswered(db, call.id, call.column); }
    }
  }

  lemma FieldIsAnswered(db: Db, id: int, column: Column)
    requires Valid(db) && db.companies.Some?
    ensures FieldAnswer(db.companies.value.rows, (row: Company) => Cell(row, column), id, AsText(Direct(db, GetField(id, column)).1))
  {
    SelectedAnswers(db.companies.value, (row: Company) => Cell(row, column), id);
  }

  // ----- what each call answers, said of the store itself -----

  /** The version is the first stored cell; a missing table or row throws. */
  lemma GetVersionAnswers(db: Db)
    ensures Perform(db, GetVersion) ==
      if db.version.None? then (db, Threw(NoSuchTable))
      else if db.version.value == [] then (db, Threw(NoRow)) else (db, Version(db.version.value[0]))
  {
    PerformIsDirect(db, GetVersion);
  }

  /** Each table is said to exist exactly if it does. */
  lemma TableIsThereAnswers(db: Db)
    ensures Perform(db, TableIsThere(VersionTable)) == (db, Yes(db.version.Some?))
    ensures Perform(db, TableIsThere(CompaniesTable)) == (db, Yes(db.companies.Some?))
    ensures Perform(db, TableIsThere(PricesTable)) == (db, Yes(db.prices.Some?))
  {
    PerformIsDirect(db, TableIsThere(VersionTable));
    PerformIsDirect(db, TableIsThere(CompaniesTable));
    PerformIsDirect(db, TableIsThere(PricesTable));
  }

  /** An id is present exactly if some row has it, and a plain uuid exactly if some row holds it. */
  lemma PresenceAnswers(db: Db, id: int, uuid: string)
    requires db.companies.Some?
    ensures Perform(db, IsIdPresent(id)) == (db, Yes(exists i :: 0 <= i < |db.companies.value.rows| && db.companies.value.rows[i].id == id))
    ensures Plain(uuid) ==>
      Perform(db, IsUuidPresent(uuid)) == (db, Yes(exists i :: 0 <= i < |db.companies.value.rows| && db.companies.value.rows[i].uuid == uuid))
    ensures CutByNul(uuid) ==> Perform(db, IsUuidPresent(uuid)) == (db, Threw(SyntaxError))
  {
    PerformIsDirect(db, IsIdPresent(id));
    PerformIsDirect(db, IsUuidPresent(uuid));
    if Plain(uuid) { PlainMatch(db.companies.value.rows, uuid); }
  }

  lemma PlainMatch(rows: seq<Company>, uuid: string)
    requires Plain(uuid)
    ensures FirstMatch(rows, uuid).Some? <==> exists i :: 0 <= i < |rows| && rows[i].uuid == uuid
  {
    FirstMatchIsAMatch(rows, uuid);
    if i :| 0 <= i < |rows| && rows[i].uuid == uuid {
      assert Matches(rows[i], uuid);
    }
  }

  /** The plain id lookup answers the id of a row holding the uuid, and throws exactly if there is none. */
  lemma GetRowIDAnswers(db: Db, uuid: string)
    requires db.companies.Some? && Plain(uuid)
    ensures var rows, r := db.companies.value.rows, Perform(db, GetRowID(uuid));
      && r.0 == db
      && (if HasUuid(rows, uuid) then r.1.Id? && exists i :: 0 <= i < |rows| && rows[i].uuid == uuid && rows[i].id == r.1.id
          else r.1 == Threw(NoRow))
  {
    PerformIsDirect(db, GetRowID(uuid));
    PlainMatch(db.companies.value.rows, uuid);
    FirstMatchIsAMatch(db.companies.value.rows, uuid);
  }

  /** Creation leaves the store stamped as start-up describes it, and says whether it found a row. */
  lemma CreateVersionTableAnswers(db: Db, version: nat)
    ensures Perform(db, CreateVersionTable(version)) == (Stamped(db, version), Yes(db.version.Some? && db.version.value != []))
  {
    PerformIsDirect(db, CreateVersionTable(version));
    assert [] + [version as int] == [version as int];
  }

  lemma CreatePricesTableAnswers(db: Db)
    ensures Perform(db, CreatePricesTable) == (db.(prices := Fresh(db.prices)), Nothing)
  {
    PerformIsDirect(db, CreatePricesTable);
  }

  /** The row with the id answers each getter with its own field; a NULL logo throws. */
  lemma FieldAnswers(db: Db, i: nat)
    requires Valid(db) && db.companies.Some? && i < |db.companies.value.rows|
    ensures var row := db.companies.value.rows[i];
      && Perform(db, GetField(row.id, UuidColumn)) == (db, Text(row.uuid))
      && Perform(db, GetField(row.id, NameColumn)) == (db, Text(row.name))
      && Perform(db, GetField(row.id, LogoColumn)) ==
           (db, match row.logo case Some(link) => Text(link) case None => Threw(NullValue))
      && Perform(db, GetField(row.id, IdColumn)) == (db, Text(Digits(if row.id >= 0 then row.id else 0)))
  {
    var row := db.companies.value.rows[i];
    TheRowIsSelected(db.companies.value, i);
    PerformIsDirect(db, GetField(row.id, UuidColumn));
    PerformIsDirect(db, GetField(row.id, NameColumn));
    PerformIsDirect(db, GetField(row.id, LogoColumn));
    PerformIsDirect(db, GetField(row.id, IdColumn));
  }

  lemma TheRowIsSelected(t: Table<Company>, i: nat)
    requires ValidCompanies(t) && i < |t.rows|
    ensures Selected(t.rows, t.rows[i].id) == [t.rows[i]]
  {
    SelectedById(t, t.rows[i].id);
    var hit := Selected(t.rows, t.rows[i].id);
    assert t.rows[i] in hit;
  }

  /** Without the table every read of it throws and changes nothing. */
  lemma MissingTableThrows(db: Db, uuid: string, id: int, column: Column)
    requires db.companies.None?
    ensures Perform(db, GetRowID(uuid)) == Perform(db, IsUuidPresent(uuid)) == (db, Threw(NoSuchTable))
    ensures Perform(db, IsIdPresent(id)) == Perform(db, GetField(id, column)) == (db, Threw(NoSuchTable))
    ensures Perform(db, ListField(column)) == (db, Threw(NoSuchTable))
  {
    PerformIsDirect(db, GetRowID(uuid));
    PerformIsDirect(db, IsUuidPresent(uuid));
    PerformIsDirect(db, IsIdPresent(id));
    PerformIsDirect(db, GetField(id, column));
    PerformIsDirect(db, ListField(column));
  }

  lemma NoFieldThrows(db: Db, id: int, column: Column)
    requires Valid(db) && db.companies.Some? && !HasId(db.companies.value.rows, id)
    ensures Perform(db, GetField(id, column)) == (db, Threw(NoRow))
  {
    PerformIsDirect(db, GetField(id, column));
    NoneSelected(db.companies.value.rows, id);
  }

  /** A list holds each row's own field in row order; a NULL logo lists as the empty text. */
  lemma ListAnswers(db: Db, column: Column)
    requires db.companies.Some?
    ensures var rows, r := db.companies.value.rows, Perform(db, ListField(column));
      && r.0 == db && r.1.Texts? && |r.1.texts| == |rows|
      && forall i :: 0 <= i < |rows| ==>
           && (column == UuidColumn ==> r.1.texts[i] == rows[i].uuid)
           && (column == NameColumn ==> r.1.texts[i] == rows[i].name)
           && (column == LogoColumn ==> r.1.texts[i] == if rows[i].logo.Some? then rows[i].logo.value else "")
  {
    ListIsDirect(db, column);
  }

  // ----- the prepare outside the mutex -----

  predicate KeepsPrices(code: Code) {
    match code
    case Done => true
    case Lock(k) => KeepsPrices(k)
    case Unlock(k) => KeepsPrices(k)
    case Do(act, k) => act != Execute(DropPrices) && KeepsPrices(k)
    case IfYes(yes, no) => KeepsPrices(yes) && KeepsPrices(no)
    case Each(_, k) => KeepsPrices(k)
  }

  ghost predicate ThreadKeepsPrices(th: Thread) {
    && KeepsPrices(th.code) && Transact(DropPrices) !in th.todo
    && (th.local.saved.Some? ==> th.local.saved.value.prices.Some?)
  }

  ghost predicate PricesStay(sys: System) {
    sys.db.prices.Some? && forall t :: 0 <= t < |sys.threads| ==> ThreadKeepsPrices(sys.threads[t])
  }

  lemma {:induction false} UnlocksKeepPrices(depth: nat)
    ensures KeepsPrices(Unlocks(depth))
    decreases depth
  {
    if depth == 0 {
    } else {
      UnlocksKeepPrices(depth - 1);
    }
  }

  lemma TransactionKeepsPrices(s: Statement, k: Code)
    requires s != DropPrices && KeepsPrices(k)
    ensures KeepsPrices(Transaction(s, k))
  {
    assert KeepsPrices(Do(Execute(s), Do(Commit, Unlock(k))));
  }

  lemma GuardedKeepsPrices(act: Act, k: Code)
    requires act != Execute(DropPrices) && KeepsPrices(k)
    ensures KeepsPrices(Guarded(act, k))
  {
    assert KeepsPrices(Do(act, Unlock(k)));
  }

  lemma ProgramKeepsPrices(call: Call)
    requires call != Transact(DropPrices)
    ensures KeepsPrices(Program(call))
  {
    if Spoken(call).Some? {
      TransactionKeepsPrices(Spoken(call).value, Unlock(Done));
      TransactionKeepsPrices(Spoken(call).value, Done);
    } else if call.CreateVersionTable? {
      var branch := IfYes(Unlock(Done), Transaction(InsertVersion(call.version), Unlock(Done)));
      TransactionKeepsPrices(InsertVersion(call.version), Unlock(Done));
      GuardedKeepsPrices(Query(VersionPresent), branch);
      TransactionKeepsPrices(CreateVersion, Guarded(Query(VersionPresent), branch));
    } else if call.CreatePricesTable? {
      var last := Do(Execute(CreatePrices), Do(Commit, Unlock(Done)));
      assert KeepsPrices(last);
      assert KeepsPrices(Do(Execute(PragmaForeignKeysOn), last));
    } else if call.GetField? {
      GuardedKeepsPrices(Prepare, Do(StepOnce(call.id, call.column), Do(StepAgain(call.id), Unlock(Done))));
    } else if call.ListField? {
      GuardedKeepsPrices(Prepare, Do(OpenList, Each(call.column, Unlock(Done))));
    }
  }

  lemma ActKeepsPrices(act: Act, db: Db, l: Local)
    requires act != Execute(DropPrices) && db.prices.Some? && (l.saved.Some? ==> l.saved.value.prices.Some?)
    ensures var out := Effect(act, db, l);
            out.db.prices.Some? && (out.local.saved.Some? ==> out.local.saved.value.prices.Some?)
  {
  }

  lemma StepKeepsPrices(sys: System, t: nat)
    requires PricesStay(sys) && t < |sys.threads| && Step(sys, t).Some?
    ensures PricesStay(Step(sys, t).value)
  {
    var th, next := sys.threads[t], Step(sys, t).value;
    assert ThreadKeepsPrices(th);
    if th.code.Do? {
      ActKeepsPrices(th.code.act, sys.db, th.local);
      UnlocksKeepPrices(if sys.owner == Some(t) then sys.depth else 0);
    } else if th.code.Done? && th.current.None? {
      ProgramKeepsPrices(th.todo[0]);
    }
    assert ThreadKeepsPrices(next.threads[t]);
  }

  /**
    Prices::Add prepares its insert before taking the mutex. Once the table is there and no
    thread drops it, it is there at every moment of every interleaving, in the middle of other
    threads' operations too: such a prepare never fails.
  */
  lemma {:induction false} PreparesFindTheirTable(start: Db, calls: seq<seq<Call>>, schedule: seq<nat>)
    requires start.prices.Some? && forall t :: 0 <= t < |calls| ==> Transact(DropPrices) !in calls[t]
    requires Run(Initially(start, calls), schedule).Some?
    ensures PricesStay(Run(Initially(start, calls), schedule).value)
    decreases |schedule|
  {
    if schedule == [] {
    } else {
      var n := |schedule| - 1;
      PreparesFindTheirTable(start, calls, schedule[..n]);
      StepKeepsPrices(Run(Initially(start, calls), schedule[..n]).value, schedule[n]);
    }
  }
}
