/**
  What the price loop writes (Daemon/src/controller.cpp, UpdatePrices): the two tables are
  read together as a `Book`, and every fetched company is merged into it.
*/
module Ingest {
  import opened Common
  import opened Sql
  import opened Companies
  import opened Tables

  datatype Quote = Quote(amount: real, time: int)
  datatype CompanyInfo = CompanyInfo(shortName: string, fullName: string, logo: string, priceList: seq<Quote>)

  /** First-seen name and logo of every symbol, and every price in order under its symbol. */
  datatype Profile = Profile(name: string, logo: Option<string>)
  datatype Book = Book(profiles: map<string, Profile>, journal: seq<(string, Quote)>)

  ghost predicate Ready(db: Db) {
    db.companies.Some? && db.prices.Some? && Valid(db)
  }

  /** Every price row names a company that is in the table. */
  ghost predicate Integral(db: Db)
    requires Ready(db)
  {
    forall k :: 0 <= k < |db.prices.value.rows| ==> HasId(db.companies.value.rows, db.prices.value.rows[k].company)
  }

  // ----- the tables joined on company_rowid = id -----

  function UuidOf(rows: seq<Company>, id: int): string {
    if rows == [] then "" else
    if rows[|rows| - 1].id == id then rows[|rows| - 1].uuid else UuidOf(rows[..|rows| - 1], id)
  }

  function Profiles(rows: seq<Company>): map<string, Profile> {
    if rows == [] then map[] else
    var row := rows[|rows| - 1];
    Profiles(rows[..|rows| - 1])[row.uuid := Profile(row.name, row.logo)]
  }

  function Journal(rows: seq<Company>, prices: seq<Price>): (out: seq<(string, Quote)>)
    ensures |out| == |prices|
  {
    seq(|prices|, k requires 0 <= k < |prices| =>
      (UuidOf(rows, prices[k].company), Quote(prices[k].amount, prices[k].time)))
  }

  ghost function BookOf(db: Db): Book
    requires Ready(db)
  {
    Book(Profiles(db.companies.value.rows), Journal(db.companies.value.rows, db.prices.value.rows))
  }

  // ----- the reference: merging fetched infos into a book -----

  function Tagged(symbol: string, quotes: seq<Quote>): (out: seq<(string, Quote)>)
    ensures |out| == |quotes|
  {
    seq(|quotes|, k requires 0 <= k < |quotes| => (symbol, quotes[k]))
  }

  function Merge(book: Book, info: CompanyInfo): Book {
    Book(if info.shortName in book.profiles then book.profiles
         else book.profiles[info.shortName := Profile(info.fullName, Some(info.logo))],
         book.journal + Tagged(info.shortName, info.priceList))
  }

  function MergeAll(book: Book, infos: seq<CompanyInfo>): Book {
    if infos == [] then book else Merge(MergeAll(book, infos[..|infos| - 1]), infos[|infos| - 1])
  }

  /** The info with only its first `j` prices. */
  function FirstPrices(info: CompanyInfo, j: nat): CompanyInfo
    requires j <= |info.priceList|
  {
    info.(priceList := info.priceList[..j])
  }

  lemma {:induction false} UuidOfRow(t: Table<Company>, i: nat)
    requires ValidCompanies(t) && i < |t.rows|
    ensures UuidOf(t.rows, t.rows[i].id) == t.rows[i].uuid
    decreases |t.rows|
  {
    var n := |t.rows| - 1;
    if i < n {
      PrefixIsValid(t, n);
      assert t.rows[..n][i] == t.rows[i];
      UuidOfRow(t.(rows := t.rows[..n]), i);
    }
  }

  lemma {:induction false} ProfilesHave(rows: seq<Company>, uuid: string)
    ensures uuid in Profiles(rows) <==> HasUuid(rows, uuid)
    decreases |rows|
  {
    if rows == [] {
    } else {
      var n := |rows| - 1;
      ProfilesHave(rows[..n], uuid);
      assert rows == rows[..n] + [rows[n]];
      if HasUuid(rows[..n], uuid) {
        var i :| 0 <= i < n && rows[..n][i].uuid == uuid;
        assert rows[i].uuid == uuid;
      }
    }
  }

  /** A new company at the end leaves the join of older prices alone. */
  lemma {:induction false} NewCompanyKeepsJournal(rows: seq<Company>, row: Company, prices: seq<Price>)
    requires forall k :: 0 <= k < |prices| ==> HasId(rows, prices[k].company)
    requires !HasId(rows, row.id)
    ensures forall k :: 0 <= k < |prices| ==> HasId(rows + [row], prices[k].company)
    ensures Journal(rows + [row], prices) == Journal(rows, prices)
  {
    assert (rows + [row])[..|rows|] == rows;
    forall k | 0 <= k < |prices|
      ensures HasId(rows + [row], prices[k].company)
      ensures UuidOf(rows + [row], prices[k].company) == UuidOf(rows, prices[k].company)
    {
      var i :| 0 <= i < |rows| && rows[i].id == prices[k].company;
      assert (rows + [row])[i].id == prices[k].company;
    }
  }

  lemma ProfilesGrow(rows: seq<Company>, row: Company)
    ensures Profiles(rows + [row]) == Profiles(rows)[row.uuid := Profile(row.name, row.logo)]
  {
    assert (rows + [row])[..|rows|] == rows;
  }

  lemma NewProfileMerges(t: Table<Company>, prices: seq<Price>, info: CompanyInfo)
    requires ValidCompanies(t) && forall k :: 0 <= k < |prices| ==> HasId(t.rows, prices[k].company)
    requires !HasUuid(t.rows, info.shortName)
    ensures var rows := t.rows + [Company(t.last + 1, info.shortName, info.fullName, Some(info.logo))];
      && HasUuid(rows, info.shortName)
      && (forall k :: 0 <= k < |prices| ==> HasId(rows, prices[k].company))
      && Journal(rows, prices) == Journal(t.rows, prices)
      && Profiles(rows) == Profiles(t.rows)[info.shortName := Profile(info.fullName, Some(info.logo))]
  {
    var row := Company(t.last + 1, info.shortName, info.fullName, Some(info.logo));
    assert (t.rows + [row])[|t.rows|].uuid == info.shortName;
    NewCompanyKeepsJournal(t.rows, row, prices);
    ProfilesGrow(t.rows, row);
  }

  lemma NoPricesMerge(book: Book, info: CompanyInfo)
    ensures Merge(book, FirstPrices(info, 0)).journal == book.journal
  {
    assert Tagged(info.shortName, info.priceList[..0]) == [];
  }

  lemma InsertMergesProfile(t: Table<Company>, prices: seq<Price>, info: CompanyInfo, gap: nat)
    requires ValidCompanies(t) && forall k :: 0 <= k < |prices| ==> HasId(t.rows, prices[k].company)
    ensures var rows := InsertOrIgnore(t, info.shortName, info.fullName, info.logo, gap).rows;
      && HasUuid(rows, info.shortName)
      && (forall k :: 0 <= k < |prices| ==> HasId(rows, prices[k].company))
      && Book(Profiles(rows), Journal(rows, prices))
           == Merge(Book(Profiles(t.rows), Journal(t.rows, prices)), FirstPrices(info, 0))
  {
    ProfilesHave(t.rows, info.shortName);
    NoPricesMerge(Book(Profiles(t.rows), Journal(t.rows, prices)), info);
    if !HasUuid(t.rows, info.shortName) {
      NewProfileMerges(t, prices, info);
    }
  }

  /** Companies::Add adds an empty-handed merge; the id counter's gaps do not show. */
  lemma AddMergesProfile(db: Db, info: CompanyInfo, gap: nat)
    requires Ready(db) && Integral(db)
    ensures var next := After(db, InsertCompany(info.shortName, info.fullName, info.logo, gap));
            && Ready(next) && Integral(next) && HasUuid(next.companies.value.rows, info.shortName)
            && BookOf(next) == Merge(BookOf(db), FirstPrices(info, 0))
  {
    StatementKeepsValid(db, InsertCompany(info.shortName, info.fullName, info.logo, gap));
    InsertMergesProfile(db.companies.value, db.prices.value.rows, info, gap);
  }

  /** Enforcement refuses a price under an id that is not there. */
  predicate PriceRefused(db: Db, id: int) {
    db.enforced && !(db.companies.Some? && HasId(db.companies.value.rows, id))
  }

  /**
    Prices::Add, unless refused, lands at the end of the journal under the symbol its id joins
    to; integrity is kept exactly by a live id.
  */
  lemma AddAppendsToJournal(db: Db, id: int, quote: Quote)
    requires Ready(db)
    ensures var s := InsertPrice(id, quote.amount, quote.time); var next := After(db, s);
            && (Exec(db, s).Ok? <==> !PriceRefused(db, id))
            && Ready(next) && next.companies == db.companies && next.enforced == db.enforced
            && (Exec(db, s).Ok? ==>
                 && BookOf(next) == BookOf(db).(journal := BookOf(db).journal + [(UuidOf(db.companies.value.rows, id), quote)])
                 && (Integral(next) <==> Integral(db) && HasId(db.companies.value.rows, id)))
  {
    var s := InsertPrice(id, quote.amount, quote.time);
    var next := After(db, s);
    StatementKeepsValid(db, s);
    if !PriceRefused(db, id) {
      JournalGrows(db.companies.value.rows, db.prices.value.rows, Price(db.prices.value.last + 1, id, quote.amount, quote.time));
      HaveIdsGrows(db.companies.value.rows, db.prices.value.rows, Price(db.prices.value.last + 1, id, quote.amount, quote.time));
    }
  }

  lemma JournalGrows(rows: seq<Company>, prices: seq<Price>, price: Price)
    ensures Journal(rows, prices + [price]) ==
            Journal(rows, prices) + [(UuidOf(rows, price.company), Quote(price.amount, price.time))]
  {
  }

  lemma HaveIdsGrows(rows: seq<Company>, prices: seq<Price>, price: Price)
    ensures (forall k :: 0 <= k < |prices + [price]| ==> HasId(rows, (prices + [price])[k].company))
       <==> (forall k :: 0 <= k < |prices| ==> HasId(rows, prices[k].company)) && HasId(rows, price.company)
  {
    var all := prices + [price];
    assert all[|prices|] == price;
    assert forall k :: 0 <= k < |prices| ==> all[k] == prices[k];
  }

  lemma TaggedGrows(symbol: string, quotes: seq<Quote>, j: nat)
    requires j < |quotes|
    ensures Tagged(symbol, quotes[..j + 1]) == Tagged(symbol, quotes[..j]) + [(symbol, quotes[j])]
  {
  }

  /** Inside its quotes a symbol is never answered by a dead id; a plain one in the table is found. */
  lemma LookupFindsLiveRow(db: Db, uuid: string, r: Result<int, Failure>)
    requires Ready(db) && RowIdAnswer(db.companies.value.rows, uuid, r) && !ClosesQuote(uuid)
    ensures r.Ok? ==> HasId(db.companies.value.rows, r.value)
    ensures Plain(uuid) && HasUuid(db.companies.value.rows, uuid) ==>
      r.Ok? && exists i :: 0 <= i < |db.companies.value.rows| && db.companies.value.rows[i].id == r.value
                        && db.companies.value.rows[i].uuid == uuid
  {
    if Plain(uuid) && HasUuid(db.companies.value.rows, uuid) {
      var i :| 0 <= i < |db.companies.value.rows| && db.companies.value.rows[i].uuid == uuid;
      assert Matches(db.companies.value.rows[i], uuid);
    }
  }

  // ----- one turn of the loop -----

  /** What a turn makes of the book once the lookup has answered `id`. */
  ghost function TurnBook(db: Db, info: CompanyInfo, gap: nat, id: int): Book
    requires Ready(db)
  {
    var next := AfterAdd(db, info, gap);
    BookOf(next).(journal := BookOf(next).journal + Tagged(UuidOf(next.companies.value.rows, id), info.priceList))
  }

  ghost function AfterAdd(db: Db, info: CompanyInfo, gap: nat): (next: Db)
    ensures Ready(db) ==> Ready(next)
  {
    var s := InsertCompany(info.shortName, info.fullName, info.logo, gap);
    if Ready(db) then StatementKeepsValid(db, s); After(db, s) else After(db, s)
  }

  /** The answers the lookup of a turn can give. */
  ghost predicate TurnAnswer(db: Db, info: CompanyInfo, gap: nat, answer: Result<int, Failure>)
    requires Ready(db)
  {
    RowIdAnswer(AfterAdd(db, info, gap).companies.value.rows, info.shortName, answer)
  }

  /** The turn does what it is for: nothing thrown, and the info merged into the book. */
  ghost predicate TurnMerges(db: Db, info: CompanyInfo, gap: nat, answer: Result<int, Failure>)
    requires Ready(db)
  {
    answer.Ok? && TurnBook(db, info, gap, answer.value) == Merge(BookOf(db), info)
  }

  /** The inner `for`: every price of one info, under one id. */
  method AddPrices(prices: PriceTable, rowId: int, quotes: seq<Quote>) returns (r: Result<(), Failure>)
    requires Ready(prices.db.content)
    modifies prices.db
    ensures prices.db.depth == old(prices.db.depth)
    ensures var db, was := prices.db.content, old(prices.db.content);
            && Ready(db) && db.companies == was.companies
            && (r.Ok? <==> quotes == [] || !PriceRefused(was, rowId)) && (r.Err? ==> db == was)
            && (r.Ok? ==>
                 && BookOf(db) == BookOf(was).(journal :=
                      BookOf(was).journal + Tagged(UuidOf(was.companies.value.rows, rowId), quotes))
                 && (Integral(db) <==> Integral(was) && (quotes == [] || HasId(was.companies.value.rows, rowId))))
  {
    var db := prices.db;
    ghost var was, book := db.content, BookOf(db.content);
    ghost var symbol := UuidOf(was.companies.value.rows, rowId);
    r := Ok(());
    var j := 0;
    while j < |quotes|
      invariant 0 <= j <= |quotes| && r.Ok?
      invariant db.depth == old(db.depth) && Ready(db.content)
      invariant db.content.companies == was.companies && db.content.enforced == was.enforced
      invariant j == 0 ==> db.content == was
      invariant j > 0 ==> !PriceRefused(was, rowId)
      invariant BookOf(db.content) == book.(journal := book.journal + Tagged(symbol, quotes[..j]))
      invariant Integral(db.content) <==> Integral(was) && (j == 0 || HasId(was.companies.value.rows, rowId))
    {
      AddAppendsToJournal(db.content, rowId, quotes[j]);
      TaggedGrows(symbol, quotes, j);
      r := prices.Add(rowId, quotes[j].amount, quotes[j].time);
      if r.Err? {
        return;
      }
      j := j + 1;
    }
    assert quotes[..j] == quotes;
  }

  lemma PlainTurnMerges(db: Db, info: CompanyInfo, gap: nat, answer: Result<int, Failure>)
    requires Ready(db) && Integral(db) && TurnAnswer(db, info, gap, answer) && Plain(info.shortName)
    ensures TurnMerges(db, info, gap, answer)
  {
    var next := AfterAdd(db, info, gap);
    AddMergesProfile(db, info, gap);
    LookupFindsLiveRow(next, info.shortName, answer);
    var i :| 0 <= i < |next.companies.value.rows| && next.companies.value.rows[i].id == answer.value
      && next.companies.value.rows[i].uuid == info.shortName;
    UuidOfRow(next.companies.value, i);
    NoPricesMerge(BookOf(db), info);
  }

  lemma CutTurnFails(db: Db, info: CompanyInfo)
    requires Ready(db) && CutByNul(info.shortName)
    ensures exists answer :: TurnAnswer(db, info, 0, answer) && !TurnMerges(db, info, 0, answer)
  {
    assert TurnAnswer(db, info, 0, Err(SyntaxError)) && !TurnMerges(db, info, 0, Err(SyntaxError));
  }

  /** Prices filed under an id of another symbol are not a merge of the info. */
  lemma FiledElsewhere(db: Db, info: CompanyInfo, gap: nat, id: int)
    requires Ready(db) && info.priceList != []
    requires UuidOf(AfterAdd(db, info, gap).companies.value.rows, id) != info.shortName
    ensures TurnBook(db, info, gap, id) != Merge(BookOf(db), info)
  {
    var n := |info.priceList| - 1;
    var got, wanted := TurnBook(db, info, gap, id).journal, Merge(BookOf(db), info).journal;
    assert got[|got| - 1].0 == UuidOf(AfterAdd(db, info, gap).companies.value.rows, id);
    assert wanted[|wanted| - 1].0 == info.shortName;
  }

  function DecoyDb(): Db {
    Db(None, Some(Table([DECOY], 1)), Some(Table([], 0)), false)
  }

  lemma DecoyIsFirst(info: CompanyInfo)
    requires ColumnOf(info.shortName).Some?
    ensures Ready(DecoyDb()) && Integral(DecoyDb())
    ensures var rows := AfterAdd(DecoyDb(), info, 0).companies.value.rows;
            |rows| == 2 && rows[0] == DECOY && Matches(rows[0], info.shortName) && rows[1].id == 2
  {
    DecoyMatches(info.shortName);
    assert !HasUuid([DECOY], info.shortName);
  }

  /** A decoy row first: the name of a column files its prices elsewhere, a NUL throws. */
  lemma TurnWithPricesFails(info: CompanyInfo)
    requires !ClosesQuote(info.shortName) && !Plain(info.shortName) && info.priceList != []
    ensures exists db, answer :: Ready(db) && Integral(db) && TurnAnswer(db, info, 0, answer) && !TurnMerges(db, info, 0, answer)
  {
    InsideQuotes(info.shortName);
    var db := DecoyDb();
    if CutByNul(info.shortName) {
      CutTurnFails(db, info);
    } else {
      DecoyIsFirst(info);
      DecoyMatches(info.shortName);
      assert TurnAnswer(db, info, 0, Ok(1));
      UuidOfRow(AfterAdd(db, info, 0).companies.value, 0);
      FiledElsewhere(db, info, 0, 1);
      assert !TurnMerges(db, info, 0, Ok(1));
    }
  }

  /** Without prices to file, only an exception can go wrong; `uuid = "uuid"` never throws. */
  lemma TurnWithoutPricesFails(info: CompanyInfo)
    requires !ClosesQuote(info.shortName) && !Plain(info.shortName) && ColumnOf(info.shortName) != Some(UuidColumn)
    ensures exists db, answer :: Ready(db) && Integral(db) && TurnAnswer(db, info, 0, answer) && !TurnMerges(db, info, 0, answer)
  {
    var symbol := info.shortName;
    var row := Company(1, symbol, "", None);
    var rows := [row];
    var db := Db(None, Some(Table(rows, 1)), Some(Table([], 0)), false);
    InsideQuotes(symbol);
    assert rows[0].uuid == symbol;
    assert AfterAdd(db, info, 0).companies.value.rows == rows;
    if CutByNul(symbol) {
      CutTurnFails(db, info);
    } else {
      if ColumnOf(symbol) == Some(IdColumn) { DecoyMatches(symbol); }
      assert Digits(1) == "1" && Lower("") == "";
      assert !Matches(row, symbol);
      assert TurnAnswer(db, info, 0, Err(NoRow)) && !TurnMerges(db, info, 0, Err(NoRow));
    }
  }

  lemma BareUuidTurnMerges(db: Db, info: CompanyInfo, gap: nat, answer: Result<int, Failure>)
    requires Ready(db) && Integral(db) && TurnAnswer(db, info, gap, answer)
    requires !ClosesQuote(info.shortName) && !CutByNul(info.shortName)
    requires ColumnOf(info.shortName) == Some(UuidColumn) && info.priceList == []
    ensures TurnMerges(db, info, gap, answer)
  {
    var next := AfterAdd(db, info, gap);
    AddMergesProfile(db, info, gap);
    var i :| 0 <= i < |next.companies.value.rows| && next.companies.value.rows[i].uuid == info.shortName;
    assert Matches(next.companies.value.rows[i], info.shortName);
    NoPricesMerge(BookOf(db), info);
    assert FirstPrices(info, 0) == info;
  }

  /** A text that names a column has neither NUL nor quote. */
  lemma ColumnNamesAreClean(text: string)
    requires ColumnOf(text).Some?
    ensures !CutByNul(text) && !ClosesQuote(text)
  {
    forall i | 0 <= i < |text| ensures text[i] != '\0' && text[i] != '\"' {
      assert Lower(text)[i] != '\0' && Lower(text)[i] != '\"';
    }
  }

  /**
    For a symbol that stays inside its quotes, a turn merges the fetched info on every integral
    store exactly when the symbol is plain, or is the word "uuid" and brings no prices.
  */
  lemma TurnMergesExactly(info: CompanyInfo)
    ensures !ClosesQuote(info.shortName) ==>
      ((forall db, gap, answer :: Ready(db) && Integral(db) && TurnAnswer(db, info, gap, answer) ==> TurnMerges(db, info, gap, answer))
       <==> Plain(info.shortName) || (ColumnOf(info.shortName) == Some(UuidColumn) && info.priceList == []))
  {
    if Plain(info.shortName) {
      forall db, gap, answer | Ready(db) && Integral(db) && TurnAnswer(db, info, gap, answer)
        ensures TurnMerges(db, info, gap, answer)
      {
        PlainTurnMerges(db, info, gap, answer);
      }
    } else if ColumnOf(info.shortName) == Some(UuidColumn) && info.priceList == [] {
      ColumnNamesAreClean(info.shortName);
      forall db, gap, answer | Ready(db) && Integral(db) && TurnAnswer(db, info, gap, answer)
        ensures TurnMerges(db, info, gap, answer)
      {
        BareUuidTurnMerges(db, info, gap, answer);
      }
    } else if !ClosesQuote(info.shortName) {
      if info.priceList != [] { TurnWithPricesFails(info); } else { TurnWithoutPricesFails(info); }
    }
  }

  /** What one turn does to the store, with `answer` from its lookup and `done` unless it throws. */
  ghost predicate Turned(was: Db, db: Db, info: CompanyInfo, gap: nat, answer: Result<int, Failure>, done: bool)
    requires Ready(was) && Ready(db)
  {
    && TurnAnswer(was, info, gap, answer)
    && (if done then answer.Ok? && BookOf(db) == TurnBook(was, info, gap, answer.value)
        else db == AfterAdd(was, info, gap) && (answer.Err? || PriceRefused(db, answer.value)))
    && (Integral(was) && !ClosesQuote(info.shortName) ==> Integral(db) && (done <==> answer.Ok?))
    && (Integral(was) && Plain(info.shortName) ==> done && BookOf(db) == Merge(BookOf(was), info))
  }

  /** One turn of the outer `for`: add the company, look its id up, add its prices. */
  method IngestInfo(companies: CompanyTable, prices: PriceTable, info: CompanyInfo, gap: nat)
    returns (r: Result<(), Failure>, ghost answer: Result<int, Failure>)
    requires companies.db == prices.db && Ready(companies.db.content)
    modifies companies.db
    ensures companies.db.depth == old(companies.db.depth) && Ready(companies.db.content)
    ensures Turned(old(companies.db.content), companies.db.content, info, gap, answer, r.Ok?)
  {
    var db := companies.db;
    ghost var was := db.content;
    if Integral(was) { AddMergesProfile(was, info, gap); }
    var added := companies.Add(info.shortName, info.fullName, info.logo, gap);
    assert db.content == AfterAdd(was, info, gap);
    var rowId := companies.GetRowID(info.shortName);
    answer := rowId;
    if !ClosesQuote(info.shortName) { LookupFindsLiveRow(db.content, info.shortName, rowId); }
    if Integral(was) && Plain(info.shortName) { PlainTurnMerges(was, info, gap, rowId); }
    if rowId.Err? {
      return Err(rowId.error), answer;
    }
    r := AddPrices(prices, rowId.value, info.priceList);
  }

  ghost predicate NoneCloses(infos: seq<CompanyInfo>) {
    forall k :: 0 <= k < |infos| ==> !ClosesQuote(infos[k].shortName)
  }

  ghost predicate AllPlain(infos: seq<CompanyInfo>) {
    forall k :: 0 <= k < |infos| ==> Plain(infos[k].shortName)
  }

  lemma PlainNeverCloses(infos: seq<CompanyInfo>)
    ensures AllPlain(infos) ==> NoneCloses(infos)
  {
  }

  lemma MergeAllAppend(book: Book, infos: seq<CompanyInfo>, i: nat)
    requires i < |infos|
    ensures MergeAll(book, infos[..i + 1]) == Merge(MergeAll(book, infos[..i]), infos[i])
  {
    assert infos[..i + 1][..i] == infos[..i];
  }

  /** What the first `n` turns of a pass have left, if none threw. */
  ghost predicate Passed(was: Db, db: Db, infos: seq<CompanyInfo>, n: nat)
    requires Ready(was) && Ready(db) && n <= |infos|
  {
    Integral(was) ==>
      && (NoneCloses(infos) ==> Integral(db))
      && (AllPlain(infos) ==> BookOf(db) == MergeAll(BookOf(was), infos[..n]))
  }

  lemma PassTurns(was: Db, db: Db, next: Db, infos: seq<CompanyInfo>, n: nat, gap: nat, answer: Result<int, Failure>, done: bool)
    requires Ready(was) && Ready(db) && Ready(next) && n < |infos|
    requires Passed(was, db, infos, n) && Turned(db, next, infos[n], gap, answer, done)
    ensures if done then Passed(was, next, infos, n + 1) else Ingested(was, next, infos, false)
  {
    PlainNeverCloses(infos);
    MergeAllAppend(BookOf(was), infos, n);
  }

  /** What a pass guarantees, thrown out of or `done`. */
  ghost predicate Ingested(was: Db, db: Db, infos: seq<CompanyInfo>, done: bool)
    requires Ready(was) && Ready(db)
  {
    Integral(was) ==>
      && (NoneCloses(infos) ==> Integral(db))
      && (AllPlain(infos) ==> done && BookOf(db) == MergeAll(BookOf(was), infos))
  }

  lemma PassEnds(was: Db, db: Db, infos: seq<CompanyInfo>)
    requires Ready(was) && Ready(db) && Passed(was, db, infos, |infos|)
    ensures Ingested(was, db, infos, true)
  {
    assert infos[..|infos|] == infos;
  }

  lemma PassStarts(was: Db, infos: seq<CompanyInfo>)
    requires Ready(was)
    ensures Passed(was, was, infos, 0)
  {
    assert infos[..0] == [];
  }

  /**
    The outer `for`, over one pass of fetched infos. With plain symbols the pass never throws
    and is exactly the reference merge; as long as no symbol closes its quote, it keeps
    referential integrity even if a lookup throws.
  */
  method IngestPass(companies: CompanyTable, prices: PriceTable, infos: seq<CompanyInfo>, gaps: seq<nat>)
    returns (r: Result<(), Failure>)
    requires companies.db == prices.db && |gaps| == |infos| && Ready(companies.db.content)
    modifies companies.db
    ensures companies.db.depth == old(companies.db.depth) && Ready(companies.db.content)
    ensures Ingested(old(companies.db.content), companies.db.content, infos, r.Ok?)
  {
    var db := companies.db;
    ghost var was := db.content;
    PassStarts(was, infos);
    var i := 0;
    while i < |infos|
      invariant 0 <= i <= |infos|
      invariant db.depth == old(db.depth) && Ready(db.content)
      invariant Passed(was, db.content, infos, i)
    {
      ghost var before := db.content;
      ghost var answer;
      r, answer := IngestInfo(companies, prices, infos[i], gaps[i]);
      PassTurns(was, before, db.content, infos, i, gaps[i], answer, r.Ok?);
      if r.Err? {
        return;
      }
      i := i + 1;
    }
    PassEnds(was, db.content, infos);
    r := Ok(());
  }

  // ----- what the reference merge means for one symbol -----

  function QuotesFor(journal: seq<(string, Quote)>, symbol: string): seq<Quote> {
    if journal == [] then [] else
    QuotesFor(journal[..|journal| - 1], symbol)
      + if journal[|journal| - 1].0 == symbol then [journal[|journal| - 1].1] else []
  }

  function FetchedFor(infos: seq<CompanyInfo>, symbol: string): seq<Quote> {
    if infos == [] then [] else
    FetchedFor(infos[..|infos| - 1], symbol)
      + if infos[|infos| - 1].shortName == symbol then infos[|infos| - 1].priceList else []
  }

  lemma {:induction false} QuotesForTagged(journal: seq<(string, Quote)>, name: string, quotes: seq<Quote>, symbol: string)
    ensures QuotesFor(journal + Tagged(name, quotes), symbol) ==
            QuotesFor(journal, symbol) + if name == symbol then quotes else []
    decreases |quotes|
  {
    var all := journal + Tagged(name, quotes);
    if quotes == [] {
      assert all == journal;
    } else {
      var n := |quotes| - 1;
      assert all[..|all| - 1] == journal + Tagged(name, quotes[..n]);
      QuotesForTagged(journal, name, quotes[..n], symbol);
      assert quotes == quotes[..n] + [quotes[n]];
    }
  }

  /** Each symbol ends with its earlier prices followed by exactly those fetched for it, in order. */
  lemma {:induction false} PricesOfSymbol(book: Book, infos: seq<CompanyInfo>, symbol: string)
    ensures QuotesFor(MergeAll(book, infos).journal, symbol) ==
            QuotesFor(book.journal, symbol) + FetchedFor(infos, symbol)
    decreases |infos|
  {
    if infos == [] {
    } else {
      var n := |infos| - 1;
      PricesOfSymbol(book, infos[..n], symbol);
      QuotesForTagged(MergeAll(book, infos[..n]).journal, infos[n].shortName, infos[n].priceList, symbol);
    }
  }

  /** A symbol's name and logo are those of the first info that brought it, and never change. */
  lemma {:induction false} FirstProfileWins(book: Book, infos: seq<CompanyInfo>, symbol: string)
    ensures var end := MergeAll(book, infos).profiles;
      && (symbol in book.profiles ==> symbol in end && end[symbol] == book.profiles[symbol])
      && (symbol in end ==> symbol in book.profiles || exists k :: 0 <= k < |infos| && infos[k].shortName == symbol)
      && (forall k :: 0 <= k < |infos| && symbol !in book.profiles && infos[k].shortName == symbol
            && (forall m :: 0 <= m < k ==> infos[m].shortName != symbol)
            ==> symbol in end && end[symbol] == Profile(infos[k].fullName, Some(infos[k].logo)))
    decreases |infos|
  {
    if infos == [] {
    } else {
      var n := |infos| - 1;
      FirstProfileWins(book, infos[..n], symbol);
      var mid, end := MergeAll(book, infos[..n]).profiles, MergeAll(book, infos).profiles;
      if symbol in end && symbol !in book.profiles && symbol in mid {
        var k :| 0 <= k < n && infos[..n][k].shortName == symbol;
        assert infos[k].shortName == symbol;
      }
      forall k | 0 <= k < |infos| && symbol !in book.profiles && infos[k].shortName == symbol
            && (forall m :: 0 <= m < k ==> infos[m].shortName != symbol)
        ensures symbol in end && end[symbol] == Profile(infos[k].fullName, Some(infos[k].logo))
      {
        if k < n {
          assert infos[..n][k] == infos[k];
        }
      }
    }
  }
}
