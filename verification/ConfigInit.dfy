/**
  What a run of Daemon::Init guarantees (Daemon/config/config_daemon.cpp), for any tree the
  configuration file may have held.
*/
module ConfigInit {
  import opened Common
  import opened PropertyTree
  import opened Config

  // ----- reads after the scalar lines -----

  lemma WriteBackReads(t: Tree, key: Key, k: Key)
    requires WriteBack(t, key).Ok?
    ensures Data(WriteBack(t, key).value, PathOf(k)) ==
            if k == key then Some(ValueFor(t, k).value) else Data(t, PathOf(k))
  {
    var value := ValueFor(t, key).value;
    PathsAreIndependent(k, key);
    if k == key {
      GetAfterPut(t, PathOf(k), value);
    } else {
      PutElsewhere(t, PathOf(key), value, PathOf(k));
    }
  }

  lemma SameDataSameValue(t: Tree, other: Tree, k: Key)
    requires Data(t, PathOf(k)) == Data(other, PathOf(k))
    ensures ValueFor(t, k) == ValueFor(other, k)
  {
  }

  ghost predicate Distinct(keys: seq<Key>) {
    forall i, j :: 0 <= i < j < |keys| ==> keys[i] != keys[j]
  }

  lemma LastIsNew(keys: seq<Key>)
    requires Distinct(keys) && keys != []
    ensures var n := |keys| - 1; Distinct(keys[..n]) && keys[n] !in keys[..n]
    ensures forall k :: k in keys <==> k in keys[..|keys| - 1] || k == keys[|keys| - 1]
  {
    assert keys == keys[..|keys| - 1] + [keys[|keys| - 1]];
  }

  /** Each written-back key reads as its own value in the tree found; the others read as before. */
  lemma {:induction false} WriteBackAllReads(t: Tree, keys: seq<Key>, k: Key)
    requires WriteBackAll(t, keys).Ok? && Distinct(keys)
    ensures k in keys ==> ValueFor(t, k).Ok?
    ensures Data(WriteBackAll(t, keys).value, PathOf(k)) ==
            if k in keys then Some(ValueFor(t, k).value) else Data(t, PathOf(k))
    decreases |keys|
  {
    if keys == [] {
    } else {
      var n := |keys| - 1;
      LastIsNew(keys);
      WriteBackAllReads(t, keys[..n], k);
      var mid := WriteBackAll(t, keys[..n]).value;
      assert WriteBackAll(t, keys) == WriteBack(mid, keys[n]);
      WriteBackReads(mid, keys[n], k);
      if k == keys[n] { SameDataSameValue(t, mid, k); }
    }
  }

  lemma {:induction false} WriteBackAllElsewhere(t: Tree, keys: seq<Key>, other: Path)
    requires WriteBackAll(t, keys).Ok? && forall k :: k in keys ==> !(other <= PathOf(k))
    ensures Data(WriteBackAll(t, keys).value, other) == Data(t, other)
    decreases |keys|
  {
    if keys == [] {
    } else {
      var n := |keys| - 1;
      assert keys[n] in keys && forall k :: k in keys[..n] ==> k in keys;
      WriteBackAllElsewhere(t, keys[..n], other);
      var mid := WriteBackAll(t, keys[..n]).value;
      PutElsewhere(mid, PathOf(keys[n]), ValueFor(mid, keys[n]).value, other);
    }
  }

  lemma ScalarsAreDistinct()
    ensures Distinct(SCALARS) && IexUpdateSymbols !in SCALARS
    ensures forall k: Key :: k != IexUpdateSymbols ==> k in SCALARS
  {
    forall k: Key | k != IexUpdateSymbols ensures k in SCALARS {
      assert k == SCALARS[match k case LogPath => 0 case DbPath => 1 case Interface => 2 case Port => 3
                          case IexUrl => 4 case IexTocken => 5 case IexUpdatePriceSecond => 6 case IexUpdateSymbols => 0];
    }
  }

  function Scalars(t: Tree): Tree
    requires Initialised(t).Ok?
  {
    WriteBackAll(t, SCALARS).value
  }

  lemma ArrayChangesNoScalar(t: Tree, k: Key)
    requires Initialised(t).Ok? && k != IexUpdateSymbols
    ensures Data(Initialised(t).value, PathOf(k)) == Data(Scalars(t), PathOf(k))
  {
    var mid := Scalars(t);
    if !HasLiteral(mid, IexUpdateSymbols) {
      var symbols := ReadArray(mid, PathOf(IexUpdatePriceSecond), DEFAULT_SYMBOLS).value;
      PathsAreIndependent(k, IexUpdateSymbols);
      PathsAreIndependent(IexUpdateSymbols, k);
      AddChildElsewhere(mid, PathOf(IexUpdateSymbols), ArrayNode(symbols), PathOf(k));
    }
  }

  /**
    After a successful Init every scalar setting is there: as found if it was found, else its
    default. The time-out alone is re-printed, so it is kept exactly if it was already the
    canonical text of its number.
  */
  lemma InitKeepsScalars(t: Tree, k: Key)
    requires Initialised(t).Ok? && k != IexUpdateSymbols
    ensures var was, now := Data(t, PathOf(k)), Data(Initialised(t).value, PathOf(k));
      && ValueFor(t, k).Ok? && now == Some(ValueFor(t, k).value)
      && (was == None ==> now == Some(Default(k)))
      && (was.Some? ==> (now == was <==> k != IexUpdatePriceSecond || Canonical(was.value)))
  {
    ScalarsAreDistinct();
    WriteBackAllReads(t, SCALARS, k);
    ArrayChangesNoScalar(t, k);
    if k == IexUpdatePriceSecond && Data(t, PathOf(k)) == None {
      assert Read(t, PathOf(k), Default(k)) == "3";
      ParseOfPrint(3);
      assert PrintInt(3) == "3";
    }
  }

  /** Init touches nothing but the settings themselves, the sections above them and the symbol list. */
  lemma InitLeavesTheRest(t: Tree, other: Path)
    requires Initialised(t).Ok? && !(PathOf(IexUpdateSymbols) <= other)
    requires forall k :: !(other <= PathOf(k))
    ensures Data(Initialised(t).value, other) == Data(t, other)
  {
    WriteBackAllElsewhere(t, SCALARS, other);
    var mid := Scalars(t);
    if !HasLiteral(mid, IexUpdateSymbols) {
      var symbols := ReadArray(mid, PathOf(IexUpdatePriceSecond), DEFAULT_SYMBOLS).value;
      AddChildElsewhere(mid, PathOf(IexUpdateSymbols), ArrayNode(symbols), other);
    }
  }

  // ----- the symbol list -----

  lemma IntTextIsNotEmpty(n: int)
    ensures PrintInt(n) != ""
  {
  }

  lemma {:induction false} WriteBackAllIsStorable(t: Tree, keys: seq<Key>)
    requires WriteBackAll(t, keys).Ok? && keys != []
    ensures Storable(WriteBackAll(t, keys).value)
  {
  }

  /** Once the time-out is written, its node holds a number and so has no children. */
  lemma TimeoutNodeIsPlain(t: Tree)
    requires WriteBackAll(t, SCALARS).Ok?
    ensures var node := Get(WriteBackAll(t, SCALARS).value, PathOf(IexUpdatePriceSecond));
            node.Some? && node.value.kids == []
  {
    var mid := WriteBackAll(t, SCALARS).value;
    ScalarsAreDistinct();
    WriteBackAllReads(t, SCALARS, IexUpdatePriceSecond);
    var text := Read(t, PathOf(IexUpdatePriceSecond), Default(IexUpdatePriceSecond));
    IntTextIsNotEmpty(ParseInt(text).value);
    WriteBackAllIsStorable(t, SCALARS);
    GetIsJsonOk(mid, PathOf(IexUpdatePriceSecond));
  }

  /**
    GetArray's write under its own lock is out of reach in Init. And because it looks under the
    time-out's key, it always answers the built-in symbols, whatever list the file holds.
  */
  lemma SymbolsAreAlwaysTheDefaults(t: Tree)
    requires WriteBackAll(t, SCALARS).Ok?
    ensures ReadArray(WriteBackAll(t, SCALARS).value, PathOf(IexUpdatePriceSecond), DEFAULT_SYMBOLS) == Ok(DEFAULT_SYMBOLS)
  {
    TimeoutNodeIsPlain(t);
  }

  lemma InitialisedIs(t: Tree)
    requires WriteBackAll(t, SCALARS).Ok?
    ensures var next := WithArray(WriteBackAll(t, SCALARS).value, IexUpdateSymbols, DEFAULT_SYMBOLS);
            Initialised(t) == if Storable(next) then Ok(next) else Err(JsonError)
  {
    SymbolsAreAlwaysTheDefaults(t);
  }

  lemma LiteralIsData(t: Tree, k: Key)
    ensures HasLiteral(t, k) <==> Data(t, [Dotted(Section(k), Name(k))]).Some?
  {
    var path := [Dotted(Section(k), Name(k))];
    GetFirst(t, path);
    assert path[1..] == [];
  }

  /** No section is called like a dotted key. */
  lemma LiteralIsElsewhere(k: Key)
    ensures var path := [Dotted(IEX, Name(IexUpdateSymbols))]; !(path <= PathOf(k)) && !(PathOf(k) <= path)
  {
    var path := [Dotted(IEX, Name(IexUpdateSymbols))];
    assert |DAEMON| == 6 && |GRPC| == 11 && |IEX| == 7;
    assert Section(k) == DAEMON || Section(k) == GRPC || Section(k) == IEX;
    assert |path[0]| > |IEX| + 1 + 12;
    assert path[0] != PathOf(k)[0];
  }

  lemma ScalarsKeepLiteral(t: Tree)
    requires Initialised(t).Ok?
    ensures HasLiteral(Scalars(t), IexUpdateSymbols) <==> HasLiteral(t, IexUpdateSymbols)
  {
    var path := [Dotted(IEX, Name(IexUpdateSymbols))];
    forall k: Key ensures !(path <= PathOf(k)) { LiteralIsElsewhere(k); }
    WriteBackAllElsewhere(t, SCALARS, path);
    LiteralIsData(t, IexUpdateSymbols);
    LiteralIsData(Scalars(t), IexUpdateSymbols);
  }

  lemma InitKeepsLiteral(t: Tree)
    requires Initialised(t).Ok?
    ensures HasLiteral(Initialised(t).value, IexUpdateSymbols) <==> HasLiteral(t, IexUpdateSymbols)
  {
    var path := [Dotted(IEX, Name(IexUpdateSymbols))];
    forall k: Key ensures !(path <= PathOf(k)) && !(PathOf(k) <= path) { LiteralIsElsewhere(k); }
    InitLeavesTheRest(t, path);
    LiteralIsData(t, IexUpdateSymbols);
    LiteralIsData(Initialised(t).value, IexUpdateSymbols);
  }

  const SYMBOL_LIST := Node("", [("", Node("aapl", [])), ("", Node("fb", []))])

  lemma SymbolListIs()
    ensures ArrayNode(DEFAULT_SYMBOLS) == SYMBOL_LIST
  {
  }

  lemma InitAddsTheList(t: Tree)
    requires Initialised(t).Ok? && !HasLiteral(t, IexUpdateSymbols)
    ensures Initialised(t) == Ok(AddChild(Scalars(t), PathOf(IexUpdateSymbols), SYMBOL_LIST))
  {
    ScalarsKeepLiteral(t);
    InitialisedIs(t);
    SymbolListIs();
  }

  /**
    The array write is guarded by a child literally called "iex_api.update_symbols". Without
    one, every Init appends one more symbol list to the section, at the end.
  */
  lemma SymbolListsPileUp(t: Tree)
    requires Initialised(t).Ok? && !HasLiteral(t, IexUpdateSymbols)
    ensures var section := ChildOr(Scalars(t), "iex_api");
      Get(Initialised(t).value, ["iex_api"]) == Some(section.(kids := section.kids + [("update_symbols", SYMBOL_LIST)]))
    ensures Initialised(t).value != Scalars(t)
  {
    InitAddsTheList(t);
    AddChildAppends(Scalars(t), IEX, Name(IexUpdateSymbols), SYMBOL_LIST);
  }

  lemma ScalarsAddNoList(t: Tree)
    requires Initialised(t).Ok? && Get(t, PathOf(IexUpdateSymbols)) == None
    ensures Get(Scalars(t), PathOf(IexUpdateSymbols)) == None
  {
    var path := PathOf(IexUpdateSymbols);
    ScalarsAreDistinct();
    forall k | k in SCALARS ensures !(path <= PathOf(k)) { PathsAreIndependent(IexUpdateSymbols, k); }
    WriteBackAllElsewhere(t, SCALARS, path);
    assert Data(Scalars(t), path) == Data(t, path);
  }

  lemma ListReads()
    ensures HoldsValues(SYMBOL_LIST, ["aapl", "fb"])
  {
  }

  /** Where there was no list, the one written is found and reads "aapl", "fb". */
  lemma SymbolsAreWritten(t: Tree)
    requires Initialised(t).Ok? && !HasLiteral(t, IexUpdateSymbols) && Get(t, ["iex_api", "update_symbols"]) == None
    ensures Get(Initialised(t).value, ["iex_api", "update_symbols"]) == Some(SYMBOL_LIST)
    ensures HoldsValues(SYMBOL_LIST, ["aapl", "fb"])
  {
    var path := PathOf(IexUpdateSymbols);
    assert path == ["iex_api", "update_symbols"];
    ScalarsAddNoList(t);
    InitAddsTheList(t);
    GetAfterAddChild(Scalars(t), path, SYMBOL_LIST);
    ListReads();
  }

  // ----- idempotence -----

  /** The key reads as the very text a write-back would write. */
  predicate Settled(t: Tree, k: Key) {
    ValueFor(t, k).Ok? && Data(t, PathOf(k)) == Some(ValueFor(t, k).value)
  }

  lemma SettledKeyIsRewrittenAlike(t: Tree, k: Key)
    requires Storable(t) && Settled(t, k)
    ensures WriteBack(t, k) == Ok(t)
  {
    PutSame(t, PathOf(k), ValueFor(t, k).value);
  }

  lemma {:induction false} SettledKeysAreRewrittenAlike(t: Tree, keys: seq<Key>)
    requires Storable(t) && forall i :: 0 <= i < |keys| ==> Settled(t, keys[i])
    ensures WriteBackAll(t, keys) == Ok(t)
    decreases |keys|
  {
    if keys == [] {
    } else {
      var n := |keys| - 1;
      SettledKeysAreRewrittenAlike(t, keys[..n]);
      SettledKeyIsRewrittenAlike(t, keys[n]);
    }
  }

  lemma TextSettles(t: Tree, k: Key)
    requires k != IexUpdatePriceSecond && Data(t, PathOf(k)).Some?
    ensures Settled(t, k)
  {
  }

  lemma NumberSettles(t: Tree, n: int)
    requires -0x8000_0000 <= n <= 0x7FFF_FFFF && Data(t, PathOf(IexUpdatePriceSecond)) == Some(PrintInt(n))
    ensures Settled(t, IexUpdatePriceSecond)
  {
    ParseOfPrint(n);
  }

  lemma ScalarsSettle(t: Tree, k: Key)
    requires Initialised(t).Ok? && k != IexUpdateSymbols
    ensures Settled(Initialised(t).value, k)
  {
    InitKeepsScalars(t, k);
    if k == IexUpdatePriceSecond {
      NumberSettles(Initialised(t).value, ParseInt(Read(t, PathOf(k), Default(k))).value);
    } else {
      TextSettles(Initialised(t).value, k);
    }
  }

  lemma SecondInitRewritesAlike(t: Tree)
    requires Initialised(t).Ok?
    ensures Storable(Initialised(t).value) && WriteBackAll(Initialised(t).value, SCALARS) == Ok(Initialised(t).value)
  {
    var end := Initialised(t).value;
    ScalarsAreDistinct();
    forall i | 0 <= i < |SCALARS| ensures Settled(end, SCALARS[i]) {
      ScalarsSettle(t, SCALARS[i]);
    }
    SettledKeysAreRewrittenAlike(end, SCALARS);
  }

  /**
    A second Init rewrites every scalar exactly as it is. The whole tree stays as it is exactly
    when the root has a child literally named with the dotted key; otherwise another list is added.
  */
  lemma InitIsIdempotentExactly(t: Tree)
    requires Initialised(t).Ok?
    ensures var end := Initialised(t).value;
      && WriteBackAll(end, SCALARS) == Ok(end)
      && (Initialised(end) == Ok(end) <==> HasLiteral(t, IexUpdateSymbols))
  {
    var end := Initialised(t).value;
    SecondInitRewritesAlike(t);
    assert Initialised(end) == Ok(WithArray(end, IexUpdateSymbols, DEFAULT_SYMBOLS))
        || (Initialised(end) == Err(JsonError) && !HasLiteral(end, IexUpdateSymbols)) by { InitialisedIs(end); }
    InitKeepsLiteral(t);
    if !HasLiteral(t, IexUpdateSymbols) {
      AddChildAppends(end, IEX, Name(IexUpdateSymbols), ArrayNode(DEFAULT_SYMBOLS));
    }
  }

  /** So the worker, reading after Init, is always given the built-in symbols too. */
  lemma WorkerGetsTheDefaults(t: Tree)
    requires Initialised(t).Ok?
    ensures ReadArray(Initialised(t).value, PathOf(IexUpdatePriceSecond), DEFAULT_SYMBOLS) == Ok(DEFAULT_SYMBOLS)
  {
    InitIsIdempotentExactly(t);
    SymbolsAreAlwaysTheDefaults(Initialised(t).value);
  }

  // ----- when initialisation succeeds -----

  /** The root and a section hold no value of their own, or are not there yet. */
  predicate SectionIsFree(t: Tree, section: string) {
    Data(t, [section]) == None || Data(t, [section]) == Some("")
  }

  /** What a caller can check on the file before the call. */
  predicate Fit(t: Tree) {
    && t.data == ""
    && SectionIsFree(t, DAEMON) && SectionIsFree(t, GRPC) && SectionIsFree(t, IEX)
    && ParseInt(Read(t, PathOf(IexUpdatePriceSecond), "3")).Some?
  }

  ghost predicate SectionsFree(t: Tree) {
    t.data == "" && forall k: Key :: SectionIsFree(t, Section(k))
  }

  lemma FreeSectionHasNoData(t: Tree, section: string)
    ensures SectionIsFree(t, section) <==> ChildOr(t, section).data == ""
  {
    GetFirst(t, [section]);
    assert [section][1..] == [];
  }

  lemma GetOfPair(t: Tree, section: string, name: string)
    ensures Get(t, [section, name]) ==
      if Find(t.kids, section) == |t.kids| then None
      else if Find(ChildOr(t, section).kids, name) == |ChildOr(t, section).kids| then None
      else Some(ChildOr(ChildOr(t, section), name))
  {
    GetFirst(t, [section, name]);
    assert [section, name][1..] == [name];
    GetFirst(ChildOr(t, section), [name]);
    assert [name][1..] == [];
  }

  lemma SectionAfterPut(t: Tree, k: Key, value: string, section: string)
    ensures Data(Put(t, PathOf(k), value), [section]) ==
            if section == Section(k) then Some(Read(t, [section], "")) else Data(t, [section])
    ensures Put(t, PathOf(k), value).data == t.data
  {
    assert PathOf(k)[..1] == [Section(k)];
    PutOnTheWay(t, PathOf(k), value, []);
    if section == Section(k) {
      assert [section] < PathOf(k);
      PutOnTheWay(t, PathOf(k), value, [section]);
    } else {
      assert [section][0] != PathOf(k)[0];
      PutElsewhere(t, PathOf(k), value, [section]);
    }
  }

  /** One scalar line goes through on a representable tree with free sections, and keeps it so. */
  lemma WriteBackGoesThrough(t: Tree, k: Key)
    requires JsonOk(t) && SectionsFree(t) && ValueFor(t, k).Ok?
    ensures WriteBack(t, k).Ok? && JsonOk(WriteBack(t, k).value) && SectionsFree(WriteBack(t, k).value)
  {
    var value, next := ValueFor(t, k).value, Put(t, PathOf(k), ValueFor(t, k).value);
    FreeSectionHasNoData(t, Section(k));
    GetOfPair(t, Section(k), Name(k));
    var leaf := ChildOr(ChildOr(t, Section(k)), Name(k));
    ChildIsJsonOk(t, Section(k));
    ChildIsJsonOk(ChildOr(t, Section(k)), Name(k));
    assert leaf.kids == [] || value == "" by {
      if leaf.kids != [] {
        assert leaf.data == "";
        assert Read(t, PathOf(k), Default(k)) == "";
        assert ParseInt("") == None;
      }
    }
    PutIsJsonOk(t, Section(k), Name(k), value);
    SetChildFinds(t, Section(k), Put(ChildOr(t, Section(k)), [Name(k)], value), "");
    assert PathOf(k)[1..] == [Name(k)];
    forall other: Key ensures SectionIsFree(next, Section(other)) {
      SectionAfterPut(t, k, value, Section(other));
    }
  }

  lemma {:induction false} WriteBackAllGoesThrough(t: Tree, keys: seq<Key>)
    requires JsonOk(t) && SectionsFree(t) && Distinct(keys)
    requires forall k :: k in keys ==> ValueFor(t, k).Ok?
    ensures var r := WriteBackAll(t, keys); r.Ok? && JsonOk(r.value) && SectionsFree(r.value)
    decreases |keys|
  {
    if keys == [] {
    } else {
      var n := |keys| - 1;
      LastIsNew(keys);
      WriteBackAllGoesThrough(t, keys[..n]);
      WriteBackAllReads(t, keys[..n], keys[n]);
      assert keys[n] in keys;
      assert ValueFor(WriteBackAll(t, keys[..n]).value, keys[n]) == ValueFor(t, keys[n]);
      WriteBackGoesThrough(WriteBackAll(t, keys[..n]).value, keys[n]);
    }
  }

  /** What the scalar lines leave of the root's and the sections' own values. */
  ghost predicate HasKids(t: Tree, section: string) {
    Get(t, [section]).Some? && Get(t, [section]).value.kids != []
  }

  lemma SectionStaysFull(t: Tree, k: Key, section: string)
    requires WriteBack(t, k).Ok?
    ensures var next := WriteBack(t, k).value;
      && next.data == t.data && Read(next, [section], "") == Read(t, [section], "")
      && (Section(k) == section || HasKids(t, section) ==> HasKids(next, section))
  {
    var value := ValueFor(t, k).value;
    SectionAfterPut(t, k, value, section);
    assert PathOf(k)[..1] == [Section(k)] && PathOf(k)[1..] == [Name(k)];
    if section == Section(k) {
      PutOnTheWay(t, PathOf(k), value, [section]);
    } else {
      SetChildFinds(t, Section(k), Put(ChildOr(t, Section(k)), [Name(k)], value), section);
      GetFirst(t, [section]);
      GetFirst(Put(t, PathOf(k), value), [section]);
      assert [section][1..] == [];
    }
  }

  lemma {:induction false} SectionsAfterAll(t: Tree, keys: seq<Key>, section: string, k: Key)
    requires WriteBackAll(t, keys).Ok?
    ensures var end := WriteBackAll(t, keys).value;
      && end.data == t.data && Read(end, [section], "") == Read(t, [section], "")
      && (k in keys && Section(k) == section ==> HasKids(end, section))
    decreases |keys|
  {
    if keys == [] {
    } else {
      var n := |keys| - 1;
      SectionsAfterAll(t, keys[..n], section, k);
      assert k in keys ==> k in keys[..n] || k == keys[n];
      SectionStaysFull(WriteBackAll(t, keys[..n]).value, keys[n], section);
    }
  }

  lemma FitGoesThrough(t: Tree)
    requires JsonOk(t) && Fit(t)
    ensures WriteBackAll(t, SCALARS).Ok? && JsonOk(WriteBackAll(t, SCALARS).value) && SectionsFree(WriteBackAll(t, SCALARS).value)
  {
    ThreeSections(t);
    ScalarsAreDistinct();
    WriteBackAllGoesThrough(t, SCALARS);
  }

  lemma ArrayIsStorable(t: Tree, values: seq<string>)
    requires JsonOk(t) && SectionsFree(t)
    ensures Storable(WithArray(t, IexUpdateSymbols, values))
  {
    assert SectionIsFree(t, Section(IexUpdateSymbols));
    FreeSectionHasNoData(t, IEX);
    AddChildIsJsonOk(t, IEX, Name(IexUpdateSymbols), ArrayNode(values));
    AddChildAppends(t, IEX, Name(IexUpdateSymbols), ArrayNode(values));
  }

  lemma FitSucceeds(t: Tree)
    requires JsonOk(t) && Fit(t)
    ensures Initialised(t).Ok?
  {
    FitGoesThrough(t);
    InitialisedIs(t);
    ArrayIsStorable(WriteBackAll(t, SCALARS).value, DEFAULT_SYMBOLS);
  }

  lemma SuccessMeansFree(t: Tree, k: Key)
    requires WriteBackAll(t, SCALARS).Ok? && k != IexUpdateSymbols
    ensures t.data == "" && SectionIsFree(t, Section(k))
  {
    ScalarsAreDistinct();
    WriteBackAllIsStorable(t, SCALARS);
    SectionsAfterAll(t, SCALARS, Section(k), k);
    GetIsJsonOk(WriteBackAll(t, SCALARS).value, [Section(k)]);
  }

  lemma SuccessMeansNumber(t: Tree)
    requires WriteBackAll(t, SCALARS).Ok?
    ensures ParseInt(Read(t, PathOf(IexUpdatePriceSecond), "3")).Some?
  {
    ScalarsAreDistinct();
    WriteBackAllReads(t, SCALARS, IexUpdatePriceSecond);
    assert ValueFor(t, IexUpdatePriceSecond).Ok?;
  }

  lemma SuccessMeansThisFree(t: Tree, k: Key)
    requires WriteBackAll(t, SCALARS).Ok?
    ensures t.data == "" && SectionIsFree(t, Section(k))
  {
    if k == IexUpdateSymbols { SuccessMeansFree(t, IexUrl); } else { SuccessMeansFree(t, k); }
  }

  lemma SuccessMeansSectionsFree(t: Tree)
    requires WriteBackAll(t, SCALARS).Ok?
    ensures SectionsFree(t)
  {
    forall k: Key ensures t.data == "" && SectionIsFree(t, Section(k)) { SuccessMeansThisFree(t, k); }
  }

  lemma ThreeSections(t: Tree)
    ensures SectionsFree(t) <==> t.data == "" && SectionIsFree(t, DAEMON) && SectionIsFree(t, GRPC) && SectionIsFree(t, IEX)
  {
    assert Section(LogPath) == DAEMON && Section(Interface) == GRPC && Section(IexUrl) == IEX;
    forall k: Key ensures Section(k) == DAEMON || Section(k) == GRPC || Section(k) == IEX {}
  }

  lemma SuccessMeansFit(t: Tree)
    requires WriteBackAll(t, SCALARS).Ok?
    ensures Fit(t)
  {
    SuccessMeansNumber(t);
    SuccessMeansSectionsFree(t);
    ThreeSections(t);
  }

  /**
    On any tree a JSON file can hold, Init succeeds exactly when the root and the three sections
    hold no value of their own and the time-out, if present, is a 32-bit integer.
  */
  lemma InitSucceedsExactly(t: Tree)
    requires JsonOk(t)
    ensures Initialised(t).Ok? <==> Fit(t)
  {
    if Fit(t) { FitSucceeds(t); }
    if Initialised(t).Ok? { SuccessMeansFit(t); }
  }

  // ----- the settings by name -----

  /** What is missing at the path becomes the value; what is there stays. */
  ghost predicate Defaults(t: Tree, end: Tree, path: Path, value: string) {
    Data(end, path) == match Data(t, path) case None => Some(value) case Some(found) => Some(found)
  }

  lemma KeyDefaults(t: Tree, k: Key, path: Path, value: string)
    requires Initialised(t).Ok? && k != IexUpdateSymbols && k != IexUpdatePriceSecond
    requires PathOf(k) == path && Default(k) == value
    ensures Defaults(t, Initialised(t).value, path, value)
  {
    InitKeepsScalars(t, k);
  }

  lemma DaemonDefaults(t: Tree)
    requires Initialised(t).Ok?
    ensures Defaults(t, Initialised(t).value, ["daemon", "log_path"], "./log.txt")
    ensures Defaults(t, Initialised(t).value, ["daemon", "db_path"], "./peakwork.db")
  {
    KeyDefaults(t, LogPath, ["daemon", "log_path"], "./log.txt");
    KeyDefaults(t, DbPath, ["daemon", "db_path"], "./peakwork.db");
  }

  lemma ServerDefaults(t: Tree)
    requires Initialised(t).Ok?
    ensures Defaults(t, Initialised(t).value, ["grpc_server", "interface"], "0.0.0.0")
    ensures Defaults(t, Initialised(t).value, ["grpc_server", "port"], "50050")
  {
    KeyDefaults(t, Interface, ["grpc_server", "interface"], "0.0.0.0");
    KeyDefaults(t, Port, ["grpc_server", "port"], "50050");
  }

  lemma IexDefaults(t: Tree)
    requires Initialised(t).Ok?
    ensures Defaults(t, Initialised(t).value, ["iex_api", "url"], "https://sandbox.iexapis.com")
    ensures Defaults(t, Initialised(t).value, ["iex_api", "tocken"], "sandbox-tocken")
    ensures Data(t, ["iex_api", "update_price_timeout_sec"]) == None ==>
              Data(Initialised(t).value, ["iex_api", "update_price_timeout_sec"]) == Some("3")
  {
    KeyDefaults(t, IexUrl, ["iex_api", "url"], "https://sandbox.iexapis.com");
    KeyDefaults(t, IexTocken, ["iex_api", "tocken"], "sandbox-tocken");
    assert PathOf(IexUpdatePriceSecond) == ["iex_api", "update_price_timeout_sec"];
    InitKeepsScalars(t, IexUpdatePriceSecond);
  }

  /** Every setting by its own path and value: kept if it is there, and else this. */
  lemma MissingSettingsGetDefaults(t: Tree)
    requires Initialised(t).Ok?
    ensures var end := Initialised(t).value;
      && Defaults(t, end, ["daemon", "log_path"], "./log.txt")
      && Defaults(t, end, ["daemon", "db_path"], "./peakwork.db")
      && Defaults(t, end, ["grpc_server", "interface"], "0.0.0.0")
      && Defaults(t, end, ["grpc_server", "port"], "50050")
      && Defaults(t, end, ["iex_api", "url"], "https://sandbox.iexapis.com")
      && Defaults(t, end, ["iex_api", "tocken"], "sandbox-tocken")
      && (Data(t, ["iex_api", "update_price_timeout_sec"]) == None ==>
            Data(end, ["iex_api", "update_price_timeout_sec"]) == Some("3"))
  {
    DaemonDefaults(t);
    ServerDefaults(t);
    IexDefaults(t);
  }

  lemma EmptyIsFit()
    ensures Fit(EMPTY) && JsonOk(EMPTY)
  {
    EmptyHasNothing([DAEMON]);
    EmptyHasNothing([GRPC]);
    EmptyHasNothing([IEX]);
    EmptyHasNothing(PathOf(IexUpdatePriceSecond));
    ParseOfPrint(3);
    assert PrintInt(3) == "3";
  }

  /** The first start, with no file: Init succeeds and writes exactly these settings. */
  lemma FirstStart()
    ensures Initialised(EMPTY).Ok?
    ensures var end := Initialised(EMPTY).value;
      && Data(end, ["daemon", "log_path"]) == Some("./log.txt") && Data(end, ["daemon", "db_path"]) == Some("./peakwork.db")
      && Data(end, ["grpc_server", "interface"]) == Some("0.0.0.0") && Data(end, ["grpc_server", "port"]) == Some("50050")
      && Data(end, ["iex_api", "url"]) == Some("https://sandbox.iexapis.com")
      && Data(end, ["iex_api", "tocken"]) == Some("sandbox-tocken")
      && Data(end, ["iex_api", "update_price_timeout_sec"]) == Some("3")
      && Get(end, ["iex_api", "update_symbols"]) == Some(SYMBOL_LIST)
  {
    EmptyIsFit();
    InitSucceedsExactly(EMPTY);
    MissingSettingsGetDefaults(EMPTY);
    SymbolsAreWritten(EMPTY);
  }
}
