/**
  The daemon's configuration (Daemon/config/config.h, config.cpp, config_daemon.cpp): a
  write-through tree under a plain mutex, the key table, and the initialisation that reads every
  setting and writes it back.
*/
module Config {
  import opened Common
  import opened PropertyTree

  // ----- integers as text -----

  predicate AllDigits(s: string) {
    forall i :: 0 <= i < |s| ==> '0' <= s[i] <= '9'
  }

  function Number(s: string): nat
    requires AllDigits(s)
  {
    if s == "" then 0 else Number(s[..|s| - 1]) * 10 + (s[|s| - 1] as int - '0' as int)
  }

  function InRange(n: int): Option<int> {
    if -0x8000_0000 <= n <= 0x7FFF_FFFF then Some(n) else None
  }

  /** lexical_cast<int>: an optional sign and digits, within 32 bits; anything else throws. */
  function ParseInt(s: string): Option<int> {
    var signed := s != "" && (s[0] == '-' || s[0] == '+');
    var digits := if signed then s[1..] else s;
    if digits == "" || !AllDigits(digits) then None
    else if signed && s[0] == '-' then InRange(-(Number(digits) as int)) else InRange(Number(digits))
  }

  function PrintInt(n: int): string {
    if n < 0 then "-" + Digits(-n) else Digits(n)
  }

  lemma {:induction false} NumberOfDigits(n: nat)
    ensures Number(Digits(n)) == n
    decreases n
  {
    if n >= 10 {
      NumberOfDigits(n / 10);
      var s := Digits(n / 10) + [DigitChar(n % 10)];
      assert s[..|s| - 1] == Digits(n / 10);
    } else {
      assert [DigitChar(n)][..0] == "";
    }
  }

  lemma ParseOfDigits(digits: string)
    requires digits != "" && AllDigits(digits)
    ensures ParseInt(digits) == InRange(Number(digits))
    ensures ParseInt("-" + digits) == InRange(-(Number(digits) as int))
  {
    assert ("-" + digits)[1..] == digits;
  }

  lemma ParseOfSize(digits: string, size: nat)
    requires digits != "" && AllDigits(digits)
    ensures Number(digits) == size && size <= 0x7FFF_FFFF ==> ParseInt(digits) == Some(size)
  {
    ParseOfDigits(digits);
  }

  lemma ParseOfMinus(digits: string, size: nat)
    requires digits != "" && AllDigits(digits) && Number(digits) == size && size <= 0x8000_0000
    ensures ParseInt("-" + digits) == Some(-(size as int))
  {
    ParseOfDigits(digits);
  }

  lemma ParseOfPrint(n: int)
    requires -0x8000_0000 <= n <= 0x7FFF_FFFF
    ensures ParseInt(PrintInt(n)) == Some(n)
  {
    var size: nat := if n < 0 then -n else n;
    ParseOfSize(Digits(size), size);
    NumberOfDigits(size);
    if n < 0 { ParseOfMinus(Digits(size), size); }
  }

  /** The text is the digits of a number, with or without a sign. */
  predicate Writes(s: string, digits: string, n: int) {
    && digits != "" && AllDigits(digits)
    && (((s == digits || s == "+" + digits) && n == Number(digits)) || (s == "-" + digits && n == -(Number(digits) as int)))
  }

  lemma WrittenIsParsed(s: string, digits: string, n: int)
    requires Writes(s, digits, n) && -0x8000_0000 <= n <= 0x7FFF_FFFF
    ensures ParseInt(s) == Some(n)
  {
    assert ("+" + digits)[1..] == digits && ("-" + digits)[1..] == digits;
  }

  lemma ParsedIsWritten(s: string)
    requires ParseInt(s).Some?
    ensures var n := ParseInt(s).value; -0x8000_0000 <= n <= 0x7FFF_FFFF && exists digits :: Writes(s, digits, n)
  {
    var signed := s[0] == '-' || s[0] == '+';
    assert signed ==> s == [s[0]] + s[1..];
    assert Writes(s, if signed then s[1..] else s, ParseInt(s).value);
  }

  /** A text reads as a number exactly when it writes that number and the number fits 32 bits; else it throws. */
  lemma ParsesExactly(s: string, n: int)
    ensures ParseInt(s) == Some(n) <==> -0x8000_0000 <= n <= 0x7FFF_FFFF && exists digits :: Writes(s, digits, n)
  {
    if ParseInt(s).Some? { ParsedIsWritten(s); }
    if digits :| Writes(s, digits, n) && -0x8000_0000 <= n <= 0x7FFF_FFFF { WrittenIsParsed(s, digits, n); }
  }

  /** The text an integer setting is rewritten to. */
  predicate Canonical(s: string) {
    ParseInt(s).Some? && PrintInt(ParseInt(s).value) == s
  }

  // ----- the key table -----

  datatype Key = LogPath | DbPath | Interface | Port | IexUrl | IexTocken | IexUpdatePriceSecond | IexUpdateSymbols

  datatype Entry = Entry(section: string, key: Key, name: string) {
    predicate Is(section: string, key: Key) {
      this.section == section && this.key == key
    }
  }

  ghost predicate IsFirst(keys: seq<Entry>, i: int, section: string, key: Key) {
    0 <= i < |keys| && keys[i].Is(section, key) && forall j :: 0 <= j < i ==> !keys[j].Is(section, key)
  }

  const DAEMON := "daemon"
  const GRPC := "grpc_server"
  const IEX := "iex_api"

  const TABLE: seq<Entry> := [
    Entry(DAEMON, LogPath, "log_path"),
    Entry(DAEMON, DbPath, "db_path"),
    Entry(GRPC, Interface, "interface"),
    Entry(GRPC, Port, "port"),
    Entry(IEX, IexUrl, "url"),
    Entry(IEX, IexTocken, "tocken"),
    Entry(IEX, IexUpdatePriceSecond, "update_price_timeout_sec"),
    Entry(IEX, IexUpdateSymbols, "update_symbols")
  ]

  function Section(k: Key): string {
    match k
    case LogPath => DAEMON case DbPath => DAEMON
    case Interface => GRPC case Port => GRPC
    case _ => IEX
  }

  function Name(k: Key): string {
    match k
    case LogPath => "log_path" case DbPath => "db_path"
    case Interface => "interface" case Port => "port"
    case IexUrl => "url" case IexTocken => "tocken"
    case IexUpdatePriceSecond => "update_price_timeout_sec" case IexUpdateSymbols => "update_symbols"
  }

  /** Stands for the sandbox token the program carries; no result depends on its text. */
  const SANDBOX_TOCKEN := "sandbox-tocken"

  function Default(k: Key): string {
    match k
    case LogPath => "./log.txt" case DbPath => "./peakwork.db"
    case Interface => "0.0.0.0" case Port => "50050"
    case IexUrl => "https://sandbox.iexapis.com" case IexTocken => SANDBOX_TOCKEN
    case IexUpdatePriceSecond => "3" case IexUpdateSymbols => ""
  }

  const DEFAULT_SYMBOLS := ["aapl", "fb"]

  function PathOf(k: Key): Path { [Section(k), Name(k)] }

  function Dotted(section: string, name: string): string { section + "." + name }

  class KeyManager {
    var keys: seq<Entry>

    constructor (keys: seq<Entry>)
      ensures this.keys == keys
    {
      this.keys := keys;
    }

    /** The dotted path of the first entry for the section and key; none is an invalid_argument. */
    method Lookup(section: string, key: Key) returns (r: Option<string>)
      ensures r.Some? ==> exists i :: IsFirst(keys, i, section, key) && r == Some(Dotted(section, keys[i].name))
      ensures r.None? ==> forall i :: 0 <= i < |keys| ==> !keys[i].Is(section, key)
    {
      for i := 0 to |keys|
        invariant forall j :: 0 <= j < i ==> !keys[j].Is(section, key)
      {
        if keys[i].Is(section, key) {
          assert IsFirst(keys, i, section, key);
          return Some(Dotted(section, keys[i].name));
        }
      }
      r := None;
    }

    method AddKey(entry: Entry)
      modifies this
      ensures keys == if entry in old(keys) then old(keys) else old(keys) + [entry]
    {
      for i := 0 to |keys|
        invariant keys == old(keys) && entry !in keys[..i]
      {
        if keys[i] == entry { return; }
      }
      assert keys[..|keys|] == keys;
      keys := keys + [entry];
    }
  }

  /** The key table has exactly one entry per key, in its section and under its name. */
  lemma TableHoldsEachKeyOnce(k: Key)
    ensures exists i :: IsFirst(TABLE, i, Section(k), k)
    ensures forall i, section :: IsFirst(TABLE, i, section, k) ==> section == Section(k) && TABLE[i].name == Name(k)
  {
    var i := match k case LogPath => 0 case DbPath => 1 case Interface => 2 case Port => 3
             case IexUrl => 4 case IexTocken => 5 case IexUpdatePriceSecond => 6 case IexUpdateSymbols => 7;
    assert IsFirst(TABLE, i, Section(k), k);
  }

  lemma SectionsAreUndotted(k: Key)
    ensures Free(Section(k), '.')
  {
  }

  lemma NamesAreUndotted(k: Key)
    ensures Free(Name(k), '.')
  {
    match k {
      case LogPath => assert Free("log_path", '.');
      case DbPath => assert Free("db_path", '.');
      case Interface => assert Free("interface", '.');
      case Port => assert Free("port", '.');
      case IexUrl => assert Free("url", '.');
      case IexTocken => assert Free("tocken", '.');
      case IexUpdatePriceSecond => assert Free("update_price_timeout_sec", '.');
      case IexUpdateSymbols => assert Free("update_symbols", '.');
    }
  }

  /** A dotted key is the two-part path of its section and name. */
  lemma DottedIsPath(k: Key)
    ensures Parts(Dotted(Section(k), Name(k)), '.') == PathOf(k)
  {
    SectionsAreUndotted(k);
    NamesAreUndotted(k);
    assert Parts("", '.') == [] + [""];
    PartsOfPiece("", '.', [], Section(k));
    assert "" + Section(k) == Section(k) && [] + [Section(k)] == [Section(k)];
    PartsOfSeparator(Section(k), '.');
    PartsOfPiece(Section(k) + ".", '.', [Section(k)], Name(k));
  }

  /** Different keys have different names, so no path is a prefix of another's. */
  lemma PathsAreIndependent(a: Key, b: Key)
    ensures PathOf(a) <= PathOf(b) <==> a == b
    ensures [Section(a)] != PathOf(b) && PathOf(a)[..1] == [Section(a)]
  {
    if PathOf(a) <= PathOf(b) {
      assert PathOf(a)[1] == PathOf(b)[1];
    }
  }

  /** Over any tree, a write through one key never changes what is read through another. */
  lemma WritesAreIndependent(t: Tree, a: Key, b: Key, value: string)
    requires a != b
    ensures Data(Put(t, Parts(Dotted(Section(a), Name(a)), '.'), value), Parts(Dotted(Section(b), Name(b)), '.'))
         == Data(t, Parts(Dotted(Section(b), Name(b)), '.'))
  {
    DottedIsPath(a);
    DottedIsPath(b);
    PathsAreIndependent(b, a);
    PutElsewhere(t, PathOf(a), value, PathOf(b));
  }

  // ----- what initialisation does, as a function of the tree -----

  datatype Error = BadCast | JsonError | Deadlock

  function Read(t: Tree, path: Path, default: string): string {
    match Data(t, path) case Some(data) => data case None => default
  }

  /** The text written back for a scalar key: what is there or the default, integers re-printed. */
  function ValueFor(t: Tree, k: Key): Result<string, Error> {
    var text := Read(t, PathOf(k), Default(k));
    if k != IexUpdatePriceSecond then Ok(text)
    else match ParseInt(text) case Some(n) => Ok(PrintInt(n)) case None => Err(BadCast)
  }

  function WriteBack(t: Tree, k: Key): Result<Tree, Error> {
    match ValueFor(t, k)
    case Err(e) => Err(e)
    case Ok(value) =>
      var next := Put(t, PathOf(k), value);
      if Storable(next) then Ok(next) else Err(JsonError)
  }

  const SCALARS: seq<Key> := [LogPath, DbPath, Interface, Port, IexUrl, IexTocken, IexUpdatePriceSecond]

  function WriteBackAll(t: Tree, keys: seq<Key>): Result<Tree, Error> {
    if keys == [] then Ok(t) else
    match WriteBackAll(t, keys[..|keys| - 1])
    case Err(e) => Err(e)
    case Ok(mid) => WriteBack(mid, keys[|keys| - 1])
  }

  /** get_child and its values; the missing path leads to a write under the mutex already held. */
  function ReadArray(t: Tree, path: Path, default: seq<string>): Result<seq<string>, Error> {
    match Get(t, path)
    case None => Err(Deadlock)
    case Some(node) => Ok(if node.kids == [] then default else Texts(node.kids))
  }

  function Texts(kids: seq<(string, Tree)>): (texts: seq<string>)
    ensures |texts| == |kids|
  {
    seq(|kids|, i requires 0 <= i < |kids| => kids[i].1.data)
  }

  function ArrayNode(values: seq<string>): Tree {
    Node("", seq(|values|, i requires 0 <= i < |values| => ("", Node(values[i], []))))
  }

  /** The guard looks for one root child literally called `section.name`. */
  predicate HasLiteral(t: Tree, k: Key) {
    Find(t.kids, Dotted(Section(k), Name(k))) < |t.kids|
  }

  function WithArray(t: Tree, k: Key, values: seq<string>): Tree {
    if HasLiteral(t, k) then t else AddChild(t, PathOf(k), ArrayNode(values))
  }

  /** An array node holds each value in order, in an unnamed child of its own without children. */
  ghost predicate HoldsValues(node: Tree, values: seq<string>) {
    && node.data == "" && |node.kids| == |values|
    && forall k :: 0 <= k < |values| ==>
         node.kids[k].0 == "" && node.kids[k].1.data == values[k] && node.kids[k].1.kids == []
  }

  /**
    Where neither the path nor the literal child is there, a written list is found under its
    key, value by value, and GetArray of that key answers it, or the default if it was empty.
  */
  lemma WrittenArrayReads(t: Tree, k: Key, values: seq<string>, default: seq<string>)
    requires Get(t, PathOf(k)) == None && !HasLiteral(t, k)
    ensures var next := WithArray(t, k, values);
      && Get(next, PathOf(k)).Some? && HoldsValues(Get(next, PathOf(k)).value, values)
      && ReadArray(next, PathOf(k), default) == Ok(if values == [] then default else values)
  {
    GetAfterAddChild(t, PathOf(k), ArrayNode(values));
    assert Texts(ArrayNode(values).kids) == values;
  }

  function Initialised(t: Tree): Result<Tree, Error> {
    match WriteBackAll(t, SCALARS)
    case Err(e) => Err(e)
    case Ok(mid) =>
      // the symbols are read under the time-out's key
      match ReadArray(mid, PathOf(IexUpdatePriceSecond), DEFAULT_SYMBOLS)
      case Err(e) => Err(e)
      case Ok(symbols) =>
        var next := WithArray(mid, IexUpdateSymbols, symbols);
        if Storable(next) then Ok(next) else Err(JsonError)
  }

  // ----- the objects -----

  lemma {:induction false} FailureStays(t: Tree, keys: seq<Key>, n: nat)
    requires n <= |keys| && WriteBackAll(t, keys[..n]).Err?
    ensures WriteBackAll(t, keys) == WriteBackAll(t, keys[..n])
    decreases |keys|
  {
    if n == |keys| {
      assert keys[..n] == keys;
    } else {
      assert keys[..|keys| - 1][..n] == keys[..n];
      FailureStays(t, keys[..|keys| - 1], n);
    }
  }

  class ConfigFile {
    var root: Tree
    /** What the file holds, once written. */
    var disk: Option<Tree>
    /** The mutex is not recursive: locking it twice hangs. */
    var locked: bool

    constructor (root: Tree)
      ensures this.root == root && disk == None && !locked
    {
      this.root, disk, locked := root, None, false;
    }

    method GetString(key: string, default: string) returns (value: string)
      requires !locked
      modifies this`locked
      ensures !locked && value == Read(root, Parts(key, '.'), default)
    {
      locked := true;
      value := Read(root, Parts(key, '.'), default);
      locked := false;
    }

    method WriteString(key: string, value: string) returns (r: Result<(), Error>)
      requires !locked
      modifies this
      ensures !locked && root == Put(old(root), Parts(key, '.'), value)
      ensures if Storable(root) then r == Ok(()) && disk == Some(root) else r == Err(JsonError) && disk == old(disk)
    {
      locked := true;
      root := Put(root, Parts(key, '.'), value);
      if Storable(root) {
        disk := Some(root);
        r := Ok(());
      } else {
        r := Err(JsonError);
      }
      locked := false;
    }

    method GetInt(key: string, default: string) returns (r: Result<int, Error>)
      requires !locked
      modifies this`locked
      ensures !locked
      ensures r == match ParseInt(Read(root, Parts(key, '.'), default)) { case Some(n) => Ok(n) case None => Err(BadCast) }
    {
      var text := GetString(key, default);
      var parsed := ParseInt(text);
      r := if parsed.Some? then Ok(parsed.value) else Err(BadCast);
    }

    /** Write of a vector; called with the mutex held it would never return. */
    method WriteArray(key: string, values: seq<string>) returns (r: Result<(), Error>)
      requires Parts(key, '.') != []
      modifies this
      ensures old(locked) ==> r == Err(Deadlock) && root == old(root) && disk == old(disk)
      ensures !old(locked) ==>
        && !locked
        && root == (if Find(old(root).kids, key) < |old(root).kids| then old(root)
                    else AddChild(old(root), Parts(key, '.'), ArrayNode(values)))
        && (if Storable(root) then r == Ok(()) && disk == Some(root) else r == Err(JsonError) && disk == old(disk))
    {
      if locked {
        return Err(Deadlock);
      }
      locked := true;
      var child := EMPTY;
      for i := 0 to |values|
        invariant locked && root == old(root) && disk == old(disk)
        invariant child.data == "" && |child.kids| == i
        invariant forall k :: 0 <= k < i ==> child.kids[k] == ("", Node(values[k], []))
      {
        child := child.(kids := child.kids + [("", Node(values[i], []))]);
      }
      assert child.kids == ArrayNode(values).kids;
      if Find(root.kids, key) == |root.kids| {
        root := AddChild(root, Parts(key, '.'), child);
      }
      if Storable(root) {
        disk := Some(root);
        r := Ok(());
      } else {
        r := Err(JsonError);
      }
      locked := false;
    }

    method GetArray(key: string, default: seq<string>) returns (r: Result<seq<string>, Error>)
      requires !locked && Parts(key, '.') != []
      modifies this
      ensures root == old(root) && disk == old(disk)
      ensures r == ReadArray(root, Parts(key, '.'), default)
      ensures r.Ok? ==> !locked
    {
      locked := true;
      var node := Get(root, Parts(key, '.'));
      if node.None? {
        var written := WriteArray(key, default);
        return Err(Deadlock);
      }
      var values: seq<string> := [];
      for i := 0 to |node.value.kids|
        invariant locked && root == old(root) && disk == old(disk)
        invariant |values| == i && forall k :: 0 <= k < i ==> values[k] == node.value.kids[k].1.data
      {
        values := values + [node.value.kids[i].1.data];
      }
      assert values == Texts(node.value.kids);
      r := Ok(if values == [] then default else values);
      locked := false;
    }
  }

  class DaemonConfig {
    const cfg: ConfigFile
    const keys: KeyManager

    constructor (cfg: ConfigFile, keys: KeyManager)
      ensures this.cfg == cfg && this.keys == keys
    {
      this.cfg, this.keys := cfg, keys;
    }

    /** The dotted key of a setting; the daemon's own table never throws. */
    method KeyOf(k: Key) returns (key: string)
      requires keys.keys == TABLE
      ensures key == Dotted(Section(k), Name(k)) && Parts(key, '.') == PathOf(k)
    {
      TableHoldsEachKeyOnce(k);
      DottedIsPath(k);
      var found := keys.Lookup(Section(k), k);
      key := found.value;
    }

    /** One line of Init: a getter's value written back under its own key. */
    method WriteBackScalar(k: Key) returns (r: Result<(), Error>)
      requires !cfg.locked && keys.keys == TABLE
      modifies cfg
      ensures !cfg.locked
      ensures match WriteBack(old(cfg.root), k)
              case Ok(next) => r == Ok(()) && cfg.root == next && cfg.disk == Some(next)
              case Err(e) => r == Err(e) && cfg.disk == old(cfg.disk)
    {
      var key := KeyOf(k);
      if k == IexUpdatePriceSecond {
        var n := cfg.GetInt(key, Default(k));
        if n.Err? {
          return Err(n.error);
        }
        r := cfg.WriteString(key, PrintInt(n.value));
      } else {
        var text := cfg.GetString(key, Default(k));
        r := cfg.WriteString(key, text);
      }
    }

    method GetArray(k: Key, default: seq<string>) returns (r: Result<seq<string>, Error>)
      requires !cfg.locked && keys.keys == TABLE
      modifies cfg
      ensures cfg.root == old(cfg.root) && cfg.disk == old(cfg.disk)
      ensures r == ReadArray(cfg.root, PathOf(k), default) && (r.Ok? ==> !cfg.locked)
    {
      var key := KeyOf(k);
      r := cfg.GetArray(key, default);
    }

    method WriteArray(k: Key, values: seq<string>) returns (r: Result<(), Error>)
      requires !cfg.locked && keys.keys == TABLE
      modifies cfg
      ensures !cfg.locked && cfg.root == WithArray(old(cfg.root), k, values)
      ensures if Storable(cfg.root) then r == Ok(()) && cfg.disk == Some(cfg.root) else r == Err(JsonError)
    {
      var key := KeyOf(k);
      r := cfg.WriteArray(key, values);
    }

    /** The symbols are read under the time-out's key. */
    method GetIEXUpdateSymbols() returns (r: Result<seq<string>, Error>)
      requires !cfg.locked && keys.keys == TABLE
      modifies cfg
      ensures cfg.root == old(cfg.root) && cfg.disk == old(cfg.disk)
      ensures r == ReadArray(cfg.root, PathOf(IexUpdatePriceSecond), DEFAULT_SYMBOLS) && (r.Ok? ==> !cfg.locked)
    {
      r := GetArray(IexUpdatePriceSecond, DEFAULT_SYMBOLS);
    }

    /** The scalar lines of Init, one after the other. */
    method WriteBackScalars(scalars: seq<Key>) returns (r: Result<(), Error>)
      requires !cfg.locked && keys.keys == TABLE
      modifies cfg
      ensures !cfg.locked
      ensures match WriteBackAll(old(cfg.root), scalars)
              case Ok(next) => r == Ok(()) && cfg.root == next && (scalars != [] ==> cfg.disk == Some(next))
              case Err(e) => r == Err(e)
    {
      r := Ok(());
      for n := 0 to |scalars|
        invariant !cfg.locked && r == Ok(())
        invariant WriteBackAll(old(cfg.root), scalars[..n]) == Ok(cfg.root)
        invariant n > 0 ==> cfg.disk == Some(cfg.root)
      {
        assert scalars[..n + 1][..n] == scalars[..n];
        r := WriteBackScalar(scalars[n]);
        if r.Err? {
          FailureStays(old(cfg.root), scalars, n + 1);
          return;
        }
      }
      assert scalars[..|scalars|] == scalars;
    }

    /** Init: on success memory and disk both hold the initialised tree. */
    method Init() returns (r: Result<(), Error>)
      requires !cfg.locked && keys.keys == TABLE
      modifies cfg
      ensures match Initialised(old(cfg.root))
              case Ok(next) => r == Ok(()) && cfg.root == next && cfg.disk == Some(next) && !cfg.locked
              case Err(e) => r == Err(e)
    {
      r := WriteBackScalars(SCALARS);
      if r.Err? {
        return;
      }
      var symbols := GetIEXUpdateSymbols();
      if symbols.Err? {
        return Err(symbols.error);
      }
      r := WriteArray(IexUpdateSymbols, symbols.value);
    }
  }
}
