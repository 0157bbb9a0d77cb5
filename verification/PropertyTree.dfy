/**
  boost::property_tree as the configuration uses it (Daemon/config/config.h, config.cpp): an
  ordered tree whose paths follow the first child of each name.
*/
module PropertyTree {
  import opened Common

  datatype Tree = Node(data: string, kids: seq<(string, Tree)>)

  type Path = seq<string>

  const EMPTY := Node("", [])

  function FindFrom(kids: seq<(string, Tree)>, key: string, from: nat): (i: nat)
    requires from <= |kids|
    ensures from <= i <= |kids| && (i < |kids| ==> kids[i].0 == key)
    ensures forall k :: from <= k < i ==> kids[k].0 != key
    decreases |kids| - from
  {
    if from == |kids| || kids[from].0 == key then from else FindFrom(kids, key, from + 1)
  }

  /** The first child of that name, or the number of children. */
  function Find(kids: seq<(string, Tree)>, key: string): (i: nat)
    ensures i <= |kids| && (i < |kids| ==> kids[i].0 == key)
    ensures forall k :: 0 <= k < i ==> kids[k].0 != key
  {
    FindFrom(kids, key, 0)
  }

  /** get_child: `None` stands for ptree_bad_path. */
  function Get(t: Tree, path: Path): Option<Tree> {
    if path == [] then Some(t) else
    var i := Find(t.kids, path[0]);
    if i == |t.kids| then None else Get(t.kids[i].1, path[1..])
  }

  function Data(t: Tree, path: Path): Option<string> {
    match Get(t, path) case Some(node) => Some(node.data) case None => None
  }

  /** Replace the first child of that name, or append one. */
  function SetChild(t: Tree, key: string, child: Tree): Tree {
    var i := Find(t.kids, key);
    t.(kids := if i == |t.kids| then t.kids + [(key, child)] else t.kids[i := (key, child)])
  }

  function ChildOr(t: Tree, key: string): Tree {
    var i := Find(t.kids, key);
    if i == |t.kids| then EMPTY else t.kids[i].1
  }

  /** put: create what is missing on the way, then set the data. */
  function Put(t: Tree, path: Path, value: string): Tree
    decreases |path|
  {
    if path == [] then t.(data := value)
    else SetChild(t, path[0], Put(ChildOr(t, path[0]), path[1..], value))
  }

  /** add_child: create what is missing on the way, then append a child even if the name is taken. */
  function AddChild(t: Tree, path: Path, child: Tree): Tree
    requires path != []
    decreases |path|
  {
    if |path| == 1 then t.(kids := t.kids + [(path[0], child)])
    else SetChild(t, path[0], AddChild(ChildOr(t, path[0]), path[1..], child))
  }

  /** JSON has no node with both a value and children. */
  predicate JsonOk(t: Tree) {
    (t.data == "" || t.kids == []) && forall i :: 0 <= i < |t.kids| ==> JsonOk(t.kids[i].1)
  }

  /** What write_json accepts at the root. */
  predicate Storable(t: Tree) {
    t.data == "" && JsonOk(t)
  }

  // ----- one step of a path -----

  lemma FindIs(kids: seq<(string, Tree)>, key: string, i: nat)
    requires i <= |kids| && (i < |kids| ==> kids[i].0 == key)
    requires forall k :: 0 <= k < i ==> kids[k].0 != key
    ensures Find(kids, key) == i
  {
  }

  lemma SetChildFinds(t: Tree, key: string, child: Tree, other: string)
    ensures var next := SetChild(t, key, child);
      && next.data == t.data && next.kids != []
      && Find(next.kids, key) < |next.kids| && ChildOr(next, key) == child
      && (other != key ==>
            (Find(next.kids, other) < |next.kids| <==> Find(t.kids, other) < |t.kids|)
            && ChildOr(next, other) == ChildOr(t, other))
  {
    var next, i, j := SetChild(t, key, child), Find(t.kids, key), Find(t.kids, other);
    FindIs(next.kids, key, i);
    if other != key {
      FindIs(next.kids, other, if j < |t.kids| then j else |next.kids|);
    }
  }

  lemma GetFirst(t: Tree, path: Path)
    requires path != []
    ensures Get(t, path) == if Find(t.kids, path[0]) == |t.kids| then None else Get(ChildOr(t, path[0]), path[1..])
  {
  }

  lemma EmptyHasNothing(path: Path)
    requires path != []
    ensures Get(EMPTY, path) == None
  {
  }

  // ----- reads after writes -----

  /** The written path reads back, over the children it had. */
  lemma {:induction false} GetAfterPut(t: Tree, path: Path, value: string)
    ensures Get(Put(t, path, value), path) ==
            Some((match Get(t, path) case Some(node) => node case None => EMPTY).(data := value))
    decreases |path|
  {
    if path == [] {
    } else {
      var key, rest := path[0], path[1..];
      var child := Put(ChildOr(t, key), rest, value);
      SetChildFinds(t, key, child, key);
      GetFirst(Put(t, path, value), path);
      GetAfterPut(ChildOr(t, key), rest, value);
      if Find(t.kids, key) == |t.kids| && rest != [] { EmptyHasNothing(rest); }
    }
  }

  /** A write leaves every read alone except at the prefixes of its path. */
  lemma {:induction false} PutElsewhere(t: Tree, path: Path, value: string, other: Path)
    requires !(other <= path)
    ensures Data(Put(t, path, value), other) == Data(t, other)
    decreases |path|
  {
    if path == [] {
    } else {
      var key, rest := path[0], path[1..];
      var child := Put(ChildOr(t, key), rest, value);
      SetChildFinds(t, key, child, other[0]);
      GetFirst(Put(t, path, value), other);
      GetFirst(t, other);
      if other[0] == key {
        assert !(other[1..] <= rest) by {
          assert other == [key] + other[1..] && path == [key] + rest;
        }
        PutElsewhere(ChildOr(t, key), rest, value, other[1..]);
        if Find(t.kids, key) == |t.kids| { EmptyHasNothing(other[1..]); }
      }
    }
  }

  /** The nodes on the way keep their data, or are made empty. */
  lemma {:induction false} PutOnTheWay(t: Tree, path: Path, value: string, above: Path)
    requires above < path
    ensures Data(Put(t, path, value), above) == Some(match Data(t, above) case Some(data) => data case None => "")
    ensures Get(Put(t, path, value), above).value.kids != []
    decreases |path|
  {
    var key, rest := path[0], path[1..];
    var child := Put(ChildOr(t, key), rest, value);
    SetChildFinds(t, key, child, key);
    if above != [] {
      GetFirst(Put(t, path, value), above);
      GetFirst(t, above);
      PutOnTheWay(ChildOr(t, key), rest, value, above[1..]);
      if Find(t.kids, key) == |t.kids| && above[1..] != [] { EmptyHasNothing(above[1..]); }
    }
  }

  /** Writing what is already there changes nothing at all. */
  lemma {:induction false} PutSame(t: Tree, path: Path, value: string)
    requires Data(t, path) == Some(value)
    ensures Put(t, path, value) == t
    decreases |path|
  {
    if path == [] {
    } else {
      var i := Find(t.kids, path[0]);
      PutSame(t.kids[i].1, path[1..], value);
      assert t.kids[i := (path[0], t.kids[i].1)] == t.kids;
    }
  }

  /** Appending a child leaves reads alone except below the appended name. */
  lemma {:induction false} AddChildElsewhere(t: Tree, path: Path, child: Tree, other: Path)
    requires path != [] && !(other <= path) && !(path <= other)
    ensures Data(AddChild(t, path, child), other) == Data(t, other)
    decreases |path|
  {
    var key, rest, next := path[0], path[1..], AddChild(t, path, child);
    GetFirst(next, other);
    GetFirst(t, other);
    if |path| == 1 {
      var j := Find(t.kids, other[0]);
      assert other[0] != key;
      FindIs(next.kids, other[0], if j < |t.kids| then j else |next.kids|);
    } else {
      SetChildFinds(t, key, AddChild(ChildOr(t, key), rest, child), other[0]);
      if other[0] == key {
        assert other == [key] + other[1..] && path == [key] + rest;
        AddChildElsewhere(ChildOr(t, key), rest, child, other[1..]);
        if Find(t.kids, key) == |t.kids| { EmptyHasNothing(other[1..]); }
      }
    }
  }

  /** Where nothing was found before, the appended child is found. */
  lemma {:induction false} GetAfterAddChild(t: Tree, path: Path, child: Tree)
    requires path != [] && Get(t, path) == None
    ensures Get(AddChild(t, path, child), path) == Some(child)
    decreases |path|
  {
    var key, rest, next := path[0], path[1..], AddChild(t, path, child);
    GetFirst(next, path);
    GetFirst(t, path);
    if |path| == 1 {
      assert rest == [];
      FindIs(next.kids, key, |t.kids|);
    } else {
      SetChildFinds(t, key, AddChild(ChildOr(t, key), rest, child), key);
      if Find(t.kids, key) == |t.kids| { EmptyHasNothing(rest); }
      GetAfterAddChild(ChildOr(t, key), rest, child);
    }
  }

  /** The parent gains exactly one more child, at the end. */
  lemma AddChildAppends(t: Tree, section: string, name: string, child: Tree)
    ensures var next := AddChild(t, [section, name], child);
      && next.data == t.data
      && Get(next, [section]) == Some(ChildOr(t, section).(kids := ChildOr(t, section).kids + [(name, child)]))
      && next != t
  {
    var added := AddChild(ChildOr(t, section), [name], child);
    assert [section, name][1..] == [name];
    SetChildFinds(t, section, added, section);
    var next := AddChild(t, [section, name], child);
    GetFirst(next, [section]);
    assert [section][1..] == [];
    assert |ChildOr(next, section).kids| == |ChildOr(t, section).kids| + 1;
  }

  // ----- what JSON can hold -----

  lemma {:induction false} GetIsJsonOk(t: Tree, path: Path)
    requires JsonOk(t) && Get(t, path).Some?
    ensures JsonOk(Get(t, path).value)
    decreases |path|
  {
    if path == [] {
    } else {
      GetIsJsonOk(t.kids[Find(t.kids, path[0])].1, path[1..]);
    }
  }

  lemma SetChildIsJsonOk(t: Tree, key: string, child: Tree)
    requires JsonOk(t) && t.data == "" && JsonOk(child)
    ensures JsonOk(SetChild(t, key, child))
  {
    var next := SetChild(t, key, child);
    forall i | 0 <= i < |next.kids| ensures JsonOk(next.kids[i].1) {
      if i < |t.kids| && i != Find(t.kids, key) { assert next.kids[i] == t.kids[i]; }
    }
  }

  lemma ChildIsJsonOk(t: Tree, key: string)
    requires JsonOk(t)
    ensures JsonOk(ChildOr(t, key))
  {
  }

  /** A two-part write stays representable if the section has no value and the key no children to clash with. */
  lemma PutIsJsonOk(t: Tree, section: string, name: string, value: string)
    requires JsonOk(t) && t.data == "" && ChildOr(t, section).data == ""
    requires value == "" || ChildOr(ChildOr(t, section), name).kids == []
    ensures JsonOk(Put(t, [section, name], value))
  {
    var inner := ChildOr(t, section);
    var leaf := ChildOr(inner, name);
    assert [section, name][1..] == [name] && [name][1..] == [];
    ChildIsJsonOk(t, section);
    ChildIsJsonOk(inner, name);
    assert JsonOk(leaf.(data := value));
    SetChildIsJsonOk(inner, name, leaf.(data := value));
    assert Put(leaf, [], value) == leaf.(data := value);
    assert Put(inner, [name], value) == SetChild(inner, name, leaf.(data := value));
    SetChildIsJsonOk(t, section, Put(inner, [name], value));
  }

  lemma AddChildIsJsonOk(t: Tree, section: string, name: string, child: Tree)
    requires JsonOk(t) && t.data == "" && ChildOr(t, section).data == "" && JsonOk(child)
    ensures JsonOk(AddChild(t, [section, name], child))
  {
    var inner := ChildOr(t, section);
    assert [section, name][1..] == [name];
    ChildIsJsonOk(t, section);
    var added := inner.(kids := inner.kids + [(name, child)]);
    forall i | 0 <= i < |added.kids| ensures JsonOk(added.kids[i].1) {
      if i < |inner.kids| { assert added.kids[i] == inner.kids[i]; }
    }
    SetChildIsJsonOk(t, section, added);
  }
}
