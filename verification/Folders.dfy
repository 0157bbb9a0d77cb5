/**
  Recursive folder creation (Daemon/common_utils/filesystem.cpp, CreateFolder) over a tree of
  directories and regular files. Paths are resolved component by component: empty components
  and "." stay put, ".." goes to the parent, and everything passed through must be a directory.
*/
module Folders {
  import opened Common

  /** An absolute, resolved path. */
  type Path = seq<string>

  ghost predicate PrefixClosed(dirs: set<Path>) {
    [] in dirs && forall p, name :: p + [name] in dirs ==> p in dirs
  }

  function Walk(at: Path, part: string): Path {
    if part == "" || part == "." then at
    else if part == ".." then (if at == [] then [] else at[..|at| - 1])
    else at + [part]
  }

  /** Where a list of components leads from `at`. */
  function Lead(at: Path, parts: seq<string>): Path {
    if parts == [] then at else Walk(Lead(at, parts[..|parts| - 1]), parts[|parts| - 1])
  }

  /** Every place passed through on the way, both ends included. */
  function Visited(at: Path, parts: seq<string>): set<Path> {
    if parts == [] then {at} else Visited(at, parts[..|parts| - 1]) + {Lead(at, parts)}
  }

  function Start(cwd: Path, s: string): Path {
    if s != "" && s[0] == '/' then [] else cwd
  }

  /** The folders a path text names: each of its component prefixes, resolved. */
  function Named(cwd: Path, s: string): set<Path> {
    Visited(Start(cwd, s), Parts(s, '/'))
  }

  lemma VisitedGrows(at: Path, parts: seq<string>, part: string)
    ensures Lead(at, parts + [part]) == Walk(Lead(at, parts), part)
    ensures Visited(at, parts + [part]) == Visited(at, parts) + {Walk(Lead(at, parts), part)}
  {
    assert (parts + [part])[..|parts|] == parts;
  }

  lemma {:induction false} VisitedHasBothEnds(at: Path, parts: seq<string>)
    ensures at in Visited(at, parts) && Lead(at, parts) in Visited(at, parts)
    decreases |parts|
  {
    if parts == [] {
    } else {
      VisitedHasBothEnds(at, parts[..|parts| - 1]);
    }
  }

  /** One turn of the loop takes the text up to the next slash off the rest. */
  function Extended(created: string, rest: string): string {
    created + rest[..IndexOf(rest, '/')]
  }

  function Left(rest: string): string {
    var pos := IndexOf(rest, '/');
    if pos == |rest| then "" else rest[pos + 1..]
  }

  /**
    The loop's texts after `n` turns: what is built so far spells the first `n` components of
    the argument `dir` and a slash, and the rest is still to come.
  */
  ghost predicate Follows(cwd: Path, at: Path, dir: string, all: seq<string>, created: string, rest: string, n: nat) {
    && n <= |all| && Parts(created, '/') == all[..n] + [""]
    && (if rest == "" then n == |all| || (n == |all| - 1 && all[n] == "") else created + rest == dir)
    && (if created == "" then rest != "" && rest[0] != '/' else Start(cwd, created) == at)
  }

  /** The text is one that leads from `at` through the first `n` components. */
  ghost predicate Spells(cwd: Path, at: Path, all: seq<string>, path: string, n: nat)
    requires n <= |all|
  {
    path != "" && Start(cwd, path) == at && Parts(path, '/') == all[..n]
  }

  lemma TurnTexts(created: string, rest: string, pos: nat)
    requires pos <= |rest|
    ensures pos == |rest| ==> created + rest == created + rest[..pos]
    ensures pos < |rest| && rest[pos] == '/' ==> created + rest == created + rest[..pos] + "/" + rest[pos + 1..]
  {
  }

  lemma ExtendedParts(done: seq<string>, created: string, rest: string)
    requires Parts(created, '/') == done + [""]
    ensures var path, piece := Extended(created, rest), rest[..IndexOf(rest, '/')];
      Parts(path, '/') == done + [piece] && Parts(path + "/", '/') == done + [piece] + [""]
  {
    PartsOfPiece(created, '/', done, rest[..IndexOf(rest, '/')]);
    PartsOfSeparator(Extended(created, rest), '/');
  }

  /** Whether or not the turn takes the last of the text, its path is a prefix of the argument's. */
  lemma ExtendedIsKept(dir: string, created: string, rest: string)
    requires created + rest == dir && rest != ""
    ensures var path, left := Extended(created, rest), Left(rest);
      && Parts(path, '/') <= Parts(dir, '/')
      && (if left == "" then Parts(dir, '/') == Parts(path, '/') || Parts(dir, '/') == Parts(path, '/') + [""]
          else path + "/" + left == dir)
  {
    var pos := IndexOf(rest, '/');
    TurnTexts(created, rest, pos);
    if pos < |rest| { PathIsKept(dir, Extended(created, rest), Left(rest)); }
  }

  lemma PathIsKept(dir: string, path: string, left: string)
    requires dir == path + "/" + left
    ensures Parts(path, '/') <= Parts(dir, '/')
    ensures left == "" ==> Parts(dir, '/') == Parts(path, '/') + [""]
  {
    PartsAreKept(path, '/', left);
    PartsOfSeparator(path, '/');
    assert left == "" ==> dir == path + "/";
  }

  lemma TurnSpells(cwd: Path, dir: string, all: seq<string>, created: string, rest: string, n: nat)
    requires all == Parts(dir, '/') && rest != "" && Follows(cwd, Start(cwd, dir), dir, all, created, rest, n)
    ensures n < |all| && Spells(cwd, Start(cwd, dir), all, Extended(created, rest), n + 1)
  {
    ExtendedParts(all[..n], created, rest);
    ExtendedIsKept(dir, created, rest);
    var path := Extended(created, rest);
    assert |Parts(path, '/')| == n + 1;
    assert Parts(path, '/') == all[..n + 1];
  }

  /** A turn spells one more component, until at most an empty last component is left. */
  lemma FollowsTurn(cwd: Path, dir: string, all: seq<string>, created: string, rest: string, n: nat)
    requires all == Parts(dir, '/') && rest != "" && Follows(cwd, Start(cwd, dir), dir, all, created, rest, n)
    ensures n < |all| && Spells(cwd, Start(cwd, dir), all, Extended(created, rest), n + 1)
    ensures Follows(cwd, Start(cwd, dir), dir, all, Extended(created, rest) + "/", Left(rest), n + 1)
  {
    TurnSpells(cwd, dir, all, created, rest, n);
    PartsOfSeparator(Extended(created, rest), '/');
    ExtendedIsKept(dir, created, rest);
  }

  lemma FollowsFromRoot(cwd: Path, dir: string)
    requires dir != "" && dir[0] == '/'
    ensures |Parts(dir, '/')| >= 1 && Visited([], Parts(dir, '/')[..1]) == {[]}
    ensures Follows(cwd, [], dir, Parts(dir, '/'), "/", dir[1..], 1)
  {
    PartsOfSeparator("", '/');
    assert "" + "/" == "/";
    PartsAreKept("", '/', dir[1..]);
    assert "" + "/" + dir[1..] == dir && "/" + dir[1..] == dir;
    assert Parts(dir, '/')[..1] == [""] == [] + [""];
    VisitedGrows([], [], "");
  }

  lemma FollowsFromHere(cwd: Path, dir: string)
    requires dir != "" && dir[0] != '/'
    ensures Follows(cwd, cwd, dir, Parts(dir, '/'), "", dir, 0) && Visited(cwd, Parts(dir, '/')[..0]) == {cwd}
  {
    assert "" + dir == dir;
  }

  lemma VisitedAll(at: Path, all: seq<string>, n: nat)
    requires n == |all| || (n == |all| - 1 && all[n] == "")
    ensures Visited(at, all[..n]) == Visited(at, all)
  {
    VisitedHasBothEnds(at, all[..n]);
    if n == |all| {
      assert all[..n] == all;
    } else {
      assert all == all[..n] + [""];
      VisitedGrows(at, all[..n], "");
    }
  }

  /** A component that leads out of the tree is an ordinary name under a folder that exists. */
  lemma MissingStepIsOrdinary(dirs: set<Path>, at: Path, done: seq<string>, piece: string)
    requires PrefixClosed(dirs) && Visited(at, done) <= dirs && !(Visited(at, done + [piece]) <= dirs)
    ensures var next := Lead(at, done + [piece]);
      && Ordinary(piece) && next == Lead(at, done) + [piece] && next !in dirs
      && PrefixClosed(dirs + {next})
      && Visited(at, done + [piece]) == Visited(at, done) + {next}
  {
    VisitedGrows(at, done, piece);
    VisitedHasBothEnds(at, done);
    var here, next := Lead(at, done), Lead(at, done + [piece]);
    assert here != [] ==> here == here[..|here| - 1] + [here[|here| - 1]];
    forall p, name | p + [name] in dirs + {next} ensures p in dirs + {next} {
      if p + [name] == here + [piece] {
        assert p == (p + [name])[..|p|] == (here + [piece])[..|here|] == here;
      }
    }
  }

  predicate Ordinary(part: string) {
    part != "" && part != "." && part != ".."
  }

  /** Without dots and doubled slashes, the folders named are the plain prefixes of the path. */
  lemma {:induction false} OrdinaryPartsAreNamedPlainly(at: Path, parts: seq<string>)
    requires forall i :: 0 <= i < |parts| ==> Ordinary(parts[i])
    ensures Lead(at, parts) == at + parts
    ensures forall p :: p in Visited(at, parts) <==> exists i :: 0 <= i <= |parts| && p == at + parts[..i]
    decreases |parts|
  {
    if parts == [] {
      assert at + parts[..0] == at;
    } else {
      var n := |parts| - 1;
      OrdinaryPartsAreNamedPlainly(at, parts[..n]);
      assert at + parts == at + parts[..n] + [parts[n]];
      forall p ensures p in Visited(at, parts) <==> exists i :: 0 <= i <= |parts| && p == at + parts[..i] {
        if p in Visited(at, parts[..n]) {
          var i :| 0 <= i <= n && p == at + parts[..n][..i];
          assert parts[..n][..i] == parts[..i];
        } else if p == Lead(at, parts) {
          assert parts[..|parts|] == parts;
        }
        if i :| 0 <= i <= n && p == at + parts[..i] {
          assert parts[..n][..i] == parts[..i];
        } else if p == at + parts[..|parts|] {
          assert parts[..|parts|] == parts;
        }
      }
    }
  }

  /** Empty components and "." lead nowhere; a name and ".." lead back; above the root is the root. */
  lemma DotsLead(at: Path, parts: seq<string>, name: string)
    ensures Lead(at, parts + [""]) == Lead(at, parts) == Lead(at, parts + ["."])
    ensures Ordinary(name) ==> Lead(at, parts + [name] + [".."]) == Lead(at, parts)
    ensures Lead(at, parts) == [] ==> Lead(at, parts + [".."]) == []
  {
    VisitedGrows(at, parts, "");
    VisitedGrows(at, parts, ".");
    VisitedGrows(at, parts, "..");
    VisitedGrows(at, parts, name);
    VisitedGrows(at, parts + [name], "..");
  }

  lemma AbsoluteParts(dir: string)
    requires dir != "" && dir[0] == '/'
    ensures Parts(dir, '/')[0] == "" && |Parts(dir, '/')| >= 2
  {
    PartsAreKept("", '/', dir[1..]);
    assert "" + ['/'] + dir[1..] == dir;
  }

  lemma {:induction false} LeadingEmpty(rest: seq<string>)
    ensures Lead([], [""] + rest) == Lead([], rest) && Visited([], [""] + rest) == Visited([], rest)
    decreases |rest|
  {
    if rest == [] {
      assert [""] + rest == [""];
      assert [""][..0] == [];
    } else {
      var n := |rest| - 1;
      assert ([""] + rest)[..n + 1] == [""] + rest[..n];
      LeadingEmpty(rest[..n]);
    }
  }

  lemma RootPathNames(parts: seq<string>, p: Path)
    requires |parts| >= 1 && parts[0] == "" && forall i :: 1 <= i < |parts| ==> Ordinary(parts[i])
    ensures p in Visited([], parts) <==> exists i :: 1 <= i <= |parts| && p == parts[1..i]
  {
    var rest := parts[1..];
    assert parts == [""] + rest;
    LeadingEmpty(rest);
    OrdinaryPartsAreNamedPlainly([], rest);
    if i :| 0 <= i <= |rest| && p == [] + rest[..i] { assert p == parts[1..i + 1]; }
    if i :| 1 <= i <= |parts| && p == parts[1..i] { assert p == [] + rest[..i - 1]; }
  }

  /** The folders a relative path of ordinary parts names are those below the current folder. */
  lemma RelativePathNames(cwd: Path, dir: string, p: Path)
    requires dir != "" && dir[0] != '/' && forall i :: 0 <= i < |Parts(dir, '/')| ==> Ordinary(Parts(dir, '/')[i])
    ensures p in Named(cwd, dir) <==> exists i :: 0 <= i <= |Parts(dir, '/')| && p == cwd + Parts(dir, '/')[..i]
  {
    assert Named(cwd, dir) == Visited(cwd, Parts(dir, '/'));
    OrdinaryPartsAreNamedPlainly(cwd, Parts(dir, '/'));
  }

  /** Those of an absolute one are below the root, whatever the current folder is. */
  lemma AbsolutePathNames(cwd: Path, dir: string, p: Path)
    requires dir != "" && dir[0] == '/' && forall i :: 1 <= i < |Parts(dir, '/')| ==> Ordinary(Parts(dir, '/')[i])
    ensures p in Named(cwd, dir) <==> exists i :: 1 <= i <= |Parts(dir, '/')| && p == Parts(dir, '/')[1..i]
  {
    AbsoluteParts(dir);
    assert Named(cwd, dir) == Visited([], Parts(dir, '/'));
    RootPathNames(Parts(dir, '/'), p);
  }

  // ----- directories and files -----

  ghost predicate IsTree(dirs: set<Path>, files: set<Path>) {
    PrefixClosed(dirs) && dirs !! files && forall p, name :: p + [name] in files ==> p in dirs
  }

  /** The path passes through directories only and ends at something. */
  predicate Found(dirs: set<Path>, files: set<Path>, at: Path, parts: seq<string>)
    requires parts != []
  {
    Visited(at, parts[..|parts| - 1]) <= dirs && Lead(at, parts) in dirs + files
  }

  /** How many components have folders after `n` turns. */
  function Made(n: nat, blocked: bool): nat {
    if blocked && n > 0 then n - 1 else n
  }

  /**
    After `n` components everything visited exists or has been made; `blocked` says that the
    last one is a regular file instead.
  */
  ghost predicate Progress(dirs: set<Path>, files: set<Path>, before: set<Path>, at: Path, all: seq<string>, n: nat, blocked: bool) {
    && n <= |all|
    && dirs == before + Visited(at, all[..Made(n, blocked)])
    && (blocked ==> n > 0 && Lead(at, all[..n]) in files)
  }

  lemma LastOfNext(at: Path, all: seq<string>, n: nat)
    requires n < |all|
    ensures all[..n + 1] == all[..n] + [all[n]] && all[..n + 1][..n] == all[..n]
    ensures Visited(at, all[..n + 1]) == Visited(at, all[..n]) + {Lead(at, all[..n + 1])}
    ensures Lead(at, all[..n]) in Visited(at, all[..n])
  {
    VisitedGrows(at, all[..n], all[n]);
    VisitedHasBothEnds(at, all[..n]);
  }

  /** Behind a regular file nothing is found and nothing can be made. */
  lemma BlockedIsNotPassable(dirs: set<Path>, files: set<Path>, before: set<Path>, at: Path, all: seq<string>, n: nat)
    requires IsTree(dirs, files) && Progress(dirs, files, before, at, all, n, true)
    ensures !(Visited(at, all[..n]) <= dirs)
  {
    VisitedHasBothEnds(at, all[..n]);
  }

  lemma FoundStep(dirs: set<Path>, files: set<Path>, before: set<Path>, at: Path, all: seq<string>, n: nat, blocked: bool)
    requires IsTree(dirs, files) && Progress(dirs, files, before, at, all, n, blocked)
    requires n < |all| && Found(dirs, files, at, all[..n + 1])
    ensures Progress(dirs, files, before, at, all, n + 1, Lead(at, all[..n + 1]) in files)
  {
    LastOfNext(at, all, n);
    if blocked { BlockedIsNotPassable(dirs, files, before, at, all, n); }
  }

  lemma MadeStep(dirs: set<Path>, files: set<Path>, before: set<Path>, at: Path, all: seq<string>, n: nat, blocked: bool)
    requires IsTree(dirs, files) && Progress(dirs, files, before, at, all, n, blocked) && n < |all|
    requires Visited(at, all[..n]) <= dirs && Lead(at, all[..n + 1]) !in dirs + files
    ensures var now := dirs + {Lead(at, all[..n + 1])};
            IsTree(now, files) && Progress(now, files, before, at, all, n + 1, false)
  {
    LastOfNext(at, all, n);
    if blocked { BlockedIsNotPassable(dirs, files, before, at, all, n); }
    MissingStepIsOrdinary(dirs, at, all[..n], all[n]);
  }

  /** At the end of the argument exactly the folders it names are there, short of a file it ends at. */
  lemma ProgressAtTheEnd(dirs: set<Path>, files: set<Path>, before: set<Path>, at: Path, all: seq<string>, n: nat, blocked: bool)
    requires IsTree(dirs, files) && Progress(dirs, files, before, at, all, n, blocked)
    requires n == |all| || (n == |all| - 1 && all[n] == "")
    ensures dirs == before + (Visited(at, all) - files)
  {
    VisitedAll(at, all, n);
    if blocked { LastOfNext(at, all, n - 1); }
  }

  lemma FoundNamesNothingNew(dirs: set<Path>, files: set<Path>, at: Path, all: seq<string>)
    requires all != [] && Found(dirs, files, at, all)
    ensures Visited(at, all) - files <= dirs && at in Visited(at, all[..0]) && Visited(at, all[..0]) <= Visited(at, all)
    ensures at in dirs
  {
    VisitedHasBothEnds(at, all[..|all| - 1]);
    assert Visited(at, all) == Visited(at, all[..|all| - 1]) + {Lead(at, all)};
  }

  lemma {:induction false} VisitedOfPrefix(at: Path, all: seq<string>, n: nat)
    requires n <= |all|
    ensures Visited(at, all[..n]) <= Visited(at, all)
    decreases |all|
  {
    if n == |all| {
      assert all[..n] == all;
    } else {
      assert all[..|all| - 1][..n] == all[..n];
      VisitedOfPrefix(at, all[..|all| - 1], n);
    }
  }

  lemma GainIsNamed(dirs: set<Path>, files: set<Path>, before: set<Path>, at: Path, all: seq<string>, n: nat, blocked: bool)
    requires IsTree(dirs, files) && Progress(dirs, files, before, at, all, n, blocked)
    ensures var reached := Made(n, blocked);
      && reached <= |all| && dirs == before + Visited(at, all[..reached])
      && Visited(at, all[..reached]) <= Visited(at, all) - files
  {
    VisitedOfPrefix(at, all, Made(n, blocked));
  }

  class FileTree {
    var dirs: set<Path>
    const files: set<Path>
    const cwd: Path

    ghost predicate Valid()
      reads this
    {
      IsTree(dirs, files) && cwd in dirs
    }

    constructor (dirs: set<Path>, files: set<Path>, cwd: Path)
      requires IsTree(dirs, files) && cwd in dirs
      ensures Valid() && this.dirs == dirs && this.files == files && this.cwd == cwd
    {
      this.dirs, this.files, this.cwd := dirs, files, cwd;
    }

    method Stat(path: string) returns (found: bool)
      ensures found <==> path != "" && Found(dirs, files, Start(cwd, path), Parts(path, '/'))
    {
      found := path != "" && Found(dirs, files, Start(cwd, path), Parts(path, '/'));
    }

    /** mkdir may fail for reasons of its own; it needs directories all the way and a free name. */
    method Mkdir(path: string) returns (ok: bool)
      requires path != ""
      modifies this
      ensures var at, parts := Start(cwd, path), Parts(path, '/');
              dirs == if ok then old(dirs) + {Lead(at, parts)} else old(dirs)
      ensures ok ==> var at, parts := Start(cwd, path), Parts(path, '/');
                     Visited(at, parts[..|parts| - 1]) <= old(dirs) && Lead(at, parts) !in old(dirs) + files
    {
      var at, parts := Start(cwd, path), Parts(path, '/');
      ok := *;
      ok := ok && Visited(at, parts[..|parts| - 1]) <= dirs && Lead(at, parts) !in dirs + files;
      if ok {
        dirs := dirs + {Lead(at, parts)};
      }
    }

    /** Make sure the folder created so far exists: the stat and mkdir of one turn of the loop. */
    method Enter(createdDir: string, ghost before: set<Path>, ghost at: Path, ghost all: seq<string>, ghost n: nat, ghost blocked: bool)
      returns (ok: bool, ghost stopped: bool)
      requires Valid() && n < |all| && Spells(cwd, at, all, createdDir, n + 1)
      requires Progress(dirs, files, before, at, all, n, blocked)
      modifies this
      ensures Valid()
      ensures if ok then Progress(dirs, files, before, at, all, n + 1, stopped) else dirs == old(dirs)
    {
      assert all[..n + 1][..n] == all[..n];
      var found := Stat(createdDir);
      ok, stopped := true, Lead(at, all[..n + 1]) in files;
      if found {
        FoundStep(dirs, files, before, at, all, n, blocked);
      } else {
        ghost var was := dirs;
        ok := Mkdir(createdDir);
        if ok { MadeStep(was, files, before, at, all, n, blocked); }
      }
    }

    /** One turn of the loop: the next component moves over, and its folder is entered. */
    method Turn(created: string, rest: string, ghost before: set<Path>, ghost dir: string, ghost at: Path, ghost all: seq<string>, ghost n: nat, ghost blocked: bool)
      returns (ok: bool, createdDir: string, nextPart: string, ghost stopped: bool)
      requires Valid() && at == Start(cwd, dir) && all == Parts(dir, '/')
      requires rest != "" && Follows(cwd, at, dir, all, created, rest, n)
      requires Progress(dirs, files, before, at, all, n, blocked)
      modifies this
      ensures Valid() && |nextPart| < |rest|
      ensures if ok then Follows(cwd, at, dir, all, createdDir, nextPart, n + 1) && Progress(dirs, files, before, at, all, n + 1, stopped)
              else dirs == old(dirs)
    {
      FollowsTurn(cwd, dir, all, created, rest, n);
      createdDir, nextPart := Extended(created, rest), Left(rest);
      ok, stopped := Enter(createdDir, before, at, all, n, blocked);
      createdDir := createdDir + "/";
    }

    /** The loop of CreateFolder, `n` components on; false is the early return on a failed mkdir. */
    method CreateParts(created: string, rest: string, ghost dir: string, ghost at: Path, ghost all: seq<string>, ghost n: nat)
      returns (completed: bool, ghost turns: nat, ghost blocked: bool)
      requires Valid() && at == Start(cwd, dir) && all == Parts(dir, '/')
      requires Follows(cwd, at, dir, all, created, rest, n)
      requires Progress(dirs, files, dirs, at, all, n, false)
      modifies this
      ensures Valid() && Progress(dirs, files, old(dirs), at, all, turns, blocked)
      ensures completed ==> turns == |all| || (turns == |all| - 1 && all[turns] == "")
    {
      var createdDir, nextPart := created, rest;
      turns, blocked := n, false;
      while nextPart != ""
        invariant Valid() && Progress(dirs, files, old(dirs), at, all, turns, blocked)
        invariant Follows(cwd, at, dir, all, createdDir, nextPart, turns)
        decreases |nextPart|
      {
        ghost var stopped;
        completed, createdDir, nextPart, stopped := Turn(createdDir, nextPart, old(dirs), dir, at, all, turns, blocked);
        if !completed {
          return;
        }
        turns, blocked := turns + 1, stopped;
      }
      completed := true;
    }

    /**
      The tree stays a tree and gains only folders the path names, in order as far as `reached`;
      a completed call has gained all of them, except that the path may end at a regular file;
      and a call with nothing to gain completes and changes nothing.
    */
    method CreateFolder(dir: string) returns (completed: bool, ghost reached: nat)
      requires Valid()
      modifies this
      ensures Valid() && reached <= |Parts(dir, '/')|
      ensures dirs == old(dirs) + Visited(Start(cwd, dir), Parts(dir, '/')[..reached])
      ensures completed && dir != "" ==> dirs == old(dirs) + (Named(cwd, dir) - files)
      ensures dir == "" || Found(old(dirs), files, Start(cwd, dir), Parts(dir, '/')) ==> completed && dirs == old(dirs)
      ensures Named(cwd, dir) - files <= old(dirs) ==> dirs == old(dirs)
    {
      ghost var at, all := Start(cwd, dir), Parts(dir, '/');
      var found := Stat(dir);
      if dir == "" || found {
        if dir != "" { FoundNamesNothingNew(dirs, files, at, all); }
        return true, 0;
      }
      ghost var turns, blocked;
      if dir[0] == '/' {
        FollowsFromRoot(cwd, dir);
        completed, turns, blocked := CreateParts("/", dir[1..], dir, at, all, 1);
      } else {
        FollowsFromHere(cwd, dir);
        completed, turns, blocked := CreateParts("", dir, dir, at, all, 0);
      }
      reached := Made(turns, blocked);
      GainIsNamed(dirs, files, old(dirs), at, all, turns, blocked);
      if completed { ProgressAtTheEnd(dirs, files, old(dirs), at, all, turns, blocked); }
    }
  }

  // ----- file names -----

  function LastSlashBefore(s: string, end: nat): (i: int)
    requires end <= |s|
    ensures -1 <= i < end && (forall k :: i < k < end ==> s[k] != '/') && (i >= 0 ==> s[i] == '/')
  {
    if end == 0 then -1 else if s[end - 1] == '/' then end - 1 else LastSlashBefore(s, end - 1)
  }

  function LastSlash(s: string): (i: int)
    ensures -1 <= i < |s| && Free(s[i + 1..], '/') && (i >= 0 ==> s[i] == '/')
  {
    LastSlashBefore(s, |s|)
  }

  function GetFileName(fullPath: string): (name: string)
    ensures Free(name, '/') && |name| <= |fullPath| && name == fullPath[|fullPath| - |name|..]
    ensures name == fullPath || fullPath[|fullPath| - |name| - 1] == '/'
  {
    fullPath[LastSlash(fullPath) + 1..]
  }

  lemma CutRejoins(s: string, i: nat)
    requires i < |s| && s[i] == '/'
    ensures s[..i] + "/" + s[i + 1..] == s
  {
  }

  function GetDirectory(fullPath: string): (directory: string)
    ensures if !Free(fullPath, '/') then directory + "/" + GetFileName(fullPath) == fullPath
            else directory == "./" && GetFileName(fullPath) == fullPath
  {
    var i := LastSlash(fullPath);
    assert i < 0 ==> fullPath[i + 1..] == fullPath;
    if i >= 0 then CutRejoins(fullPath, i); fullPath[..i] else "./"
  }
}
