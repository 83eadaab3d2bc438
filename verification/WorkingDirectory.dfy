/**
Directory trees and the working directory: `search_file`, `get_parent_dir_inode_nr`,
`get_child_dir_name`, `sys_getcwd`, `sys_chdir` (fs/fs.c) and the shell's `cd`
(shell/buildin_cmd.c, shell/shell.c).  A directory is the sequence of its live entries
in the order in which the disk walks meet them.
*/
module WorkingDirectory {
  import opened Options
  import opened Paths

  datatype Kind = Regular | Directory

  datatype Entry = Entry(name: string, ino: nat, kind: Kind)

  type Tree = map<nat, seq<Entry>>

  /** How deep a directory lies, and which entry of its parent it is. */
  datatype Place = Place(depth: nat, slot: nat)

  /** The inode number in "..", the second entry. */
  function Parent(t: Tree, d: nat): nat
    requires d in t && |t[d]| >= 2
  {
    t[d][1].ino
  }

  /** Every directory starts with "." and "..". */
  predicate Dotted(t: Tree) {
    forall d {:trigger t[d]} :: d in t ==>
      |t[d]| >= 2 && t[d][0] == Entry(".", d, Directory)
      && t[d][1].name == ".." && t[d][1].kind.Directory? && t[d][1].ino in t
  }

  /** Entry `i` of its parent is the directory `c`. */
  predicate IsChild(t: Tree, c: nat, i: int)
    requires c in t && Dotted(t)
  {
    var p := Parent(t, c);
    2 <= i < |t[p]| && t[p][i].ino == c && t[p][i].kind.Directory?
  }

  /** An entry behind the dots: a plain name, and a subdirectory points back and lies one level deeper. */
  predicate EntryOk(t: Tree, place: map<nat, Place>, d: nat, e: Entry)
    requires Dotted(t) && place.Keys == t.Keys && d in t
  {
    && Plain(e.name) && e.ino != 0
    && (e.kind.Directory? ==> e.ino in t && Parent(t, e.ino) == d && place[e.ino].depth == place[d].depth + 1)
  }

  /** No name and no inode number occurs twice in a directory, its entries are sound, and
      unless it is the root it is an entry of its parent. */
  ghost predicate DirOk(t: Tree, place: map<nat, Place>, d: nat)
    requires Dotted(t) && place.Keys == t.Keys && d in t
  {
    && (forall i, j :: 0 <= i < j < |t[d]| ==> t[d][i].name != t[d][j].name)
    && (forall i, j :: 2 <= i < j < |t[d]| ==> t[d][i].ino != t[d][j].ino)
    && (forall i :: 2 <= i < |t[d]| ==> EntryOk(t, place, d, t[d][i]))
    && (d != 0 ==> IsChild(t, d, place[d].slot))
  }

  /** A well-formed directory tree with root 0. */
  ghost predicate WellFormed(t: Tree, place: map<nat, Place>) {
    && 0 in t && Dotted(t) && place.Keys == t.Keys && place[0].depth == 0 && Parent(t, 0) == 0
    && (forall d {:trigger DirOk(t, place, d)} :: d in t ==> DirOk(t, place, d))
  }

  /** The tree of a formatted partition is well formed. */
  lemma RootTree()
    ensures WellFormed(map[0 := [Entry(".", 0, Directory), Entry("..", 0, Directory)]], map[0 := Place(0, 0)])
  {
    var t: Tree := map[0 := [Entry(".", 0, Directory), Entry("..", 0, Directory)]];
    assert DirOk(t, map[0 := Place(0, 0)], 0);
  }

  /** search_dir_entry: the first entry of that name. */
  function Lookup(es: seq<Entry>, name: string): (r: Option<Entry>)
    ensures r.Some? ==> r.value in es && r.value.name == name
    ensures r.None? ==> forall i :: 0 <= i < |es| ==> es[i].name != name
  {
    if es == [] then None else if es[0].name == name then Some(es[0]) else Lookup(es[1..], name)
  }

  /** Follow names from directory `d`; a regular file ends the walk. */
  function Walk(t: Tree, d: nat, names: seq<string>): (r: Option<(nat, Kind)>)
    decreases |names|
  {
    if names == [] then Some((d, Directory))
    else if d !in t then None
    else
      match Lookup(t[d], names[0])
      case None => None
      case Some(e) => if e.kind.Regular? then Some((e.ino, Regular)) else Walk(t, e.ino, names[1..])
  }

  lemma DepthOfParent(t: Tree, place: map<nat, Place>, p: nat)
    requires WellFormed(t, place) && p in t
    ensures place[Parent(t, p)].depth <= place[p].depth
  {
    if p != 0 {
      assert DirOk(t, place, p);
      var i := place[p].slot;
      assert DirOk(t, place, Parent(t, p));
      assert EntryOk(t, place, Parent(t, p), t[Parent(t, p)][i]);
    }
  }

  /** Neither "." nor ".." of the parent, nor any other entry, has the child's inode number. */
  lemma OnlyChild(t: Tree, place: map<nat, Place>, c: nat, i: nat)
    requires WellFormed(t, place) && c in t && c != 0 && IsChild(t, c, i)
    ensures place[c].depth == place[Parent(t, c)].depth + 1
    ensures forall j :: 0 <= j < |t[Parent(t, c)]| && t[Parent(t, c)][j].ino == c ==> j == i
  {
    assert DirOk(t, place, Parent(t, c));
    assert EntryOk(t, place, Parent(t, c), t[Parent(t, c)][i]);
    DepthOfParent(t, place, Parent(t, c));
  }

  /** The first entry with inode number `c`, as get_child_dir_name finds it. */
  function NameOf(es: seq<Entry>, c: nat): (r: Option<string>)
  {
    if es == [] then None else if es[0].ino == c then Some(es[0].name) else NameOf(es[1..], c)
  }

  lemma {:induction false} NameOfIs(es: seq<Entry>, c: nat, i: nat)
    requires i < |es| && es[i].ino == c && forall j :: 0 <= j < i ==> es[j].ino != c
    ensures NameOf(es, c) == Some(es[i].name)
  {
    if i > 0 { NameOfIs(es[1..], c, i - 1); }
  }

  /** The name under which its parent lists directory `c`: what get_child_dir_name finds. */
  ghost function ChildName(t: Tree, place: map<nat, Place>, c: nat): (n: string)
    requires WellFormed(t, place) && c in t && c != 0
    ensures Plain(n) && NameOf(t[Parent(t, c)], c) == Some(n) && place[Parent(t, c)].depth < place[c].depth
    ensures Lookup(t[Parent(t, c)], n) == Some(Entry(n, c, Directory))
  {
    var p, i := Parent(t, c), place[c].slot;
    assert DirOk(t, place, c);
    OnlyChild(t, place, c, i);
    assert DirOk(t, place, p);
    assert EntryOk(t, place, p, t[p][i]);
    NameOfIs(t[p], c, i);
    LookupIs(t[p], i);
    t[p][i].name
  }

  lemma {:induction false} LookupIs(es: seq<Entry>, i: nat)
    requires i < |es| && forall j :: 0 <= j < i ==> es[j].name != es[i].name
    ensures Lookup(es, es[i].name) == Some(es[i])
  {
    if i > 0 { LookupIs(es[1..], i - 1); }
  }

  /** The names from the root down to directory `c`. */
  ghost function NamesTo(t: Tree, place: map<nat, Place>, c: nat): (r: seq<string>)
    requires WellFormed(t, place) && c in t
    decreases place[c].depth
  {
    if c == 0 then []
    else
      var n := ChildName(t, place, c);
      NamesTo(t, place, Parent(t, c)) + [n]
  }

  lemma {:induction false} NamesToPlain(t: Tree, place: map<nat, Place>, c: nat)
    requires WellFormed(t, place) && c in t
    ensures AllPlain(NamesTo(t, place, c))
    decreases place[c].depth
  {
    if c != 0 {
      var n := ChildName(t, place, c);
      NamesToPlain(t, place, Parent(t, c));
    }
  }

  // ------------------------------------------------------------ sys_getcwd

  /** get_parent_dir_inode_nr */
  method GetParentDirInodeNr(t: Tree, c: nat) returns (p: nat)
    requires c in t && Dotted(t)
    ensures p == Parent(t, c) && p in t
  {
    assert t[c][1].kind.Directory?;
    p := t[c][1].ino;
  }

  /** get_child_dir_name: the name to append, or failure. */
  method GetChildDirName(t: Tree, p: nat, c: nat) returns (name: Option<string>)
    requires p in t
    ensures name == NameOf(t[p], c)
  {
    var i := 0;
    assert t[p][0..] == t[p];
    while i < |t[p]|
      invariant i <= |t[p]| && NameOf(t[p][i..], c) == NameOf(t[p], c)
    {
      if t[p][i].ino == c {
        return Some(t[p][i].name);
      }
      assert t[p][i..][1..] == t[p][i + 1..];
      i := i + 1;
    }
    return None;
  }

  function Rev(xs: seq<string>): (r: seq<string>)
    ensures |r| == |xs|
  {
    if xs == [] then [] else [xs[|xs| - 1]] + Rev(xs[..|xs| - 1])
  }

  lemma RevSnoc(xs: seq<string>, x: string)
    ensures Rev(xs + [x]) == [x] + Rev(xs) && Slashed(xs + [x]) == Slashed(xs) + "/" + x
  {
    assert (xs + [x])[..|xs|] == xs;
  }

  lemma {:induction false} RevPlain(xs: seq<string>)
    requires AllPlain(Rev(xs))
    ensures AllPlain(xs)
  {
    if xs != [] {
      var low, top := xs[..|xs| - 1], xs[|xs| - 1];
      assert Rev(xs)[0] == top && Rev(xs)[1..] == Rev(low);
      assert forall i :: 0 <= i < |Rev(low)| ==> Rev(low)[i] == Rev(xs)[i + 1];
      RevPlain(low);
    }
  }

  /** One round of the climb: the parent, and the name by which it lists the child. */
  method ClimbOnce(t: Tree, child: nat, ghost place: map<nat, Place>) returns (parent: nat, name: string)
    requires WellFormed(t, place) && child in t && child != 0
    ensures parent in t && place[parent].depth < place[child].depth
    ensures NamesTo(t, place, child) == NamesTo(t, place, parent) + [name]
  {
    ghost var n := ChildName(t, place, child);
    parent := GetParentDirInodeNr(t, child);
    var found := GetChildDirName(t, parent, child);
    name := found.value;
  }

  lemma ClimbAdds(above: seq<string>, name: string, up: seq<string>)
    ensures above + [name] + Rev(up) == above + Rev(up + [name])
    ensures Slashed(up + [name]) == Slashed(up) + "/" + name
  {
    RevSnoc(up, name);
  }

  lemma {:induction false} SlashedSize(xs: seq<string>, ys: seq<string>)
    ensures |Slashed(xs + ys)| == |Slashed(xs)| + |Slashed(ys)|
    decreases |ys|
  {
    if ys == [] {
      assert xs + ys == xs;
    } else {
      var n := |ys| - 1;
      SlashedSize(xs, ys[..n]);
      assert (xs + ys)[..|xs + ys| - 1] == xs + ys[..n];
    }
  }

  lemma {:induction false} RevSize(xs: seq<string>)
    ensures |Slashed(Rev(xs))| == |Slashed(xs)|
  {
    if xs != [] {
      var n := |xs| - 1;
      RevSize(xs[..n]);
      SlashedSize([xs[n]], Rev(xs[..n]));
      assert [xs[n]][..0] == [];
    }
  }

  /** What is climbed so far is no longer than the whole path. */
  lemma ClimbSize(above: seq<string>, up: seq<string>)
    ensures |Slashed(above + Rev(up))| == |Slashed(above)| + |Slashed(up)|
  {
    SlashedSize(above, Rev(up));
    RevSize(up);
  }

  /** The first loop of sys_getcwd: climb through "..", writing the names child first into a
      buffer of 512 bytes, which overruns exactly when the path is that long. */
  method Climb(t: Tree, cwd: nat, ghost place: map<nat, Place>) returns (over: bool, rev: string, ghost up: seq<string>)
    requires WellFormed(t, place) && cwd in t
    ensures over <==> |Slashed(NamesTo(t, place, cwd))| >= MAX_PATH_LEN
    ensures !over ==> rev == Slashed(up) && NamesTo(t, place, cwd) == Rev(up)
  {
    hide WellFormed, Slashed, Rev, NamesTo, Dotted;
    rev, up := "", [];
    EmptyUp();
    var child := cwd;
    ghost var all := NamesTo(t, place, cwd);
    RootIn(t, place);
    while child != 0
      invariant child in t && rev == Slashed(up) && all == NamesTo(t, place, child) + Rev(up) && |rev| < MAX_PATH_LEN
      decreases place[child].depth
    {
      var parent, name := ClimbOnce(t, child, place);
      ClimbAdds(NamesTo(t, place, parent), name, up);
      rev := rev + "/" + name;
      up := up + [name];
      child := parent;
      ClimbSize(NamesTo(t, place, child), up);
      if |rev| >= MAX_PATH_LEN {
        return true, rev, up;
      }
    }
    ClimbSize([], up);
    assert all == [] + Rev(up);
    return false, rev, up;
  }

  lemma EmptyUp()
    ensures Slashed([]) == "" && Rev([]) == []
  {
  }

  lemma RootIn(t: Tree, place: map<nat, Place>)
    requires WellFormed(t, place)
    ensures 0 in t && place.Keys == t.Keys && Dotted(t) && NamesTo(t, place, 0) == []
  {
  }

  /** Cutting a printed list at its last slash splits off its last component. */
  lemma SplitLast(left: seq<string>, k: nat)
    requires left != [] && AllPlain(left) && k < |Slashed(left)| && Slashed(left)[k] == '/'
    requires forall j :: k < j < |Slashed(left)| ==> Slashed(left)[j] != '/'
    ensures Slashed(left)[..k] == Slashed(left[..|left| - 1])
    ensures Slashed(left)[k..] == "/" + left[|left| - 1]
    ensures Rev(left) == [left[|left| - 1]] + Rev(left[..|left| - 1])
  {
    LastSlashOfStack(left, k);
  }

  /** The second loop of sys_getcwd: move the last component over until none is left. */
  method Reverse(rev0: string, ghost up: seq<string>) returns (buf: string)
    requires AllPlain(up) && rev0 == Slashed(up)
    ensures buf == Slashed(Rev(up))
  {
    buf := "";
    var rev := rev0;
    ghost var left, done := up, [];
    assert done + Rev(left) == Rev(up);
    while true
      invariant AllPlain(left) && rev == Slashed(left) && buf == Slashed(done)
      invariant done + Rev(left) == Rev(up)
      decreases |left|
    {
      if left != [] { SlashedStartsWithSlash(left); }
      var last := LastSlash(rev);
      if last == None {
        assert done + [] == done;
        break;
      }
      SplitLast(left, last.value);
      RevSnoc(done, left[|left| - 1]);
      buf := buf + rev[last.value..];
      rev := rev[..last.value];
      left, done := left[..|left| - 1], done + [left[|left| - 1]];
    }
  }

  /** The value of sys_getcwd: a buffer overrun, the halt at its assertion, or the path. */
  datatype Cwd = CwdOverrun | CwdHalts | CwdPath(path: string)

  /** The climb has a buffer of 512 bytes, the caller's one of `size`; the assertion leaves no
      room for the terminating zero. */
  function CwdOf(path: string, atRoot: bool, size: nat): Cwd {
    if atRoot then if size < 2 then CwdOverrun else CwdPath("/")
    else if |path| >= MAX_PATH_LEN then CwdOverrun
    else if |path| > size then CwdHalts
    else if |path| == size then CwdOverrun
    else CwdPath(path)
  }

  /** sys_getcwd always terminates in a well-formed tree and prints the names from the root,
      exactly when they fit. */
  method GetCwd(t: Tree, cwd: nat, size: nat, ghost place: map<nat, Place>) returns (r: Cwd)
    requires WellFormed(t, place) && cwd in t
    ensures r == CwdOf(Print(NamesTo(t, place, cwd)), cwd == 0, size)
  {
    hide WellFormed, NamesTo, Rev, Slashed;
    if cwd == 0 {
      return if size < 2 then CwdOverrun else CwdPath("/");
    }
    NamesNotEmpty(t, place, cwd);
    var over, rev;
    ghost var up;
    over, rev, up := Climb(t, cwd, place);
    if over {
      return CwdOverrun;
    }
    ClimbSize([], up);
    EmptyUp();
    assert [] + Rev(up) == Rev(up);
    if !(|rev| <= size) {
      return CwdHalts;
    }
    if |rev| == size {
      return CwdOverrun;
    }
    NamesToPlain(t, place, cwd);
    RevPlain(up);
    var buf := Reverse(rev, up);
    return CwdPath(buf);
  }

  lemma NamesNotEmpty(t: Tree, place: map<nat, Place>, c: nat)
    requires WellFormed(t, place) && c in t && c != 0
    ensures NamesTo(t, place, c) != []
  {
  }

  // ----------------------------------------------------------- search_file

  /** search_dir_entry, on the entries of a tree. */
  method FindEntry(es: seq<Entry>, name: string) returns (r: Option<Entry>)
    ensures r == Lookup(es, name)
  {
    var i := 0;
    assert es[0..] == es;
    while i < |es|
      invariant i <= |es| && Lookup(es[i..], name) == Lookup(es, name)
    {
      if es[i].name == name {
        return Some(es[i]);
      }
      assert es[i..][1..] == es[i + 1..];
      i := i + 1;
    }
    return None;
  }

  /** Every directory named by an entry exists. */
  predicate Closed(t: Tree) {
    0 in t && forall d, i :: d in t && 0 <= i < |t[d]| && t[d][i].kind.Directory? ==> t[d][i].ino in t
  }

  lemma WalkStep(t: Tree, d: nat, name: string, left: seq<string>)
    requires d in t
    ensures Walk(t, d, [name] + left) ==
      match Lookup(t[d], name)
      case None => None
      case Some(e) => if e.kind.Regular? then Some((e.ino, Regular)) else Walk(t, e.ino, left)
  {
    assert ([name] + left)[1..] == left;
  }

  /** The loop of search_file.  `stale` is the inode number left in the unset local `dir_e`,
      which the source returns when the path has no component.  The record of the path
      searched never outgrows its 512 bytes, so the assertion on it holds. */
  method WalkPath(t: Tree, path: string, stale: nat) returns (r: Option<(nat, Kind)>)
    requires Closed(t) && Fits(path) && 0 < |path| < MAX_PATH_LEN && path[0] == '/'
    ensures r == if Components(path) == [] then Some((stale, Directory)) else Walk(t, 0, Components(path))
  {
    var found := stale;
    var parent := 0;
    var searched := "";
    ghost var all := Components(path);
    ghost var todo := all;
    ComponentsWeight(path);
    var name, rest := PathParse(path);
    while name != ""
      invariant rest.Some? ==> Fits(rest.value)
      invariant name == "" ==> rest == None && todo == []
      invariant name != "" ==> todo == [name] + (if rest.Some? then Components(rest.value) else [])
      invariant parent in t && Walk(t, parent, todo) == Walk(t, 0, all)
      invariant (todo == all && found == stale) || (all != [] && found == parent)
      invariant |searched| + Weight(todo) <= |path|
      decreases name != "", if rest.Some? then |rest.value| + 1 else 0
    {
      ghost var left := if rest.Some? then Components(rest.value) else [];
      assert todo[1..] == left;
      assert |searched| < MAX_PATH_LEN;
      searched := searched + "/" + name;
      assert |searched| < MAX_PATH_LEN;
      WalkStep(t, parent, name, left);
      var e := FindEntry(t[parent], name);
      if e == None {
        return None;
      }
      todo := left;
      name := "";
      if rest.Some? {
        name, rest := PathParse(rest.value);
      }
      if e.value.kind.Regular? {
        return Some((e.value.ino, Regular));
      }
      found := e.value.ino;
      parent := e.value.ino;
    }
    return Some((found, Directory));
  }

  /** What search_file finds; only a path of two or more slashes and nothing else is answered
      from the unset local. */
  function Answer(t: Tree, path: string, stale: nat): Option<(nat, Kind)> {
    if Components(path) == [] && path != "/" then Some((stale, Directory)) else Walk(t, 0, Components(path))
  }

  /** The assertion of search_file fails: no leading slash, or 512 characters or more. */
  predicate SearchHalts(path: string) {
    && path != "/" && path != "/." && path != "/.."
    && !(|path| > 1 && path[0] == '/' && |path| < MAX_PATH_LEN)
  }

  datatype Search = SearchHalt | Answered(r: Option<(nat, Kind)>)

  /** search_file: follow the components of the path from the root. */
  method SearchFile(t: Tree, path: string, stale: nat) returns (r: Search)
    requires Closed(t) && Dotted(t) && Parent(t, 0) == 0 && Fits(path)
    ensures r == if SearchHalts(path) then SearchHalt else Answered(Answer(t, path, stale))
  {
    hide Walk, Components;
    if path == "/" || path == "/." || path == "/.." {
      ShortPath(t, path);
      return Answered(Some((0, Directory)));
    }
    if !(|path| > 1 && path[0] == '/' && |path| < MAX_PATH_LEN) {
      return SearchHalt;
    }
    var found := WalkPath(t, path, stale);
    return Answered(found);
  }

  lemma ShortPath(t: Tree, path: string)
    requires Dotted(t) && 0 in t && Parent(t, 0) == 0 && path in {"/", "/.", "/.."}
    ensures Walk(t, 0, Components(path)) == Some((0, Directory)) && (path != "/" ==> Components(path) != [])
  {
    if path == "/" {
      assert path[1..] == "";
    } else if path == "/." {
      ComponentsOfName(".");
      assert "/" + "." == path;
      WalkStep(t, 0, ".", []);
    } else {
      ComponentsOfName("..");
      assert "/" + ".." == path;
      WalkStep(t, 0, "..", []);
      assert t[0][1..][0] == t[0][1];
    }
  }

  // -------------------------------------------------- the two directions

  lemma {:induction false} WalkAppend(t: Tree, d: nat, xs: seq<string>, ys: seq<string>)
    requires Walk(t, d, xs).Some? && Walk(t, d, xs).value.1.Directory?
    ensures Walk(t, d, xs + ys) == Walk(t, Walk(t, d, xs).value.0, ys)
    decreases |xs|
  {
    if xs == [] {
      assert xs + ys == ys;
    } else {
      assert (xs + ys)[1..] == xs[1..] + ys;
      WalkAppend(t, Lookup(t[d], xs[0]).value.ino, xs[1..], ys);
    }
  }

  lemma WalkSnoc(t: Tree, names: seq<string>, p: nat, n: string, c: nat)
    requires Walk(t, 0, names) == Some((p, Directory)) && p in t && Lookup(t[p], n) == Some(Entry(n, c, Directory))
    ensures Walk(t, 0, names + [n]) == Some((c, Directory))
  {
    WalkAppend(t, 0, names, [n]);
    WalkStep(t, p, n, []);
    assert [n] + [] == [n];
  }

  /** Following the names of a directory from the root leads to it. */
  lemma {:induction false} WalkToDir(t: Tree, place: map<nat, Place>, c: nat)
    requires WellFormed(t, place) && c in t
    ensures Walk(t, 0, NamesTo(t, place, c)) == Some((c, Directory))
    decreases place[c].depth
  {
    if c != 0 {
      var n, p := ChildName(t, place, c), Parent(t, c);
      WalkToDir(t, place, p);
      WalkSnoc(t, NamesTo(t, place, p), p, n, c);
    }
  }

  lemma {:induction false} LookupIndex(es: seq<Entry>, n: string) returns (i: nat)
    requires Lookup(es, n).Some?
    ensures i < |es| && es[i] == Lookup(es, n).value
  {
    if es[0].name == n { return 0; }
    i := LookupIndex(es[1..], n);
    i := i + 1;
  }

  /** The entry that a plain name finds is behind the dots, and sound. */
  lemma PlainEntry(t: Tree, place: map<nat, Place>, d: nat, n: string) returns (i: nat)
    requires WellFormed(t, place) && d in t && Plain(n) && Lookup(t[d], n).Some?
    ensures 2 <= i < |t[d]| && t[d][i] == Lookup(t[d], n).value && EntryOk(t, place, d, t[d][i])
  {
    i := LookupIndex(t[d], n);
    assert DirOk(t, place, d);
  }

  /** A plain name leads from a directory only to one of its own children. */
  lemma PlainStep(t: Tree, place: map<nat, Place>, d: nat, n: string)
    requires WellFormed(t, place) && d in t && Plain(n)
    requires Lookup(t[d], n).Some? && Lookup(t[d], n).value.kind.Directory?
    ensures var c := Lookup(t[d], n).value.ino;
      c in t && c != 0 && Parent(t, c) == d && ChildName(t, place, c) == n
  {
    var i := PlainEntry(t, place, d, n);
    var c := t[d][i].ino;
    assert IsChild(t, c, i);
    ChildNameIs(t, place, c, i);
  }

  lemma ChildNameIs(t: Tree, place: map<nat, Place>, c: nat, i: nat)
    requires WellFormed(t, place) && c in t && c != 0 && IsChild(t, c, i)
    ensures ChildName(t, place, c) == t[Parent(t, c)][i].name
  {
    OnlyChild(t, place, c, i);
    NameOfIs(t[Parent(t, c)], c, i);
  }

  lemma PlainTail(names: seq<string>)
    requires AllPlain(names) && names != []
    ensures AllPlain(names[1..]) && Plain(names[0]) && forall xs: seq<string> :: xs + names == xs + [names[0]] + names[1..]
  {
  }

  /** A walk along plain names that ends in a directory ends in the directory of those names. */
  lemma {:induction false} WalkFromDir(t: Tree, place: map<nat, Place>, d: nat, names: seq<string>)
    requires WellFormed(t, place) && d in t && AllPlain(names)
    requires Walk(t, d, names).Some? && Walk(t, d, names).value.1.Directory?
    ensures var c := Walk(t, d, names).value.0; c in t && NamesTo(t, place, c) == NamesTo(t, place, d) + names
    decreases |names|
  {
    if names != [] {
      PlainTail(names);
      PlainStep(t, place, d, names[0]);
      WalkFromDir(t, place, Lookup(t[d], names[0]).value.ino, names[1..]);
    }
  }

  lemma ClosedDir(t: Tree, place: map<nat, Place>, d: nat, i: nat)
    requires WellFormed(t, place) && d in t && i < |t[d]| && t[d][i].kind.Directory?
    ensures t[d][i].ino in t
  {
    assert DirOk(t, place, d);
    if i >= 2 { assert EntryOk(t, place, d, t[d][i]); }
  }

  lemma ClosedTree(t: Tree, place: map<nat, Place>)
    requires WellFormed(t, place)
    ensures Closed(t)
  {
    forall d, i | d in t && 0 <= i < |t[d]| && t[d][i].kind.Directory? ensures t[d][i].ino in t {
      ClosedDir(t, place, d, i);
    }
  }

  /** sys_getcwd's path resolves through search_file to the same directory, whenever the buffers
      hold it. */
  method GetCwdResolves(t: Tree, cwd: nat, size: nat, ghost place: map<nat, Place>, stale: nat) returns (path: Cwd, r: Search)
    requires WellFormed(t, place) && cwd in t && Fits(Print(NamesTo(t, place, cwd)))
    ensures path == CwdOf(Print(NamesTo(t, place, cwd)), cwd == 0, size)
    ensures path.CwdPath? ==> r == Answered(Some((cwd, Directory)))
  {
    hide WellFormed, NamesTo, Closed, Dotted, Parent, Answer, SearchHalts, Fits;
    ResolveFacts(t, place, cwd, stale);
    path := GetCwd(t, cwd, size, place);
    r := SearchHalt;
    if path.CwdPath? {
      r := SearchFile(t, path.path, stale);
    }
  }

  lemma ResolveFacts(t: Tree, place: map<nat, Place>, cwd: nat, stale: nat)
    requires WellFormed(t, place) && cwd in t
    ensures Closed(t) && Dotted(t) && 0 in t && Parent(t, 0) == 0
    ensures var p := Print(NamesTo(t, place, cwd));
      && (cwd == 0 ==> p == "/")
      && (|p| < MAX_PATH_LEN ==> !SearchHalts(p) && Answer(t, p, stale) == Some((cwd, Directory)))
  {
    hide NamesTo, Walk, Closed, Slashed, DirOk;
    var names := NamesTo(t, place, cwd);
    NamesToPlain(t, place, cwd);
    ComponentsOfPrint(names);
    WalkToDir(t, place, cwd);
    ClosedTree(t, place);
    RootName(t, place, cwd);
    if |Print(names)| < MAX_PATH_LEN { PrintedSearch(names); }
  }

  /** A printed path that fits does not halt search_file. */
  lemma PrintedSearch(names: seq<string>)
    requires AllPlain(names) && |Print(names)| < MAX_PATH_LEN
    ensures !SearchHalts(Print(names)) && (Components(Print(names)) == [] ==> Print(names) == "/")
  {
    ComponentsOfPrint(names);
    if names != [] {
      SlashedStartsWithSlash(names);
      PrintRoot(names);
      PlainFirst(names);
    }
  }

  lemma PlainFirst(names: seq<string>)
    requires AllPlain(names) && names != []
    ensures |Slashed(names)| > 1
  {
    assert |names[|names| - 1]| > 0;
  }

  // ------------------------------------------------- washing and the tree

  /** The two dots: the directory itself, and its parent. */
  lemma DotSteps(t: Tree, d: nat)
    requires Dotted(t) && d in t
    ensures Lookup(t[d], ".") == Some(Entry(".", d, Directory))
    ensures Lookup(t[d], "..").Some? && Lookup(t[d], "..").value.kind.Directory? && Lookup(t[d], "..").value.ino == Parent(t, d)
  {
    assert t[d][1..][0] == t[d][1];
  }

  /** From the directory of a clean stack one name leads where the stack, changed by that name, leads
      from the root. */
  lemma PushWalks(t: Tree, place: map<nat, Place>, stack: seq<string>, c: nat, name: string)
    requires WellFormed(t, place) && AllPlain(stack) && Walk(t, 0, stack) == Some((c, Directory)) && IsName(name)
    ensures c in t
    ensures Lookup(t[c], name).Some? && Lookup(t[c], name).value.kind.Directory? ==>
      AllPlain(Push(stack, name)) && Walk(t, 0, Push(stack, name)) == Some((Lookup(t[c], name).value.ino, Directory))
  {
    hide WellFormed, Walk, NamesTo, Lookup, Dotted;
    StackOf(t, place, stack, c);
    DotSteps(t, c);
    if name == ".." {
      UpFromDir(t, place, c);
    } else if name != "." && Lookup(t[c], name).Some? && Lookup(t[c], name).value.kind.Directory? {
      LookupName(t[c], name);
      WalkSnoc(t, stack, c, name, Lookup(t[c], name).value.ino);
    }
  }

  lemma StackOf(t: Tree, place: map<nat, Place>, stack: seq<string>, c: nat)
    requires WellFormed(t, place) && AllPlain(stack) && Walk(t, 0, stack) == Some((c, Directory))
    ensures c in t && Dotted(t) && NamesTo(t, place, c) == stack
  {
    hide DirOk, Walk, NamesTo;
    WalkFromDir(t, place, 0, stack);
    RootName(t, place, 0);
    assert [] + stack == stack;
  }

  lemma LookupName(es: seq<Entry>, name: string)
    requires Lookup(es, name).Some?
    ensures Lookup(es, name).value.name == name
  {
  }

  /** The parent's names are the directory's without the last. */
  lemma UpFromDir(t: Tree, place: map<nat, Place>, c: nat)
    requires WellFormed(t, place) && c in t
    ensures var names := NamesTo(t, place, c);
      && Parent(t, c) in t && (c == 0 ==> Parent(t, c) == 0 && names == []) && (c != 0 ==> names != [])
      && Walk(t, 0, if names == [] then [] else names[..|names| - 1]) == Some((Parent(t, c), Directory))
  {
    hide Walk, Lookup;
    if c == 0 {
      WalkToDir(t, place, 0);
    } else {
      WalkToDir(t, place, Parent(t, c));
      var n := ChildName(t, place, c);
      assert NamesTo(t, place, c) == NamesTo(t, place, Parent(t, c)) + [n];
    }
  }

  /** Names followed from a directory, dots and all, end where the stack they fold to leads from the
      root. */
  lemma {:induction false} FoldWalks(t: Tree, place: map<nat, Place>, stack: seq<string>, c: nat, names: seq<string>, d: nat)
    requires WellFormed(t, place) && AllPlain(stack) && Walk(t, 0, stack) == Some((c, Directory))
    requires (forall n :: n in names ==> IsName(n)) && Walk(t, c, names) == Some((d, Directory))
    ensures Walk(t, 0, Fold(stack, names)) == Some((d, Directory))
    decreases |names|
  {
    hide WellFormed, Push;
    if names != [] {
      assert names[0] in names;
      PushWalks(t, place, stack, c, names[0]);
      FoldWalks(t, place, Push(stack, names[0]), Lookup(t[c], names[0]).value.ino, names[1..], d);
    }
  }

  /** Washing keeps the meaning of a path: one that leads to a directory leads there when washed. */
  lemma WashResolves(t: Tree, place: map<nat, Place>, path: string, d: nat)
    requires WellFormed(t, place) && Walk(t, 0, Components(path)) == Some((d, Directory))
    ensures Walk(t, 0, Components(Washed(path))) == Some((d, Directory)) && LeadsTo(t, Washed(path), d)
  {
    hide Walk, WellFormed, Components, Fold;
    ComponentsAreNames(path);
    RootWalk(t);
    FoldWalks(t, place, [], 0, Components(path), d);
    WashedIsClean(path);
  }

  lemma RootWalk(t: Tree)
    ensures Walk(t, 0, []) == Some((0, Directory))
  {
  }

  /** It can do more: a name that does not exist is gone with the dots behind it. */
  lemma WashForgets()
    ensures var t: Tree := map[0 := [Entry(".", 0, Directory), Entry("..", 0, Directory)]];
      Walk(t, 0, ["x", ".."]) == None && Walk(t, 0, Fold([], ["x", ".."])) == Some((0, Directory))
  {
    var t: Tree := map[0 := [Entry(".", 0, Directory), Entry("..", 0, Directory)]];
    assert t[0][1..][1..] == [];
    assert Lookup(t[0], "x") == None;
    assert Fold([], ["x", ".."]) == Fold(["x"], [".."]) by { assert ["x", ".."][1..] == [".."]; }
    assert Fold(["x"], [".."]) == Fold([], []) by { assert [".."][1..] == []; }
  }

  /** The directory from which the argument of cd counts. */
  function From(path: string, cwd: nat): nat { if path != "" && path[0] == '/' then 0 else cwd }

  /** An argument that leads from the working directory, or from the root, to directory `d`, leads
      there once it is made absolute and washed. */
  lemma CdLeads(t: Tree, place: map<nat, Place>, cache: string, cwd: nat, path: string, d: nat)
    requires WellFormed(t, place) && LeadsTo(t, cache, cwd) && Walk(t, From(path, cwd), Components(path)) == Some((d, Directory))
    ensures LeadsTo(t, Washed(Absolute(path, cache)), d)
  {
    hide Walk, WellFormed, Components, Fold, Washed;
    if From(path, cwd) == cwd && !(path != "" && path[0] == '/') {
      RelativeComponents(path, Components(cache));
      WalkAppend(t, 0, Components(cache), Components(path));
    }
    WashResolves(t, place, Absolute(path, cache), d);
  }

  lemma UpComponents()
    ensures Components("..") == [".."]
  {
    NameLenIs("..", 2);
    assert ".."[..2] == ".." && ".."[2..] == "";
  }

  /** `..` leads to the parent. */
  lemma UpLeads(t: Tree, place: map<nat, Place>, c: nat)
    requires WellFormed(t, place) && c in t
    ensures Walk(t, c, Components("..")) == Some((Parent(t, c), Directory))
  {
    hide DirOk, Components, Lookup;
    UpComponents();
    DotSteps(t, c);
    assert [".."][1..] == [];
  }

  // ------------------------------------------------------------- the shell

  /** `path` is a clean absolute path that leads to directory `d`. */
  ghost predicate LeadsTo(t: Tree, path: string, d: nat) {
    && path == Print(Components(path)) && AllPlain(Components(path))
    && Walk(t, 0, Components(path)) == Some((d, Directory))
  }

  /** Only the path that sys_getcwd prints leads to a directory. */
  lemma CachedPath(t: Tree, place: map<nat, Place>, path: string, d: nat)
    requires WellFormed(t, place) && LeadsTo(t, path, d)
    ensures d in t && path == Print(NamesTo(t, place, d))
  {
    WalkFromDir(t, place, 0, Components(path));
    assert [] + Components(path) == Components(path);
  }

  class Shell {
    const tree: Tree
    var cwd: nat            // task_struct.cwd_inode_nr
    var cache: string       // cwd_cache

    /** The cached path leads to the working directory and fits its buffer. */
    ghost predicate Valid()
      reads this
    {
      LeadsTo(tree, cache, cwd) && |cache| < MAX_PATH_LEN
    }

    constructor (t: Tree)
      ensures Valid() && tree == t && cwd == 0
    {
      tree, cwd, cache := t, 0, "/";
      assert "/"[1..] == "";
    }

    /** getcwd: what sys_getcwd prints into 512 bytes is the cached path. */
    method Pwd(ghost place: map<nat, Place>) returns (path: string)
      requires WellFormed(tree, place) && Valid()
      ensures path == cache && |path| > 0 && path[0] == '/'
    {
      hide WellFormed, NamesTo, LeadsTo, Print;
      PwdFits(tree, place, cache, cwd);
      var r := GetCwd(tree, cwd, MAX_PATH_LEN, place);
      path := r.path;
    }

    /** sys_chdir: halts exactly when search_file does, and succeeds exactly when that finds a
        directory, which becomes the current one. */
    method ChDir(path: string, stale: nat) returns (r: Moved)
      requires Closed(tree) && Dotted(tree) && Parent(tree, 0) == 0 && Fits(path)
      modifies this`cwd
      ensures r.MoveHalts? <==> SearchHalts(path)
      ensures r.MoveDone? <==>
        !SearchHalts(path) && Answer(tree, path, stale).Some? && Answer(tree, path, stale).value.1.Directory?
      ensures cwd == if r.MoveDone? then Answer(tree, path, stale).value.0 else old(cwd)
    {
      hide Closed, Dotted, Answer, SearchHalts;
      var found := SearchFile(tree, path, stale);
      if found.SearchHalt? {
        return MoveHalts;
      }
      if found.r.Some? && found.r.value.1.Directory? {
        cwd := found.r.value.0;
        return MoveDone;
      }
      return MoveFails;
    }

    /** buildin_cd with the update of cwd_cache in my_shell.  It overruns the buffer of the
        absolute path exactly when that has 512 characters or more; otherwise it succeeds
        exactly when the washed path leads to a directory, and then that path is cached, so
        the cache stays equal to sys_getcwd.  A cd that fails changes nothing. */
    method Cd(arg: Option<string>, stale: nat, ghost place: map<nat, Place>) returns (r: CdResult)
      requires WellFormed(tree, place) && Valid()
      requires arg.Some? ==> Fits(Absolute(arg.value, cache))
      modifies this`cwd, this`cache
      ensures Valid()
      ensures r.CdOverran? <==> arg.Some? && |Absolute(arg.value, old(cache))| >= MAX_PATH_LEN
      ensures var final := if arg == None then "/" else Washed(Absolute(arg.value, old(cache)));
        && (r.CdDone? <==> !r.CdOverran? && exists d :: LeadsTo(tree, final, d))
        && (r.CdDone? ==> cache == final)
        && (!r.CdDone? ==> cwd == old(cwd) && cache == old(cache))
      ensures arg == None ==> r.CdDone? && cwd == 0
      ensures forall d :: arg.Some? && !r.CdOverran? && Walk(tree, From(arg.value, old(cwd)), Components(arg.value)) == Some((d, Directory)) ==>
        r.CdDone? && cwd == d
      ensures arg == Some("..") && !r.CdOverran? ==> old(cwd) in tree && r.CdDone? && cwd == Parent(tree, old(cwd))
    {
      ClosedTree(tree, place);
      var final := "/";
      if arg.Some? {
        var here := Pwd(place);
        var text := MakeClearAbsPath(arg.value, here);
        if text.TextOverrun? {
          return CdOverran;
        }
        final := text.s;
        CleanPath(Absolute(arg.value, here));
      } else {
        assert final[1..] == "";
      }
      ghost var was, here := cwd, cache;
      var ok := Enter(final, stale);
      CdMeans(tree, place, arg, here, was, final, cwd, ok);
      return if ok then CdDone else CdFailed;
    }

    /** chdir on a clean path that fits, then the update of cwd_cache. */
    method Enter(final: string, stale: nat) returns (ok: bool)
      requires Closed(tree) && Dotted(tree) && Parent(tree, 0) == 0 && Valid()
      requires 0 < |final| < MAX_PATH_LEN && final[0] == '/' && Fits(final) && AllPlain(Components(final))
      requires final == Print(Components(final)) && (Components(final) == [] ==> final == "/")
      modifies this`cwd, this`cache
      ensures Valid() && (ok <==> exists d :: LeadsTo(tree, final, d))
      ensures if ok then cache == final else cwd == old(cwd) && cache == old(cache)
    {
      hide Closed, Dotted, Parent, Walk, Print, Components, SearchHalts;
      PrintedSearch(Components(final));
      var r := ChDir(final, stale);
      ok := r.MoveDone?;
      if ok {
        cache := final;
        assert LeadsTo(tree, final, cwd);
      }
    }
  }

  /** What a cd that is not too long means for its argument. */
  lemma CdMeans(t: Tree, place: map<nat, Place>, arg: Option<string>, cache: string, cwd: nat, final: string, now: nat, ok: bool)
    requires WellFormed(t, place) && LeadsTo(t, cache, cwd)
    requires final == if arg == None then "/" else Washed(Absolute(arg.value, cache))
    requires ok <==> exists d :: LeadsTo(t, final, d)
    requires ok ==> LeadsTo(t, final, now)
    ensures arg == None ==> ok && now == 0
    ensures forall d :: arg.Some? && Walk(t, From(arg.value, cwd), Components(arg.value)) == Some((d, Directory)) ==> ok && now == d
    ensures arg == Some("..") ==> cwd in t && ok && now == Parent(t, cwd)
  {
    hide Walk, WellFormed, Washed, Components;
    CachedPath(t, place, cache, cwd);
    if arg == None {
      RootLeads(t);
    } else {
      forall d | Walk(t, From(arg.value, cwd), Components(arg.value)) == Some((d, Directory)) ensures ok && now == d {
        CdLeads(t, place, cache, cwd, arg.value, d);
      }
      if arg == Some("..") { UpLeads(t, place, cwd); }
    }
  }

  lemma RootLeads(t: Tree)
    ensures LeadsTo(t, "/", 0)
  {
    assert "/"[1..] == "";
  }

  /** The cached path is what sys_getcwd prints. */
  lemma PwdFits(t: Tree, place: map<nat, Place>, cache: string, cwd: nat)
    requires WellFormed(t, place) && LeadsTo(t, cache, cwd) && |cache| < MAX_PATH_LEN
    ensures cwd in t && |cache| > 0 && cache[0] == '/'
    ensures CwdOf(Print(NamesTo(t, place, cwd)), cwd == 0, MAX_PATH_LEN) == CwdPath(cache)
  {
    hide WellFormed, NamesTo, Walk, Components, Slashed;
    CachedPath(t, place, cache, cwd);
    if Components(cache) != [] { SlashedStartsWithSlash(Components(cache)); }
    RootName(t, place, cwd);
  }

  datatype Moved = MoveHalts | MoveFails | MoveDone

  datatype CdResult = CdOverran | CdFailed | CdDone

  /** The root is the directory without a name. */
  lemma RootName(t: Tree, place: map<nat, Place>, c: nat)
    requires WellFormed(t, place) && c in t
    ensures c == 0 ==> NamesTo(t, place, c) == []
  {
  }

  /** What the shell relies on about a washed path. */
  lemma CleanPath(path: string)
    requires Fits(path)
    ensures var p := Washed(path);
      && |p| > 0 && p[0] == '/' && Fits(p) && AllPlain(Components(p)) && p == Print(Components(p))
      && (Components(p) == [] ==> p == "/")
  {
    WashedIsClean(path);
    FoldShort([], Components(path));
  }

  lemma {:induction false} FoldShort(stack: seq<string>, names: seq<string>)
    requires AllShort(stack) && AllShort(names)
    ensures AllShort(Fold(stack, names))
    decreases |names|
  {
    if names != [] {
      if stack != [] {
        assert stack == stack[..|stack| - 1] + [stack[|stack| - 1]];
        ShortAppend(stack[..|stack| - 1], [stack[|stack| - 1]]);
      }
      ShortAppend(stack, [names[0]]);
      FoldShort(Push(stack, names[0]), names[1..]);
    }
  }
}
