/**
Path strings: `path_parse` (fs/fs.c) and the normalisation `wash_path` of the shell
(shell/buildin_cmd.c).  A C string is the sequence of its characters before the
terminating zero; cutting a buffer at a position is taking a prefix.
*/
module Paths {
  import opened Options

  const MAX_FILE_NAME_LEN: nat := 16
  const MAX_PATH_LEN: nat := 512

  // ------------------------------------------------------------ components

  /** Position of the first '/' or the end. */
  function NameLen(s: string): (n: nat)
    ensures n <= |s| && '/' !in s[..n] && (n < |s| ==> s[n] == '/')
  {
    if s == "" || s[0] == '/' then 0
    else
      assert s[..NameLen(s[1..]) + 1] == [s[0]] + s[1..][..NameLen(s[1..])];
      1 + NameLen(s[1..])
  }

  /** The names between the slashes, empty ones dropped. */
  function Components(s: string): (c: seq<string>)
    decreases |s|
  {
    if s == "" then []
    else if s[0] == '/' then Components(s[1..])
    else [s[..NameLen(s)]] + Components(s[NameLen(s)..])
  }

  predicate IsName(n: string) { n != "" && '/' !in n }

  lemma {:induction false} ComponentsAreNames(s: string)
    ensures forall n :: n in Components(s) ==> IsName(n)
    decreases |s|
  {
    if s != "" {
      if s[0] == '/' { ComponentsAreNames(s[1..]); } else { ComponentsAreNames(s[NameLen(s)..]); }
    }
  }

  /** Every name fits the 16-byte name buffer with its terminating zero. */
  predicate AllShort(names: seq<string>) {
    names == [] || (|names[0]| < MAX_FILE_NAME_LEN && AllShort(names[1..]))
  }

  predicate Fits(s: string) { AllShort(Components(s)) }

  lemma {:induction false} ShortAppend(xs: seq<string>, ys: seq<string>)
    ensures AllShort(xs + ys) <==> AllShort(xs) && AllShort(ys)
    decreases |xs|
  {
    if xs == [] {
      assert xs + ys == ys;
    } else {
      assert (xs + ys)[1..] == xs[1..] + ys;
      ShortAppend(xs[1..], ys);
    }
  }

  lemma NameLenIs(s: string, n: nat)
    requires n <= |s| && (forall j :: 0 <= j < n ==> s[j] != '/') && (n < |s| ==> s[n] == '/')
    ensures NameLen(s) == n
  {
    var m := NameLen(s);
    forall j | 0 <= j < m ensures s[j] != '/' { assert s[..m][j] in s[..m]; }
  }

  /** The first loop of path_parse. */
  method SkipSlashes(path: string) returns (p: nat)
    ensures p <= |path| && Components(path[p..]) == Components(path)
    ensures p < |path| ==> path[p] != '/'
  {
    p := 0;
    assert path[0..] == path;
    while p < |path| && path[p] == '/'
      invariant p <= |path| && Components(path[p..]) == Components(path)
    {
      assert path[p..][1..] == path[p + 1..];
      p := p + 1;
    }
  }

  /** The second loop of path_parse. */
  method ReadName(path: string, from: nat) returns (name: string, p: nat)
    requires from <= |path|
    ensures from <= p <= |path| && name == path[from..p] && p - from == NameLen(path[from..])
  {
    name, p := "", from;
    while p < |path| && path[p] != '/'
      invariant from <= p <= |path| && name == path[from..p]
      invariant forall j :: from <= j < p ==> path[j] != '/'
    {
      name := name + [path[p]];
      p := p + 1;
    }
    NameLenIs(path[from..], p - from);
  }

  /** path_parse: the first component, and the rest of the path or NULL at its end. */
  method PathParse(path: string) returns (name: string, rest: Option<string>)
    requires Fits(path)
    ensures name == "" ==> Components(path) == [] && rest == None
    ensures name != "" ==>
      Components(path) == [name] + (if rest.Some? then Components(rest.value) else [])
    ensures name != "" ==> IsName(name) && |name| < MAX_FILE_NAME_LEN
    ensures rest.Some? ==> |rest.value| < |path| && Fits(rest.value)
  {
    var from := SkipSlashes(path);
    var p;
    name, p := ReadName(path, from);
    ghost var tail := path[from..];
    assert tail[..p - from] == name && tail[p - from..] == path[p..];
    if name != "" {
      assert Components(path) == [name] + Components(path[p..]);
      assert name in Components(path);
      ComponentsAreNames(path);
      assert Components(path)[1..] == Components(path[p..]);
    }
    rest := if p == |path| then None else Some(path[p..]);
  }

  // ----------------------------------------------------------- wash_path

  /** One component acts on the stack of directories. */
  function Push(stack: seq<string>, name: string): seq<string> {
    if name == ".." then (if stack == [] then [] else stack[..|stack| - 1])
    else if name == "." then stack
    else stack + [name]
  }

  function Fold(stack: seq<string>, names: seq<string>): (r: seq<string>)
    decreases |names|
  {
    if names == [] then stack else Fold(Push(stack, names[0]), names[1..])
  }

  /** "/a" + "/b" + ... */
  function Slashed(stack: seq<string>): string {
    if stack == [] then "" else Slashed(stack[..|stack| - 1]) + "/" + stack[|stack| - 1]
  }

  function Print(stack: seq<string>): string {
    if stack == [] then "/" else Slashed(stack)
  }

  /** A directory name: no slash, neither empty nor "." nor "..". */
  predicate Plain(n: string) { IsName(n) && n != "." && n != ".." }

  ghost predicate AllPlain(stack: seq<string>) {
    forall i :: 0 <= i < |stack| ==> Plain(stack[i])
  }

  lemma {:induction false} FoldPlain(stack: seq<string>, names: seq<string>)
    requires AllPlain(stack) && forall n :: n in names ==> IsName(n)
    ensures AllPlain(Fold(stack, names))
    decreases |names|
  {
    if names != [] {
      assert names[0] in names;
      FoldPlain(Push(stack, names[0]), names[1..]);
    }
  }

  lemma {:induction false} FoldAppend(stack: seq<string>, xs: seq<string>, ys: seq<string>)
    ensures Fold(stack, xs + ys) == Fold(Fold(stack, xs), ys)
    decreases |xs|
  {
    if xs == [] {
      assert xs + ys == ys;
    } else {
      assert (xs + ys)[1..] == xs[1..] + ys;
      FoldAppend(Push(stack, xs[0]), xs[1..], ys);
    }
  }

  lemma {:induction false} SlashedStartsWithSlash(stack: seq<string>)
    requires stack != []
    ensures |Slashed(stack)| > 0 && Slashed(stack)[0] == '/'
  {
    if |stack| > 1 { SlashedStartsWithSlash(stack[..|stack| - 1]); }
  }

  /** strrchr(s, '/'): position of the last slash, or NULL. */
  method LastSlash(s: string) returns (last: Option<nat>)
    ensures last == None <==> '/' !in s
    ensures last.Some? ==> last.value < |s| && s[last.value] == '/'
    ensures last.Some? ==> forall j :: last.value < j < |s| ==> s[j] != '/'
  {
    last := None;
    for i := 0 to |s|
      invariant last == None <==> forall j :: 0 <= j < i ==> s[j] != '/'
      invariant last.Some? ==> last.value < i && s[last.value] == '/'
      invariant last.Some? ==> forall j :: last.value < j < i ==> s[j] != '/'
    {
      if s[i] == '/' {
        last := Some(i);
      }
    }
  }

  /** The last slash of a printed stack is the one before its top. */
  lemma LastSlashOfStack(stack: seq<string>, k: nat)
    requires stack != [] && AllPlain(stack)
    requires k < |Slashed(stack)| && Slashed(stack)[k] == '/'
    requires forall j :: k < j < |Slashed(stack)| ==> Slashed(stack)[j] != '/'
    ensures k == |Slashed(stack[..|stack| - 1])| && Slashed(stack)[..k] == Slashed(stack[..|stack| - 1])
  {
    var low, top := Slashed(stack[..|stack| - 1]), stack[|stack| - 1];
    var s := Slashed(stack);
    assert s == low + "/" + top && s[|low|] == '/';
    assert forall j :: |low| < j < |s| ==> s[j] == top[j - |low| - 1];
  }

  /** The ".." branch of wash_path cuts the buffer at the last slash, or after it at the root. */
  method CutLast(buf: string, ghost stack: seq<string>) returns (r: string)
    requires AllPlain(stack) && buf == Print(stack)
    ensures r == Print(Push(stack, ".."))
  {
    if stack != [] { SlashedStartsWithSlash(stack); }
    assert buf[0] == '/';
    var slash := LastSlash(buf);
    if stack != [] { LastSlashOfStack(stack, slash.value); }
    if slash.value != 0 {
      r := buf[..slash.value];
    } else {
      r := buf[..1];
    }
    if stack != [] && stack[..|stack| - 1] != [] { SlashedStartsWithSlash(stack[..|stack| - 1]); }
  }

  lemma PrintPush(stack: seq<string>, name: string)
    requires AllPlain(stack) && Plain(name)
    ensures Print(Push(stack, name)) == (if stack == [] then "" else Print(stack)) + "/" + name
    ensures stack == [] ==> Print(stack) == "/"
  {
    var more := stack + [name];
    assert Push(stack, name) == more && more[..|more| - 1] == stack && more[|more| - 1] == name;
    assert Print(more) == Slashed(stack) + "/" + name;
  }

  /** The last branch of wash_path appends a slash unless the buffer is "/", then the name. */
  method AppendName(buf: string, name: string, ghost stack: seq<string>) returns (r: string)
    requires AllPlain(stack) && buf == Print(stack) && Plain(name)
    ensures r == Print(Push(stack, name))
  {
    hide Print, Slashed, Push;
    PrintPush(stack, name);
    PrintRoot(stack);
    r := buf;
    if buf != "/" {
      r := r + "/";
    }
    r := r + name;
    if stack == [] { assert "" + "/" + name == "/" + name; }
  }

  /** Only the empty stack prints as "/". */
  lemma PrintRoot(stack: seq<string>)
    requires AllPlain(stack)
    ensures Print(stack) == "/" <==> stack == []
  {
    if stack != [] { assert |Slashed(stack)| >= 1 + |stack[|stack| - 1]|; }
  }

  // --------------------------------------------------- what washing means

  lemma {:induction false} ComponentsAppend(a: string, b: string)
    requires b == "" || b[0] == '/'
    ensures Components(a + b) == Components(a) + Components(b)
    decreases |a|
  {
    if a == "" {
      assert a + b == b;
    } else if a[0] == '/' {
      assert (a + b)[1..] == a[1..] + b;
      ComponentsAppend(a[1..], b);
    } else {
      var n := NameLen(a);
      forall j | 0 <= j < n ensures (a + b)[j] != '/' { assert a[..n][j] in a[..n]; }
      NameLenIs(a + b, n);
      assert (a + b)[..n] == a[..n] && (a + b)[n..] == a[n..] + b;
      ComponentsAppend(a[n..], b);
    }
  }

  lemma ComponentsOfName(n: string)
    requires IsName(n)
    ensures Components("/" + n) == [n]
  {
    assert ("/" + n)[1..] == n;
    NameLenIs(n, |n|);
    assert n[..|n|] == n && n[|n|..] == "";
    assert Components(n) == [n] + Components("");
  }

  /** Parsing a printed stack gives the stack back. */
  lemma {:induction false} ComponentsOfPrint(stack: seq<string>)
    requires forall i :: 0 <= i < |stack| ==> IsName(stack[i])
    ensures Components(Slashed(stack)) == stack && Components(Print(stack)) == stack
  {
    if stack == [] {
      assert "/"[1..] == "";
    } else {
      var low, top := stack[..|stack| - 1], stack[|stack| - 1];
      ComponentsOfPrint(low);
      ComponentsOfName(top);
      ComponentsAppend(Slashed(low), "/" + top);
      assert Slashed(stack) == Slashed(low) + ("/" + top);
      assert stack == low + [top];
    }
  }

  lemma {:induction false} FoldOfPlain(stack: seq<string>, names: seq<string>)
    requires AllPlain(names)
    ensures Fold(stack, names) == stack + names
    decreases |names|
  {
    if names != [] {
      FoldOfPlain(stack + [names[0]], names[1..]);
      assert stack + names == stack + [names[0]] + names[1..];
    }
  }

  /** What wash_path prints. */
  function Washed(path: string): string {
    Print(Fold([], Components(path)))
  }

  /** A washed path starts at the root, its components are exactly the stack it stands for,
      none of them empty, "." or "..", and washing again changes nothing. */
  lemma WashedIsClean(path: string)
    ensures Components(Washed(path)) == Fold([], Components(path)) && AllPlain(Components(Washed(path)))
    ensures Washed(Washed(path)) == Washed(path)
    ensures |Washed(path)| > 0 && Washed(path)[0] == '/'
  {
    ComponentsAreNames(path);
    var stack := Fold([], Components(path));
    FoldPlain([], Components(path));
    ComponentsOfPrint(stack);
    FoldOfPlain([], stack);
    assert [] + stack == stack;
    if stack != [] { SlashedStartsWithSlash(stack); }
  }

  function Weight(names: seq<string>): nat {
    if names == [] then 0 else 1 + |names[0]| + Weight(names[1..])
  }

  lemma {:induction false} FoldWeight(stack: seq<string>, names: seq<string>)
    ensures |Slashed(Fold(stack, names))| <= |Slashed(stack)| + Weight(names)
    decreases |names|
  {
    if names != [] {
      FoldWeight(Push(stack, names[0]), names[1..]);
      assert (stack + [names[0]])[..|stack|] == stack;
    }
  }

  lemma {:induction false} ComponentsWeight(s: string)
    ensures Weight(Components(s)) <= |s| + (if s != "" && s[0] != '/' then 1 else 0)
    decreases |s|
  {
    if s != "" {
      if s[0] == '/' {
        ComponentsWeight(s[1..]);
        if s[1..] != "" && s[1] != '/' { assert Components(s) == Components(s[1..]); }
      } else {
        var n := NameLen(s);
        ComponentsWeight(s[n..]);
        assert Components(s)[1..] == Components(s[n..]);
      }
    }
  }

  lemma PushSize(stack: seq<string>, name: string)
    ensures |Slashed(Push(stack, name))| <= |Slashed(stack)| + 1 + |name|
  {
    assert (stack + [name])[..|stack|] == stack;
  }

  /** wash_path: the path with "." and ".." resolved, computed by editing the output buffer,
      which never needs more room than the input. */
  method WashPath(old_path: string) returns (out: string)
    requires |old_path| > 0 && old_path[0] == '/' && Fits(old_path)
    ensures out == Print(Fold([], Components(old_path)))
  {
    hide Fold, Slashed, Weight, Push, Components, Fits;
    var name, rest := PathParse(old_path);
    WashStart(Components(old_path), old_path);
    if name == "" {
      return "/";
    }
    out := "/";
    ghost var stack := [];
    while name != ""
      invariant rest.Some? ==> Fits(rest.value)
      invariant AllPlain(stack) && out == Print(stack)
      invariant name != "" ==> IsName(name)
      invariant |Slashed(stack)| + Weight(Todo(name, rest)) <= |old_path|
      invariant name == "" ==> rest == None
      invariant Fold([], Components(old_path)) == Fold(stack, Todo(name, rest))
      decreases name != "", if rest.Some? then |rest.value| + 1 else 0
    {
      ghost var left := if rest.Some? then Components(rest.value) else [];
      WashStep(stack, name, left);
      if name == ".." {
        out := CutLast(out, stack);
      } else if name != "." {
        out := AppendName(out, name, stack);
      }
      stack := Push(stack, name);
      PrintSize(stack);
      assert |out| <= |old_path|;
      name := "";
      if rest.Some? {
        name, rest := PathParse(rest.value);
      }
      assert Todo(name, rest) == left;
    }
    FoldNone(stack);
  }

  /** The components still to be read. */
  ghost function Todo(name: string, rest: Option<string>): seq<string> {
    if name == "" then [] else [name] + (if rest.Some? then Components(rest.value) else [])
  }

  lemma WashStart(names: seq<string>, path: string)
    requires |path| > 0 && path[0] == '/' && names == Components(path)
    ensures Weight(names) <= |path| && Slashed([]) == "" && (names == [] ==> Fold([], names) == [])
  {
    ComponentsWeight(path);
  }

  lemma FoldNone(stack: seq<string>)
    ensures Fold(stack, []) == stack
  {
  }

  lemma PrintSize(stack: seq<string>)
    ensures |Print(stack)| <= |Slashed(stack)| + 1 && (stack != [] ==> |Print(stack)| == |Slashed(stack)|)
  {
  }

  /** One round of wash_path on the stack. */
  lemma WashStep(stack: seq<string>, name: string, left: seq<string>)
    requires AllPlain(stack) && IsName(name)
    ensures Fold(stack, [name] + left) == Fold(Push(stack, name), left) && AllPlain(Push(stack, name))
    ensures Weight([name] + left) == 1 + |name| + Weight(left) && |Slashed(Push(stack, name))| <= |Slashed(stack)| + 1 + |name|
    ensures name == "." ==> Push(stack, name) == stack
  {
    assert ([name] + left)[1..] == left;
    PushSize(stack, name);
  }

  /** The output of wash_path fits wherever its input fits. */
  lemma WashedIsShorter(path: string)
    requires |path| > 0 && path[0] == '/'
    ensures |Washed(path)| <= |path|
  {
    FoldWeight([], Components(path));
    ComponentsWeight(path);
  }

  /** A string built in a buffer, unless it outgrows it. */
  datatype Text = TextOverrun | Text(s: string)

  /** make_clear_abs_path: an absolute path as it is, a relative one behind the working
      directory.  The 512-byte buffer for it overruns exactly when the path does not fit; the
      washed path then always fits its own. */
  method MakeClearAbsPath(path: string, cwd: string) returns (out: Text)
    requires |cwd| > 0 && cwd[0] == '/'
    requires Fits(Absolute(path, cwd))
    ensures out == if |Absolute(path, cwd)| >= MAX_PATH_LEN then TextOverrun else Text(Washed(Absolute(path, cwd)))
    ensures out.Text? ==> |out.s| < MAX_PATH_LEN
  {
    var abs := "";
    if path == "" || path[0] != '/' {
      abs := cwd;
      if abs != "/" {
        abs := abs + "/";
      }
    }
    abs := abs + path;
    assert abs == Absolute(path, cwd);
    if |abs| >= MAX_PATH_LEN {
      return TextOverrun;
    }
    WashedIsShorter(abs);
    var washed := WashPath(abs);
    return Text(washed);
  }

  function Absolute(path: string, cwd: string): string {
    if path != "" && path[0] == '/' then path
    else if cwd == "/" then cwd + path
    else cwd + "/" + path
  }

  /** The components of a relative path come behind those of the working directory. */
  lemma RelativeComponents(path: string, stack: seq<string>)
    requires AllPlain(stack) && (path == "" || path[0] != '/')
    ensures Components(Absolute(path, Print(stack))) == stack + Components(path)
  {
    PrintRoot(stack);
    ComponentsOfPrint(stack);
    assert ("/" + path)[1..] == path;
    if stack != [] {
      ComponentsAppend(Slashed(stack), "/" + path);
      assert Slashed(stack) + "/" + path == Slashed(stack) + ("/" + path);
    }
  }

  /** A relative path acts on the stack of the working directory. */
  lemma RelativePath(path: string, stack: seq<string>)
    requires AllPlain(stack) && (path == "" || path[0] != '/')
    ensures Washed(Absolute(path, Print(stack))) == Print(Fold(stack, Components(path)))
  {
    RelativeComponents(path, stack);
    FoldAppend([], stack, Components(path));
    FoldOfPlain([], stack);
    assert [] + stack == stack;
  }
}
