// File::mkdirp: a path buffer that is cut and restored in place, against a tree of directories.
module Mkdirp {

  datatype Option<T> = None | Some(value: T)

  // A C string up to its terminator.
  type CString = s: string | '\0' !in s witness ""

  // The names on the way from the root.
  type Path = seq<string>

  const PATH_BUFFER: nat := 256

  // What lfs_mkdir and mkdirp return; Fault stands for every other error, such as a full or
  // failing device.
  datatype Result = Ok | Exist | NotDir | NoEnt | Inval | Fault

  // ---- Paths ----

  // A path read up to some point: the names that a slash has closed, and the one still open.
  datatype Scan = Scan(closed: Path, name: string)

  function ScanOf(s: string): Scan
    decreases |s|
  {
    if s == "" then Scan([], "")
    else
      var r := ScanOf(s[..|s| - 1]);
      if s[|s| - 1] == '/' then Scan(Whole(r), "") else Scan(r.closed, r.name + [s[|s| - 1]])
  }

  function Whole(r: Scan): Path {
    if r.name == "" then r.closed else r.closed + [r.name]
  }

  function Components(s: string): Path { Whole(ScanOf(s)) }

  function LastSlash(s: string): (r: int)
    ensures -1 <= r < |s| && (r >= 0 ==> s[r] == '/')
    ensures forall i :: r < i < |s| ==> s[i] != '/'
    decreases |s|
  {
    if s == "" then -1 else if s[|s| - 1] == '/' then |s| - 1 else LastSlash(s[..|s| - 1])
  }

  // What is created for a path: everything before its last slash, or the whole path if that slash
  // is the leading one.
  function Target(s: string): string {
    if LastSlash(s) > 0 then s[..LastSlash(s)] else s
  }

  // The part of a path that fits the buffer.
  function Truncated(s: CString): CString {
    if |s| < PATH_BUFFER then s else s[..PATH_BUFFER - 1]
  }

  // The directories asked for while the buffer is read up to n, and those asked for in all.
  function Cuts(s: string, n: nat): seq<Path>
    requires n <= |s|
  {
    if n <= 1 then []
    else Cuts(s, n - 1) + if s[n - 1] == '/' then [Components(s[..n - 1])] else []
  }

  function Requests(s: string): seq<Path> { Cuts(s, |s|) + [Components(s)] }

  lemma ScanNext(s: string, n: nat)
    requires n < |s|
    ensures ScanOf(s[..n + 1]) ==
      if s[n] == '/' then Scan(Components(s[..n]), "") else Scan(ScanOf(s[..n]).closed, ScanOf(s[..n]).name + [s[n]])
  {
    assert s[..n + 1][..n] == s[..n];
  }

  lemma ScanFirst(s: string)
    requires s != "" && s[0] == '/'
    ensures ScanOf(s[..1]) == Scan([], "")
  {
    assert s[..1][..0] == "";
  }

  lemma {:induction false} ClosedGrows(s: string, p: nat, q: nat)
    requires p <= q <= |s|
    ensures ScanOf(s[..p]).closed <= ScanOf(s[..q]).closed && Cuts(s, p) <= Cuts(s, q)
    decreases q
  {
    if p < q {
      ScanNext(s, q - 1);
      ClosedGrows(s, p, q - 1);
    }
  }

  // At a slash, what is before it is on the way to the whole path.
  lemma Reached(s: string, p: nat)
    requires 1 <= p < |s| && s[p] == '/'
    ensures Components(s[..p]) <= Components(s)
    ensures ScanOf(s[..p]).closed == Components(s)[..|ScanOf(s[..p]).closed|]
    ensures Cuts(s, p) + [Components(s[..p])] <= Requests(s)
  {
    hide ScanOf, Cuts;
    ScanNext(s, p);
    CutsNext(s, p);
    ClosedGrows(s, p + 1, |s|);
    assert s[..|s|] == s;
    var before, after := Components(s[..p]), Components(s);
    assert before == after[..|before|];
  }

  lemma CutsFirst(s: string)
    requires s != ""
    ensures Cuts(s, 1) == []
  {
  }

  lemma CutsNext(s: string, p: nat)
    requires 1 <= p < |s|
    ensures Cuts(s, p + 1) == if s[p] == '/' then Cuts(s, p) + [Components(s[..p])] else Cuts(s, p)
  {
    assert forall c: seq<Path> :: c + [] == c;
  }

  // The target is the path without its file name, except that a file name right after the leading
  // slash is itself created, against the intent the source's comments state.
  lemma TargetDropsName(s: string)
    requires s != "" && s[0] == '/'
    ensures var name := s[LastSlash(s) + 1..];
      var named := if name == "" then [] else [name];
      if LastSlash(s) > 0 then Components(s) == Components(Target(s)) + named
      else Target(s) == s && Components(s) == named
  {
    hide ScanOf, Components, LastSlash;
    var k := LastSlash(s);
    AfterSlash(s, k);
    if k > 0 {
      if s[k + 1..] == "" {
        assert Components(s[..k]) + [] == Components(s[..k]);
      }
    } else {
      NoComponents(s[..0]);
      assert [] + [s[1..]] == [s[1..]];
    }
  }

  lemma AfterSlash(s: string, k: nat)
    requires k < |s| && s[k] == '/' && forall i :: k < i < |s| ==> s[i] != '/'
    ensures Components(s) == if s[k + 1..] == "" then Components(s[..k]) else Components(s[..k]) + [s[k + 1..]]
  {
    hide ScanOf;
    NameAfter(s, k, |s|);
    assert s[..|s|] == s;
  }

  lemma NoComponents(s: string)
    requires s == ""
    ensures Components(s) == []
  {
  }

  lemma {:induction false} NameAfter(s: string, k: nat, n: nat)
    requires k < n <= |s| && s[k] == '/' && forall i :: k < i < n ==> s[i] != '/'
    ensures ScanOf(s[..n]) == Scan(Components(s[..k]), s[k + 1..n])
    decreases n
  {
    ScanNext(s, n - 1);
    if n > k + 1 {
      NameAfter(s, k, n - 1);
      assert s[k + 1..n] == s[k + 1..n - 1] + [s[n - 1]];
    }
  }

  // Cutting a path to the buffer leaves its target alone exactly if it fits, its last slash does and
  // is not the leading one, or its target fits as a single name.
  lemma TruncationHarmless(s: CString)
    requires s != "" && s[0] == '/'
    ensures Target(Truncated(s)) == Target(s) <==>
      || |s| < 256
      || 0 < LastSlash(s) < 255
      || (LastSlash(s) == 255 && LastSlash(s[..255]) == 0)
  {
    if |s| >= PATH_BUFFER {
      var t := Truncated(s);
      var k, j := LastSlash(s), LastSlash(t);
      assert t[0] == '/';
      if k < PATH_BUFFER - 1 {
        assert t[k] == '/' && j == k;
        assert k > 0 ==> t[..k] == s[..k];
      } else {
        assert |Target(t)| <= PATH_BUFFER - 1 && |Target(s)| == k;
        assert k == PATH_BUFFER - 1 ==> s[..k] == t;
      }
    }
  }

  // An absolute path without empty names and without a slash at its end.
  predicate Normalised(s: string) {
    && s != "" && s[0] == '/' && s[|s| - 1] != '/'
    && forall i :: 0 <= i < |s| - 1 && s[i] == '/' ==> s[i + 1] != '/'
  }

  // Names are never empty and hold no slash.
  lemma {:induction false} NamesAreProper(s: string)
    ensures var r := ScanOf(s);
      '/' !in r.name && forall i :: 0 <= i < |r.closed| ==> r.closed[i] != "" && '/' !in r.closed[i]
    ensures forall i :: 0 <= i < |Components(s)| ==> Components(s)[i] != "" && '/' !in Components(s)[i]
    decreases |s|
  {
    if s != "" {
      NamesAreProper(s[..|s| - 1]);
    }
  }

  // The absolute path of a series of names.
  function Joined(p: Path): string
    decreases |p|
  {
    if p == [] then "" else Joined(p[..|p| - 1]) + "/" + p[|p| - 1]
  }

  // A path read up to some point, written out again.
  function Rendered(r: Scan): string { Joined(r.closed) + "/" + r.name }

  lemma RenderNext(r: Scan, c: char)
    ensures Rendered(Scan(r.closed, r.name + [c])) == Rendered(r) + [c]
    ensures r.name != "" ==> Rendered(Scan(Whole(r), "")) == Rendered(r) + "/"
  {
    if r.name != "" {
      assert Whole(r)[..|Whole(r)| - 1] == r.closed;
    }
  }

  // The names of a normalised path are what its slashes separate: joined, they are the path again.
  lemma JoinsBack(s: string)
    requires Normalised(s)
    ensures Joined(Components(s)) == s
  {
    JoinsScan(s, |s|);
    assert s[..|s|] == s;
    var p, r := Components(s), ScanOf(s);
    assert p[..|p| - 1] == r.closed;
  }

  lemma {:induction false} JoinsScan(s: string, n: nat)
    requires Normalised(s) && 0 < n <= |s|
    ensures s[..n] == Rendered(ScanOf(s[..n])) && (ScanOf(s[..n]).name == "" <==> s[n - 1] == '/')
    decreases n
  {
    ScanNext(s, n - 1);
    if n > 1 {
      hide ScanOf, Rendered, Whole;
      JoinsScan(s, n - 1);
      RenderNext(ScanOf(s[..n - 1]), s[n - 1]);
      assert s[..n] == s[..n - 1] + [s[n - 1]];
      assert s[n - 1] == '/' ==> s[n - 2] != '/';
    } else {
      assert s[..0] == "" && s[..1] == "/";
    }
  }

  // A slash after a slash, or at the end, does not matter.
  lemma ExtraSlash(s: string, n: nat)
    requires 0 < n <= |s| && (s[n - 1] == '/' || n == |s|)
    ensures Components(s[..n] + "/" + s[n..]) == Components(s)
  {
    var t := s[..n] + "/" + s[n..];
    assert t[..n] == s[..n];
    ScanNext(t, n);
    if n == |s| {
      assert t[..n + 1] == t && s[..n] == s;
    } else {
      ScanNext(s, n - 1);
      assert t[n + 1..] == s[n..];
      SameTail(s, t, n, n + 1);
    }
  }

  // Two paths read alike up to some point go on alike if they continue alike.
  lemma {:induction false} SameTail(s: string, t: string, n: nat, m: nat)
    requires n <= |s| && m <= |t| && ScanOf(s[..n]) == ScanOf(t[..m]) && s[n..] == t[m..]
    ensures ScanOf(s) == ScanOf(t)
    decreases |s| - n
  {
    hide ScanOf;
    if n == |s| {
      assert m == |t| by { assert |s[n..]| == |t[m..]|; }
      assert s[..n] == s && t[..m] == t;
    } else {
      assert m < |t| by { assert |s[n..]| == |t[m..]|; }
      assert s[n] == s[n..][0] == t[m..][0] == t[m];
      ScanNext(s, n);
      ScanNext(t, m);
      assert s[n + 1..] == s[n..][1..] == t[m..][1..] == t[m + 1..];
      SameTail(s, t, n + 1, m + 1);
    }
  }

  function Ancestors(p: Path, n: nat): seq<Path>
    requires n <= |p|
  {
    if n == 0 then [] else Ancestors(p, n - 1) + [p[..n]]
  }

  // For a normalised path the directories asked for are its ancestors and itself, shortest first,
  // each exactly once.
  lemma NormalisedRequests(s: string)
    requires Normalised(s)
    ensures Requests(s) == Ancestors(Components(s), |Components(s)|)
    ensures |Components(s)| > 0
  {
    CutsAreAncestors(s, |s|);
    assert s[..|s|] == s;
    var r := ScanOf(s);
    AncestorsOf(r.closed, Components(s), |r.closed|);
    assert Components(s)[..|r.closed| + 1] == Components(s);
  }

  lemma {:induction false} CutsAreAncestors(s: string, n: nat)
    requires Normalised(s) && 0 < n <= |s|
    ensures var r := ScanOf(s[..n]);
      Cuts(s, n) == Ancestors(r.closed, |r.closed|) && (r.name == "" <==> s[n - 1] == '/')
    decreases n
  {
    ScanNext(s, n - 1);
    if n > 1 {
      CutsAreAncestors(s, n - 1);
      var before := ScanOf(s[..n - 1]);
      if s[n - 1] == '/' {
        assert s[n - 2] != '/';
        AncestorsOf(before.closed, Whole(before), |before.closed|);
        assert Whole(before)[..|before.closed| + 1] == Whole(before);
      }
    } else {
      assert s[..0] == "";
    }
  }

  lemma {:induction false} AncestorsOf(p: Path, q: Path, n: nat)
    requires p <= q && n <= |p|
    ensures Ancestors(p, n) == Ancestors(q, n)
    decreases n
  {
    if n > 0 {
      AncestorsOf(p, q, n - 1);
      assert p[..n] == q[..n];
    }
  }

  // ---- The tree ----

  // The directories once every prefix of a path, except those that are files, is one.
  function Made(dirs: set<Path>, files: set<Path>, p: Path): set<Path> {
    dirs + set i: nat | i <= |p| && p[..i] !in files :: p[..i]
  }

  lemma MadeNext(dirs: set<Path>, files: set<Path>, p: Path, name: string)
    ensures Made(dirs, files, p + [name]) ==
      Made(dirs, files, p) + if p + [name] in files then {} else {p + [name]}
  {
    var q := p + [name];
    assert forall i: nat :: i <= |p| ==> q[..i] == p[..i];
    assert q[..|q|] == q;
  }

  lemma MadeNothing(dirs: set<Path>, files: set<Path>)
    requires [] in dirs
    ensures Made(dirs, files, []) == dirs
  {
    assert forall i: nat, p: Path :: p == [] && i <= |p| ==> p[..i] == [];
  }

  // A second call changes nothing, however far it gets.
  lemma MadeTwice(dirs: set<Path>, files: set<Path>, p: Path, k: nat)
    requires k <= |p|
    ensures var once := Made(dirs, files, p); Made(once, files, p[..k]) == once
  {
    forall i: nat | i <= k && p[..k][..i] !in files ensures p[..k][..i] in Made(dirs, files, p) {
      assert p[..k][..i] == p[..i];
    }
  }

  // Every non-root entry lies in a directory, and nothing is both a directory and a file.
  ghost predicate IsTree(dirs: set<Path>, files: set<Path>) {
    [] in dirs && dirs !! files && forall p :: p in dirs + files && p != [] ==> p[..|p| - 1] in dirs
  }

  lemma TreeBasics(dirs: set<Path>, files: set<Path>)
    requires IsTree(dirs, files)
    ensures [] in dirs && forall p :: p in dirs ==> p !in files
  {
  }

  lemma TreeGrows(dirs: set<Path>, files: set<Path>, p: Path)
    requires IsTree(dirs, files) && p != [] && p[..|p| - 1] in dirs && p !in files
    ensures IsTree(dirs + {p}, files)
  {
    forall q | q in dirs + {p} + files && q != [] ensures q[..|q| - 1] in dirs + {p} {
      assert q == p || q in dirs + files;
    }
  }

  // The prefixes of an entry are directories.
  lemma {:induction false} PrefixIsDir(dirs: set<Path>, files: set<Path>, p: Path, i: nat)
    requires IsTree(dirs, files) && p in dirs + files && i < |p|
    ensures p[..i] in dirs
    decreases |p|
  {
    var parent := p[..|p| - 1];
    if i < |parent| {
      PrefixIsDir(dirs, files, parent, i);
      assert parent[..i] == p[..i];
    }
  }

  // A file among the proper prefixes of a path whose parent is an entry can only be that parent.
  lemma NotDirHere(dirs: set<Path>, files: set<Path>, r: Scan)
    requires IsTree(dirs, files) && r.closed in dirs + files
    requires exists i: nat :: i < |Whole(r)| && Whole(r)[..i] in files
    ensures r.closed in files && r.name != ""
  {
    var p := Whole(r);
    var i: nat :| i < |p| && p[..i] in files;
    hide IsTree;
    TreeBasics(dirs, files);
    if i < |r.closed| {
      assert p[..i] == r.closed[..i];
      PrefixIsDir(dirs, files, r.closed, i);
    } else {
      assert p[..i] == r.closed;
    }
  }

  // ---- The buffer ----

  // The C string that starts a buffer.
  function Str(a: seq<char>): string
    decreases |a|
  {
    if a == [] || a[0] == '\0' then "" else [a[0]] + Str(a[1..])
  }

  lemma {:induction false} StrUpTo(a: seq<char>, n: nat)
    requires n < |a| && a[n] == '\0' && '\0' !in a[..n]
    ensures Str(a) == a[..n]
    decreases n
  {
    if n > 0 {
      assert a[0] in a[..n];
      assert a[1..][..n - 1] == a[..n][1..];
      StrUpTo(a[1..], n - 1);
    }
  }

  class FileSystem {
    var dirs: set<Path>
    var files: set<Path>
    ghost var log: seq<Path>    // the directories that lfs_mkdir was asked for
    ghost var faulted: bool     // some lfs_mkdir failed for reasons of its own

    ghost predicate Valid() reads this { IsTree(dirs, files) }

    constructor ()
      ensures Valid() && dirs == {[]} && files == {} && log == [] && !faulted
    {
      dirs, files, log, faulted := {[]}, {}, [], false;
    }

    // lfs_mkdir: any call may fail for reasons of its own.
    method Mkdir(path: string) returns (result: Result)
      requires Valid()
      modifies this`dirs, this`log, this`faulted
      ensures Valid() && log == old(log) + [Components(path)]
      ensures faulted == (old(faulted) || result == Fault)
      ensures var p := Components(path);
        result == Fault || result ==
          if p in old(dirs) + files then Exist
          else if exists i: nat :: i < |p| && p[..i] in files then NotDir
          else if p[..|p| - 1] !in old(dirs) then NoEnt
          else Ok
      ensures dirs == if result == Ok then old(dirs) + {Components(path)} else old(dirs)
    {
      hide IsTree, ScanOf;
      TreeBasics(dirs, files);
      var p := Components(path);
      log := log + [p];
      var fault: bool := *;
      if fault {
        faulted := true;
        return Fault;
      }
      if p in dirs || p in files {
        return Exist;
      }
      if exists i: nat :: i < |p| && p[..i] in files {
        return NotDir;
      }
      if p[..|p| - 1] !in dirs {
        return NoEnt;
      }
      TreeGrows(dirs, files, p);
      dirs := dirs + {p};
      return Ok;
    }

    // One step of mkdirp: a directory whose parent was asked for before. No step finds its parent
    // missing.
    method MakeNext(path: string, ghost dirs0: set<Path>) returns (result: Result)
      requires Valid() && ScanOf(path).closed in dirs + files
      requires dirs == Made(dirs0, files, ScanOf(path).closed)
      modifies this`dirs, this`log, this`faulted
      ensures Valid() && log == old(log) + [Components(path)]
      ensures faulted == (old(faulted) || result == Fault)
      ensures result == Ok || result == Exist || result == NotDir || result == Fault
      ensures result == Ok || result == Exist ==>
        Components(path) in dirs + files && dirs == Made(dirs0, files, Components(path))
      ensures result == NotDir || result == Fault ==> dirs == old(dirs)
      ensures result == NotDir ==> ScanOf(path).closed in files && ScanOf(path).name != ""
    {
      hide Made, ScanOf, IsTree;
      ghost var r, p := ScanOf(path), Components(path);
      ghost var before := dirs;
      TreeBasics(dirs, files);
      MadeNext(dirs0, files, r.closed, r.name);
      assert r.name != "" ==> p[..|p| - 1] == r.closed == p[..|r.closed|];
      result := Mkdir(path);
      if result == NotDir {
        NotDirHere(before, files, r);
      }
    }

    // Creates the directories of a path's target. `k` is how deep it got, `n` how many directories
    // it asked for.
    method Mkdirp(path: Option<CString>) returns (result: Result, ghost k: nat, ghost n: nat)
      requires Valid()
      modifies this`dirs, this`log, this`faulted
      ensures Valid() && faulted == (old(faulted) || result == Fault)
      ensures path.None? || path.value == "" || path.value[0] != '/' ==>
        result == Inval && dirs == old(dirs) && log == old(log)
      ensures path.Some? && path.value != "" && path.value[0] == '/' ==>
        var target := Target(Truncated(path.value));
        var p := Components(target);
        && k <= |p| && dirs == Made(old(dirs), files, p[..k])
        && n <= |Requests(target)| && log == old(log) + Requests(target)[..n]
        && (result == Ok || result == NotDir || result == Fault)
        && (result == Ok ==> k == |p| && n == |Requests(target)| && (p in dirs <==> p !in files))
        && (result == Ok ==> forall i: nat :: i < |p| ==> p[..i] in dirs)
        && (result == NotDir ==> exists i: nat :: i < |p| && p[..i] in files)
        && (result != Fault ==> (result == Ok <==> forall i: nat :: i < |p| ==> p[..i] !in files))
    {
      k, n := 0, 0;
      if path.None? {
        return Inval, 0, 0;
      }
      if path.value == "" || path.value[0] != '/' {
        return Inval, 0, 0;
      }
      hide Made, Cuts, ScanOf, IsTree, Truncated;
      ghost var s := Truncated(path.value);
      var temp := CopyPath(path.value);
      var lastSlash := FindLastSlash(temp, s);
      if lastSlash > 0 {
        temp[lastSlash] := '\0';
      }
      ghost var target: CString := Target(s);
      assert target == temp[..|target|] && target[0] == '/';
      result, k, n := MakeAll(temp, target);
    }

    // The buffer as strncpy and the final terminator leave it.
    method CopyPath(path: CString) returns (temp: array<char>)
      ensures fresh(temp) && Holds(temp, Truncated(path))
      ensures path != "" ==> Truncated(path) != "" && Truncated(path)[0] == path[0]
    {
      temp := new char[PATH_BUFFER];
      forall i | 0 <= i < PATH_BUFFER - 1 {
        temp[i] := if i < |path| then path[i] else '\0';
      }
      temp[PATH_BUFFER - 1] := '\0';
      assert temp[..|Truncated(path)|] == Truncated(path);
    }

    method FindLastSlash(temp: array<char>, ghost s: CString) returns (lastSlash: int)
      requires Holds(temp, s)
      ensures lastSlash == LastSlash(s)
    {
      lastSlash := -1;
      var p := 0;
      while temp[p] != '\0'
        invariant 0 <= p <= |s| && lastSlash == LastSlash(s[..p])
        decreases |s| - p
      {
        assert s[p] == temp[..|s|][p];
        assert s[..p + 1][..p] == s[..p];
        if temp[p] == '/' {
          lastSlash := p;
        }
        p := p + 1;
      }
      assert s[..p] == s;
    }

    // Creates the target's parents and then the target itself.
    method MakeAll(temp: array<char>, ghost target: CString) returns (result: Result, ghost k: nat, ghost n: nat)
      requires Valid() && target != "" && target[0] == '/'
      requires Holds(temp, target)
      modifies this`dirs, this`log, this`faulted, temp
      ensures Valid() && faulted == (old(faulted) || result == Fault)
      ensures var p := Components(target);
        && k <= |p| && dirs == Made(old(dirs), files, p[..k])
        && n <= |Requests(target)| && log == old(log) + Requests(target)[..n]
        && (result == Ok || result == NotDir || result == Fault)
        && (result == Ok ==> k == |p| && n == |Requests(target)| && (p in dirs <==> p !in files))
        && (result == Ok ==> forall i: nat :: i < |p| ==> p[..i] in dirs)
        && (result == NotDir ==> exists i: nat :: i < |p| && p[..i] in files)
        && (result != Fault ==> (result == Ok <==> forall i: nat :: i < |p| ==> p[..i] !in files))
    {
      hide Made, ScanOf, IsTree, Str, Cuts;
      result, k, n := MakeParents(temp, target);
      if result != Ok {
        return;
      }
      ghost var full, closed := Components(target), ScanOf(target).closed;
      StrUpTo(temp[..], |target|);
      assert temp[..][..|target|] == target;
      result := MakeNext(Str(temp[..]), old(dirs));
      n := |Requests(target)|;
      assert Requests(target)[..n] == Requests(target);
      assert full[..|full|] == full && full[..|closed|] == closed;
      if result == Exist {
        result := Ok;
      }
      if result == Ok {
        k := |full|;
        TreeBasics(dirs, files);
        forall i: nat | i < |full| ensures full[..i] in dirs {
          PrefixIsDir(dirs, files, full, i);
        }
      }
    }

    // Cuts the buffer at each slash in turn, creates what is before it and restores the slash.
    method MakeParents(temp: array<char>, ghost target: CString) returns (result: Result, ghost k: nat, ghost n: nat)
      requires Valid() && target != "" && target[0] == '/'
      requires Holds(temp, target)
      modifies this`dirs, this`log, this`faulted, temp
      ensures Valid() && faulted == (old(faulted) || result == Fault)
      ensures var p := Components(target);
        && k <= |p| && dirs == Made(old(dirs), files, p[..k])
        && n <= |Requests(target)| && log == old(log) + Requests(target)[..n]
        && (result == Ok || result == NotDir || result == Fault)
        && (result == Ok ==> Holds(temp, target) && n == |Cuts(target, |target|)|)
        && (result == Ok ==> p[..k] == ScanOf(target).closed && p[..k] in dirs + files)
        && (result == NotDir ==> exists i: nat :: i < |p| && p[..i] in files)
    {
      hide Made, ScanOf, IsTree, Str, Cuts;
      ScanFirst(target);
      TreeBasics(dirs, files);
      MadeNothing(dirs, files);
      result := Ok;
      var p := 1;
      CutsFirst(target);
      while temp[p] != '\0'
        invariant 1 <= p <= |target| && Holds(temp, target) && result == Ok && faulted == old(faulted)
        invariant Valid() && ScanOf(target[..p]).closed in dirs + files
        invariant dirs == Made(old(dirs), files, ScanOf(target[..p]).closed)
        invariant log == old(log) + Cuts(target, p)
        decreases |target| - p
      {
        ScanNext(target, p);
        CutsNext(target, p);
        if temp[p] == '/' {
          Reached(target, p);
          result := MakeCut(temp, p, target, old(dirs));
          if result != Ok && result != Exist {
            k, n := |ScanOf(target[..p]).closed|, |Cuts(target, p)| + 1;
            assert result == NotDir ==> Components(target)[..k] in files;
            return;
          }
          result := Ok;
          temp[p] := '/';
        }
        p := p + 1;
      }
      assert target[..p] == target;
      k, n := |ScanOf(target).closed|, |Cuts(target, p)|;
      assert Components(target)[..k] == ScanOf(target).closed;
    }

    // Cuts the buffer at p and creates what is before.
    method MakeCut(temp: array<char>, p: nat, ghost target: CString, ghost dirs0: set<Path>) returns (result: Result)
      requires Valid() && Holds(temp, target)
      requires 1 <= p < |target| && target[p] == '/'
      requires ScanOf(target[..p]).closed in dirs + files && dirs == Made(dirs0, files, ScanOf(target[..p]).closed)
      modifies this`dirs, this`log, this`faulted, temp
      ensures Valid() && log == old(log) + [Components(target[..p])]
      ensures faulted == (old(faulted) || result == Fault)
      ensures temp[..] == old(temp[..])[p := '\0']
      ensures result == Ok || result == Exist || result == NotDir || result == Fault
      ensures result == Ok || result == Exist ==>
        var next := Components(target[..p]);
        next in dirs + files && dirs == Made(dirs0, files, next)
      ensures result == NotDir || result == Fault ==> dirs == old(dirs)
      ensures result == NotDir ==> ScanOf(target[..p]).closed in files && ScanOf(target[..p]).name != ""
    {
      hide Made, ScanOf, IsTree, Str;
      temp[p] := '\0';
      assert temp[..][..p] == target[..p];
      StrUpTo(temp[..], p);
      result := MakeNext(Str(temp[..]), dirs0);
    }
  }

  // A buffer that holds a string and its terminator.
  ghost predicate Holds(temp: array<char>, s: CString)
    reads temp
  {
    |s| < temp.Length && temp[..|s|] == s && temp[|s|] == '\0'
  }
}
