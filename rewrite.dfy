/** The rewriting of libtool (.la) and pkg-config (.pc) files in
    muddled/rewrite.py, so that later packages find the libraries of a
    build tree where they were installed. The file is read as its lines
    and written back as the rewritten lines. */
module Rewrite {
  import opened Wrappers
  import opened Text
  import Utils

  // ---------------------------------------------------------------------
  // One `key=value` line

  /** parse_line: the text before and after the first '=', or nothing
      when the line has no '='. */
  function ParseLine(l: string): (r: Option<(string, string)>)
    ensures r.None? <==> '=' !in l
    ensures r.Some? ==> '=' !in r.value.0 && r.value.0 + "=" + r.value.1 == l
  {
    var idx := Find(l, '=');
    if idx < 0 then None
    else
      assert l == l[..idx] + "=" + l[idx + 1..];
      Some((l[..idx], l[idx + 1..]))
  }

  /** A key without '=' and any value read back as that key and value. */
  lemma ParseLineJoin(key: string, value: string)
    requires '=' !in key
    ensures ParseLine(key + "=" + value) == Some((key, value))
  {
    assert key + "=" + value == key + ("=" + value);
    FindAfterFree(key, "=" + value, '=');
  }

  /** The line `key=value` as the rewriters write it. */
  function Setting(key: string, value: string): string {
    key + "=" + value + "\n"
  }

  /** os.path.join(dir, "lib"), the library directory when none is given. */
  function LibPathOr(dir: string, libPath: Option<string>): string {
    if libPath.Some? then libPath.value else Utils.PosixJoin(dir, "lib")
  }

  // ---------------------------------------------------------------------
  // Paths in dependency_libs

  /** The text has two slashes in a row. */
  predicate HasDoubleSlash(s: string) {
    exists i | 0 <= i < |s| - 1 :: s[i] == '/' && s[i + 1] == '/'
  }

  /** re.sub('//', '/', s): every pair of slashes, taken from the left
      without overlap, becomes one. */
  function Collapse(s: string): (r: string)
    ensures |r| <= |s|
    decreases |s|
  {
    if |s| >= 2 && s[0] == '/' && s[1] == '/' then "/" + Collapse(s[2..])
    else if s == [] then []
    else [s[0]] + Collapse(s[1..])
  }

  /** Collapsing changes the text exactly when it holds two slashes in a
      row, and then it shortens it. */
  lemma {:induction false} CollapseShortens(s: string)
    ensures HasDoubleSlash(s) <==> |Collapse(s)| < |s|
    ensures !HasDoubleSlash(s) ==> Collapse(s) == s
    decreases |s|
  {
    if |s| >= 2 && s[0] == '/' && s[1] == '/' {
      assert s[0] == '/' && s[1] == '/';
    } else if s != [] {
      var t := s[1..];
      CollapseShortens(t);
      if HasDoubleSlash(t) {
        var i :| 0 <= i < |t| - 1 && t[i] == '/' && t[i + 1] == '/';
        assert s[i + 1] == '/' && s[i + 2] == '/';
      }
      if HasDoubleSlash(s) {
        var i :| 0 <= i < |s| - 1 && s[i] == '/' && s[i + 1] == '/';
        assert i > 0;
        assert t[i - 1] == '/' && t[i] == '/';
      }
    }
  }

  /** The text is made of slashes only. */
  predicate AllSlashes(s: string) { forall i | 0 <= i < |s| :: s[i] == '/' }

  /** rstrip('/'). */
  function StripSlashes(s: string): (r: string)
    ensures |r| <= |s| && r == s[..|r|]
    ensures r == [] || r[|r| - 1] != '/'
  {
    if s != [] && s[|s| - 1] == '/' then StripSlashes(s[..|s| - 1]) else s
  }

  /** os.path.dirname for POSIX paths: everything up to the last '/',
      without its trailing slashes unless it is nothing but slashes. */
  function Dirname(p: string): (r: string)
    ensures '/' !in p ==> r == ""
    ensures |r| <= |p| && r == p[..|r|]
  {
    var head := p[..LastIndex(p, '/') + 1];
    assert head[..|head|] == head;
    if head != "" && !AllSlashes(head) then StripSlashes(head) else head
  }

  /** A directory that does not end in '/' and is not all slashes is the
      dirname of any name joined to it. */
  lemma DirnameOfJoin(d: string, name: string)
    requires !AllSlashes(d) && d[|d| - 1] != '/' && '/' !in name
    ensures Dirname(d + "/" + name) == d
  {
    var p := d + "/" + name;
    LastIndexAppend(d + "/", name, '/');
    assert (d + "/")[..|d + "/"| - 1] == d;
    assert LastIndex(d + "/", '/') == |d|;
    assert p == (d + "/") + name;
    assert p[..|d| + 1] == d + "/";
    assert StripSlashes(d + "/") == StripSlashes(d) == d;
    assert !AllSlashes(d + "/") by { var i :| 0 <= i < |d| && d[i] != '/'; assert (d + "/")[i] == d[i]; }
  }

  /** The library directories that belong to the build tree. */
  predicate IsLibDir(d: string) { d == "/lib" || d == "//lib" || d == "/usr/lib" || d == "//usr/lib" }

  /** The rewriting of one dependency_libs entry: its double slashes are
      collapsed, and one in a library directory of the tree is moved under
      `dir` (collapsing again). */
  function RewriteDep(dir: string, entry: string): (r: string)
    ensures IsLibDir(Dirname(Collapse(entry))) ==> r == Collapse(dir + "/" + Collapse(entry))
    ensures !IsLibDir(Dirname(Collapse(entry))) ==> r == Collapse(entry)
  {
    var v := Collapse(entry);
    if IsLibDir(Dirname(v)) then Collapse(dir + "/" + v) else v
  }

  /** A library in /lib moves under the tree (the '/' put between the
      two doubles the leading one, and is collapsed with the rest). */
  lemma RewriteDepLib(dir: string, name: string)
    requires |name| > 0 && '/' !in name
    ensures RewriteDep(dir, "/lib/" + name) == Collapse(dir + "//lib/" + name)
  {
    LibSlash(name);
    LibEntryPlain(name);
    LibEntryDir(name);
    assert IsLibDir("/lib");
    assert dir + "/" + ("/lib/" + name) == dir + "//lib/" + name;
  }

  lemma LibSlash(name: string)
    ensures "/lib/" + name == "/lib" + "/" + name
  {
    assert "/lib/" == "/lib" + "/";
  }

  /** "/lib/name" has nothing to collapse. */
  lemma LibEntryPlain(name: string)
    requires '/' !in name
    ensures Collapse("/lib" + "/" + name) == "/lib" + "/" + name
  {
    var e := "/lib" + "/" + name;
    forall i | 0 <= i < |e| - 1
      ensures !(e[i] == '/' && e[i + 1] == '/')
    {
      if i >= 4 {
        assert e[i + 1] == name[i - 4];
      } else {
        assert e[i + 1] in "lib/";
      }
    }
    CollapseShortens(e);
  }

  /** "/lib/name" lies in /lib. */
  lemma LibEntryDir(name: string)
    requires '/' !in name
    ensures Dirname("/lib" + "/" + name) == "/lib"
  {
    LibNotSlashes();
    DirnameOfJoin("/lib", name);
  }

  lemma LibNotSlashes()
    ensures !AllSlashes("/lib") && "/lib"[|"/lib"| - 1] != '/'
  {
    assert "/lib"[1] == 'l';
  }

  /** An entry outside the library directories, without a double slash,
      is left alone. */
  lemma RewriteDepOther(dir: string, entry: string)
    requires !HasDoubleSlash(entry) && !IsLibDir(Dirname(entry))
    ensures RewriteDep(dir, entry) == entry
  {
    CollapseShortens(entry);
  }

  function RewriteDeps(dir: string, entries: seq<string>): (r: seq<string>)
    ensures |r| == |entries|
    ensures forall i | 0 <= i < |entries| :: r[i] == RewriteDep(dir, entries[i])
  {
    if entries == [] then [] else [RewriteDep(dir, entries[0])] + RewriteDeps(dir, entries[1..])
  }

  // ---------------------------------------------------------------------
  // subst_la

  /** What subst_la makes of one line of a .la file: `libdir` is set to
      the library path, the entries of `dependency_libs` are rewritten and
      quoted again, and every other line stays as it is. The entries are
      read with unquote_list as corrected (an escaped space stays in its
      entry); an empty dependency list is its IndexError. */
  function LaLine(l: string, dir: string, libPath: string): Result<string> {
    match ParseLine(l)
    case None => Ok(l)
    case Some((key, value)) =>
      if key == "libdir" then Ok(Setting("libdir", libPath))
      else if key == "dependency_libs" then
        match Utils.UnquoteKept(value)
        case Err(e) => Err(e)
        case Ok(elems) => Ok(Setting("dependency_libs", "'" + Utils.QuoteList(RewriteDeps(dir, elems)) + "'"))
      else Ok(l)
  }

  /** The cases of LaLine. */
  lemma LaLineCases(l: string, dir: string, libPath: string)
    ensures ParseLine(l).None? ==> LaLine(l, dir, libPath) == Ok(l)
    ensures ParseLine(l).Some? && ParseLine(l).value.0 == "libdir" ==>
      LaLine(l, dir, libPath) == Ok(Setting("libdir", libPath))
    ensures ParseLine(l).Some? && ParseLine(l).value.0 == "dependency_libs" ==>
      (LaLine(l, dir, libPath).Err? <==> Strip(ParseLine(l).value.1) == [])
    ensures ParseLine(l).Some? && ParseLine(l).value.0 != "libdir" && ParseLine(l).value.0 != "dependency_libs" ==>
      LaLine(l, dir, libPath) == Ok(l)
  {
  }

  /** The results of LaLine, line by line. */
  function LaResults(lines: seq<string>, dir: string, libPath: string): (r: seq<Result<string>>)
    ensures |r| == |lines|
  {
    seq(|lines|, i requires 0 <= i < |lines| => LaLine(lines[i], dir, libPath))
  }

  /** The values of a row of results, or the first error among them. */
  function Gather(rs: seq<Result<string>>): (r: Result<seq<string>>)
    ensures r.Ok? ==> |r.value| == |rs|
    decreases |rs|
  {
    if rs == [] then Ok([])
    else match Gather(rs[..|rs| - 1])
      case Err(e) => Err(e)
      case Ok(done) =>
        match rs[|rs| - 1]
        case Err(e) => Err(e)
        case Ok(v) => Ok(done + [v])
  }

  /** Gather succeeds exactly when every result does, and then keeps the
      values in order. */
  lemma {:induction false} GatherEach(rs: seq<Result<string>>)
    ensures Gather(rs).Ok? <==> forall i | 0 <= i < |rs| :: rs[i].Ok?
    ensures Gather(rs).Ok? ==> forall i | 0 <= i < |rs| :: Gather(rs).value[i] == rs[i].value
    decreases |rs|
  {
    if rs != [] {
      var n := |rs| - 1;
      var init := rs[..n];
      GatherEach(init);
      assert forall i | 0 <= i < n :: init[i] == rs[i];
      if Gather(init).Err? {
        var i :| 0 <= i < n && !init[i].Ok?;
        assert !rs[i].Ok?;
      }
    }
  }

  /** Gather fails with the first error: the one of the first result that
      is not Ok. */
  lemma {:induction false} GatherFirstError(rs: seq<Result<string>>, k: nat)
    requires k < |rs| && Gather(rs[..k]).Ok? && rs[k].Err?
    ensures Gather(rs) == Err(rs[k].error)
    decreases |rs|
  {
    var n := |rs| - 1;
    var init := rs[..n];
    if k == n {
      assert init == rs[..k];
    } else {
      assert init[..k] == rs[..k];
      assert init[k] == rs[k];
      GatherFirstError(init, k);
    }
  }

  /** So the error is that of a result before which every result is Ok. */
  lemma FirstErrorFirst(rs: seq<Result<string>>, k: nat)
    requires k < |rs| && Gather(rs[..k]).Ok? && rs[k].Err?
    ensures Gather(rs) == Err(rs[k].error) && forall j | 0 <= j < k :: rs[j].Ok?
  {
    GatherFirstError(rs, k);
    GatherEach(rs[..k]);
    assert forall j | 0 <= j < k :: rs[..k][j] == rs[j];
  }

  /** subst_la over the lines of the file: the rewritten lines, or the
      error of the first line that cannot be rewritten. */
  method SubstLa(lines: seq<string>, dir: string, libPath: Option<string>) returns (r: Result<seq<string>>)
    ensures r == Gather(LaResults(lines, dir, LibPathOr(dir, libPath)))
  {
    var path := LibPathOr(dir, libPath);
    ghost var rs := LaResults(lines, dir, path);
    var out: seq<string> := [];
    var i := 0;
    while i < |lines|
      invariant 0 <= i <= |lines|
      invariant Gather(rs[..i]) == Ok(out)
    {
      var l := LaLine(lines[i], dir, path);
      assert rs[i] == l;
      if l.Err? {
        GatherFirstError(rs, i);
        return Err(l.error);
      }
      assert rs[..i + 1][..i] == rs[..i];
      out := out + [l.value];
      i := i + 1;
    }
    assert rs[..i] == rs;
    return Ok(out);
  }

  /** Rewriting the libdir line a second time changes nothing. */
  lemma LaLibdirStable(dir: string, libPath: string)
    ensures LaLine(Setting("libdir", libPath), dir, libPath) == Ok(Setting("libdir", libPath))
  {
    ParseLineJoin("libdir", libPath + "\n");
    assert Setting("libdir", libPath) == "libdir" + "=" + (libPath + "\n");
    LaLineCases(Setting("libdir", libPath), dir, libPath);
  }

  // ---------------------------------------------------------------------
  // subst_pc

  /** What subst_pc makes of one line of a .pc file: `prefix`, `libdir`
      and `exec_prefix` are set, `includedir` only when an include path is
      given, and every other line stays as it is. */
  function PcLine(l: string, dir: string, libPath: string, includePath: Option<string>, execPrefix: string): string {
    match ParseLine(l)
    case None => l
    case Some((key, _)) =>
      if key == "prefix" then Setting("prefix", dir)
      else if key == "libdir" then Setting("libdir", libPath)
      else if key == "exec_prefix" then Setting("exec_prefix", execPrefix)
      else if includePath.Some? && key == "includedir" then Setting("includedir", includePath.value)
      else l
  }

  /** The cases of PcLine. */
  lemma PcLineCases(l: string, dir: string, libPath: string, includePath: Option<string>, execPrefix: string)
    ensures ParseLine(l).None? ==> PcLine(l, dir, libPath, includePath, execPrefix) == l
    ensures ParseLine(l).Some? ==>
      var key := ParseLine(l).value.0;
      var r := PcLine(l, dir, libPath, includePath, execPrefix);
      && (key == "prefix" ==> r == Setting("prefix", dir))
      && (key == "libdir" ==> r == Setting("libdir", libPath))
      && (key == "exec_prefix" ==> r == Setting("exec_prefix", execPrefix))
      && (key == "includedir" && includePath.Some? ==> r == Setting("includedir", includePath.value))
      && (key !in {"prefix", "libdir", "exec_prefix", "includedir"} ==> r == l)
      && (key == "includedir" && includePath.None? ==> r == l)
  {
  }

  /** The rewritten lines of a .pc file. */
  function PcLines(lines: seq<string>, dir: string, libPath: string, includePath: Option<string>, execPrefix: string): (r: seq<string>)
    ensures |r| == |lines|
  {
    seq(|lines|, i requires 0 <= i < |lines| => PcLine(lines[i], dir, libPath, includePath, execPrefix))
  }

  /** subst_pc over the lines of the file; the exec prefix defaults to
      `dir`. */
  method SubstPc(lines: seq<string>, dir: string, libPath: Option<string>, includePath: Option<string>,
                 execPrefix: Option<string>) returns (r: seq<string>)
    ensures r == PcLines(lines, dir, LibPathOr(dir, libPath), includePath,
                         if execPrefix.Some? then execPrefix.value else dir)
  {
    var path := LibPathOr(dir, libPath);
    var exec := if execPrefix.Some? then execPrefix.value else dir;
    r := [];
    var i := 0;
    while i < |lines|
      invariant 0 <= i <= |lines| && |r| == i
      invariant forall k | 0 <= k < i :: r[k] == PcLine(lines[k], dir, path, includePath, exec)
    {
      r := r + [PcLine(lines[i], dir, path, includePath, exec)];
      i := i + 1;
    }
  }

  /** Rewriting a .pc line that has already been rewritten changes
      nothing. */
  lemma PcLineStable(l: string, dir: string, libPath: string, includePath: Option<string>, execPrefix: string)
    ensures PcLine(PcLine(l, dir, libPath, includePath, execPrefix), dir, libPath, includePath, execPrefix)
            == PcLine(l, dir, libPath, includePath, execPrefix)
  {
    var r := PcLine(l, dir, libPath, includePath, execPrefix);
    if r != l {
      var key := ParseLine(l).value.0;
      var value := if key == "prefix" then dir else if key == "libdir" then libPath
                   else if key == "exec_prefix" then execPrefix else includePath.value;
      assert r == key + "=" + (value + "\n");
      ParseLineJoin(key, value + "\n");
    }
  }

  /** subst_pc is idempotent: a second run leaves the file as the first
      one wrote it. */
  lemma SubstPcIdempotent(lines: seq<string>, dir: string, libPath: string,
                          includePath: Option<string>, execPrefix: string)
    ensures PcLines(PcLines(lines, dir, libPath, includePath, execPrefix), dir, libPath, includePath, execPrefix)
            == PcLines(lines, dir, libPath, includePath, execPrefix)
  {
    var once := PcLines(lines, dir, libPath, includePath, execPrefix);
    forall i | 0 <= i < |lines|
      ensures PcLine(once[i], dir, libPath, includePath, execPrefix) == once[i]
    {
      PcLineStable(lines[i], dir, libPath, includePath, execPrefix);
    }
  }
}
