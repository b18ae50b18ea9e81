// muddled/cpiofile.py: a hierarchy of files to be packed into a cpio
// archive, changed in place by merging, normalising and erasing, and the
// rendering of an archive in the SVR4 portable ("newc") format described
// in the package-format chapter of the LSB 3.1.0 Core (Generic)
// specification.

module Cpio {
  import opened Wrappers
  import opened Dicts
  import opened Text

  // st_mode bits
  const S_SOCKET: nat := 0xC000  // 0140000
  const S_LINK: nat := 0xA000    // 0120000
  const S_REG: nat := 0x8000     // 0100000
  const S_BLK: nat := 0x6000     // 0060000
  const S_DIR: nat := 0x4000     // 0040000
  const S_CHAR: nat := 0x2000    // 0020000
  const S_SUID: nat := 0x800     // 0004000
  const S_SGID: nat := 0x400     // 0002000
  const S_STICKY: nat := 0x200   // 0001000

  /** The default mode of a new File, 0644. */
  const DefaultMode: nat := 0x1A4
  /** The mode of a directory made up by normalise, 0755 | S_DIR. */
  const DirMode: nat := 0x41ED

  /** mode & S_DIR != 0 */
  predicate IsDir(mode: nat) { (mode / S_DIR) % 2 == 1 }

  lemma DirModeIsDir()
    ensures IsDir(DirMode) && !IsDir(DefaultMode)
  {
  }

  // ---------------------------------------------------------------------
  // os.path.split

  /** p.rfind('/') + 1 */
  function AfterLastSlash(p: string): nat {
    if p == [] then 0 else if p[|p| - 1] == '/' then |p| else AfterLastSlash(p[..|p| - 1])
  }

  /** Where the last slash ends: nothing after it is a slash. */
  lemma {:induction false} AfterLastSlashIs(p: string)
    ensures AfterLastSlash(p) <= |p|
    ensures AfterLastSlash(p) > 0 ==> p[AfterLastSlash(p) - 1] == '/'
    ensures forall j | AfterLastSlash(p) <= j < |p| :: p[j] != '/'
  {
    if p != [] && p[|p| - 1] != '/' {
      AfterLastSlashIs(p[..|p| - 1]);
    }
  }

  predicate AllSlashes(s: string) { forall j | 0 <= j < |s| :: s[j] == '/' }

  /** s.rstrip('/') */
  function StripSlashes(s: string): string {
    if s == [] || s[|s| - 1] != '/' then s else StripSlashes(s[..|s| - 1])
  }

  /** rstrip leaves a prefix that does not end in '/'. */
  lemma {:induction false} StripSlashesIs(s: string)
    ensures |StripSlashes(s)| <= |s| && StripSlashes(s) == s[..|StripSlashes(s)|]
    ensures StripSlashes(s) == [] || StripSlashes(s)[|StripSlashes(s)| - 1] != '/'
  {
    if s != [] && s[|s| - 1] == '/' {
      StripSlashesIs(s[..|s| - 1]);
    }
  }

  /** os.path.split: the head, without its trailing slashes unless it is
      nothing but slashes, and the tail after the last slash. */
  function PathSplit(p: string): (string, string) {
    var i := if AfterLastSlash(p) <= |p| then AfterLastSlash(p) else |p|;
    var head := p[..i];
    (if head != [] && !AllSlashes(head) then StripSlashes(head) else head, p[i..])
  }

  /** The tail has no slash, and the head and tail come from the path. */
  lemma PathSplitParts(p: string)
    ensures '/' !in PathSplit(p).1
    ensures var i := |p| - |PathSplit(p).1|;
      0 <= i && PathSplit(p).1 == p[i..] && (i > 0 ==> p[i - 1] == '/')
  {
    AfterLastSlashIs(p);
  }

  /** os.path.dirname */
  function Dirname(p: string): string { PathSplit(p).0 }

  /** A path with a character other than '/' has a shorter directory name;
      any other path is its own directory name. */
  lemma DirnameShorter(p: string)
    ensures AllSlashes(p) ==> Dirname(p) == p
    ensures !AllSlashes(p) ==> |Dirname(p)| < |p|
  {
    AfterLastSlashIs(p);
    var i := AfterLastSlash(p);
    if AllSlashes(p) {
      if p != [] {
        assert p[|p| - 1] == '/';
        assert p[..i] == p;
      }
    } else if i == |p| {
      var head := p[..i];
      assert head == p;
      StripSlashesIs(head);
      var r := StripSlashes(head);
      assert r != head by {
        assert head[|head| - 1] == '/';
      }
    } else {
      StripSlashesIs(p[..i]);
    }
  }

  lemma PathSplitExamples()
    ensures PathSplit("/a/b") == ("/a", "b")
    ensures PathSplit("a") == ("", "a")
  {
    var p := "/a/b";
    assert p[..3] == "/a/" && p[..3][..2] == "/a" && p[3..] == "b";
    assert AfterLastSlash(p[..3]) == 3;
    assert AfterLastSlash(p) == 3;
    assert !AllSlashes("/a/") by { assert "/a/"[1] == 'a'; }
    assert StripSlashes("/a/") == StripSlashes("/a/"[..2]);
    assert AfterLastSlash("a") == AfterLastSlash("a"[..0]);
    assert "a"[..0] == [] && "a"[0..] == "a";
  }

  // ---------------------------------------------------------------------
  // Files

  /** A File in a cpio archive. The device numbers are held as the major
      and minor halves that rendering writes. */
  class File {
    var ino: nat
    var mode: nat
    var uid: nat
    var gid: nat
    var nlink: nat
    var mtime: nat
    var devMajor: nat
    var devMinor: nat
    var rdevMajor: nat
    var rdevMinor: nat
    /** The name in the target archive. */
    var name: Option<string>
    var data: Option<string>
    /** The file on disc the data comes from. */
    var origFile: Option<string>
    /** The children of this directory, if it is one. */
    var children: seq<File>

    /** A new, empty file; now is the current UNIX time. */
    constructor (now: nat)
      ensures ino == 0 && mode == DefaultMode && uid == 0 && gid == 0 && nlink == 1 && mtime == now
      ensures devMajor == 0 && devMinor == 0 && rdevMajor == 0 && rdevMinor == 0
      ensures name.None? && data.None? && origFile.None? && children == []
    {
      ino := 0;
      mode := DefaultMode;
      uid := 0;
      gid := 0;
      nlink := 1;
      mtime := now;
      devMajor, devMinor, rdevMajor, rdevMinor := 0, 0, 0, 0;
      name := None;
      data := None;
      origFile := None;
      children := [];
    }

    /** Remove the first child with the given name, if there is one. */
    method DeleteChildWithName(inName: string)
      modifies this`children
      ensures var i := old(FirstNamed(children, inName));
        children == if i < |old(children)| then old(children[..i] + children[i + 1..]) else old(children)
    {
      var i := 0;
      while i < |children|
        invariant 0 <= i <= |children|
        invariant forall j | 0 <= j < i :: children[j].name != Some(inName)
      {
        if children[i].name == Some(inName) {
          FirstNamedIs(children, inName, i);
          children := children[..i] + children[i + 1..];
          return;
        }
        i := i + 1;
      }
      FirstNamedIs(children, inName, i);
    }

    method Rename(n: string)
      modifies this`name
      ensures name == Some(n)
    {
      name := Some(n);
    }

    method SetContents(d: string)
      modifies this`origFile, this`data
      ensures origFile.None? && data == Some(d)
    {
      origFile := None;
      data := Some(d);
    }

    method SetContentsFromFile(fileName: string)
      modifies this`origFile, this`data
      ensures origFile == Some(fileName) && data.None?
    {
      origFile := Some(fileName);
      data := None;
    }
  }

  /** The index of the first file with the given name, |cs| if none. */
  function FirstNamed(cs: seq<File>, n: string): (r: nat)
    reads (set c | c in cs)`name
    ensures r <= |cs|
    ensures r < |cs| ==> cs[r].name == Some(n)
    ensures forall j | 0 <= j < r :: cs[j].name != Some(n)
  {
    if cs == [] then 0
    else if cs[0].name == Some(n) then 0
    else 1 + FirstNamed(cs[1..], n)
  }

  lemma {:induction false} FirstNamedIs(cs: seq<File>, n: string, i: nat)
    requires i <= |cs| && (i < |cs| ==> cs[i].name == Some(n))
    requires forall j | 0 <= j < i :: cs[j].name != Some(n)
    ensures FirstNamed(cs, n) == i
  {
    if i > 0 {
      FirstNamedIs(cs[1..], n, i - 1);
    }
  }

  /** Deleting by name removes exactly the first file with that name and
      keeps the others in their order. */
  lemma DeleteFirstNamed(cs: seq<File>, n: string)
    requires FirstNamed(cs, n) < |cs|
    ensures var i := FirstNamed(cs, n);
      var r := cs[..i] + cs[i + 1..];
      |r| == |cs| - 1 &&
      (forall j | 0 <= j < i :: r[j] == cs[j] && r[j].name != Some(n)) &&
      (forall j | i <= j < |r| :: r[j] == cs[j + 1])
  {
  }

  // ---------------------------------------------------------------------
  // Hierarchies

  /** The entry is a root when its directory name is not in the map, or
      it is "/" itself. */
  predicate IsRootKey(files: map<string, File>, k: string) {
    Dirname(k) !in files || Top(k)
  }

  /** os.path.split(k) == ("/", "") */
  predicate Top(k: string) { PathSplit(k) == ("/", "") }

  /** After a merge: the roots are exactly the root entries, and every
      other entry is a child of its directory. */
  ghost predicate Placed(files: map<string, File>, roots: map<string, File>)
    reads files.Values`children
  {
    && (forall k | k in roots :: k in files && IsRootKey(files, k) && roots[k] == files[k])
    && (forall k | k in files :: PlacedIn(files, roots, ChildrenOf(files), k))
  }

  /** The children of each file of the map. */
  function ChildrenOf(files: map<string, File>): (kids: map<File, seq<File>>)
    reads files.Values`children
    ensures forall f | f in files.Values :: f in kids && kids[f] == f.children
  {
    map f | f in files.Values :: f.children
  }

  /** The children gathered so far for a file. */
  function Kids(kids: map<File, seq<File>>, f: File): seq<File> {
    if f in kids then kids[f] else []
  }

  /** Entry k has been placed: as a root, or among its directory's
      children as given by kids. */
  ghost predicate PlacedIn(files: map<string, File>, roots: map<string, File>, kids: map<File, seq<File>>, k: string)
    requires k in files
  {
    if IsRootKey(files, k) then k in roots else files[k] in Kids(kids, files[Dirname(k)])
  }

  /** The directory of every entry that is not a root is a directory. */
  predicate ParentsAreDirs(files: map<string, File>, keys: set<string>)
    reads files.Values`mode
  {
    forall k | k in keys && k in files :: ParentIsDir(files, k)
  }

  predicate ParentIsDir(files: map<string, File>, k: string)
    reads files.Values`mode
    requires k in files
  {
    !IsRootKey(files, k) ==> IsDir(files[Dirname(k)].mode)
  }

  /** A set of files keyed by their names in the target archive, and the
      roots among them. */
  class Hierarchy {
    /** The source's self.map: names in the target archive to files. */
    var files: map<string, File>
    /** The entries of files that have no parent. */
    var roots: map<string, File>

    constructor (files: map<string, File>, roots: map<string, File>)
      ensures this.files == files && this.roots == roots
    {
      this.files := files;
      this.roots := roots;
    }

    /** The file of a name's directory, if there is one. */
    function ParentFromKey(key: string): (r: Option<File>)
      reads this
      ensures r.Some? <==> Dirname(key) in files
      ensures r.Some? ==> r.value == files[Dirname(key)]
    {
      if Dirname(key) in files then Some(files[Dirname(key)]) else None
    }

    /** Put a file into the archive under its directory, which must
        already be there. The file is renamed first, whatever happens. */
    method PutTargetFile(name: string, obj: File) returns (o: Outcome)
      modifies this`files, obj`name, files.Values`children
      ensures obj.name == Some(name) && roots == old(roots)
      ensures o.Pass? <==> Dirname(name) in old(files)
      ensures o.Pass? ==>
        (files == old(files)[name := obj] &&
         old(files)[Dirname(name)].children == old(files[Dirname(name)].children) + [obj])
      ensures o.Fail? ==> o.error.GiveUp? && files == old(files)
      ensures forall f | f in old(files).Values && (o.Fail? || f != old(files)[Dirname(name)]) ::
        f.children == old(f.children)
    {
      obj.name := Some(name);
      var par := ParentFromKey(name);
      if par.None? {
        return Fail(GiveUp("Cannot find a parent for " + name + " in put_target_file()"));
      }
      par.value.children := par.value.children + [obj];
      files := files[name := obj];
      return Pass;
    }

    /** Merge another hierarchy's files into this one, the other's
        overriding, and rebuild every child list and the roots from the
        names: an entry whose directory is in the map becomes its child,
        any other is a root. The order of the entries is the map's, which
        is unspecified. */
    method Merge(other: Hierarchy) returns (o: Outcome)
      modifies this`files, this`roots, files.Values`children, other.files.Values`children
      ensures files == old(files) + old(other.files)
      ensures o.Pass? <==> ParentsAreDirs(files, files.Keys)
      ensures o.Fail? ==> o.error.GiveUp?
      ensures o.Pass? ==> Placed(files, roots)
    {
      var merged := files + other.files;
      MergedValues(files, other.files);
      files := merged;
      o := Rebuild();
    }

    /** Merge's loop over the merged map: each entry becomes a root or a
        child of its directory, which must be a directory. The child lists
        are gathered first, then stored over the old ones (the source
        empties them all before it appends). */
    method Rebuild() returns (o: Outcome)
      modifies this`roots, files.Values`children
      ensures o.Pass? <==> ParentsAreDirs(files, files.Keys)
      ensures o.Fail? ==> o.error.GiveUp?
      ensures o.Pass? ==> Placed(files, roots)
    {
      label laid:
      var rs, kids;
      rs, kids, o := Layout(files);
      roots := rs;
      SetChildren(files.Values, kids);
      ModesKept@laid(files);
      if o.Pass? {
        forall k | k in files
          ensures PlacedIn(files, rs, ChildrenOf(files), k)
        {
          assert PlacedIn(files, rs, kids, k);
          assert files[Dirname(k)] in files.Values <== Dirname(k) in files;
        }
      }
    }

    /** Normalise into a hierarchy with at most one root: each pass
        replaces every root but "/" by its directory, which it becomes a
        child of; a directory not in the map is made (mode 0755 | S_DIR)
        and is a root of the next pass. The source gives up when a pass
        changes nothing; that cannot happen, since of two or more roots
        one is not "/". now is the current UNIX time. */
    method Normalise(now: nat)
      requires roots.Keys <= files.Keys
      modifies this`files, this`roots, files.Values`children
      ensures |roots| <= 1 && roots.Keys <= files.Keys
      ensures Grown(old(files), files)
      ensures forall k | k in files && k !in old(files) :: fresh(files[k]) && NewDir(files[k], k)
      ensures old(|roots|) > 1 ==> Attached(old(roots), files)
    {
      var rs0 := roots;
      var fs, rs, added := NormalisePlan(files, roots, now);
      files, roots := fs, rs;
      AppendChildren(fs.Values, added, this);
      if |rs0| > 1 {
        AttachedAfterAppend(rs0, fs, added);
      }
    }

    /** Remove a name from the roots, erase every child of its file, and
        delete the name from its parent's child list; the map keeps every
        entry. The child list is walked by position while the recursive
        calls delete from it, as the source's for loop over the live list
        does. depth stands for Python's recursion limit. */
    method EraseTarget(fileName: string, depth: nat) returns (o: Outcome)
      modifies this`roots, files.Values`children
      decreases depth
      ensures files == old(files)
      ensures roots.Keys <= old(roots).Keys && forall k | k in roots :: roots[k] == old(roots)[k]
      ensures o.Pass? ==> fileName !in roots
      ensures o.Fail? ==> o.error.Crash?
      ensures forall f | f in files.Values :: |f.children| <= old(|f.children|)
    {
      if depth == 0 {
        return Fail(Crash("maximum recursion depth exceeded"));
      }
      roots := roots - {fileName};
      if fileName in files {
        var obj := files[fileName];
        var i := 0;
        while i < |obj.children|
          invariant files == old(files) && obj == files[fileName]
          invariant fileName !in roots
          invariant roots.Keys <= old(roots).Keys && forall k | k in roots :: roots[k] == old(roots)[k]
          invariant forall f | f in files.Values :: |f.children| <= old(|f.children|)
          decreases |obj.children| - i
        {
          var c := obj.children[i];
          if c.name.None? {
            return Fail(Crash("os.path.dirname(None)"));
          }
          o := EraseTarget(c.name.value, depth - 1);
          if o.Fail? {
            return;
          }
          i := i + 1;
        }
      }
      var par := ParentFromKey(fileName);
      if par.Some? {
        par.value.DeleteChildWithName(fileName);
      }
      return Pass;
    }

    /** The files of every root, each traced top-down, rendered as a cpio
        archive. The roots are taken in an unspecified order `order`; the
        traced list holds each root's trace, the j-th starting at starts[j]. */
    method Render(disc: map<string, Option<string>>, now: nat)
      returns (r: Result<string>, ghost traced: seq<File>, ghost order: seq<string>, ghost starts: seq<nat>)
      ensures r.Ok? ==> TracedRoots(traced, roots, order, starts)
      ensures r.Ok? ==> EntriesOf(traced, disc).Ok? && r.value == ArchiveText(EntriesOf(traced, disc).value, now)
      ensures r.Ok? ==> |r.value| % 4 == 0 && EndsWith(r.value, EntryText(Trailer(now)))
    {
      var keys := ListOf(roots.Keys);
      order := keys;
      var fileList: seq<File> := [];
      starts := [];
      var i := 0;
      while i < |keys|
        invariant 0 <= i <= |keys| && |starts| == i
        invariant Listed(fileList, roots, order, starts)
        invariant PreOrder(fileList, 0)
      {
        var t := TraceFiles(fileList, roots[keys[i]], MaxDepth);
        if t.Err? {
          return Err(t.error), fileList, order, starts;
        }
        PreOrderExtends(fileList, t.value);
        ListedStep(fileList, t.value, roots, order, starts);
        starts := starts + [|fileList|];
        fileList := t.value;
        i := i + 1;
      }
      traced := fileList;
      var ar := new Archive();
      ar.files := fileList;
      r := ar.Render(disc, now);
    }
  }

  /** The first |starts| roots of `order` begin the traces at those
      positions, one after the other. */
  ghost predicate Listed(fl: seq<File>, roots: map<string, File>, order: seq<string>, starts: seq<nat>) {
    && |starts| <= |order|
    && (starts == [] <==> fl == [])
    && (starts != [] ==> starts[0] == 0)
    && (forall j | 0 <= j < |starts| :: starts[j] < |fl| && order[j] in roots && fl[starts[j]] == roots[order[j]])
    && (forall j | 0 <= j < |starts| - 1 :: starts[j] < starts[j + 1])
  }

  /** What render traces: every root once, in `order`, each at the start of
      its own trace, and every child after its parent. */
  ghost predicate TracedRoots(fl: seq<File>, roots: map<string, File>, order: seq<string>, starts: seq<nat>)
    reads (set f | f in fl)`children
  {
    && Distinct(order) && Elements(order) == roots.Keys
    && |starts| == |order| && Listed(fl, roots, order, starts)
    && PreOrder(fl, 0)
  }

  /** A trace appended to a list in pre-order keeps it in pre-order. */
  lemma PreOrderExtends(acc: seq<File>, t: seq<File>)
    requires |acc| <= |t| && t[..|acc|] == acc
    requires PreOrder(acc, 0) && PreOrder(t, |acc|)
    ensures PreOrder(t, 0)
  {
    forall j, c | 0 <= j < |t| && c in t[j].children
      ensures c in t[j + 1..]
    {
      if j < |acc| {
        assert t[j] == acc[j];
        var m :| j + 1 <= m < |acc| && acc[m] == c;
        assert t[m] == c;
      }
    }
  }

  /** The trace of one more root starts where the list ended. */
  lemma ListedStep(acc: seq<File>, t: seq<File>, roots: map<string, File>, order: seq<string>, starts: seq<nat>)
    requires Listed(acc, roots, order, starts) && |starts| < |order| && order[|starts|] in roots
    requires |acc| < |t| && t[..|acc|] == acc && t[|acc|] == roots[order[|starts|]]
    ensures Listed(t, roots, order, starts + [|acc|])
  {
    var s' := starts + [|acc|];
    forall j | 0 <= j < |s'|
      ensures s'[j] < |t| && order[j] in roots && t[s'[j]] == roots[order[j]]
    {
      if j < |starts| {
        assert t[starts[j]] == acc[starts[j]];
      }
    }
  }

  /** Normalise's loop, planned on values: the grown map, the last roots,
      and the children each file gains, in the order they are appended. */
  method NormalisePlan(files: map<string, File>, roots: map<string, File>, now: nat)
    returns (fs: map<string, File>, rs: map<string, File>, added: map<File, seq<File>>)
    requires roots.Keys <= files.Keys
    ensures |rs| <= 1 && rs.Keys <= fs.Keys && Grown(files, fs)
    ensures forall k | k in fs && k !in files :: fresh(fs[k]) && NewDir(fs[k], k)
    ensures |roots| > 1 ==> PlacedRoots(roots, roots.Keys, fs, added)
  {
    fs, rs, added := files, roots, map[];
    ghost var bound := Longest(rs.Keys) + 1;
    ghost var first := true;
    while |rs| > 1
      invariant rs.Keys <= fs.Keys && Grown(files, fs)
      invariant forall k | k in fs && k !in files :: fresh(fs[k]) && NewDir(fs[k], k)
      invariant forall k | k in rs && k != "/" :: |k| < bound
      invariant first ==> rs == roots && fs == files
      invariant !first ==> |roots| > 1 && PlacedRoots(roots, roots.Keys, fs, added)
      decreases bound
    {
      NotAllTop(rs);
      var fs2, rs2, added2, didSomething := PassPlan(fs, rs, added, now, bound);
      if !first {
        AttachedGrows(roots, fs, fs2, added, added2);
      }
      assert didSomething;
      fs, rs, added := fs2, rs2, added2;
      first := false;
      bound := bound - 1;
    }
  }

  /** b keeps every entry of a. */
  predicate Grown(a: map<string, File>, b: map<string, File>) {
    a.Keys <= b.Keys && forall k | k in a :: b[k] == a[k]
  }

  /** A directory made up by normalise. */
  predicate NewDir(f: File, k: string)
    reads f`mode, f`name
  {
    f.mode == DirMode && f.name == Some(k)
  }

  /** Every root but "/" is a child of its directory. */
  ghost predicate Attached(roots: map<string, File>, files: map<string, File>)
    reads files.Values`children
  {
    forall k | k in roots && k != "/" :: Dirname(k) in files && roots[k] in files[Dirname(k)].children
  }

  /** Attached stays true as the map grows and child lists only grow. */
  lemma AttachedGrows(roots: map<string, File>, files: map<string, File>, files': map<string, File>,
                      kids: map<File, seq<File>>, kids': map<File, seq<File>>)
    requires PlacedRoots(roots, roots.Keys, files, kids) && Grown(files, files') && Extends(kids, kids')
    ensures PlacedRoots(roots, roots.Keys, files', kids')
  {
    forall k | k in roots && k != "/"
      ensures Dirname(k) in files' && roots[k] in Kids(kids', files'[Dirname(k)])
    {
      var f := files[Dirname(k)];
      assert f in kids;
    }
  }

  ghost function Longest(keys: set<string>): (n: nat)
    ensures forall k | k in keys :: |k| <= n
    decreases |keys|
  {
    if keys == {} then 0
    else
      var k :| k in keys;
      var rest := Longest(keys - {k});
      if |k| > rest then |k| else rest
  }

  /** Two or more roots include one that is not "/". */
  lemma NotAllTop(roots: map<string, File>)
    requires |roots| > 1
    ensures exists k :: k in roots && k != "/"
  {
    var a :| a in roots.Keys;
    assert |roots.Keys - {a}| == |roots.Keys| - 1;
    var b :| b in roots.Keys - {a};
    assert a != "/" || b != "/";
  }

  /** One pass of normalise over the roots, in an unspecified order: the
      directories made, the new roots, and the children each file has
      gained so far, extending added0. */
  method PassPlan(files: map<string, File>, roots: map<string, File>, added0: map<File, seq<File>>, now: nat, ghost bound: int)
    returns (files': map<string, File>, newRoots: map<string, File>, added: map<File, seq<File>>, didSomething: bool)
    requires roots.Keys <= files.Keys
    requires forall k | k in roots && k != "/" :: |k| < bound
    ensures Grown(files, files') && newRoots.Keys <= files'.Keys
    ensures forall k | k in files' && k !in files :: fresh(files'[k]) && NewDir(files'[k], k)
    ensures forall k | k in newRoots && k != "/" :: |k| < bound - 1
    ensures didSomething <==> exists k :: k in roots && k != "/"
    ensures PlacedRoots(roots, roots.Keys, files', added)
    ensures Extends(added0, added)
  {
    files', newRoots, added, didSomething := files, map[], added0, false;
    var todo := roots.Keys;
    while todo != {}
      invariant todo <= roots.Keys && Grown(files, files') && newRoots.Keys <= files'.Keys
      invariant forall k | k in files' && k !in files :: fresh(files'[k]) && NewDir(files'[k], k)
      invariant forall k | k in newRoots && k != "/" :: |k| < bound - 1
      invariant didSomething <==> exists k :: k in roots && k !in todo && k != "/"
      invariant PlacedRoots(roots, roots.Keys - todo, files', added)
      invariant Extends(added0, added)
    {
      var k :| k in todo;
      if k != "/" {
        var parent;
        ghost var before := files';
        files', newRoots, parent := FindDir(files', newRoots, k, now, bound);
        PlaceRoot(roots, roots.Keys - todo, before, files', added, k, parent);
        ExtendsTrans(added0, added, parent, roots[k]);
        added := added[parent := Kids(added, parent) + [roots[k]]];
        didSomething := true;
      } else {
        newRoots := newRoots[k := roots[k]];
        assert roots.Keys - (todo - {k}) == (roots.Keys - todo) + {k};
      }
      todo := todo - {k};
    }
    assert roots.Keys - todo == roots.Keys;
  }

  /** The directory normalise makes when a root's directory is missing:
      mode 0755 | S_DIR, named after the directory. */
  method MakeDir(dir: string, now: nat) returns (f: File)
    ensures fresh(f) && NewDir(f, dir) && f.children == []
  {
    f := new File(now);
    f.mode := DirMode;
    f.name := Some(dir);
  }

  /** Every root in done but "/" is among the children gathered for its
      directory. */
  ghost predicate PlacedRoots(roots: map<string, File>, done: set<string>, files: map<string, File>, added: map<File, seq<File>>) {
    forall k | k in done && k in roots && k != "/" :: Dirname(k) in files && roots[k] in Kids(added, files[Dirname(k)])
  }

  /** Placing root k under its directory's file, as the map grows. */
  lemma PlaceRoot(roots: map<string, File>, done: set<string>, files: map<string, File>, files': map<string, File>,
                  added: map<File, seq<File>>, k: string, parent: File)
    requires PlacedRoots(roots, done, files, added) && Grown(files, files') && k in roots && k != "/"
    requires Dirname(k) in files' && files'[Dirname(k)] == parent
    ensures PlacedRoots(roots, done + {k}, files', added[parent := Kids(added, parent) + [roots[k]]])
  {
  }

  /** The directory of root k, made (and made a new root) when the map
      does not have it. */
  method FindDir(files: map<string, File>, newRoots: map<string, File>, k: string, now: nat, ghost bound: int)
    returns (files': map<string, File>, newRoots': map<string, File>, parent: File)
    requires newRoots.Keys <= files.Keys && k in files && k != "/" && |k| < bound
    requires forall r | r in newRoots && r != "/" :: |r| < bound - 1
    ensures Grown(files, files') && newRoots'.Keys <= files'.Keys
    ensures Dirname(k) in files' && files'[Dirname(k)] == parent
    ensures forall r | r in files' && r !in files :: fresh(files'[r]) && NewDir(files'[r], r)
    ensures forall r | r in newRoots' && r != "/" :: |r| < bound - 1
  {
    var dir := Dirname(k);
    if dir !in files {
      DirnameShorter(k);
      parent := MakeDir(dir, now);
      newRoots' := newRoots[dir := parent];
      files' := files[dir := parent];
    } else {
      parent := files[dir];
      files', newRoots' := files, newRoots;
    }
  }

  /** The children gathered in b extend those in a, file by file. */
  ghost predicate Extends(a: map<File, seq<File>>, b: map<File, seq<File>>) {
    forall f | f in a :: a[f] <= Kids(b, f)
  }

  lemma ExtendsTrans(a: map<File, seq<File>>, b: map<File, seq<File>>, p: File, x: File)
    requires Extends(a, b)
    ensures Extends(a, b[p := Kids(b, p) + [x]])
  {
    var b' := b[p := Kids(b, p) + [x]];
    forall f | f in a
      ensures a[f] <= Kids(b', f)
    {
      if f == p {
        assert Kids(b, p) <= Kids(b', p);
      }
    }
  }

  /** Once the gathered children are appended, every root they place is
      a child of its directory. */
  lemma AttachedAfterAppend(roots: map<string, File>, fs: map<string, File>, added: map<File, seq<File>>)
    requires PlacedRoots(roots, roots.Keys, fs, added)
    requires forall f, x | f in fs.Values && x in Kids(added, f) :: x in f.children
    ensures Attached(roots, fs)
  {
    forall k | k in roots && k != "/"
      ensures Dirname(k) in fs && roots[k] in fs[Dirname(k)].children
    {
      assert fs[Dirname(k)] in fs.Values;
    }
  }

  /** Give each file the children gathered for it, after those it has. */
  method AppendChildren(fs: set<File>, added: map<File, seq<File>>, h: Hierarchy)
    modifies fs`children
    ensures h.files == old(h.files) && h.roots == old(h.roots)
    ensures forall f | f in fs :: f.children == old(f.children) + Kids(added, f)
    ensures forall f, x | f in fs && x in Kids(added, f) :: x in f.children
    ensures forall f | f in fs :: f.mode == old(f.mode) && f.name == old(f.name)
  {
    forall f | f in fs {
      f.children := f.children + Kids(added, f);
    }
  }

  /** Obliterate the children of every file. */
  /** The files of a merged map come from one map or the other. */
  lemma MergedValues(a: map<string, File>, b: map<string, File>)
    ensures (a + b).Values <= a.Values + b.Values
  {
    forall f | f in (a + b).Values
      ensures f in a.Values + b.Values
    {
      var k :| k in a + b && (a + b)[k] == f;
      if k in b {
        assert b[k] in b.Values;
      } else {
        assert a[k] in a.Values;
      }
    }
  }

  /** Whether the directories are directories depends on the modes alone. */
  twostate lemma ModesKept(files: map<string, File>)
    requires forall f | f in files.Values :: f.mode == old(f.mode)
    ensures ParentsAreDirs(files, files.Keys) == old(ParentsAreDirs(files, files.Keys))
  {
  }

  /** Store each file's gathered children. */
  method SetChildren(fs: set<File>, kids: map<File, seq<File>>)
    modifies fs`children
    ensures forall f | f in fs :: f.children == Kids(kids, f)
  {
    forall f | f in fs {
      f.children := Kids(kids, f);
    }
  }

  /** The loop itself, over the map's entries in an unspecified order:
      the roots, and each file's children in the order visited. */
  method Layout(files: map<string, File>) returns (roots: map<string, File>, kids: map<File, seq<File>>, o: Outcome)
    ensures forall k | k in roots :: k in files && IsRootKey(files, k) && roots[k] == files[k]
    ensures o.Pass? <==> ParentsAreDirs(files, files.Keys)
    ensures o.Fail? ==> o.error.GiveUp?
    ensures o.Pass? ==> forall k | k in files :: PlacedIn(files, roots, kids, k)
  {
    roots := map[];
    kids := map[];
    var order := ListOf(files.Keys);
    assert forall j | 0 <= j < |order| :: order[j] in Elements(order);
    var i := 0;
    while i < |order|
      invariant 0 <= i <= |order|
      invariant LaidOut(files, roots, kids, order, i)
    {
      var k := order[i];
      var a := Dirname(k);
      if a !in files || Top(k) {
        LayRoot(files, roots, kids, order, i);
        roots := roots[k := files[k]];
      } else if IsDir(files[a].mode) {
        LayChild(files, roots, kids, order, i);
        kids := kids[files[a] := Kids(kids, files[a]) + [files[k]]];
      } else {
        assert !ParentIsDir(files, k);
        return roots, kids, Fail(GiveUp("Attempt to merge file " + k + " when parent '" + a + "' is not a directory"));
      }
      i := i + 1;
    }
    forall k | k in files
      ensures PlacedIn(files, roots, kids, k) && ParentIsDir(files, k)
    {
      assert k in Elements(order);
      var j :| 0 <= j < |order| && order[j] == k;
    }
    return roots, kids, Pass;
  }

  /** Layout's loop invariant: the roots are root entries, and the first
      i entries of the order are placed under directories. */
  ghost predicate LaidOut(files: map<string, File>, roots: map<string, File>, kids: map<File, seq<File>>, order: seq<string>, i: nat)
    reads files.Values`mode
  {
    && i <= |order| && (forall j | 0 <= j < |order| :: order[j] in files)
    && (forall k | k in roots :: k in files && IsRootKey(files, k) && roots[k] == files[k])
    && (forall j | 0 <= j < i :: PlacedIn(files, roots, kids, order[j]) && ParentIsDir(files, order[j]))
  }

  lemma LayRoot(files: map<string, File>, roots: map<string, File>, kids: map<File, seq<File>>, order: seq<string>, i: nat)
    requires LaidOut(files, roots, kids, order, i) && i < |order| && IsRootKey(files, order[i])
    ensures LaidOut(files, roots[order[i] := files[order[i]]], kids, order, i + 1)
  {
    var roots' := roots[order[i] := files[order[i]]];
    forall j | 0 <= j < i + 1
      ensures PlacedIn(files, roots', kids, order[j])
    {
      if j < i {
        assert PlacedIn(files, roots, kids, order[j]);
      }
    }
  }

  lemma LayChild(files: map<string, File>, roots: map<string, File>, kids: map<File, seq<File>>, order: seq<string>, i: nat)
    requires LaidOut(files, roots, kids, order, i) && i < |order| && !IsRootKey(files, order[i])
    requires IsDir(files[Dirname(order[i])].mode)
    ensures var p := files[Dirname(order[i])];
      LaidOut(files, roots, kids[p := Kids(kids, p) + [files[order[i]]]], order, i + 1)
  {
    var p := files[Dirname(order[i])];
    var kids' := kids[p := Kids(kids, p) + [files[order[i]]]];
    forall j | 0 <= j < i + 1
      ensures PlacedIn(files, roots, kids', order[j])
    {
      if j < i {
        assert PlacedIn(files, roots, kids, order[j]);
      }
    }
  }

  // ---------------------------------------------------------------------
  // Tracing and rendering

  /** Python's default recursion limit, which stops a recursion through a
      cycle of children. */
  const MaxDepth: nat := 1000

  /** Every child of a file at position from or later comes after it. */
  ghost predicate PreOrder(fs: seq<File>, from: nat)
    reads (set f | f in fs)`children
  {
    forall j, c | from <= j < |fs| && c in fs[j].children :: c in fs[j + 1..]
  }

  /** trace_files: the file, then each child traced in turn, appended to
      fileList, so that each directory comes before its descendants. */
  method TraceFiles(fileList: seq<File>, root: File, depth: nat) returns (r: Result<seq<File>>)
    decreases depth
    ensures r.Err? ==> r.error.Crash?
    ensures r.Ok? ==> |r.value| > |fileList| && r.value[..|fileList|] == fileList && r.value[|fileList|] == root
    ensures r.Ok? ==> PreOrder(r.value, |fileList|)
  {
    if depth == 0 {
      return Err(Crash("maximum recursion depth exceeded"));
    }
    var acc := fileList + [root];
    var k := 0;
    while k < |root.children|
      invariant k <= |root.children|
      invariant |acc| > |fileList| && acc[..|fileList|] == fileList && acc[|fileList|] == root
      invariant PreOrder(acc, |fileList| + 1)
      invariant forall c | c in root.children[..k] :: c in acc[|fileList| + 1..]
    {
      var t := TraceFiles(acc, root.children[k], depth - 1);
      if t.Err? {
        return t;
      }
      TraceExtends(acc, t.value, |fileList|, root.children[..k]);
      assert root.children[..k + 1] == root.children[..k] + [root.children[k]];
      acc := t.value;
      k := k + 1;
    }
    assert root.children[..k] == root.children;
    return Ok(acc);
  }

  /** Extending a traced list keeps what was placed before. */
  lemma TraceExtends(acc: seq<File>, t: seq<File>, n: nat, placed: seq<File>)
    requires n < |acc| < |t| && t[..|acc|] == acc && t[|acc|] in placed + [t[|acc|]]
    requires PreOrder(acc, n + 1) && PreOrder(t, |acc|)
    requires forall c | c in placed :: c in acc[n + 1..]
    ensures t[..n] == acc[..n] && t[n] == acc[n]
    ensures PreOrder(t, n + 1)
    ensures forall c | c in placed + [t[|acc|]] :: c in t[n + 1..]
  {
    forall j, c | n + 1 <= j < |t| && c in t[j].children
      ensures c in t[j + 1..]
    {
      if j < |acc| {
        assert t[j] == acc[j];
        var m :| j + 1 <= m < |acc| && acc[m] == c;
        assert t[m] == c;
      }
    }
    forall c | c in placed + [t[|acc|]]
      ensures c in t[n + 1..]
    {
      if c in placed {
        var m :| n + 1 <= m < |acc| && acc[m] == c;
        assert t[m] == c;
      } else {
        assert t[|acc|] == c;
      }
    }
  }

  /** The fields of a header that come from the file itself. */
  datatype Stat = Stat(ino: nat, mode: nat, uid: nat, gid: nat, nlink: nat, mtime: nat,
                       devMajor: nat, devMinor: nat, rdevMajor: nat, rdevMinor: nat)

  /** What render writes for one file: its header fields, its name and
      its data, if any. */
  datatype Entry = Entry(stat: Stat, name: string, data: Option<string>)

  function HexDigit(d: nat): char
    requires d < 16
  {
    if d < 10 then '0' + d as char else 'A' + (d - 10) as char
  }

  /** The upper-case hexadecimal digits of n, without leading zeros. */
  function HexDigits(n: nat): (s: string)
    ensures |s| > 0
  {
    var d := [HexDigit(n % 16)];
    if n < 16 then d else HexDigits(n / 16) + d
  }

  /** '%08X': upper-case hexadecimal, zero-padded to at least eight digits. */
  function Hex8(n: nat): string {
    var d := HexDigits(n);
    if |d| < 8 then Repeat('0', 8 - |d|) + d else d
  }

  function HexDigitValue(c: char): nat {
    if '0' <= c <= '9' then c as int - '0' as int
    else if 'A' <= c <= 'F' then c as int - 'A' as int + 10
    else 0
  }

  /** The value of a string of hexadecimal digits. */
  function HexValue(s: string): nat {
    if s == [] then 0 else 16 * HexValue(s[..|s| - 1]) + HexDigitValue(s[|s| - 1])
  }

  function Power16(k: nat): nat {
    if k == 0 then 1 else 16 * Power16(k - 1)
  }

  lemma {:induction false} HexDigitsRoundTrip(n: nat)
    ensures HexValue(HexDigits(n)) == n
  {
    var s := HexDigits(n);
    if n >= 16 {
      HexDigitsRoundTrip(n / 16);
      assert s[..|s| - 1] == HexDigits(n / 16);
    }
  }

  /** A value below 16^k has at most k digits. */
  lemma {:induction false} HexDigitsShort(n: nat, k: nat)
    requires 0 < k && n < Power16(k)
    ensures |HexDigits(n)| <= k
  {
    if n >= 16 {
      assert k > 1;
      HexDigitsShort(n / 16, k - 1);
    }
  }

  lemma {:induction false} LeadingZeros(k: nat, d: string)
    ensures HexValue(Repeat('0', k) + d) == HexValue(d)
    decreases |d|
  {
    if d == [] {
      ZerosValue(k);
      assert Repeat('0', k) + d == Repeat('0', k);
    } else {
      var d' := d[..|d| - 1];
      LeadingZeros(k, d');
      assert (Repeat('0', k) + d)[..|Repeat('0', k) + d| - 1] == Repeat('0', k) + d';
    }
  }

  lemma {:induction false} ZerosValue(k: nat)
    ensures HexValue(Repeat('0', k)) == 0
  {
    if k > 0 {
      ZerosValue(k - 1);
      assert Repeat('0', k)[..k - 1] == Repeat('0', k - 1);
    }
  }

  /** '%08X' can be read back, and is eight digits for a 32-bit value. */
  lemma Hex8RoundTrip(n: nat)
    ensures HexValue(Hex8(n)) == n
    ensures n < 0x1_0000_0000 ==> |Hex8(n)| == 8
  {
    HexDigitsRoundTrip(n);
    if n < 0x1_0000_0000 {
      assert Power16(8) == 0x1_0000_0000;
      HexDigitsShort(n, 8);
    }
    var d := HexDigits(n);
    if |d| < 8 {
      LeadingZeros(8 - |d|, d);
    }
  }

  /** The values of the thirteen header fields that follow the magic,
      save the check field: the name size counts the terminating NUL. */
  function HeaderValues(e: Entry): (vs: seq<nat>)
    ensures |vs| == 12 && vs[11] == |e.name| + 1
  {
    var st := e.stat;
    [st.ino, st.mode, st.uid, st.gid, st.nlink, st.mtime,
     if e.data.Some? then |e.data.value| else 0,
     st.devMajor, st.devMinor, st.rdevMajor, st.rdevMinor, |e.name| + 1]
  }

  /** Strings one after another. */
  function Flatten(ss: seq<string>): string {
    if ss == [] then "" else Flatten(ss[..|ss| - 1]) + ss[|ss| - 1]
  }

  /** Each value as '%08X', one after another. */
  function Fields(vs: seq<nat>): string {
    Flatten(seq(|vs|, i requires 0 <= i < |vs| => Hex8(vs[i])))
  }

  const Magic: string := "070701"
  /** The check field, always zero ('%08x' of 0). */
  const Check: string := "00000000"

  /** The "newc" header: the magic 070701, then thirteen eight-digit
      hexadecimal fields, the last being the zero check field. */
  function Header(e: Entry): string {
    Magic + Fields(HeaderValues(e)) + Check
  }

  /** s followed by the NULs that pad it to a multiple of four. */
  function Padded(s: string): (r: string)
    ensures |r| % 4 == 0 && |s| <= |r| < |s| + 4 && r[..|s|] == s
    ensures forall i | |s| <= i < |r| :: r[i] == '\0'
  {
    s + Repeat('\0', if |s| % 4 == 0 then 0 else 4 - |s| % 4)
  }

  /** One archive entry: header and NUL-terminated name, padded, then the
      data, padded. */
  function EntryText(e: Entry): string {
    Padded(Header(e) + e.name + "\0") + Padded(if e.data.Some? then e.data.value else "")
  }

  /** Every entry keeps the archive aligned to four bytes. */
  lemma EntryAligned(e: Entry)
    ensures |EntryText(e)| % 4 == 0
  {
    var a := Padded(Header(e) + e.name + "\0");
    var b := Padded(if e.data.Some? then e.data.value else "");
    AddAligned(|a|, |b|);
    assert |a + b| == |a| + |b|;
  }

  /** The entries one after another. */
  function EntriesText(es: seq<Entry>): string {
    if es == [] then "" else EntriesText(es[..|es| - 1]) + EntryText(es[|es| - 1])
  }

  /** An archive of whole entries is aligned to four bytes. */
  lemma {:induction false} EntriesTextAligned(es: seq<Entry>)
    ensures |EntriesText(es)| % 4 == 0
  {
    if es != [] {
      var front := EntriesText(es[..|es| - 1]);
      var last := EntryText(es[|es| - 1]);
      EntriesTextAligned(es[..|es| - 1]);
      EntryAligned(es[|es| - 1]);
      AddAligned(|front|, |last|);
      assert |EntriesText(es)| == |front| + |last|;
    }
  }

  lemma AddAligned(a: nat, b: nat)
    requires a % 4 == 0 && b % 4 == 0
    ensures (a + b) % 4 == 0
  {
  }

  /** The trailer entry made by file_from_data("TRAILER!!!", ""). */
  function Trailer(now: nat): Entry {
    Entry(Stat(0, DefaultMode, 0, 0, 1, now, 0, 0, 0, 0), "TRAILER!!!", Some(""))
  }

  /** What an archive of these entries looks like: the entries, then the
      trailer. */
  function ArchiveText(es: seq<Entry>, now: nat): string {
    EntriesText(es + [Trailer(now)])
  }

  /** Every archive ends with the trailer entry. */
  lemma ArchiveEndsWithTrailer(es: seq<Entry>, now: nat)
    ensures EndsWith(ArchiveText(es, now), EntryText(Trailer(now)))
    ensures |ArchiveText(es, now)| % 4 == 0
  {
    assert (es + [Trailer(now)])[..|es|] == es;
    EntriesTextAligned(es + [Trailer(now)]);
  }

  /** The data render writes for a file: its own data, or what is on disc
      for its original file (a regular file's contents or a link's target,
      None for anything else); a file that is not on disc is an OSError.
      A file without a name cannot be rendered. */
  function EntryOf(f: File, disc: map<string, Option<string>>): (r: Result<Entry>)
    reads f
    ensures r.Ok? ==> f.name.Some? && r.value.name == f.name.value
    ensures r.Err? <==> f.name.None? || (f.origFile.Some? && f.origFile.value !in disc)
  {
    if f.name.None? then Err(Crash("len(None)"))
    else if f.origFile.Some? && f.origFile.value !in disc then Err(Crash("lstat: no such file"))
    else
      var data := if f.origFile.Some? then disc[f.origFile.value] else f.data;
      Ok(Entry(Stat(f.ino, f.mode, f.uid, f.gid, f.nlink, f.mtime, f.devMajor, f.devMinor, f.rdevMajor, f.rdevMinor),
               f.name.value, data))
  }

  function EntriesOf(fs: seq<File>, disc: map<string, Option<string>>): (r: Result<seq<Entry>>)
    reads set f | f in fs
    ensures r.Ok? ==> |r.value| == |fs|
  {
    if fs == [] then Ok([])
    else
      var es :- EntriesOf(fs[..|fs| - 1], disc);
      var e :- EntryOf(fs[|fs| - 1], disc);
      Ok(es + [e])
  }

  /** A cpio archive: files in the order they are to be written, each
      directory before what is in it. */
  class Archive {
    var files: seq<File>

    constructor ()
      ensures files == []
    {
      files := [];
    }

    method AddFile(f: File)
      modifies this
      ensures files == old(files) + [f]
    {
      files := files + [f];
    }

    /** The archive's text: every file's entry, then the trailer. */
    method Render(disc: map<string, Option<string>>, now: nat) returns (r: Result<string>)
      ensures r.Ok? <==> EntriesOf(files, disc).Ok?
      ensures r.Ok? ==> r.value == ArchiveText(EntriesOf(files, disc).value, now)
      ensures r.Ok? ==> |r.value| % 4 == 0 && EndsWith(r.value, EntryText(Trailer(now)))
    {
      var out := "";
      var i := 0;
      ghost var es: seq<Entry> := [];
      while i < |files|
        invariant i <= |files|
        invariant EntriesOf(files[..i], disc) == Ok(es) && out == EntriesText(es)
      {
        var e := EntryOf(files[i], disc);
        if e.Err? {
          EntriesFail(files, disc, i);
          return Err(e.error);
        }
        EntriesStep(files, disc, i, es);
        EntriesTextSnoc(es, e.value);
        out := out + EntryText(e.value);
        es := es + [e.value];
        i := i + 1;
      }
      assert files[..i] == files;
      var trailer := Trailer(now);
      EntriesTextSnoc(es, trailer);
      out := out + EntryText(trailer);
      ArchiveEndsWithTrailer(es, now);
      return Ok(out);
    }
  }

  /** One more entry on an archive is its text after the archive's. */
  lemma EntriesTextSnoc(es: seq<Entry>, e: Entry)
    ensures EntriesText(es + [e]) == EntriesText(es) + EntryText(e)
  {
    assert (es + [e])[..|es|] == es;
  }

  /** The entries of one file more. */
  lemma EntriesStep(fs: seq<File>, disc: map<string, Option<string>>, i: nat, es: seq<Entry>)
    requires i < |fs| && EntriesOf(fs[..i], disc) == Ok(es) && EntryOf(fs[i], disc).Ok?
    ensures EntriesOf(fs[..i + 1], disc) == Ok(es + [EntryOf(fs[i], disc).value])
  {
    assert fs[..i + 1][..i] == fs[..i];
  }

  /** A file that cannot be rendered fails the whole archive. */
  lemma {:induction false} EntriesFail(fs: seq<File>, disc: map<string, Option<string>>, i: nat)
    requires i < |fs| && EntryOf(fs[i], disc).Err?
    ensures EntriesOf(fs, disc).Err?
    decreases |fs|
  {
    if i < |fs| - 1 {
      EntriesFail(fs[..|fs| - 1], disc, i);
    }
  }

  /** Strings of eight characters each flatten to eight times as many. */
  lemma {:induction false} FlattenLength(ss: seq<string>)
    requires forall j | 0 <= j < |ss| :: |ss[j]| == 8
    ensures |Flatten(ss)| == 8 * |ss|
  {
    if ss != [] {
      FlattenLength(ss[..|ss| - 1]);
    }
  }

  /** Each string of eight characters can be found again in the
      flattened text. */
  lemma {:induction false} FlattenAt(ss: seq<string>, i: nat)
    requires forall j | 0 <= j < |ss| :: |ss[j]| == 8
    requires i < |ss|
    ensures |Flatten(ss)| == 8 * |ss|
    ensures Flatten(ss)[8 * i..8 * i + 8] == ss[i]
  {
    var front := ss[..|ss| - 1];
    var a, b := Flatten(front), ss[|ss| - 1];
    FlattenLength(ss);
    FlattenLength(front);
    if i < |ss| - 1 {
      FlattenAt(front, i);
      SliceLeft(a, b, 8 * i, 8 * i + 8);
    } else {
      SliceRight(a, b);
    }
  }

  lemma SliceLeft(a: string, b: string, lo: nat, hi: nat)
    requires lo <= hi <= |a|
    ensures (a + b)[lo..hi] == a[lo..hi]
  {
  }

  lemma SliceRight(a: string, b: string)
    ensures (a + b)[|a|..|a| + |b|] == b
  {
  }

  /** Values below 2^32 make fields of eight digits each, and each
      field can be read back. */
  lemma FieldsLayout(vs: seq<nat>)
    requires forall i | 0 <= i < |vs| :: vs[i] < 0x1_0000_0000
    ensures |Fields(vs)| == 8 * |vs|
    ensures forall i | 0 <= i < |vs| :: HexValue(Fields(vs)[8 * i..8 * i + 8]) == vs[i]
  {
    var cells := seq(|vs|, i requires 0 <= i < |vs| => Hex8(vs[i]));
    forall j | 0 <= j < |vs|
      ensures |cells[j]| == 8 && HexValue(cells[j]) == vs[j]
    {
      Hex8RoundTrip(vs[j]);
    }
    FlattenLength(cells);
    forall i | 0 <= i < |vs|
      ensures HexValue(Fields(vs)[8 * i..8 * i + 8]) == vs[i]
    {
      FlattenAt(cells, i);
    }
  }

  /** The header has the layout of the format: magic, twelve eight-digit
      fields for 32-bit values, the name size last of them, then the zero
      check field. */
  lemma HeaderLayout(e: Entry)
    requires forall i | 0 <= i < 12 :: HeaderValues(e)[i] < 0x1_0000_0000
    ensures |Header(e)| == 110
    ensures Header(e)[..6] == "070701"
    ensures forall i | 0 <= i < 12 :: HexValue(Header(e)[6 + 8 * i..14 + 8 * i]) == HeaderValues(e)[i]
    ensures HexValue(Header(e)[94..102]) == |e.name| + 1
    ensures Header(e)[102..] == "00000000"
  {
    var vs := HeaderValues(e);
    var f := Fields(vs);
    FieldsLayout(vs);
    assert Header(e) == Magic + f + Check;
    forall i | 0 <= i < 12
      ensures HexValue(Header(e)[6 + 8 * i..14 + 8 * i]) == vs[i]
    {
      assert Header(e)[6 + 8 * i..14 + 8 * i] == f[8 * i..8 * i + 8];
    }
    assert Header(e)[94..102] == f[88..96];
  }

  /** After the header comes the name and its terminating NUL. */
  lemma NameTerminated(e: Entry)
    ensures var h := |Header(e)|;
      EntryText(e)[h..h + |e.name| + 1] == e.name + "\0"
  {
    var head := Header(e) + e.name + "\0";
    var a := Padded(head);
    assert EntryText(e)[..|a|] == a;
    assert a[..|head|] == head;
  }
}
