/** The part of the file system the plugin installer touches, as a map from
    absolute paths (sequences of path segments) to nodes, with the
    `fs-extra` calls the installer makes: `ensureDir`, `writeFile`,
    `readFile`, `lstat`, `unlink`, `symlink`, `remove` and `readdir`.
    Symbolic links hold absolute targets; a path is resolved by replacing
    its shortest prefix that is a link with the link's target, again and
    again, and resolution gives up with ELOOP after `MaxLinks` hops, as
    Linux does. Calls that act on a link itself (`lstat`, `unlink`,
    `symlink`, `remove`) resolve only the parent of their path. */
module FileSystem {
  import opened Wrappers
  import opened PluginTypes
  import opened Sequences

  type Path = seq<string>

  datatype Node = File(data: Bytes) | Dir | Link(target: Path)

  type Fs = map<Path, Node>

  /** A directory entry as `readdir(..., { withFileTypes: true })` reports
      it: a link is not a directory, whatever it points to. */
  datatype Dirent = Dirent(name: string, isDirectory: bool)

  /** Linux's MAXSYMLINKS. */
  const MaxLinks: nat := 40

  predicate IsLink(fs: Fs, p: Path) { p in fs && fs[p].Link? }

  /** The empty path is the root directory, which always exists. */
  predicate IsDir(fs: Fs, p: Path) { |p| == 0 || (p in fs && fs[p].Dir?) }

  /** No prefix of `p`, `p` included, is a link: `p` names itself. */
  predicate LinkFree(fs: Fs, p: Path)
  {
    forall j :: 1 <= j <= |p| ==> !IsLink(fs, p[..j])
  }

  /** The two file systems hold the same links with the same targets. */
  ghost predicate SameLinks(fs: Fs, fs': Fs)
  {
    forall x :: (IsLink(fs, x) <==> IsLink(fs', x)) && (IsLink(fs, x) ==> fs[x] == fs'[x])
  }

  // ---------------------------------------------------------------- resolution

  /** The length of the shortest prefix of `p`, at least `j` long, that is a link. */
  function FirstLink(fs: Fs, p: Path, j: nat): (r: Option<nat>)
    requires 1 <= j <= |p| + 1
    ensures r.Some? ==> (j <= r.value <= |p| && IsLink(fs, p[..r.value])
      && forall k :: j <= k < r.value ==> !IsLink(fs, p[..k]))
    ensures r.None? <==> forall k :: j <= k <= |p| ==> !IsLink(fs, p[..k])
    decreases |p| + 1 - j
  {
    if j > |p| then None
    else if IsLink(fs, p[..j]) then Some(j)
    else FirstLink(fs, p, j + 1)
  }

  /** The path `p` names once its links are followed; None when more than
      `hops` links would have to be followed. */
  function Resolve(fs: Fs, p: Path, hops: nat): (r: Option<Path>)
    ensures r.Some? ==> LinkFree(fs, r.value)
    ensures LinkFree(fs, p) ==> r == Some(p)
    decreases hops
  {
    match FirstLink(fs, p, 1)
    case None => Some(p)
    case Some(j) =>
      if hops == 0 then None
      else Resolve(fs, fs[p[..j]].target + p[j..], hops - 1)
  }

  /** `p` with its parent resolved and its last segment kept as is. */
  function ResolveParent(fs: Fs, p: Path): (r: Option<Path>)
    ensures r.Some? ==> (|r.value| == 0 <==> |p| == 0)
    ensures r.Some? && |p| > 0 ==> r.value[|r.value| - 1] == p[|p| - 1]
    ensures |p| > 0 && LinkFree(fs, p[..|p| - 1]) ==> r == Some(p)
  {
    if |p| == 0 then Some([])
    else
      var parent :- Resolve(fs, p[..|p| - 1], MaxLinks);
      assert p == p[..|p| - 1] + [p[|p| - 1]];
      Some(parent + [p[|p| - 1]])
  }

  function Resolved(r: Option<Path>): Result<Path, FsCode>
  {
    match r
    case None => Failure(ELOOP)
    case Some(p) => Success(p)
  }

  /** The error for a path that is absent: ENOTDIR when its parent is
      something other than a directory, ENOENT otherwise. */
  function MissingCode(fs: Fs, p: Path): FsCode
    requires |p| > 0
  {
    var parent := p[..|p| - 1];
    if parent in fs && !fs[parent].Dir? then ENOTDIR else ENOENT
  }

  // ---------------------------------------------------------------- operations

  /** Creates the missing directories among the prefixes of `q` that are at
      least `j` long, shortest first. Nothing is created when a prefix is
      something other than a directory. */
  function MakeDirs(fs: Fs, q: Path, j: nat): (r: Result<Fs, FsCode>)
    requires 1 <= j <= |q| + 1
    ensures r.Failure? <==> exists k :: j <= k <= |q| && q[..k] in fs && !fs[q[..k]].Dir?
    ensures r.Success? ==> forall k :: j <= k <= |q| ==> q[..k] in r.value && r.value[q[..k]].Dir?
    ensures r.Success? ==> forall x :: x in fs ==> x in r.value && r.value[x] == fs[x]
    ensures r.Success? ==> forall x :: x in r.value && x !in fs ==> |x| <= |q| && x == q[..|x|] && r.value[x] == Dir
    decreases |q| + 1 - j
  {
    if j > |q| then Success(fs)
    else if q[..j] !in fs then
      assert forall k :: j < k <= |q| ==> q[..k] != q[..j];
      MakeDirs(fs[q[..j] := Dir], q, j + 1)
    else match fs[q[..j]]
      case Dir => MakeDirs(fs, q, j + 1)
      case File(_) => Failure(if j == |q| then EEXIST else ENOTDIR)
      case Link(_) => Failure(ENOTDIR)
  }

  /** `fs.ensureDir`: `p` and its ancestors exist as directories afterwards,
      and nothing that existed before is touched. */
  function EnsureDir(fs: Fs, p: Path): (r: Result<Fs, FsCode>)
    ensures r.Success? ==> Resolve(fs, p, MaxLinks).Some? && IsDir(r.value, Resolve(fs, p, MaxLinks).value)
    ensures r.Success? ==> forall x :: x in fs ==> x in r.value && r.value[x] == fs[x]
    ensures r.Success? ==> forall x :: x in r.value && x !in fs ==>
      var q := Resolve(fs, p, MaxLinks).value; |x| <= |q| && x == q[..|x|] && r.value[x] == Dir
    ensures LinkFree(fs, p) ==> (r.Failure? <==> exists k :: 1 <= k <= |p| && p[..k] in fs && !fs[p[..k]].Dir?)
  {
    var q :- Resolved(Resolve(fs, p, MaxLinks));
    assert |q| == 0 || q == q[..|q|];
    MakeDirs(fs, q, 1)
  }

  /** `fs.writeFile`: creates or replaces the file `p` names; its parent
      must be a directory already. Nothing else changes. */
  function WriteFile(fs: Fs, p: Path, data: Bytes): (r: Result<Fs, FsCode>)
    ensures r.Success? ==> Resolve(fs, p, MaxLinks).Some?
    ensures r.Success? ==> var q := Resolve(fs, p, MaxLinks).value;
      |q| > 0 && IsDir(fs, q[..|q| - 1]) && q in r.value && r.value[q] == File(data)
      && forall x :: x != q ==> (x in r.value <==> x in fs) && (x in fs ==> r.value[x] == fs[x])
    ensures Resolve(fs, p, MaxLinks).Some? ==> var q := Resolve(fs, p, MaxLinks).value;
      (r.Failure? <==> |q| == 0 || (q in fs && fs[q].Dir?) || !IsDir(fs, q[..|q| - 1]))
  {
    var q :- Resolved(Resolve(fs, p, MaxLinks));
    if |q| == 0 || (q in fs && fs[q].Dir?) then Failure(EISDIR)
    else if !IsDir(fs, q[..|q| - 1]) then Failure(MissingCode(fs, q))
    else Success(fs[q := File(data)])
  }

  /** `fs.readFile`: the contents of the file `p` names. */
  function ReadFile(fs: Fs, p: Path): (r: Result<Bytes, FsCode>)
    ensures r.Success? <==> (Resolve(fs, p, MaxLinks).Some? && |Resolve(fs, p, MaxLinks).value| > 0
      && Resolve(fs, p, MaxLinks).value in fs && fs[Resolve(fs, p, MaxLinks).value].File?)
    ensures r.Success? ==> r.value == fs[Resolve(fs, p, MaxLinks).value].data
  {
    var q :- Resolved(Resolve(fs, p, MaxLinks));
    if |q| == 0 then Failure(EISDIR)
    else if q !in fs then Failure(MissingCode(fs, q))
    else match fs[q]
      case File(data) => Success(data)
      case Dir => Failure(EISDIR)
      case Link(_) => Failure(ELOOP)
  }

  /** `fs.lstat`: the node `p` names, a link itself rather than its target. */
  function Lstat(fs: Fs, p: Path): (r: Result<Node, FsCode>)
    ensures |p| > 0 && LinkFree(fs, p[..|p| - 1]) ==>
      (r.Success? <==> p in fs) && (r.Success? ==> r.value == fs[p])
  {
    var q :- Resolved(ResolveParent(fs, p));
    if |q| == 0 then Success(Dir)
    else if q in fs then Success(fs[q])
    else Failure(MissingCode(fs, q))
  }

  /** `fs.unlink`: removes the file or link `p` names; directories stay. */
  function Unlink(fs: Fs, p: Path): (r: Result<Fs, FsCode>)
    ensures |p| > 0 && LinkFree(fs, p[..|p| - 1]) ==>
      (r.Success? <==> p in fs && !fs[p].Dir?) && (r.Success? ==> r.value == fs - {p})
    ensures r.Failure? && |p| > 0 && LinkFree(fs, p[..|p| - 1]) && p !in fs ==> r.error != EISDIR
  {
    var q :- Resolved(ResolveParent(fs, p));
    if |q| == 0 then Failure(EISDIR)
    else if q !in fs then Failure(MissingCode(fs, q))
    else if fs[q].Dir? then Failure(EISDIR)
    else Success(fs - {q})
  }

  /** `fs.symlink(target, p)`: creates a link at `p`; fails when something
      is there already or the parent is not a directory. */
  function Symlink(fs: Fs, target: Path, p: Path): (r: Result<Fs, FsCode>)
    ensures |p| > 0 && LinkFree(fs, p[..|p| - 1]) ==>
      (r.Success? <==> p !in fs && IsDir(fs, p[..|p| - 1]))
      && (r.Success? ==> r.value == fs[p := Link(target)])
      && (r.Failure? && p in fs ==> r.error == EEXIST)
  {
    var q :- Resolved(ResolveParent(fs, p));
    if |q| == 0 || q in fs then Failure(EEXIST)
    else if !IsDir(fs, q[..|q| - 1]) then Failure(MissingCode(fs, q))
    else Success(fs[q := Link(target)])
  }

  /** `fs.remove`: deletes the node `p` names and everything below it; a
      path that is already absent is not an error. */
  function Remove(fs: Fs, p: Path): (r: Result<Fs, FsCode>)
    ensures |p| > 0 && LinkFree(fs, p[..|p| - 1]) ==> (r.Success?
      && (forall x :: x in r.value <==> x in fs && !(p <= x))
      && (forall x :: x in r.value ==> r.value[x] == fs[x]))
  {
    var q :- Resolved(ResolveParent(fs, p));
    Success(map x | x in fs && !(q <= x) :: fs[x])
  }

  /** The entries of directory `dir`, listed in the enumeration order
      `order`; names in `order` that are not entries are skipped. */
  function Entries(fs: Fs, dir: Path, order: seq<string>): (r: seq<Dirent>)
    ensures |r| <= |order|
    ensures forall k :: 0 <= k < |r| ==> dir + [r[k].name] in fs && r[k].isDirectory == fs[dir + [r[k].name]].Dir?
    ensures forall n :: n in order && dir + [n] in fs ==> Dirent(n, fs[dir + [n]].Dir?) in r
    ensures (forall k :: 0 <= k < |order| ==> dir + [order[k]] in fs) ==>
      |r| == |order| && forall k :: 0 <= k < |r| ==> r[k].name == order[k]
  {
    if |order| == 0 then []
    else
      var child := dir + [order[0]];
      (if child in fs then [Dirent(order[0], fs[child].Dir?)] else []) + Entries(fs, dir, order[1..])
  }

  /** `order` lists the entries of `dir`, each of them once: what the
      operating system's enumeration of a directory gives. */
  ghost predicate Enumerates(fs: Fs, dir: Path, order: seq<string>)
  {
    NoDuplicates(order) && forall n :: n in order <==> dir + [n] in fs
  }

  /** `fs.readdir(p, { withFileTypes: true })`. The order in which the
      operating system enumerates a directory is not specified, so it is a
      parameter; when it enumerates the directory, every entry is listed
      once, in that order. */
  function ReadDir(fs: Fs, p: Path, order: seq<string>): (r: Result<seq<Dirent>, FsCode>)
    ensures LinkFree(fs, p) ==> (r.Success? <==> IsDir(fs, p))
    ensures r.Success? ==> (Resolve(fs, p, MaxLinks).Some?
      && r.value == Entries(fs, Resolve(fs, p, MaxLinks).value, order))
    ensures r.Success? && Enumerates(fs, Resolve(fs, p, MaxLinks).value, order) ==>
      |r.value| == |order| && forall k :: 0 <= k < |order| ==> r.value[k].name == order[k]
  {
    var q :- Resolved(Resolve(fs, p, MaxLinks));
    if IsDir(fs, q) then Success(Entries(fs, q, order))
    else Failure(if q in fs then ENOTDIR else ENOENT)
  }

  // -------------------------------------------------------------------- lemmas

  /** Resolution only looks at links, so two file systems with the same
      links resolve every path alike. */
  lemma {:induction false} ResolveSameLinks(fs: Fs, fs': Fs, p: Path, hops: nat)
    requires SameLinks(fs, fs')
    ensures Resolve(fs, p, hops) == Resolve(fs', p, hops)
    decreases hops
  {
    FirstLinkSameLinks(fs, fs', p, 1);
    match FirstLink(fs, p, 1)
    case None =>
    case Some(j) =>
      if hops > 0 {
        ResolveSameLinks(fs, fs', fs[p[..j]].target + p[j..], hops - 1);
      }
  }

  lemma {:induction false} FirstLinkSameLinks(fs: Fs, fs': Fs, p: Path, j: nat)
    requires SameLinks(fs, fs') && 1 <= j <= |p| + 1
    ensures FirstLink(fs, p, j) == FirstLink(fs', p, j)
    decreases |p| + 1 - j
  {
    if j <= |p| {
      assert IsLink(fs, p[..j]) <==> IsLink(fs', p[..j]);
      FirstLinkSameLinks(fs, fs', p, j + 1);
    }
  }

  /** A path whose shortest link prefix is `p[..j]` resolves as the link's
      target followed by the rest of the path. */
  lemma ResolveThroughLink(fs: Fs, p: Path, j: nat, hops: nat)
    requires 1 <= j <= |p| && IsLink(fs, p[..j]) && hops > 0
    requires forall k :: 1 <= k < j ==> !IsLink(fs, p[..k])
    ensures Resolve(fs, p, hops) == Resolve(fs, fs[p[..j]].target + p[j..], hops - 1)
  {
    assert FirstLink(fs, p, 1) == Some(j);
  }

  /** Writing a file and reading it back gives the bytes written. */
  lemma WriteThenRead(fs: Fs, p: Path, data: Bytes)
    requires WriteFile(fs, p, data).Success?
    ensures ReadFile(WriteFile(fs, p, data).value, p) == Success(data)
  {
    var fs' := WriteFile(fs, p, data).value;
    var q := Resolve(fs, p, MaxLinks).value;
    assert SameLinks(fs, fs') by {
      assert !IsLink(fs, q[..|q|]);
      assert q[..|q|] == q;
    }
    ResolveSameLinks(fs, fs', p, MaxLinks);
  }

  /** `ensureDir` creates no link and removes none. */
  lemma EnsureDirSameLinks(fs: Fs, p: Path)
    requires EnsureDir(fs, p).Success?
    ensures SameLinks(fs, EnsureDir(fs, p).value)
  {
  }

  /** `writeFile` creates no link and removes none. */
  lemma WriteFileSameLinks(fs: Fs, p: Path, data: Bytes)
    requires WriteFile(fs, p, data).Success?
    ensures SameLinks(fs, WriteFile(fs, p, data).value)
  {
    var q := Resolve(fs, p, MaxLinks).value;
    assert !IsLink(fs, q[..|q|]);
    assert q[..|q|] == q;
  }

  /** `remove` is idempotent. */
  lemma RemoveIdempotent(fs: Fs, p: Path)
    requires |p| > 0 && LinkFree(fs, p[..|p| - 1])
    ensures Remove(Remove(fs, p).value, p) == Remove(fs, p)
  {
    var fs' := Remove(fs, p).value;
    var parent := p[..|p| - 1];
    assert LinkFree(fs', parent) by {
      forall j | 1 <= j <= |parent|
        ensures !IsLink(fs', parent[..j])
      {
        assert !IsLink(fs, parent[..j]);
      }
    }
    var fs'' := Remove(fs', p).value;
    assert forall x :: x in fs'' <==> x in fs';
    assert fs'' == fs';
  }

  /** A link created by `symlink` reads back through `lstat`. */
  lemma SymlinkThenLstat(fs: Fs, target: Path, p: Path)
    requires |p| > 0 && LinkFree(fs, p[..|p| - 1])
    requires Symlink(fs, target, p).Success?
    ensures Lstat(Symlink(fs, target, p).value, p) == Success(Link(target))
  {
    var fs' := Symlink(fs, target, p).value;
    var parent := p[..|p| - 1];
    assert LinkFree(fs', parent) by {
      forall j | 1 <= j <= |parent|
        ensures !IsLink(fs', parent[..j])
      {
        assert !IsLink(fs, parent[..j]);
        assert |parent[..j]| < |p|;
      }
    }
  }
}
