/** Properties of installation, deletion and reading back. They hold for a
    store whose only links are the `current` links of the plugins
    (`StoreShape`), which is what installation creates. */
module PluginInstallProperties {
  import opened Wrappers
  import opened PluginTypes
  import opened FileSystem
  import opened PluginUtils
  import opened PluginInstallManager

  /** The only links under the file system are `<root>/<id>/current`. */
  ghost predicate StoreShape(fs: Fs, root: Path)
  {
    forall x :: IsLink(fs, x) ==> |x| == |root| + 2 && x[..|root|] == root && x[|root| + 1] == CurrentName
  }

  /** `p` does not pass through a `<root>/<id>/current`. */
  predicate AvoidsCurrent(root: Path, p: Path)
  {
    |p| < |root| + 2 || p[..|root|] != root || p[|root| + 1] != CurrentName
  }

  /** The node at `x`, or its absence, is the same in both. */
  ghost predicate Keeps(fs: Fs, fs': Fs, x: Path)
  {
    (x in fs <==> x in fs') && (x in fs ==> fs'[x] == fs[x])
  }

  /** Nothing outside the plugin's own directory changes, apart from
      directories created on the way to the plugins root. */
  ghost predicate Confined(fs: Fs, fs': Fs, root: Path, id: string)
  {
    (forall x :: x in fs && !(root + [id] <= x) ==> x in fs' && fs'[x] == fs[x])
    && (forall x :: x in fs' && x !in fs ==> root + [id] <= x || (x <= root && fs'[x] == Dir))
  }

  // ------------------------------------------------------------- store shape

  lemma ShapeLinkFree(fs: Fs, root: Path, p: Path)
    requires StoreShape(fs, root) && AvoidsCurrent(root, p)
    ensures LinkFree(fs, p)
  {
    forall j | 1 <= j <= |p|
      ensures !IsLink(fs, p[..j])
    {
      if j == |root| + 2 {
        assert p[..j][..|root|] == p[..|root|];
        assert p[..j][|root| + 1] == p[|root| + 1];
      }
    }
  }

  lemma ConfinedTransitive(a: Fs, b: Fs, c: Fs, root: Path, id: string)
    requires Confined(a, b, root, id) && Confined(b, c, root, id)
    ensures Confined(a, c, root, id)
  {
    forall x | x in c && x !in a
      ensures root + [id] <= x || (x <= root && c[x] == Dir)
    {
      if x in b && !(root + [id] <= x) {
        assert x <= root && b[x] == Dir;
      }
    }
  }

  /** What every stage before the link update keeps: the store's shape,
      confinement to the plugin's directory, and the `current` link. */
  ghost predicate Within(fs: Fs, fs': Fs, l: Layout)
  {
    StoreShape(fs', l.root) && Confined(fs, fs', l.root, l.id) && Keeps(fs, fs', CurrentLink(l))
  }

  lemma WithinTransitive(a: Fs, b: Fs, c: Fs, l: Layout)
    requires Within(a, b, l) && Within(b, c, l)
    ensures Within(a, c, l)
  {
    ConfinedTransitive(a, b, c, l.root, l.id);
  }

  /** The prefixes of a version's assets directory: the ancestors of the
      plugins root, then the plugin's own directories, none of them
      `current`. */
  lemma PrefixOfAssetsDir(l: Layout, x: Path)
    requires l.version != CurrentName && x <= AssetsDir(l)
    ensures |x| <= |l.root| ==> x <= l.root
    ensures |x| > |l.root| ==> l.root + [l.id] <= x
    ensures x != CurrentLink(l)
    ensures AvoidsCurrent(l.root, x)
  {
    var root := l.root;
    assert x == AssetsDir(l)[..|x|];
    if |x| <= |root| {
      assert x == root[..|x|];
    } else {
      assert x[..|root| + 1] == root + [l.id];
      if |x| >= |root| + 2 {
        assert x[..|root|] == root;
        assert x[|root| + 1] == l.version;
        assert CurrentLink(l)[|root| + 1] == CurrentName;
      }
    }
  }

  /** `ensureDir` on a path that names itself adds directories along that
      path and nothing else. */
  lemma EnsureDirGrows(fs: Fs, p: Path)
    requires LinkFree(fs, p) && EnsureDir(fs, p).Success?
    ensures var fs' := EnsureDir(fs, p).value;
      (forall x :: x in fs ==> x in fs' && fs'[x] == fs[x])
      && (forall x :: x in fs' && x !in fs ==> x <= p && fs'[x] == Dir)
  {
    assert Resolve(fs, p, MaxLinks) == Some(p);
  }

  /** `ensureDir` on a directory of the layout. */
  lemma EnsureDirInLayout(fs: Fs, l: Layout, p: Path)
    requires StoreShape(fs, l.root) && l.version != CurrentName
    requires p <= AssetsDir(l)
    requires EnsureDir(fs, p).Success?
    ensures Within(fs, EnsureDir(fs, p).value, l)
  {
    PrefixOfAssetsDir(l, p);
    ShapeLinkFree(fs, l.root, p);
    EnsureDirGrows(fs, p);
    var fs' := EnsureDir(fs, p).value;
    forall x | x in fs' && x !in fs
      ensures l.root + [l.id] <= x || x <= l.root
      ensures x != CurrentLink(l)
    {
      assert x <= AssetsDir(l);
      PrefixOfAssetsDir(l, x);
    }
  }

  /** One of the four `ensureDir` steps, whether it completes or not. */
  lemma EnsureStepWithin(fs: Fs, l: Layout, p: Path, step: Step, fails: set<Step>)
    requires StoreShape(fs, l.root) && l.version != CurrentName
    requires p <= AssetsDir(l)
    ensures Within(fs, Run(fs, step, fails, EnsureDir(fs, p)).fs, l)
  {
    if Run(fs, step, fails, EnsureDir(fs, p)).outcome.Completed? {
      EnsureDirInLayout(fs, l, p);
    }
  }

  /** The four `ensureDir` calls keep the shape, stay in the plugin's
      directory and leave `current` alone. */
  lemma EnsureFoldersConfined(fs: Fs, l: Layout, fails: set<Step>)
    requires StoreShape(fs, l.root) && l.version != CurrentName
    ensures Within(fs, EnsureFolders(fs, l, fails).fs, l)
  {
    assert l.root <= AssetsDir(l) && PluginDir(l) <= AssetsDir(l) && VersionDir(l) <= AssetsDir(l);
    var a := Run(fs, EnsureRootStep, fails, EnsureDir(fs, l.root));
    EnsureStepWithin(fs, l, l.root, EnsureRootStep, fails);
    if a.outcome.Completed? {
      var b := Run(a.fs, EnsurePluginStep, fails, EnsureDir(a.fs, PluginDir(l)));
      EnsureStepWithin(a.fs, l, PluginDir(l), EnsurePluginStep, fails);
      WithinTransitive(fs, a.fs, b.fs, l);
      if b.outcome.Completed? {
        var c := Run(b.fs, EnsureVersionStep, fails, EnsureDir(b.fs, VersionDir(l)));
        EnsureStepWithin(b.fs, l, VersionDir(l), EnsureVersionStep, fails);
        WithinTransitive(fs, b.fs, c.fs, l);
        if c.outcome.Completed? {
          var d := Run(c.fs, EnsureAssetsStep, fails, EnsureDir(c.fs, AssetsDir(l)));
          EnsureStepWithin(c.fs, l, AssetsDir(l), EnsureAssetsStep, fails);
          WithinTransitive(fs, c.fs, d.fs, l);
          assert EnsureFolders(fs, l, fails) == d;
        } else {
          assert EnsureFolders(fs, l, fails) == c;
        }
      } else {
        assert EnsureFolders(fs, l, fails) == b;
      }
    } else {
      assert EnsureFolders(fs, l, fails) == a;
    }
  }

  /** `writeFile` on a path that does not pass through a `current` link
      replaces that one entry. */
  lemma WriteFileInStore(fs: Fs, root: Path, p: Path, data: Bytes)
    requires StoreShape(fs, root) && AvoidsCurrent(root, p)
    requires WriteFile(fs, p, data).Success?
    ensures WriteFile(fs, p, data).value == fs[p := File(data)]
    ensures StoreShape(fs[p := File(data)], root)
  {
    ShapeLinkFree(fs, root, p);
    var fs' := WriteFile(fs, p, data).value;
    assert forall x :: x in fs' <==> x in fs[p := File(data)];
  }

  /** The set of paths the asset loop writes. */
  ghost function AssetPaths(dir: Path, assets: seq<PluginAssetPayload>): set<Path>
  {
    set i | 0 <= i < |assets| :: dir + [assets[i].file]
  }

  predicate DistinctFiles(assets: seq<PluginAssetPayload>)
  {
    forall i, j :: 0 <= i < j < |assets| ==> assets[i].file != assets[j].file
  }

  lemma AssetPathsTail(dir: Path, assets: seq<PluginAssetPayload>)
    requires |assets| > 0
    ensures AssetPaths(dir, assets) == {dir + [assets[0].file]} + AssetPaths(dir, assets[1..])
  {
    forall x | x in AssetPaths(dir, assets[1..])
      ensures x in AssetPaths(dir, assets)
    {
      var i :| 0 <= i < |assets[1..]| && x == dir + [assets[1..][i].file];
      assert x == dir + [assets[i + 1].file];
    }
  }

  /** Writing one asset file of the layout. */
  lemma WriteAssetWithin(fs: Fs, l: Layout, file: string, data: Bytes)
    requires StoreShape(fs, l.root) && l.version != CurrentName
    requires WriteFile(fs, AssetsDir(l) + [file], data).Success?
    ensures WriteFile(fs, AssetsDir(l) + [file], data).value == fs[AssetsDir(l) + [file] := File(data)]
    ensures Within(fs, fs[AssetsDir(l) + [file] := File(data)], l)
  {
    var root := l.root;
    var p := AssetsDir(l) + [file];
    assert p[..|root|] == root && p[|root| + 1] == l.version;
    WriteFileInStore(fs, root, p, data);
    assert p[..|root| + 1] == root + [l.id];
    assert |p| != |CurrentLink(l)|;
  }

  /** The asset loop keeps the shape, stays in the plugin's directory and
      writes nothing but the asset files. */
  lemma {:induction false} WriteAssetsConfined(fs: Fs, l: Layout, assets: seq<PluginAssetPayload>, index: nat, fails: set<Step>)
    requires StoreShape(fs, l.root) && l.version != CurrentName
    ensures var b := WriteAssets(fs, AssetsDir(l), assets, index, fails);
      Within(fs, b.fs, l) && (forall x :: x !in AssetPaths(AssetsDir(l), assets) ==> Keeps(fs, b.fs, x))
    decreases |assets|
  {
    var dir := AssetsDir(l);
    if |assets| > 0 {
      var p := dir + [assets[0].file];
      var a := Run(fs, WriteAssetStep(index), fails, WriteFile(fs, p, assets[0].buffer));
      if a.outcome.Completed? {
        WriteAssetWithin(fs, l, assets[0].file, assets[0].buffer);
        WriteAssetsConfined(a.fs, l, assets[1..], index + 1, fails);
        var b := WriteAssets(a.fs, dir, assets[1..], index + 1, fails);
        WithinTransitive(fs, a.fs, b.fs, l);
        AssetPathsTail(dir, assets);
      }
    }
  }

  /** When the asset loop completes and the file names are distinct, each
      file holds its asset's bytes. */
  lemma {:induction false} WriteAssetsContents(fs: Fs, l: Layout, assets: seq<PluginAssetPayload>, index: nat, fails: set<Step>)
    requires StoreShape(fs, l.root) && l.version != CurrentName
    requires WriteAssets(fs, AssetsDir(l), assets, index, fails).outcome.Completed? && DistinctFiles(assets)
    ensures var b := WriteAssets(fs, AssetsDir(l), assets, index, fails);
      forall i :: 0 <= i < |assets| ==>
        AssetsDir(l) + [assets[i].file] in b.fs && b.fs[AssetsDir(l) + [assets[i].file]] == File(assets[i].buffer)
    decreases |assets|
  {
    var dir := AssetsDir(l);
    if |assets| > 0 {
      var p := dir + [assets[0].file];
      var a := Run(fs, WriteAssetStep(index), fails, WriteFile(fs, p, assets[0].buffer));
      WriteAssetWithin(fs, l, assets[0].file, assets[0].buffer);
      WriteAssetsContents(a.fs, l, assets[1..], index + 1, fails);
      WriteAssetsConfined(a.fs, l, assets[1..], index + 1, fails);
      var b := WriteAssets(a.fs, dir, assets[1..], index + 1, fails);
      assert p !in AssetPaths(dir, assets[1..]);
      forall i | 0 <= i < |assets|
        ensures dir + [assets[i].file] in b.fs && b.fs[dir + [assets[i].file]] == File(assets[i].buffer)
      {
        if i > 0 {
          assert assets[i] == assets[1..][i - 1];
        }
      }
    }
  }

  /** The parent of `current` is the plugin's directory, which no link
      lies on. */
  lemma CurrentParentLinkFree(fs: Fs, l: Layout)
    requires StoreShape(fs, l.root)
    ensures CurrentLink(l)[..|CurrentLink(l)| - 1] == PluginDir(l)
    ensures LinkFree(fs, PluginDir(l))
  {
    var link := CurrentLink(l);
    assert link[..|link| - 1] == PluginDir(l);
    ShapeLinkFree(fs, l.root, PluginDir(l));
  }

  /** A link at `current` may sit there, and may go. */
  lemma CurrentChangeKeepsShape(fs: Fs, l: Layout)
    requires StoreShape(fs, l.root)
    ensures StoreShape(fs[CurrentLink(l) := Link(VersionDir(l))], l.root)
    ensures Confined(fs, fs[CurrentLink(l) := Link(VersionDir(l))], l.root, l.id)
    ensures StoreShape(fs - {CurrentLink(l)}, l.root)
    ensures Confined(fs, fs - {CurrentLink(l)}, l.root, l.id)
  {
    var link := CurrentLink(l);
    assert link[..|l.root|] == l.root && link[|l.root| + 1] == CurrentName;
    assert l.root + [l.id] <= link;
  }

  /** The `symlink` step at `current`: the link is added or nothing happens. */
  lemma SymlinkCurrent(fs: Fs, l: Layout, fails: set<Step>)
    requires StoreShape(fs, l.root)
    ensures var d := Run(fs, SymlinkStep, fails, Symlink(fs, VersionDir(l), CurrentLink(l)));
      (d.outcome.Completed? ==> d.fs == fs[CurrentLink(l) := Link(VersionDir(l))])
      && (!d.outcome.Completed? ==> d.fs == fs && d.outcome.step == SymlinkStep)
  {
    CurrentParentLinkFree(fs, l);
  }

  /** Removing a link at `current` keeps the plugin's directory link-free. */
  lemma UnlinkCurrent(fs: Fs, l: Layout)
    requires StoreShape(fs, l.root) && IsLink(fs, CurrentLink(l))
    ensures Unlink(fs, CurrentLink(l)) == Success(fs - {CurrentLink(l)})
    ensures StoreShape(fs - {CurrentLink(l)}, l.root)
  {
    CurrentParentLinkFree(fs, l);
    CurrentChangeKeepsShape(fs, l);
  }

  /** `lstat` finds a link at `current`, which `unlink` removes before the
      new link is made. */
  lemma RetargetOverLink(fs: Fs, l: Layout, fails: set<Step>)
    requires StoreShape(fs, l.root) && IsLink(fs, CurrentLink(l))
    requires LstatStep !in fails && UnlinkStep !in fails
    ensures Retarget(fs, l, fails)
      == Run(fs - {CurrentLink(l)}, SymlinkStep, fails, Symlink(fs - {CurrentLink(l)}, VersionDir(l), CurrentLink(l)))
  {
    CurrentParentLinkFree(fs, l);
    UnlinkCurrent(fs, l);
  }

  /** No link at `current`: the new link is made straight away. */
  lemma RetargetOverNoLink(fs: Fs, l: Layout, fails: set<Step>)
    requires StoreShape(fs, l.root) && !IsLink(fs, CurrentLink(l)) && LstatStep !in fails
    requires Lstat(fs, CurrentLink(l)).Success? || Lstat(fs, CurrentLink(l)).error == ENOENT
    ensures Retarget(fs, l, fails) == Run(fs, SymlinkStep, fails, Symlink(fs, VersionDir(l), CurrentLink(l)))
  {
    CurrentParentLinkFree(fs, l);
  }

  /** What the `symlink` step leaves at `current` and elsewhere. */
  ghost predicate Relinked(fs: Fs, d: Installation, l: Layout)
  {
    StoreShape(d.fs, l.root) && Confined(fs, d.fs, l.root, l.id)
    && (forall x :: x != CurrentLink(l) ==> Keeps(fs, d.fs, x))
    && (d.outcome.Completed? ==> CurrentLink(l) in d.fs && d.fs[CurrentLink(l)] == Link(VersionDir(l)))
  }

  lemma SymlinkRelinks(fs: Fs, l: Layout, fails: set<Step>)
    requires StoreShape(fs, l.root)
    ensures Relinked(fs, Run(fs, SymlinkStep, fails, Symlink(fs, VersionDir(l), CurrentLink(l))), l)
  {
    SymlinkCurrent(fs, l, fails);
    CurrentChangeKeepsShape(fs, l);
  }

  /** What re-pointing `current` may do: relink it, or stop, having removed
      it only when the `symlink` step failed. */
  ghost predicate RetargetPost(fs: Fs, d: Installation, l: Layout)
  {
    Relinked(fs, d, l)
    && (d.outcome.StoppedAt? && d.outcome.step == SymlinkStep && IsLink(fs, CurrentLink(l)) ==> CurrentLink(l) !in d.fs)
    && (d.outcome.StoppedAt? && d.outcome.step != SymlinkStep ==> d.fs == fs)
    && (d.outcome.StoppedAt? && !IsLink(fs, CurrentLink(l)) ==> d.fs == fs)
  }

  /** An `lstat` or `unlink` that fails stops with nothing changed. */
  lemma RetargetStopsEarly(fs: Fs, l: Layout, fails: set<Step>)
    requires StoreShape(fs, l.root)
    requires LstatStep in fails || (Lstat(fs, CurrentLink(l)).Failure? && Lstat(fs, CurrentLink(l)).error != ENOENT)
      || (IsLink(fs, CurrentLink(l)) && UnlinkStep in fails)
    ensures RetargetPost(fs, Retarget(fs, l, fails), l)
  {
    CurrentParentLinkFree(fs, l);
  }

  lemma RetargetRelinksOverLink(fs: Fs, l: Layout, fails: set<Step>)
    requires StoreShape(fs, l.root) && IsLink(fs, CurrentLink(l))
    requires LstatStep !in fails && UnlinkStep !in fails
    ensures RetargetPost(fs, Retarget(fs, l, fails), l)
  {
    var link := CurrentLink(l);
    var fs' := fs - {link};
    var d := Retarget(fs, l, fails);
    RetargetOverLink(fs, l, fails);
    UnlinkCurrent(fs, l);
    SymlinkRelinks(fs', l, fails);
    SymlinkCurrent(fs', l, fails);
    CurrentChangeKeepsShape(fs, l);
    ConfinedTransitive(fs, fs', d.fs, l.root, l.id);
  }

  lemma RetargetRelinksNoLink(fs: Fs, l: Layout, fails: set<Step>)
    requires StoreShape(fs, l.root) && !IsLink(fs, CurrentLink(l)) && LstatStep !in fails
    requires Lstat(fs, CurrentLink(l)).Success? || Lstat(fs, CurrentLink(l)).error == ENOENT
    ensures RetargetPost(fs, Retarget(fs, l, fails), l)
  {
    RetargetOverNoLink(fs, l, fails);
    SymlinkRelinks(fs, l, fails);
    SymlinkCurrent(fs, l, fails);
  }

  /** Re-pointing `current` touches nothing but `current`. */
  lemma RetargetConfined(fs: Fs, l: Layout, fails: set<Step>)
    requires StoreShape(fs, l.root)
    ensures var d := Retarget(fs, l, fails);
      StoreShape(d.fs, l.root) && Confined(fs, d.fs, l.root, l.id)
      && (forall x :: x != CurrentLink(l) ==> Keeps(fs, d.fs, x))
    ensures var d := Retarget(fs, l, fails);
      d.outcome.Completed? ==> CurrentLink(l) in d.fs && d.fs[CurrentLink(l)] == Link(VersionDir(l))
    ensures var d := Retarget(fs, l, fails);
      d.outcome.StoppedAt? && d.outcome.step == SymlinkStep && IsLink(fs, CurrentLink(l)) ==> CurrentLink(l) !in d.fs
    ensures var d := Retarget(fs, l, fails);
      d.outcome.StoppedAt? && d.outcome.step != SymlinkStep ==> d.fs == fs
    ensures var d := Retarget(fs, l, fails);
      d.outcome.StoppedAt? && !IsLink(fs, CurrentLink(l)) ==> d.fs == fs
  {
    var link := CurrentLink(l);
    if LstatStep in fails || (Lstat(fs, link).Failure? && Lstat(fs, link).error != ENOENT)
      || (IsLink(fs, link) && UnlinkStep in fails)
    {
      RetargetStopsEarly(fs, l, fails);
    } else if IsLink(fs, link) {
      RetargetRelinksOverLink(fs, l, fails);
    } else {
      RetargetRelinksNoLink(fs, l, fails);
    }
  }

  // ---------------------------------------------------------- installation

  /** Writing the manifest of the layout. */
  lemma WriteManifestWithin(fs: Fs, l: Layout, data: Bytes, fails: set<Step>)
    requires StoreShape(fs, l.root)
    ensures var c := Run(fs, WriteManifestStep, fails, WriteFile(fs, ManifestFile(l), data));
      Within(fs, c.fs, l) && (c.outcome.Completed? ==> c.fs == fs[ManifestFile(l) := File(data)])
  {
    var root := l.root;
    var m := ManifestFile(l);
    if WriteFile(fs, m, data).Success? {
      WriteFileInStore(fs, root, m, data);
      assert m[..|root| + 1] == root + [l.id];
      assert m != CurrentLink(l) by {
        assert m[|root| + 1] != CurrentLink(l)[|root| + 1];
      }
    }
  }

  /** The stages of an installation that completed. */
  lemma InstallFilesStages(codec: Codec, fs: Fs, root: Path, plugin: PluginPayload, fails: set<Step>)
    requires InstallFiles(codec, fs, root, plugin, fails).outcome.Completed?
    ensures var l := LayoutOf(root, plugin.distFile);
      var a := EnsureFolders(fs, l, fails);
      var b := WriteAssets(a.fs, AssetsDir(l), plugin.assets, 0, fails);
      var c := Run(b.fs, WriteManifestStep, fails, WriteFile(b.fs, ManifestFile(l), ManifestBytes(codec, plugin.distFile)));
      a.outcome.Completed? && b.outcome.Completed? && c.outcome.Completed?
      && InstallFiles(codec, fs, root, plugin, fails) == Retarget(c.fs, l, fails)
  {
  }

  /** Installation keeps the store's shape and stays in the plugin's own
      directory; when it stops before reaching the `current` link, that
      link is as it was. */
  lemma InstallFilesConfined(codec: Codec, fs: Fs, root: Path, plugin: PluginPayload, fails: set<Step>)
    requires StoreShape(fs, root) && plugin.distFile.metadata.version != CurrentName
    ensures var r := InstallFiles(codec, fs, root, plugin, fails);
      StoreShape(r.fs, root) && Confined(fs, r.fs, root, plugin.distFile.metadata.id)
    ensures var r := InstallFiles(codec, fs, root, plugin, fails);
      r.outcome.StoppedAt? && r.outcome.step !in {LstatStep, UnlinkStep, SymlinkStep} ==>
        Keeps(fs, r.fs, CurrentLink(LayoutOf(root, plugin.distFile)))
    ensures var r := InstallFiles(codec, fs, root, plugin, fails);
      r.outcome.StoppedAt? && r.outcome.step == SymlinkStep && IsLink(fs, CurrentLink(LayoutOf(root, plugin.distFile))) ==>
        CurrentLink(LayoutOf(root, plugin.distFile)) !in r.fs
  {
    var l := LayoutOf(root, plugin.distFile);
    var a := EnsureFolders(fs, l, fails);
    EnsureFoldersConfined(fs, l, fails);
    if !a.outcome.Completed? {
      assert InstallFiles(codec, fs, root, plugin, fails) == a;
      return;
    }
    var b := WriteAssets(a.fs, AssetsDir(l), plugin.assets, 0, fails);
    WriteAssetsConfined(a.fs, l, plugin.assets, 0, fails);
    WithinTransitive(fs, a.fs, b.fs, l);
    if !b.outcome.Completed? {
      assert InstallFiles(codec, fs, root, plugin, fails) == b;
      return;
    }
    var c := Run(b.fs, WriteManifestStep, fails, WriteFile(b.fs, ManifestFile(l), ManifestBytes(codec, plugin.distFile)));
    WriteManifestWithin(b.fs, l, ManifestBytes(codec, plugin.distFile), fails);
    WithinTransitive(fs, b.fs, c.fs, l);
    if !c.outcome.Completed? {
      assert InstallFiles(codec, fs, root, plugin, fails) == c;
      return;
    }
    var d := Retarget(c.fs, l, fails);
    assert InstallFiles(codec, fs, root, plugin, fails) == d;
    RetargetConfined(c.fs, l, fails);
    ConfinedTransitive(fs, c.fs, d.fs, root, l.id);
  }

  /** An installation that stops while re-pointing `current` leaves the new
      manifest written, while `current` is either as it was or gone: the
      store then pairs the new manifest with the old version's assets, or
      with none. */
  lemma InstallStopsTorn(codec: Codec, fs: Fs, root: Path, plugin: PluginPayload, fails: set<Step>)
    requires StoreShape(fs, root) && plugin.distFile.metadata.version != CurrentName
    requires var r := InstallFiles(codec, fs, root, plugin, fails);
      r.outcome.StoppedAt? && r.outcome.step in {LstatStep, UnlinkStep, SymlinkStep}
    ensures var r := InstallFiles(codec, fs, root, plugin, fails);
      var l := LayoutOf(root, plugin.distFile);
      ManifestFile(l) in r.fs && r.fs[ManifestFile(l)] == File(ManifestBytes(codec, plugin.distFile))
    ensures var r := InstallFiles(codec, fs, root, plugin, fails);
      var l := LayoutOf(root, plugin.distFile);
      Keeps(fs, r.fs, CurrentLink(l)) || CurrentLink(l) !in r.fs
  {
    var l := LayoutOf(root, plugin.distFile);
    var data := ManifestBytes(codec, plugin.distFile);
    var a := EnsureFolders(fs, l, fails);
    var b := WriteAssets(a.fs, AssetsDir(l), plugin.assets, 0, fails);
    var c := Run(b.fs, WriteManifestStep, fails, WriteFile(b.fs, ManifestFile(l), data));
    var d := Retarget(c.fs, l, fails);
    assert a.outcome.Completed? && b.outcome.Completed? && c.outcome.Completed?;
    assert InstallFiles(codec, fs, root, plugin, fails) == d;
    EnsureFoldersConfined(fs, l, fails);
    WriteAssetsConfined(a.fs, l, plugin.assets, 0, fails);
    WithinTransitive(fs, a.fs, b.fs, l);
    WriteManifestWithin(b.fs, l, data, fails);
    WithinTransitive(fs, b.fs, c.fs, l);
    assert ManifestFile(l) != CurrentLink(l) by {
      assert ManifestFile(l)[|root| + 1] != CurrentLink(l)[|root| + 1];
    }
    RetargetConfined(c.fs, l, fails);
    assert Keeps(c.fs, d.fs, ManifestFile(l));
  }

  /** Reading an asset through `current` reads the file of the version the
      link points at. */
  lemma ReadThroughCurrent(fs: Fs, l: Layout, file: string)
    requires StoreShape(fs, l.root) && l.version != CurrentName
    requires CurrentLink(l) in fs && fs[CurrentLink(l)] == Link(VersionDir(l))
    ensures ReadFile(fs, l.root + [l.id, CurrentName, AssetsName, file]) == ReadFile(fs, AssetsDir(l) + [file])
  {
    var root := l.root;
    var p := root + [l.id, CurrentName, AssetsName, file];
    var j := |root| + 2;
    assert p[..j] == CurrentLink(l);
    assert p[j..] == [AssetsName, file];
    assert VersionDir(l) + p[j..] == AssetsDir(l) + [file];
    ResolveThroughLink(fs, p, j, MaxLinks);
    var q := AssetsDir(l) + [file];
    assert q[..|root|] == root && q[|root| + 1] == l.version;
    ShapeLinkFree(fs, root, q);
  }

  /** The stored manifest reads back as the one written, when the codec
      round-trips it. */
  lemma ReadManifestWritten(codec: Codec, fs: Fs, root: Path, dist: DistFile)
    requires StoreShape(fs, root) && ManifestRoundTrips(codec, dist)
    requires var m := ManifestFile(LayoutOf(root, dist)); m in fs && fs[m] == File(ManifestBytes(codec, dist))
    ensures ReadManifest(codec, fs, root + [dist.metadata.id]) == Success(dist)
  {
    var m := ManifestFile(LayoutOf(root, dist));
    assert root + [dist.metadata.id] + [ManifestName] == m;
    ShapeLinkFree(fs, root, m);
  }

  /** The asset files and the manifest of a plugin whose `current` link
      points at its version. */
  ghost predicate Stored(codec: Codec, fs: Fs, l: Layout, plugin: PluginPayload)
  {
    CurrentLink(l) in fs && fs[CurrentLink(l)] == Link(VersionDir(l))
    && ManifestFile(l) in fs && fs[ManifestFile(l)] == File(ManifestBytes(codec, plugin.distFile))
    && forall i :: 0 <= i < |plugin.assets| ==>
      AssetsDir(l) + [plugin.assets[i].file] in fs && fs[AssetsDir(l) + [plugin.assets[i].file]] == File(plugin.assets[i].buffer)
  }

  /** Every asset file of the layout holds its asset's bytes. */
  ghost predicate HasAssets(fs: Fs, l: Layout, assets: seq<PluginAssetPayload>)
  {
    forall i :: 0 <= i < |assets| ==>
      AssetsDir(l) + [assets[i].file] in fs && fs[AssetsDir(l) + [assets[i].file]] == File(assets[i].buffer)
  }

  /** Writing the manifest keeps the asset files. */
  lemma ManifestKeepsAssets(fs: Fs, l: Layout, assets: seq<PluginAssetPayload>, data: Bytes)
    requires HasAssets(fs, l, assets)
    ensures HasAssets(fs[ManifestFile(l) := File(data)], l, assets)
  {
    forall i | 0 <= i < |assets|
      ensures AssetsDir(l) + [assets[i].file] != ManifestFile(l)
    {
      assert |AssetsDir(l) + [assets[i].file]| != |ManifestFile(l)|;
    }
  }

  /** A completed link update keeps the manifest and the asset files and
      points `current` at the version. */
  lemma RetargetStores(codec: Codec, fs: Fs, l: Layout, plugin: PluginPayload, fails: set<Step>)
    requires StoreShape(fs, l.root) && HasAssets(fs, l, plugin.assets)
    requires ManifestFile(l) in fs && fs[ManifestFile(l)] == File(ManifestBytes(codec, plugin.distFile))
    requires Retarget(fs, l, fails).outcome.Completed?
    ensures StoreShape(Retarget(fs, l, fails).fs, l.root) && Stored(codec, Retarget(fs, l, fails).fs, l, plugin)
  {
    var final := Retarget(fs, l, fails).fs;
    RetargetConfined(fs, l, fails);
    var root := l.root;
    assert ManifestFile(l) != CurrentLink(l) by {
      assert ManifestFile(l)[|root| + 1] != CurrentLink(l)[|root| + 1];
    }
    assert Keeps(fs, final, ManifestFile(l));
    forall i | 0 <= i < |plugin.assets|
      ensures AssetsDir(l) + [plugin.assets[i].file] in final
      ensures final[AssetsDir(l) + [plugin.assets[i].file]] == File(plugin.assets[i].buffer)
    {
      var q := AssetsDir(l) + [plugin.assets[i].file];
      assert |q| != |CurrentLink(l)|;
      assert Keeps(fs, final, q);
    }
  }

  /** A completed file stage leaves the plugin stored. */
  lemma InstallFilesStores(codec: Codec, fs: Fs, root: Path, plugin: PluginPayload, fails: set<Step>)
    requires StoreShape(fs, root) && plugin.distFile.metadata.version != CurrentName
    requires DistinctFiles(plugin.assets)
    requires InstallFiles(codec, fs, root, plugin, fails).outcome.Completed?
    ensures var final := InstallFiles(codec, fs, root, plugin, fails).fs;
      StoreShape(final, root) && Stored(codec, final, LayoutOf(root, plugin.distFile), plugin)
  {
    var dist := plugin.distFile;
    var l := LayoutOf(root, dist);
    var data := ManifestBytes(codec, dist);
    InstallFilesStages(codec, fs, root, plugin, fails);
    var a := EnsureFolders(fs, l, fails);
    EnsureFoldersConfined(fs, l, fails);
    var b := WriteAssets(a.fs, AssetsDir(l), plugin.assets, 0, fails);
    WriteAssetsConfined(a.fs, l, plugin.assets, 0, fails);
    WriteAssetsContents(a.fs, l, plugin.assets, 0, fails);
    assert HasAssets(b.fs, l, plugin.assets);
    var c := Run(b.fs, WriteManifestStep, fails, WriteFile(b.fs, ManifestFile(l), data));
    WriteManifestWithin(b.fs, l, data, fails);
    assert c.fs == b.fs[ManifestFile(l) := File(data)];
    ManifestKeepsAssets(b.fs, l, plugin.assets, data);
    RetargetStores(codec, c.fs, l, plugin, fails);
  }

  /** One stored asset reads back through `current`. */
  lemma StoredAssetReads(codec: Codec, fs: Fs, l: Layout, plugin: PluginPayload, i: nat)
    requires StoreShape(fs, l.root) && l.version != CurrentName
    requires Stored(codec, fs, l, plugin) && i < |plugin.assets|
    ensures ReadFile(fs, l.root + [l.id, CurrentName, AssetsName] + [plugin.assets[i].file]) == Success(plugin.assets[i].buffer)
  {
    var root := l.root;
    var file := plugin.assets[i].file;
    var q := AssetsDir(l) + [file];
    assert l.root + [l.id, CurrentName, AssetsName] + [file] == root + [l.id, CurrentName, AssetsName, file];
    ReadThroughCurrent(fs, l, file);
    assert q[..|root|] == root && q[|root| + 1] == l.version;
    ShapeLinkFree(fs, root, q);
    assert fs[q] == File(plugin.assets[i].buffer);
  }

  /** A stored plugin reads back, through `current`, as it was stored. */
  lemma StoredReads(codec: Codec, fs: Fs, l: Layout, plugin: PluginPayload)
    requires StoreShape(fs, l.root) && l == LayoutOf(l.root, plugin.distFile) && l.version != CurrentName
    requires ManifestRoundTrips(codec, plugin.distFile) && Stored(codec, fs, l, plugin)
    requires |plugin.assets| == |plugin.distFile.assets|
    requires forall i :: 0 <= i < |plugin.assets| ==>
      (plugin.assets[i].file == plugin.distFile.assets[i].file
      && plugin.assets[i].assetType == plugin.distFile.assets[i].assetType)
    ensures ReadManifest(codec, fs, PluginDir(l)) == Success(plugin.distFile)
    ensures ReadAssets(fs, l.root + [l.id, CurrentName, AssetsName], plugin.distFile.assets) == Success(plugin.assets)
  {
    var dist := plugin.distFile;
    ReadManifestWritten(codec, fs, l.root, dist);
    var dir := l.root + [l.id, CurrentName, AssetsName];
    forall i | 0 <= i < |dist.assets|
      ensures ReadFile(fs, dir + [dist.assets[i].file]) == Success(plugin.assets[i].buffer)
    {
      StoredAssetReads(codec, fs, l, plugin, i);
    }
    var read := ReadAssets(fs, dir, dist.assets);
    assert read.Success?;
    assert read.value == plugin.assets;
  }

  /** `getPluginFromPath` verifies what it reads. */
  lemma PathLoads(env: Env, fs: Fs, root: Path, id: string, version: string, dist: DistFile, assets: seq<PluginAssetPayload>)
    requires ReadManifest(env.codec, fs, root + [id]) == Success(dist)
    requires ReadAssets(fs, root + [id, version, AssetsName], dist.assets) == Success(assets)
    ensures GetPluginFromPath(env, fs, root, id, version) == VerifyPlugin(env, PluginPayload(dist, assets, Some(false)))
  {
    assert root + [id] + [version, AssetsName] == root + [id, version, AssetsName];
  }

  /** A stored plugin loads, through `current`, as the payload whose
      verification gave it. */
  lemma StoredLoads(env: Env, fs: Fs, l: Layout, plugin: PluginPayload)
    requires StoreShape(fs, l.root) && l == LayoutOf(l.root, plugin.distFile) && l.version != CurrentName
    requires ManifestRoundTrips(env.codec, plugin.distFile) && Stored(env.codec, fs, l, plugin)
    requires |plugin.assets| == |plugin.distFile.assets|
    requires forall i :: 0 <= i < |plugin.assets| ==>
      (plugin.assets[i].file == plugin.distFile.assets[i].file
      && plugin.assets[i].assetType == plugin.distFile.assets[i].assetType)
    requires VerifyPlugin(env, PluginPayload(plugin.distFile, plugin.assets, Some(false))) == Success(plugin)
    ensures GetPluginFromPath(env, fs, l.root, l.id, CurrentName) == Success(plugin)
  {
    StoredReads(env.codec, fs, l, plugin);
    PathLoads(env, fs, l.root, l.id, CurrentName, plugin.distFile, plugin.assets);
  }

  /** A manifest served as `JSON.stringify` writes it is fetched as itself. */
  lemma ServedManifestFetched(env: Env, baseUrl: string, dist: DistFile)
    requires ManifestRoundTrips(env.codec, dist)
    requires env.fetch(DistFileUrl(baseUrl)) == Some(ManifestBytes(env.codec, dist))
    ensures FetchManifest(env, baseUrl) == Success(dist)
  {
  }

  /** What a successful download is made of. */
  lemma DownloadVerified(env: Env, baseUrl: string)
    requires GetPluginFromUrl(env, baseUrl).Success?
    ensures var plugin := GetPluginFromUrl(env, baseUrl).value;
      VerifyPlugin(env, PluginPayload(plugin.distFile, plugin.assets, Some(false))) == Success(plugin)
  {
    var dist := FetchManifest(env, baseUrl).value;
    var assets := FetchAssets(env, dist, dist.assets).value;
    assert GetPluginFromUrl(env, baseUrl) == VerifyPlugin(env, PluginPayload(dist, assets, Some(false)));
  }

  /** After a completed installation the plugin reads back, through its
      `current` link, as exactly the payload that was downloaded. */
  lemma InstallReadback(env: Env, fs: Fs, root: Path, baseUrl: string, fails: set<Step>)
    requires StoreShape(fs, root)
    requires GetPluginFromUrl(env, baseUrl).Success?
    requires var plugin := GetPluginFromUrl(env, baseUrl).value;
      plugin.distFile.metadata.version != CurrentName
      && ManifestRoundTrips(env.codec, plugin.distFile)
      && DistinctFiles(plugin.assets)
    requires InstallPlugin(env, fs, root, baseUrl, fails).outcome.Completed?
    ensures var plugin := GetPluginFromUrl(env, baseUrl).value;
      GetPluginFromPath(env, InstallPlugin(env, fs, root, baseUrl, fails).fs, root, plugin.distFile.metadata.id, CurrentName)
        == Success(plugin)
  {
    var plugin := GetPluginFromUrl(env, baseUrl).value;
    var l := LayoutOf(root, plugin.distFile);
    var final := InstallFiles(env.codec, fs, root, plugin, fails).fs;
    assert InstallPlugin(env, fs, root, baseUrl, fails).fs == final;
    InstallFilesStores(env.codec, fs, root, plugin, fails);
    DownloadVerified(env, baseUrl);
    StoredLoads(env, final, l, plugin);
  }

  /** Deleting a plugin removes its directory and nothing else, keeps the
      store's shape, and afterwards the plugin cannot be read. */
  lemma DeleteRemovesPlugin(env: Env, fs: Fs, root: Path, id: string, version: string)
    requires StoreShape(fs, root)
    ensures var fs' := DeletePluginById(fs, root, id, false);
      StoreShape(fs', root)
      && (forall x :: x in fs' <==> x in fs && !(root + [id] <= x))
      && GetPluginFromPath(env, fs', root, id, version) == Failure(FileSystemFailure(root + [id, ManifestName], ENOENT))
  {
    ShapeLinkFree(fs, root, root);
    var fs' := DeletePluginById(fs, root, id, false);
    var m := root + [id, ManifestName];
    assert root + [id] + [ManifestName] == m;
    ShapeLinkFree(fs', root, m);
    assert root + [id] <= m;
    assert m[..|m| - 1] == root + [id];
  }

  /** Deleting twice is deleting once. */
  lemma DeleteIdempotent(fs: Fs, root: Path, id: string)
    requires StoreShape(fs, root)
    ensures DeletePluginById(DeletePluginById(fs, root, id, false), root, id, false) == DeletePluginById(fs, root, id, false)
  {
    ShapeLinkFree(fs, root, root);
    var fs' := DeletePluginById(fs, root, id, false);
    ShapeLinkFree(fs', root, root);
    var fs'' := DeletePluginById(fs', root, id, false);
    assert forall x :: x in fs'' <==> x in fs';
    assert fs'' == fs';
  }
}
