/** The main process's plugin manager: downloading a plugin, installing it
    under the plugins root, deleting it, listing the installed plugins and
    checking them for updates.

    Layout under the plugins root, per plugin id:
      <id>/dist.json                 the manifest of the latest install
      <id>/<version>/assets/<file>   the assets of each installed version
      <id>/current                   a link to the version in use

    The plugins root is a parameter (the source derives it from Electron's
    user-data directory). Every file-system call of an installation is a
    `Step`; the set `fails` names the steps that fail with EIO, so that each
    error path of the source can be reached. */
module PluginInstallManager {
  import opened Wrappers
  import opened PluginTypes
  import opened FileSystem
  import opened PluginUtils
  import Semver

  const CurrentName := "current"
  const ManifestName := "dist.json"
  const AssetsName := "assets"

  datatype Step =
    | EnsureRootStep
    | EnsurePluginStep
    | EnsureVersionStep
    | EnsureAssetsStep
    | WriteAssetStep(index: nat)
    | WriteManifestStep
    | LstatStep
    | UnlinkStep
    | SymlinkStep

  /** How an installation ended: the download failed (the source's promise
      rejects), a file-system step failed (the source logs and returns), or
      every step succeeded. */
  datatype Outcome =
    | FetchFailed(error: Error)
    | StoppedAt(step: Step, code: FsCode)
    | Completed

  datatype Installation = Installation(fs: Fs, outcome: Outcome)

  /** Where one version of one plugin lives. */
  datatype Layout = Layout(root: Path, id: string, version: string)

  function PluginDir(l: Layout): Path { l.root + [l.id] }

  function VersionDir(l: Layout): Path { l.root + [l.id, l.version] }

  function AssetsDir(l: Layout): Path { l.root + [l.id, l.version, AssetsName] }

  function CurrentLink(l: Layout): Path { l.root + [l.id, CurrentName] }

  function ManifestFile(l: Layout): Path { l.root + [l.id, ManifestName] }

  function LayoutOf(root: Path, dist: DistFile): Layout
  {
    Layout(root, dist.metadata.id, dist.metadata.version)
  }

  /** The bytes `JSON.stringify` gives for a manifest. */
  function ManifestBytes(codec: Codec, dist: DistFile): Bytes
  {
    codec.stringify(codec.distFileJson(dist))
  }

  function OrElse<T>(o: Option<T>, e: Error): Result<T, Error>
  {
    match o
    case None => Failure(e)
    case Some(v) => Success(v)
  }

  function OnPath<T>(r: Result<T, FsCode>, path: Path): Result<T, Error>
  {
    match r
    case Failure(code) => Failure(FileSystemFailure(path, code))
    case Success(v) => Success(v)
  }

  // ------------------------------------------------------------------ download

  /** The manifest served at `<baseUrl>/dist.json`: a rejected request is a
      network failure, a body that is not a manifest a parse failure. */
  function FetchManifest(env: Env, baseUrl: string): (r: Result<DistFile, Error>)
    ensures env.fetch(DistFileUrl(baseUrl)).None? ==> r == Failure(NetworkFailure(DistFileUrl(baseUrl)))
    ensures env.fetch(DistFileUrl(baseUrl)).Some? ==>
      (r.Success? <==> ParseDistFile(env.codec, env.fetch(DistFileUrl(baseUrl)).value).Some?)
    ensures env.fetch(DistFileUrl(baseUrl)).Some? && r.Failure? ==> r.error == ParseFailure(ManifestName)
    ensures r.Success? ==> ParseDistFile(env.codec, env.fetch(DistFileUrl(baseUrl)).value) == Some(r.value)
  {
    var url := DistFileUrl(baseUrl);
    var body :- OrElse(env.fetch(url), NetworkFailure(url));
    OrElse(ParseDistFile(env.codec, body), ParseFailure(ManifestName))
  }

  /** The assets a manifest lists, each fetched from the manifest's origin,
      one after the other; the first rejected fetch aborts. */
  function FetchAssets(env: Env, dist: DistFile, assets: seq<PluginAsset>): (r: Result<seq<PluginAssetPayload>, Error>)
    ensures r.Success? <==> forall i :: 0 <= i < |assets| ==> env.fetch(AssetUrl(dist, assets[i])).Some?
    ensures r.Success? ==> |r.value| == |assets|
    ensures r.Success? ==> forall i :: 0 <= i < |assets| ==>
      r.value[i] == PluginAssetPayload(assets[i].file, assets[i].assetType, env.fetch(AssetUrl(dist, assets[i])).value)
  {
    if |assets| == 0 then Success([])
    else
      var url := AssetUrl(dist, assets[0]);
      match env.fetch(url)
      case None => Failure(NetworkFailure(url))
      case Some(buffer) =>
        var rest :- FetchAssets(env, dist, assets[1..]);
        Success([PluginAssetPayload(assets[0].file, assets[0].assetType, buffer)] + rest)
  }

  /** `getPluginFromUrl`: the manifest, its assets in manifest order, and the
      verification verdict. */
  function GetPluginFromUrl(env: Env, baseUrl: string): (r: Result<PluginPayload, Error>)
    ensures env.fetch(DistFileUrl(baseUrl)).None? ==> r == Failure(NetworkFailure(DistFileUrl(baseUrl)))
    ensures r.Success? ==> FetchManifest(env, baseUrl) == Success(r.value.distFile)
    ensures r.Success? ==> |r.value.assets| == |r.value.distFile.assets|
    ensures r.Success? ==> forall i :: 0 <= i < |r.value.assets| ==>
      var asset := r.value.distFile.assets[i];
      r.value.assets[i].file == asset.file && r.value.assets[i].assetType == asset.assetType
      && env.fetch(AssetUrl(r.value.distFile, asset)) == Some(r.value.assets[i].buffer)
    ensures r.Success? ==> r.value.verified.Some?
  {
    var dist :- FetchManifest(env, baseUrl);
    var assets :- FetchAssets(env, dist, dist.assets);
    VerifyPlugin(env, PluginPayload(dist, assets, Some(false)))
  }

  // ------------------------------------------------------------------- install

  /** One file-system step: an injected fault or the call's own error stops
      the installation with the file system as it was before the step. */
  function Run(fs: Fs, step: Step, fails: set<Step>, r: Result<Fs, FsCode>): (i: Installation)
    ensures i.outcome.Completed? <==> step !in fails && r.Success?
    ensures i.outcome.Completed? ==> i.fs == r.value
    ensures !i.outcome.Completed? ==> i.fs == fs && i.outcome.StoppedAt? && i.outcome.step == step
  {
    if step in fails then Installation(fs, StoppedAt(step, EIO))
    else match r
      case Success(next) => Installation(next, Completed)
      case Failure(code) => Installation(fs, StoppedAt(step, code))
  }

  /** The four `ensureDir` calls. */
  function EnsureFolders(fs: Fs, l: Layout, fails: set<Step>): (r: Installation)
    ensures r.outcome.Completed? || (r.outcome.StoppedAt?
      && r.outcome.step in {EnsureRootStep, EnsurePluginStep, EnsureVersionStep, EnsureAssetsStep})
  {
    var a := Run(fs, EnsureRootStep, fails, EnsureDir(fs, l.root));
    if !a.outcome.Completed? then a else
    var b := Run(a.fs, EnsurePluginStep, fails, EnsureDir(a.fs, PluginDir(l)));
    if !b.outcome.Completed? then b else
    var c := Run(b.fs, EnsureVersionStep, fails, EnsureDir(b.fs, VersionDir(l)));
    if !c.outcome.Completed? then c else
    Run(c.fs, EnsureAssetsStep, fails, EnsureDir(c.fs, AssetsDir(l)))
  }

  /** The asset loop; `index` is the position of `assets[0]` in the plugin. */
  function WriteAssets(fs: Fs, dir: Path, assets: seq<PluginAssetPayload>, index: nat, fails: set<Step>): (r: Installation)
    ensures r.outcome.Completed? || (r.outcome.StoppedAt? && r.outcome.step.WriteAssetStep?)
    decreases |assets|
  {
    if |assets| == 0 then Installation(fs, Completed)
    else
      var a := Run(fs, WriteAssetStep(index), fails, WriteFile(fs, dir + [assets[0].file], assets[0].buffer));
      if !a.outcome.Completed? then a
      else WriteAssets(a.fs, dir, assets[1..], index + 1, fails)
  }

  /** Pointing `current` at the new version: an existing link is removed
      first; a missing `current` is not an error; anything else that sits
      at `current` stays and makes the `symlink` call fail. */
  function Retarget(fs: Fs, l: Layout, fails: set<Step>): (r: Installation)
    ensures r.outcome.Completed? || (r.outcome.StoppedAt? && r.outcome.step in {LstatStep, UnlinkStep, SymlinkStep})
  {
    var link := CurrentLink(l);
    var stat := if LstatStep in fails then Failure(EIO) else Lstat(fs, link);
    if stat.Failure? && stat.error != ENOENT then Installation(fs, StoppedAt(LstatStep, stat.error))
    else if stat.Success? && stat.value.Link? then
      var unlinked := if UnlinkStep in fails then Failure(EIO) else Unlink(fs, link);
      if unlinked.Failure? && unlinked.error != ENOENT then Installation(fs, StoppedAt(UnlinkStep, unlinked.error))
      else
        var next := if unlinked.Success? then unlinked.value else fs;
        Run(next, SymlinkStep, fails, Symlink(next, VersionDir(l), link))
    else Run(fs, SymlinkStep, fails, Symlink(fs, VersionDir(l), link))
  }

  /** The file-system part of `installPlugin`, once the plugin is downloaded. */
  function InstallFiles(codec: Codec, fs: Fs, root: Path, plugin: PluginPayload, fails: set<Step>): (r: Installation)
    ensures !r.outcome.FetchFailed?
  {
    var l := LayoutOf(root, plugin.distFile);
    var a := EnsureFolders(fs, l, fails);
    if !a.outcome.Completed? then a else
    var b := WriteAssets(a.fs, AssetsDir(l), plugin.assets, 0, fails);
    if !b.outcome.Completed? then b else
    var c := Run(b.fs, WriteManifestStep, fails, WriteFile(b.fs, ManifestFile(l), ManifestBytes(codec, plugin.distFile)));
    if !c.outcome.Completed? then c else
    Retarget(c.fs, l, fails)
  }

  /** `installPlugin`. A failed download rejects before the file system is
      touched; the verdict of verification does not stop the installation. */
  function InstallPlugin(env: Env, fs: Fs, root: Path, baseUrl: string, fails: set<Step>): (r: Installation)
    ensures r.outcome.FetchFailed? <==> GetPluginFromUrl(env, baseUrl).Failure?
    ensures r.outcome.FetchFailed? ==> r.fs == fs && r.outcome.error == GetPluginFromUrl(env, baseUrl).error
  {
    match GetPluginFromUrl(env, baseUrl)
    case Failure(e) => Installation(fs, FetchFailed(e))
    case Success(plugin) => InstallFiles(env.codec, fs, root, plugin, fails)
  }

  // -------------------------------------------------------------------- delete

  /** `deletePluginById`: removes the plugin's directory with everything in
      it. A failure of `remove` (`fault`, or its own error) is logged and
      swallowed, and leaves the file system as it was. */
  function DeletePluginById(fs: Fs, root: Path, id: string, fault: bool): (r: Fs)
    ensures forall x :: x in r ==> x in fs && r[x] == fs[x]
    ensures !fault && LinkFree(fs, root) ==> forall x :: x in r <==> x in fs && !(root + [id] <= x)
  {
    if fault then fs
    else match Remove(fs, root + [id])
      case Success(next) => next
      case Failure(_) => fs
  }

  // ---------------------------------------------------------------------- read

  /** The manifest stored in a plugin directory: a read error names the
      file, a body that is not a manifest is a parse failure. */
  function ReadManifest(codec: Codec, fs: Fs, pluginDir: Path): (r: Result<DistFile, Error>)
    ensures ReadFile(fs, pluginDir + [ManifestName]).Failure? ==>
      r == Failure(FileSystemFailure(pluginDir + [ManifestName], ReadFile(fs, pluginDir + [ManifestName]).error))
    ensures ReadFile(fs, pluginDir + [ManifestName]).Success? ==>
      (r.Success? <==> ParseDistFile(codec, ReadFile(fs, pluginDir + [ManifestName]).value).Some?)
    ensures r.Success? ==> ParseDistFile(codec, ReadFile(fs, pluginDir + [ManifestName]).value) == Some(r.value)
  {
    var path := pluginDir + [ManifestName];
    var body :- OnPath(ReadFile(fs, path), path);
    OrElse(ParseDistFile(codec, body), ParseFailure(ManifestName))
  }

  /** The stored assets a manifest lists, read from `dir`. */
  function ReadAssets(fs: Fs, dir: Path, assets: seq<PluginAsset>): (r: Result<seq<PluginAssetPayload>, Error>)
    ensures r.Success? <==> forall i :: 0 <= i < |assets| ==> ReadFile(fs, dir + [assets[i].file]).Success?
    ensures r.Success? ==> |r.value| == |assets|
    ensures r.Success? ==> forall i :: 0 <= i < |assets| ==>
      r.value[i] == PluginAssetPayload(assets[i].file, assets[i].assetType, ReadFile(fs, dir + [assets[i].file]).value)
  {
    if |assets| == 0 then Success([])
    else
      var path := dir + [assets[0].file];
      var buffer :- OnPath(ReadFile(fs, path), path);
      var rest :- ReadAssets(fs, dir, assets[1..]);
      Success([PluginAssetPayload(assets[0].file, assets[0].assetType, buffer)] + rest)
  }

  /** `getPluginFromPath`: the plugin's manifest (there is one per plugin,
      not one per version) with the assets of `version`, verified afresh. */
  function GetPluginFromPath(env: Env, fs: Fs, root: Path, id: string, version: string): (r: Result<PluginPayload, Error>)
    ensures r.Success? ==> ReadManifest(env.codec, fs, root + [id]) == Success(r.value.distFile)
    ensures r.Success? ==> ReadAssets(fs, root + [id, version, AssetsName], r.value.distFile.assets) == Success(r.value.assets)
    ensures r.Success? ==> r.value.verified.Some?
    ensures ReadManifest(env.codec, fs, root + [id]).Failure? ==> r.Failure?
  {
    var dir := root + [id];
    var dist :- ReadManifest(env.codec, fs, dir);
    assert dir + [version, AssetsName] == root + [id, version, AssetsName];
    var assets :- ReadAssets(fs, dir + [version, AssetsName], dist.assets);
    VerifyPlugin(env, PluginPayload(dist, assets, Some(false)))
  }

  /** The names of the entries that are directories, in listing order. */
  function PluginDirNames(entries: seq<Dirent>): (names: seq<string>)
    ensures forall n :: n in names <==> Dirent(n, true) in entries
  {
    if |entries| == 0 then []
    else (if entries[0].isDirectory then [entries[0].name] else []) + PluginDirNames(entries[1..])
  }

  /** Every plugin of `ids` at its current version; the first failure aborts. */
  function LoadEach(env: Env, fs: Fs, root: Path, ids: seq<string>): (r: Result<seq<PluginPayload>, Error>)
    ensures r.Success? <==> forall k :: 0 <= k < |ids| ==> GetPluginFromPath(env, fs, root, ids[k], CurrentName).Success?
    ensures r.Success? ==> |r.value| == |ids|
    ensures r.Success? ==> forall k :: 0 <= k < |ids| ==> r.value[k] == GetPluginFromPath(env, fs, root, ids[k], CurrentName).value
  {
    if |ids| == 0 then Success([])
    else
      var head :- GetPluginFromPath(env, fs, root, ids[0], CurrentName);
      var rest :- LoadEach(env, fs, root, ids[1..]);
      Success([head] + rest)
  }

  /** The manifest of every plugin of `ids`; the first failure aborts. */
  function ReadManifests(codec: Codec, fs: Fs, root: Path, ids: seq<string>): (r: Result<seq<DistFile>, Error>)
    ensures r.Success? <==> forall k :: 0 <= k < |ids| ==> ReadManifest(codec, fs, root + [ids[k]]).Success?
    ensures r.Success? ==> |r.value| == |ids|
    ensures r.Success? ==> forall k :: 0 <= k < |ids| ==> r.value[k] == ReadManifest(codec, fs, root + [ids[k]]).value
  {
    if |ids| == 0 then Success([])
    else
      var head :- ReadManifest(codec, fs, root + [ids[0]]);
      var rest :- ReadManifests(codec, fs, root, ids[1..]);
      Success([head] + rest)
  }

  /** `getPluginsToLoad`: every directory under the plugins root, loaded at
      its current version, in the order `readdir` lists them. */
  function GetPluginsToLoad(env: Env, fs: Fs, root: Path, order: seq<string>): (r: Result<seq<PluginPayload>, Error>)
    ensures ReadDir(fs, root, order).Failure? ==> r == Failure(FileSystemFailure(root, ReadDir(fs, root, order).error))
    ensures r.Success? ==> ReadDir(fs, root, order).Success?
    ensures r.Success? ==> var names := PluginDirNames(ReadDir(fs, root, order).value);
      |r.value| == |names|
      && forall k :: 0 <= k < |names| ==> GetPluginFromPath(env, fs, root, names[k], CurrentName) == Success(r.value[k])
  {
    match ReadDir(fs, root, order)
    case Failure(code) => Failure(FileSystemFailure(root, code))
    case Success(entries) => LoadEach(env, fs, root, PluginDirNames(entries))
  }

  /** `getMinimalPluginsToLoad`: the manifests alone. */
  function GetMinimalPluginsToLoad(codec: Codec, fs: Fs, root: Path, order: seq<string>): (r: Result<seq<DistFile>, Error>)
    ensures ReadDir(fs, root, order).Failure? ==> r == Failure(FileSystemFailure(root, ReadDir(fs, root, order).error))
    ensures r.Success? ==> ReadDir(fs, root, order).Success?
    ensures r.Success? ==> var names := PluginDirNames(ReadDir(fs, root, order).value);
      |r.value| == |names|
      && forall k :: 0 <= k < |names| ==> ReadManifest(codec, fs, root + [names[k]]) == Success(r.value[k])
  {
    match ReadDir(fs, root, order)
    case Failure(code) => Failure(FileSystemFailure(root, code))
    case Success(entries) => ReadManifests(codec, fs, root, PluginDirNames(entries))
  }

  // ------------------------------------------------------------------- updates

  /** The manifest currently served at an installed plugin's origin. */
  function RemoteManifest(env: Env, installed: DistFile): Result<DistFile, Error>
  {
    FetchManifest(env, installed.originUrl)
  }

  /** A manifest's version as SemVer; a version that does not parse makes
      the comparison throw. */
  function VersionOf(d: DistFile): Result<Semver.Version, Error>
  {
    OrElse(Semver.Parse(d.metadata.version), InvalidVersion(d.metadata.version))
  }

  /** The remote manifest when it is an update of `installed`: its version
      has higher precedence. */
  function UpdateFor(env: Env, installed: DistFile): (r: Result<Option<DistFile>, Error>)
    ensures r.Success? ==> VersionOf(installed).Success? && RemoteManifest(env, installed).Success?
    ensures r.Success? && r.value.Some? ==> r.value.value == RemoteManifest(env, installed).value
  {
    var remote :- RemoteManifest(env, installed);
    var available :- VersionOf(remote);
    var current :- VersionOf(installed);
    Success(if Semver.Newer(available, current) then Some(remote) else None)
  }

  /** An offer as the list of manifests it adds. */
  function OfferList(offer: Option<DistFile>): seq<DistFile>
  {
    match offer
    case Some(d) => [d]
    case None => []
  }

  /** The outcome of the update check for each installed plugin, in order. */
  function Offers(env: Env, installed: seq<DistFile>): (offers: seq<Result<Option<DistFile>, Error>>)
    ensures |offers| == |installed|
    ensures forall i :: 0 <= i < |installed| ==> offers[i] == UpdateFor(env, installed[i])
  {
    seq(|installed|, i requires 0 <= i < |installed| => UpdateFor(env, installed[i]))
  }

  /** The update loop: the offered manifests in order; the first failure
      aborts. */
  function CollectOffers(offers: seq<Result<Option<DistFile>, Error>>): (r: Result<seq<DistFile>, Error>)
    ensures r.Success? <==> forall i :: 0 <= i < |offers| ==> offers[i].Success?
    ensures r.Success? ==> |r.value| <= |offers|
  {
    if |offers| == 0 then Success([])
    else
      var offer :- offers[0];
      var rest :- CollectOffers(offers[1..]);
      Success(OfferList(offer) + rest)
  }

  /** The update loop over the installed manifests. The checks have no
      effect on one another, so deciding every plugin's offer before
      collecting them returns what the sequential loop returns. */
  function UpdatesAmong(env: Env, installed: seq<DistFile>): (r: Result<seq<DistFile>, Error>)
    ensures r.Success? <==> forall i :: 0 <= i < |installed| ==> UpdateFor(env, installed[i]).Success?
  {
    CollectOffers(Offers(env, installed))
  }

  /** `checkForPluginUpdates`: a listing that fails, or one plugin whose
      check fails, fails the whole check. */
  function CheckForPluginUpdates(env: Env, fs: Fs, root: Path, order: seq<string>): (r: Result<seq<DistFile>, Error>)
    ensures GetMinimalPluginsToLoad(env.codec, fs, root, order).Failure? ==>
      r == Failure(GetMinimalPluginsToLoad(env.codec, fs, root, order).error)
    ensures GetMinimalPluginsToLoad(env.codec, fs, root, order).Success? ==>
      var installed := GetMinimalPluginsToLoad(env.codec, fs, root, order).value;
      (r.Success? <==> forall i :: 0 <= i < |installed| ==> UpdateFor(env, installed[i]).Success?)
  {
    var installed :- GetMinimalPluginsToLoad(env.codec, fs, root, order);
    UpdatesAmong(env, installed)
  }
}
