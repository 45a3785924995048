# Plugin pipeline of the FlyByWire installer, in Dafny

This project models the plugin pipeline of the FlyByWire installer. It covers:

- how the main process downloads, installs, deletes, lists and update-checks
  plugins in the plugins folder;
- how a plugin's manifest (`dist.json`) and assets are fetched and verified;
- how the renderer process loads and unloads a plugin's configuration
  extensions into the configuration slice of its store.

Every operation is a pure function. State is passed in and returned: the
file system is a value, and so is the configuration store.

Modules, in dependency order:

- `Wrappers`: `Option` and `Result`, with the `:-` operator.
- `Sequences`: `NoDuplicates` and the associativity of concatenation,
  shared by the modules below.
- `PluginTypes`: manifests, assets, payloads, publishers, addons, tracks and
  directives.
  - JSON is abstract. A `Codec` turns bytes into JSON, JSON into bytes, and
    JSON into manifests and configuration extensions.
  - `Env` bundles the collaborators the code calls but that are not modelled:
    - the codec;
    - `fetch`, from a URL to the response body, or `None` when the request
      is rejected. An HTTP error status is not a rejection: its error page
      is a body like any other;
    - `accepts`, the ECDSA/SHA-256 check against the embedded public key.
- `ConfigurationSlice`: the three reducers of the configuration slice.
- `PluginRendererManager`: `loadPlugin`, `unLoadPlugin` and
  `processConfigurationExtensionAsset`.
- `PluginUtils`: the two download URLs, `generateUserPreview` and
  `verifyPlugin`.
- `FileSystem`: the `fs-extra` calls the installer makes, over a map from
  paths to files, directories and absolute symbolic links.
  - Links are followed with Linux's 40-hop limit.
  - `lstat`, `unlink`, `symlink` and `remove` do not follow a link in the
    last segment.
- `Semver`: Semantic Versioning 2.0.0.
  - It covers the version grammar of sections 2, 9 and 10 and the
    precedence of section 11.
  - It is what `parse` and `compare` of the `semver` package are used for.
- `PluginInstallManager`: the main-process operations.
  - `installPlugin` takes a set of steps at which the file system reports an
    error (`fails`), so every error path of the installation can be stated.
  - `readdir` takes the directory's enumeration order as a parameter. The
    properties of listing assume that the order enumerates the directory
    (`FileSystem.Enumerates`): each entry once, and nothing else.
- `PluginInstallProperties` and `PluginUpdateProperties`: the properties of
  the main-process operations.

## Behaviour as written

These are places where the code does something other than what one might
expect. The model follows the code in each case.

- `removePublisher` matches entries by publisher *name*, while loading checks
  for duplicates by *key*. Loading a plugin and then unloading it therefore
  also removes an older entry that shares a name with a declared publisher
  (`LoadThenUnloadLosesNamesake`).
- The duplicate check of `processConfigurationExtensionAsset` reads a copy
  of the store taken before the asset's directives run
  (PluginRendererManager.ts line 50). As a result:
  - two publishers with the same new key in one asset are both added
    (`SameKeyInOneAssetAddedTwice`);
  - across assets, each asset sees its predecessors' additions.
- Activation is not atomic. When `symlink` fails after the old `current`
  link was unlinked, the plugin is left with no `current` link at all
  (`PluginInstallProperties.RetargetConfined`, third ensures).
- An installation that stops at `lstat`, `unlink` or `symlink` has already
  overwritten `dist.json`. The plugin then pairs the new manifest with the
  old version's assets, or has no `current` link at all
  (`PluginInstallProperties.InstallStopsTorn`).
- `dist.json` is one file per plugin, not one per version. Reading version
  `v` pairs the latest installed manifest with `v`'s assets.
- A manifest whose version is the string `current` puts its version
  directory at the `current` link's path. The properties of the installer
  therefore exclude that version.
- `installPlugin` installs a plugin whatever `verifyPlugin` decided.
- `verifyPlugin` parses every asset as JSON, whatever its type, when the
  manifest is signed. A signed plugin with a non-JSON asset therefore makes
  it throw, instead of yielding "unverified".
- Assets are fetched from the manifest's `originUrl`, not from the URL the
  manifest was downloaded from.
- `checkForPluginUpdates` stops at the first plugin whose manifest cannot
  be fetched or whose version does not parse.

## Model

| member | source | states |
|---|---|---|
| ConfigurationSlice.SetConfiguration | src/renderer/redux/features/configuration.ts:11-13 | the publisher list becomes the given configuration's list; the state's version number is kept |
| ConfigurationSlice.AddPublisher | src/renderer/redux/features/configuration.ts:14-16 | the old entries are kept in place, and the new publisher is the one extra entry, at the end |
| ConfigurationSlice.AddPublisherKeepsDuplicates | src/renderer/redux/features/configuration.ts:14-16 | adding a publisher whose key is present leaves two entries with that key: there is no duplicate check |
| ConfigurationSlice.RemovePublisher | src/renderer/redux/features/configuration.ts:17-25 | an entry survives exactly when its name differs from the argument's name, whatever its key |
| ConfigurationSlice.RemovePublisherKeepsOrder | src/renderer/redux/features/configuration.ts:18-24 | removal distributes over any split of the list, so the survivors keep their relative order |
| ConfigurationSlice.RemovePublisherAbsent | src/renderer/redux/features/configuration.ts:17-25 | removing a name no entry carries leaves the state unchanged |
| ConfigurationSlice.RemovePublisherIdempotent | src/renderer/redux/features/configuration.ts:17-25 | removing the same publisher twice is removing it once |
| PluginRendererManager.ProcessConfigurationExtensionAsset | src/renderer/plugins/PluginRendererManager.ts:43-81 | processing fails exactly when the asset's bytes do not parse as a configuration extension |
| PluginRendererManager.ProcessAssets | src/renderer/plugins/PluginRendererManager.ts:13-23 | the asset loop throws exactly when some configuration-extension asset does not parse; the store's version is kept |
| PluginRendererManager.AdmittedKeys | src/renderer/plugins/PluginRendererManager.ts:57-67 | the keys a load adds are exactly the declared keys that were missing from the snapshot |
| PluginRendererManager.AdmittedAllFresh | src/renderer/plugins/PluginRendererManager.ts:50-67 | when no declared key is in the snapshot, every declared publisher is appended, duplicates among them included, stamped with the verdict |
| PluginRendererManager.LoadPublishersAppends | src/renderer/plugins/PluginRendererManager.ts:57-68 | loading a directive's publishers appends exactly the admitted ones, after the existing entries |
| PluginRendererManager.LoadDirectivesAppends | src/renderer/plugins/PluginRendererManager.ts:52-80 | loading an extension appends the admitted publishers of its addPublishers directives in order; other directives add nothing |
| PluginRendererManager.UnloadPublishersRemoves | src/renderer/plugins/PluginRendererManager.ts:69-71 | unloading a directive's publishers removes every entry that carries one of their names |
| PluginRendererManager.UnloadDirectivesRemoves | src/renderer/plugins/PluginRendererManager.ts:52-80 | unloading an extension removes every entry named by one of its addPublishers directives |
| PluginRendererManager.LoadExtensionStep | src/renderer/plugins/PluginRendererManager.ts:43-81 | one parsed asset appends the publishers admitted against the store as it was, and afterwards every declared key is present |
| PluginRendererManager.LoadPlugin | src/renderer/plugins/PluginRendererManager.ts:8-26 | loading throws exactly when some configuration-extension asset does not parse; the store's version is kept, and the entries already there stay in front, also when it throws part-way |
| PluginRendererManager.UnloadPlugin | src/renderer/plugins/PluginRendererManager.ts:28-41 | unloading throws exactly when some configuration-extension asset does not parse; the store's version is kept, and it only ever removes entries, also when it throws part-way |
| PluginRendererManager.LoadKeepsExisting | src/renderer/plugins/PluginRendererManager.ts:8-26 | whatever the assets, loading leaves the existing entries in place at the front of the store |
| PluginRendererManager.UnloadOnlyRemoves | src/renderer/plugins/PluginRendererManager.ts:28-41 | whatever the assets, every entry after unloading was there before |
| PluginRendererManager.LoadPluginAppends | src/renderer/plugins/PluginRendererManager.ts:8-26 | loading a plugin appends, after the existing entries, every declared publisher whose key is missing when its asset is reached, stamped with the plugin's verdict, in declaration order |
| PluginRendererManager.UnloadPluginRemoves | src/renderer/plugins/PluginRendererManager.ts:28-41 | unloading a plugin removes exactly the entries whose name is declared by the plugin, present or not, whatever their key |
| PluginRendererManager.LoadPluginKeys | src/renderer/plugins/PluginRendererManager.ts:8-26 | after a load that does not throw, the store's keys are its old keys plus the declared keys, and nothing else |
| PluginRendererManager.LoadPluginTwice | src/renderer/plugins/PluginRendererManager.ts:58-64 | loading the same plugin a second time adds nothing |
| PluginRendererManager.UnloadPluginNeverLoaded | src/renderer/plugins/PluginRendererManager.ts:28-41 | unloading a plugin none of whose names is in the store leaves the store unchanged |
| PluginRendererManager.LoadThenUnload | src/renderer/plugins/PluginRendererManager.ts:8-41 | unloading after a load gives the same store as unloading alone |
| PluginRendererManager.LoadThenUnloadLosesNamesake | src/renderer/plugins/PluginRendererManager.ts:58-70 | an existing entry with a declared name but another key survives the load and is removed by the unload |
| PluginRendererManager.SameKeyInOneAssetAddedTwice | src/renderer/plugins/PluginRendererManager.ts:50-67 | two new publishers with the same key in one asset add two entries with that key |
| PluginUtils.DistFileUrl | src/common/plugins/PluginUtils.ts:78-81 | the manifest URL is the base URL followed by the fixed suffix |
| PluginUtils.AssetUrl | src/common/plugins/PluginUtils.ts:83-86 | an asset URL starts with the manifest's origin URL, whatever URL the manifest came from |
| PluginUtils.DistFileUrlInjective | src/common/plugins/PluginUtils.ts:78-81 | different base URLs give different manifest URLs |
| PluginUtils.AssetUrlInjective | src/common/plugins/PluginUtils.ts:83-86 | within one origin, different asset file names give different URLs |
| PluginUtils.AssetUrlIsNotManifestUrl | src/common/plugins/PluginUtils.ts:78-86 | no asset URL is the manifest URL at the same origin |
| PluginUtils.Dedup | src/common/plugins/PluginUtils.ts:16-44 | the servers have no duplicates and are exactly the elements of the input |
| PluginUtils.DedupKeepsFirstOccurrenceOrder | src/common/plugins/PluginUtils.ts:16-44 | the servers come in the order of their first occurrence, as a Set enumerates them |
| PluginUtils.GenerateUserPreview | src/common/plugins/PluginUtils.ts:15-46 | the preview fails exactly when some configuration-extension asset does not parse; otherwise it lists each declared track URL once |
| PluginUtils.PublisherUrlsReferenced | src/common/plugins/PluginUtils.ts:26-32 | a URL is collected exactly when some track of some addon of a declared publisher carries it |
| PluginUtils.PreviewIsReferencedServers | src/common/plugins/PluginUtils.ts:15-46 | a server is in the preview exactly when a declared track references it, and the servers come in order of first reference |
| PluginUtils.ParseAll | src/common/plugins/PluginUtils.ts:63 | parsing all assets succeeds exactly when each one parses, and yields their JSON in order |
| PluginUtils.VerifyPlugin | src/common/plugins/PluginUtils.ts:48-76 | an unsigned plugin is unverified; a signed one is verified exactly when the signature check accepts the signature-free message; it throws exactly when the plugin is signed and some asset is not JSON; the manifest and assets come back unchanged |
| PluginUtils.VerifyIgnoresPriorVerdict | src/common/plugins/PluginUtils.ts:48-49 | the verdict a payload already carries has no effect, so verifying twice is verifying once |
| PluginUtils.SignedMessageOmitsSignature | src/common/plugins/PluginUtils.ts:60-67 | the signature field does not take part in the signed message |
| FileSystem.Resolve | src/main/plugins/PluginInstallManager.ts:64 | a resolved path contains no link, and a path without links resolves to itself |
| FileSystem.EnsureDir | src/main/plugins/PluginInstallManager.ts:29-32 | on success the resolved path is a directory, nothing that existed changes, and only its missing ancestors are added; it fails exactly when an ancestor is something other than a directory |
| FileSystem.WriteFile | src/main/plugins/PluginInstallManager.ts:39 | on success the resolved path holds the data and nothing else changes; it fails exactly when the path is a directory or its parent is not one |
| FileSystem.ReadFile | src/main/plugins/PluginInstallManager.ts:177-181 | reading succeeds exactly when the path resolves to a file, and yields that file's contents |
| FileSystem.WriteThenRead | src/main/plugins/PluginInstallManager.ts:39 | a file written reads back as the data written |
| FileSystem.Lstat | src/main/plugins/PluginInstallManager.ts:53 | with a link-free parent, lstat succeeds exactly when the path exists, and reports the node itself rather than a link's target |
| FileSystem.Unlink | src/main/plugins/PluginInstallManager.ts:55 | with a link-free parent, unlink removes exactly the path, and succeeds exactly when it is there and not a directory |
| FileSystem.Symlink | src/main/plugins/PluginInstallManager.ts:64 | with a link-free parent, symlink succeeds exactly when the path is absent and its parent is a directory; it adds only the link, and fails with EEXIST when something is there |
| FileSystem.SymlinkThenLstat | src/main/plugins/PluginInstallManager.ts:53-64 | a link created by symlink is reported by lstat as that link |
| FileSystem.Remove | src/main/plugins/PluginInstallManager.ts:76 | remove deletes exactly the path and everything below it, and an absent path is not an error |
| FileSystem.RemoveIdempotent | src/main/plugins/PluginInstallManager.ts:76 | removing a path twice is removing it once |
| FileSystem.Entries | src/main/plugins/PluginInstallManager.ts:85 | a listing holds only entries of the directory, with their directory flag; it holds every entry the order names; when the order names only entries, it lists exactly those names, in that order |
| FileSystem.ReadDir | src/main/plugins/PluginInstallManager.ts:85 | with a link-free path, readdir succeeds exactly when the path is a directory; when the order enumerates the directory, every entry is listed once, in that order |
| PluginInstallManager.FetchManifest | src/main/plugins/PluginInstallManager.ts:147-154 | a rejected request is a network failure on the manifest URL; an answer yields the manifest exactly when its body parses as one, and is otherwise a parse failure |
| PluginInstallManager.FetchAssets | src/main/plugins/PluginInstallManager.ts:155-166 | the assets download exactly when every asset URL answers, and yield each answer under the asset's file name and type, in manifest order |
| PluginInstallManager.GetPluginFromUrl | src/main/plugins/PluginInstallManager.ts:145-173 | an unreachable manifest URL is a network failure; a success holds the fetched manifest, one payload per listed asset carrying the body fetched from its URL, and a verdict |
| PluginInstallManager.Run | src/main/plugins/PluginInstallManager.ts:28-68 | one file-system step completes exactly when it reports no error, and otherwise stops the installation at that step with the file system untouched |
| PluginInstallManager.EnsureFolders | src/main/plugins/PluginInstallManager.ts:28-36 | the folder stage completes or stops at one of its four ensureDir calls |
| PluginInstallManager.WriteAssets | src/main/plugins/PluginInstallManager.ts:37-44 | the asset stage completes or stops at the write of one asset |
| PluginInstallManager.Retarget | src/main/plugins/PluginInstallManager.ts:51-68 | activation completes or stops at lstat, unlink or symlink |
| PluginInstallManager.InstallFiles | src/main/plugins/PluginInstallManager.ts:28-68 | the file-system part of an installation never reports a download failure; its stages are stated by InstallFilesStages, InstallFilesConfined and InstallStopsTorn |
| PluginInstallManager.InstallPlugin | src/main/plugins/PluginInstallManager.ts:21-71 | the installation fails before touching the file system exactly when the download fails, with the download's error |
| PluginInstallManager.DeletePluginById | src/main/plugins/PluginInstallManager.ts:73-82 | deletion only removes entries; without a fault it removes exactly the plugin's directory and everything below it |
| PluginInstallManager.ReadManifest | src/main/plugins/PluginInstallManager.ts:176-178 | an unreadable dist.json is a file-system failure on its path; a readable one yields the manifest exactly when it parses, and is otherwise a parse failure |
| PluginInstallManager.ReadAssets | src/main/plugins/PluginInstallManager.ts:179-183 | reading the assets succeeds exactly when each listed file reads, and yields their contents in manifest order |
| PluginInstallManager.GetPluginFromPath | src/main/plugins/PluginInstallManager.ts:175-190 | a loaded plugin holds the plugin's stored manifest and the assets of the requested version, with a verdict; an unreadable manifest fails the load |
| PluginInstallManager.PluginDirNames | src/main/plugins/PluginInstallManager.ts:88-91 | a name is kept exactly when its entry is a directory |
| PluginInstallManager.LoadEach | src/main/plugins/PluginInstallManager.ts:88-95 | the loop succeeds exactly when every plugin loads at its current version, and yields them in order |
| PluginInstallManager.ReadManifests | src/main/plugins/PluginInstallManager.ts:104-114 | the loop succeeds exactly when every plugin's manifest reads, and yields them in order |
| PluginInstallManager.GetPluginsToLoad | src/main/plugins/PluginInstallManager.ts:84-98 | a root that cannot be listed is a file-system failure on the root; a success has one plugin per listed directory, in listing order, each loaded at its current version |
| PluginInstallManager.GetMinimalPluginsToLoad | src/main/plugins/PluginInstallManager.ts:100-117 | a root that cannot be listed is a file-system failure on the root; a success has one manifest per listed directory, in listing order |
| PluginInstallManager.UpdateFor | src/main/plugins/PluginInstallManager.ts:127-139 | a successful check fetched the remote manifest and parsed the installed version, and an offer is the remote manifest |
| PluginInstallManager.Offers | src/main/plugins/PluginInstallManager.ts:124-140 | there is one check outcome per installed plugin, in order |
| PluginInstallManager.CollectOffers | src/main/plugins/PluginInstallManager.ts:122-142 | the collection succeeds exactly when every check succeeds, and holds at most one manifest per plugin |
| PluginInstallManager.UpdatesAmong | src/main/plugins/PluginInstallManager.ts:119-143 | the update loop succeeds exactly when the check of every installed plugin succeeds |
| PluginInstallManager.CheckForPluginUpdates | src/main/plugins/PluginInstallManager.ts:119-143 | a failed listing fails the check with its error; after a listing, the check succeeds exactly when the check of every installed plugin succeeds |
| PluginInstallProperties.EnsureFoldersConfined | src/main/plugins/PluginInstallManager.ts:28-36 | the folder stage keeps the store's shape, touches nothing outside the plugin's directory, and leaves the current link alone |
| PluginInstallProperties.WriteAssetsConfined | src/main/plugins/PluginInstallManager.ts:37-44 | the asset stage stays within the plugin's directory and changes no path except the asset files |
| PluginInstallProperties.WriteAssetsContents | src/main/plugins/PluginInstallManager.ts:37-40 | after the asset stage completes, each asset file holds its downloaded bytes |
| PluginInstallProperties.RetargetConfined | src/main/plugins/PluginInstallManager.ts:51-68 | activation changes nothing but the current link; on success the link points at the new version; a failed symlink after an unlink leaves no link; any earlier stop, and any stop when no link was there, changes nothing |
| PluginInstallProperties.InstallFilesConfined | src/main/plugins/PluginInstallManager.ts:28-68 | an installation, whatever step fails, keeps the store's shape and touches only the plugin's own directory; a stop before activation leaves the current link as it was |
| PluginInstallProperties.InstallFilesStages | src/main/plugins/PluginInstallManager.ts:28-68 | a completed installation ran every folder, asset and manifest step to completion before activation |
| PluginInstallProperties.InstallStopsTorn | src/main/plugins/PluginInstallManager.ts:45-68 | an installation that stops at lstat, unlink or symlink leaves the new manifest written, while the current link is as it was or gone |
| PluginInstallProperties.InstallFilesStores | src/main/plugins/PluginInstallManager.ts:28-68 | after a completed installation, the manifest file holds the manifest, the current link points at the new version, and each asset file holds its bytes |
| PluginInstallProperties.ReadThroughCurrent | src/main/plugins/PluginInstallManager.ts:63-64 | once current points at a version, reading an asset through current reads that version's file |
| PluginInstallProperties.ReadManifestWritten | src/main/plugins/PluginInstallManager.ts:46 | the manifest file written by the installer reads back as the same manifest |
| PluginInstallProperties.ServedManifestFetched | src/main/plugins/PluginInstallManager.ts:147-154 | a manifest served as JSON.stringify writes it is fetched as that manifest |
| PluginInstallProperties.DownloadVerified | src/main/plugins/PluginInstallManager.ts:145-173 | a downloaded plugin is its verification with the fetched manifest and assets and an initial verdict of false |
| PluginInstallProperties.PathLoads | src/main/plugins/PluginInstallManager.ts:175-190 | a plugin whose manifest and assets read back as given loads as their verification |
| PluginInstallProperties.StoredReads | src/main/plugins/PluginInstallManager.ts:175-183 | a stored plugin's manifest and assets read back, through current, as the installed ones |
| PluginInstallProperties.InstallReadback | src/main/plugins/PluginInstallManager.ts:21-71 | after a completed installation, loading the plugin at its current version yields exactly the downloaded, verified payload |
| PluginInstallProperties.DeleteRemovesPlugin | src/main/plugins/PluginInstallManager.ts:73-82 | deletion keeps the store's shape, removes exactly the plugin's directory, and afterwards loading the plugin fails because its manifest is missing |
| PluginInstallProperties.DeleteIdempotent | src/main/plugins/PluginInstallManager.ts:73-82 | deleting a plugin twice is deleting it once |
| PluginUpdateProperties.OfferedIffNewer | src/main/plugins/PluginInstallManager.ts:133-139 | an update is offered exactly when the remote version has strictly higher precedence than the installed one |
| PluginUpdateProperties.OfferIsNotOlder | src/main/plugins/PluginInstallManager.ts:135-139 | an offered version is neither older than the installed one nor of the same precedence |
| PluginUpdateProperties.SameVersionNotOffered | src/main/plugins/PluginInstallManager.ts:135-139 | a remote version with the installed version's precedence is not offered |
| PluginUpdateProperties.UnparsableVersionFails | src/main/plugins/PluginInstallManager.ts:135 | a version on either side that does not parse makes the check fail |
| PluginUpdateProperties.CollectOffersMembers | src/main/plugins/PluginInstallManager.ts:122-142 | the collected manifests are exactly the offered ones |
| PluginUpdateProperties.CollectOffersConcat | src/main/plugins/PluginInstallManager.ts:122-142 | collecting two runs of offers one after the other is collecting their concatenation |
| PluginUpdateProperties.UpdatesAmongMembers | src/main/plugins/PluginInstallManager.ts:119-143 | a manifest is reported exactly when it is the update offered for some installed plugin |
| PluginUpdateProperties.UpdatesAmongConcat | src/main/plugins/PluginInstallManager.ts:124-140 | reports keep the order of the installed plugins: checking two lists in turn is checking their concatenation |
| PluginUpdateProperties.NothingNewerNothingOffered | src/main/plugins/PluginInstallManager.ts:119-143 | when no plugin has a newer remote version, nothing is reported |
| PluginUpdateProperties.ListedDirectories | src/main/plugins/PluginInstallManager.ts:85-91 | when the order enumerates the root, the names taken as plugin directories are exactly the root's sub-directories, each once |
| PluginUpdateProperties.PluginsToLoadAreDirectories | src/main/plugins/PluginInstallManager.ts:84-98 | when the order enumerates the root, every sub-directory of the root is loaded at its current version at exactly one position, and nothing else is loaded |
| PluginUpdateProperties.MinimalPluginsAreDirectories | src/main/plugins/PluginInstallManager.ts:100-117 | when the order enumerates the root, the manifest of every sub-directory of the root is read at exactly one position, and nothing else is read |
| PluginUpdateProperties.LoadingFailsWithAnyPlugin | src/main/plugins/PluginInstallManager.ts:88-95 | once the root is listed, loading succeeds exactly when every listed plugin directory loads |
| PluginUpdateProperties.MinimalLoadingFailsWithAnyManifest | src/main/plugins/PluginInstallManager.ts:104-114 | once the root is listed, the minimal load succeeds exactly when every listed manifest reads |
| PluginUpdateProperties.MinimalAgreesWithFull | src/main/plugins/PluginInstallManager.ts:100-117 | whenever the full load succeeds, the minimal load succeeds too and lists the same manifests in the same order |
| PluginUpdateProperties.CheckOffersUpdates | src/main/plugins/PluginInstallManager.ts:119-143 | the update check reports exactly the updates of the installed manifests |
| Semver.ParseText | src/main/plugins/PluginInstallManager.ts:135 | a version in the grammar is well-formed: its pre-release and build identifiers are non-empty, use only the allowed characters, and alphanumeric pre-release identifiers are not all digits |
| Semver.Parse | src/main/plugins/PluginInstallManager.ts:135 | parse succeeds exactly for text of at most 256 characters in the grammar whose major, minor and patch numbers are at most 2^53 - 1, and yields the version in the grammar |
| Semver.Format | src/main/plugins/PluginInstallManager.ts:135 | in the spelling of a well-formed version, a `+` appears exactly when there is build metadata |
| Semver.ParseTextFormat | src/main/plugins/PluginInstallManager.ts:135 | every well-formed version prints to text that is read back as it in the grammar |
| Semver.ParseFormat | src/main/plugins/PluginInstallManager.ts:135 | a well-formed version within the number limits whose spelling is within the length limit parses back from its spelling |
| Semver.FormatParse | src/main/plugins/PluginInstallManager.ts:135 | text that parses prints back as the same text |
| Semver.Compare | src/main/plugins/PluginInstallManager.ts:135-137 | compare yields -1, 0 or 1 |
| Semver.CompareAntisymmetric | src/main/plugins/PluginInstallManager.ts:135 | swapping the operands of compare negates the result |
| Semver.CompareZero | src/main/plugins/PluginInstallManager.ts:135-137 | compare is zero exactly when the versions agree up to build metadata |
| Semver.CompareTransitive | src/main/plugins/PluginInstallManager.ts:135-137 | "newer than" is transitive |
| Semver.PrereleaseBelowRelease | src/main/plugins/PluginInstallManager.ts:135 | a pre-release ranks below the release with the same numbers |

## Left out

- `setupIpcListeners` (PluginInstallManager.ts lines 12-19) is the Electron IPC wiring. It only forwards calls. Its default version `current` for `getPluginFromPath` is what the load and readback properties use.
- `getPluginsRoot` reads Electron's user-data path. The plugins root is a parameter instead.
- JSON text is not modelled. `JSON.parse`, `JSON.stringify` and the casts to manifest and configuration extension are the abstract `Codec`. A stored manifest reading back as itself is the `ManifestRoundTrips` precondition of the readback properties.
- The signature check is not modelled. This covers the base64 decoding, the embedded public key (PluginUtils.ts line 9), `crypto.createVerify` and canonical JSON; all of it is the `accepts` oracle. Code that throws inside the check is outside the model.
- The network is not modelled. `fetch` is an oracle from URL to body.
  - `node-fetch` does not reject on HTTP error statuses, and the model has no status codes. An error response is `Some` of its error page: a manifest request then fails to parse, and an asset request stores the page as the asset. `None` stands only for a rejected request.
  - A body that is not a valid manifest is a parse failure.
- The `semver` package is lenient in ways that are not modelled: a leading `v`, surrounding whitespace, and its loose mode (which also accepts `=`). The model parses strict Semantic Versioning 2.0.0, with the package's length limit and its bound on major, minor and patch numbers.
- Semver.Compare: a numeric pre-release identifier of 2^53 - 1 or more stays text in the package and is compared as a floating-point number. The model compares every numeric identifier exactly.
- PluginInstallManager.ReadManifest: like `FetchManifest`, it reads a manifest through the codec's one `asDistFile` check, which demands the whole manifest, `assets` included. In the TypeScript code every `as PluginDistributionFile` is an unchecked cast, and a reader throws only on a missing field it uses: `getPluginFromUrl` and `getPluginFromPath` iterate `assets` (PluginInstallManager.ts lines 156 and 180) and, for a signed manifest, read `metadata.id` (PluginUtils.ts lines 69 and 74). The model rejects such a manifest in every reader.
- PluginInstallManager.FetchManifest: rejects a served `dist.json` that is valid JSON but not a complete manifest with `ParseFailure`. The TypeScript code accepts such a manifest as long as it has the fields the caller reads: `getPluginFromUrl` needs `assets` (PluginInstallManager.ts line 156) and, when the manifest is signed, `metadata.id` (PluginUtils.ts lines 69 and 74); `checkForPluginUpdates` needs only `metadata.version` (PluginInstallManager.ts line 135), and throws a TypeError without it.
- PluginInstallManager.GetMinimalPluginsToLoad: fails with `ParseFailure` on a stored `dist.json` that is valid JSON but not a complete manifest, for example one without `assets`. The TypeScript code (PluginInstallManager.ts lines 110-113) returns any JSON document there.
- PluginInstallManager.CheckForPluginUpdates: fails on an installed or served manifest that is not a complete manifest. The TypeScript code (PluginInstallManager.ts lines 124-140) reads only `originUrl` and `metadata.version`, so it compares such a manifest and can offer it; a manifest without `metadata` makes it throw at line 135. Its properties (`PluginUpdateProperties.OfferedIffNewer`, `CheckOffersUpdates`) hold for manifests the codec accepts.
- Console logging and the messages of thrown errors are left out. Errors are kinds with the failing URL or path.
- The file system has no relative link targets, path normalisation (`..`, separators), permissions or Windows junction semantics. Links are absolute paths.
- PluginInstallManager.Run: a failed step leaves the file system as it was. A real `writeFile` that fails part-way can leave the file truncated or partly written, so after a failed asset or manifest write the model keeps the old contents, where the real file may be damaged.
- `ensureDir` and `remove` are atomic in the model. A real `ensureDir` can create some ancestors before failing, and a real `remove` can delete part of a tree before failing. `DeletePluginById` models any failure of `remove` as leaving the file system unchanged.
- FileSystem.MissingCode: gives ENOTDIR only when the immediate parent of an absent path is not a directory. It does not walk further up the path.
- The order in which the operating system lists a directory is a parameter of `readdir`, not a fixed order. `readdir` lists the names of the order that are entries, so an order that misses an entry or repeats one gives a listing that does the same. The properties that every plugin directory is loaded once (`PluginUpdateProperties.PluginsToLoadAreDirectories`, `MinimalPluginsAreDirectories`) assume an order that enumerates the directory.
- Concurrency is left out. Each operation runs alone, although the TypeScript code is `async` and has no lock per plugin.
- PluginInstallManager.UpdatesAmong: the sequential update loop is modelled as computing each plugin's check and then collecting the results. The checks are independent, so the result is the same. Its own ensures states only when it succeeds. What it reports is stated by `PluginUpdateProperties.UpdatesAmongMembers` and `UpdatesAmongConcat`.
- PluginInstallProperties.InstallReadback: assumes that the version is not `current`, that asset file names are distinct, that the manifest survives a JSON round trip, and `StoreShape`: that the only links anywhere in the file system are the `<root>/<id>/current` links. Without the first three, a later write can overwrite an earlier one, or the installed files alias the `current` link. `StoreShape` excludes a plugins root reached through a symbolic link (a linked home or `.config` directory, say) and any other link on the machine; the read-back of the TypeScript code works there too.
- PluginInstallProperties.EnsureFoldersConfined, `WriteAssetsConfined`, `RetargetConfined`, `InstallFilesConfined`, `InstallStopsTorn`, `InstallFilesStores`, `DeleteRemovesPlugin` and `DeleteIdempotent` also assume `StoreShape`, for the same reason: it is what lets the proofs treat every path outside the `current` links as link-free.
- PluginInstallProperties.EnsureFoldersConfined, `WriteAssetsConfined`, `InstallFilesConfined`, `DeleteRemovesPlugin` and `PluginInstallManager.DeletePluginById`: a path segment is opaque in the model, so a plugin id, a version or an asset file name is always one segment below its parent. The TypeScript code joins them with `path.join` (PluginInstallManager.ts lines 25, 26, 39 and 74) and checks nothing. An id `..`, a version `../x` or an asset file `../../x` writes outside `<root>/<id>`, and `deletePluginById("")` removes the whole plugins root. The confinement these members state holds in the TypeScript code only when every id, version and asset file name is a single plain segment: non-empty, neither `.` nor `..`, and without a separator.
- PluginRendererManager.ProcessConfigurationExtensionAsset: the shape of a configuration extension is checked all at once, by the codec's `asExtension`, before any directive runs. In the TypeScript code the cast is unchecked: a malformed directive after a well-formed one throws at PluginRendererManager.ts line 57 after earlier publishers were dispatched, and the model does not dispatch those. The same `asExtension` serves the preview, so a publisher without `addons`, which loads but makes `generateUserPreview` throw at PluginUtils.ts line 27, is not modelled either.
- PluginRendererManager.LoadPlugin: the in-place stamping of `publisher.verified` on the parsed extension object is not visible to later calls. The extension is parsed afresh from the asset's bytes each time, so the model stamps the copy that goes into the store.
- The loading UI, dialogs and settings pages that call these operations are left out.
