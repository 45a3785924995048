/** Properties of the update check and of loading the installed plugins. */
module PluginUpdateProperties {
  import opened Wrappers
  import opened PluginTypes
  import opened FileSystem
  import opened PluginInstallManager
  import opened Sequences
  import Semver

  // ------------------------------------------------------------ one plugin

  /** An update is offered exactly when the remote version has strictly
      higher precedence than the installed one. */
  lemma OfferedIffNewer(env: Env, installed: DistFile)
    requires UpdateFor(env, installed).Success?
    ensures var remote := RemoteManifest(env, installed).value;
      VersionOf(remote).Success?
      && (UpdateFor(env, installed).value.Some?
        <==> Semver.Newer(VersionOf(remote).value, VersionOf(installed).value))
  {
  }

  /** An offered update is never older than, nor as new as, the installed
      version: the installed one is not newer. */
  lemma OfferIsNotOlder(env: Env, installed: DistFile, offer: DistFile)
    requires UpdateFor(env, installed) == Success(Some(offer))
    ensures VersionOf(offer).Success? && VersionOf(installed).Success?
    ensures !Semver.Newer(VersionOf(installed).value, VersionOf(offer).value)
    ensures !Semver.SamePrecedence(VersionOf(installed).value, VersionOf(offer).value)
  {
    var a := VersionOf(offer).value;
    var c := VersionOf(installed).value;
    Semver.CompareAntisymmetric(a, c);
    Semver.CompareZero(c, a);
  }

  /** A plugin whose origin serves a version of the same precedence (the
      same version, up to build metadata) is up to date. */
  lemma SameVersionNotOffered(env: Env, installed: DistFile)
    requires RemoteManifest(env, installed).Success?
    requires VersionOf(RemoteManifest(env, installed).value).Success? && VersionOf(installed).Success?
    requires Semver.SamePrecedence(VersionOf(RemoteManifest(env, installed).value).value, VersionOf(installed).value)
    ensures UpdateFor(env, installed) == Success(None)
  {
    Semver.CompareZero(VersionOf(RemoteManifest(env, installed).value).value, VersionOf(installed).value);
  }

  /** A version that does not parse, on either side, makes the check fail. */
  lemma UnparsableVersionFails(env: Env, installed: DistFile)
    requires RemoteManifest(env, installed).Success?
    requires VersionOf(installed).Failure? || VersionOf(RemoteManifest(env, installed).value).Failure?
    ensures UpdateFor(env, installed).Failure?
  {
  }

  // ------------------------------------------------------------ the loop

  /** The collected manifests are exactly the offered ones. */
  lemma {:induction false} CollectOffersMembers(offers: seq<Result<Option<DistFile>, Error>>, d: DistFile)
    requires CollectOffers(offers).Success?
    ensures d in CollectOffers(offers).value <==> Success(Some(d)) in offers
    decreases |offers|
  {
    if |offers| > 0 {
      CollectOffersStep(offers);
      CollectOffersMembers(offers[1..], d);
      assert offers == [offers[0]] + offers[1..];
      assert d in OfferList(offers[0].value) <==> offers[0] == Success(Some(d));
    }
  }

  /** One turn of a loop that succeeds: the first offer ahead of the rest. */
  lemma CollectOffersStep(offers: seq<Result<Option<DistFile>, Error>>)
    requires |offers| > 0 && CollectOffers(offers).Success?
    ensures offers[0].Success? && CollectOffers(offers[1..]).Success?
    ensures CollectOffers(offers) == Success(OfferList(offers[0].value) + CollectOffers(offers[1..]).value)
  {
  }

  /** Collecting two runs of offers one after the other is collecting
      their concatenation. */
  lemma {:induction false} CollectOffersConcat(a: seq<Result<Option<DistFile>, Error>>, b: seq<Result<Option<DistFile>, Error>>)
    requires CollectOffers(a).Success? && CollectOffers(b).Success?
    ensures CollectOffers(a + b) == Success(CollectOffers(a).value + CollectOffers(b).value)
    decreases |a|
  {
    if |a| == 0 {
      assert a + b == b;
      assert CollectOffers(a).value + CollectOffers(b).value == CollectOffers(b).value;
    } else {
      CollectOffersStep(a);
      var offer := OfferList(a[0].value);
      CollectOffersConcat(a[1..], b);
      var ab := a + b;
      assert ab[1..] == a[1..] + b;
      assert ab[0] == a[0];
      var x := CollectOffers(a[1..]).value;
      var y := CollectOffers(b).value;
      assert CollectOffers(ab) == Success(offer + (x + y));
      assert CollectOffers(a).value == offer + x;
      AppendAssoc(offer, x, y);
    }
  }

  /** The offered manifests are exactly the updates of the installed
      plugins. */
  lemma UpdatesAmongMembers(env: Env, installed: seq<DistFile>, d: DistFile)
    requires UpdatesAmong(env, installed).Success?
    ensures d in UpdatesAmong(env, installed).value
      <==> exists i :: 0 <= i < |installed| && UpdateFor(env, installed[i]) == Success(Some(d))
  {
    var offers := Offers(env, installed);
    CollectOffersMembers(offers, d);
    if Success(Some(d)) in offers {
      var i :| 0 <= i < |offers| && offers[i] == Success(Some(d));
      assert UpdateFor(env, installed[i]) == Success(Some(d));
    }
  }

  /** The offers keep the order of the installed plugins: checking two
      lists one after the other is checking their concatenation. */
  lemma UpdatesAmongConcat(env: Env, a: seq<DistFile>, b: seq<DistFile>)
    requires UpdatesAmong(env, a).Success? && UpdatesAmong(env, b).Success?
    ensures UpdatesAmong(env, a + b) == Success(UpdatesAmong(env, a).value + UpdatesAmong(env, b).value)
  {
    var oa := Offers(env, a);
    var ob := Offers(env, b);
    assert Offers(env, a + b) == oa + ob by {
      forall i | 0 <= i < |a + b|
        ensures Offers(env, a + b)[i] == (oa + ob)[i]
      {
        if i < |a| {
          assert (a + b)[i] == a[i];
        } else {
          assert (a + b)[i] == b[i - |a|];
        }
      }
    }
    CollectOffersConcat(oa, ob);
  }

  /** Runs of empty offers collect nothing. */
  lemma {:induction false} CollectNothing(offers: seq<Result<Option<DistFile>, Error>>)
    requires forall i :: 0 <= i < |offers| ==> offers[i] == Success(None)
    ensures CollectOffers(offers) == Success([])
    decreases |offers|
  {
    if |offers| > 0 {
      assert forall i :: 0 <= i < |offers[1..]| ==> offers[1..][i] == offers[i + 1];
      CollectNothing(offers[1..]);
    }
  }

  /** Plugins with no update offer nothing. */
  lemma NothingNewerNothingOffered(env: Env, installed: seq<DistFile>)
    requires forall i :: 0 <= i < |installed| ==> UpdateFor(env, installed[i]) == Success(None)
    ensures UpdatesAmong(env, installed) == Success([])
  {
    CollectNothing(Offers(env, installed));
  }

  // ------------------------------------------------------------ loading

  /** Keeping the directories of a listing whose names are distinct keeps
      the names distinct. */
  lemma {:induction false} DirNamesDistinct(entries: seq<Dirent>)
    requires forall i, j :: 0 <= i < j < |entries| ==> entries[i].name != entries[j].name
    ensures NoDuplicates(PluginDirNames(entries))
    decreases |entries|
  {
    if |entries| > 0 {
      DirNamesDistinct(entries[1..]);
    }
  }

  /** When `order` enumerates the directory that the plugins root resolves
      to, the names `readdir` yields as plugin directories are exactly the
      sub-directories there, each once. */
  lemma ListedDirectories(fs: Fs, root: Path, order: seq<string>)
    requires ReadDir(fs, root, order).Success?
    requires Resolve(fs, root, MaxLinks).Some? && Enumerates(fs, Resolve(fs, root, MaxLinks).value, order)
    ensures var names := PluginDirNames(ReadDir(fs, root, order).value);
      var dir := Resolve(fs, root, MaxLinks).value;
      NoDuplicates(names) && forall n :: n in names <==> dir + [n] in fs && fs[dir + [n]].Dir?
  {
    var entries := ReadDir(fs, root, order).value;
    forall i, j | 0 <= i < j < |entries|
      ensures entries[i].name != entries[j].name
    {
      assert entries[i].name == order[i] && entries[j].name == order[j];
    }
    DirNamesDistinct(entries);
  }

  /** Every sub-directory of the plugins root is loaded, at its current
      version, at exactly one position of the result, and nothing else is
      loaded; this holds whenever `order` is an enumeration of the root. */
  lemma PluginsToLoadAreDirectories(env: Env, fs: Fs, root: Path, order: seq<string>)
    requires GetPluginsToLoad(env, fs, root, order).Success?
    requires Resolve(fs, root, MaxLinks).Some? && Enumerates(fs, Resolve(fs, root, MaxLinks).value, order)
    ensures var names := PluginDirNames(ReadDir(fs, root, order).value);
      var dir := Resolve(fs, root, MaxLinks).value;
      var plugins := GetPluginsToLoad(env, fs, root, order).value;
      |plugins| == |names| && NoDuplicates(names)
      && (forall n :: n in names <==> dir + [n] in fs && fs[dir + [n]].Dir?)
      && forall k :: 0 <= k < |names| ==> GetPluginFromPath(env, fs, root, names[k], CurrentName) == Success(plugins[k])
  {
    ListedDirectories(fs, root, order);
  }

  /** The same for the manifests alone. */
  lemma MinimalPluginsAreDirectories(codec: Codec, fs: Fs, root: Path, order: seq<string>)
    requires GetMinimalPluginsToLoad(codec, fs, root, order).Success?
    requires Resolve(fs, root, MaxLinks).Some? && Enumerates(fs, Resolve(fs, root, MaxLinks).value, order)
    ensures var names := PluginDirNames(ReadDir(fs, root, order).value);
      var dir := Resolve(fs, root, MaxLinks).value;
      var manifests := GetMinimalPluginsToLoad(codec, fs, root, order).value;
      |manifests| == |names| && NoDuplicates(names)
      && (forall n :: n in names <==> dir + [n] in fs && fs[dir + [n]].Dir?)
      && forall k :: 0 <= k < |names| ==> ReadManifest(codec, fs, root + [names[k]]) == Success(manifests[k])
  {
    ListedDirectories(fs, root, order);
  }

  /** Once the root is listed, loading succeeds exactly when every listed
      plugin directory loads: one plugin that fails fails them all. */
  lemma LoadingFailsWithAnyPlugin(env: Env, fs: Fs, root: Path, order: seq<string>)
    requires ReadDir(fs, root, order).Success?
    ensures GetPluginsToLoad(env, fs, root, order).Success? <==>
      forall k :: 0 <= k < |PluginDirNames(ReadDir(fs, root, order).value)| ==>
        GetPluginFromPath(env, fs, root, PluginDirNames(ReadDir(fs, root, order).value)[k], CurrentName).Success?
  {
  }

  /** The same for the manifests alone. */
  lemma MinimalLoadingFailsWithAnyManifest(codec: Codec, fs: Fs, root: Path, order: seq<string>)
    requires ReadDir(fs, root, order).Success?
    ensures GetMinimalPluginsToLoad(codec, fs, root, order).Success? <==>
      forall k :: 0 <= k < |PluginDirNames(ReadDir(fs, root, order).value)| ==>
        ReadManifest(codec, fs, root + [PluginDirNames(ReadDir(fs, root, order).value)[k]]).Success?
  {
  }

  /** Whenever the full load succeeds, the minimal load succeeds too and
      lists the same manifests in the same order. */
  lemma MinimalAgreesWithFull(env: Env, fs: Fs, root: Path, order: seq<string>)
    requires GetPluginsToLoad(env, fs, root, order).Success?
    ensures GetMinimalPluginsToLoad(env.codec, fs, root, order).Success?
    ensures var full := GetPluginsToLoad(env, fs, root, order).value;
      var minimal := GetMinimalPluginsToLoad(env.codec, fs, root, order).value;
      |minimal| == |full| && forall k :: 0 <= k < |full| ==> minimal[k] == full[k].distFile
  {
    var names := PluginDirNames(ReadDir(fs, root, order).value);
    var full := GetPluginsToLoad(env, fs, root, order).value;
    forall k | 0 <= k < |names|
      ensures ReadManifest(env.codec, fs, root + [names[k]]) == Success(full[k].distFile)
    {
      assert GetPluginFromPath(env, fs, root, names[k], CurrentName) == Success(full[k]);
    }
  }

  /** The update check offers exactly the updates of the installed
      manifests, in the order they are listed. */
  lemma CheckOffersUpdates(env: Env, fs: Fs, root: Path, order: seq<string>, d: DistFile)
    requires CheckForPluginUpdates(env, fs, root, order).Success?
    ensures GetMinimalPluginsToLoad(env.codec, fs, root, order).Success?
    ensures var installed := GetMinimalPluginsToLoad(env.codec, fs, root, order).value;
      (d in CheckForPluginUpdates(env, fs, root, order).value <==>
        exists i :: 0 <= i < |installed| && UpdateFor(env, installed[i]) == Success(Some(d)))
  {
    UpdatesAmongMembers(env, GetMinimalPluginsToLoad(env.codec, fs, root, order).value, d);
  }
}
