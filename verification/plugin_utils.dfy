/** Helpers shared by the main and renderer processes: the two download URLs,
    the preview of the download servers a plugin's configuration extensions
    reference, and signature verification. Downloads themselves are calls of
    `Env.fetch` on the URLs built here. */
module PluginUtils {
  import opened Wrappers
  import opened PluginTypes
  import opened Sequences

  // ---------------------------------------------------------------------- URLs

  const ManifestSuffix := "/dist.json"
  const AssetsInfix := "/assets/"

  /** `downloadPluginDistFile`: where a plugin's manifest is fetched from. */
  function DistFileUrl(baseUrl: string): (url: string)
    ensures |url| == |baseUrl| + |ManifestSuffix|
    ensures url[..|baseUrl|] == baseUrl
  {
    baseUrl + ManifestSuffix
  }

  /** `downloadPluginAsset`: assets live under the manifest's own origin, not
      under the URL the manifest was fetched from. */
  function AssetUrl(dist: DistFile, asset: PluginAsset): (url: string)
    ensures |url| == |dist.originUrl| + |AssetsInfix| + |asset.file|
    ensures url[..|dist.originUrl|] == dist.originUrl
  {
    dist.originUrl + AssetsInfix + asset.file
  }

  /** Different base URLs give different manifest URLs. */
  lemma DistFileUrlInjective(a: string, b: string)
    requires DistFileUrl(a) == DistFileUrl(b)
    ensures a == b
  {
    assert a == DistFileUrl(a)[..|a|];
    assert b == DistFileUrl(b)[..|b|];
  }

  /** Within one origin, different file names give different asset URLs. */
  lemma AssetUrlInjective(dist: DistFile, x: PluginAsset, y: PluginAsset)
    requires AssetUrl(dist, x) == AssetUrl(dist, y)
    ensures x.file == y.file
  {
    var k := |dist.originUrl| + |AssetsInfix|;
    assert AssetUrl(dist, x)[k..] == x.file;
    assert AssetUrl(dist, y)[k..] == y.file;
  }

  /** No asset URL of a plugin is the URL of the manifest at the same origin:
      the two differ in the first character after the origin. */
  lemma AssetUrlIsNotManifestUrl(dist: DistFile, asset: PluginAsset)
    ensures AssetUrl(dist, asset) != DistFileUrl(dist.originUrl)
  {
    var n := |dist.originUrl|;
    assert AssetUrl(dist, asset)[n + 1] == 'a';
    assert DistFileUrl(dist.originUrl)[n + 1] == 'd';
  }

  // ------------------------------------------------------------------- preview

  /** The URLs of `tracks`, in order. */
  function TrackUrls(tracks: seq<Track>): seq<string>
  {
    if |tracks| == 0 then [] else [tracks[0].url] + TrackUrls(tracks[1..])
  }

  /** The track URLs of `addons`, addon by addon. */
  function AddonUrls(addons: seq<Addon>): seq<string>
  {
    if |addons| == 0 then [] else TrackUrls(addons[0].tracks) + AddonUrls(addons[1..])
  }

  /** The track URLs of `publishers`, publisher by publisher. */
  function PublisherUrls(publishers: seq<Publisher>): seq<string>
  {
    if |publishers| == 0 then [] else AddonUrls(publishers[0].addons) + PublisherUrls(publishers[1..])
  }

  /** `url` is the URL of some track of some addon of one of `publishers`. */
  ghost predicate Referenced(publishers: seq<Publisher>, url: string)
  {
    exists p :: p in publishers && exists a :: a in p.addons && exists t :: t in a.tracks && t.url == url
  }

  /** The position of the first occurrence of `x` in `xs`. */
  function FirstIndex<T(==)>(xs: seq<T>, x: T): (i: nat)
    requires x in xs
    ensures i < |xs| && xs[i] == x && x !in xs[..i]
  {
    if xs[0] == x then 0
    else
      var k := FirstIndex(xs[1..], x);
      assert xs[..k + 1] == [xs[0]] + xs[1..][..k];
      k + 1
  }

  /** The elements of `xs` in the order a JavaScript `Set` built by adding
      them one at a time would enumerate them. */
  function Dedup(xs: seq<string>): (r: seq<string>)
    ensures NoDuplicates(r)
    ensures forall x :: x in r <==> x in xs
    ensures |r| <= |xs|
  {
    if |xs| == 0 then []
    else
      var prefix := Dedup(xs[..|xs| - 1]);
      var last := xs[|xs| - 1];
      assert xs == xs[..|xs| - 1] + [last];
      if last in prefix then prefix else prefix + [last]
  }

  /** `generateUserPreview`: the distinct download servers the plugin's
      configuration extensions reference. A configuration-extension asset
      that does not parse makes the whole preview fail. */
  function GenerateUserPreview(codec: Codec, assets: seq<PluginAssetPayload>): (r: Result<seq<string>, Error>)
    ensures r.Failure? <==> exists i :: 0 <= i < |assets| && assets[i].assetType == ConfigurationExtensionAsset
                                      && ParseExtension(codec, assets[i].buffer).None?
    ensures r.Success? ==> NoDuplicates(r.value)
    ensures r.Success? ==> forall url :: url in r.value <==> url in PublisherUrls(DeclaredAll(Extensions(codec, assets).value))
  {
    match Extensions(codec, assets)
    case None => Failure(ParseFailure("configuration extension"))
    case Some(extensions) => Success(Dedup(PublisherUrls(DeclaredAll(extensions))))
  }

  // ------------------------------------------------------------- preview lemmas

  lemma {:induction false} FirstIndexOfPrefix<T>(xs: seq<T>, k: nat, x: T)
    requires k <= |xs| && x in xs[..k]
    ensures FirstIndex(xs, x) == FirstIndex(xs[..k], x)
  {
    var i := FirstIndex(xs[..k], x);
    var j := FirstIndex(xs, x);
    assert xs[..k][..i] == xs[..i];
  }

  /** The order of first occurrence in a prefix of `xs` is the order of
      first occurrence in `xs`. */
  lemma OrderInPrefix(xs: seq<string>, n: nat, r: seq<string>)
    requires n <= |xs| && forall y :: y in r ==> y in xs[..n]
    requires forall i, j :: 0 <= i < j < |r| ==> FirstIndex(xs[..n], r[i]) < FirstIndex(xs[..n], r[j])
    ensures forall y :: y in r ==> y in xs && FirstIndex(xs, y) == FirstIndex(xs[..n], y) < n
  {
    forall y | y in r
      ensures y in xs && FirstIndex(xs, y) == FirstIndex(xs[..n], y) < n
    {
      FirstIndexOfPrefix(xs, n, y);
    }
  }

  /** An element first met at the end comes after all earlier ones. */
  lemma OrderAppendLast(xs: seq<string>, r: seq<string>, extended: seq<string>)
    requires |xs| > 0 && xs[|xs| - 1] !in xs[..|xs| - 1]
    requires forall y :: y in r ==> y in xs && FirstIndex(xs, y) < |xs| - 1
    requires forall i, j :: 0 <= i < j < |r| ==> FirstIndex(xs, r[i]) < FirstIndex(xs, r[j])
    requires extended == r + [xs[|xs| - 1]]
    ensures forall i, j :: 0 <= i < j < |extended| ==>
      extended[i] in xs && extended[j] in xs && FirstIndex(xs, extended[i]) < FirstIndex(xs, extended[j])
  {
    var last := xs[|xs| - 1];
    assert FirstIndex(xs, last) == |xs| - 1;
    forall i, j | 0 <= i < j < |extended|
      ensures extended[i] in xs && extended[j] in xs && FirstIndex(xs, extended[i]) < FirstIndex(xs, extended[j])
    {
      assert extended[i] == r[i];
      if j < |r| {
        assert extended[j] == r[j];
      } else {
        assert extended[j] == last;
      }
    }
  }

  /** The preview lists servers in the order of their first reference. */
  lemma {:induction false} DedupKeepsFirstOccurrenceOrder(xs: seq<string>)
    ensures forall i, j :: 0 <= i < j < |Dedup(xs)| ==> FirstIndex(xs, Dedup(xs)[i]) < FirstIndex(xs, Dedup(xs)[j])
    decreases |xs|
  {
    if |xs| > 0 {
      var n := |xs| - 1;
      var init := xs[..n];
      var prefix := Dedup(init);
      var last := xs[n];
      DedupKeepsFirstOccurrenceOrder(init);
      OrderInPrefix(xs, n, prefix);
      if last !in prefix {
        assert Dedup(xs) == prefix + [last];
        OrderAppendLast(xs, prefix, Dedup(xs));
      } else {
        assert Dedup(xs) == prefix;
      }
    }
  }

  /** A server is in the flattened list exactly when some track declares it. */
  lemma {:induction false} TrackUrlsReferenced(tracks: seq<Track>, url: string)
    ensures url in TrackUrls(tracks) <==> exists t :: t in tracks && t.url == url
    decreases |tracks|
  {
    if |tracks| > 0 {
      TrackUrlsReferenced(tracks[1..], url);
      assert tracks == [tracks[0]] + tracks[1..];
    }
  }

  lemma {:induction false} AddonUrlsReferenced(addons: seq<Addon>, url: string)
    ensures url in AddonUrls(addons) <==> exists a :: a in addons && exists t :: t in a.tracks && t.url == url
    decreases |addons|
  {
    if |addons| > 0 {
      TrackUrlsReferenced(addons[0].tracks, url);
      AddonUrlsReferenced(addons[1..], url);
      assert addons == [addons[0]] + addons[1..];
    }
  }

  lemma {:induction false} PublisherUrlsReferenced(publishers: seq<Publisher>, url: string)
    ensures url in PublisherUrls(publishers) <==> Referenced(publishers, url)
    decreases |publishers|
  {
    if |publishers| > 0 {
      AddonUrlsReferenced(publishers[0].addons, url);
      PublisherUrlsReferenced(publishers[1..], url);
      assert publishers == [publishers[0]] + publishers[1..];
    }
  }

  /** The preview holds exactly the track URLs the declared publishers
      reference, each once, in order of first reference. */
  lemma PreviewIsReferencedServers(codec: Codec, assets: seq<PluginAssetPayload>, url: string)
    requires GenerateUserPreview(codec, assets).Success?
    ensures url in GenerateUserPreview(codec, assets).value
        <==> Referenced(DeclaredAll(Extensions(codec, assets).value), url)
    ensures var all := PublisherUrls(DeclaredAll(Extensions(codec, assets).value));
            var servers := GenerateUserPreview(codec, assets).value;
            forall i, j :: 0 <= i < j < |servers| ==> FirstIndex(all, servers[i]) < FirstIndex(all, servers[j])
  {
    var all := PublisherUrls(DeclaredAll(Extensions(codec, assets).value));
    PublisherUrlsReferenced(DeclaredAll(Extensions(codec, assets).value), url);
    DedupKeepsFirstOccurrenceOrder(all);
  }

  // -------------------------------------------------------------- verification

  /** Every asset's bytes as JSON, in order; None when one does not parse. */
  function ParseAll(codec: Codec, assets: seq<PluginAssetPayload>): (r: Option<seq<Json>>)
    ensures r.Some? <==> forall i :: 0 <= i < |assets| ==> codec.parse(assets[i].buffer).Some?
    ensures r.Some? ==> (|r.value| == |assets|
      && forall i :: 0 <= i < |assets| ==> r.value[i] == codec.parse(assets[i].buffer).value)
  {
    if |assets| == 0 then Some([])
    else
      var head :- codec.parse(assets[0].buffer);
      var rest :- ParseAll(codec, assets[1..]);
      Some([head] + rest)
  }

  /** The bytes the signature covers: the manifest without its signature and
      the parsed assets, as one JSON document. */
  function SignedMessage(codec: Codec, distFile: DistFile, assets: seq<PluginAssetPayload>): Option<Bytes>
  {
    var parsed :- ParseAll(codec, assets);
    Some(codec.stringify(JObject([
      ("distFile", codec.distFileJson(distFile.(signature := None))),
      ("assets", JArray(parsed))])))
  }

  /** `verifyPlugin`: an unsigned plugin is unverified; a signed one is
      verified when the signature check accepts the signed message. Building
      that message parses every asset, whatever its type, so a signed plugin
      with an asset that is not JSON makes verification throw. Any verdict the
      payload carried is discarded. */
  function VerifyPlugin(env: Env, plugin: PluginPayload): (r: Result<PluginPayload, Error>)
    ensures r.Failure? <==> (plugin.distFile.signature.Some?
      && exists i :: 0 <= i < |plugin.assets| && env.codec.parse(plugin.assets[i].buffer).None?)
    ensures r.Success? ==> r.value.distFile == plugin.distFile && r.value.assets == plugin.assets
    ensures r.Success? ==> (r.value.verified == Some(true) <==>
      plugin.distFile.signature.Some?
      && env.accepts(SignedMessage(env.codec, plugin.distFile, plugin.assets).value, plugin.distFile.signature.value))
    ensures r.Success? ==> r.value.verified.Some?
  {
    match plugin.distFile.signature
    case None => Success(plugin.(verified := Some(false)))
    case Some(signature) =>
      match SignedMessage(env.codec, plugin.distFile, plugin.assets)
      case None => Failure(ParseFailure("plugin asset"))
      case Some(message) => Success(plugin.(verified := Some(env.accepts(message, signature))))
  }

  /** Verification does not depend on the verdict a payload already carries,
      so running it twice gives what running it once gives. */
  lemma VerifyIgnoresPriorVerdict(env: Env, plugin: PluginPayload, prior: Option<bool>)
    ensures VerifyPlugin(env, plugin.(verified := prior)) == VerifyPlugin(env, plugin)
    ensures VerifyPlugin(env, plugin).Success? ==>
      VerifyPlugin(env, VerifyPlugin(env, plugin).value) == VerifyPlugin(env, plugin)
  {
  }

  /** The signature is not part of the message it signs. */
  lemma SignedMessageOmitsSignature(codec: Codec, distFile: DistFile, assets: seq<PluginAssetPayload>, signature: Option<string>)
    ensures SignedMessage(codec, distFile.(signature := signature), assets) == SignedMessage(codec, distFile, assets)
  {
  }
}
