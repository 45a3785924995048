/** The plugin data model: manifests ("dist files"), assets, payloads and the
    configuration entities a configuration-extension asset declares, together
    with the abstract collaborators the plugin code calls into (JSON, the
    network and the signature check). */
module PluginTypes {
  import opened Wrappers

  newtype byte = x: int | 0 <= x < 256

  type Bytes = seq<byte>

  /** A parsed JSON document, kept abstract: only its identity matters here. */
  datatype Json =
    | JNull
    | JBool(b: bool)
    | JNumber(n: int)
    | JString(s: string)
    | JArray(items: seq<Json>)
    | JObject(members: seq<(string, Json)>)

  // --------------------------------------------------- configuration entities

  datatype Track = Track(key: string, url: string)

  datatype Addon = Addon(key: string, tracks: seq<Track>)

  /** A publisher of addons. `verified` is absent in a freshly parsed
      extension and is stamped from the plugin when the plugin is loaded. */
  datatype Publisher = Publisher(
    key: string,
    name: string,
    logoUrl: string,
    addons: seq<Addon>,
    verified: Option<bool>)

  /** A directive of a configuration extension; only `addPublishers` has an
      effect, any other kind is logged and skipped. */
  datatype Directive =
    | AddPublishers(publishers: seq<Publisher>)
    | UnknownDirective(kind: string)

  datatype ConfigurationExtension = ConfigurationExtension(directives: seq<Directive>)

  /** The publishers of the `addPublishers` directives, in directive order. */
  function Declared(directives: seq<Directive>): seq<Publisher>
  {
    if |directives| == 0 then []
    else
      (match directives[0]
       case AddPublishers(publishers) => publishers
       case UnknownDirective(_) => [])
      + Declared(directives[1..])
  }

  /** The publishers a plugin declares, in asset, directive and publisher order. */
  function DeclaredAll(extensions: seq<ConfigurationExtension>): seq<Publisher>
  {
    if |extensions| == 0 then []
    else Declared(extensions[0].directives) + DeclaredAll(extensions[1..])
  }

  // ---------------------------------------------------------------- manifests

  /** The asset type enumeration; its one defined member is
      `ConfigurationExtension`, any other string is carried as is. */
  datatype PluginAssetType = ConfigurationExtensionAsset | OtherAssetType(name: string)

  datatype PluginAsset = PluginAsset(file: string, assetType: PluginAssetType)

  datatype PluginMetadata = PluginMetadata(
    id: string,
    version: string,
    name: string,
    description: string,
    iconUrl: string)

  /** The manifest served as `dist.json`. */
  datatype DistFile = DistFile(
    metadata: PluginMetadata,
    originUrl: string,
    assets: seq<PluginAsset>,
    signature: Option<string>)

  datatype PluginAssetPayload = PluginAssetPayload(file: string, assetType: PluginAssetType, buffer: Bytes)

  /** A manifest with the bytes of its assets and the verification verdict
      (absent until verification has run). */
  datatype PluginPayload = PluginPayload(
    distFile: DistFile,
    assets: seq<PluginAssetPayload>,
    verified: Option<bool>)

  // ------------------------------------------------------------------- errors

  datatype FsCode = ENOENT | EEXIST | EISDIR | ENOTDIR | ELOOP | EIO

  /** What a thrown exception reports. */
  datatype Error =
    | NetworkFailure(url: string)
    | ParseFailure(what: string)
    | FileSystemFailure(path: seq<string>, code: FsCode)
    | InvalidVersion(version: string)

  // ----------------------------------------------------------- collaborators

  /** JSON as the plugin code uses it: `JSON.parse` on bytes (None when it
      throws), `JSON.stringify`, and the unchecked casts of a parsed document
      to a manifest or a configuration extension (None when the document
      lacks the complete shape; one check serves every reader). */
  datatype Codec = Codec(
    parse: Bytes -> Option<Json>,
    stringify: Json -> Bytes,
    asDistFile: Json -> Option<DistFile>,
    distFileJson: DistFile -> Json,
    asExtension: Json -> Option<ConfigurationExtension>)

  /** The world outside the plugin code: JSON, `fetch` (None when the request
      is rejected, otherwise the response body) and the signature check
      against the embedded public key. */
  datatype Env = Env(
    codec: Codec,
    fetch: string -> Option<Bytes>,
    accepts: (Bytes, string) -> bool)

  /** A stored manifest reads back as itself. */
  predicate ManifestRoundTrips(codec: Codec, d: DistFile) {
    var text := codec.stringify(codec.distFileJson(d));
    codec.parse(text).Some? && codec.asDistFile(codec.parse(text).value) == Some(d)
  }

  /** The configuration extension held in an asset's bytes. */
  function ParseExtension(codec: Codec, buffer: Bytes): Option<ConfigurationExtension>
  {
    var json :- codec.parse(buffer);
    codec.asExtension(json)
  }

  /** The manifest held in a `dist.json` body. */
  function ParseDistFile(codec: Codec, body: Bytes): Option<DistFile>
  {
    var json :- codec.parse(body);
    codec.asDistFile(json)
  }

  /** The configuration extensions of the `ConfigurationExtension` assets of
      a plugin, in asset order; None when one of them does not parse. */
  function Extensions(codec: Codec, assets: seq<PluginAssetPayload>): (r: Option<seq<ConfigurationExtension>>)
    ensures r.Some? <==> forall i :: 0 <= i < |assets| && assets[i].assetType == ConfigurationExtensionAsset ==>
      ParseExtension(codec, assets[i].buffer).Some?
    ensures r.Some? ==> |r.value| <= |assets|
  {
    if |assets| == 0 then Some([])
    else if assets[0].assetType == ConfigurationExtensionAsset then
      var ext :- ParseExtension(codec, assets[0].buffer);
      var rest :- Extensions(codec, assets[1..]);
      Some([ext] + rest)
    else Extensions(codec, assets[1..])
  }
}
