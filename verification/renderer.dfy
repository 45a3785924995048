/** The renderer's plugin manager: loading a plugin interprets the directives
    of its configuration-extension assets against the configuration store,
    unloading retracts them. The store is passed in and returned explicitly;
    each dispatched action is one reducer application. */
module PluginRendererManager {
  import opened Wrappers
  import opened PluginTypes
  import opened ConfigurationSlice
  import opened Sequences

  datatype PluginAction = Load | Unload

  /** The store after the dispatched actions, and whether processing stopped
      with an exception (an asset whose bytes do not parse). Actions
      dispatched before the exception stay applied. */
  datatype Dispatched = Dispatched(state: Configuration, threw: bool)

  /** The plugin's verdict, `false` when verification never ran. */
  function PluginVerified(payload: PluginPayload): bool
  {
    match payload.verified
    case Some(v) => v
    case None => false
  }

  // ----------------------------------------------------------- the interpreter

  /** One publisher of an `addPublishers` directive. `snapshot` holds the keys
      of the store as it was when the asset's processing began. */
  function ProcessPublisher(snapshot: set<string>, publisher: Publisher, action: PluginAction, verified: bool, state: Configuration): Configuration
  {
    match action
    case Load =>
      if publisher.key in snapshot then state
      else AddPublisher(state, publisher.(verified := Some(verified)))
    case Unload => RemovePublisher(state, publisher)
  }

  function ProcessPublishers(snapshot: set<string>, publishers: seq<Publisher>, action: PluginAction, verified: bool, state: Configuration): (r: Configuration)
    ensures r.version == state.version
    decreases |publishers|
  {
    if |publishers| == 0 then state
    else
      var next := ProcessPublisher(snapshot, publishers[0], action, verified, state);
      ProcessPublishers(snapshot, publishers[1..], action, verified, next)
  }

  function ProcessDirectives(snapshot: set<string>, directives: seq<Directive>, action: PluginAction, verified: bool, state: Configuration): (r: Configuration)
    ensures r.version == state.version
    decreases |directives|
  {
    if |directives| == 0 then state
    else
      var next := match directives[0]
        case AddPublishers(publishers) => ProcessPublishers(snapshot, publishers, action, verified, state)
        case UnknownDirective(_) => state;
      ProcessDirectives(snapshot, directives[1..], action, verified, next)
  }

  /** `processConfigurationExtensionAsset`: None when the asset's bytes do not
      parse, in which case nothing was dispatched for it. */
  function ProcessConfigurationExtensionAsset(codec: Codec, asset: PluginAssetPayload, action: PluginAction, verified: bool, state: Configuration): (r: Option<Configuration>)
    ensures r.None? <==> ParseExtension(codec, asset.buffer).None?
  {
    var extension :- ParseExtension(codec, asset.buffer);
    Some(ProcessDirectives(KeySet(state.publishers), extension.directives, action, verified, state))
  }

  /** The asset loop shared by `loadPlugin` and `unLoadPlugin`: assets of any
      other type are skipped; an asset that does not parse stops the loop. */
  function ProcessAssets(codec: Codec, assets: seq<PluginAssetPayload>, action: PluginAction, verified: bool, state: Configuration): (r: Dispatched)
    ensures r.threw <==> Extensions(codec, assets).None?
    ensures r.state.version == state.version
    decreases |assets|
  {
    if |assets| == 0 then Dispatched(state, false)
    else if assets[0].assetType == ConfigurationExtensionAsset then
      match ProcessConfigurationExtensionAsset(codec, assets[0], action, verified, state)
      case None => Dispatched(state, true)
      case Some(next) => ProcessAssets(codec, assets[1..], action, verified, next)
    else ProcessAssets(codec, assets[1..], action, verified, state)
  }

  /** `loadPlugin`: throws exactly when one of the plugin's configuration
      extensions does not parse; the entries already in the store stay, in
      place, in front of whatever was added, even when it throws. */
  function LoadPlugin(codec: Codec, payload: PluginPayload, state: Configuration): (r: Dispatched)
    ensures r.threw <==> Extensions(codec, payload.assets).None?
    ensures r.state.version == state.version
    ensures |state.publishers| <= |r.state.publishers| && r.state.publishers[..|state.publishers|] == state.publishers
  {
    LoadKeepsExisting(codec, payload.assets, PluginVerified(payload), state);
    ProcessAssets(codec, payload.assets, Load, PluginVerified(payload), state)
  }

  /** `unLoadPlugin`: throws exactly when one of the plugin's configuration
      extensions does not parse; it only ever removes entries, even when it
      throws. */
  function UnloadPlugin(codec: Codec, payload: PluginPayload, state: Configuration): (r: Dispatched)
    ensures r.threw <==> Extensions(codec, payload.assets).None?
    ensures r.state.version == state.version
    ensures forall p :: p in r.state.publishers ==> p in state.publishers
  {
    UnloadOnlyRemoves(codec, payload.assets, PluginVerified(payload), state);
    ProcessAssets(codec, payload.assets, Unload, PluginVerified(payload), state)
  }

  // ---------------------------------------------------- reference definitions

  /** What loading `publishers` against `snapshot` appends: each one whose key
      the snapshot lacks, with its verified flag stamped. */
  function Admitted(publishers: seq<Publisher>, snapshot: set<string>, verified: bool): seq<Publisher>
  {
    if |publishers| == 0 then []
    else
      (if publishers[0].key in snapshot then [] else [publishers[0].(verified := Some(verified))])
      + Admitted(publishers[1..], snapshot, verified)
  }

  /** What loading a plugin's extensions in turn appends to a store holding
      `keys`; each extension sees the keys its predecessors declared. */
  function AdmittedAll(extensions: seq<ConfigurationExtension>, keys: set<string>, verified: bool): seq<Publisher>
  {
    if |extensions| == 0 then []
    else
      var declared := Declared(extensions[0].directives);
      Admitted(declared, keys, verified) + AdmittedAll(extensions[1..], keys + KeySet(declared), verified)
  }

  // -------------------------------------------------------------------- lemmas

  lemma {:induction false} AdmittedConcat(a: seq<Publisher>, b: seq<Publisher>, snapshot: set<string>, verified: bool)
    ensures Admitted(a + b, snapshot, verified) == Admitted(a, snapshot, verified) + Admitted(b, snapshot, verified)
    decreases |a|
  {
    if |a| == 0 {
      assert a + b == b;
    } else {
      assert (a + b)[1..] == a[1..] + b;
      AdmittedConcat(a[1..], b, snapshot, verified);
    }
  }

  lemma KeySetConcat(a: seq<Publisher>, b: seq<Publisher>)
    ensures KeySet(a + b) == KeySet(a) + KeySet(b)
  {
  }

  lemma NameSetConcat(a: seq<Publisher>, b: seq<Publisher>)
    ensures NameSet(a + b) == NameSet(a) + NameSet(b)
  {
  }

  /** The keys a load adds are the declared keys the snapshot lacked. */
  lemma {:induction false} AdmittedKeys(publishers: seq<Publisher>, snapshot: set<string>, verified: bool)
    ensures snapshot + KeySet(Admitted(publishers, snapshot, verified)) == snapshot + KeySet(publishers)
    decreases |publishers|
  {
    if |publishers| == 0 {
      assert KeySet(publishers) == {};
    } else {
      var p := publishers[0];
      var rest := publishers[1..];
      var head := if p.key in snapshot then [] else [p.(verified := Some(verified))];
      assert KeySet(head) == (if p.key in snapshot then {} else {p.key});
      assert Admitted(publishers, snapshot, verified) == head + Admitted(rest, snapshot, verified);
      AdmittedKeys(rest, snapshot, verified);
      KeySetConcat(head, Admitted(rest, snapshot, verified));
      assert publishers == [p] + rest;
      KeySetConcat([p], rest);
      assert KeySet([p]) == {p.key};
    }
  }

  /** Stamping keeps names: whatever a load appends carries a declared name. */
  lemma {:induction false} AdmittedNames(publishers: seq<Publisher>, snapshot: set<string>, verified: bool)
    ensures NameSet(Admitted(publishers, snapshot, verified)) <= NameSet(publishers)
    decreases |publishers|
  {
    if |publishers| > 0 {
      var p := publishers[0];
      var head := if p.key in snapshot then [] else [p.(verified := Some(verified))];
      AdmittedNames(publishers[1..], snapshot, verified);
      NameSetConcat(head, Admitted(publishers[1..], snapshot, verified));
      NameSetConcat([p], publishers[1..]);
      assert publishers == [p] + publishers[1..];
    }
  }

  /** Publishers whose keys are all in the snapshot add nothing. */
  lemma {:induction false} AdmittedNone(publishers: seq<Publisher>, snapshot: set<string>, verified: bool)
    requires KeySet(publishers) <= snapshot
    ensures Admitted(publishers, snapshot, verified) == []
    decreases |publishers|
  {
    if |publishers| > 0 {
      assert publishers[0] in publishers;
      assert KeySet(publishers[1..]) <= KeySet(publishers) by {
        forall k | k in KeySet(publishers[1..]) ensures k in KeySet(publishers) {
          var q :| q in publishers[1..] && q.key == k;
          assert q in publishers;
        }
      }
      AdmittedNone(publishers[1..], snapshot, verified);
    }
  }

  /** The duplicate check only consults the snapshot: publishers whose keys
      the snapshot lacks are all appended, even when they share a key with
      each other. */
  lemma {:induction false} AdmittedAllFresh(publishers: seq<Publisher>, snapshot: set<string>, verified: bool)
    requires KeySet(publishers) !! snapshot
    ensures |Admitted(publishers, snapshot, verified)| == |publishers|
    ensures forall i :: 0 <= i < |publishers| ==>
      Admitted(publishers, snapshot, verified)[i] == publishers[i].(verified := Some(verified))
    decreases |publishers|
  {
    if |publishers| > 0 {
      assert publishers[0] in publishers;
      assert KeySet(publishers[1..]) <= KeySet(publishers) by {
        forall k | k in KeySet(publishers[1..]) ensures k in KeySet(publishers) {
          var q :| q in publishers[1..] && q.key == k;
          assert q in publishers;
        }
      }
      AdmittedAllFresh(publishers[1..], snapshot, verified);
    }
  }

  /** Loading the publishers of one directive appends exactly the admitted ones. */
  lemma {:induction false} LoadPublishersAppends(snapshot: set<string>, publishers: seq<Publisher>, verified: bool, state: Configuration)
    ensures ProcessPublishers(snapshot, publishers, Load, verified, state)
         == state.(publishers := state.publishers + Admitted(publishers, snapshot, verified))
    decreases |publishers|
  {
    if |publishers| == 0 {
      assert state.publishers + [] == state.publishers;
    } else {
      var p := publishers[0];
      var next := ProcessPublisher(snapshot, p, Load, verified, state);
      LoadPublishersAppends(snapshot, publishers[1..], verified, next);
      var head := if p.key in snapshot then [] else [p.(verified := Some(verified))];
      assert next.publishers == state.publishers + head;
      assert state.publishers + head + Admitted(publishers[1..], snapshot, verified)
          == state.publishers + (head + Admitted(publishers[1..], snapshot, verified));
    }
  }

  /** Loading an extension appends the admitted publishers of its
      `addPublishers` directives, in directive order; other directives add
      nothing. */
  lemma {:induction false} LoadDirectivesAppends(snapshot: set<string>, directives: seq<Directive>, verified: bool, state: Configuration)
    ensures ProcessDirectives(snapshot, directives, Load, verified, state)
         == state.(publishers := state.publishers + Admitted(Declared(directives), snapshot, verified))
    decreases |directives|
  {
    if |directives| == 0 {
      assert state.publishers + [] == state.publishers;
    } else {
      var own := match directives[0]
        case AddPublishers(publishers) => publishers
        case UnknownDirective(_) => [];
      var next := state.(publishers := state.publishers + Admitted(own, snapshot, verified));
      LoadPublishersAppends(snapshot, own, verified, state);
      LoadDirectivesAppends(snapshot, directives[1..], verified, next);
      AdmittedConcat(own, Declared(directives[1..]), snapshot, verified);
      assert next.publishers + Admitted(Declared(directives[1..]), snapshot, verified)
          == state.publishers + (Admitted(own, snapshot, verified) + Admitted(Declared(directives[1..]), snapshot, verified));
    }
  }

  /** Unloading the publishers of one directive removes their names. */
  lemma {:induction false} UnloadPublishersRemoves(snapshot: set<string>, publishers: seq<Publisher>, verified: bool, state: Configuration)
    ensures ProcessPublishers(snapshot, publishers, Unload, verified, state)
         == state.(publishers := WithoutNames(state.publishers, NameSet(publishers)))
    decreases |publishers|
  {
    if |publishers| == 0 {
      assert NameSet(publishers) == {};
      WithoutNamesAbsent(state.publishers, {});
    } else {
      var p := publishers[0];
      var next := RemovePublisher(state, p);
      UnloadPublishersRemoves(snapshot, publishers[1..], verified, next);
      WithoutNamesCompose(state.publishers, {p.name}, NameSet(publishers[1..]));
      NameSetConcat([p], publishers[1..]);
      assert NameSet([p]) == {p.name};
      assert publishers == [p] + publishers[1..];
    }
  }

  lemma {:induction false} UnloadDirectivesRemoves(snapshot: set<string>, directives: seq<Directive>, verified: bool, state: Configuration)
    ensures ProcessDirectives(snapshot, directives, Unload, verified, state)
         == state.(publishers := WithoutNames(state.publishers, NameSet(Declared(directives))))
    decreases |directives|
  {
    if |directives| == 0 {
      assert NameSet(Declared(directives)) == {};
      WithoutNamesAbsent(state.publishers, {});
    } else {
      var own := match directives[0]
        case AddPublishers(publishers) => publishers
        case UnknownDirective(_) => [];
      var next := state.(publishers := WithoutNames(state.publishers, NameSet(own)));
      UnloadPublishersRemoves(snapshot, own, verified, state);
      UnloadDirectivesRemoves(snapshot, directives[1..], verified, next);
      WithoutNamesCompose(state.publishers, NameSet(own), NameSet(Declared(directives[1..])));
      NameSetConcat(own, Declared(directives[1..]));
    }
  }

  /** Loading a plugin appends, after the existing entries, every declared
      publisher whose key is not yet present when its asset is reached,
      stamped with the plugin's verdict, in asset, directive and publisher
      order; assets of other types and other directives contribute nothing. */
  lemma {:induction false} LoadPluginAppends(codec: Codec, assets: seq<PluginAssetPayload>, verified: bool, state: Configuration)
    requires Extensions(codec, assets).Some?
    ensures ProcessAssets(codec, assets, Load, verified, state)
         == Dispatched(state.(publishers := state.publishers
              + AdmittedAll(Extensions(codec, assets).value, KeySet(state.publishers), verified)), false)
    decreases |assets|
  {
    if |assets| == 0 {
      assert state.publishers + [] == state.publishers;
    } else if assets[0].assetType == ConfigurationExtensionAsset {
      var ext := ParseExtension(codec, assets[0].buffer).value;
      var keys := KeySet(state.publishers);
      var declared := Declared(ext.directives);
      var added := Admitted(declared, keys, verified);
      var next := LoadExtensionStep(codec, assets[0], verified, state);
      assert ProcessAssets(codec, assets, Load, verified, state) == ProcessAssets(codec, assets[1..], Load, verified, next);
      LoadPluginAppends(codec, assets[1..], verified, next);
      var rest := AdmittedAll(Extensions(codec, assets[1..]).value, keys + KeySet(declared), verified);
      assert Extensions(codec, assets).value == [ext] + Extensions(codec, assets[1..]).value;
      assert AdmittedAll(Extensions(codec, assets).value, keys, verified) == added + rest;
      assert KeySet(next.publishers) == keys + KeySet(declared);
      assert ProcessAssets(codec, assets[1..], Load, verified, next) == Dispatched(next.(publishers := next.publishers + rest), false);
      assert next.publishers == state.publishers + added;
      AppendAssoc(state.publishers, added, rest);
      assert next.(publishers := next.publishers + rest) == state.(publishers := state.publishers + (added + rest));
    } else {
      LoadPluginAppends(codec, assets[1..], verified, state);
    }
  }

  /** Loading one configuration-extension asset that parses. */
  lemma LoadExtensionStep(codec: Codec, asset: PluginAssetPayload, verified: bool, state: Configuration)
    returns (next: Configuration)
    requires ParseExtension(codec, asset.buffer).Some?
    ensures var declared := Declared(ParseExtension(codec, asset.buffer).value.directives);
      && ProcessConfigurationExtensionAsset(codec, asset, Load, verified, state) == Some(next)
      && next == state.(publishers := state.publishers + Admitted(declared, KeySet(state.publishers), verified))
      && KeySet(next.publishers) == KeySet(state.publishers) + KeySet(declared)
  {
    var ext := ParseExtension(codec, asset.buffer).value;
    var keys := KeySet(state.publishers);
    var declared := Declared(ext.directives);
    var added := Admitted(declared, keys, verified);
    LoadDirectivesAppends(keys, ext.directives, verified, state);
    next := state.(publishers := state.publishers + added);
    KeySetConcat(state.publishers, added);
    AdmittedKeys(declared, keys, verified);
  }

  /** Loading never disturbs the entries already in the store, also when an
      asset that does not parse stops it part-way. */
  lemma {:induction false} LoadKeepsExisting(codec: Codec, assets: seq<PluginAssetPayload>, verified: bool, state: Configuration)
    ensures var r := ProcessAssets(codec, assets, Load, verified, state);
      |state.publishers| <= |r.state.publishers| && r.state.publishers[..|state.publishers|] == state.publishers
    decreases |assets|
  {
    if |assets| > 0 {
      if assets[0].assetType == ConfigurationExtensionAsset {
        if ParseExtension(codec, assets[0].buffer).Some? {
          var next := LoadExtensionStep(codec, assets[0], verified, state);
          LoadKeepsExisting(codec, assets[1..], verified, next);
          var r := ProcessAssets(codec, assets, Load, verified, state);
          assert r == ProcessAssets(codec, assets[1..], Load, verified, next);
          assert r.state.publishers[..|state.publishers|] == r.state.publishers[..|next.publishers|][..|state.publishers|];
        }
      } else {
        LoadKeepsExisting(codec, assets[1..], verified, state);
      }
    }
  }

  /** Unloading only removes entries, also when it stops part-way. */
  lemma {:induction false} UnloadOnlyRemoves(codec: Codec, assets: seq<PluginAssetPayload>, verified: bool, state: Configuration)
    ensures forall p :: p in ProcessAssets(codec, assets, Unload, verified, state).state.publishers ==> p in state.publishers
    decreases |assets|
  {
    if |assets| > 0 {
      if assets[0].assetType == ConfigurationExtensionAsset {
        if ParseExtension(codec, assets[0].buffer).Some? {
          var ext := ParseExtension(codec, assets[0].buffer).value;
          UnloadDirectivesRemoves(KeySet(state.publishers), ext.directives, verified, state);
          var next := state.(publishers := WithoutNames(state.publishers, NameSet(Declared(ext.directives))));
          assert ProcessConfigurationExtensionAsset(codec, assets[0], Unload, verified, state) == Some(next);
          UnloadOnlyRemoves(codec, assets[1..], verified, next);
        }
      } else {
        UnloadOnlyRemoves(codec, assets[1..], verified, state);
      }
    }
  }

  /** Unloading a plugin removes every entry that carries the name of a
      declared publisher, present or not, whatever its key. */
  lemma {:induction false} UnloadPluginRemoves(codec: Codec, assets: seq<PluginAssetPayload>, verified: bool, state: Configuration)
    requires Extensions(codec, assets).Some?
    ensures ProcessAssets(codec, assets, Unload, verified, state)
         == Dispatched(state.(publishers := WithoutNames(state.publishers,
              NameSet(DeclaredAll(Extensions(codec, assets).value)))), false)
    decreases |assets|
  {
    if |assets| == 0 {
      assert NameSet(DeclaredAll(Extensions(codec, assets).value)) == {};
      WithoutNamesAbsent(state.publishers, {});
    } else if assets[0].assetType == ConfigurationExtensionAsset {
      var ext := ParseExtension(codec, assets[0].buffer).value;
      var names := NameSet(Declared(ext.directives));
      var next := state.(publishers := WithoutNames(state.publishers, names));
      UnloadDirectivesRemoves(KeySet(state.publishers), ext.directives, verified, state);
      UnloadPluginRemoves(codec, assets[1..], verified, next);
      var restNames := NameSet(DeclaredAll(Extensions(codec, assets[1..]).value));
      WithoutNamesCompose(state.publishers, names, restNames);
      NameSetConcat(Declared(ext.directives), DeclaredAll(Extensions(codec, assets[1..]).value));
    } else {
      UnloadPluginRemoves(codec, assets[1..], verified, state);
    }
  }

  lemma {:induction false} AdmittedAllKeys(extensions: seq<ConfigurationExtension>, keys: set<string>, verified: bool)
    ensures keys + KeySet(AdmittedAll(extensions, keys, verified)) == keys + KeySet(DeclaredAll(extensions))
    decreases |extensions|
  {
    if |extensions| > 0 {
      var declared := Declared(extensions[0].directives);
      AdmittedKeys(declared, keys, verified);
      AdmittedAllKeys(extensions[1..], keys + KeySet(declared), verified);
      KeySetConcat(Admitted(declared, keys, verified), AdmittedAll(extensions[1..], keys + KeySet(declared), verified));
      KeySetConcat(declared, DeclaredAll(extensions[1..]));
    }
  }

  lemma {:induction false} AdmittedAllNames(extensions: seq<ConfigurationExtension>, keys: set<string>, verified: bool)
    ensures NameSet(AdmittedAll(extensions, keys, verified)) <= NameSet(DeclaredAll(extensions))
    decreases |extensions|
  {
    if |extensions| > 0 {
      var declared := Declared(extensions[0].directives);
      AdmittedNames(declared, keys, verified);
      AdmittedAllNames(extensions[1..], keys + KeySet(declared), verified);
      NameSetConcat(Admitted(declared, keys, verified), AdmittedAll(extensions[1..], keys + KeySet(declared), verified));
      NameSetConcat(declared, DeclaredAll(extensions[1..]));
    }
  }

  lemma {:induction false} AdmittedAllNone(extensions: seq<ConfigurationExtension>, keys: set<string>, verified: bool)
    requires KeySet(DeclaredAll(extensions)) <= keys
    ensures AdmittedAll(extensions, keys, verified) == []
    decreases |extensions|
  {
    if |extensions| > 0 {
      var declared := Declared(extensions[0].directives);
      KeySetConcat(declared, DeclaredAll(extensions[1..]));
      AdmittedNone(declared, keys, verified);
      AdmittedAllNone(extensions[1..], keys + KeySet(declared), verified);
    }
  }

  /** After a load that completes, every key the plugin declares is present,
      and nothing else was added. */
  lemma LoadPluginKeys(codec: Codec, payload: PluginPayload, state: Configuration)
    requires !LoadPlugin(codec, payload, state).threw
    ensures KeySet(LoadPlugin(codec, payload, state).state.publishers)
         == KeySet(state.publishers) + KeySet(DeclaredAll(Extensions(codec, payload.assets).value))
  {
    var exts := Extensions(codec, payload.assets).value;
    var v := PluginVerified(payload);
    LoadPluginAppends(codec, payload.assets, v, state);
    KeySetConcat(state.publishers, AdmittedAll(exts, KeySet(state.publishers), v));
    AdmittedAllKeys(exts, KeySet(state.publishers), v);
  }

  /** Loading the same plugin a second time adds nothing. */
  lemma LoadPluginTwice(codec: Codec, payload: PluginPayload, state: Configuration)
    requires !LoadPlugin(codec, payload, state).threw
    ensures var once := LoadPlugin(codec, payload, state).state;
      LoadPlugin(codec, payload, once) == Dispatched(once, false)
  {
    var exts := Extensions(codec, payload.assets).value;
    var v := PluginVerified(payload);
    var once := LoadPlugin(codec, payload, state).state;
    LoadPluginKeys(codec, payload, state);
    LoadPluginAppends(codec, payload.assets, v, once);
    AdmittedAllNone(exts, KeySet(once.publishers), v);
    assert once.publishers + [] == once.publishers;
  }

  /** Unloading a plugin none of whose publisher names is in the store
      changes nothing. */
  lemma UnloadPluginNeverLoaded(codec: Codec, payload: PluginPayload, state: Configuration)
    requires Extensions(codec, payload.assets).Some?
    requires NameSet(state.publishers) !! NameSet(DeclaredAll(Extensions(codec, payload.assets).value))
    ensures UnloadPlugin(codec, payload, state) == Dispatched(state, false)
  {
    UnloadPluginRemoves(codec, payload.assets, PluginVerified(payload), state);
    WithoutNamesAbsent(state.publishers, NameSet(DeclaredAll(Extensions(codec, payload.assets).value)));
  }

  /** Load then unload is the same as unload alone: the publishers the load
      added go, and so does every entry that was there before and shares a
      name with a declared publisher, even under another key. */
  lemma LoadThenUnload(codec: Codec, payload: PluginPayload, state: Configuration)
    requires !LoadPlugin(codec, payload, state).threw
    ensures UnloadPlugin(codec, payload, LoadPlugin(codec, payload, state).state)
         == UnloadPlugin(codec, payload, state)
    ensures UnloadPlugin(codec, payload, state)
         == Dispatched(state.(publishers := WithoutNames(state.publishers,
              NameSet(DeclaredAll(Extensions(codec, payload.assets).value)))), false)
  {
    var exts := Extensions(codec, payload.assets).value;
    var v := PluginVerified(payload);
    var names := NameSet(DeclaredAll(exts));
    var added := AdmittedAll(exts, KeySet(state.publishers), v);
    LoadPluginAppends(codec, payload.assets, v, state);
    var once := LoadPlugin(codec, payload, state).state;
    UnloadPluginRemoves(codec, payload.assets, v, once);
    UnloadPluginRemoves(codec, payload.assets, v, state);
    WithoutNamesConcat(state.publishers, added, names);
    AdmittedAllNames(exts, KeySet(state.publishers), v);
    WithoutNamesCovered(added, names);
    assert WithoutNames(state.publishers, names) + [] == WithoutNames(state.publishers, names);
  }

  lemma {:induction false} WithoutNamesCovered(ps: seq<Publisher>, names: set<string>)
    requires NameSet(ps) <= names
    ensures WithoutNames(ps, names) == []
    decreases |ps|
  {
    if |ps| > 0 {
      assert ps[0] in ps;
      assert NameSet(ps[1..]) <= NameSet(ps) by {
        forall n | n in NameSet(ps[1..]) ensures n in NameSet(ps) {
          var q :| q in ps[1..] && q.name == n;
          assert q in ps;
        }
      }
      WithoutNamesCovered(ps[1..], names);
    }
  }

  /** Load-then-unload is not the identity: an entry that was present before
      the load and shares its name, but not its key, with a declared
      publisher survives the load and is removed by the unload. */
  lemma LoadThenUnloadLosesNamesake(codec: Codec, payload: PluginPayload, existing: Publisher, declared: Publisher, version: int)
    requires Extensions(codec, payload.assets) == Some([ConfigurationExtension([AddPublishers([declared])])])
    requires existing.name == declared.name && existing.key != declared.key
    ensures var loaded := LoadPlugin(codec, payload, Configuration(version, [existing]));
      && loaded == Dispatched(Configuration(version, [existing, declared.(verified := Some(PluginVerified(payload)))]), false)
      && UnloadPlugin(codec, payload, loaded.state) == Dispatched(Configuration(version, []), false)
  {
    var extension := ConfigurationExtension([AddPublishers([declared])]);
    var state := Configuration(version, [existing]);
    var v := PluginVerified(payload);
    assert Declared(extension.directives) == [declared];
    assert DeclaredAll([extension]) == [declared];
    LoadPluginAppends(codec, payload.assets, v, state);
    assert KeySet(state.publishers) == {existing.key};
    assert Admitted([declared], {existing.key}, v) == [declared.(verified := Some(v))];
    assert AdmittedAll([extension], {existing.key}, v) == [declared.(verified := Some(v))];
    LoadThenUnload(codec, payload, state);
    assert NameSet([declared]) == {declared.name};
    assert WithoutNames([existing], {declared.name}) == [];
  }

  /** Two publishers with the same key in one asset are both added: the
      duplicate check reads the snapshot, not the updated store. */
  lemma SameKeyInOneAssetAddedTwice(first: Publisher, second: Publisher, verified: bool, state: Configuration)
    requires first.key == second.key && first.key !in KeySet(state.publishers)
    ensures var r := ProcessDirectives(KeySet(state.publishers), [AddPublishers([first, second])], Load, verified, state);
      CountKey(r.publishers, first.key) == CountKey(state.publishers, first.key) + 2
  {
    var snapshot := KeySet(state.publishers);
    LoadDirectivesAppends(snapshot, [AddPublishers([first, second])], verified, state);
    assert Declared([AddPublishers([first, second])]) == [first, second];
    assert KeySet([first, second]) == {first.key};
    AdmittedAllFresh([first, second], snapshot, verified);
    var added := Admitted([first, second], snapshot, verified);
    assert added == [first.(verified := Some(verified)), second.(verified := Some(verified))];
    CountKeyAppend(state.publishers, added[0], first.key);
    CountKeyAppend(state.publishers + [added[0]], added[1], first.key);
    assert state.publishers + added == state.publishers + [added[0]] + [added[1]];
  }
}
