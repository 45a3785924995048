/** The configuration slice of the renderer's store: the list of publishers
    and the three reducers that change it. Each reducer is a pure function
    from the old state to the new one. */
module ConfigurationSlice {
  import opened PluginTypes

  datatype Configuration = Configuration(version: int, publishers: seq<Publisher>)

  const InitialState := Configuration(0, [])

  /** The keys of a list of publishers. */
  function KeySet(ps: seq<Publisher>): set<string>
  {
    set p | p in ps :: p.key
  }

  /** The names of a list of publishers. */
  function NameSet(ps: seq<Publisher>): set<string>
  {
    set p | p in ps :: p.name
  }

  /** How many entries of `ps` carry `key`. */
  function CountKey(ps: seq<Publisher>, key: string): nat
  {
    if |ps| == 0 then 0
    else (if ps[0].key == key then 1 else 0) + CountKey(ps[1..], key)
  }

  /** The entries of `ps` whose name is not in `names`, in their original order. */
  function WithoutNames(ps: seq<Publisher>, names: set<string>): (r: seq<Publisher>)
    ensures |r| <= |ps|
    ensures forall q :: q in r <==> q in ps && q.name !in names
  {
    if |ps| == 0 then []
    else (if ps[0].name in names then [] else [ps[0]]) + WithoutNames(ps[1..], names)
  }

  // ------------------------------------------------------------------ reducers

  /** `setConfiguration`: the publisher list is replaced wholesale; the
      version number of the state is kept. */
  function SetConfiguration(state: Configuration, configuration: Configuration): (r: Configuration)
    ensures r.publishers == configuration.publishers
    ensures r.version == state.version
  {
    state.(publishers := configuration.publishers)
  }

  /** `addPublisher`: the publisher goes at the end, with no duplicate check. */
  function AddPublisher(state: Configuration, publisher: Publisher): (r: Configuration)
    ensures r.version == state.version
    ensures |r.publishers| == |state.publishers| + 1
    ensures r.publishers[..|state.publishers|] == state.publishers
    ensures r.publishers[|state.publishers|] == publisher
  {
    state.(publishers := state.publishers + [publisher])
  }

  /** `removePublisher`: every entry with the same name as the argument goes,
      whatever its key. */
  function RemovePublisher(state: Configuration, publisher: Publisher): (r: Configuration)
    ensures r.version == state.version
    ensures forall q :: q in r.publishers <==> q in state.publishers && q.name != publisher.name
  {
    state.(publishers := WithoutNames(state.publishers, {publisher.name}))
  }

  // -------------------------------------------------------------------- lemmas

  lemma {:induction false} CountKeyAppend(ps: seq<Publisher>, p: Publisher, key: string)
    ensures CountKey(ps + [p], key) == CountKey(ps, key) + (if p.key == key then 1 else 0)
    decreases |ps|
  {
    if |ps| > 0 {
      assert (ps + [p])[1..] == ps[1..] + [p];
      CountKeyAppend(ps[1..], p, key);
    }
  }

  lemma {:induction false} CountKeyPositive(ps: seq<Publisher>, key: string)
    requires key in KeySet(ps)
    ensures CountKey(ps, key) >= 1
    decreases |ps|
  {
    var q :| q in ps && q.key == key;
    if ps[0].key != key {
      assert q in ps[1..];
      CountKeyPositive(ps[1..], key);
    }
  }

  /** Adding a publisher whose key is already present yields a second entry
      with that key: the reducer does not deduplicate. */
  lemma AddPublisherKeepsDuplicates(state: Configuration, publisher: Publisher)
    ensures CountKey(AddPublisher(state, publisher).publishers, publisher.key)
         == CountKey(state.publishers, publisher.key) + 1
    ensures publisher.key in KeySet(state.publishers) ==>
      CountKey(AddPublisher(state, publisher).publishers, publisher.key) >= 2
  {
    CountKeyAppend(state.publishers, publisher, publisher.key);
    if publisher.key in KeySet(state.publishers) {
      CountKeyPositive(state.publishers, publisher.key);
    }
  }

  /** Filtering distributes over concatenation, so the survivors keep their
      relative order. */
  lemma {:induction false} WithoutNamesConcat(a: seq<Publisher>, b: seq<Publisher>, names: set<string>)
    ensures WithoutNames(a + b, names) == WithoutNames(a, names) + WithoutNames(b, names)
    decreases |a|
  {
    if |a| == 0 {
      assert a + b == b;
    } else {
      assert (a + b)[1..] == a[1..] + b;
      WithoutNamesConcat(a[1..], b, names);
    }
  }

  /** Removing one set of names and then another removes their union. */
  lemma {:induction false} WithoutNamesCompose(ps: seq<Publisher>, first: set<string>, second: set<string>)
    ensures WithoutNames(WithoutNames(ps, first), second) == WithoutNames(ps, first + second)
    decreases |ps|
  {
    if |ps| > 0 {
      var head := if ps[0].name in first then [] else [ps[0]];
      WithoutNamesConcat(head, WithoutNames(ps[1..], first), second);
      WithoutNamesCompose(ps[1..], first, second);
    }
  }

  /** Names that no entry carries remove nothing. */
  lemma {:induction false} WithoutNamesAbsent(ps: seq<Publisher>, names: set<string>)
    requires NameSet(ps) !! names
    ensures WithoutNames(ps, names) == ps
    decreases |ps|
  {
    if |ps| > 0 {
      assert ps[0] in ps;
      assert NameSet(ps[1..]) <= NameSet(ps) by {
        forall n | n in NameSet(ps[1..]) ensures n in NameSet(ps) {
          var q :| q in ps[1..] && q.name == n;
          assert q in ps;
        }
      }
      WithoutNamesAbsent(ps[1..], names);
      assert ps == [ps[0]] + ps[1..];
    }
  }

  /** `removePublisher` keeps exactly the entries with a different name, in
      their original order: it distributes over a split of the list, and a
      single entry survives exactly when its name differs. */
  lemma RemovePublisherKeepsOrder(state: Configuration, a: seq<Publisher>, b: seq<Publisher>, publisher: Publisher)
    requires state.publishers == a + b
    ensures RemovePublisher(state, publisher).publishers
         == RemovePublisher(state.(publishers := a), publisher).publishers
          + RemovePublisher(state.(publishers := b), publisher).publishers
  {
    WithoutNamesConcat(a, b, {publisher.name});
  }

  /** Removing a name nobody carries changes nothing. */
  lemma RemovePublisherAbsent(state: Configuration, publisher: Publisher)
    requires publisher.name !in NameSet(state.publishers)
    ensures RemovePublisher(state, publisher) == state
  {
    WithoutNamesAbsent(state.publishers, {publisher.name});
  }

  /** `removePublisher` is idempotent. */
  lemma RemovePublisherIdempotent(state: Configuration, publisher: Publisher)
    ensures RemovePublisher(RemovePublisher(state, publisher), publisher) == RemovePublisher(state, publisher)
  {
    WithoutNamesCompose(state.publishers, {publisher.name}, {publisher.name});
    assert {publisher.name} + {publisher.name} == {publisher.name};
  }
}
