/** The face database (`face_database.pkl`): a Python dict from name to encoding, kept here
    as its items in insertion order, since that order decides which name a match reports. */
module FaceStore {
  import opened Wrappers
  import opened Camera

  datatype Identity = Identity(name: string, encoding: Encoding)

  type Store = seq<Identity>

  /** `list(database.keys())`. */
  function Labels(store: Store): (labels: seq<string>)
    ensures |labels| == |store|
    ensures forall i :: 0 <= i < |store| ==> labels[i] == store[i].name
  {
    if store == [] then [] else [store[0].name] + Labels(store[1..])
  }

  /** Dict keys are unique. */
  ghost predicate UniqueLabels(store: Store) {
    forall i, j :: 0 <= i < j < |store| ==> store[i].name != store[j].name
  }

  /** The encoding the dict holds under `name`, if any: what `database[name]` reads. */
  function Lookup(store: Store, name: string): (found: Option<Encoding>)
    ensures found.None? <==> name !in Labels(store)
    ensures found.Some? ==> exists i :: 0 <= i < |store| && store[i] == Identity(name, found.value)
  {
    if store == [] then None
    else if store[0].name == name then Some(store[0].encoding)
    else
      var found := Lookup(store[1..], name);
      assert Labels(store) == [store[0].name] + Labels(store[1..]);
      assert found.Some? ==> exists i :: 0 <= i < |store[1..]| && store[1..][i] == Identity(name, found.value);
      found
  }

  /** `database[name] = encoding`: an existing name keeps its position and gets the new
      encoding; a new name goes at the end. */
  function Upsert(store: Store, name: string, encoding: Encoding): Store {
    if store == [] then [Identity(name, encoding)]
    else if store[0].name == name then [Identity(name, encoding)] + store[1..]
    else [store[0]] + Upsert(store[1..], name, encoding)
  }

  /** The key order after an upsert: unchanged for a known name, the new name last otherwise. */
  lemma {:induction false} UpsertLabels(store: Store, name: string, encoding: Encoding)
    ensures Labels(Upsert(store, name, encoding))
         == if name in Labels(store) then Labels(store) else Labels(store) + [name]
  {
    if store != [] {
      var updated := Upsert(store, name, encoding);
      assert Labels(store) == [store[0].name] + Labels(store[1..]);
      if store[0].name == name {
        assert updated[1..] == store[1..];
      } else {
        UpsertLabels(store[1..], name, encoding);
        assert updated[1..] == Upsert(store[1..], name, encoding);
      }
    }
  }

  /** After an upsert the name finds the new encoding and every other name finds what it
      found before. */
  lemma {:induction false} UpsertLookup(store: Store, name: string, encoding: Encoding, other: string)
    ensures Lookup(Upsert(store, name, encoding), name) == Some(encoding)
    ensures other != name ==> Lookup(Upsert(store, name, encoding), other) == Lookup(store, other)
  {
    if store != [] {
      var updated := Upsert(store, name, encoding);
      if store[0].name == name {
        assert updated[1..] == store[1..];
      } else {
        UpsertLookup(store[1..], name, encoding, other);
        assert updated[1..] == Upsert(store[1..], name, encoding);
      }
    }
  }

  /** An upsert keeps the names unique. */
  lemma UpsertKeepsUnique(store: Store, name: string, encoding: Encoding)
    requires UniqueLabels(store)
    ensures UniqueLabels(Upsert(store, name, encoding))
  {
    var updated := Upsert(store, name, encoding);
    UpsertLabels(store, name, encoding);
    var before, after := Labels(store), Labels(updated);
    forall i, j | 0 <= i < j < |updated|
      ensures updated[i].name != updated[j].name
    {
      if name !in before && j == |store| {
        assert updated[i].name == before[i];
      } else {
        assert updated[i].name == before[i] && updated[j].name == before[j];
      }
    }
  }

  /** Enrolling the same name twice leaves only the second encoding, at the name's first
      position: the store holds one entry for the name. */
  lemma {:induction false} UpsertTwice(store: Store, name: string, first: Encoding, second: Encoding)
    ensures Upsert(Upsert(store, name, first), name, second) == Upsert(store, name, second)
  {
    if store != [] && store[0].name != name {
      var once := Upsert(store, name, first);
      assert once == [store[0]] + Upsert(store[1..], name, first);
      assert once[1..] == Upsert(store[1..], name, first);
      UpsertTwice(store[1..], name, first, second);
    }
  }

  /** Under unique labels, the name occurs exactly once after an upsert and the store grows
      by at most one entry. */
  lemma UpsertSingleEntry(store: Store, name: string, encoding: Encoding)
    requires UniqueLabels(store)
    ensures var updated := Upsert(store, name, encoding);
      |updated| <= |store| + 1 &&
      (forall i, j :: 0 <= i < |updated| && 0 <= j < |updated| && updated[i].name == name && updated[j].name == name ==> i == j) &&
      exists i :: 0 <= i < |updated| && updated[i] == Identity(name, encoding)
  {
    var updated := Upsert(store, name, encoding);
    UpsertLabels(store, name, encoding);
    UpsertLookup(store, name, encoding, name);
    UpsertKeepsUnique(store, name, encoding);
  }

  /** `save_database({})`: the cleared store. */
  const Cleared: Store := []
}
