/**
 * Passwords kept together in a single item of the keychain (`Bundled` of
 * `src-tauri/src/secrets.rs`), as a map that outlives the app.
 * The keychain may refuse any read, write or removal.
 */
module Secrets {
  import opened Basics

  type Id = string
  type Contents = map<Id, string>

  /** Connection ids are uuids, so none is this. */
  const BUNDLE: Id := "secrets"

  /** The JSON the bundle is kept as. */
  datatype Codec = Codec(encode: Contents -> string, decode: string -> Option<Contents>)

  ghost predicate Sound(codec: Codec) {
    forall c: Contents :: codec.decode(codec.encode(c)) == Some(c)
  }

  /** Which of the questions an operation may put to the keychain are refused. */
  datatype Refused = Refused(readBundle: bool, readOwn: bool, writeBundle: bool, removeOwn: bool)

  /** The keychain's items, and the bundle as it was read, if it was. */
  datatype Store = Store(items: Contents, read: Option<Contents>)

  // ---- what is kept ----

  /** The bundle the items hold, unless its text is no bundle. */
  function BundleIn(items: Contents, codec: Codec): Option<Contents> {
    if BUNDLE in items then codec.decode(items[BUNDLE]) else Some(map[])
  }

  /** A secret is in the bundle, or else, saved before there was one, in an item of its own. */
  function View(items: Contents, codec: Codec): Contents {
    var bundle := BundleIn(items, codec);
    (if bundle.Some? then items + bundle.value else items) - {BUNDLE}
  }

  function Lookup(c: Contents, id: Id): Option<string> {
    if id in c then Some(c[id]) else None
  }

  /** What is believed of the bundle is what is stored. */
  ghost predicate Inv(s: Store, codec: Codec) {
    s.read.Some? ==> BundleIn(s.items, codec) == s.read
  }

  // ---- the operations ----

  function Loaded(s: Store, codec: Codec, refused: Refused): Option<Contents> {
    if s.read.Some? then s.read
    else if refused.readBundle then None
    else BundleIn(s.items, codec)
  }

  /** The bundle replaced, in the keychain first and then in memory. */
  function Changed(s: Store, changed: Contents, codec: Codec): Store {
    Store(s.items[BUNDLE := codec.encode(changed)], Some(changed))
  }

  function Got(s: Store, id: Id, codec: Codec, refused: Refused): (Store, Result<Option<string>>) {
    var bundle := Loaded(s, codec, refused);
    if bundle.None? then (s, Err)
    else
      var t := s.(read := bundle);
      if id in bundle.value then (t, Ok(Some(bundle.value[id])))
      else if refused.readOwn then (t, Err)
      else if id !in s.items then (t, Ok(None))
      else if refused.writeBundle then (t, Err)
      else
        var moved := Changed(t, bundle.value[id := s.items[id]], codec);
        (if refused.removeOwn then moved else moved.(items := moved.items - {id}), Ok(Some(s.items[id])))
  }

  function Stored(s: Store, id: Id, secret: string, codec: Codec, refused: Refused): (Store, Result<()>) {
    var bundle := Loaded(s, codec, refused);
    if bundle.None? then (s, Err)
    else if refused.writeBundle then (s.(read := bundle), Err)
    else (Changed(s, bundle.value[id := secret], codec), Ok(()))
  }

  function Deleted(s: Store, id: Id, codec: Codec, refused: Refused): (Store, Result<()>) {
    var bundle := Loaded(s, codec, refused);
    if bundle.None? then (s, Err)
    else if id in bundle.value && refused.writeBundle then (s.(read := bundle), Err)
    else
      var t := if id in bundle.value then Changed(s, bundle.value - {id}, codec) else s.(read := bundle);
      if refused.removeOwn then (t, Err) else (t.(items := t.items - {id}), Ok(()))
  }

  class Bundled {
    var items: Contents
    var read: Option<Contents>
    const codec: Codec

    constructor (items: Contents, codec: Codec)
      ensures Now() == Store(items, None) && this.codec == codec
    {
      this.items, read, this.codec := items, None, codec;
    }

    function Now(): Store
      reads this
    {
      Store(items, read)
    }

    /** The bundle, read the first time it is asked for. */
    method With(refused: Refused) returns (bundle: Result<Contents>)
      modifies this`read
      ensures bundle.Ok? == Loaded(old(Now()), codec, refused).Some?
      ensures bundle.Ok? ==> read == Some(bundle.value) == Loaded(old(Now()), codec, refused)
      ensures bundle.Err? ==> read == old(read)
    {
      if read.None? {
        if refused.readBundle {
          return Err;
        }
        var stored: Contents := map[];
        if BUNDLE in items {
          var parsed := codec.decode(items[BUNDLE]);
          if parsed.None? {
            return Err;
          }
          stored := parsed.value;
        }
        read := Some(stored);
      }
      bundle := Ok(read.value);
    }

    /** Replaces the bundle: memory follows the keychain, and neither changes where the write fails. */
    method Change(changed: Contents, refused: Refused) returns (ok: bool)
      modifies this
      ensures ok == !refused.writeBundle
      ensures Now() == if ok then Changed(old(Now()), changed, codec) else old(Now())
    {
      if refused.writeBundle {
        return false;
      }
      items := items[BUNDLE := codec.encode(changed)];
      read := Some(changed);
      ok := true;
    }

    method Get(id: Id, refused: Refused) returns (secret: Result<Option<string>>)
      modifies this
      ensures (Now(), secret) == Got(old(Now()), id, codec, refused)
    {
      var bundle := With(refused);
      if bundle.Err? {
        return Err;
      }
      if id in bundle.value {
        return Ok(Some(bundle.value[id]));
      }
      if refused.readOwn {
        return Err;
      }
      if id !in items {
        return Ok(None);
      }
      var own := items[id];
      var ok := Change(bundle.value[id := own], refused);
      if !ok {
        return Err;
      }
      if !refused.removeOwn {
        items := items - {id};
      }
      secret := Ok(Some(own));
    }

    method Set(id: Id, secret: string, refused: Refused) returns (outcome: Result<()>)
      modifies this
      ensures (Now(), outcome) == Stored(old(Now()), id, secret, codec, refused)
    {
      var bundle := With(refused);
      if bundle.Err? {
        return Err;
      }
      var ok := Change(bundle.value[id := secret], refused);
      outcome := if ok then Ok(()) else Err;
    }

    method Delete(id: Id, refused: Refused) returns (outcome: Result<()>)
      modifies this
      ensures (Now(), outcome) == Deleted(old(Now()), id, codec, refused)
    {
      var bundle := With(refused);
      if bundle.Err? {
        return Err;
      }
      if id in bundle.value {
        var ok := Change(bundle.value - {id}, refused);
        if !ok {
          return Err;
        }
      }
      if refused.removeOwn {
        return Err;
      }
      items := items - {id};
      outcome := Ok(());
    }
  }

  // ---- the map it is ----

  lemma GetReadsTheMap(s: Store, id: Id, codec: Codec, refused: Refused)
    requires Sound(codec) && Inv(s, codec) && id != BUNDLE
    ensures var (t, secret) := Got(s, id, codec, refused);
      && Inv(t, codec) && View(t.items, codec) == View(s.items, codec)
      && (secret.Ok? ==> secret.value == Lookup(View(s.items, codec), id))
  {
    var (t, secret) := Got(s, id, codec, refused);
    assert View(t.items, codec) == View(s.items, codec);
  }

  lemma SetUpdatesTheMap(s: Store, id: Id, secret: string, codec: Codec, refused: Refused)
    requires Sound(codec) && Inv(s, codec) && id != BUNDLE
    ensures var (t, outcome) := Stored(s, id, secret, codec, refused);
      && Inv(t, codec)
      && View(t.items, codec) == (if outcome.Ok? then View(s.items, codec)[id := secret] else View(s.items, codec))
      && (outcome.Err? ==> t.items == s.items)
  {
    var (t, outcome) := Stored(s, id, secret, codec, refused);
    if outcome.Ok? {
      assert View(t.items, codec) == View(s.items, codec)[id := secret];
    }
  }

  /** The map with a secret gone from the bundle, and the item of its own still there. */
  function Uncovered(items: Contents, codec: Codec, id: Id): Contents {
    if id in items then View(items, codec)[id := items[id]] else View(items, codec) - {id}
  }

  /** The removal of an item of its own is refused once the bundle is rid of the secret, or had none. */
  predicate HalfDeleted(s: Store, id: Id, codec: Codec, refused: Refused) {
    var bundle := Loaded(s, codec, refused);
    bundle.Some? && refused.removeOwn && !(id in bundle.value && refused.writeBundle)
  }

  lemma OutOfTheBundle(s: Store, id: Id, bundle: Contents, codec: Codec)
    requires Sound(codec) && BundleIn(s.items, codec) == Some(bundle) && id != BUNDLE
    ensures var t := if id in bundle then Changed(s, bundle - {id}, codec) else s.(read := Some(bundle));
      Inv(t, codec) && View(t.items, codec) == Uncovered(s.items, codec, id) && id !in t.read.value
  {
    var t := if id in bundle then Changed(s, bundle - {id}, codec) else s.(read := Some(bundle));
    assert View(t.items, codec) == Uncovered(s.items, codec, id);
  }

  lemma OutOfItsItem(t: Store, id: Id, codec: Codec)
    requires Inv(t, codec) && t.read.Some? && id != BUNDLE && id !in t.read.value
    ensures Inv(t.(items := t.items - {id}), codec)
    ensures View(t.items - {id}, codec) == View(t.items, codec) - {id}
  {
    assert View(t.items - {id}, codec) == View(t.items, codec) - {id};
  }

  lemma DeleteRemovesFromTheMap(s: Store, id: Id, codec: Codec, refused: Refused)
    requires Sound(codec) && Inv(s, codec) && id != BUNDLE
    ensures var (t, outcome) := Deleted(s, id, codec, refused);
      && Inv(t, codec)
      && View(t.items, codec) ==
         if outcome.Ok? then View(s.items, codec) - {id}
         else if HalfDeleted(s, id, codec, refused) then Uncovered(s.items, codec, id)
         else View(s.items, codec)
  {
    hide View, Changed, Uncovered, BundleIn;
    var bundle := Loaded(s, codec, refused);
    if bundle.Some? && !(id in bundle.value && refused.writeBundle) {
      assert BundleIn(s.items, codec) == bundle;
      OutOfTheBundle(s, id, bundle.value, codec);
      var t := if id in bundle.value then Changed(s, bundle.value - {id}, codec) else s.(read := bundle);
      assert t.read.Some? by {
        ChangedIsRead(s, bundle.value - {id}, codec);
      }
      OutOfItsItem(t, id, codec);
      UncoveredAndGone(s.items, codec, id);
    }
  }

  lemma ChangedIsRead(s: Store, changed: Contents, codec: Codec)
    ensures Changed(s, changed, codec).read == Some(changed)
  {}

  lemma UncoveredAndGone(items: Contents, codec: Codec, id: Id)
    ensures Uncovered(items, codec, id) - {id} == View(items, codec) - {id}
  {}

  /** The secret is in the bundle, and an item of its own, which it would be read from next, is not the same. */
  predicate HidesAnother(s: Store, id: Id, codec: Codec, refused: Refused) {
    var bundle := Loaded(s, codec, refused);
    bundle.Some? && id in bundle.value && Lookup(s.items, id) != Some(bundle.value[id])
  }

  /** A refused deletion changes the map exactly when it takes out of the bundle what hid another secret, or none. */
  lemma RefusedDeletionExactly(s: Store, id: Id, codec: Codec, refused: Refused)
    requires Sound(codec) && Inv(s, codec) && id != BUNDLE && Deleted(s, id, codec, refused).1.Err?
    ensures View(Deleted(s, id, codec, refused).0.items, codec) == View(s.items, codec)
            <==> !(HalfDeleted(s, id, codec, refused) && HidesAnother(s, id, codec, refused))
  {
    hide Deleted;
    DeleteRemovesFromTheMap(s, id, codec, refused);
    if HalfDeleted(s, id, codec, refused) {
      var bundle := Loaded(s, codec, refused).value;
      var m := View(s.items, codec);
      assert BundleIn(s.items, codec) == Some(bundle);
      assert Lookup(m, id) == if id in bundle then Some(bundle[id]) else Lookup(s.items, id);
      assert Lookup(Uncovered(s.items, codec, id), id) == Lookup(s.items, id);
      if Lookup(m, id) == Lookup(s.items, id) {
        assert Uncovered(s.items, codec, id) == m;
      }
    }
  }

  // ---- when each succeeds, and what it asks of the keychain ----

  /** The bundle was read before, or can be now. */
  predicate Readable(s: Store, codec: Codec, refused: Refused) {
    (s.read.Some? || !refused.readBundle) && BundleIn(s.items, codec).Some?
  }

  predicate InBundle(items: Contents, codec: Codec, id: Id) {
    BundleIn(items, codec).Some? && id in BundleIn(items, codec).value
  }

  /**
   * An operation succeeds exactly when nothing it has to ask is refused: a read
   * looks for an item of its own only where the bundle lacks the secret, and
   * writes only to move one in; a deletion writes only what is in the bundle.
   */
  lemma OutcomesExactly(s: Store, id: Id, secret: string, codec: Codec, refused: Refused)
    requires Inv(s, codec) && id != BUNDLE
    ensures Got(s, id, codec, refused).1.Ok? <==>
      && Readable(s, codec, refused)
      && (InBundle(s.items, codec, id) || (!refused.readOwn && (id !in s.items || !refused.writeBundle)))
    ensures Stored(s, id, secret, codec, refused).1.Ok? <==> Readable(s, codec, refused) && !refused.writeBundle
    ensures Deleted(s, id, codec, refused).1.Ok? <==>
      && Readable(s, codec, refused) && !refused.removeOwn
      && !(InBundle(s.items, codec, id) && refused.writeBundle)
  {
    assert Readable(s, codec, refused) <==> Loaded(s, codec, refused).Some?;
  }

  /** A secret that is read is in the bundle from then on, and its own item is gone unless its removal is refused. */
  lemma ReadingMovesItIn(s: Store, id: Id, codec: Codec, refused: Refused)
    requires Sound(codec) && Inv(s, codec) && id != BUNDLE
    ensures var (t, secret) := Got(s, id, codec, refused);
      && (secret.Ok? && secret.value.Some? ==> InBundle(t.items, codec, id) && t.read == BundleIn(t.items, codec))
      && (secret.Ok? && secret.value.Some? && !InBundle(s.items, codec, id) ==> (id in t.items <==> refused.removeOwn))
      && (secret.Err? || secret.value.None? || InBundle(s.items, codec, id) ==> t.items == s.items)
  {}

  /** The bundle is read from the keychain once: after that, whether it can be read does not matter. */
  lemma TheBundleIsReadOnce(s: Store, id: Id, secret: string, codec: Codec, refused: Refused)
    ensures var refusing := refused.(readBundle := true);
      s.read.Some? ==>
        && Got(s, id, codec, refused) == Got(s, id, codec, refusing)
        && Stored(s, id, secret, codec, refused) == Stored(s, id, secret, codec, refusing)
        && Deleted(s, id, codec, refused) == Deleted(s, id, codec, refusing)
    ensures Readable(s, codec, refused) ==>
        && Got(s, id, codec, refused).0.read.Some? && Stored(s, id, secret, codec, refused).0.read.Some?
        && Deleted(s, id, codec, refused).0.read.Some?
  {}

  // ---- over a run of the app, and its restarts ----

  datatype Event =
    | Get(id: Id, refused: Refused)
    | Set(id: Id, secret: string, refused: Refused)
    | Delete(id: Id, refused: Refused)
    | Restart

  function Next(s: Store, e: Event, codec: Codec): Store {
    match e
    case Get(id, refused) => Got(s, id, codec, refused).0
    case Set(id, secret, refused) => Stored(s, id, secret, codec, refused).0
    case Delete(id, refused) => Deleted(s, id, codec, refused).0
    case Restart => s.(read := None)
  }

  /** The store after a run that finds these items. */
  function After(items: Contents, events: seq<Event>, codec: Codec): Store {
    if events == [] then Store(items, None)
    else Next(After(items, events[..|events| - 1], codec), events[|events| - 1], codec)
  }

  ghost predicate OfConnections(events: seq<Event>) {
    forall e <- events :: !e.Restart? ==> e.id != BUNDLE
  }

  lemma {:induction false} AlwaysBelievesWhatIsStored(items: Contents, events: seq<Event>, codec: Codec)
    requires Sound(codec) && OfConnections(events)
    ensures Inv(After(items, events, codec), codec)
  {
    if events != [] {
      var before, e := After(items, events[..|events| - 1], codec), events[|events| - 1];
      AlwaysBelievesWhatIsStored(items, events[..|events| - 1], codec);
      NextRefines(before, e, codec);
    }
  }

  /** What one event makes of the map: an update when it succeeds, and else nothing but what a half deletion uncovers. */
  function MapNext(s: Store, e: Event, codec: Codec): Contents {
    var m := View(s.items, codec);
    match e
    case Get(_, _) => m
    case Set(id, secret, refused) => if Stored(s, id, secret, codec, refused).1.Ok? then m[id := secret] else m
    case Delete(id, refused) =>
      if Deleted(s, id, codec, refused).1.Ok? then m - {id}
      else if HalfDeleted(s, id, codec, refused) then Uncovered(s.items, codec, id)
      else m
    case Restart => m
  }

  lemma NextRefines(s: Store, e: Event, codec: Codec)
    requires Sound(codec) && Inv(s, codec) && (!e.Restart? ==> e.id != BUNDLE)
    ensures Inv(Next(s, e, codec), codec) && View(Next(s, e, codec).items, codec) == MapNext(s, e, codec)
  {
    hide Got, Stored, Deleted;
    match e
    case Get(id, refused) => GetReadsTheMap(s, id, codec, refused);
    case Set(id, secret, refused) => SetUpdatesTheMap(s, id, secret, codec, refused);
    case Delete(id, refused) => DeleteRemovesFromTheMap(s, id, codec, refused);
    case Restart =>
  }

  /** Nothing after the first `n` events sets or deletes a secret. */
  ghost predicate LeftAlone(events: seq<Event>, n: nat, id: Id) {
    forall i :: n <= i < |events| && (events[i].Set? || events[i].Delete?) ==> events[i].id != id
  }

  /** A secret no event names stays as it was, whatever is done to others and whatever is refused. */
  lemma {:induction false} LeftAsItWas(items: Contents, events: seq<Event>, n: nat, id: Id, codec: Codec)
    requires Sound(codec) && OfConnections(events) && n <= |events| && LeftAlone(events, n, id)
    ensures Lookup(View(After(items, events, codec).items, codec), id)
            == Lookup(View(After(items, events[..n], codec).items, codec), id)
    decreases |events|
  {
    if n < |events| {
      var earlier, e := events[..|events| - 1], events[|events| - 1];
      assert earlier[..n] == events[..n];
      LeftAsItWas(items, earlier, n, id, codec);
      AlwaysBelievesWhatIsStored(items, earlier, codec);
      NextRefines(After(items, earlier, codec), e, codec);
      hide Next, View;
    } else {
      assert events[..n] == events;
    }
  }

  /**
   * A secret that was set is the one read, until it is set again or a deletion
   * is tried: through other connections' changes, restarts, and refusals.
   */
  lemma WhatWasSetIsRead(items: Contents, events: seq<Event>, n: nat, codec: Codec, refused: Refused)
    requires Sound(codec) && OfConnections(events) && n < |events| && events[n].Set?
    requires var e := events[n]; Stored(After(items, events[..n], codec), e.id, e.secret, codec, e.refused).1.Ok?
    requires LeftAlone(events, n + 1, events[n].id)
    ensures var secret := Got(After(items, events, codec), events[n].id, codec, refused).1;
      secret.Ok? ==> secret.value == Some(events[n].secret)
  {
    hide Got, Stored, View, Next;
    var e, before := events[n], After(items, events[..n], codec);
    assert events[..n + 1][..n] == events[..n];
    AlwaysBelievesWhatIsStored(items, events[..n], codec);
    NextRefines(before, e, codec);
    LeftAsItWas(items, events, n + 1, e.id, codec);
    AlwaysBelievesWhatIsStored(items, events, codec);
    GetReadsTheMap(After(items, events, codec), e.id, codec, refused);
  }

  const NOTHING := Refused(false, false, false, false)
  const REMOVAL := Refused(false, false, false, true)

  /**
   * An item's removal is refused as it is moved into the bundle, the secret is
   * then changed, and a deletion is refused the same removal: the secret there
   * was before the change is back.
   */
  lemma ARefusedDeletionUncovers(id: Id, first: string, second: string, codec: Codec)
    requires Sound(codec) && id != BUNDLE && first != second
    ensures var events := [Get(id, REMOVAL), Set(id, second, NOTHING), Delete(id, REMOVAL)];
      var items := map[id := first];
      && View(After(items, events[..2], codec).items, codec) == map[id := second]
      && View(After(items, events, codec).items, codec) == map[id := first]
  {
    var items := map[id := first];
    var get, change, delete := Get(id, REMOVAL), Set(id, second, NOTHING), Delete(id, REMOVAL);
    var s0 := Store(items, None);
    var s1, s2 := Next(s0, get, codec), Next(Next(s0, get, codec), change, codec);
    var s3 := Next(s2, delete, codec);
    assert s1 == Store(items[BUNDLE := codec.encode(map[id := first])], Some(map[id := first])) by {
      assert map[][id := first] == map[id := first];
    }
    assert s2 == Store(items[BUNDLE := codec.encode(map[id := second])], Some(map[id := second])) by {
      assert map[id := first][id := second] == map[id := second];
    }
    assert s3 == Store(items[BUNDLE := codec.encode(map[])], Some(map[])) by {
      assert map[id := second] - {id} == map[];
    }
    assert View(s2.items, codec) == map[id := second];
    assert View(s3.items, codec) == map[id := first];
    AfterThree(items, get, change, delete, codec);
  }

  lemma AfterThree(items: Contents, a: Event, b: Event, c: Event, codec: Codec)
    ensures After(items, [a, b, c][..2], codec) == Next(Next(Store(items, None), a, codec), b, codec)
    ensures After(items, [a, b, c], codec) == Next(After(items, [a, b, c][..2], codec), c, codec)
  {
    hide Next;
    assert [a, b, c][..2] == [a, b] && [a, b][..1] == [a] && [a][..0] == [];
    assert After(items, [], codec) == Store(items, None);
    assert After(items, [a], codec) == Next(Store(items, None), a, codec);
    assert After(items, [a, b], codec) == Next(After(items, [a], codec), b, codec);
  }
}
