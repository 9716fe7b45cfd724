/** To which provider and key an entry is loaded, told from the providers alone, and what it is there. */
module ProviderLookups {
  import opened Wrappers
  import opened PythonText
  import opened ProviderDocuments
  import opened ProviderLoading

  /** A place among the keys of all providers. */
  predicate IsPlace(ps: seq<Provider>, i: nat, a: nat) { i < |ps| && a < |ps[i].keys| }

  predicate Before(i: nat, a: nat, j: nat, b: nat) { i < j || (i == j && a < b) }

  /** The first place with a property. */
  ghost predicate IsFirstPlace(ps: seq<Provider>, i: nat, a: nat, has: (string, Key) -> bool) {
    && IsPlace(ps, i, a) && has(ps[i].base, ps[i].keys[a])
    && forall j: nat, b: nat :: IsPlace(ps, j, b) && Before(j, b, i, a) ==> !has(ps[j].base, ps[j].keys[b])
  }

  /** The last one. */
  ghost predicate IsLastPlace(ps: seq<Provider>, i: nat, a: nat, has: (string, Key) -> bool) {
    && IsPlace(ps, i, a) && has(ps[i].base, ps[i].keys[a])
    && forall j: nat, b: nat :: IsPlace(ps, j, b) && Before(i, a, j, b) ==> !has(ps[j].base, ps[j].keys[b])
  }

  ghost predicate NoPlace(ps: seq<Provider>, has: (string, Key) -> bool) {
    forall j: nat, b: nat :: IsPlace(ps, j, b) ==> !has(ps[j].base, ps[j].keys[b])
  }

  function PlaceAt(ps: seq<Provider>, i: nat, a: nat): Place
    requires IsPlace(ps, i, a)
  {
    Place(ps[i].name, Strip(ps[i].keys[a].name))
  }

  /** A lookup holds the first place with a property, or nothing if there is none. */
  ghost predicate HoldsFirst(ps: seq<Provider>, found: Option<Place>, has: (string, Key) -> bool) {
    match found
    case Some(place) => exists i: nat, a: nat :: IsFirstPlace(ps, i, a, has) && place == PlaceAt(ps, i, a)
    case None => NoPlace(ps, has)
  }

  ghost predicate HoldsLast(ps: seq<Provider>, found: Option<Place>, has: (string, Key) -> bool) {
    match found
    case Some(place) => exists i: nat, a: nat :: IsLastPlace(ps, i, a, has) && place == PlaceAt(ps, i, a)
    case None => NoPlace(ps, has)
  }

  function Entry1<K(==)>(m: map<K, Place>, k: K): Option<Place> { if k in m then Some(m[k]) else None }

  // ---- how a lookup grows by one key ----

  /** The providers so far, the last of them with some of its keys. */
  function Partly(ps: seq<Provider>, p: Provider, keys: seq<Key>): seq<Provider> { ps + [p.(keys := keys)] }

  lemma FirstGrows(ps: seq<Provider>, p: Provider, keys: seq<Key>, k: Key, found: Option<Place>, has: (string, Key) -> bool)
    requires HoldsFirst(Partly(ps, p, keys), found, has)
    ensures HoldsFirst(Partly(ps, p, keys + [k]),
                       if found.None? && has(p.base, k) then Some(Place(p.name, Strip(k.name))) else found, has)
  {
    hide Strip;
    var some, more := Partly(ps, p, keys), Partly(ps, p, keys + [k]);
    var n, m := |ps|, |keys|;
    Grown(ps, p, keys, k);
    if found.Some? {
      var i: nat, a: nat :| IsFirstPlace(some, i, a, has) && found.value == PlaceAt(some, i, a);
      assert IsFirstPlace(more, i, a, has) && found.value == PlaceAt(more, i, a);
    } else if has(p.base, k) {
      assert IsFirstPlace(more, n, m, has) && PlaceAt(more, n, m) == Place(p.name, Strip(k.name));
    }
  }

  lemma LastGrows(ps: seq<Provider>, p: Provider, keys: seq<Key>, k: Key, found: Option<Place>, has: (string, Key) -> bool)
    requires HoldsLast(Partly(ps, p, keys), found, has)
    ensures HoldsLast(Partly(ps, p, keys + [k]), if has(p.base, k) then Some(Place(p.name, Strip(k.name))) else found, has)
  {
    hide Strip;
    var some, more := Partly(ps, p, keys), Partly(ps, p, keys + [k]);
    var n, m := |ps|, |keys|;
    Grown(ps, p, keys, k);
    if has(p.base, k) {
      assert IsLastPlace(more, n, m, has) && PlaceAt(more, n, m) == Place(p.name, Strip(k.name));
    } else if found.Some? {
      var i: nat, a: nat :| IsLastPlace(some, i, a, has) && found.value == PlaceAt(some, i, a);
      assert IsLastPlace(more, i, a, has) && found.value == PlaceAt(more, i, a);
    }
  }

  /** The places are those there were and the new one, and the property is the same at each. */
  lemma Grown(ps: seq<Provider>, p: Provider, keys: seq<Key>, k: Key)
    ensures var some, more := Partly(ps, p, keys), Partly(ps, p, keys + [k]);
            && (forall j: nat, b: nat :: IsPlace(more, j, b) <==> IsPlace(some, j, b) || (j == |ps| && b == |keys|))
            && (forall j: nat, b: nat | IsPlace(some, j, b) ::
                  more[j].keys[b] == some[j].keys[b] && more[j].name == some[j].name && more[j].base == some[j].base)
            && more[|ps|].keys[|keys|] == k && more[|ps|].name == p.name && more[|ps|].base == p.base
  {
  }

  lemma NoneGrows(ps: seq<Provider>, p: Provider, found: Option<Place>, has: (string, Key) -> bool)
    ensures HoldsFirst(ps, found, has) ==> HoldsFirst(Partly(ps, p, []), found, has)
    ensures HoldsLast(ps, found, has) ==> HoldsLast(Partly(ps, p, []), found, has)
  {
    hide Strip;
    var more := Partly(ps, p, []);
    assert forall j: nat, b: nat :: IsPlace(more, j, b) <==> IsPlace(ps, j, b);
    assert forall j: nat | j < |ps| :: more[j] == ps[j];
    if HoldsFirst(ps, found, has) && found.Some? {
      var i: nat, a: nat :| IsFirstPlace(ps, i, a, has) && found.value == PlaceAt(ps, i, a);
      assert IsFirstPlace(more, i, a, has) && found.value == PlaceAt(more, i, a);
    }
    if HoldsLast(ps, found, has) && found.Some? {
      var i: nat, a: nat :| IsLastPlace(ps, i, a, has) && found.value == PlaceAt(ps, i, a);
      assert IsLastPlace(more, i, a, has) && found.value == PlaceAt(more, i, a);
    }
  }

  // ---- the lookups ----

  /** What an entry asks the lookups for, as properties of a key and its provider's address. */
  datatype Asked = Asked(pair: (string, Key) -> bool, key: (string, Key) -> bool, keyId: (string, Key) -> bool)

  ghost predicate Asks(q: Asked, base: string, value: string, id: string) {
    && (forall b, k :: q.pair(b, k) == (b == base && b != "" && k.value == value && value != ""))
    && (forall b, k :: q.key(b, k) == (k.value == value && value != ""))
    && forall b, k :: q.keyId(b, k) == (Strip(k.id) == id && id != "")
  }

  /** The lookups by address and key and by key find the first such key of all, the one by key id the last. */
  ghost predicate Finds(t: Tables, ps: seq<Provider>, q: Asked, base: string, value: string, id: string) {
    && HoldsFirst(ps, Entry1(t.byPair, (base, value)), q.pair)
    && HoldsFirst(ps, Entry1(t.byKey, value), q.key)
    && HoldsLast(ps, Entry1(t.byKeyId, id), q.keyId)
  }

  lemma {:induction false} KeysFind(t: Tables, ps: seq<Provider>, p: Provider, keys: seq<Key>, q: Asked, base: string,
                                    value: string, id: string)
    requires Asks(q, base, value, id) && Finds(t, Partly(ps, p, []), q, base, value, id)
    ensures Finds(WithKeys(t, p, keys), Partly(ps, p, keys), q, base, value, id)
  {
    hide Strip, HoldsFirst, HoldsLast, Partly;
    if keys != [] {
      var front, k := keys[..|keys| - 1], keys[|keys| - 1];
      var u := WithKeys(t, p, front);
      KeysFind(t, ps, p, front, q, base, value, id);
      FirstGrows(ps, p, front, k, Entry1(u.byPair, (base, value)), q.pair);
      FirstGrows(ps, p, front, k, Entry1(u.byKey, value), q.key);
      LastGrows(ps, p, front, k, Entry1(u.byKeyId, id), q.keyId);
      assert front + [k] == keys;
      OneMore(u, p, k, q, base, value, id);
    }
  }

  lemma OneMore(t: Tables, p: Provider, k: Key, q: Asked, base: string, value: string, id: string)
    requires Asks(q, base, value, id)
    ensures var u, place := WithKey(t, p, k), Place(p.name, Strip(k.name));
            && Entry1(u.byPair, (base, value))
               == (if Entry1(t.byPair, (base, value)).None? && q.pair(p.base, k) then Some(place)
                   else Entry1(t.byPair, (base, value)))
            && Entry1(u.byKey, value)
               == (if Entry1(t.byKey, value).None? && q.key(p.base, k) then Some(place) else Entry1(t.byKey, value))
            && Entry1(u.byKeyId, id) == if q.keyId(p.base, k) then Some(place) else Entry1(t.byKeyId, id)
  {
    hide Strip;
  }

  lemma {:induction false} TablesFind(ps: seq<Provider>, q: Asked, base: string, value: string, id: string)
    requires Asks(q, base, value, id)
    ensures Finds(TablesOf(ps), ps, q, base, value, id)
  {
    hide Strip, HoldsFirst, HoldsLast, Asks, WithKeys;
    if ps == [] {
      NothingFound(q, base, value, id);
    } else {
      var front, p := ps[..|ps| - 1], ps[|ps| - 1];
      var t := TablesOf(front);
      TablesFind(front, q, base, value, id);
      NoneGrows(front, p, Entry1(t.byPair, (base, value)), q.pair);
      NoneGrows(front, p, Entry1(t.byKey, value), q.key);
      NoneGrows(front, p, Entry1(t.byKeyId, id), q.keyId);
      KeysFind(t, front, p, p.keys, q, base, value, id);
      assert Partly(front, p, p.keys) == ps;
    }
  }

  lemma NothingFound(q: Asked, base: string, value: string, id: string)
    ensures Finds(NoTables, [], q, base, value, id)
  {
  }

  /** The first provider with an address. */
  ghost predicate IsFirstWith(ps: seq<Provider>, i: nat, base: string) {
    i < |ps| && ps[i].base == base && forall j | 0 <= j < i :: ps[j].base != base
  }

  ghost predicate HoldsBase(ps: seq<Provider>, found: Option<string>, base: string) {
    match found
    case Some(name) => exists i: nat :: IsFirstWith(ps, i, base) && name == ps[i].name
    case None => forall j | 0 <= j < |ps| :: ps[j].base != base
  }

  function Named1(m: map<string, string>, k: string): Option<string> { if k in m then Some(m[k]) else None }

  /** The lookup by address finds the first provider with it. */
  lemma {:induction false} BasesFind(ps: seq<Provider>, base: string)
    requires base != ""
    ensures HoldsBase(ps, Named1(TablesOf(ps).byBase, base), base)
  {
    hide Strip, HoldsBase;
    if ps == [] {
      BaseNone(base);
    } else {
      var front, p := ps[..|ps| - 1], ps[|ps| - 1];
      BasesFind(front, base);
      KeysKeepBases(TablesOf(front), p, p.keys);
      BaseGrows(front, p, Named1(TablesOf(front).byBase, base), base);
      assert front + [p] == ps;
    }
  }

  lemma BaseNone(base: string)
    ensures HoldsBase([], None, base)
  {
  }

  lemma BaseGrows(front: seq<Provider>, p: Provider, found: Option<string>, base: string)
    requires HoldsBase(front, found, base)
    ensures HoldsBase(front + [p], if found.None? && p.base == base then Some(p.name) else found, base)
  {
    var ps := front + [p];
    if found.Some? {
      var i: nat :| IsFirstWith(front, i, base) && found.value == front[i].name;
      assert IsFirstWith(ps, i, base) && ps[i] == front[i];
    } else if p.base == base {
      assert IsFirstWith(ps, |front|, base) && ps[|front|] == p;
    }
  }

  lemma {:induction false} KeysKeepBases(t: Tables, p: Provider, keys: seq<Key>)
    ensures WithKeys(t, p, keys).byBase == t.byBase && WithKeys(t, p, keys).keys == t.keys
  {
    hide Strip;
    if keys != [] { KeysKeepBases(t, p, keys[..|keys| - 1]); }
  }

  // ---- where an entry goes ----

  /**
   The place an entry is loaded to: that of its key id, if some key has it; else the one
   written in it, if that names a provider; else that of the first key with its key and its
   provider's address; else that of the first key with its key; else the first provider with
   its address; else the only provider there is.
   */
  ghost predicate Goes(ps: seq<Provider>, e: Entry, base: string, value: string, q: Asked, place: Place) {
    var written := Place(Strip(e.provider), Strip(e.keyName));
    if !NoPlace(ps, q.keyId) then HoldsLast(ps, Some(place), q.keyId)
    else if written.provider != "" then place == written
    else if !NoPlace(ps, q.pair) then HoldsFirst(ps, Some(place), q.pair)
    else if !NoPlace(ps, q.key) then HoldsFirst(ps, Some(place), q.key)
    else
      place.keyName == written.keyName
      && if base != "" && exists j :: 0 <= j < |ps| && ps[j].base == base then HoldsBase(ps, Some(place.provider), base)
         else place.provider == if |ps| == 1 then ps[0].name else ""
  }

  lemma EntryGoes(ps: seq<Provider>, e: Entry, base: string, value: string, q: Asked)
    requires Asks(q, base, value, Strip(e.keyId)) && forall i | 0 <= i < |ps| :: ps[i].name != ""
    ensures Goes(ps, e, base, value, q, Located(TablesOf(ps), ps, e, base, value))
  {
    hide Strip, TablesOf;
    var t := TablesOf(ps);
    TablesFind(ps, q, base, value, Strip(e.keyId));
    FoundNamed(ps, q, Entry1(t.byPair, (base, value)), Entry1(t.byKey, value), Entry1(t.byKeyId, Strip(e.keyId)));
    if base != "" { BasesFind(ps, base); }
  }

  /** What a lookup finds has a provider's name, and it finds something exactly where there is something. */
  lemma FoundNamed(ps: seq<Provider>, q: Asked, pair: Option<Place>, key: Option<Place>, keyId: Option<Place>)
    requires forall i | 0 <= i < |ps| :: ps[i].name != ""
    requires HoldsFirst(ps, pair, q.pair) && HoldsFirst(ps, key, q.key) && HoldsLast(ps, keyId, q.keyId)
    ensures (pair.None? <==> NoPlace(ps, q.pair)) && (pair.Some? ==> pair.value.provider != "")
    ensures (key.None? <==> NoPlace(ps, q.key)) && (key.Some? ==> key.value.provider != "")
    ensures (keyId.None? <==> NoPlace(ps, q.keyId)) && (keyId.Some? ==> keyId.value.provider != "")
  {
    hide Strip;
  }

  /** The key named by an entry, or found by its value in the provider it is loaded to. */
  ghost predicate KeyOfEntry(keys: seq<Key>, e: Entry, value: string, place: Place, m: Model) {
    && (place.keyName != "" || value == "" || (forall a | 0 <= a < |keys| :: keys[a].value != value) ==>
          m.keyName == place.keyName)
    && (place.keyName == "" && value != "" ==>
          forall a | 0 <= a < |keys| && keys[a].value == value && (forall b | 0 <= b < a :: keys[b].value != value) ::
            m.keyName == keys[a].name)
    && if Strip(e.keyId) != "" then m.keyId == Strip(e.keyId) else IdOfFirst(keys, m.keyName, value, m.keyId)
  }

  predicate Fitting(k: Key, name: string, value: string) { (name != "" && k.name == name) || (value != "" && k.value == value) }

  /** The id of the first key with this name or this value, if there is one. */
  ghost predicate IdOfFirst(keys: seq<Key>, name: string, value: string, id: string) {
    && (forall a | 0 <= a < |keys| && Fitting(keys[a], name, value)
                   && (forall b | 0 <= b < a :: !Fitting(keys[b], name, value)) ::
          id == Strip(keys[a].id))
    && ((forall a | 0 <= a < |keys| :: !Fitting(keys[a], name, value)) ==> id == "")
  }

  lemma {:induction false} IdAt(keys: seq<Key>, name: string, value: string, i: nat)
    requires i <= |keys| && forall b | 0 <= b < i :: !Fitting(keys[b], name, value)
    ensures IdOfFirst(keys, name, value, IdFor(keys, name, value, i))
    decreases |keys| - i
  {
    hide Strip;
    if i < |keys| && !Fitting(keys[i], name, value) { IdAt(keys, name, value, i + 1); }
  }

  lemma {:induction false} ValuedAt(keys: seq<Key>, value: string, i: nat)
    ensures match ByValue(keys, value, i)
            case None => forall a | i <= a < |keys| :: keys[a].value != value
            case Some(k) =>
              exists a :: i <= a < |keys| && keys[a] == k && k.value == value
                          && forall b | i <= b < a :: keys[b].value != value
    decreases |keys| - i
  {
    if i < |keys| && keys[i].value != value { ValuedAt(keys, value, i + 1); }
  }

  /** An entry without a switch is on exactly in the list of active ones, and everything else is as written. */
  lemma EntryLoads(ps: seq<Provider>, ds: seq<Definition>, e: Entry, listed: bool, q: Asked)
    requires Asks(q, Meaning(ds, e.base), Meaning(ds, e.key), Strip(e.keyId))
    requires forall i | 0 <= i < |ps| :: ps[i].name != ""
    ensures var m, base, value := ModelOf(TablesOf(ps), ps, ds, e, listed), Meaning(ds, e.base), Meaning(ds, e.key);
            && m.modelEnabled == (if e.modelEnabled.Some? then e.modelEnabled.value else listed)
            && m.name == e.name && m.upstream == e.upstream && m.surface == e.surface && m.base == base
            && m.keyValue == value && m.manual == e.manual && m.effective == Some(e.order)
            && m.mode == (if Strip(e.mode) == "" then "manual" else Strip(e.mode)) && m.rest == e.rest
            && m.deploymentId == Strip(e.deploymentId)
            && exists place: Place :: Goes(ps, e, base, value, q, place) && m.provider == place.provider
                 && KeyOfEntry(if place.provider != "" then KeysOf(TablesOf(ps), place.provider) else [], e, value, place, m)
  {
    hide Strip, TablesOf, Located, Goes, IdOfFirst;
    var base, value := Meaning(ds, e.base), Meaning(ds, e.key);
    var place := Located(TablesOf(ps), ps, e, base, value);
    EntryGoes(ps, e, base, value, q);
    var keys := if place.provider != "" then KeysOf(TablesOf(ps), place.provider) else [];
    ValuedAt(keys, value, 0);
    var m := ModelOf(TablesOf(ps), ps, ds, e, listed);
    IdAt(keys, m.keyName, value, 0);
    assert KeyOfEntry(keys, e, value, place, ModelOf(TablesOf(ps), ps, ds, e, listed));
  }

  /** Every entry of a list is loaded so. */
  lemma {:induction false} ListLoads(t: Tables, ps: seq<Provider>, ds: seq<Definition>, es: seq<Entry>, listed: bool)
    ensures |ModelsOf(t, ps, ds, es, listed)| == |es|
    ensures forall k | 0 <= k < |es| :: ModelsOf(t, ps, ds, es, listed)[k] == ModelOf(t, ps, ds, es[k], listed)
  {
    hide ModelOf;
    if es != [] { ListLoads(t, ps, ds, es[..|es| - 1], listed); }
  }
}
