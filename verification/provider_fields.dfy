/** What a saved entry and a model loaded again hold, told from the editor's model alone. */
module ProviderFields {
  import opened Wrappers
  import opened PythonText
  import opened ProviderDocuments
  import opened ProviderConservation

  // ---- the key of a model ----

  /** The key stands among the keys, and none before it has the property. */
  ghost predicate IsFirst(keys: seq<Key>, key: Option<Key>, has: Key -> bool) {
    key.Some? && exists a :: 0 <= a < |keys| && keys[a] == key.value && has(keys[a]) && forall b | 0 <= b < a :: !has(keys[b])
  }

  ghost predicate Any(keys: seq<Key>, has: Key -> bool) { exists a :: 0 <= a < |keys| && has(keys[a]) }

  /**
   The key a model uses: the one with its key id, if it names one; else the one it names;
   else, if it names none, the first with the value it holds; else the one called default;
   else the first of all, if there is one.
   */
  ghost predicate Uses(keys: seq<Key>, m: Model, key: Option<Key>) {
    var id, name, value := Strip(m.keyId), Strip(m.keyName), Strip(m.keyValue);
    if id != "" then IsFirst(keys, key, (k: Key) => k.id == id)
    else if name != "" && Any(keys, (k: Key) => k.name == name) then IsFirst(keys, key, (k: Key) => k.name == name)
    else if name == "" && Any(keys, (k: Key) => k.value == value) then IsFirst(keys, key, (k: Key) => k.value == value)
    else if Any(keys, (k: Key) => k.name == "default") then IsFirst(keys, key, (k: Key) => k.name == "default")
    else if keys != [] then key == Some(keys[0])
    else key == None
  }

  lemma FirstUnique(keys: seq<Key>, a: Option<Key>, b: Option<Key>, has: Key -> bool)
    requires IsFirst(keys, a, has) && IsFirst(keys, b, has)
    ensures a == b
  {
    var i :| 0 <= i < |keys| && keys[i] == a.value && has(keys[i]) && forall k | 0 <= k < i :: !has(keys[k]);
    var j :| 0 <= j < |keys| && keys[j] == b.value && has(keys[j]) && forall k | 0 <= k < j :: !has(keys[k]);
    assert !(i < j) && !(j < i);
  }

  /** A model uses one key only, or none. */
  lemma UsesOne(keys: seq<Key>, m: Model, a: Option<Key>, b: Option<Key>)
    requires Uses(keys, m, a) && Uses(keys, m, b)
    ensures a == b
  {
    var id, name, value := Strip(m.keyId), Strip(m.keyName), Strip(m.keyValue);
    if id != "" {
      FirstUnique(keys, a, b, (k: Key) => k.id == id);
    } else if name != "" && Any(keys, (k: Key) => k.name == name) {
      FirstUnique(keys, a, b, (k: Key) => k.name == name);
    } else if name == "" && Any(keys, (k: Key) => k.value == value) {
      FirstUnique(keys, a, b, (k: Key) => k.value == value);
    } else if Any(keys, (k: Key) => k.name == "default") {
      FirstUnique(keys, a, b, (k: Key) => k.name == "default");
    }
  }

  lemma {:induction false} IdIsFirst(keys: seq<Key>, id: string, i: nat, has: Key -> bool)
    requires i <= |keys| && (forall k :: has(k) == (k.id == id)) && forall b | 0 <= b < i :: !has(keys[b])
    ensures if Any(keys, has) then IsFirst(keys, ById(keys, id, i), has) else ById(keys, id, i) == None
    decreases |keys| - i
  {
    if i < |keys| && keys[i].id != id { IdIsFirst(keys, id, i + 1, has); }
  }

  lemma {:induction false} NameIsFirst(keys: seq<Key>, name: string, i: nat, has: Key -> bool)
    requires i <= |keys| && (forall k :: has(k) == (k.name == name)) && forall b | 0 <= b < i :: !has(keys[b])
    ensures if Any(keys, has) then IsFirst(keys, ByName(keys, name, i), has) else ByName(keys, name, i) == None
    decreases |keys| - i
  {
    if i < |keys| && keys[i].name != name { NameIsFirst(keys, name, i + 1, has); }
  }

  lemma {:induction false} ValueIsFirst(keys: seq<Key>, value: string, i: nat, has: Key -> bool)
    requires i <= |keys| && (forall k :: has(k) == (k.value == value)) && forall b | 0 <= b < i :: !has(keys[b])
    ensures if Any(keys, has) then IsFirst(keys, ByValue(keys, value, i), has) else ByValue(keys, value, i) == None
    decreases |keys| - i
  {
    if i < |keys| && keys[i].value != value { ValueIsFirst(keys, value, i + 1, has); }
  }

  /** Of keys with names of their own, the first with a name is the only one. */
  lemma NamedAgain(keys: seq<Key>, key: Key)
    requires key in keys && key.name != "" && forall a, b | 0 <= a < b < |keys| :: keys[a].name != keys[b].name
    ensures ByName(keys, key.name, 0) == Some(key)
  {
    var has := (k: Key) => k.name == key.name;
    var a :| 0 <= a < |keys| && keys[a] == key;
    assert Any(keys, has);
    NameIsFirst(keys, key.name, 0, has);
  }

  /** The search for a model's key finds the key it uses, and fails only for a key id that no key has. */
  lemma KeyOfExactly(keys: seq<Key>, m: Model)
    requires forall a, b | 0 <= a < b < |keys| :: keys[a].name != keys[b].name
    requires forall a | 0 <= a < |keys| :: keys[a].name != ""
    ensures KeyOf(keys, m).Success? ==> Uses(keys, m, KeyOf(keys, m).value)
    ensures KeyOf(keys, m).Failure? <==> Strip(m.keyId) != "" && !Any(keys, (k: Key) => k.id == Strip(m.keyId))
  {
    var id, name, value := Strip(m.keyId), Strip(m.keyName), Strip(m.keyValue);
    if id != "" {
      IdIsFirst(keys, id, 0, (k: Key) => k.id == id);
    } else {
      NameIsFirst(keys, name, 0, (k: Key) => k.name == name);
      ValueIsFirst(keys, value, 0, (k: Key) => k.value == value);
      NameIsFirst(keys, "default", 0, (k: Key) => k.name == "default");
      if name == "" && Any(keys, (k: Key) => k.value == value) { NamedAgain(keys, ByValue(keys, value, 0).value); }
    }
  }

  // ---- the keys of a provider ----

  /** The name of the key at a place: its own, or one made from the place. */
  function NameAt(keys: seq<Key>, i: nat): string
    requires i < |keys|
  {
    if Strip(keys[i].name) == "" then "key-" + Decimal(i + 1) else Strip(keys[i].name)
  }

  /** A key as it is saved from its place. */
  predicate SavedFrom(provider: string, keys: seq<Key>, i: nat, key: Key)
    requires i < |keys|
  {
    && key.value == keys[i].value && key.name == NameAt(keys, i)
    && (if Strip(keys[i].id) != "" then key.id == Strip(keys[i].id) else key.id == StableKeyId(provider, NameAt(keys, i)))
  }

  /** The saved keys are those at these places: all that have a value, in order. */
  ghost predicate AllSaved(provider: string, keys: seq<Key>, saved: seq<Key>, places: seq<nat>) {
    && |places| == |saved| && (forall k | 0 <= k < |places| :: places[k] < |keys| && keys[places[k]].value != "")
    && (forall k | 0 <= k < |places| :: SavedFrom(provider, keys, places[k], saved[k]))
    && (forall a, b | 0 <= a < b < |places| :: places[a] < places[b])
    && forall i: nat | i < |keys| :: keys[i].value != "" ==> i in places
  }

  /** No two keys with a value have one name. */
  predicate NamesDiffer(keys: seq<Key>) {
    forall i, j | 0 <= i < j < |keys| :: keys[i].value != "" && keys[j].value != "" ==> NameAt(keys, i) != NameAt(keys, j)
  }

  /** The keys that are saved are those with a value, each with its name and id, and only equal names are refused. */
  lemma {:induction false} NamedKeysExactly(provider: string, keys: seq<Key>) returns (places: seq<nat>)
    ensures NamedKeys(provider, keys).Success? <==> NamesDiffer(keys)
    ensures NamedKeys(provider, keys).Success? ==> AllSaved(provider, keys, NamedKeys(provider, keys).value, places)
  {
    hide Strip, Decimal, StableKeyId;
    places := [];
    if keys != [] {
      var n := |keys| - 1;
      var front := NamedKeys(provider, keys[..n]);
      places := NamedKeysExactly(provider, keys[..n]);
      DifferStep(keys);
      if front.Success? {
        SavedStep(provider, keys, front.value, places);
        if keys[n].value != "" {
          NameTaken(provider, keys, front.value, places);
          places := places + [n];
        }
      }
    }
  }

  lemma DifferStep(keys: seq<Key>)
    requires keys != []
    ensures var n := |keys| - 1;
            NamesDiffer(keys) <==> NamesDiffer(keys[..n]) && (keys[n].value != "" ==>
              forall i | 0 <= i < n :: keys[i].value != "" ==> NameAt(keys, i) != NameAt(keys, n))
  {
    hide Strip, Decimal;
    var n := |keys| - 1;
    forall i | 0 <= i < n ensures keys[..n][i] == keys[i] && NameAt(keys[..n], i) == NameAt(keys, i) { }
  }

  lemma NameTaken(provider: string, keys: seq<Key>, saved: seq<Key>, places: seq<nat>)
    requires keys != [] && AllSaved(provider, keys[..|keys| - 1], saved, places)
    ensures var n := |keys| - 1;
            HasName(saved, NameAt(keys, n))
            <==> exists i :: 0 <= i < n && keys[i].value != "" && NameAt(keys, i) == NameAt(keys, n)
  {
    hide Strip, Decimal, StableKeyId, NameAt;
    var n := |keys| - 1;
    var name := NameAt(keys, n);
    forall i: nat | i < n ensures keys[..n][i] == keys[i] && NameAt(keys[..n], i) == NameAt(keys, i) { SameName(keys, n, i); }
    if k :| 0 <= k < |saved| && saved[k].name == name {
      assert SavedFrom(provider, keys[..n], places[k], saved[k]);
      assert places[k] < n && keys[places[k]].value != "" && NameAt(keys, places[k]) == name;
    }
    if i: nat :| i < n && keys[i].value != "" && NameAt(keys, i) == name {
      assert keys[..n][i] == keys[i] && i in places;
      var k :| 0 <= k < |places| && places[k] == i;
      assert SavedFrom(provider, keys[..n], places[k], saved[k]);
    }
  }

  lemma SameName(keys: seq<Key>, n: nat, i: nat)
    requires i < n <= |keys|
    ensures keys[..n][i] == keys[i] && NameAt(keys[..n], i) == NameAt(keys, i)
  {
    hide Strip, Decimal;
  }

  lemma SavedStep(provider: string, keys: seq<Key>, saved: seq<Key>, places: seq<nat>)
    requires keys != [] && AllSaved(provider, keys[..|keys| - 1], saved, places)
    ensures var n := |keys| - 1;
            if keys[n].value == "" then AllSaved(provider, keys, saved, places)
            else AllSaved(provider, keys, saved + [NormalKey(provider, keys[n], |keys|)], places + [n])
  {
    hide Strip, Decimal, StableKeyId;
    var n := |keys| - 1;
    forall i | 0 <= i < n ensures keys[..n][i] == keys[i] && NameAt(keys[..n], i) == NameAt(keys, i) { }
    forall k | 0 <= k < |places| ensures SavedFrom(provider, keys, places[k], saved[k]) {
      assert SavedFrom(provider, keys[..n], places[k], saved[k]);
    }
    assert SavedFrom(provider, keys, n, NormalKey(provider, keys[n], |keys|));
    forall i: nat | i < |keys| && keys[i].value != "" ensures i in places + [n] {
      if i < n { assert keys[..n][i].value != ""; }
    }
  }

  lemma NamedApart(provider: string, keys: seq<Key>)
    requires NamedKeys(provider, keys).Success?
    ensures var saved := NamedKeys(provider, keys).value;
            && (forall a, b | 0 <= a < b < |saved| :: saved[a].name != saved[b].name)
            && forall a | 0 <= a < |saved| :: saved[a].name != ""
  {
    hide Strip, Decimal, StableKeyId, NamedKeys;
    var saved := NamedKeys(provider, keys).value;
    var places := NamedKeysExactly(provider, keys);
    forall a | 0 <= a < |saved| ensures saved[a].name == NameAt(keys, places[a]) != "" {
      assert SavedFrom(provider, keys, places[a], saved[a]);
    }
  }

  // ---- entries and loaded models ----

  /** The route order: the effective one for a multiplier, the manual one otherwise. */
  predicate IsOrder(m: Model, mode: string, order: int) {
    && mode == (if Strip(m.mode) == "" then "manual" else Strip(m.mode))
    && if mode == "relay_multiplier" then m.effective == Some(order) else mode == "manual" && order == m.manual
  }

  /** An entry holds the key its model uses: by its anchor if it is active, as a text otherwise, and its id and name. */
  predicate HoldsKey(p: Provider, m: Model, e: Entry, key: Option<Key>) {
    match key
    case None => e.key == Text("") && e.keyId == "" && e.keyName == ""
    case Some(k) =>
      && e.keyId == k.id && e.keyName == k.name
      && e.key == if p.enabled && m.modelEnabled then Alias(KeyAnchor(Strip(p.name), k.name)) else Text(k.value)
  }

  /** What is saved of a model: its key, its order and its switch, and its own fields. */
  lemma EntryHolds(p: Provider, m: Model, id: string, key: Option<Key>)
    requires CanSave(p, m) && Uses(NormalizedKeys(p).value, m, key)
    ensures var e := EntryOf(p, m, id);
            && HoldsKey(p, m, e, key) && IsOrder(m, e.mode, e.order) && e.manual == m.manual
            && e.modelEnabled == Some(m.modelEnabled) && e.provider == Strip(p.name) && e.name == Strip(m.name)
            && e.surface == m.surface && e.deploymentId == id && e.rest == m.rest
            && e.base == if p.base != "" && p.enabled && m.modelEnabled then Alias(BaseAnchor(Strip(p.name))) else Text(p.base)
  {
    NamedApart(p.name, p.keys);
    KeyOfExactly(NormalizedKeys(p).value, m);
    UsesOne(NormalizedKeys(p).value, m, ModelKey(p, m), key);
  }

  /** What is loaded of it again. */
  lemma ShapeHolds(p: Provider, m: Model, key: Option<Key>)
    requires CanSave(p, m) && Uses(NormalizedKeys(p).value, m, key)
    ensures var s := Shape(p, m);
            && (match key
                case None => s.keyId == "" && s.keyName == "" && s.keyValue == ""
                case Some(k) => s.keyId == k.id && s.keyName == k.name && s.keyValue == k.value)
            && s.effective.Some? && IsOrder(m, s.mode, s.effective.value) && s.manual == m.manual
            && s.modelEnabled == m.modelEnabled && s.provider == Strip(p.name) && s.name == Strip(m.name)
            && s.surface == m.surface && s.base == p.base && s.rest == m.rest
  {
    NamedApart(p.name, p.keys);
    KeyOfExactly(NormalizedKeys(p).value, m);
    UsesOne(NormalizedKeys(p).value, m, ModelKey(p, m), key);
  }

  /** A model can be saved exactly when its order is there, its key id is known, and, if it is active, its names are. */
  lemma SavedExactly(p: Provider, m: Model)
    requires Strip(p.name) != "" && NormalizedKeys(p).Success?
    ensures CanSave(p, m) <==>
              && (exists order :: IsOrder(m, Mode(m), order))
              && (Strip(m.keyId) != "" ==> Any(NormalizedKeys(p).value, (k: Key) => k.id == Strip(m.keyId)))
              && (p.enabled && m.modelEnabled ==> Strip(m.name) != "" && Canonical(m.upstream, m.surface, p.adapter) != "")
  {
    NamedApart(p.name, p.keys);
    KeyOfExactly(NormalizedKeys(p).value, m);
    if Order(m).Success? { assert IsOrder(m, Mode(m), Order(m).value); }
  }

  // ---- deployment ids ----

  predicate IsLower(s: string, t: string) {
    |t| == |s| && forall i | 0 <= i < |s| :: t[i] == if 'A' <= s[i] <= 'Z' then s[i] - 'A' + 'a' else s[i]
  }

  /** Eight hexadecimal digits that no model before has. */
  predicate IsProperId(id: string, seen: set<string>) {
    |id| == 8 && id !in seen && forall c | c in id :: c in "0123456789abcdef"
  }

  /** A model keeps its id, in small letters, exactly when it is a proper one that no model before it has. */
  lemma KeptIdExactly(m: Model, seen: set<string>, id: string)
    ensures KeptId(m, seen) == Some(id) <==> IsLower(Strip(m.deploymentId), id) && IsProperId(id, seen)
  {
    hide Strip;
    LoweredIs(Strip(m.deploymentId), id);
    HexDigits(id, "0123456789abcdef");
  }

  lemma {:induction false} LoweredIs(s: string, t: string)
    ensures Lowered(s) == t <==> IsLower(s, t)
  {
    if s != "" && t != "" {
      var n := |s| - 1;
      LoweredIs(s[..n], t[..|t| - 1]);
      assert t == t[..|t| - 1] + [t[|t| - 1]];
      if IsLower(s, t) { assert forall i | 0 <= i < n :: t[..|t| - 1][i] == t[i]; }
      if IsLower(s[..n], t[..|t| - 1]) { assert forall i | 0 <= i < n :: t[i] == t[..|t| - 1][i]; }
    }
  }

  lemma HexDigits(id: string, digits: string)
    requires digits == "0123456789abcdef"
    ensures IsDeploymentId(id) <==> |id| == 8 && forall c | c in id :: c in digits
  {
    DigitsAre(digits);
    if IsDeploymentId(id) {
      forall c | c in id ensures c in digits { }
    }
    if |id| == 8 && forall c | c in id :: c in digits {
      forall i | 0 <= i < |id| ensures IsHex(id[i]) { assert id[i] in id; }
    }
  }

  lemma DigitsAre(digits: string)
    requires digits == "0123456789abcdef"
    ensures forall c: char :: IsHex(c) <==> c in digits
  {
    forall c: char ensures IsHex(c) <==> c in digits {
      if '0' <= c <= '9' { assert digits[c as int - '0' as int] == c; }
      if 'a' <= c <= 'f' { assert digits[c as int - 'a' as int + 10] == c; }
    }
  }
}
