/** Exactly when a save and a load conserve everything: when keys can be told apart by their values. */
module ProviderExactly {
  import opened PythonText
  import opened FreshNames
  import opened ProviderDocuments
  import opened ProviderSaving
  import opened ProviderReload
  import opened ProviderLoading
  import opened ProviderRoundTrip
  import opened ProviderConservation

  // ---- what loading keeps of keys ----

  predicate Named(k: Key) { k.value != "" && Strip(k.name) != "" }

  /** Keys with names and distinct values, as loading leaves them. */
  predicate Good(keys: seq<Key>) { ValuesDistinct(keys) && forall i | 0 <= i < |keys| :: Named(keys[i]) }

  lemma FirstKept(s: string)
    requires s != "" && !IsSpace(s[0])
    ensures Strip(s) != ""
  {
    RStripFirst(s);
  }

  lemma {:induction false} RStripFirst(s: string)
    requires s != "" && !IsSpace(s[0])
    ensures RStrip(s) != ""
  {
    if IsSpace(s[|s| - 1]) { RStripFirst(s[..|s| - 1]); }
  }

  lemma {:induction false} FreshNamed(desired: string, used: set<string>, k: nat)
    requires k >= 1 && Tried(desired, used, k) && desired != "" && !IsSpace(desired[0])
    ensures Strip(FirstFree(desired, used, k)) != ""
    decreases |used| + 1 - k
  {
    TriedBound(desired, used, k);
    if Candidate(desired, k) !in used {
      assert Candidate(desired, k)[0] == desired[0];
      FirstKept(Candidate(desired, k));
    } else {
      assert Tried(desired, used, k + 1);
      TriedBound(desired, used, k + 1);
      FreshNamed(desired, used, k + 1);
    }
  }

  lemma NormalNamed(provider: string, k: Key, index: nat)
    requires k.value != ""
    ensures Named(NormalKey(provider, k, index))
  {
    NormalKeyTidy(provider, k, index);
  }

  lemma GoodLast(keys: seq<Key>, k: Key)
    requires Good(keys) && Named(k) && !HasValue(keys, k.value)
    ensures Good(keys + [k])
  {
  }

  lemma {:induction false} LoadedGood(provider: string, keys: seq<Key>)
    ensures Good(LoadedKeys(provider, keys))
  {
    if keys != [] {
      var front, last := keys[..|keys| - 1], NormalKey(provider, keys[|keys| - 1], |keys|);
      LoadedGood(provider, front);
      if last.value != "" && !HasValue(LoadedKeys(provider, front), last.value) {
        NormalNamed(provider, keys[|keys| - 1], |keys|);
        GoodLast(LoadedKeys(provider, front), last);
      }
    }
  }

  predicate AllNamed(keys: seq<Key>) { forall i | 0 <= i < |keys| :: Named(keys[i]) }

  /** Keys with the same values, all named. */
  predicate Renamed(keys: seq<Key>, ks: seq<Key>) {
    |ks| == |keys| && forall i | 0 <= i < |keys| :: ks[i].value == keys[i].value && Named(ks[i])
  }

  lemma {:induction false} WithValuesSame(provider: string, keys: seq<Key>)
    requires AllNamed(keys)
    ensures Renamed(keys, WithValues(provider, keys))
  {
    if keys != [] {
      var front, last := keys[..|keys| - 1], keys[|keys| - 1];
      NamedFront(keys, front, last);
      WithValuesSame(provider, front);
      var k := WithValuesLast(provider, keys, front, last);
      RenamedLast(front, WithValues(provider, front), last, k);
    }
  }

  lemma NamedFront(keys: seq<Key>, front: seq<Key>, last: Key)
    requires AllNamed(keys) && keys != [] && front == keys[..|keys| - 1] && last == keys[|keys| - 1]
    ensures AllNamed(front) && Named(last) && keys == front + [last]
  {
    forall i | 0 <= i < |front| ensures Named(front[i]) { assert Named(keys[i]); }
  }

  lemma WithValuesLast(provider: string, keys: seq<Key>, front: seq<Key>, last: Key) returns (k: Key)
    requires keys != [] && front == keys[..|keys| - 1] && last == keys[|keys| - 1] && Named(last)
    ensures WithValues(provider, keys) == WithValues(provider, front) + [k] && k.value == last.value && Named(k)
  {
    StripTwice(last.name);
    k := Key(if Strip(last.id) != "" then Strip(last.id) else StableKeyId(provider, Strip(last.name)), Strip(last.name),
             last.value);
  }

  lemma RenamedLast(keys: seq<Key>, ks: seq<Key>, k: Key, n: Key)
    requires Renamed(keys, ks) && n.value == k.value && Named(n)
    ensures Renamed(keys + [k], ks + [n])
  {
  }

  lemma {:induction false} ValueUnfound(keys: seq<Key>, value: string, i: nat)
    requires ByValue(keys, value, i).None?
    ensures forall j | i <= j < |keys| :: keys[j].value != value
    decreases |keys| - i
  {
    if i < |keys| { ValueUnfound(keys, value, i + 1); }
  }

  lemma {:induction false} ValueFound(keys: seq<Key>, value: string, i: nat)
    requires ByValue(keys, value, i).Some?
    ensures var k := ByValue(keys, value, i).value; k in keys && k.value == value
    decreases |keys| - i
  {
    if i < |keys| && keys[i].value != value { ValueFound(keys, value, i + 1); }
  }

  /** A provider's keys stay as they are, or one is added behind them. */
  lemma EnsuredGood(p: Provider, value: string, preferred: string)
    requires Good(p.keys)
    ensures var keys := EnsureKey(p, value, preferred).0;
            Good(keys) && (keys == p.keys || |keys| == |p.keys| + 1)
  {
    var found := ByValue(p.keys, value, 0);
    if value != "" {
      if found.Some? {
        ValueFound(p.keys, value, 0);
        assert Named(found.value);
      } else {
        WithValuesSame(p.name, p.keys);
        ValueUnfound(p.keys, value, 0);
        var keys := WithValues(p.name, p.keys);
        var desired := if Strip(preferred) == "" then DEFAULT_KEY else Strip(preferred);
        StripTwice(preferred);
        FreshNamed(desired, UsedNames(keys), 1);
        var name := FirstFree(desired, UsedNames(keys), 1);
        assert Good(keys);
        GoodLast(keys, Key(StableKeyId(p.name, name), name, value));
      }
    }
  }

  predicate AllGood(ps: seq<Provider>) { forall i | 0 <= i < |ps| :: Good(ps[i].keys) }

  lemma NewGood(m: Model)
    ensures Good(Extended(NewProvider(m), m).keys)
  {
    StripTwice(m.keyName);
    FirstKept(DEFAULT_KEY);
    var p := NewProvider(m);
    assert Good(p.keys);
    ExtendedGood(p, m);
  }

  lemma ExtendedGood(p: Provider, m: Model)
    requires Good(p.keys)
    ensures var keys := Extended(p, m).keys; Good(keys) && (keys == p.keys || |keys| == |p.keys| + 1)
  {
    EnsuredGood(p, Strip(m.keyValue), if Strip(m.keyName) != "" then Strip(m.keyName) else KeyNameFromModel(m.name));
  }

  lemma {:induction false} AppendGood(ps: seq<Provider>, ms: seq<Model>)
    requires AllGood(ps)
    ensures AllGood(AppendAll(ps, ms)) && |AppendAll(ps, ms)| >= |ps|
  {
    if ms != [] {
      var front, m := ms[..|ms| - 1], ms[|ms| - 1];
      AppendGood(ps, front);
      var qs := AppendAll(ps, front);
      var at := Find(qs, Strip(m.provider));
      if at.Some? { ExtendedGood(qs[at.value], m); } else { NewGood(m); }
    }
  }

  lemma {:induction false} EditorsGood(sections: seq<Section>)
    ensures AllGood(ToEditors(sections)) && |ToEditors(sections)| == |sections|
  {
    if sections != [] {
      EditorsGood(sections[..|sections| - 1]);
      LoadedGood(sections[|sections| - 1].name, sections[|sections| - 1].keys);
    }
  }

  /** Whatever is loaded, no two keys of a provider share a value. */
  lemma RestoredGood(d: Document)
    ensures AllGood(Restored(d))
  {
    var ps, ds := ToEditors(d.sections), Definitions(d.sections);
    var t := TablesOf(ps);
    EditorsGood(d.sections);
    AppendGood(ps, ModelsOf(t, ps, ds, d.active, true));
    AppendGood(AppendAll(ps, ModelsOf(t, ps, ds, d.active, true)), ModelsOf(t, ps, [], d.disabled, false));
  }

  // ---- the key names models get ----

  function KeyNames(ms: seq<Model>): seq<string> {
    if ms == [] then [] else KeyNames(ms[..|ms| - 1]) + [ms[|ms| - 1].keyName]
  }

  /** The name of the key a model has once it is appended to a provider. */
  function LoadedName(p: Provider, m: Model): string {
    var name := EnsureKey(p, Strip(m.keyValue),
                          if Strip(m.keyName) != "" then Strip(m.keyName) else KeyNameFromModel(m.name)).1;
    if name == "" then m.keyName else name
  }

  /** Appending the models one by one adds no key and gives each the name it had. */
  predicate AllOk(p: Provider, ms: seq<Model>) {
    ms == [] || (AllOk(p, ms[..|ms| - 1]) && IsOk(p, ms[|ms| - 1]))
  }

  predicate IsOk(p: Provider, m: Model) { Extended(p, m).keys == p.keys && LoadedName(p, m) == m.keyName }

  predicate NoneAdded(p: Provider, ms: seq<Model>) {
    ms == [] || (NoneAdded(p, ms[..|ms| - 1]) && Extended(p, ms[|ms| - 1]).keys == p.keys)
  }

  function LoadedNames(p: Provider, ms: seq<Model>): seq<string> {
    if ms == [] then [] else LoadedNames(p, ms[..|ms| - 1]) + [LoadedName(p, ms[|ms| - 1])]
  }

  lemma {:induction false} OkWhenNamed(p: Provider, ms: seq<Model>)
    requires NoneAdded(p, ms) && LoadedNames(p, ms) == KeyNames(ms)
    ensures AllOk(p, ms)
  {
    if ms != [] {
      var front := ms[..|ms| - 1];
      NamesCount(p, ms);
      NamesCount(p, front);
      assert LoadedNames(p, front) == LoadedNames(p, ms)[..|front|];
      assert KeyNames(front) == KeyNames(ms)[..|front|];
      assert LoadedName(p, ms[|ms| - 1]) == LoadedNames(p, ms)[|front|];
      OkWhenNamed(p, front);
    }
  }

  lemma {:induction false} NamesCount(p: Provider, ms: seq<Model>)
    ensures |LoadedNames(p, ms)| == |ms| && |KeyNames(ms)| == |ms|
  {
    if ms != [] { NamesCount(p, ms[..|ms| - 1]); }
  }

  lemma KeyNamesLast(ms: seq<Model>, m: Model)
    ensures KeyNames(ms + [m]) == KeyNames(ms) + [m.keyName]
  {
    assert (ms + [m])[..|ms|] == ms;
  }

  lemma {:induction false} KeyNamesConcat(a: seq<Model>, b: seq<Model>)
    ensures KeyNames(a + b) == KeyNames(a) + KeyNames(b)
  {
    if b == [] {
      assert a + b == a;
    } else {
      assert (a + b)[..|a + b| - 1] == a + b[..|b| - 1];
      KeyNamesConcat(a, b[..|b| - 1]);
    }
  }

  lemma {:induction false} NoIdsNames(ms: seq<Model>)
    ensures KeyNames(NoIds(ms)) == KeyNames(ms)
  {
    if ms != [] {
      NoIdsNames(ms[..|ms| - 1]);
      KeyNamesLast(NoIds(ms[..|ms| - 1]), ms[|ms| - 1].(deploymentId := ""));
    }
  }

  // ---- appending without adding a key ----

  predicate HasProvider(ps: seq<Provider>, name: string) { exists i :: 0 <= i < |ps| && ps[i].name == name }

  predicate Placed(ps: seq<Provider>, m: Model) { Strip(m.provider) == m.provider && HasProvider(ps, m.provider) }

  predicate AllPlaced(ps: seq<Provider>, ms: seq<Model>) { forall k | 0 <= k < |ms| :: Placed(ps, ms[k]) }

  predicate Grown(ps: seq<Provider>, qs: seq<Provider>) {
    |qs| == |ps| && forall i | 0 <= i < |ps| :: qs[i].name == ps[i].name && |qs[i].keys| >= |ps[i].keys|
  }

  lemma AppendPlaced(ps: seq<Provider>, qs: seq<Provider>, m: Model) returns (i: nat)
    requires NamesApart(ps) && Grown(ps, qs) && Placed(ps, m)
    ensures i < |ps| && ps[i].name == m.provider && AppendModel(qs, m) == qs[i := Extended(qs[i], m)]
  {
    i :| 0 <= i < |ps| && ps[i].name == m.provider;
    assert NamesApart(qs);
    FindAt(qs, i);
  }

  lemma {:induction false} KeysGrow(ps: seq<Provider>, ms: seq<Model>)
    requires NamesApart(ps) && AllPlaced(ps, ms) && AllGood(ps)
    ensures Grown(ps, AppendAll(ps, ms)) && AllGood(AppendAll(ps, ms))
  {
    if ms != [] {
      var front, m := ms[..|ms| - 1], ms[|ms| - 1];
      KeysGrow(ps, front);
      assert Placed(ps, m);
      var qs := AppendAll(ps, front);
      var i := AppendPlaced(ps, qs, m);
      ExtendedGood(qs[i], m);
    }
  }

  lemma ExtendedSame(p: Provider, q: Provider, m: Model)
    requires q.name == p.name && q.keys == p.keys
    ensures Extended(q, m).keys == Extended(p, m).keys && LoadedName(q, m) == LoadedName(p, m)
    ensures KeyNames(Extended(q, m).models) == KeyNames(q.models) + [LoadedName(q, m)]
    ensures Extended(q, m).name == q.name
  {
    var last := Extended(q, m).models[|q.models|];
    assert Extended(q, m).models == q.models + [last];
    KeyNamesLast(q.models, last);
  }

  /** The provider has the keys it had, and the models appended to it the names they got there. */
  predicate Stayed(p: Provider, q: Provider, own: seq<Model>) {
    && q.name == p.name && q.keys == p.keys && NoneAdded(p, own)
    && KeyNames(q.models) == KeyNames(p.models) + LoadedNames(p, own)
  }

  predicate AllStayed(ps: seq<Provider>, qs: seq<Provider>, ms: seq<Model>) {
    |qs| == |ps| && forall i | 0 <= i < |ps| :: Stayed(ps[i], qs[i], Own(ms, ps[i].name))
  }

  predicate NoMoreKeys(ps: seq<Provider>, qs: seq<Provider>) {
    |qs| == |ps| && forall i | 0 <= i < |ps| :: |qs[i].keys| == |ps[i].keys|
  }

  lemma {:induction false} KeysStay(ps: seq<Provider>, ms: seq<Model>)
    requires NamesApart(ps) && AllPlaced(ps, ms) && AllGood(ps) && NoMoreKeys(ps, AppendAll(ps, ms))
    ensures AllStayed(ps, AppendAll(ps, ms), ms)
  {
    if ms == [] {
      StayStart(ps);
    } else {
      var front, m := ms[..|ms| - 1], ms[|ms| - 1];
      var qs, rs := AppendAll(ps, front), AppendAll(ps, ms);
      PlacedFront(ps, ms);
      KeysGrow(ps, front);
      var i := AppendPlaced(ps, qs, m);
      ExtendedGood(qs[i], m);
      NoMoreBefore(ps, qs, rs, i, m);
      KeysStay(ps, front);
      AllStayedOn(ps, qs, rs, front, m, i);
    }
  }

  lemma StayStart(ps: seq<Provider>)
    ensures AllStayed(ps, ps, [])
  {
  }

  lemma PlacedFront(ps: seq<Provider>, ms: seq<Model>)
    requires AllPlaced(ps, ms) && ms != []
    ensures AllPlaced(ps, ms[..|ms| - 1]) && Placed(ps, ms[|ms| - 1]) && ms == ms[..|ms| - 1] + [ms[|ms| - 1]]
  {
    var front := ms[..|ms| - 1];
    forall k | 0 <= k < |front| ensures Placed(ps, front[k]) { assert Placed(ps, ms[k]); }
  }

  lemma NoMoreBefore(ps: seq<Provider>, qs: seq<Provider>, rs: seq<Provider>, i: nat, m: Model)
    requires Grown(ps, qs) && i < |ps| && rs == qs[i := Extended(qs[i], m)] && NoMoreKeys(ps, rs)
    requires Extended(qs[i], m).keys == qs[i].keys || |Extended(qs[i], m).keys| == |qs[i].keys| + 1
    ensures NoMoreKeys(ps, qs) && Extended(qs[i], m).keys == qs[i].keys
  {
    assert |rs[i].keys| == |ps[i].keys|;
    forall j | 0 <= j < |ps| ensures |qs[j].keys| == |ps[j].keys| { assert |rs[j].keys| == |ps[j].keys|; }
  }

  lemma AllStayedOn(ps: seq<Provider>, qs: seq<Provider>, rs: seq<Provider>, ms: seq<Model>, m: Model, i: nat)
    requires NamesApart(ps) && AllStayed(ps, qs, ms) && i < |ps| && m.provider == ps[i].name
    requires rs == qs[i := Extended(qs[i], m)] && Extended(qs[i], m).keys == qs[i].keys
    ensures AllStayed(ps, rs, ms + [m])
  {
    forall j | 0 <= j < |ps| ensures Stayed(ps[j], rs[j], Own(ms + [m], ps[j].name)) {
      assert Stayed(ps[j], qs[j], Own(ms, ps[j].name));
      OwnLast(ms, m, ps[j].name);
      if j == i { StayedOn(ps[i], qs[i], Own(ms, ps[i].name), m); }
    }
  }

  lemma StayedOn(p: Provider, q: Provider, own: seq<Model>, m: Model)
    requires Stayed(p, q, own) && Extended(q, m).keys == q.keys
    ensures Stayed(p, Extended(q, m), own + [m])
  {
    ExtendedSame(p, q, m);
    assert (own + [m])[..|own|] == own;
    Rejoin(KeyNames(p.models), LoadedNames(p, own), LoadedName(p, m));
  }

  lemma Rejoin(a: seq<string>, b: seq<string>, x: string)
    ensures (a + b) + [x] == a + (b + [x])
  {
  }

  // ---- models whose key is not found ----

  /** A model that keeps its key's name without another key has a key that is found by its value. */
  lemma OkMeansFound(p: Provider, m: Model, a: nat)
    requires TidyKeys(p.keys) && a < |p.keys| && IsOk(p, m)
    requires m.keyName == p.keys[a].name && m.keyValue == p.keys[a].value
    ensures Trimmed(p.keys[a])
  {
    hide Strip;
    var value := Strip(m.keyValue);
    if value != "" {
      var found := ByValue(p.keys, value, 0);
      if found.None? {
        AddedIsMore(p, m);
      } else {
        ValueFound(p.keys, value, 0);
        var b :| 0 <= b < |p.keys| && p.keys[b] == found.value;
        assert TidyKey(p.keys[b]);
      }
    }
  }

  lemma OkIsTrimmed(o: Owned, id: string, bare: Provider)
    requires Tidy(o.provider) && CanSave(o.provider, o.model) && bare == o.provider.(models := [])
    requires IsOk(bare, Core(o.provider, o.model, id))
    ensures UsesTrimmed(o)
  {
    var a := KeyOfIs(o.provider, o.model);
    if ModelKey(o.provider, o.model).Some? { OkMeansFound(bare, Core(o.provider, o.model, id), a); }
  }

  lemma AddedIsMore(p: Provider, m: Model)
    requires TidyKeys(p.keys) && Strip(m.keyValue) != "" && ByValue(p.keys, Strip(m.keyValue), 0).None?
    ensures |Extended(p, m).keys| == |p.keys| + 1
  {
    forall i | 0 <= i < |p.keys| ensures Named(p.keys[i]) { assert TidyKey(p.keys[i]); }
    assert AllNamed(p.keys);
    WithValuesSame(p.name, p.keys);
  }

  lemma {:induction false} CoresTrimmed(os: seq<Owned>, ids: seq<string>, on: bool, name: string, bare: Provider, k: nat)
    requires AllSavable(os) && |ids| == |os| && k < |os| && AllOk(bare, Cores(os, ids, on, name))
    requires Tidy(os[k].provider) && bare == os[k].provider.(models := []) && os[k].provider.name == name
    requires Active(os[k].provider, os[k].model) == on
    ensures UsesTrimmed(os[k])
  {
    var n := |os| - 1;
    var front := Cores(os[..n], ids[..n], on, name);
    CoresLast(os, ids, on, name);
    if Active(os[n].provider, os[n].model) == on && os[n].provider.name == name {
      AllOkLast(bare, front, Core(os[n].provider, os[n].model, ids[n]));
    }
    if k == n {
      OkIsTrimmed(os[n], ids[n], bare);
    } else {
      CoresTrimmed(os[..n], ids[..n], on, name, bare, k);
    }
  }

  lemma CoresLast(os: seq<Owned>, ids: seq<string>, on: bool, name: string)
    requires os != [] && AllSavable(os) && |ids| == |os|
    ensures var n := |os| - 1;
            Cores(os, ids, on, name) ==
            Cores(os[..n], ids[..n], on, name)
            + if Active(os[n].provider, os[n].model) == on && os[n].provider.name == name
              then [Core(os[n].provider, os[n].model, ids[n])] else []
  {
  }

  lemma AllOkLast(p: Provider, ms: seq<Model>, m: Model)
    ensures AllOk(p, ms + [m]) <==> AllOk(p, ms) && IsOk(p, m)
  {
    assert (ms + [m])[..|ms|] == ms;
  }

  // ---- whole documents ----

  /** All models of a list of entries belong to the providers they were saved under. */
  lemma {:induction false} SelectPlaced(t: Tables, known: seq<Provider>, ds: seq<Definition>, os: seq<Owned>,
                                        ids: seq<string>, on: bool, listed: bool, qs: seq<Provider>)
    requires AllSavable(os) && Identified(os, ids) && AllKnown(t, os, on, ds)
    requires forall i | 0 <= i < |os| :: HasProvider(qs, os[i].provider.name)
    ensures AllPlaced(qs, ModelsOf(t, known, ds, Select(os, ids, on), listed))
  {
    hide EntryOf, IsDeploymentId, ModelOf, KeptId, Strip, Knows, OwnAliases;
    if os != [] {
      var n := |os| - 1;
      IdentifiedFront(os, ids);
      KnownFront(t, os, on, ds);
      SelectPlaced(t, known, ds, os[..n], ids[..n], on, listed, qs);
      if Active(os[n].provider, os[n].model) == on {
        LoadedAsCore(t, known, ds, os[n], ids[n], listed);
        SelectLast(t, known, ds, Select(os[..n], ids[..n], on), EntryOf(os[n].provider, os[n].model, ids[n]), listed);
        PlacedLast(qs, ModelsOf(t, known, ds, Select(os[..n], ids[..n], on), listed),
                   Core(os[n].provider, os[n].model, ids[n]));
      }
    }
  }

  lemma PlacedLast(qs: seq<Provider>, ms: seq<Model>, m: Model)
    requires AllPlaced(qs, ms) && Placed(qs, m)
    ensures AllPlaced(qs, ms + [m])
  {
  }

  lemma FlatNamed(ps: seq<Provider>, qs: seq<Provider>)
    requires |qs| == |ps| && forall i | 0 <= i < |ps| :: qs[i].name == ps[i].name
    ensures forall k | 0 <= k < |Flat(ps)| :: HasProvider(qs, Flat(ps)[k].provider.name)
  {
    forall k | 0 <= k < |Flat(ps)| ensures HasProvider(qs, Flat(ps)[k].provider.name) {
      var j := FlatFrom(ps, k);
      assert qs[j].name == Flat(ps)[k].provider.name;
    }
  }

  /** The models read from the entries in the order, and from all others. */
  predicate BothRead(ps: seq<Provider>, ids: seq<string>, on: seq<Model>, off: seq<Model>)
    requires Savable(ps) && Identified(Flat(ps), ids) && TidyAll(ps)
  {
    var t := TablesOf(Bare(ps));
    && on == ModelsOf(t, Bare(ps), DefinitionsFor(ps, true), Select(Flat(ps), ids, true), true)
    && off == ModelsOf(t, Bare(ps), [], Select(Flat(ps), ids, false), false)
  }

  /** The two passes over the entries of a saved document, when they add no key in the end. */
  lemma BothStay(ps: seq<Provider>, ids: seq<string>, on: seq<Model>, off: seq<Model>)
    requires Savable(ps) && Identified(Flat(ps), ids) && TidyAll(ps) && AllDistinct(ps)
    requires BothRead(ps, ids, on, off)
    requires NoMoreKeys(Bare(ps), AppendAll(AppendAll(Bare(ps), on), off))
    ensures AllStayed(Bare(ps), AppendAll(Bare(ps), on), on)
    ensures AllStayed(AppendAll(Bare(ps), on), AppendAll(AppendAll(Bare(ps), on), off), off)
  {
    var bare, os := Bare(ps), Flat(ps);
    var t, mid := TablesOf(bare), AppendAll(bare, on);
    TidyBare(ps);
    BareAt(ps);
    FlatKnown(ps, true);
    FlatKnown(ps, false);
    FlatNamed(ps, bare);
    BareGood(ps);
    SelectPlaced(t, bare, DefinitionsFor(ps, true), os, ids, true, true, bare);
    KeysGrow(bare, on);
    FlatNamed(ps, mid);
    SelectPlaced(t, bare, [], os, ids, false, false, mid);
    KeysGrow(mid, off);
    BothSame(bare, mid, AppendAll(mid, off));
    KeysStay(bare, on);
    KeysStay(mid, off);
  }

  lemma BothSame(ps: seq<Provider>, qs: seq<Provider>, rs: seq<Provider>)
    requires Grown(ps, qs) && Grown(qs, rs) && NoMoreKeys(ps, rs)
    ensures NoMoreKeys(ps, qs) && NoMoreKeys(qs, rs)
  {
    forall i | 0 <= i < |ps| ensures |qs[i].keys| == |ps[i].keys| == |rs[i].keys| { assert |rs[i].keys| >= |qs[i].keys|; }
  }

  predicate AllDistinct(ps: seq<Provider>) { forall i | 0 <= i < |ps| :: ValuesDistinct(ps[i].keys) }

  lemma BareGood(ps: seq<Provider>)
    requires TidyAll(ps) && AllDistinct(ps)
    ensures AllGood(Bare(ps))
  {
    BareAt(ps);
    forall i | 0 <= i < |ps| ensures Good(Bare(ps)[i].keys) {
      assert Tidy(ps[i]);
      forall a | 0 <= a < |ps[i].keys| ensures Named(ps[i].keys[a]) { assert TidyKey(ps[i].keys[a]); }
    }
  }

  /** If everything came back, each provider's models kept the names of their keys without another key. */
  lemma ComesOk(ps: seq<Provider>, ids: seq<string>, i: nat)
    requires Savable(ps) && Identified(Flat(ps), ids) && TidyAll(ps) && AllDistinct(ps) && i < |ps|
    requires |Restored(Saved(ps, ids))| == |ps|
    requires forall j | 0 <= j < |ps| :: Comes(ps[j], Restored(Saved(ps, ids))[j])
    ensures AllOk(ps[i].(models := []), Cores(Flat(ps), ids, true, ps[i].name))
    ensures AllOk(ps[i].(models := []), Cores(Flat(ps), ids, false, ps[i].name))
  {
    var bare, os, t, name := Bare(ps), Flat(ps), TablesOf(Bare(ps)), ps[i].name;
    SectionsRead(ps);
    BareAt(ps);
    var on := ModelsOf(t, bare, DefinitionsFor(ps, true), Select(os, ids, true), true);
    var off := ModelsOf(t, bare, [], Select(os, ids, false), false);
    var last := AppendAll(AppendAll(bare, on), off);
    assert last == Restored(Saved(ps, ids));
    LastOk(ps, ids, i, on, off, last);
  }

  lemma LastOk(ps: seq<Provider>, ids: seq<string>, i: nat, on: seq<Model>, off: seq<Model>, last: seq<Provider>)
    requires Savable(ps) && Identified(Flat(ps), ids) && TidyAll(ps) && AllDistinct(ps) && i < |ps|
    requires BothRead(ps, ids, on, off)
    requires last == AppendAll(AppendAll(Bare(ps), on), off)
    requires |last| == |ps| && forall j | 0 <= j < |ps| :: Comes(ps[j], last[j])
    ensures AllOk(ps[i].(models := []), Cores(Flat(ps), ids, true, ps[i].name))
    ensures AllOk(ps[i].(models := []), Cores(Flat(ps), ids, false, ps[i].name))
  {
    BareAt(ps);
    LastKeys(ps, last);
    BothStay(ps, ids, on, off);
    OwnCores(ps, ids, i, on, off);
    ComesNames(ps, ids, i, last[i]);
    OkThere(Bare(ps), AppendAll(Bare(ps), on), last, on, off, i);
  }

  lemma LastKeys(ps: seq<Provider>, last: seq<Provider>)
    requires Dumpable(ps) && TidyAll(ps) && |last| == |ps| && forall j | 0 <= j < |ps| :: Comes(ps[j], last[j])
    ensures NoMoreKeys(Bare(ps), last)
  {
    BareAt(ps);
    forall j | 0 <= j < |ps| ensures last[j].keys == ps[j].keys { ComesKeys(ps, j, last[j]); }
  }

  lemma OkThere(bare: seq<Provider>, mid: seq<Provider>, last: seq<Provider>, on: seq<Model>, off: seq<Model>, i: nat)
    requires AllStayed(bare, mid, on) && AllStayed(mid, last, off) && i < |bare| && bare[i].models == []
    requires KeyNames(last[i].models) == KeyNames(Own(on, bare[i].name)) + KeyNames(Own(off, bare[i].name))
    ensures AllOk(bare[i], Own(on, bare[i].name)) && AllOk(bare[i], Own(off, bare[i].name))
  {
    assert Stayed(bare[i], mid[i], Own(on, bare[i].name));
    assert Stayed(mid[i], last[i], Own(off, mid[i].name));
    OkBoth(bare[i], mid[i], last[i], Own(on, bare[i].name), Own(off, bare[i].name));
  }

  lemma OwnCores(ps: seq<Provider>, ids: seq<string>, i: nat, on: seq<Model>, off: seq<Model>)
    requires Savable(ps) && Identified(Flat(ps), ids) && TidyAll(ps) && i < |ps|
    requires BothRead(ps, ids, on, off)
    ensures Own(on, ps[i].name) == Cores(Flat(ps), ids, true, ps[i].name)
    ensures Own(off, ps[i].name) == Cores(Flat(ps), ids, false, ps[i].name)
  {
    FlatKnown(ps, true);
    FlatKnown(ps, false);
    LoadedCores(TablesOf(Bare(ps)), Bare(ps), DefinitionsFor(ps, true), Flat(ps), ids, true, ps[i].name, true);
    LoadedCores(TablesOf(Bare(ps)), Bare(ps), [], Flat(ps), ids, false, ps[i].name, false);
  }

  lemma ComesKeys(ps: seq<Provider>, j: nat, back: Provider)
    requires Dumpable(ps) && TidyAll(ps) && j < |ps| && Comes(ps[j], back)
    ensures back.keys == ps[j].keys
  {
    SectionAt(ps, j);
    assert Tidy(ps[j]);
    TidyNormalized(ps[j]);
  }

  lemma ComesNames(ps: seq<Provider>, ids: seq<string>, i: nat, back: Provider)
    requires Dumpable(ps) && |ids| == |Flat(ps)| && TidyAll(ps) && i < |ps| && Comes(ps[i], back)
    ensures KeyNames(back.models)
            == KeyNames(Cores(Flat(ps), ids, true, ps[i].name)) + KeyNames(Cores(Flat(ps), ids, false, ps[i].name))
  {
    var on, off := Cores(Flat(ps), ids, true, ps[i].name), Cores(Flat(ps), ids, false, ps[i].name);
    CoresCome(ps, ids, i, ps[i].(models := on + off));
    NoIdsNames(back.models);
    NoIdsNames(on + off);
    KeyNamesConcat(on, off);
  }

  lemma NamesAdded(p: Provider, q: Provider, r: Provider, on: seq<Model>, off: seq<Model>)
    requires Stayed(p, q, on) && Stayed(q, r, off) && p.models == []
    ensures KeyNames(r.models) == LoadedNames(p, on) + LoadedNames(p, off) && NoneAdded(p, off)
  {
    assert KeyNames(p.models) == [] && [] + LoadedNames(p, on) == LoadedNames(p, on);
    SameProvider(p, q, off);
  }

  lemma OkBoth(p: Provider, q: Provider, r: Provider, on: seq<Model>, off: seq<Model>)
    requires Stayed(p, q, on) && Stayed(q, r, off) && p.models == []
    requires KeyNames(r.models) == KeyNames(on) + KeyNames(off)
    ensures AllOk(p, on) && AllOk(p, off)
  {
    NamesCount(p, on);
    NamesCount(p, off);
    NamesAdded(p, q, r, on, off);
    SplitEqual(LoadedNames(p, on), LoadedNames(p, off), KeyNames(on), KeyNames(off));
    OkWhenNamed(p, on);
    OkWhenNamed(p, off);
  }

  lemma SplitEqual(a: seq<string>, b: seq<string>, c: seq<string>, d: seq<string>)
    requires a + b == c + d && |a| == |c|
    ensures a == c && b == d
  {
    assert (a + b)[..|a|] == a && (c + d)[..|a|] == c;
    assert (a + b)[|a|..] == b && (c + d)[|a|..] == d;
  }

  lemma {:induction false} SameProvider(p: Provider, q: Provider, ms: seq<Model>)
    requires q.name == p.name && q.keys == p.keys
    ensures NoneAdded(q, ms) <==> NoneAdded(p, ms)
    ensures LoadedNames(q, ms) == LoadedNames(p, ms)
  {
    if ms != [] {
      SameProvider(p, q, ms[..|ms| - 1]);
      ExtendedSame(p, q, ms[|ms| - 1]);
    }
  }

  /** Tidy providers that came back whole have keys that can be found. */
  lemma TidyFindable(ps: seq<Provider>, ids: seq<string>)
    requires Savable(ps) && Identified(Flat(ps), ids) && TidyAll(ps)
    requires |Restored(Saved(ps, ids))| == |ps|
    requires forall j | 0 <= j < |ps| :: Comes(ps[j], Restored(Saved(ps, ids))[j])
    ensures KeysFindable(ps)
  {
    var back, os := Restored(Saved(ps, ids)), Flat(ps);
    RestoredGood(Saved(ps, ids));
    forall j | 0 <= j < |ps| ensures ValuesDistinct(ps[j].keys) {
      ComesKeys(ps, j, back[j]);
      assert Good(back[j].keys);
    }
    forall k | 0 <= k < |os| ensures UsesTrimmed(os[k]) {
      var i := FlatFrom(ps, k);
      assert Tidy(ps[i]);
      ComesOk(ps, ids, i);
      CoresTrimmed(os, ids, Active(os[k].provider, os[k].model), ps[i].name, ps[i].(models := []), k);
    }
    EachTrimmed(os);
  }

  lemma {:induction false} EachTrimmed(os: seq<Owned>)
    requires forall k | 0 <= k < |os| :: UsesTrimmed(os[k])
    ensures AllTrimmed(os)
  {
    if os != [] { EachTrimmed(os[..|os| - 1]); }
  }

  /**
   Everything a save was given comes back from loading, exactly when no two keys of
   a provider share a value and no model uses a key whose value has white space
   around its text.
   */
  lemma SaveThenLoadExactly(ps: seq<Provider>, ids: seq<string>)
    requires Savable(ps) && Identified(Flat(ps), ids) && AddressesNormal(ps)
    ensures AllCome(ps, Loaded(Saved(ps, ids))) <==> Findable(ps)
  {
    if Findable(ps) {
      SaveThenLoad(ps, ids);
    } else if AllCome(ps, Loaded(Saved(ps, ids))) {
      var qs, back := NormalAll(ps), Restored(Saved(ps, ids));
      NormalAt(ps);
      NormalSaved(ps, ids);
      NormalTidyAll(ps);
      NormalFindable(ps);
      forall j | 0 <= j < |qs| ensures Comes(qs[j], back[j]) { NormalComes(ps, j, back[j]); }
      TidyFindable(qs, ids);
    }
  }
}
