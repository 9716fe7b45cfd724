/** What a save and a load conserve: every provider as it is normally written, and all its models. */
module ProviderConservation {
  import opened Wrappers
  import opened PythonText
  import opened ProviderDocuments
  import opened ProviderSaving
  import opened ProviderReload
  import opened ProviderLoading
  import opened ProviderRoundTrip

  // ---- the models that come back ----

  /** A model that can be saved as it comes back, but for its deployment id. */
  function Shape(p: Provider, m: Model): Model {
    if !CanSave(p, m) then m
    else
      var key := ModelKey(p, m);
      Model(Strip(p.name), Strip(m.name), Canonical(m.upstream, m.surface, p.adapter), m.surface, m.modelEnabled, p.base,
            if key.Some? then key.value.id else "", if key.Some? then key.value.name else "", OwnKey(p, m),
            Mode(m), m.manual, Some(Order(m).value), "", m.rest)
  }

  function NoIds(ms: seq<Model>): seq<Model> {
    if ms == [] then [] else NoIds(ms[..|ms| - 1]) + [ms[|ms| - 1].(deploymentId := "")]
  }

  /** The shapes of the models that are active, or of those that are not. */
  function Shapes(p: Provider, ms: seq<Model>, on: bool): seq<Model> {
    if ms == [] then []
    else
      var front, last := Shapes(p, ms[..|ms| - 1], on), ms[|ms| - 1];
      if Active(p, last) == on then front + [Shape(p, last)] else front
  }

  function AllShapes(p: Provider, ms: seq<Model>): seq<Model> {
    if ms == [] then [] else AllShapes(p, ms[..|ms| - 1]) + [Shape(p, ms[|ms| - 1])]
  }

  function OwnShapes(os: seq<Owned>, on: bool, name: string): seq<Model> {
    if os == [] then []
    else
      var n := |os| - 1;
      var front := OwnShapes(os[..n], on, name);
      if Active(os[n].provider, os[n].model) == on && Strip(os[n].provider.name) == name
      then front + [Shape(os[n].provider, os[n].model)] else front
  }

  lemma NoIdsLast(ms: seq<Model>, m: Model)
    ensures NoIds(ms + [m]) == NoIds(ms) + [m.(deploymentId := "")]
  {
    assert (ms + [m])[..|ms|] == ms;
  }

  lemma {:induction false} NoIdsConcat(a: seq<Model>, b: seq<Model>)
    ensures NoIds(a + b) == NoIds(a) + NoIds(b)
  {
    if b == [] {
      assert a + b == a;
    } else {
      assert (a + b)[..|a + b| - 1] == a + b[..|b| - 1];
      NoIdsConcat(a, b[..|b| - 1]);
    }
  }

  lemma {:induction false} CoreShapes(os: seq<Owned>, ids: seq<string>, on: bool, name: string)
    requires AllSavable(os) && |ids| == |os| && (forall i | 0 <= i < |os| :: Tidy(os[i].provider))
    ensures NoIds(Cores(os, ids, on, name)) == OwnShapes(os, on, name)
  {
    if os != [] {
      var n := |os| - 1;
      CoreShapes(os[..n], ids[..n], on, name);
      var o := os[n];
      assert Tidy(o.provider);
      if Active(o.provider, o.model) == on && o.provider.name == name {
        NoIdsLast(Cores(os[..n], ids[..n], on, name), Core(o.provider, o.model, ids[n]));
      }
    }
  }

  lemma {:induction false} ShapesConcat(a: seq<Owned>, b: seq<Owned>, on: bool, name: string)
    ensures OwnShapes(a + b, on, name) == OwnShapes(a, on, name) + OwnShapes(b, on, name)
  {
    if b == [] {
      assert a + b == a;
    } else {
      assert (a + b)[..|a + b| - 1] == a + b[..|b| - 1];
      ShapesConcat(a, b[..|b| - 1], on, name);
    }
  }

  lemma {:induction false} ShapesOfOne(p: Provider, ms: seq<Model>, on: bool, name: string)
    ensures OwnShapes(OwnedBy(p, ms), on, name) == if Strip(p.name) == name then Shapes(p, ms, on) else []
  {
    if ms != [] {
      var front := OwnedBy(p, ms[..|ms| - 1]);
      assert OwnedBy(p, ms)[..|front|] == front;
      OwnedAt(p, ms[..|ms| - 1]);
      ShapesOfOne(p, ms[..|ms| - 1], on, name);
    }
  }

  lemma {:induction false} NoneElsewhere(ps: seq<Provider>, on: bool, name: string)
    requires forall i | 0 <= i < |ps| :: Strip(ps[i].name) != name
    ensures OwnShapes(Flat(ps), on, name) == []
  {
    hide Strip, Shape, Active, OwnedBy;
    if ps != [] {
      var n := |ps| - 1;
      NoneElsewhere(ps[..n], on, name);
      ShapesConcat(Flat(ps[..n]), OwnedBy(ps[n], ps[n].models), on, name);
      ShapesOfOne(ps[n], ps[n].models, on, name);
    }
  }

  lemma {:induction false} ShapesOfProvider(ps: seq<Provider>, i: nat, on: bool)
    requires NamesDistinct(ps) && i < |ps|
    ensures OwnShapes(Flat(ps), on, Strip(ps[i].name)) == Shapes(ps[i], ps[i].models, on)
    decreases |ps|
  {
    hide Strip, Shape, Active, Shapes, OwnedBy;
    var n := |ps| - 1;
    ShapesConcat(Flat(ps[..n]), OwnedBy(ps[n], ps[n].models), on, Strip(ps[i].name));
    ShapesOfOne(ps[n], ps[n].models, on, Strip(ps[i].name));
    if i < n {
      ShapesOfProvider(ps[..n], i, on);
    } else {
      NoneElsewhere(ps[..n], on, Strip(ps[i].name));
    }
  }

  lemma {:induction false} SplitConserves(p: Provider, ms: seq<Model>)
    ensures multiset(Shapes(p, ms, true) + Shapes(p, ms, false)) == multiset(AllShapes(p, ms))
  {
    if ms != [] {
      var front := ms[..|ms| - 1];
      SplitConserves(p, front);
    }
  }

  // ---- providers as they are written ----

  /** A provider with its name and its keys as a save writes them. */
  function Normal(p: Provider): Provider {
    var keys := NormalizedKeys(p);
    p.(name := Strip(p.name), keys := if keys.Success? then keys.value else p.keys)
  }

  function NormalAll(ps: seq<Provider>): seq<Provider> {
    if ps == [] then [] else NormalAll(ps[..|ps| - 1]) + [Normal(ps[|ps| - 1])]
  }

  lemma {:induction false} NormalAt(ps: seq<Provider>)
    ensures |NormalAll(ps)| == |ps| && forall i | 0 <= i < |ps| :: NormalAll(ps)[i] == Normal(ps[i])
  {
    if ps != [] { NormalAt(ps[..|ps| - 1]); }
  }

  lemma EndsStripped(s: string)
    requires s != "" && !IsSpace(s[0]) && !IsSpace(s[|s| - 1])
    ensures Strip(s) == s
  {
    StripPadded("", s, "");
    assert "" + s + "" == s;
  }

  lemma NumberedStripped(index: nat, name: string)
    requires name == "key-" + Decimal(index)
    ensures Strip(name) == name
  {
    DecimalEnds(index);
    EndsStripped(name);
  }

  lemma {:induction false} DecimalEnds(n: nat)
    ensures Decimal(n) != "" && !IsSpace(Decimal(n)[|Decimal(n)| - 1])
  {
  }

  lemma StableStripped(provider: string, name: string, id: string)
    requires name != "" && Strip(name) == name && id == StableKeyId(provider, name)
    ensures Strip(id) == id && id != ""
  {
    StripTwice(name);
    assert id[0] == 'p' && id[|id| - 1] == name[|name| - 1];
    EndsStripped(id);
  }

  lemma NormalKeyTidy(provider: string, k: Key, index: nat)
    requires k.value != ""
    ensures TidyKey(NormalKey(provider, k, index))
  {
    StripTwice(k.name);
    StripTwice(k.id);
    if Strip(k.name) == "" { NumberedStripped(index, "key-" + Decimal(index)); }
    var name := NormalKey(provider, k, index).name;
    StableStripped(provider, name, StableKeyId(provider, name));
  }

  lemma {:induction false} NamedTidy(provider: string, keys: seq<Key>)
    requires NamedKeys(provider, keys).Success?
    ensures TidyKeys(NamedKeys(provider, keys).value)
  {
    if keys != [] {
      var front, last := keys[..|keys| - 1], keys[|keys| - 1];
      NamedTidy(provider, front);
      if last.value != "" {
        NormalKeyTidy(provider, last, |keys|);
        TidyLast(NamedKeys(provider, front).value, NormalKey(provider, last, |keys|));
      }
    }
  }

  lemma TidyLast(keys: seq<Key>, k: Key)
    requires TidyKeys(keys) && TidyKey(k) && !HasName(keys, k.name)
    ensures TidyKeys(keys + [k])
  {
  }

  lemma NormalTidy(p: Provider)
    requires NormalizedKeys(p).Success? && NotBlank(p.base)
    ensures Tidy(Normal(p)) && NormalizedKeys(Normal(p)) == NormalizedKeys(p)
  {
    NamedTidy(p.name, p.keys);
    StripTwice(p.name);
    TidyNamed(Normal(p).name, Normal(p).keys);
  }

  /** A model is written alike under a provider and under its normal form. */
  lemma NormalSaves(p: Provider, m: Model, id: string)
    requires NormalizedKeys(p).Success? && NotBlank(p.base)
    ensures CanSave(Normal(p), m) <==> CanSave(p, m)
    ensures CanSave(p, m) ==> EntryOf(Normal(p), m, id) == EntryOf(p, m, id) && Shape(Normal(p), m) == Shape(p, m)
    ensures CanSave(p, m) ==> ModelKey(Normal(p), m) == ModelKey(p, m)
  {
    NormalTidy(p);
    StripTwice(p.name);
  }

  function NormalOwned(os: seq<Owned>): seq<Owned> {
    if os == [] then []
    else NormalOwned(os[..|os| - 1]) + [Owned(Normal(os[|os| - 1].provider), os[|os| - 1].model)]
  }

  lemma {:induction false} NormalOwnedConcat(a: seq<Owned>, b: seq<Owned>)
    ensures NormalOwned(a + b) == NormalOwned(a) + NormalOwned(b)
  {
    if b == [] {
      assert a + b == a;
    } else {
      assert (a + b)[..|a + b| - 1] == a + b[..|b| - 1];
      NormalOwnedConcat(a, b[..|b| - 1]);
    }
  }

  lemma {:induction false} NormalOwnedBy(p: Provider, ms: seq<Model>)
    ensures NormalOwned(OwnedBy(p, ms)) == OwnedBy(Normal(p), ms)
  {
    if ms != [] {
      NormalOwnedBy(p, ms[..|ms| - 1]);
      var front := OwnedBy(p, ms[..|ms| - 1]);
      assert OwnedBy(p, ms)[..|front|] == front;
    }
  }

  lemma {:induction false} NormalFlat(ps: seq<Provider>)
    ensures Flat(NormalAll(ps)) == NormalOwned(Flat(ps))
  {
    if ps != [] {
      var n := |ps| - 1;
      NormalFlat(ps[..n]);
      NormalOwnedBy(ps[n], ps[n].models);
      NormalOwnedConcat(Flat(ps[..n]), OwnedBy(ps[n], ps[n].models));
      var front := NormalAll(ps[..n]);
      assert NormalAll(ps)[..|front|] == front;
    }
  }

  lemma {:induction false} NormalOwnedAt(os: seq<Owned>)
    ensures |NormalOwned(os)| == |os|
    ensures forall k | 0 <= k < |os| :: NormalOwned(os)[k] == Owned(Normal(os[k].provider), os[k].model)
  {
    hide Normal;
    if os != [] { NormalOwnedAt(os[..|os| - 1]); }
  }

  predicate OwnersNormal(os: seq<Owned>) {
    forall k | 0 <= k < |os| :: NormalizedKeys(os[k].provider).Success? && NotBlank(os[k].provider.base)
  }

  lemma NormalSavable(os: seq<Owned>)
    requires AllSavable(os) && OwnersNormal(os)
    ensures AllSavable(NormalOwned(os))
  {
    NormalOwnedAt(os);
    forall k | 0 <= k < |os| ensures CanSave(NormalOwned(os)[k].provider, NormalOwned(os)[k].model) {
      NormalSaves(os[k].provider, os[k].model, "");
    }
  }

  /** The entry of a model that goes into the list for on. */
  function Listed(o: Owned, id: string, on: bool): seq<Entry>
    requires CanSave(o.provider, o.model)
  {
    if Active(o.provider, o.model) == on then [EntryOf(o.provider, o.model, id)] else []
  }

  lemma SelectedLast(os: seq<Owned>, ids: seq<string>, on: bool)
    requires os != [] && AllSavable(os) && |ids| == |os|
    ensures var n := |os| - 1; Select(os, ids, on) == Select(os[..n], ids[..n], on) + Listed(os[n], ids[n], on)
  {
  }

  lemma NormalListed(o: Owned, id: string, on: bool)
    requires CanSave(o.provider, o.model) && NotBlank(o.provider.base)
    ensures var n := Owned(Normal(o.provider), o.model);
            CanSave(n.provider, n.model) && Listed(n, id, on) == Listed(o, id, on)
  {
    NormalSaves(o.provider, o.model, id);
  }

  lemma {:induction false} NormalSelect(os: seq<Owned>, ns: seq<Owned>, ids: seq<string>, on: bool)
    requires |ids| == |os| == |ns| && AllSavable(os) && AllSavable(ns)
    requires forall k | 0 <= k < |os| :: Listed(ns[k], ids[k], on) == Listed(os[k], ids[k], on)
    ensures Select(ns, ids, on) == Select(os, ids, on)
  {
    if os != [] {
      var n := |os| - 1;
      NormalSelect(os[..n], ns[..n], ids[..n], on);
      SelectedLast(os, ids, on);
      SelectedLast(ns, ids, on);
    }
  }

  lemma NormalSelected(os: seq<Owned>, ids: seq<string>, on: bool)
    requires AllSavable(os) && |ids| == |os| && OwnersNormal(os)
    ensures AllSavable(NormalOwned(os)) && |NormalOwned(os)| == |os|
    ensures Select(NormalOwned(os), ids, on) == Select(os, ids, on)
  {
    NormalOwnedAt(os);
    NormalSavable(os);
    forall k | 0 <= k < |os| ensures Listed(NormalOwned(os)[k], ids[k], on) == Listed(os[k], ids[k], on) {
      NormalListed(os[k], ids[k], on);
    }
    NormalSelect(os, NormalOwned(os), ids, on);
  }

  lemma {:induction false} NormalSections(ps: seq<Provider>)
    requires Sections(ps).Success? && forall i | 0 <= i < |ps| :: NotBlank(ps[i].base)
    ensures Sections(NormalAll(ps)) == Sections(ps)
  {
    if ps != [] {
      var n := |ps| - 1;
      NormalSections(ps[..n]);
      NormalTidy(ps[n]);
      StripTwice(ps[n].name);
      var front := NormalAll(ps[..n]);
      assert NormalAll(ps)[..|front|] == front;
    }
  }

  /** Address normalization never leaves a blank address. */
  predicate AddressesNormal(ps: seq<Provider>) { forall i | 0 <= i < |ps| :: NotBlank(ps[i].base) }

  lemma FlatNormal(ps: seq<Provider>)
    requires Dumpable(ps) && AddressesNormal(ps)
    ensures OwnersNormal(Flat(ps))
  {
    forall k | 0 <= k < |Flat(ps)|
      ensures NormalizedKeys(Flat(ps)[k].provider).Success? && NotBlank(Flat(ps)[k].provider.base)
    {
      var j := FlatFrom(ps, k);
    }
  }

  /** Saving providers is saving their normal forms. */
  lemma NormalSaved(ps: seq<Provider>, ids: seq<string>)
    requires Savable(ps) && Identified(Flat(ps), ids) && AddressesNormal(ps)
    ensures Savable(NormalAll(ps)) && Identified(Flat(NormalAll(ps)), ids)
    ensures Saved(NormalAll(ps), ids) == Saved(ps, ids)
  {
    var os, qs := Flat(ps), NormalAll(ps);
    NormalAt(ps);
    NormalFlat(ps);
    FlatNormal(ps);
    NormalOwnedAt(os);
    NormalSelected(os, ids, true);
    NormalSelected(os, ids, false);
    NormalSections(ps);
    forall i | 0 <= i < |ps| ensures Strip(qs[i].name) == Strip(ps[i].name) { StripTwice(ps[i].name); }
    SameModels(os, NormalOwned(os), ids);
  }

  lemma SameModels(os: seq<Owned>, ns: seq<Owned>, ids: seq<string>)
    requires Identified(os, ids) && |ns| == |os| && forall k | 0 <= k < |os| :: ns[k].model == os[k].model
    ensures Identified(ns, ids)
  {
  }

  lemma NormalTidyAll(ps: seq<Provider>)
    requires Savable(ps) && AddressesNormal(ps)
    ensures TidyAll(NormalAll(ps))
  {
    NormalAt(ps);
    var sections := Sections(ps).value;
    forall i | 0 <= i < |ps| ensures Tidy(NormalAll(ps)[i]) && |sections| == |ps| && sections[i].keys == NormalAll(ps)[i].keys {
      SectionAt(ps, i);
      NormalTidy(ps[i]);
    }
  }

  // ---- conservation ----

  /** What comes back of a provider: itself as it is written, and its models, active ones first. */
  ghost predicate Comes(p: Provider, back: Provider) {
    && back.(models := []) == Normal(p).(models := [])
    && NoIds(back.models) == Shapes(p, p.models, true) + Shapes(p, p.models, false)
  }

  /** Everything a save was given comes back. */
  ghost predicate AllCome(ps: seq<Provider>, loaded: Result<seq<Provider>>) {
    loaded.Success? && |loaded.value| == |ps| && forall i | 0 <= i < |ps| :: Comes(ps[i], loaded.value[i])
  }

  lemma TidyComes(ps: seq<Provider>, ids: seq<string>, i: nat)
    requires Savable(ps) && Identified(Flat(ps), ids) && TidyAll(ps) && KeysFindable(ps) && i < |ps|
    ensures |Restored(Saved(ps, ids))| == |ps| && Comes(ps[i], Restored(Saved(ps, ids))[i])
  {
    RoundTrip(ps, ids);
    CoresCome(ps, ids, i, Restored(Saved(ps, ids))[i]);
  }

  lemma CoresCome(ps: seq<Provider>, ids: seq<string>, i: nat, back: Provider)
    requires Dumpable(ps) && |ids| == |Flat(ps)| && TidyAll(ps) && i < |ps|
    requires back == ps[i].(models := Cores(Flat(ps), ids, true, ps[i].name) + Cores(Flat(ps), ids, false, ps[i].name))
    ensures Comes(ps[i], back)
  {
    var os, name := Flat(ps), ps[i].name;
    SectionAt(ps, i);
    assert Tidy(ps[i]);
    TidyNormalized(ps[i]);
    forall k | 0 <= k < |os| ensures Tidy(os[k].provider) { var j := FlatFrom(ps, k); }
    CoreShapes(os, ids, true, name);
    CoreShapes(os, ids, false, name);
    NoIdsConcat(Cores(os, ids, true, name), Cores(os, ids, false, name));
    ShapesOfProvider(ps, i, true);
    ShapesOfProvider(ps, i, false);
  }

  lemma {:induction false} NormalShapes(p: Provider, ms: seq<Model>, on: bool)
    requires NormalizedKeys(p).Success? && NotBlank(p.base) && forall k | 0 <= k < |ms| :: CanSave(p, ms[k])
    ensures Shapes(Normal(p), ms, on) == Shapes(p, ms, on)
  {
    if ms != [] {
      NormalShapes(p, ms[..|ms| - 1], on);
      NormalSaves(p, ms[|ms| - 1], "");
    }
  }

  /** What comes back of the normal form is what comes back of the provider. */
  lemma NormalComes(ps: seq<Provider>, i: nat, back: Provider)
    requires Dumpable(ps) && AddressesNormal(ps) && i < |ps|
    ensures Comes(Normal(ps[i]), back) <==> Comes(ps[i], back)
  {
    var p := ps[i];
    SectionAt(ps, i);
    forall k | 0 <= k < |p.models| ensures CanSave(p, p.models[k]) { var at := FlatHas(ps, i, k); }
    NormalTidy(p);
    StripTwice(p.name);
    NormalShapes(p, p.models, true);
    NormalShapes(p, p.models, false);
    assert Normal(Normal(p)) == Normal(p);
  }

  /** All keys of a provider are told apart by their values, and every model uses a trimmed one. */
  predicate Findable(ps: seq<Provider>) {
    && (forall i | 0 <= i < |ps| :: ValuesDistinct(Normal(ps[i]).keys))
    && AllTrimmed(Flat(ps))
  }

  lemma NormalTrimmed(o: Owned)
    requires NormalizedKeys(o.provider).Success? && NotBlank(o.provider.base)
    ensures UsesTrimmed(Owned(Normal(o.provider), o.model)) <==> UsesTrimmed(o)
  {
    NormalSaves(o.provider, o.model, "");
  }

  lemma {:induction false} NormalAllTrimmed(os: seq<Owned>)
    requires OwnersNormal(os)
    ensures AllTrimmed(NormalOwned(os)) <==> AllTrimmed(os)
  {
    if os != [] {
      NormalAllTrimmed(os[..|os| - 1]);
      NormalTrimmed(os[|os| - 1]);
      NormalOwnedAt(os[..|os| - 1]);
      var front := NormalOwned(os[..|os| - 1]);
      assert NormalOwned(os)[..|front|] == front;
    }
  }

  lemma NormalFindable(ps: seq<Provider>)
    requires Dumpable(ps) && AddressesNormal(ps)
    ensures KeysFindable(NormalAll(ps)) <==> Findable(ps)
  {
    NormalAt(ps);
    NormalFlat(ps);
    FlatNormal(ps);
    NormalAllTrimmed(Flat(ps));
  }

  /**
   Saving and loading keeps every provider and, for each model, its own switch, its
   key and its order: active models come first, the rest behind them, none is lost.
   */
  lemma SaveThenLoad(ps: seq<Provider>, ids: seq<string>)
    requires Savable(ps) && Identified(Flat(ps), ids) && AddressesNormal(ps) && Findable(ps)
    ensures AllCome(ps, Loaded(Saved(ps, ids)))
    ensures forall i | 0 <= i < |ps| ::
              multiset(NoIds(Loaded(Saved(ps, ids)).value[i].models)) == multiset(AllShapes(ps[i], ps[i].models))
  {
    var qs, back := NormalAll(ps), Restored(Saved(ps, ids));
    SavedReadable(ps, ids);
    NormalAt(ps);
    NormalSaved(ps, ids);
    NormalTidyAll(ps);
    NormalFindable(ps);
    forall i | 0 <= i < |ps|
      ensures |back| == |ps| && Comes(ps[i], back[i])
      ensures multiset(NoIds(back[i].models)) == multiset(AllShapes(ps[i], ps[i].models))
    {
      TidyComes(qs, ids, i);
      NormalComes(ps, i, back[i]);
      SplitConserves(ps[i], ps[i].models);
    }
  }

  // ---- model names ----

  lemma {:induction false} SlashFound(prefix: string, rest: string, i: nat)
    requires i <= |prefix| && '/' !in prefix
    ensures SlashAt(prefix + "/" + rest, i) == Some(|prefix|)
    decreases |prefix| - i
  {
    var s := prefix + "/" + rest;
    if i < |prefix| {
      assert s[i] == prefix[i] && prefix[i] in prefix;
      SlashFound(prefix, rest, i + 1);
    }
  }

  /** Whatever prefix a model had, its canonical name stays as it is from then on. */
  lemma CanonicalTwice(value: string, surface: string, adapter: Option<string>)
    requires adapter.Some? ==> IsAdapter(adapter.value)
    ensures var once := Canonical(value, surface, adapter); Canonical(once, surface, adapter) == once
  {
    var prefix := adapter.GetOr(if surface == "anthropic" then "anthropic" else "openai");
    var model := Strip(value);
    var slash := SlashAt(model, 0);
    var raw := if slash.Some? && IsAdapter(model[..slash.value]) then Strip(model[slash.value + 1..]) else model;
    StripTwice(value);
    if slash.Some? { StripTwice(model[slash.value + 1..]); }
    if raw != "" { Prefixed(prefix, raw, surface, adapter); }
  }

  lemma Prefixed(prefix: string, raw: string, surface: string, adapter: Option<string>)
    requires IsAdapter(prefix) && prefix == adapter.GetOr(if surface == "anthropic" then "anthropic" else "openai")
    requires raw != "" && Strip(raw) == raw && !IsSpace(raw[0]) && !IsSpace(raw[|raw| - 1])
    ensures Canonical(prefix + "/" + raw, surface, adapter) == prefix + "/" + raw
  {
    hide Strip;
    var whole := prefix + "/" + raw;
    assert whole[0] == prefix[0] && whole[|whole| - 1] == raw[|raw| - 1];
    StripPadded("", whole, "");
    assert "" + whole + "" == whole;
    SlashFound(prefix, raw, 0);
    Parts(prefix, raw);
  }

  lemma Parts(prefix: string, raw: string)
    ensures var whole := prefix + "/" + raw; whole[..|prefix|] == prefix && whole[|prefix| + 1..] == raw
  {
  }
}
