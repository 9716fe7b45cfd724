/** Loading what was saved: every provider gets its own models back, active ones first. */
module ProviderRoundTrip {
  import opened Wrappers
  import opened PythonText
  import opened ProviderDocuments
  import opened ProviderSaving
  import opened ProviderReload
  import opened ProviderLoading

  // ---- tidy providers ----

  predicate TidyKey(k: Key) {
    Strip(k.id) == k.id && k.id != "" && Strip(k.name) == k.name && k.name != "" && k.value != ""
  }

  predicate TidyKeys(keys: seq<Key>) {
    && (forall i | 0 <= i < |keys| :: TidyKey(keys[i]))
    && forall i, j | 0 <= i < j < |keys| :: keys[i].name != keys[j].name
  }

  predicate ValuesDistinct(keys: seq<Key>) { forall i, j | 0 <= i < j < |keys| :: keys[i].value != keys[j].value }

  /** A provider as it is saved: names without blanks around, a base address that is not blank. */
  predicate Tidy(p: Provider) { Strip(p.name) == p.name && NotBlank(p.base) && TidyKeys(p.keys) }

  predicate NotBlank(base: string) { base != "" ==> Strip(base) != "" }

  /** Tidy providers whose key ids are distinct. */
  predicate TidyAll(ps: seq<Provider>) {
    && (forall i | 0 <= i < |ps| :: Tidy(ps[i]))
    && (forall i, a, b | 0 <= i < |ps| && 0 <= a < b < |ps[i].keys| :: ps[i].keys[a].id != ps[i].keys[b].id)
    && forall i, j, a, b | 0 <= i < j < |ps| && 0 <= a < |ps[i].keys| && 0 <= b < |ps[j].keys| ::
         ps[i].keys[a].id != ps[j].keys[b].id
  }

  lemma TidyFront(provider: string, keys: seq<Key>, front: seq<Key>, last: Key)
    requires TidyKeys(keys) && keys != [] && front == keys[..|keys| - 1] && last == keys[|keys| - 1]
    ensures TidyKeys(front) && TidyKey(last) && keys == front + [last] && !HasName(front, last.name)
    ensures NormalKey(provider, last, |keys|) == last
  {
    assert TidyKey(keys[|keys| - 1]);
    forall i | 0 <= i < |front| ensures TidyKey(front[i]) && front[i].name != last.name { assert front[i] == keys[i]; }
    forall i, j | 0 <= i < j < |front| ensures front[i].name != front[j].name {
      assert front[i] == keys[i] && front[j] == keys[j];
    }
  }

  lemma {:induction false} TidyNamed(provider: string, keys: seq<Key>)
    requires TidyKeys(keys)
    ensures NamedKeys(provider, keys) == Success(keys)
  {
    if keys != [] {
      var front, last := keys[..|keys| - 1], keys[|keys| - 1];
      TidyFront(provider, keys, front, last);
      TidyNamed(provider, front);
    }
  }

  lemma {:induction false} TidyLoaded(provider: string, keys: seq<Key>)
    requires TidyKeys(keys) && ValuesDistinct(keys)
    ensures LoadedKeys(provider, keys) == keys
  {
    if keys != [] {
      var front, last := keys[..|keys| - 1], keys[|keys| - 1];
      TidyFront(provider, keys, front, last);
      TidyLoaded(provider, front);
      forall i | 0 <= i < |front| ensures front[i].value != last.value { assert front[i] == keys[i]; }
    }
  }

  lemma TidyNormalized(p: Provider)
    requires Tidy(p) && NormalizedKeys(p).Success?
    ensures NormalizedKeys(p).value == p.keys
  {
    TidyNamed(p.name, p.keys);
  }

  // ---- keys and tables ----

  lemma {:induction false} FoundByName(keys: seq<Key>, a: nat, i: nat)
    requires TidyKeys(keys) && i <= a < |keys|
    ensures FoundName(keys, keys[a].name, i) == Some(keys[a])
    decreases a - i
  {
    assert TidyKey(keys[i]);
    if i < a { FoundByName(keys, a, i + 1); }
  }

  lemma {:induction false} FoundByValue(keys: seq<Key>, a: nat, i: nat)
    requires ValuesDistinct(keys) && i <= a < |keys|
    ensures ByValue(keys, keys[a].value, i) == Some(keys[a])
    decreases a - i
  {
    if i < a { FoundByValue(keys, a, i + 1); }
  }

  /** The key of a model is one of the provider's, and only without any key there is none. */
  lemma KeyOfIs(p: Provider, m: Model) returns (a: nat)
    requires Tidy(p) && CanSave(p, m)
    ensures ModelKey(p, m).None? ==> p.keys == []
    ensures ModelKey(p, m).Some? ==> a < |p.keys| && p.keys[a] == ModelKey(p, m).value && TidyKey(p.keys[a])
  {
    TidyNormalized(p);
    KeyOfFound(p.keys, m);
    var key := ModelKey(p, m);
    a := 0;
    if key.Some? { a :| a < |p.keys| && p.keys[a] == key.value; }
  }

  /** The tables know the keys of a provider by their ids. */
  ghost predicate Knows(t: Tables, p: Provider) {
    && p.name in t.keys && t.keys[p.name] == p.keys
    && KnowsIds(t, p, p.keys)
  }

  ghost predicate KnowsIds(t: Tables, p: Provider, keys: seq<Key>) {
    forall a | 0 <= a < |keys| ::
      keys[a].id in t.byKeyId && t.byKeyId[keys[a].id] == Place(p.name, keys[a].name)
  }

  /** No key has an id of the others. */
  predicate Apart(keys: seq<Key>, others: seq<Key>) {
    forall a, b | 0 <= a < |keys| && 0 <= b < |others| :: keys[a].id != others[b].id
  }

  predicate IdsDistinct(keys: seq<Key>) { forall a, b | 0 <= a < b < |keys| :: keys[a].id != keys[b].id }

  lemma {:induction false} KeysKnown(t: Tables, p: Provider, keys: seq<Key>)
    requires TidyKeys(keys) && IdsDistinct(keys)
    ensures WithKeys(t, p, keys).keys == t.keys && KnowsIds(WithKeys(t, p, keys), p, keys)
  {
    if keys != [] {
      var front, last := keys[..|keys| - 1], keys[|keys| - 1];
      TidyFront(p.name, keys, front, last);
      KeysKnown(t, p, front);
      OneKnown(WithKeys(t, p, front), p, front, last);
    }
  }

  lemma OneKnown(t: Tables, p: Provider, front: seq<Key>, last: Key)
    requires KnowsIds(t, p, front) && TidyKey(last) && forall a | 0 <= a < |front| :: front[a].id != last.id
    ensures KnowsIds(WithKey(t, p, last), p, front + [last]) && WithKey(t, p, last).keys == t.keys
  {
  }

  lemma {:induction false} OthersKept(t: Tables, p: Provider, keys: seq<Key>, q: Provider)
    requires TidyKeys(keys) && Apart(q.keys, keys) && KnowsIds(t, q, q.keys)
    ensures KnowsIds(WithKeys(t, p, keys), q, q.keys)
  {
    if keys != [] {
      var front, last := keys[..|keys| - 1], keys[|keys| - 1];
      TidyFront(p.name, keys, front, last);
      OthersKept(t, p, front, q);
    }
  }

  lemma {:induction false} TablesKnow(ps: seq<Provider>)
    requires TidyAll(ps) && NamesApart(ps)
    ensures forall i | 0 <= i < |ps| :: Knows(TablesOf(ps), ps[i])
  {
    if ps != [] {
      var n := |ps| - 1;
      TablesKnow(ps[..n]);
      forall i | 0 <= i < |ps| ensures Knows(TablesOf(ps), ps[i]) {
        TablesKnowOne(TablesOf(ps[..n]), ps, i);
      }
    }
  }

  lemma TablesKnowOne(t: Tables, ps: seq<Provider>, i: nat)
    requires TidyAll(ps) && i < |ps| && (i < |ps| - 1 ==> Knows(t, ps[i]) && ps[i].name != ps[|ps| - 1].name)
    ensures Knows(WithProvider(t, ps[|ps| - 1]), ps[i])
  {
    var p := ps[|ps| - 1];
    assert Tidy(p);
    KeysKnown(t, p, p.keys);
    if i < |ps| - 1 {
      OthersKept(t, p, p.keys, ps[i]);
    }
  }

  // ---- aliases ----

  function OwnKey(p: Provider, m: Model): string
    requires CanSave(p, m)
  {
    if ModelKey(p, m).Some? then ModelKey(p, m).value.value else ""
  }

  /** What an entry has for base address and key stands for its provider's own. */
  predicate OwnAliases(o: Owned, ds: seq<Definition>)
    requires CanSave(o.provider, o.model)
  {
    var p, m := o.provider, o.model;
    && Meaning(ds, BaseRef(p, Active(p, m))) == p.base
    && Meaning(ds, KeyRef(p, ModelKey(p, m), Active(p, m))) == OwnKey(p, m)
  }

  lemma {:induction false} LookupUnique(ds: seq<Definition>, d: Definition)
    requires AnchorsUnique(ds) && d in ds
    ensures Lookup(ds, d.anchor) == d.text
  {
    var i :| 0 <= i < |ds| && ds[i] == d;
    if i < |ds| - 1 {
      assert ds[..|ds| - 1][i] == d;
      LookupUnique(ds[..|ds| - 1], d);
    }
  }

  /** Where no anchor is used twice, every alias stands for what it was written for. */
  lemma AliasesAreOwn(ps: seq<Provider>, o: Owned, j: nat)
    requires Sections(ps).Success? && AnchorsUnique(Definitions(Sections(ps).value))
    requires j < |ps| && o.provider == ps[j] && Tidy(ps[j]) && CanSave(o.provider, o.model)
    ensures OwnAliases(o, Definitions(Sections(ps).value))
  {
    SectionAt(ps, j);
    TidyNormalized(ps[j]);
    var a := KeyOfIs(o.provider, o.model);
    var ds := Definitions(Sections(ps).value);
    AnchorsMean(Sections(ps).value, ds, j, a);
    RefsMean(ps[j], ModelKey(o.provider, o.model), Active(o.provider, o.model), ds);
  }

  lemma RefsMean(p: Provider, key: Option<Key>, on: bool, ds: seq<Definition>)
    requires p.base != "" ==> Lookup(ds, BaseAnchor(Strip(p.name))) == Some(p.base)
    requires key.Some? ==> Lookup(ds, KeyAnchor(Strip(p.name), key.value.name)) == Some(key.value.value)
    ensures Meaning(ds, BaseRef(p, on)) == p.base
    ensures Meaning(ds, KeyRef(p, key, on)) == if key.Some? then key.value.value else ""
  {
  }

  lemma AnchorsMean(sections: seq<Section>, ds: seq<Definition>, j: nat, a: nat)
    requires j < |sections| && ds == Definitions(sections) && AnchorsUnique(ds)
    ensures sections[j].base != "" ==> Lookup(ds, BaseAnchor(sections[j].name)) == Some(sections[j].base)
    ensures a < |sections[j].keys| ==>
              Lookup(ds, KeyAnchor(sections[j].name, sections[j].keys[a].name)) == Some(sections[j].keys[a].value)
  {
    var s := sections[j];
    if s.base != "" {
      BaseDefined(sections, j);
      LookupUnique(ds, Definition(BaseAnchor(s.name), Some(s.base)));
    }
    if a < |s.keys| {
      KeyDefined(sections, j, a);
      LookupUnique(ds, Definition(KeyAnchor(s.name, s.keys[a].name), Some(s.keys[a].value)));
    }
  }

  lemma BaseDefined(sections: seq<Section>, j: nat)
    requires j < |sections| && sections[j].base != ""
    ensures Definition(BaseAnchor(sections[j].name), Some(sections[j].base)) in Definitions(sections)
  {
    var d := Definition(BaseAnchor(sections[j].name), Some(sections[j].base));
    assert d in SectionDefinitions(sections[j]);
    SectionDefined(sections, j, d);
  }

  lemma KeyDefined(sections: seq<Section>, j: nat, a: nat)
    requires j < |sections| && a < |sections[j].keys|
    ensures Definition(KeyAnchor(sections[j].name, sections[j].keys[a].name), Some(sections[j].keys[a].value))
            in Definitions(sections)
  {
    DefinedKey(sections[j].name, sections[j].keys, a);
    SectionDefined(sections, j,
                   Definition(KeyAnchor(sections[j].name, sections[j].keys[a].name), Some(sections[j].keys[a].value)));
  }

  // ---- one model ----

  /** What a model is loaded as. */
  function Core(p: Provider, m: Model, id: string): Model
    requires CanSave(p, m)
  {
    var key := ModelKey(p, m);
    Model(p.name, Strip(m.name), Canonical(m.upstream, m.surface, p.adapter), m.surface, m.modelEnabled, p.base,
          if key.Some? then key.value.id else "", if key.Some? then key.value.name else "", OwnKey(p, m),
          Mode(m), m.manual, Some(Order(m).value), id, m.rest)
  }

  lemma LoadedAsCore(t: Tables, known: seq<Provider>, ds: seq<Definition>, o: Owned, id: string, listed: bool)
    requires Tidy(o.provider) && Knows(t, o.provider) && CanSave(o.provider, o.model) && IsDeploymentId(id)
    requires OwnAliases(o, ds)
    ensures ModelOf(t, known, ds, EntryOf(o.provider, o.model, id), listed) == Core(o.provider, o.model, id)
  {
    var a := KeyOfIs(o.provider, o.model);
    HexStripped(id);
    ModeStripped(o.model);
    if ModelKey(o.provider, o.model).None? {
      assert KeysOf(t, o.provider.name) == [];
      StripEmpty();
    }
  }

  lemma StripEmpty()
    ensures Strip("") == ""
  {
  }

  lemma ModeStripped(m: Model)
    requires Order(m).Success?
    ensures Strip(Mode(m)) == Mode(m) && Mode(m) != ""
  {
    StripPadded("", Mode(m), "");
    assert "" + Mode(m) + "" == Mode(m);
  }

  // ---- appending models ----

  function Own(ms: seq<Model>, name: string): seq<Model> {
    if ms == [] then []
    else
      var front, last := Own(ms[..|ms| - 1], name), ms[|ms| - 1];
      if last.provider == name then front + [last] else front
  }

  /** Appending the model to the provider changes nothing else there. */
  ghost predicate Fits(p: Provider, m: Model) {
    m.provider == p.name && Strip(m.provider) == p.name
    && forall ms: seq<Model> :: Extended(p.(models := ms), m) == p.(models := ms + [m])
  }

  predicate NamesApart(ps: seq<Provider>) { forall i, j | 0 <= i < j < |ps| :: ps[i].name != ps[j].name }

  lemma {:induction false} FindAt(ps: seq<Provider>, i: nat)
    requires NamesApart(ps) && i < |ps|
    ensures Find(ps, ps[i].name) == Some(i)
  {
    if i < |ps| - 1 { FindAt(ps[..|ps| - 1], i); }
  }

  /** The providers with their own models of a list behind the ones they had. */
  ghost predicate Grouped(ps: seq<Provider>, qs: seq<Provider>, ms: seq<Model>) {
    |qs| == |ps| && forall i | 0 <= i < |ps| :: qs[i] == ps[i].(models := ps[i].models + Own(ms, ps[i].name))
  }

  ghost predicate AllFit(ps: seq<Provider>, ms: seq<Model>) {
    forall k | 0 <= k < |ms| :: FitsIn(ps, ms[k])
  }

  lemma {:induction false} AppendGroups(ps: seq<Provider>, ms: seq<Model>)
    requires NamesApart(ps) && AllFit(ps, ms)
    ensures Grouped(ps, AppendAll(ps, ms), ms)
  {
    if ms != [] {
      var n := |ms| - 1;
      AppendGroups(ps, ms[..n]);
      assert FitsIn(ps, ms[n]);
      var i :| 0 <= i < |ps| && Fits(ps[i], ms[n]);
      GroupStep(ps, AppendAll(ps, ms[..n]), ms, i);
    }
  }

  lemma GroupStep(ps: seq<Provider>, qs: seq<Provider>, ms: seq<Model>, i: nat)
    requires NamesApart(ps) && ms != [] && Grouped(ps, qs, ms[..|ms| - 1])
    requires i < |ps| && Fits(ps[i], ms[|ms| - 1])
    ensures Grouped(ps, AppendModel(qs, ms[|ms| - 1]), ms)
  {
    var m := ms[|ms| - 1];
    FindAt(qs, i);
    var before := ps[i].models + Own(ms[..|ms| - 1], ps[i].name);
    assert qs[i] == ps[i].(models := before);
    assert Extended(qs[i], m) == ps[i].(models := before + [m]);
    assert before + [m] == ps[i].models + (Own(ms[..|ms| - 1], ps[i].name) + [m]);
  }

  /** A key that is found again by its value as loading compares it, or not looked for. */
  predicate Trimmed(k: Key) { Strip(k.value) == k.value || Strip(k.value) == "" }

  predicate UsesTrimmed(o: Owned) {
    CanSave(o.provider, o.model) && ModelKey(o.provider, o.model).Some? ==> Trimmed(ModelKey(o.provider, o.model).value)
  }

  /** A model that uses a trimmed key fits where it is appended. */
  lemma CoreFits(o: Owned, id: string, bare: Provider)
    requires Tidy(o.provider) && CanSave(o.provider, o.model) && bare == o.provider.(models := [])
    requires ValuesDistinct(o.provider.keys) && UsesTrimmed(o)
    ensures Fits(bare, Core(o.provider, o.model, id))
  {
    var p := o.provider;
    var a := KeyOfIs(p, o.model);
    var c := Core(p, o.model, id);
    StripEmpty();
    if ModelKey(p, o.model).Some? {
      FoundByName(p.keys, a, 0);
      FoundByValue(p.keys, a, 0);
      assert c.(keyName := p.keys[a].name, keyId := p.keys[a].id) == c;
      if Strip(c.keyValue) == "" && |p.keys| != 1 { BlankUnfound(p, c); }
    }
    forall ms: seq<Model> ensures Extended(bare.(models := ms), c) == bare.(models := ms + [c]) { }
  }

  /** Without a value to look for, a model of several keys keeps its own. */
  lemma BlankUnfound(p: Provider, c: Model)
    requires Tidy(p) && Strip(c.keyValue) == "" && |p.keys| != 1
    ensures FoundName(p.keys, "", 0).None?
  {
    NoBlankName(p.keys, 0);
  }

  lemma {:induction false} NoBlankName(keys: seq<Key>, i: nat)
    requires TidyKeys(keys)
    ensures FoundName(keys, "", i).None?
    decreases |keys| - i
  {
    if i < |keys| {
      assert TidyKey(keys[i]);
      NoBlankName(keys, i + 1);
    }
  }

  // ---- the models of one provider ----

  /** What the models of one provider, active or not, are loaded as. */
  function Cores(os: seq<Owned>, ids: seq<string>, on: bool, name: string): seq<Model>
    requires |ids| == |os| && AllSavable(os)
  {
    if os == [] then []
    else
      var n := |os| - 1;
      var front := Cores(os[..n], ids[..n], on, name);
      if Active(os[n].provider, os[n].model) == on && os[n].provider.name == name
      then front + [Core(os[n].provider, os[n].model, ids[n])] else front
  }

  /** All owned models stand under tidy providers the tables know, and their entries mean what they should. */
  ghost predicate AllKnown(t: Tables, os: seq<Owned>, on: bool, ds: seq<Definition>)
    requires AllSavable(os)
  {
    forall i | 0 <= i < |os| ::
      Tidy(os[i].provider) && Knows(t, os[i].provider)
      && (Active(os[i].provider, os[i].model) == on ==> OwnAliases(os[i], ds))
  }

  lemma {:induction false} LoadedCores(t: Tables, known: seq<Provider>, ds: seq<Definition>, os: seq<Owned>,
                                       ids: seq<string>, on: bool, name: string, listed: bool)
    requires AllSavable(os) && Identified(os, ids) && AllKnown(t, os, on, ds)
    ensures Own(ModelsOf(t, known, ds, Select(os, ids, on), listed), name) == Cores(os, ids, on, name)
  {
    if os != [] {
      var n := |os| - 1;
      IdentifiedFront(os, ids);
      KnownFront(t, os, on, ds);
      LoadedCores(t, known, ds, os[..n], ids[..n], on, name, listed);
      var o := os[n];
      if Active(o.provider, o.model) == on {
        LoadedAsCore(t, known, ds, o, ids[n], listed);
        OwnLast(ModelsOf(t, known, ds, Select(os[..n], ids[..n], on), listed), Core(o.provider, o.model, ids[n]), name);
        SelectLast(t, known, ds, Select(os[..n], ids[..n], on), EntryOf(o.provider, o.model, ids[n]), listed);
      }
    }
  }

  lemma KnownFront(t: Tables, os: seq<Owned>, on: bool, ds: seq<Definition>)
    requires os != [] && AllSavable(os) && AllKnown(t, os, on, ds)
    ensures var n := |os| - 1;
            AllSavable(os[..n]) && AllKnown(t, os[..n], on, ds) && Tidy(os[n].provider) && Knows(t, os[n].provider)
            && (Active(os[n].provider, os[n].model) == on ==> OwnAliases(os[n], ds))
  {
    var front := os[..|os| - 1];
    assert forall i | 0 <= i < |front| :: front[i] == os[i];
  }

  lemma OwnLast(ms: seq<Model>, m: Model, name: string)
    ensures Own(ms + [m], name) == Own(ms, name) + if m.provider == name then [m] else []
  {
    assert (ms + [m])[..|ms|] == ms;
  }

  lemma SelectLast(t: Tables, known: seq<Provider>, ds: seq<Definition>, es: seq<Entry>, e: Entry, listed: bool)
    ensures ModelsOf(t, known, ds, es + [e], listed)
            == ModelsOf(t, known, ds, es, listed) + [ModelOf(t, known, ds, e, listed)]
  {
    assert (es + [e])[..|es|] == es;
  }

  // ---- the sections ----

  function Bare(ps: seq<Provider>): seq<Provider> {
    if ps == [] then [] else Bare(ps[..|ps| - 1]) + [ps[|ps| - 1].(models := [])]
  }

  lemma {:induction false} BareAt(ps: seq<Provider>)
    ensures |Bare(ps)| == |ps| && forall i | 0 <= i < |ps| :: Bare(ps)[i] == ps[i].(models := [])
  {
    if ps != [] { BareAt(ps[..|ps| - 1]); }
  }

  /** The sections are read back as the providers without their models. */
  lemma {:induction false} SectionsRead(ps: seq<Provider>)
    requires (forall i | 0 <= i < |ps| :: Tidy(ps[i]) && ValuesDistinct(ps[i].keys)) && Sections(ps).Success?
    ensures ToEditors(Sections(ps).value) == Bare(ps)
  {
    if ps != [] {
      var n := |ps| - 1;
      SectionsRead(ps[..n]);
      TidyNormalized(ps[n]);
      TidyLoaded(ps[n].name, ps[n].keys);
      var front, last := Sections(ps[..n]).value, SectionOf(ps[n]).value;
      assert (front + [last])[..|front|] == front;
    }
  }

  // ---- the round trip ----

  lemma TidyBare(ps: seq<Provider>)
    requires TidyAll(ps) && NamesDistinct(ps)
    ensures TidyAll(Bare(ps)) && NamesApart(Bare(ps)) && NamesApart(ps)
  {
    BareAt(ps);
    forall i | 0 <= i < |ps| ensures Tidy(Bare(ps)[i]) && Strip(ps[i].name) == ps[i].name { assert Tidy(ps[i]); }
  }

  /** The definitions a list of entries is read with: the second text has none. */
  function DefinitionsFor(ps: seq<Provider>, on: bool): seq<Definition>
    requires Sections(ps).Success?
  {
    if on then Definitions(Sections(ps).value) else []
  }

  lemma FlatKnown(ps: seq<Provider>, on: bool)
    requires Savable(ps) && TidyAll(ps)
    ensures AllKnown(TablesOf(Bare(ps)), Flat(ps), on, DefinitionsFor(ps, on))
  {
    hide SectionsReadable, TablesOf, Strip;
    TidyBare(ps);
    BareAt(ps);
    TablesKnow(Bare(ps));
    forall k | 0 <= k < |Flat(ps)|
      ensures Tidy(Flat(ps)[k].provider) && Knows(TablesOf(Bare(ps)), Flat(ps)[k].provider)
      ensures Active(Flat(ps)[k].provider, Flat(ps)[k].model) == on ==> OwnAliases(Flat(ps)[k], DefinitionsFor(ps, on))
    {
      FoundKnown(TablesOf(Bare(ps)), ps, Flat(ps)[k], k);
      if on { FoundOwn(ps, Flat(ps)[k], k); }
    }
  }

  lemma FoundKnown(t: Tables, ps: seq<Provider>, o: Owned, k: nat)
    requires TidyAll(ps) && k < |Flat(ps)| && o == Flat(ps)[k]
    requires forall j | 0 <= j < |ps| :: Knows(t, ps[j].(models := []))
    ensures Tidy(o.provider) && Knows(t, o.provider)
  {
    var j := FlatFrom(ps, k);
    assert Tidy(ps[j]) && Knows(t, ps[j].(models := []));
  }

  lemma FoundOwn(ps: seq<Provider>, o: Owned, k: nat)
    requires Savable(ps) && TidyAll(ps) && k < |Flat(ps)| && o == Flat(ps)[k]
    ensures Active(o.provider, o.model) ==> OwnAliases(o, DefinitionsFor(ps, true))
  {
    var j := FlatFrom(ps, k);
    assert Tidy(ps[j]);
    AliasesAreOwn(ps, o, j);
  }

  /** All loaded models fit some of the providers. */
  lemma {:induction false} SelectFits(t: Tables, known: seq<Provider>, ds: seq<Definition>, os: seq<Owned>,
                                      ids: seq<string>, on: bool, listed: bool, qs: seq<Provider>)
    requires AllSavable(os) && Identified(os, ids) && AllKnown(t, os, on, ds)
    requires forall i | 0 <= i < |os| ::
               os[i].provider.(models := []) in qs && ValuesDistinct(os[i].provider.keys) && UsesTrimmed(os[i])
    ensures AllFit(qs, ModelsOf(t, known, ds, Select(os, ids, on), listed))
  {
    hide EntryOf, IsDeploymentId, Core, ModelOf, KeptId, FitsIn, Fits, Tidy, Knows, OwnAliases;
    if os != [] {
      var n := |os| - 1;
      IdentifiedFront(os, ids);
      KnownFront(t, os, on, ds);
      SelectFits(t, known, ds, os[..n], ids[..n], on, listed, qs);
      var o := os[n];
      if Active(o.provider, o.model) == on {
        LoadedAsCore(t, known, ds, o, ids[n], listed);
        SelectLast(t, known, ds, Select(os[..n], ids[..n], on), EntryOf(o.provider, o.model, ids[n]), listed);
        CoreFitsIn(o, ids[n], qs);
        FitLast(qs, ModelsOf(t, known, ds, Select(os[..n], ids[..n], on), listed), Core(o.provider, o.model, ids[n]));
      }
    }
  }

  ghost predicate FitsIn(qs: seq<Provider>, m: Model) { exists i :: 0 <= i < |qs| && Fits(qs[i], m) }

  lemma CoreFitsIn(o: Owned, id: string, qs: seq<Provider>)
    requires Tidy(o.provider) && CanSave(o.provider, o.model) && o.provider.(models := []) in qs
    requires ValuesDistinct(o.provider.keys) && UsesTrimmed(o)
    ensures FitsIn(qs, Core(o.provider, o.model, id))
  {
    CoreFits(o, id, o.provider.(models := []));
    var i :| 0 <= i < |qs| && qs[i] == o.provider.(models := []);
    assert Fits(qs[i], Core(o.provider, o.model, id));
  }

  lemma FitLast(qs: seq<Provider>, ms: seq<Model>, m: Model)
    requires AllFit(qs, ms) && FitsIn(qs, m)
    ensures AllFit(qs, ms + [m])
  {
    forall k | 0 <= k < |ms| ensures FitsIn(qs, ms[k]) { }
  }

  /** Every model uses a trimmed key, and no two keys of a provider share a value. */
  predicate KeysFindable(ps: seq<Provider>) {
    && (forall i | 0 <= i < |ps| :: ValuesDistinct(ps[i].keys))
    && AllTrimmed(Flat(ps))
  }

  predicate AllTrimmed(os: seq<Owned>) {
    os == [] || (AllTrimmed(os[..|os| - 1]) && UsesTrimmed(os[|os| - 1]))
  }

  lemma {:induction false} TrimmedAt(os: seq<Owned>, k: nat)
    requires AllTrimmed(os) && k < |os|
    ensures UsesTrimmed(os[k])
  {
    if k < |os| - 1 { TrimmedAt(os[..|os| - 1], k); }
  }

  /** Every provider with what its models are loaded as, active ones first. */
  ghost predicate Returned(ps: seq<Provider>, ids: seq<string>, loaded: seq<Provider>)
    requires Savable(ps) && |ids| == |Flat(ps)|
  {
    && |loaded| == |ps|
    && forall i | 0 <= i < |ps| ::
         loaded[i] == ps[i].(models := Cores(Flat(ps), ids, true, ps[i].name) + Cores(Flat(ps), ids, false, ps[i].name))
  }

  lemma RoundTrip(ps: seq<Provider>, ids: seq<string>)
    requires Savable(ps) && Identified(Flat(ps), ids) && TidyAll(ps) && KeysFindable(ps)
    ensures Returned(ps, ids, Restored(Saved(ps, ids)))
  {
    var ds, bare, os := Definitions(Sections(ps).value), Bare(ps), Flat(ps);
    var t := TablesOf(bare);
    SectionsRead(ps);
    TidyBare(ps);
    BareAt(ps);
    FlatKnown(ps, true);
    FlatKnown(ps, false);
    forall k | 0 <= k < |os|
      ensures os[k].provider.(models := []) in bare && ValuesDistinct(os[k].provider.keys) && UsesTrimmed(os[k])
    {
      TrimmedAt(os, k);
      var j := FlatFrom(ps, k);
      assert bare[j] in bare;
    }
    var on := ModelsOf(t, bare, ds, Select(os, ids, true), true);
    var off := ModelsOf(t, bare, [], Select(os, ids, false), false);
    SelectFits(t, bare, ds, os, ids, true, true, bare);
    SelectFits(t, bare, [], os, ids, false, false, bare);
    AppendGroups(bare, on);
    var mid := AppendAll(bare, on);
    StillFit(bare, mid, on, off);
    AppendGroups(mid, off);
    forall i | 0 <= i < |ps|
      ensures Own(on, ps[i].name) == Cores(os, ids, true, ps[i].name)
      ensures Own(off, ps[i].name) == Cores(os, ids, false, ps[i].name)
    {
      LoadedCores(t, bare, ds, os, ids, true, ps[i].name, true);
      LoadedCores(t, bare, [], os, ids, false, ps[i].name, false);
    }
    GroupedTwice(ps, bare, mid, AppendAll(mid, off), on, off);
  }

  lemma StillFit(ps: seq<Provider>, qs: seq<Provider>, ms: seq<Model>, more: seq<Model>)
    requires Grouped(ps, qs, ms) && AllFit(ps, more) && NamesApart(ps)
    ensures AllFit(qs, more) && NamesApart(qs)
  {
    forall k | 0 <= k < |more| ensures FitsIn(qs, more[k]) {
      assert FitsIn(ps, more[k]);
      var i :| 0 <= i < |ps| && Fits(ps[i], more[k]);
      forall xs: seq<Model> ensures Extended(qs[i].(models := xs), more[k]) == qs[i].(models := xs + [more[k]]) {
        assert qs[i].(models := xs) == ps[i].(models := xs);
      }
      assert Fits(qs[i], more[k]);
    }
  }

  lemma GroupedTwice(ps: seq<Provider>, bare: seq<Provider>, mid: seq<Provider>, last: seq<Provider>, on: seq<Model>,
                     off: seq<Model>)
    requires |bare| == |ps| && forall i | 0 <= i < |ps| :: bare[i] == ps[i].(models := [])
    requires Grouped(bare, mid, on) && Grouped(mid, last, off)
    ensures |last| == |ps|
    ensures forall i | 0 <= i < |ps| :: last[i] == ps[i].(models := Own(on, ps[i].name) + Own(off, ps[i].name))
  {
    forall i | 0 <= i < |ps|
      ensures last[i] == ps[i].(models := Own(on, ps[i].name) + Own(off, ps[i].name))
    {
      assert mid[i] == ps[i].(models := [] + Own(on, ps[i].name));
      assert [] + Own(on, ps[i].name) == Own(on, ps[i].name);
    }
  }
}
