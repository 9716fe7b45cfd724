/** Loading: providers from their sections, and every entry as a model of the provider it belongs to. */
module ProviderLoading {
  import opened Wrappers
  import opened PythonText
  import opened FreshNames
  import opened ProviderDocuments

  // ---- keys of a section ----

  predicate HasValue(keys: seq<Key>, value: string) { exists i | 0 <= i < |keys| :: keys[i].value == value }

  /** Keys with a value; of those that share a name or a value only the first stays. */
  function LoadedKeys(provider: string, keys: seq<Key>): seq<Key> {
    if keys == [] then []
    else
      var front, last := LoadedKeys(provider, keys[..|keys| - 1]), NormalKey(provider, keys[|keys| - 1], |keys|);
      if last.value == "" || HasName(front, last.name) || HasValue(front, last.value) then front else front + [last]
  }

  function ToEditor(s: Section): Provider {
    Provider(s.name, s.enabled, s.base, s.adapter, LoadedKeys(s.name, s.keys), [])
  }

  function ToEditors(sections: seq<Section>): seq<Provider> {
    if sections == [] then [] else ToEditors(sections[..|sections| - 1]) + [ToEditor(sections[|sections| - 1])]
  }

  // ---- whose entry it is ----

  /** A provider and the name of one of its keys. */
  datatype Place = Place(provider: string, keyName: string)

  datatype Tables = Tables(
    byPair: map<(string, string), Place>,
    byKey: map<string, Place>,
    byBase: map<string, string>,
    byKeyId: map<string, Place>,
    keys: map<string, seq<Key>>)

  const NoTables := Tables(map[], map[], map[], map[], map[])

  function WithKey(t: Tables, p: Provider, k: Key): Tables {
    var place := Place(p.name, Strip(k.name));
    t.(byKeyId := if Strip(k.id) != "" then t.byKeyId[Strip(k.id) := place] else t.byKeyId,
       byPair := if p.base != "" && k.value != "" && (p.base, k.value) !in t.byPair
                 then t.byPair[(p.base, k.value) := place] else t.byPair,
       byKey := if k.value != "" && k.value !in t.byKey then t.byKey[k.value := place] else t.byKey)
  }

  function WithKeys(t: Tables, p: Provider, keys: seq<Key>): Tables {
    if keys == [] then t else WithKey(WithKeys(t, p, keys[..|keys| - 1]), p, keys[|keys| - 1])
  }

  function WithProvider(t: Tables, p: Provider): Tables {
    var u := WithKeys(t, p, p.keys);
    u.(keys := u.keys[p.name := p.keys],
       byBase := if p.base != "" && p.base !in u.byBase then u.byBase[p.base := p.name] else u.byBase)
  }

  function TablesOf(ps: seq<Provider>): Tables {
    if ps == [] then NoTables else WithProvider(TablesOf(ps[..|ps| - 1]), ps[|ps| - 1])
  }

  /** The provider of an entry and its key's name: by key id, as written, or by what its key or address tells. */
  function Located(t: Tables, ps: seq<Provider>, e: Entry, base: string, key: string): Place {
    var written := Place(Strip(e.provider), Strip(e.keyName));
    var byId := if Strip(e.keyId) != "" && Strip(e.keyId) in t.byKeyId then t.byKeyId[Strip(e.keyId)] else written;
    var byPair := if byId.provider == "" && (base, key) in t.byPair then t.byPair[(base, key)] else byId;
    var byKey := if byPair.provider == "" && key != "" && key in t.byKey then t.byKey[key] else byPair;
    var byBase := if byKey.provider == "" && base != "" && base in t.byBase then byKey.(provider := t.byBase[base])
                  else byKey;
    if byBase.provider == "" && |ps| == 1 then byBase.(provider := ps[0].name) else byBase
  }

  function KeysOf(t: Tables, provider: string): seq<Key> { if provider in t.keys then t.keys[provider] else [] }

  function IdFor(keys: seq<Key>, name: string, value: string, i: nat): string
    decreases |keys| - i
  {
    if i >= |keys| then ""
    else if (name != "" && keys[i].name == name) || (value != "" && keys[i].value == value) then Strip(keys[i].id)
    else IdFor(keys, name, value, i + 1)
  }

  function ModelOf(t: Tables, ps: seq<Provider>, ds: seq<Definition>, e: Entry, listed: bool): Model {
    var base, key := Meaning(ds, e.base), Meaning(ds, e.key);
    var place := Located(t, ps, e, base, key);
    var keys := if place.provider != "" then KeysOf(t, place.provider) else [];
    var valued := if key != "" && place.keyName == "" then ByValue(keys, key, 0) else None;
    var keyName := if valued.Some? then valued.value.name else place.keyName;
    var keyId := if Strip(e.keyId) == "" then IdFor(keys, keyName, key, 0) else Strip(e.keyId);
    Model(place.provider, e.name, e.upstream, e.surface, e.modelEnabled.GetOr(listed), base, keyId, keyName, key,
          if Strip(e.mode) == "" then "manual" else Strip(e.mode), e.manual, Some(e.order), Strip(e.deploymentId), e.rest)
  }

  // ---- appending a model ----

  /** A key's name made from a model's name. */
  function ModelWords(s: string): string {
    if s == "" then ""
    else
      var front, c := ModelWords(s[..|s| - 1]), s[|s| - 1];
      if IsWord(c) || c == '.' then front + [c]
      else if front != "" && front[|front| - 1] == '-' then front else front + "-"
  }

  function KeyNameFromModel(name: string): string {
    var words := ModelWords(Strip(name));
    var t := if words != "" && words[0] == '-' then words[1..] else words;
    var part := if t != "" && t[|t| - 1] == '-' then t[..|t| - 1] else t;
    if part == "" then "imported" else if |part| > 40 then part[..40] else part
  }

  function WithValues(provider: string, keys: seq<Key>): seq<Key> {
    if keys == [] then []
    else
      var front, last := WithValues(provider, keys[..|keys| - 1]), keys[|keys| - 1];
      if last.value == "" then front
      else
        var id := if Strip(last.id) != "" then Strip(last.id) else StableKeyId(provider, Strip(last.name));
        front + [Key(id, Strip(last.name), last.value)]
  }

  function UsedNames(keys: seq<Key>): set<string> { set k | k in keys :: Strip(k.name) }

  /** The provider's keys with one for a value, and the name of that key. */
  function EnsureKey(p: Provider, value: string, preferred: string): (seq<Key>, string) {
    if value == "" then (p.keys, if |p.keys| == 1 then Strip(p.keys[0].name) else "")
    else
      var found := ByValue(p.keys, value, 0);
      if found.Some? && Strip(found.value.name) != "" then (p.keys, Strip(found.value.name))
      else
        var keys := WithValues(p.name, p.keys);
        var name := FirstFree(if Strip(preferred) == "" then DEFAULT_KEY else Strip(preferred), UsedNames(keys), 1);
        (keys + [Key(StableKeyId(p.name, name), name, value)], name)
  }

  function FoundName(keys: seq<Key>, name: string, i: nat): Option<Key>
    decreases |keys| - i
  {
    if i >= |keys| then None else if Strip(keys[i].name) == name then Some(keys[i]) else FoundName(keys, name, i + 1)
  }

  function Extended(p: Provider, m: Model): Provider {
    var preferred := if Strip(m.keyName) != "" then Strip(m.keyName) else KeyNameFromModel(m.name);
    var (keys, name) := EnsureKey(p, Strip(m.keyValue), preferred);
    var found := FoundName(keys, name, 0);
    var id := if found.Some? then Strip(found.value.id) else m.keyId;
    Provider(p.name, p.enabled, if Strip(p.base) == "" then Strip(m.base) else p.base, p.adapter, keys,
             p.models + [if name == "" then m else m.(keyName := name, keyId := id)])
  }

  function NewProvider(m: Model): Provider {
    var name, value := Strip(m.provider), Strip(m.keyValue);
    var keyName := if Strip(m.keyName) != "" then Strip(m.keyName) else DEFAULT_KEY;
    var id := if Strip(m.keyId) != "" then Strip(m.keyId) else StableKeyId(name, keyName);
    Provider(name, true, Strip(m.base), None, if value == "" then [] else [Key(id, keyName, value)], [])
  }

  function Find(ps: seq<Provider>, name: string): Option<nat>
    ensures Find(ps, name).Some? ==> Find(ps, name).value < |ps| && ps[Find(ps, name).value].name == name
  {
    if ps == [] then None
    else if ps[|ps| - 1].name == name then Some(|ps| - 1)
    else Find(ps[..|ps| - 1], name)
  }

  function AppendModel(ps: seq<Provider>, m: Model): seq<Provider> {
    var at := Find(ps, Strip(m.provider));
    if at.Some? then ps[at.value := Extended(ps[at.value], m)]
    else ps + [Extended(NewProvider(m), m)]
  }

  function AppendAll(ps: seq<Provider>, ms: seq<Model>): seq<Provider> {
    if ms == [] then ps else AppendModel(AppendAll(ps, ms[..|ms| - 1]), ms[|ms| - 1])
  }

  function ModelsOf(t: Tables, ps: seq<Provider>, ds: seq<Definition>, es: seq<Entry>, listed: bool): seq<Model> {
    if es == [] then []
    else ModelsOf(t, ps, ds, es[..|es| - 1], listed) + [ModelOf(t, ps, ds, es[|es| - 1], listed)]
  }

  function Restored(d: Document): seq<Provider> {
    var ps, ds := ToEditors(d.sections), Definitions(d.sections);
    var t := TablesOf(ps);
    AppendAll(AppendAll(ps, ModelsOf(t, ps, ds, d.active, true)), ModelsOf(t, ps, [], d.disabled, false))
  }

  function Loaded(d: Document): Result<seq<Provider>> { if Readable(d) then Success(Restored(d)) else Failure }

  // ---- the loops ----

  method ReadKeys(provider: string, raw: seq<Key>) returns (keys: seq<Key>)
    ensures keys == LoadedKeys(provider, raw)
  {
    hide NormalKey;
    keys := [];
    var names: set<string>, values: set<string> := {}, {};
    for i := 0 to |raw|
      invariant keys == LoadedKeys(provider, raw[..i])
      invariant names == (set k | k in keys :: k.name) && values == set k | k in keys :: k.value
    {
      assert raw[..i + 1][..i] == raw[..i];
      var k := NormalKey(provider, raw[i], i + 1);
      HasMembers(keys, k.name, k.value);
      if k.value != "" && k.name !in names && k.value !in values {
        keys := keys + [k];
        names := names + {k.name};
        values := values + {k.value};
      }
    }
    assert raw[..|raw|] == raw;
  }

  lemma HasMembers(keys: seq<Key>, name: string, value: string)
    ensures HasName(keys, name) <==> name in set k | k in keys :: k.name
    ensures HasValue(keys, value) <==> value in set k | k in keys :: k.value
  {
    if HasName(keys, name) { var i :| 0 <= i < |keys| && keys[i].name == name; assert keys[i] in keys; }
    if HasValue(keys, value) { var i :| 0 <= i < |keys| && keys[i].value == value; assert keys[i] in keys; }
  }

  method BuildTables(ps: seq<Provider>) returns (t: Tables)
    ensures t == TablesOf(ps)
  {
    hide WithKey;
    t := NoTables;
    for i := 0 to |ps|
      invariant t == TablesOf(ps[..i])
    {
      assert ps[..i + 1][..i] == ps[..i];
      var p := ps[i];
      for k := 0 to |p.keys|
        invariant t == WithKeys(TablesOf(ps[..i]), p, p.keys[..k])
      {
        assert p.keys[..k + 1][..k] == p.keys[..k];
        t := WithKey(t, p, p.keys[k]);
      }
      assert p.keys[..|p.keys|] == p.keys;
      t := t.(keys := t.keys[p.name := p.keys],
              byBase := if p.base != "" && p.base !in t.byBase then t.byBase[p.base := p.name] else t.byBase);
    }
    assert ps[..|ps|] == ps;
  }

  method ReadProviders(sections: seq<Section>) returns (ps: seq<Provider>)
    ensures ps == ToEditors(sections)
  {
    ps := [];
    for i := 0 to |sections|
      invariant ps == ToEditors(sections[..i])
    {
      assert sections[..i + 1][..i] == sections[..i];
      var s := sections[i];
      var keys := ReadKeys(s.name, s.keys);
      ps := ps + [Provider(s.name, s.enabled, s.base, s.adapter, keys, [])];
    }
    assert sections[..|sections|] == sections;
  }

  method AppendModelToProvider(before: seq<Provider>, m: Model) returns (ps: seq<Provider>)
    ensures ps == AppendModel(before, m)
  {
    var at := Find(before, Strip(m.provider));
    if at.Some? {
      ps := before[at.value := Extended(before[at.value], m)];
    } else {
      ps := before + [Extended(NewProvider(m), m)];
    }
  }

  lemma ReadStep(t: Tables, known: seq<Provider>, ds: seq<Definition>, es: seq<Entry>, listed: bool, i: nat,
                 start: seq<Provider>)
    requires i < |es|
    ensures AppendAll(start, ModelsOf(t, known, ds, es[..i + 1], listed))
            == AppendModel(AppendAll(start, ModelsOf(t, known, ds, es[..i], listed)), ModelOf(t, known, ds, es[i], listed))
  {
    assert es[..i + 1][..i] == es[..i];
    AppendLast(start, ModelsOf(t, known, ds, es[..i], listed), ModelOf(t, known, ds, es[i], listed));
  }

  lemma AppendLast(start: seq<Provider>, ms: seq<Model>, m: Model)
    ensures AppendAll(start, ms + [m]) == AppendModel(AppendAll(start, ms), m)
  {
    assert (ms + [m])[..|ms|] == ms;
  }

  method ReadEntries(t: Tables, known: seq<Provider>, ds: seq<Definition>, es: seq<Entry>, listed: bool,
                     start: seq<Provider>) returns (ps: seq<Provider>)
    ensures ps == AppendAll(start, ModelsOf(t, known, ds, es, listed))
  {
    ps := start;
    for i := 0 to |es|
      invariant ps == AppendAll(start, ModelsOf(t, known, ds, es[..i], listed))
    {
      ReadStep(t, known, ds, es, listed, i, start);
      ps := AppendModelToProvider(ps, ModelOf(t, known, ds, es[i], listed));
    }
    assert es[..|es|] == es;
  }

  method LoadConfigDocument(d: Document) returns (r: Result<seq<Provider>>)
    ensures r == Loaded(d)
  {
    if !Readable(d) {
      return Failure;
    }
    var known := ReadProviders(d.sections);
    var t := BuildTables(known);
    var ps := ReadEntries(t, known, Definitions(d.sections), d.active, true, known);
    ps := ReadEntries(t, known, [], d.disabled, false, ps);
    return Success(ps);
  }
}
