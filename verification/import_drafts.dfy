/**
 The drafts an import builds up: providers under distinct names, each with its keys
 and with models that refer to them, all counted against shared limits.
 */
module ImportDrafts {
  import opened Wrappers
  import opened FreshNames

  const MAX_PROVIDERS: nat := 500
  const MAX_MODELS: nat := 5000
  const MAX_API_KEYS: nat := 5000

  datatype Key = Key(name: string, value: string)

  datatype Model = Model(provider: string, publicName: string, litellmModel: string, keyName: string, key: string,
                         enabled: bool, modelEnabled: bool)

  datatype Identity = Identity(name: string, base: string)

  // ---- drafts ----

  class ImportQuota {
    var providers: nat
    var models: nat
    var apiKeys: nat

    constructor ()
      ensures providers == models == apiKeys == 0
    {
      providers, models, apiKeys := 0, 0, 0;
    }

    predicate Valid()
      reads this
    {
      providers <= MAX_PROVIDERS && models <= MAX_MODELS && apiKeys <= MAX_API_KEYS
    }

    method AddProvider() returns (ok: bool)
      modifies this`providers
      ensures ok == (old(providers) < MAX_PROVIDERS)
      ensures providers == old(providers) + if ok then 1 else 0
    {
      if providers >= MAX_PROVIDERS {
        return false;
      }
      providers := providers + 1;
      return true;
    }

    method AddModel() returns (ok: bool)
      modifies this`models
      ensures ok == (old(models) < MAX_MODELS)
      ensures models == old(models) + if ok then 1 else 0
    {
      if models >= MAX_MODELS {
        return false;
      }
      models := models + 1;
      return true;
    }

    method AddApiKey() returns (ok: bool)
      modifies this`apiKeys
      ensures ok == (old(apiKeys) < MAX_API_KEYS)
      ensures apiKeys == old(apiKeys) + if ok then 1 else 0
    {
      if apiKeys >= MAX_API_KEYS {
        return false;
      }
      apiKeys := apiKeys + 1;
      return true;
    }
  }

  /** No two keys share a name or a value. */
  predicate KeysDistinct(keys: seq<Key>) {
    && (forall i, j | 0 <= i < j < |keys| :: keys[i].name != keys[j].name && keys[i].value != keys[j].value)
    && forall k | k in keys :: k.name != "" && k.value != ""
  }

  predicate HasValue(keys: seq<Key>, value: string) { exists i | 0 <= i < |keys| :: keys[i].value == value }

  function Names(keys: seq<Key>): set<string> { set k | k in keys :: k.name }

  /** The key used when a model names none: the one called default, or the first. */
  function PreferredKey(keys: seq<Key>): (r: Option<Key>)
    ensures r.Some? <==> keys != []
    ensures r.Some? ==> r.value in keys
    ensures (exists k | k in keys :: k.name == "default") ==> r.Some? && r.value.name == "default"
    ensures keys != [] && (forall k | k in keys :: k.name != "default") ==> r == Some(keys[0])
  {
    var named := NamedDefault(keys, 0);
    if named.Some? then named else if keys != [] then Some(keys[0]) else None
  }

  function NamedDefault(keys: seq<Key>, i: nat): (r: Option<Key>)
    requires i <= |keys|
    ensures r.Some? ==> r.value in keys && r.value.name == "default"
    ensures r.None? ==> forall j | i <= j < |keys| :: keys[j].name != "default"
    decreases |keys| - i
  {
    if i == |keys| then None else if keys[i].name == "default" then Some(keys[i]) else NamedDefault(keys, i + 1)
  }

  class ProviderDraft {
    const name: string
    const base: string
    const quota: ImportQuota
    var enabled: bool
    var apiKeys: seq<Key>
    var models: seq<Model>

    constructor (name: string, base: string, quota: ImportQuota, enabled: bool)
      ensures this.name == name && this.base == base && this.quota == quota && this.enabled == enabled
      ensures apiKeys == [] && models == []
    {
      this.name, this.base, this.quota, this.enabled := name, base, quota, enabled;
      apiKeys, models := [], [];
    }

    /** Keys are distinct and every model refers to a stored key, by name and by value. */
    predicate Valid()
      reads this
    {
      && KeysDistinct(apiKeys)
      && forall m | m in models :: Key(m.keyName, m.key) in apiKeys && m.provider == name
    }

    /** What an editor gets of the draft: nothing unless it has a key. */
    function AsEditor(): (r: Option<EditorProvider>)
      requires Valid()
      reads this
      ensures r.Some? <==> name != "" && base != "" && apiKeys != []
      ensures r.Some? ==> Consistent(r.value) && IsEditorOf(r.value, this)
    {
      var primary := PreferredKey(apiKeys);
      if name == "" || base == "" || apiKeys == [] then None
      else Some(EditorProvider(name, enabled, base, if primary.Some? then primary.value.value else "", apiKeys, models))
    }

    /** A secret is stored once; a second request for it gets the name it was stored under. */
    method AddKey(title: string, secret: string) returns (r: Result<string>)
      requires Valid() && quota.Valid()
      modifies this`apiKeys, quota`apiKeys
      ensures Valid() && quota.Valid()
      ensures secret == "" ==> r == Success("") && apiKeys == old(apiKeys)
      ensures secret != "" && HasValue(old(apiKeys), secret) ==> r.Success? && apiKeys == old(apiKeys)
      ensures secret != "" && !HasValue(old(apiKeys), secret) ==>
                (r.Success? <==> old(quota.apiKeys) < MAX_API_KEYS)
      ensures secret != "" && !HasValue(old(apiKeys), secret) && r.Success? ==>
                && apiKeys == old(apiKeys) + [Key(r.value, secret)]
                && r.value == FirstFree(if title == "" then "default" else title, Names(old(apiKeys)), 1)
      ensures r.Failure? ==> apiKeys == old(apiKeys)
      ensures r.Success? && secret != "" ==> Key(r.value, secret) in apiKeys
      ensures quota.apiKeys - old(quota.apiKeys) == |apiKeys| - |old(apiKeys)|
    {
      if secret == "" {
        return Success("");
      }
      var desired := if title == "" then "default" else title;
      for i := 0 to |apiKeys|
        invariant forall j | 0 <= j < i :: apiKeys[j].value != secret
      {
        if apiKeys[i].value == secret {
          return Success(apiKeys[i].name);
        }
      }
      var keyName, _ := FreshName(desired, Names(apiKeys));
      var ok := quota.AddApiKey();
      if !ok {
        return Failure;
      }
      KeyAppended(apiKeys, Key(keyName, secret));
      apiKeys := apiKeys + [Key(keyName, secret)];
      return Success(keyName);
    }

    /** A model with its own key, or else the preferred one; without either there is no model. */
    method AddModel(publicName: string, sourceModel: string, litellmModel: string, title: string, secret: string,
                    providerEnabled: Option<bool>, modelEnabled: bool) returns (ok: bool)
      requires Valid() && quota.Valid()
      modifies this`apiKeys, this`models, quota`apiKeys, quota`models
      ensures Valid() && quota.Valid()
      ensures old(apiKeys) <= apiKeys && |apiKeys| <= |old(apiKeys)| + 1
      ensures quota.apiKeys - old(quota.apiKeys) == |apiKeys| - |old(apiKeys)|
      ensures quota.models - old(quota.models) == |models| - |old(models)|
      ensures models == old(models) || (|models| == |old(models)| + 1 && models[..|old(models)|] == old(models))
      ensures models != old(models) ==>
                var m := models[|models| - 1];
                && ok && m.publicName == publicName && m.litellmModel == litellmModel && m.modelEnabled == modelEnabled
                && m.enabled == (providerEnabled.GetOr(enabled) && modelEnabled)
                && (if secret != "" then m.key == secret else PreferredKey(apiKeys) == Some(Key(m.keyName, m.key)))
      ensures sourceModel == "" || publicName == "" || litellmModel == "" || secret == "" ==> apiKeys == old(apiKeys)
      ensures apiKeys != old(apiKeys) ==>
                apiKeys == old(apiKeys)
                           + [Key(FirstFree(if title == "" then publicName else title, Names(old(apiKeys)), 1), secret)]
      ensures !ok <==>
                && publicName != "" && sourceModel != "" && litellmModel != ""
                && ((secret != "" && !HasValue(old(apiKeys), secret) && old(quota.apiKeys) == MAX_API_KEYS)
                    || ((secret != "" || old(apiKeys) != []) && old(quota.models) == MAX_MODELS))
      ensures ok ==> (models != old(models) <==>
                        && publicName != "" && sourceModel != "" && litellmModel != ""
                        && (secret != "" || old(apiKeys) != []))
    {
      if sourceModel == "" || publicName == "" || litellmModel == "" {
        return true;
      }
      var keyName, modelKey := "", secret;
      if modelKey != "" {
        var added := AddKey(if title != "" then title else publicName, modelKey);
        if added.Failure? {
          return false;
        }
        keyName := added.value;
      }
      var preferred := PreferredKey(apiKeys);
      if keyName == "" && preferred.Some? {
        keyName, modelKey := preferred.value.name, preferred.value.value;
      }
      if keyName == "" || modelKey == "" {
        return true;
      }
      var counted := quota.AddModel();
      if !counted {
        return false;
      }
      models := models + [Model(name, publicName, litellmModel, keyName, modelKey,
                                providerEnabled.GetOr(enabled) && modelEnabled, modelEnabled)];
      return true;
    }
  }

  datatype EditorProvider = EditorProvider(name: string, enabled: bool, base: string, apiKey: string,
                                           apiKeys: seq<Key>, models: seq<Model>)

  /** A draft as an editor gets it. */
  predicate IsEditorOf(p: EditorProvider, item: ProviderDraft)
    reads item
  {
    && p.name == item.name && p.base == item.base && p.enabled == item.enabled
    && p.apiKeys == item.apiKeys && p.models == item.models
    && item.apiKeys != [] && PreferredKey(item.apiKeys).Some? && p.apiKey == PreferredKey(item.apiKeys).value.value
  }

  predicate IsShown(item: ProviderDraft)
    reads item
  {
    item.name != "" && item.base != "" && item.apiKeys != []
  }

  /** The drafts an editor gets, in order. */
  function Shown(items: seq<ProviderDraft>): seq<ProviderDraft>
    reads items
  {
    if items == [] then []
    else
      var front, last := Shown(items[..|items| - 1]), items[|items| - 1];
      if IsShown(last) then front + [last] else front
  }

  /** Providers are the drafts as an editor gets them, one for one. */
  predicate Editors(providers: seq<EditorProvider>, shown: seq<ProviderDraft>)
    reads shown
  {
    |providers| == |shown| && forall i | 0 <= i < |providers| :: IsEditorOf(providers[i], shown[i])
  }

  lemma EditorsLast(providers: seq<EditorProvider>, shown: seq<ProviderDraft>, p: EditorProvider, item: ProviderDraft)
    requires Editors(providers, shown) && IsEditorOf(p, item)
    ensures Editors(providers + [p], shown + [item])
  {
  }

  lemma {:induction false} ShownWithin(items: seq<ProviderDraft>, usedNames: set<string>, quota: ImportQuota)
    requires Named(items, usedNames, quota)
    ensures forall i | 0 <= i < |Shown(items)| :: Shown(items)[i] in items
    ensures forall i, j | 0 <= i < j < |Shown(items)| :: Shown(items)[i].name != Shown(items)[j].name
  {
    if items != [] {
      var front := items[..|items| - 1];
      ShownWithin(front, usedNames, quota);
      forall i | 0 <= i < |Shown(front)| ensures Shown(front)[i].name != items[|items| - 1].name {
        assert Shown(front)[i] in front;
      }
    }
  }

  lemma EditorsFit(providers: seq<EditorProvider>, items: seq<ProviderDraft>, usedNames: set<string>, quota: ImportQuota)
    requires Named(items, usedNames, quota) && AllValid(items) && Editors(providers, Shown(items))
    ensures forall i | 0 <= i < |providers| :: Consistent(providers[i])
    ensures forall i, j | 0 <= i < j < |providers| :: providers[i].name != providers[j].name
  {
    ShownWithin(items, usedNames, quota);
    forall i | 0 <= i < |providers| ensures Consistent(providers[i]) {
      var item := Shown(items)[i];
      var k :| 0 <= k < |items| && items[k] == item;
      assert IsEditorOf(providers[i], item) && items[k].Valid();
    }
    forall i, j | 0 <= i < j < |providers| ensures providers[i].name != providers[j].name {
      assert IsEditorOf(providers[i], Shown(items)[i]) && IsEditorOf(providers[j], Shown(items)[j]);
    }
  }

  /** A provider an editor may show: its keys are distinct and all that refers to a key refers to one of them. */
  predicate Consistent(p: EditorProvider) {
    && KeysDistinct(p.apiKeys)
    && (exists k | k in p.apiKeys :: k.value == p.apiKey)
    && forall m | m in p.models :: Key(m.keyName, m.key) in p.apiKeys && m.provider == p.name
  }

  lemma KeyAppended(keys: seq<Key>, key: Key)
    requires key.name != "" && key.value != ""
    requires KeysDistinct(keys) && key.name !in Names(keys) && !HasValue(keys, key.value)
    ensures KeysDistinct(keys + [key])
  {
    forall i | 0 <= i < |keys| ensures keys[i].name != key.name && keys[i].value != key.value {
      assert keys[i] in keys;
    }
  }

  // ---- all drafts ----

  function KeyCount(items: seq<ProviderDraft>): nat
    reads items
  {
    if items == [] then 0 else KeyCount(items[..|items| - 1]) + |items[|items| - 1].apiKeys|
  }

  function ModelCount(items: seq<ProviderDraft>): nat
    reads items
  {
    if items == [] then 0 else ModelCount(items[..|items| - 1]) + |items[|items| - 1].models|
  }

  predicate Named(items: seq<ProviderDraft>, usedNames: set<string>, quota: ImportQuota) {
    && (forall i | 0 <= i < |items| :: items[i].quota == quota && items[i].name in usedNames)
    && forall i, j | 0 <= i < j < |items| :: items[i].name != items[j].name
  }

  /** Every draft has exactly one identity, with its base address. */
  ghost predicate Identified(items: seq<ProviderDraft>, byIdentity: map<Identity, ProviderDraft>) {
    && (forall id | id in byIdentity :: byIdentity[id] in items && byIdentity[id].base == id.base)
    && (forall id, other | id in byIdentity && other in byIdentity && id != other ::
          byIdentity[id] != byIdentity[other])
    && forall item | item in items :: exists id :: id in byIdentity && byIdentity[id] == item
  }

  lemma NamedAppend(items: seq<ProviderDraft>, usedNames: set<string>, quota: ImportQuota, item: ProviderDraft)
    requires Named(items, usedNames, quota) && item.quota == quota && item.name !in usedNames
    ensures Named(items + [item], usedNames + {item.name}, quota)
  {
  }

  lemma IdentifiedAppend(items: seq<ProviderDraft>, byIdentity: map<Identity, ProviderDraft>, id: Identity,
                         item: ProviderDraft)
    requires Identified(items, byIdentity) && id !in byIdentity && item !in items && item.base == id.base
    ensures Identified(items + [item], byIdentity[id := item])
  {
    var all, more := items + [item], byIdentity[id := item];
    forall x | x in all ensures exists other :: other in more && more[other] == x {
      if x in items {
        var other :| other in byIdentity && byIdentity[other] == x;
        assert more[other] == x;
      } else {
        assert more[id] == x;
      }
    }
  }

  predicate AllValid(items: seq<ProviderDraft>)
    reads items
  {
    forall i | 0 <= i < |items| :: items[i].Valid()
  }

  class Drafts {
    var items: seq<ProviderDraft>
    var byIdentity: map<Identity, ProviderDraft>
    var usedNames: set<string>
    const quota: ImportQuota
    var skipped: nat

    constructor ()
      ensures Valid() && fresh(quota) && items == [] && skipped == 0
    {
      items, byIdentity, usedNames, skipped := [], map[], {}, 0;
      quota := new ImportQuota();
    }

    /** Provider names are distinct, one draft belongs to each identity, and the quota counts what there is. */
    ghost predicate Valid()
      reads this, items, quota
    {
      && Named(items, usedNames, quota) && Identified(items, byIdentity)
      && AllValid(items)
      && quota.Valid() && quota.providers == |items|
      && quota.apiKeys == KeyCount(items) && quota.models == ModelCount(items)
    }

    /** The draft of a name and base address: the one made before, or a new one under a name nobody has. */
    method Provider(name: string, base: string, on: bool) returns (r: Result<Option<ProviderDraft>>)
      requires Valid()
      modifies this, quota`providers,
               if name != "" && base != "" && Identity(name, base) in byIdentity then {byIdentity[Identity(name, base)]} else {}
      ensures Valid()
      ensures name == "" || base == "" ==>
                r == Success(None) && skipped == old(skipped) + 1 && items == old(items) && byIdentity == old(byIdentity)
      ensures name != "" && base != "" ==>
                var id := Identity(name, base);
                if id in old(byIdentity) then
                  && r == Success(Some(old(byIdentity[id]))) && items == old(items) && byIdentity == old(byIdentity)
                  && old(byIdentity[id]).enabled == (old(byIdentity[id].enabled) && on)
                  && old(byIdentity[id]).apiKeys == old(byIdentity[id].apiKeys)
                  && old(byIdentity[id]).models == old(byIdentity[id].models)
                else if |old(items)| < MAX_PROVIDERS then
                  && r.Success? && r.value.Some? && fresh(r.value.value) && items == old(items) + [r.value.value]
                  && byIdentity == old(byIdentity)[id := r.value.value]
                  && r.value.value.base == base && r.value.value.enabled == on && r.value.value.apiKeys == []
                  && r.value.value.models == [] && r.value.value.name == FirstFree(name, old(usedNames), 1)
                  && usedNames == old(usedNames) + {r.value.value.name}
                else
                  r == Failure && items == old(items) && byIdentity == old(byIdentity)
    {
      if name == "" || base == "" {
        skipped := skipped + 1;
        return Success(None);
      }
      var id := Identity(name, base);
      if id in byIdentity {
        var existing := byIdentity[id];
        existing.enabled := existing.enabled && on;
        SameCounts(items);
        return Success(Some(existing));
      }
      r := NewDraft(id, on);
    }

    /** What the editor gets: consistent providers under distinct names; the rest is counted as skipped. */
    method EditorProviders() returns (providers: seq<EditorProvider>)
      requires Valid()
      modifies this`skipped
      ensures forall i | 0 <= i < |providers| :: Consistent(providers[i])
      ensures forall i, j | 0 <= i < j < |providers| :: providers[i].name != providers[j].name
      ensures |providers| + skipped - old(skipped) == |items| <= MAX_PROVIDERS
      ensures Editors(providers, Shown(items))
    {
      hide Identified, Consistent, KeysDistinct;
      providers := [];
      for n := 0 to |items|
        invariant |providers| + skipped - old(skipped) == n && AllValid(items)
        invariant Editors(providers, Shown(items[..n]))
      {
        providers := ShowNext(items, n, providers);
      }
      assert items[..|items|] == items;
      EditorsFit(providers, items, usedNames, quota);
    }

    /** One draft more: shown, or counted as skipped. */
    method ShowNext(items: seq<ProviderDraft>, n: nat, before: seq<EditorProvider>) returns (providers: seq<EditorProvider>)
      requires n < |items| && AllValid(items) && Editors(before, Shown(items[..n]))
      modifies this`skipped
      ensures AllValid(items) && Editors(providers, Shown(items[..n + 1]))
      ensures |providers| + skipped - old(skipped) == |before| + 1
    {
      ShownNext(items, n);
      assert items[n].Valid();
      var provider := items[n].AsEditor();
      if provider.None? {
        providers := before;
        SkipOne(items, items[..n + 1], providers);
      } else {
        EditorsLast(before, Shown(items[..n]), provider.value, items[n]);
        providers := before + [provider.value];
      }
    }

    /** Counting leaves the drafts as they are. */
    method SkipOne(ghost items: seq<ProviderDraft>, ghost front: seq<ProviderDraft>, ghost providers: seq<EditorProvider>)
      requires Editors(providers, Shown(front)) && AllValid(items)
      modifies this`skipped
      ensures skipped == old(skipped) + 1 && Editors(providers, Shown(front)) && AllValid(items)
    {
      skipped := skipped + 1;
      ShownSame(front);
    }

    method NewDraft(id: Identity, on: bool) returns (r: Result<Option<ProviderDraft>>)
      requires Valid() && id !in byIdentity
      modifies this, quota`providers
      ensures Valid()
      ensures |old(items)| < MAX_PROVIDERS ==>
                && r.Success? && r.value.Some? && fresh(r.value.value) && items == old(items) + [r.value.value]
                && byIdentity == old(byIdentity)[id := r.value.value]
                && r.value.value.base == id.base && r.value.value.enabled == on && r.value.value.apiKeys == []
                && r.value.value.models == [] && r.value.value.name == FirstFree(id.name, old(usedNames), 1)
                && usedNames == old(usedNames) + {r.value.value.name}
      ensures |old(items)| >= MAX_PROVIDERS ==> r == Failure && items == old(items) && byIdentity == old(byIdentity)
    {
      var finalName, _ := FreshName(id.name, usedNames);
      var ok := quota.AddProvider();
      if !ok {
        SameCounts(items);
        return Failure;
      }
      var item := new ProviderDraft(finalName, id.base, quota, on);
      SameCounts(items);
      Register(id, item);
      return Success(Some(item));
    }

    method Register(id: Identity, item: ProviderDraft)
      requires id !in byIdentity && Named(items, usedNames, quota) && Identified(items, byIdentity) && AllValid(items)
      requires item !in items && item.name !in usedNames && item.base == id.base && item.quota == quota
      requires item.Valid() && item.apiKeys == [] && item.models == []
      requires quota.Valid() && quota.providers == |items| + 1
      requires quota.apiKeys == KeyCount(items) && quota.models == ModelCount(items)
      modifies this
      ensures Valid() && items == old(items) + [item] && byIdentity == old(byIdentity)[id := item]
      ensures usedNames == old(usedNames) + {item.name}
    {
      NamedAppend(items, usedNames, quota, item);
      IdentifiedAppend(items, byIdentity, id, item);
      CountsAppend(items, item);
      items := items + [item];
      usedNames := usedNames + {item.name};
      byIdentity := byIdentity[id := item];
    }
  }

  /** What holds of all drafts is what holds of one and of the drafts on both sides. */
  lemma SplitAt(items: seq<ProviderDraft>, k: nat, front: seq<ProviderDraft>, back: seq<ProviderDraft>)
    requires k < |items| && front == items[..k] && back == items[k + 1..]
    ensures KeyCount(items) == KeyCount(front) + |items[k].apiKeys| + KeyCount(back)
    ensures ModelCount(items) == ModelCount(front) + |items[k].models| + ModelCount(back)
    ensures AllValid(items) <==> AllValid(front) && items[k].Valid() && AllValid(back)
  {
    CountsSplit(items, k);
    ValidSplit(items, k, front, back);
  }

  lemma ValidSplit(items: seq<ProviderDraft>, k: nat, front: seq<ProviderDraft>, back: seq<ProviderDraft>)
    requires k < |items| && front == items[..k] && back == items[k + 1..]
    ensures AllValid(items) <==> AllValid(front) && items[k].Valid() && AllValid(back)
  {
    forall i | 0 <= i < |items|
      ensures items[i] == if i < k then front[i] else if i == k then items[k] else back[i - k - 1] { }
    if AllValid(items) {
      forall i | 0 <= i < |back| ensures back[i].Valid() { assert back[i] == items[i + k + 1]; }
    }
  }

  lemma {:induction false} CountsSplit(items: seq<ProviderDraft>, k: nat)
    requires k < |items|
    ensures KeyCount(items) == KeyCount(items[..k]) + |items[k].apiKeys| + KeyCount(items[k + 1..])
    ensures ModelCount(items) == ModelCount(items[..k]) + |items[k].models| + ModelCount(items[k + 1..])
  {
    var n := |items| - 1;
    if k < n {
      CountsSplit(items[..n], k);
      assert items[..n][..k] == items[..k] && items[..n][k + 1..] == items[k + 1..][..n - k - 1];
    }
  }

  lemma Apart(items: seq<ProviderDraft>, usedNames: set<string>, quota: ImportQuota, k: nat)
    requires Named(items, usedNames, quota) && k < |items|
    ensures items[k] !in items[..k] && items[k] !in items[k + 1..]
  {
  }

  /** The calls importers make on the drafts. */
  datatype Call =
    | AskProvider(name: string, base: string, on: bool)
    | AskKey(at: nat, title: string, secret: string)
    | AskModel(at: nat, publicName: string, sourceModel: string, litellmModel: string, title: string, secret: string,
               providerEnabled: Option<bool>, modelEnabled: bool)

  // ---- what the calls of an import leave ----

  /** The keys and models of a draft. */
  datatype Stock = Stock(keys: seq<Key>, models: seq<Model>)

  predicate Stocked(items: seq<ProviderDraft>, stocks: seq<Stock>)
    reads items
  {
    |stocks| == |items| && forall i | 0 <= i < |items| :: stocks[i] == Stock(items[i].apiKeys, items[i].models)
  }

  /** The call asks the i-th draft to hold a secret. */
  predicate AsksKey(call: Call, i: nat, secret: string) { !call.AskProvider? && call.at == i && call.secret == secret != "" }

  predicate AsksModel(call: Call, i: nat, m: Model) {
    && call.AskModel? && call.at == i && m.publicName == call.publicName && m.litellmModel == call.litellmModel
    && m.modelEnabled == call.modelEnabled && (call.secret != "" ==> m.key == call.secret)
  }

  predicate HasNames(call: Call)
    requires call.AskModel?
  {
    call.publicName != "" && call.sourceModel != "" && call.litellmModel != ""
  }

  /** A draft holds what the call asked of it: the secret, and the model if it has its names. */
  ghost predicate Answered(call: Call, stock: Stock) {
    match call
    case AskProvider(_, _, _) => true
    case AskKey(_, _, secret) => secret != "" ==> HasValue(stock.keys, secret)
    case AskModel(at, _, _, _, _, secret, _, _) =>
      HasNames(call) && secret != "" ==> HasValue(stock.keys, secret) && exists m | m in stock.models :: AsksModel(call, at, m)
  }

  /** Nothing is taken away, and what is new was asked for. */
  ghost predicate Grew(before: Stock, after: Stock, call: Call, i: nat) {
    && before.keys <= after.keys && before.models <= after.models
    && (forall k | |before.keys| <= k < |after.keys| :: AsksKey(call, i, after.keys[k].value))
    && forall k | |before.models| <= k < |after.models| :: AsksModel(call, i, after.models[k])
  }

  ghost predicate Stepped(before: seq<Stock>, after: seq<Stock>, call: Call) {
    && |before| <= |after| && (forall i | 0 <= i < |before| :: Grew(before[i], after[i], call, i))
    && forall i | |before| <= i < |after| :: after[i] == Stock([], [])
  }

  /** The identities asked for, in the order in which they first were. */
  function Asked(calls: seq<Call>): seq<Identity> {
    if calls == [] then [] else AskedNext(Asked(calls[..|calls| - 1]), calls[|calls| - 1])
  }

  function AskedNext(asked: seq<Identity>, call: Call): seq<Identity> {
    if call.AskProvider? && call.name != "" && call.base != "" && Identity(call.name, call.base) !in asked
    then asked + [Identity(call.name, call.base)] else asked
  }

  /** One draft for each identity, in order. */
  ghost predicate InOrder(items: seq<ProviderDraft>, byIdentity: map<Identity, ProviderDraft>, asked: seq<Identity>) {
    && |asked| == |items| && (forall id :: id in byIdentity <==> id in asked)
    && forall i | 0 <= i < |items| :: asked[i] in byIdentity && byIdentity[asked[i]] == items[i]
  }

  /** Every call that named a draft was answered by it. */
  ghost predicate AllAnswered(stocks: seq<Stock>, calls: seq<Call>) {
    forall n | 0 <= n < |calls| && !calls[n].AskProvider? && calls[n].at < |Asked(calls[..n])| ::
      calls[n].at < |stocks| && Answered(calls[n], stocks[calls[n].at])
  }

  /** Every key and every model of a draft was asked of it. */
  ghost predicate AllAsked(stocks: seq<Stock>, calls: seq<Call>) {
    forall i: nat | i < |stocks| ::
      && (forall k | k in stocks[i].keys :: KeyAsked(calls, i, k.value))
      && forall m | m in stocks[i].models :: ModelAsked(calls, i, m)
  }

  ghost predicate KeyAsked(calls: seq<Call>, i: nat, secret: string) {
    exists n :: 0 <= n < |calls| && AsksKey(calls[n], i, secret)
  }

  ghost predicate ModelAsked(calls: seq<Call>, i: nat, m: Model) {
    exists n :: 0 <= n < |calls| && AsksModel(calls[n], i, m)
  }

  predicate AtLimit(quota: ImportQuota)
    reads quota
  {
    quota.providers == MAX_PROVIDERS || quota.models == MAX_MODELS || quota.apiKeys == MAX_API_KEYS
  }

  lemma AnsweredStill(call: Call, before: Stock, after: Stock)
    requires Answered(call, before) && before.keys <= after.keys && before.models <= after.models
    ensures Answered(call, after)
  {
    if !call.AskProvider? && HasValue(before.keys, call.secret) {
      var i :| 0 <= i < |before.keys| && before.keys[i].value == call.secret;
      assert after.keys[i].value == call.secret;
    }
    assert forall m | m in before.models :: m in after.models;
  }

  lemma AnsweredNext(before: seq<Stock>, after: seq<Stock>, calls: seq<Call>, n: nat)
    requires n < |calls| && |before| == |Asked(calls[..n])| && Stepped(before, after, calls[n])
    requires AllAnswered(before, calls[..n])
    requires !calls[n].AskProvider? && calls[n].at < |before| ==> Answered(calls[n], after[calls[n].at])
    ensures AllAnswered(after, calls[..n + 1])
  {
    hide Answered;
    var some, more := calls[..n], calls[..n + 1];
    forall k | 0 <= k < |more| && !more[k].AskProvider? && more[k].at < |Asked(more[..k])|
      ensures more[k].at < |after| && Answered(more[k], after[more[k].at])
    {
      assert more[..k] == calls[..k];
      if k < n {
        assert some[k] == more[k] && some[..k] == calls[..k];
        AnsweredStill(more[k], before[more[k].at], after[more[k].at]);
      }
    }
  }

  lemma AskedStill(before: seq<Stock>, after: seq<Stock>, calls: seq<Call>, n: nat)
    requires n < |calls| && AllAsked(before, calls[..n]) && Stepped(before, after, calls[n])
    ensures AllAsked(after, calls[..n + 1])
  {
    hide KeyAsked, ModelAsked, Grew;
    assert calls[..n + 1] == calls[..n] + [calls[n]];
    forall i: nat | i < |after|
      ensures (forall k | k in after[i].keys :: KeyAsked(calls[..n + 1], i, k.value))
           && forall m | m in after[i].models :: ModelAsked(calls[..n + 1], i, m)
    {
      if i < |before| { GrownAsked(before[i], after[i], calls[..n], calls[n], i); }
    }
  }

  lemma GrownAsked(before: Stock, after: Stock, calls: seq<Call>, call: Call, i: nat)
    requires Grew(before, after, call, i)
    requires forall k | k in before.keys :: KeyAsked(calls, i, k.value)
    requires forall m | m in before.models :: ModelAsked(calls, i, m)
    ensures forall k | k in after.keys :: KeyAsked(calls + [call], i, k.value)
    ensures forall m | m in after.models :: ModelAsked(calls + [call], i, m)
  {
    hide KeyAsked, ModelAsked, AsksKey, AsksModel;
    forall k | k in after.keys ensures KeyAsked(calls + [call], i, k.value) {
      var at :| 0 <= at < |after.keys| && after.keys[at] == k;
      assert at < |before.keys| ==> before.keys[at] == k && k in before.keys;
      KeyAskedNext(calls, call, i, k.value);
    }
    forall m | m in after.models ensures ModelAsked(calls + [call], i, m) {
      var at :| 0 <= at < |after.models| && after.models[at] == m;
      assert at < |before.models| ==> before.models[at] == m && m in before.models;
      ModelAskedNext(calls, call, i, m);
    }
  }

  lemma KeyAskedNext(calls: seq<Call>, call: Call, i: nat, secret: string)
    ensures KeyAsked(calls, i, secret) || AsksKey(call, i, secret) ==> KeyAsked(calls + [call], i, secret)
  {
    hide AsksKey;
    var more := calls + [call];
    assert more[|calls|] == call && forall n | 0 <= n < |calls| :: more[n] == calls[n];
  }

  lemma ModelAskedNext(calls: seq<Call>, call: Call, i: nat, m: Model)
    ensures ModelAsked(calls, i, m) || AsksModel(call, i, m) ==> ModelAsked(calls + [call], i, m)
  {
    hide AsksModel;
    var more := calls + [call];
    assert more[|calls|] == call && forall n | 0 <= n < |calls| :: more[n] == calls[n];
  }

  /**
   The calls of an import, up to one that a limit refuses.  There is a draft for each identity
   asked for, in order; each holds what was asked of it, and nothing else.
   */
  method Import(calls: seq<Call>) returns (drafts: Drafts, ok: bool, ghost done: nat, ghost stocks: seq<Stock>)
    ensures drafts.Valid() && Stocked(drafts.items, stocks)
    ensures done <= |calls| && (ok <==> done == |calls|) && (!ok ==> AtLimit(drafts.quota))
    ensures InOrder(drafts.items, drafts.byIdentity, Asked(calls[..done]))
    ensures AllAnswered(stocks, calls[..done]) && AllAsked(stocks, calls[..if ok then done else done + 1])
  {
    hide InOrder, AllAnswered, AllAsked, Stepped, Answered, AtLimit;
    drafts := new Drafts();
    stocks := [];
    NothingAsked(drafts.items, drafts.byIdentity);
    for n := 0 to |calls|
      invariant drafts.Valid() && fresh(drafts) && fresh(drafts.quota) && Stocked(drafts.items, stocks)
      invariant forall i | 0 <= i < |drafts.items| :: fresh(drafts.items[i])
      invariant InOrder(drafts.items, drafts.byIdentity, Asked(calls[..n]))
      invariant AllAnswered(stocks, calls[..n]) && AllAsked(stocks, calls[..n])
    {
      ghost var before := stocks;
      assert calls[..n + 1][..n] == calls[..n];
      OrderCount(drafts.items, drafts.byIdentity, Asked(calls[..n]));
      done := n;
      ok, stocks := OneCall(drafts, calls[n], Asked(calls[..n]), before);
      AskedStill(before, stocks, calls, n);
      if !ok {
        StillAnswered(before, stocks, calls[..n], calls[n]);
        return;
      }
      AnsweredNext(before, stocks, calls, n);
    }
    assert calls[..|calls|] == calls;
    ok, done := true, |calls|;
  }

  lemma NothingAsked(items: seq<ProviderDraft>, byIdentity: map<Identity, ProviderDraft>)
    requires items == [] && Identified(items, byIdentity)
    ensures InOrder(items, byIdentity, Asked([])) && AllAnswered([], []) && AllAsked([], [])
  {
    assert forall id | id in byIdentity :: byIdentity[id] in items;
  }

  lemma OrderCount(items: seq<ProviderDraft>, byIdentity: map<Identity, ProviderDraft>, asked: seq<Identity>)
    requires InOrder(items, byIdentity, asked)
    ensures |asked| == |items|
  {
  }

  /** A refused call takes nothing away. */
  lemma StillAnswered(before: seq<Stock>, after: seq<Stock>, calls: seq<Call>, call: Call)
    requires AllAnswered(before, calls) && Stepped(before, after, call)
    ensures AllAnswered(after, calls)
  {
    hide Answered;
    forall n | 0 <= n < |calls| && !calls[n].AskProvider? && calls[n].at < |Asked(calls[..n])|
      ensures calls[n].at < |after| && Answered(calls[n], after[calls[n].at])
    {
      assert Grew(before[calls[n].at], after[calls[n].at], call, calls[n].at);
      AnsweredStill(calls[n], before[calls[n].at], after[calls[n].at]);
    }
  }

  method OneCall(drafts: Drafts, call: Call, ghost asked: seq<Identity>, ghost before: seq<Stock>)
      returns (ok: bool, ghost after: seq<Stock>)
    requires drafts.Valid() && Stocked(drafts.items, before) && InOrder(drafts.items, drafts.byIdentity, asked)
    modifies drafts, drafts.items, drafts.quota
    ensures drafts.Valid() && Stocked(drafts.items, after) && Stepped(before, after, call)
    ensures forall i | 0 <= i < |drafts.items| :: drafts.items[i] in old(drafts.items) || fresh(drafts.items[i])
    ensures if ok then InOrder(drafts.items, drafts.byIdentity, AskedNext(asked, call))
            else AtLimit(drafts.quota) && InOrder(drafts.items, drafts.byIdentity, asked)
    ensures ok && !call.AskProvider? && call.at < |before| ==> Answered(call, after[call.at])
  {
    hide InOrder, Identified, Named, Grew, Answered, AtLimit, ImportQuota.Valid, ProviderDraft.Valid;
    if call.AskProvider? {
      ok, after := ProviderCall(drafts, call, asked, before);
      return;
    }
    ok, after := true, before;
    NothingNew(before, call);
    if call.at < |drafts.items| {
      var item := drafts.items[call.at];
      Apart(drafts.items, drafts.usedNames, drafts.quota, call.at);
      if call.AskKey? {
        ok := KeyCall(drafts, item, call);
      } else {
        ok := ModelCall(drafts, item, call.at, call);
      }
      after := before[call.at := Stock(item.apiKeys, item.models)];
      OneGrew(before, after, call);
    }
  }

  lemma NothingNew(before: seq<Stock>, call: Call)
    requires !call.AskProvider?
    ensures Stepped(before, before, call)
  {
  }

  lemma OneGrew(before: seq<Stock>, after: seq<Stock>, call: Call)
    requires !call.AskProvider? && call.at < |before| && |after| == |before|
    requires Grew(before[call.at], after[call.at], call, call.at)
    requires forall i | 0 <= i < |before| && i != call.at :: after[i] == before[i]
    ensures Stepped(before, after, call)
  {
  }

  method ProviderCall(drafts: Drafts, call: Call, ghost asked: seq<Identity>, ghost before: seq<Stock>)
      returns (ok: bool, ghost after: seq<Stock>)
    requires call.AskProvider?
    requires drafts.Valid() && Stocked(drafts.items, before) && InOrder(drafts.items, drafts.byIdentity, asked)
    modifies drafts, drafts.items, drafts.quota
    ensures drafts.Valid() && Stocked(drafts.items, after) && Stepped(before, after, call)
    ensures forall i | 0 <= i < |drafts.items| :: drafts.items[i] in old(drafts.items) || fresh(drafts.items[i])
    ensures if ok then InOrder(drafts.items, drafts.byIdentity, AskedNext(asked, call))
            else AtLimit(drafts.quota) && InOrder(drafts.items, drafts.byIdentity, asked)
  {
    hide InOrder, Identified, Named, Grew, AllValid, KeyCount, ModelCount, ProviderDraft.Valid, Asked;
    var id := Identity(call.name, call.base);
    ghost var items, byIdentity := drafts.items, drafts.byIdentity;
    OrderKnows(items, byIdentity, asked, id);
    OrderCount(items, byIdentity, asked);
    var r := drafts.Provider(call.name, call.base, call.on);
    ok, after := r.Success?, before;
    if |drafts.items| > |before| {
      OrderNext(items, byIdentity, asked, id, drafts.items[|before|]);
      after := before + [Stock([], [])];
    }
    SteppedNone(before, after, call);
  }

  lemma SteppedNone(before: seq<Stock>, after: seq<Stock>, call: Call)
    requires after == before || after == before + [Stock([], [])]
    ensures Stepped(before, after, call)
  {
  }

  lemma OrderKnows(items: seq<ProviderDraft>, byIdentity: map<Identity, ProviderDraft>, asked: seq<Identity>, id: Identity)
    requires InOrder(items, byIdentity, asked)
    ensures id in byIdentity <==> id in asked
    ensures id in byIdentity ==> byIdentity[id] in items
  {
    if id in asked {
      var i :| 0 <= i < |asked| && asked[i] == id;
      assert byIdentity[asked[i]] == items[i];
    }
  }

  lemma OrderNext(items: seq<ProviderDraft>, byIdentity: map<Identity, ProviderDraft>, asked: seq<Identity>, id: Identity,
                  item: ProviderDraft)
    requires InOrder(items, byIdentity, asked) && id !in byIdentity
    ensures InOrder(items + [item], byIdentity[id := item], asked + [id])
  {
  }

  method KeyCall(drafts: Drafts, item: ProviderDraft, call: Call) returns (ok: bool)
    requires drafts.Valid() && call.AskKey? && call.at < |drafts.items| && drafts.items[call.at] == item
    modifies item`apiKeys, drafts.quota`apiKeys
    ensures drafts.Valid()
    ensures Grew(Stock(old(item.apiKeys), item.models), Stock(item.apiKeys, item.models), call, call.at)
    ensures if ok then Answered(call, Stock(item.apiKeys, item.models)) else AtLimit(drafts.quota)
  {
    hide Identified, HasValue, KeysDistinct;
    ghost var items, front, back := drafts.items, drafts.items[..call.at], drafts.items[call.at + 1..];
    SplitAt(items, call.at, front, back);
    Apart(items, drafts.usedNames, drafts.quota, call.at);
    ok := KeyBeside(item, front, back, call.title, call.secret);
    SplitAt(items, call.at, front, back);
  }

  /** The keys are as they were, or there is one more, for this secret. */
  predicate KeyGrew(before: seq<Key>, after: seq<Key>, secret: string) {
    after == before || (|after| == |before| + 1 && before <= after && after[|before|].value == secret != "")
  }

  method KeyBeside(item: ProviderDraft, ghost front: seq<ProviderDraft>, ghost back: seq<ProviderDraft>,
                   title: string, secret: string) returns (ok: bool)
    requires item.Valid() && item.quota.Valid()
    requires item !in front && item !in back && AllValid(front) && AllValid(back)
    modifies item`apiKeys, item.quota`apiKeys
    ensures item.Valid() && item.quota.Valid() && AllValid(front) && AllValid(back)
    ensures KeyCount(front) == old(KeyCount(front)) && KeyCount(back) == old(KeyCount(back))
    ensures ModelCount(front) == old(ModelCount(front)) && ModelCount(back) == old(ModelCount(back))
    ensures item.quota.apiKeys - old(item.quota.apiKeys) == |item.apiKeys| - |old(item.apiKeys)|
    ensures KeyGrew(old(item.apiKeys), item.apiKeys, secret)
    ensures if ok then secret != "" ==> HasValue(item.apiKeys, secret) else AtLimit(item.quota)
  {
    var r := item.AddKey(title, secret);
    ok := r.Success?;
    if ok && secret != "" { Held(item.apiKeys, Key(r.value, secret)); }
  }

  lemma Held(keys: seq<Key>, k: Key)
    requires k in keys
    ensures HasValue(keys, k.value)
  {
  }

  method ModelCall(drafts: Drafts, item: ProviderDraft, ghost at: nat, call: Call) returns (ok: bool)
    requires drafts.Valid() && at < |drafts.items| && drafts.items[at] == item && call.AskModel? && call.at == at
    modifies item`apiKeys, item`models, drafts.quota`apiKeys, drafts.quota`models
    ensures drafts.Valid()
    ensures Grew(Stock(old(item.apiKeys), old(item.models)), Stock(item.apiKeys, item.models), call, at)
    ensures if ok then Answered(call, Stock(item.apiKeys, item.models)) else AtLimit(drafts.quota)
  {
    ghost var items, front, back := drafts.items, drafts.items[..at], drafts.items[at + 1..];
    SplitAt(items, at, front, back);
    Apart(items, drafts.usedNames, drafts.quota, at);
    ok := ModelBeside(item, front, back, call);
    SplitAt(items, at, front, back);
  }

  method ModelBeside(item: ProviderDraft, ghost front: seq<ProviderDraft>, ghost back: seq<ProviderDraft>, call: Call)
      returns (ok: bool)
    requires item.Valid() && item.quota.Valid() && call.AskModel?
    requires item !in front && item !in back && AllValid(front) && AllValid(back)
    modifies item`apiKeys, item`models, item.quota`apiKeys, item.quota`models
    ensures item.Valid() && item.quota.Valid() && AllValid(front) && AllValid(back)
    ensures KeyCount(front) == old(KeyCount(front)) && KeyCount(back) == old(KeyCount(back))
    ensures ModelCount(front) == old(ModelCount(front)) && ModelCount(back) == old(ModelCount(back))
    ensures item.quota.apiKeys - old(item.quota.apiKeys) == |item.apiKeys| - |old(item.apiKeys)|
    ensures item.quota.models - old(item.quota.models) == |item.models| - |old(item.models)|
    ensures Grew(Stock(old(item.apiKeys), old(item.models)), Stock(item.apiKeys, item.models), call, call.at)
    ensures if ok then Answered(call, Stock(item.apiKeys, item.models)) else AtLimit(item.quota)
  {
    hide KeysDistinct, FirstFree, PreferredKey, Names;
    ok := item.AddModel(call.publicName, call.sourceModel, call.litellmModel, call.title, call.secret,
                        call.providerEnabled, call.modelEnabled);
    if ok && HasNames(call) && call.secret != "" {
      ghost var m := item.models[|item.models| - 1];
      assert m in item.models && AsksModel(call, call.at, m);
      Held(item.apiKeys, Key(m.keyName, m.key));
    }
  }

  lemma CountsAppend(items: seq<ProviderDraft>, item: ProviderDraft)
    ensures KeyCount(items + [item]) == KeyCount(items) + |item.apiKeys|
    ensures ModelCount(items + [item]) == ModelCount(items) + |item.models|
  {
    assert (items + [item])[..|items|] == items;
  }

  lemma ShownNext(items: seq<ProviderDraft>, n: nat)
    requires n < |items|
    ensures Shown(items[..n + 1]) == if IsShown(items[n]) then Shown(items[..n]) + [items[n]] else Shown(items[..n])
  {
    assert items[..n + 1][..n] == items[..n];
  }

  twostate lemma ShownSame(items: seq<ProviderDraft>)
    requires forall i | 0 <= i < |items| :: unchanged(items[i])
    ensures Shown(items) == old(Shown(items))
  {
    if items != [] { ShownSame(items[..|items| - 1]); }
  }

  twostate lemma SameCounts(items: seq<ProviderDraft>)
    requires forall i | 0 <= i < |items| :: items[i].apiKeys == old(items[i].apiKeys)
    requires forall i | 0 <= i < |items| :: items[i].models == old(items[i].models)
    ensures KeyCount(items) == old(KeyCount(items)) && ModelCount(items) == old(ModelCount(items))
  {
    if items != [] { SameCounts(items[..|items| - 1]); }
  }
}
