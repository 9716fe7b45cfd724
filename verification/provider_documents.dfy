/**
 Saving the provider editor: one list of providers with their models becomes a
 document of provider sections, active entries and disabled entries.
 */
module ProviderDocuments {
  import opened Wrappers
  import opened PythonText

  datatype Key = Key(id: string, name: string, value: string)

  /** A model as the editor holds it; provider, base and key value are what loading found out. */
  datatype Model = Model(
    provider: string,
    name: string,
    upstream: string,
    surface: string,
    modelEnabled: bool,
    base: string,
    keyId: string,
    keyName: string,
    keyValue: string,
    mode: string,
    manual: int,
    effective: Option<int>,
    deploymentId: string,
    rest: string)

  datatype Provider = Provider(
    name: string,
    enabled: bool,
    base: string,
    adapter: Option<string>,
    keys: seq<Key>,
    models: seq<Model>)

  /** A value of an entry: text, or an alias of an anchor in the provider sections. */
  datatype Ref = Text(text: string) | Alias(anchor: string)

  datatype Entry = Entry(
    provider: string,
    name: string,
    upstream: string,
    surface: string,
    modelEnabled: Option<bool>,
    base: Ref,
    key: Ref,
    keyId: string,
    keyName: string,
    mode: string,
    manual: int,
    order: int,
    deploymentId: string,
    rest: string)

  datatype Section = Section(name: string, enabled: bool, base: string, adapter: Option<string>, keys: seq<Key>)

  datatype Document = Document(sections: seq<Section>, active: seq<Entry>, disabled: seq<Entry>)

  const DEFAULT_KEY: string := "default"

  const DERIVED: string := "provider-slot-"

  /** Identifies a key by its provider and its name; the text behind the prefix stands for its digest. */
  function StableKeyId(provider: string, key: string): string {
    DERIVED + Strip(provider) + ['\U{1F}'] + Strip(key)
  }

  // ---- anchors ----

  predicate IsWord(c: char) { 'a' <= c <= 'z' || 'A' <= c <= 'Z' || '0' <= c <= '9' || c == '_' }

  /** Each run of other characters becomes one underscore, as do runs of underscores. */
  function Words(s: string): string {
    if s == "" then ""
    else
      var front, c := Words(s[..|s| - 1]), s[|s| - 1];
      if IsWord(c) && c != '_' then front + [c]
      else if front != "" && front[|front| - 1] == '_' then front else front + "_"
  }

  function TrimScores(s: string): string {
    var t := if s != "" && s[0] == '_' then s[1..] else s;
    if t != "" && t[|t| - 1] == '_' then t[..|t| - 1] else t
  }

  function AnchorPart(s: string, fallback: string): string {
    var words := TrimScores(Words(Strip(s)));
    var part := if words == "" then fallback else words;
    if part != "" && '0' <= part[0] <= '9' then "p_" + part else part
  }

  /** An anchor from a provider's name and the cleaned part for what it marks. */
  function Anchor(provider: string, part: string): string { AnchorPart(provider, "provider") + "_" + part }

  function KeyAnchor(provider: string, key: string): string {
    Anchor(provider, if Strip(key) == DEFAULT_KEY then "api_key" else AnchorPart("api_key_" + key, "value"))
  }

  function BaseAnchor(provider: string): string { Anchor(provider, "api_base") }

  /** What an anchor stands for: a text, or nothing usable where it marks a whole section. */
  datatype Definition = Definition(anchor: string, text: Option<string>)

  function KeyDefinitions(provider: string, keys: seq<Key>): seq<Definition> {
    if keys == [] then []
    else
      var last := keys[|keys| - 1];
      KeyDefinitions(provider, keys[..|keys| - 1]) + [Definition(KeyAnchor(provider, last.name), Some(last.value))]
  }

  function SectionDefinitions(s: Section): seq<Definition> {
    [Definition(Anchor(s.name, "provider"), None)]
    + (if s.base != "" then [Definition(BaseAnchor(s.name), Some(s.base))] else [])
    + KeyDefinitions(s.name, s.keys)
  }

  function DefinitionLists(sections: seq<Section>): seq<seq<Definition>> {
    if sections == [] then []
    else DefinitionLists(sections[..|sections| - 1]) + [SectionDefinitions(sections[|sections| - 1])]
  }

  function Joined(dss: seq<seq<Definition>>): seq<Definition> {
    if dss == [] then [] else Joined(dss[..|dss| - 1]) + dss[|dss| - 1]
  }

  /** All anchors of the sections, in order. */
  function Definitions(sections: seq<Section>): seq<Definition> { Joined(DefinitionLists(sections)) }

  /** What an alias of an anchor stands for. */
  function Lookup(ds: seq<Definition>, anchor: string): Option<string> {
    if ds == [] then None
    else if ds[|ds| - 1].anchor == anchor then ds[|ds| - 1].text
    else Lookup(ds[..|ds| - 1], anchor)
  }

  function Meaning(ds: seq<Definition>, r: Ref): string {
    match r
    case Text(t) => t
    case Alias(a) => Lookup(ds, a).GetOr("")
  }

  // ---- reading a document back ----

  /** YAML refuses a text that uses an anchor twice, whatever it marks. */
  predicate AnchorsUnique(ds: seq<Definition>) { forall i, j | 0 <= i < j < |ds| :: ds[i].anchor != ds[j].anchor }

  /** No key id is used twice, in one section or in two. */
  predicate KeyIdsUnique(sections: seq<Section>) {
    && (forall i, a, b | 0 <= i < |sections| && 0 <= a < b < |sections[i].keys| ::
          sections[i].keys[a].id != sections[i].keys[b].id)
    && forall i, j, a, b | 0 <= i < j < |sections| && 0 <= a < |sections[i].keys| && 0 <= b < |sections[j].keys| ::
         sections[i].keys[a].id != sections[j].keys[b].id
  }

  function Utf8Length(s: string): nat {
    if s == "" then 0
    else
      var n := s[|s| - 1] as int;
      Utf8Length(s[..|s| - 1]) + if n < 0x80 then 1 else if n < 0x800 then 2 else if n < 0x1_0000 then 3 else 4
  }

  /** A name or id the editor keeps: not blank, not too long, on one line. */
  predicate IsMetadata(s: string) {
    var t := Strip(s);
    t != "" && Utf8Length(t) <= 256 && '\U{0}' !in t && '\r' !in t && '\n' !in t
  }

  predicate IsDerived(id: string) { |id| > |DERIVED| && id[..|DERIVED|] == DERIVED && '\U{1F}' in id }

  /** A key's id; the digest in a derived one makes it short enough and a single line. */
  predicate IsKeyId(id: string) { IsDerived(id) || IsMetadata(id) }

  lemma DerivedIsKeyId(provider: string, key: string)
    ensures IsKeyId(StableKeyId(provider, key))
  {
    var id, rest := StableKeyId(provider, key), Strip(provider) + ['\U{1F}'] + Strip(key);
    assert id == DERIVED + rest && rest[|Strip(provider)|] == '\U{1F}';
  }

  predicate KeysValid(keys: seq<Key>) {
    && (forall a | 0 <= a < |keys| :: keys[a].value != "" && IsMetadata(keys[a].name) && IsKeyId(keys[a].id))
    && forall a, b | 0 <= a < b < |keys| :: Strip(keys[a].name) != Strip(keys[b].name)
  }

  predicate EntryValid(e: Entry) {
    && (Strip(e.deploymentId) != "" ==> IsDeploymentId(Strip(e.deploymentId)))
    && (e.keyId != "" ==> IsKeyId(e.keyId)) && IsOrderMode(e.mode)
  }

  predicate Defined(ds: seq<Definition>, r: Ref) { r.Alias? ==> exists i :: 0 <= i < |ds| && ds[i].anchor == r.anchor }

  predicate EntriesReadable(es: seq<Entry>, ds: seq<Definition>) {
    forall i | 0 <= i < |es| :: EntryValid(es[i]) && Defined(ds, es[i].base) && Defined(ds, es[i].key)
  }

  predicate SectionsReadable(sections: seq<Section>) {
    && AnchorsUnique(Definitions(sections)) && KeyIdsUnique(sections)
    && forall i | 0 <= i < |sections| :: KeysValid(sections[i].keys)
  }

  /** What the check of a document's two texts accepts; only the first one has anchors. */
  predicate Readable(d: Document) {
    SectionsReadable(d.sections) && EntriesReadable(d.active, Definitions(d.sections)) && EntriesReadable(d.disabled, [])
  }

  // ---- keys ----

  /** Keys as they are saved; the index is that of the last one, from 1. */
  function NormalKey(provider: string, k: Key, index: nat): Key {
    var name := if Strip(k.name) != "" then Strip(k.name) else "key-" + Decimal(index);
    Key(if Strip(k.id) != "" then Strip(k.id) else StableKeyId(provider, name), name, k.value)
  }

  predicate HasName(keys: seq<Key>, name: string) { exists i | 0 <= i < |keys| :: keys[i].name == name }

  function NamedKeys(provider: string, keys: seq<Key>): Result<seq<Key>> {
    if keys == [] then Success([])
    else
      var front, last := NamedKeys(provider, keys[..|keys| - 1]), NormalKey(provider, keys[|keys| - 1], |keys|);
      if front.Failure? || last.value == "" then front
      else if HasName(front.value, last.name) then Failure
      else Success(front.value + [last])
  }

  predicate Distinct(texts: seq<string>) { forall i, j | 0 <= i < j < |texts| :: texts[i] != texts[j] }

  function KeyAnchors(provider: string, keys: seq<Key>): seq<string> {
    if keys == [] then []
    else KeyAnchors(provider, keys[..|keys| - 1]) + [KeyAnchor(provider, keys[|keys| - 1].name)]
  }

  function NormalizedKeys(p: Provider): Result<seq<Key>> {
    var keys := NamedKeys(p.name, p.keys);
    if keys.Success? && Distinct(KeyAnchors(Strip(p.name), keys.value)) then keys else Failure
  }

  function ByName(keys: seq<Key>, name: string, i: nat): Option<Key>
    decreases |keys| - i
  {
    if i >= |keys| then None else if keys[i].name == name then Some(keys[i]) else ByName(keys, name, i + 1)
  }

  function ById(keys: seq<Key>, id: string, i: nat): Option<Key>
    decreases |keys| - i
  {
    if i >= |keys| then None else if keys[i].id == id then Some(keys[i]) else ById(keys, id, i + 1)
  }

  function ByValue(keys: seq<Key>, value: string, i: nat): Option<Key>
    decreases |keys| - i
  {
    if i >= |keys| then None else if keys[i].value == value then Some(keys[i]) else ByValue(keys, value, i + 1)
  }

  function Primary(keys: seq<Key>): Option<Key> {
    var named := ByName(keys, DEFAULT_KEY, 0);
    if named.Some? then named else if keys != [] then Some(keys[0]) else None
  }

  /** The key a model uses: by its id, else by its name or its value, else the primary one. */
  function KeyOf(keys: seq<Key>, m: Model): Result<Option<Key>> {
    if Strip(m.keyId) != "" then
      var found := ById(keys, Strip(m.keyId), 0);
      if found.None? then Failure else Success(found)
    else
      var valued := ByValue(keys, Strip(m.keyValue), 0);
      var name := if Strip(m.keyName) != "" then Strip(m.keyName) else if valued.Some? then valued.value.name else "";
      var named := if name != "" then ByName(keys, name, 0) else None;
      Success(if named.Some? then named else Primary(keys))
  }

  // ---- entries ----

  predicate IsAdapter(s: string) { s == "openai" || s == "anthropic" || s == "chatgpt" }

  function SlashAt(s: string, i: nat): Option<nat>
    requires i <= |s|
    ensures SlashAt(s, i).Some? ==> i <= SlashAt(s, i).value < |s|
    decreases |s| - i
  {
    if i == |s| then None else if s[i] == '/' then Some(i) else SlashAt(s, i + 1)
  }

  /** A model under the prefix of its adapter, whichever prefix it had. */
  function Canonical(value: string, surface: string, adapter: Option<string>): string {
    var model := Strip(value);
    var slash := SlashAt(model, 0);
    var raw := if slash.Some? && IsAdapter(model[..slash.value]) then Strip(model[slash.value + 1..]) else model;
    if raw == "" then ""
    else adapter.GetOr(if surface == "anthropic" then "anthropic" else "openai") + "/" + raw
  }

  function Order(m: Model): Result<int> {
    var mode := Mode(m);
    if mode == "relay_multiplier" then if m.effective.Some? then Success(m.effective.value) else Failure
    else if mode == "manual" then Success(m.manual)
    else Failure
  }

  predicate IsOrderMode(s: string) { s == "manual" || s == "relay_multiplier" }

  function Mode(m: Model): string { if Strip(m.mode) == "" then "manual" else Strip(m.mode) }

  predicate Active(p: Provider, m: Model) { p.enabled && m.modelEnabled }

  /** What has to hold for a model to be saved. */
  predicate CanSave(p: Provider, m: Model) {
    && Strip(p.name) != "" && NormalizedKeys(p).Success? && Order(m).Success?
    && KeyOf(NormalizedKeys(p).value, m).Success?
    && (Active(p, m) ==> Strip(m.name) != "" && Canonical(m.upstream, m.surface, p.adapter) != "")
  }

  function ModelKey(p: Provider, m: Model): Option<Key>
    requires CanSave(p, m)
  {
    KeyOf(NormalizedKeys(p).value, m).value
  }

  /** The entry of a model with the deployment id it was given. */
  function EntryOf(p: Provider, m: Model, id: string): Entry
    requires CanSave(p, m)
  {
    var key := ModelKey(p, m);
    Entry(Strip(p.name), Strip(m.name), Canonical(m.upstream, m.surface, p.adapter), m.surface, Some(m.modelEnabled),
          BaseRef(p, Active(p, m)), KeyRef(p, key, Active(p, m)),
          if key.Some? then key.value.id else "", if key.Some? then key.value.name else "",
          Mode(m), m.manual, Order(m).value, id, m.rest)
  }

  function BaseRef(p: Provider, active: bool): Ref {
    if active && p.base != "" then Alias(BaseAnchor(Strip(p.name))) else Text(p.base)
  }

  function KeyRef(p: Provider, key: Option<Key>, active: bool): Ref {
    if key.None? then Text("")
    else if active then Alias(KeyAnchor(Strip(p.name), key.value.name)) else Text(key.value.value)
  }

  // ---- deployment ids ----

  predicate IsHex(c: char) { '0' <= c <= '9' || 'a' <= c <= 'f' }

  function Lowered(s: string): string {
    if s == "" then "" else Lowered(s[..|s| - 1]) + [Lower(s[|s| - 1])]
  }

  function Lower(c: char): char { if 'A' <= c <= 'Z' then c - 'A' + 'a' else c }

  predicate IsDeploymentId(s: string) { |s| == 8 && forall i | 0 <= i < |s| :: IsHex(s[i]) }

  const ATTEMPTS: nat := 128

  /** The id a model keeps, if it is a proper one and nobody had it before. */
  function KeptId(m: Model, seen: set<string>): Option<string> {
    var id := Lowered(Strip(m.deploymentId));
    if IsDeploymentId(id) && id !in seen then Some(id) else None
  }

  /** The first draw before the end that nobody had before. */
  function FirstNew(seen: set<string>, draw: nat -> string, from: nat, end: nat): Option<nat>
    decreases end - from
  {
    if from >= end then None else if draw(from) !in seen then Some(from) else FirstNew(seen, draw, from + 1, end)
  }

  /** Random ids until one is new, at most 128 times. */
  method RandomDeploymentId(seen: set<string>, draw: nat -> string, from: nat) returns (r: Result<string>, next: nat)
    ensures r.Success? ==> r.value !in seen && from < next && r.value == draw(next - 1)
    ensures r.Failure? ==> next == from + ATTEMPTS && forall k: nat | from <= k < from + ATTEMPTS :: draw(k) in seen
    ensures FirstNew(seen, draw, from, from + ATTEMPTS) == if r.Success? then Some(next - 1) else None
  {
    next := from;
    ghost var end := from + ATTEMPTS;
    while next < from + ATTEMPTS
      invariant from <= next <= from + ATTEMPTS
      invariant forall k: nat | from <= k < next :: draw(k) in seen
      invariant FirstNew(seen, draw, from, end) == FirstNew(seen, draw, next, end)
    {
      var id := draw(next);
      next := next + 1;
      if id !in seen {
        return Success(id), next;
      }
    }
    return Failure, next;
  }
}
