/** A save that goes through and does not come back whole: two keys with one value. */
module ProviderWitness {
  import opened Wrappers
  import opened PythonText
  import opened ProviderDocuments
  import opened ProviderSaving
  import opened ProviderLoading
  import opened ProviderRoundTrip
  import opened ProviderConservation
  import opened ProviderExactly

  predicate IsLetter(c: char) { 'a' <= c <= 'z' }

  // ---- names that need no cleaning ----

  /** Words joined by single underscores, without one at either end, and no digit in front. */
  predicate IsPlain(s: string) {
    && s != "" && IsLetter(s[0]) && s[|s| - 1] != '_' && Singles(s)
  }

  predicate Singles(s: string) {
    && (forall i | 0 <= i < |s| :: IsWord(s[i]))
    && forall i | 0 <= i < |s| - 1 :: s[i] == '_' ==> s[i + 1] != '_'
  }

  lemma {:induction false} PlainWords(s: string)
    requires Singles(s)
    ensures Words(s) == s
  {
    if s != "" {
      var front, c := s[..|s| - 1], s[|s| - 1];
      PlainWords(front);
      assert s == front + [c];
    }
  }

  /** Such a name is its own part of an anchor. */
  lemma {:induction false} PlainPart(s: string, fallback: string)
    requires IsPlain(s)
    ensures Strip(s) == s && AnchorPart(s, fallback) == s
  {
    PlainStripped("", s);
    PlainWords(s);
  }

  lemma {:induction false} PlainStripped(none: string, s: string)
    requires none == "" && IsPlain(s)
    ensures Strip(s) == s
  {
    assert IsWord(s[|s| - 1]);
    StripPadded(none, s, none);
    assert none + s + none == s;
  }

  lemma {:induction false} LetterPlain(c: char)
    requires IsLetter(c)
    ensures IsPlain([c]) && IsMetadata([c])
  {
    PlainStripped("", [c]);
    ShortUtf8([c]);
  }

  lemma {:induction false} ShortUtf8(s: string)
    ensures Utf8Length(s) <= 4 * |s|
  {
    if s != "" { ShortUtf8(s[..|s| - 1]); }
  }

  /** The anchor of a key whose name is a letter, and of the one called default. */
  lemma {:induction false} KeyParts(n: char, x: char, stem: string, usual: string, part: string)
    requires IsLetter(n) && IsLetter(x) && stem == "api_key_" && usual == DEFAULT_KEY && part == "api_key"
    ensures KeyAnchor([n], [x]) == [n] + "_" + (stem + [x]) && KeyAnchor([n], usual) == [n] + "_" + part
  {
    PlainPart([n], "provider");
    PlainPart([x], "value");
    LabelPlain(stem, x);
    PlainPart(stem + [x], "value");
    UsualPlain(usual);
    PlainStripped("", usual);
  }

  lemma {:induction false} LabelPlain(stem: string, x: char)
    requires stem == "api_key_" && IsLetter(x)
    ensures IsPlain(stem + [x]) && |stem| == 8 && [x] != DEFAULT_KEY
  {
    forall i | 0 <= i < |stem| ensures IsWord(stem[i]) { }
    forall i | 0 <= i < |stem| - 1 ensures stem[i] == '_' ==> stem[i + 1] != '_' { }
  }

  lemma {:induction false} UsualPlain(usual: string)
    requires usual == DEFAULT_KEY
    ensures IsPlain(usual) && |usual| == 7
  {
    forall i | 0 <= i < |usual| ensures IsWord(usual[i]) && usual[i] != '_' { }
  }

  // ---- the save ----

  /** A provider with two keys of one value, and no models. */
  function Twins(n: char, x: char, c: char, d: char, value: string): Provider {
    Provider([n], true, "", None, [Key([c], DEFAULT_KEY, value), Key([d], [x], value)], [])
  }

  lemma {:induction false} TwinKeys(keys: seq<Key>, n: char, x: char, c: char, d: char, usual: string, value: string)
    requires IsLetter(n) && IsLetter(x) && IsLetter(c) && IsLetter(d) && c != d && usual == DEFAULT_KEY && value != ""
    requires keys == [Key([c], usual, value), Key([d], [x], value)]
    ensures TidyKeys(keys) && KeysValid(keys) && NamedKeys([n], keys) == Success(keys) && !ValuesDistinct(keys)
  {
    hide Strip, IsPlain, Utf8Length, IsDerived, NamedKeys;
    LetterPlain(x);
    LetterPlain(c);
    LetterPlain(d);
    PlainStripped("", [x]);
    PlainStripped("", [c]);
    PlainStripped("", [d]);
    UsualPlain(usual);
    PlainStripped("", usual);
    ShortUtf8(usual);
    assert |usual| != |[x]|;
    TidyNamed([n], keys);
    assert keys[0].value == keys[1].value;
  }

  lemma {:induction false} AnchorsLast(provider: string, front: seq<Key>, last: Key)
    ensures KeyAnchors(provider, front + [last]) == KeyAnchors(provider, front) + [KeyAnchor(provider, last.name)]
    ensures KeyDefinitions(provider, front + [last])
            == KeyDefinitions(provider, front) + [Definition(KeyAnchor(provider, last.name), Some(last.value))]
  {
    assert (front + [last])[..|front|] == front;
  }

  lemma {:induction false} TwinAnchors(provider: string, first: Key, second: Key)
    ensures KeyAnchors(provider, [first, second]) == [KeyAnchor(provider, first.name), KeyAnchor(provider, second.name)]
    ensures KeyDefinitions(provider, [first, second])
            == [Definition(KeyAnchor(provider, first.name), Some(first.value)),
                Definition(KeyAnchor(provider, second.name), Some(second.value))]
  {
    AnchorsLast(provider, [], first);
    AnchorsLast(provider, [first], second);
    assert [] + [first] == [first] && [first] + [second] == [first, second];
  }

  lemma {:induction false} OneSection(ps: seq<Provider>, section: Section)
    requires |ps| == 1 && SectionOf(ps[0]) == Success(section)
    ensures Sections(ps).Success? && Sections(ps).value == [section]
  {
  }

  lemma {:induction false} OneFlat(ps: seq<Provider>)
    requires |ps| == 1 && ps[0].models == []
    ensures Flat(ps) == []
  {
  }

  lemma {:induction false} OneList(sections: seq<Section>)
    requires |sections| == 1
    ensures DefinitionLists(sections) == [SectionDefinitions(sections[0])]
  {
    assert sections[..0] == [];
  }

  lemma {:induction false} OneJoined(dss: seq<seq<Definition>>)
    requires |dss| == 1
    ensures Joined(dss) == dss[0]
  {
    assert dss[..0] == [] && [] + dss[0] == dss[0];
  }

  /** The anchors of a provider without an address. */
  lemma {:induction false} TwinDefinitions(sections: seq<Section>, keys: seq<Key>, whole: string, first: string,
                                           second: string)
    requires |sections| == 1 && sections[0].base == "" && sections[0].keys == keys && |keys| == 2
    requires Anchor(sections[0].name, "provider") == whole && Distinct([whole, first, second])
    requires KeyDefinitions(sections[0].name, keys)
             == [Definition(first, Some(keys[0].value)), Definition(second, Some(keys[1].value))]
    ensures AnchorsUnique(Definitions(sections))
  {
    hide Anchor, KeyDefinitions, Strip, KeyAnchor, AnchorPart, DefinitionLists, Joined;
    OneList(sections);
    OneJoined(DefinitionLists(sections));
    var more := KeyDefinitions(sections[0].name, keys);
    var all, texts := [Definition(whole, None)] + [] + more, [whole, first, second];
    assert SectionDefinitions(sections[0]) == all;
    forall i, j | 0 <= i < j < |all| ensures all[i].anchor != all[j].anchor {
      assert all[i].anchor == texts[i] && all[j].anchor == texts[j];
    }
  }

  lemma {:induction false} TwinSection(p: Provider, keys: seq<Key>, first: string, second: string)
    requires p.keys == keys && |keys| == 2 && NamedKeys(p.name, keys) == Success(keys)
    requires KeyAnchors(Strip(p.name), keys) == [first, second] && first != second
    ensures SectionOf(p) == Success(Section(Strip(p.name), p.enabled, p.base, p.adapter, keys))
  {
  }

  /** Two keys of one value are saved, but only the first of them is loaded. */
  lemma {:induction false} TwinsFail(n: char, x: char, c: char, d: char, value: string)
    requires IsLetter(n) && IsLetter(x) && IsLetter(c) && IsLetter(d) && c != d && value != ""
    ensures var ps := [Twins(n, x, c, d, value)];
            && Savable(ps) && Identified(Flat(ps), []) && AddressesNormal(ps)
            && !AllCome(ps, Loaded(Saved(ps, [])))
  {
    var p := Twins(n, x, c, d, value);
    PlainNames(p, p.keys, n, x, "provider", "api_key", "api_key_", DEFAULT_KEY);
    TwinKeys(p.keys, n, x, c, d, DEFAULT_KEY, value);
    TwinSaved([p], p.keys, n, "provider", "api_key", "api_key_", x);
    TwinsLost([p], p.keys);
  }

  /** The names of the two keys and their anchors. */
  lemma {:induction false} PlainNames(p: Provider, keys: seq<Key>, n: char, x: char, whole: string, first: string,
                                      stem: string, usual: string)
    requires IsLetter(n) && IsLetter(x) && p.keys == keys && |keys| == 2
    requires keys[0].name == usual == DEFAULT_KEY && keys[1].name == [x]
    requires whole == "provider" && first == "api_key" && stem == "api_key_"
    ensures Strip([n]) == [n] && Anchor([n], whole) == [n] + "_" + whole
    ensures KeyAnchors([n], keys) == [[n] + "_" + first, [n] + "_" + (stem + [x])]
    ensures KeyDefinitions([n], keys) == [Definition([n] + "_" + first, Some(keys[0].value)),
                                          Definition([n] + "_" + (stem + [x]), Some(keys[1].value))]
    ensures |whole| == 8 && |first| == 7 && |stem| == 8
  {
    hide Strip, Words, AnchorPart, KeyAnchor, IsPlain, KeyDefinitions, KeyAnchors;
    LetterPlain(n);
    PlainPart([n], "provider");
    KeyParts(n, x, stem, usual, first);
    TwinAnchors([n], keys[0], keys[1]);
    assert keys == [keys[0], keys[1]];
  }

  lemma {:induction false} TwinSaved(ps: seq<Provider>, keys: seq<Key>, n: char, whole: string, first: string,
                                     stem: string, x: char)
    requires |ps| == 1 && ps[0].name == [n] == Strip([n]) && ps[0].base == "" && ps[0].keys == keys && ps[0].models == []
    requires |keys| == 2 && NamedKeys([n], keys) == Success(keys) && KeysValid(keys) && keys[0].id != keys[1].id
    requires whole == "provider" && |whole| == 8 && |first| == 7 && |stem| == 8 && Anchor([n], whole) == [n] + "_" + whole
    requires KeyAnchors([n], keys) == [[n] + "_" + first, [n] + "_" + (stem + [x])]
    requires KeyDefinitions([n], keys) == [Definition([n] + "_" + first, Some(keys[0].value)),
                                           Definition([n] + "_" + (stem + [x]), Some(keys[1].value))]
    ensures Savable(ps) && Flat(ps) == [] && NormalizedKeys(ps[0]) == Success(keys)
  {
    TwinApart(n, whole, first, stem, x);
    TwinSavable(ps, keys, [n] + "_" + whole, [n] + "_" + first, [n] + "_" + (stem + [x]));
  }

  lemma {:induction false} TwinSavable(ps: seq<Provider>, keys: seq<Key>, whole: string, first: string,
                                       second: string)
    requires |ps| == 1 && ps[0].base == "" && ps[0].keys == keys && ps[0].models == []
    requires Strip(ps[0].name) == ps[0].name != "" && Anchor(ps[0].name, "provider") == whole
    requires |keys| == 2 && NamedKeys(ps[0].name, keys) == Success(keys) && KeysValid(keys) && keys[0].id != keys[1].id
    requires KeyAnchors(ps[0].name, keys) == [first, second] && Distinct([whole, first, second])
    requires KeyDefinitions(ps[0].name, keys)
             == [Definition(first, Some(keys[0].value)), Definition(second, Some(keys[1].value))]
    ensures Savable(ps) && Flat(ps) == [] && NormalizedKeys(ps[0]) == Success(keys)
  {
    hide Words, AnchorPart, NamedKeys, KeyDefinitions, KeysValid, KeyAnchors, Anchor, Strip, Definitions;
    hide SectionsReadable, SectionOf, AnchorsUnique;
    var texts := [whole, first, second];
    assert texts[1] != texts[2];
    TwinSection(ps[0], keys, first, second);
    var section := Section(ps[0].name, ps[0].enabled, "", ps[0].adapter, keys);
    OneSection(ps, section);
    OneFlat(ps);
    TwinDefinitions([section], keys, whole, first, second);
    TwinReadable([section], keys);
  }

  lemma {:induction false} TwinsLost(ps: seq<Provider>, keys: seq<Key>)
    requires |ps| == 1 && Savable(ps) && Flat(ps) == [] && ps[0].base == ""
    requires NormalizedKeys(ps[0]) == Success(keys) && !ValuesDistinct(keys)
    ensures Identified(Flat(ps), []) && AddressesNormal(ps) && !AllCome(ps, Loaded(Saved(ps, [])))
  {
    hide Sections, SectionsReadable, Loaded, Saved, Strip, AllCome, Dumpable, AllSavable, NormalizedKeys;
    assert !ValuesDistinct(Normal(ps[0]).keys);
    SaveThenLoadExactly(ps, []);
  }

  lemma {:induction false} TwinApart(n: char, whole: string, usual: string, stem: string, x: char)
    requires |whole| == 8 && |usual| == 7 && |stem| == 8
    ensures Distinct([[n] + "_" + whole, [n] + "_" + usual, [n] + "_" + (stem + [x])])
  {
    var texts := [[n] + "_" + whole, [n] + "_" + usual, [n] + "_" + (stem + [x])];
    assert |texts[0]| == 10 && |texts[1]| == 9 && |texts[2]| == 11;
  }

  lemma {:induction false} TwinReadable(sections: seq<Section>, keys: seq<Key>)
    requires |sections| == 1 && sections[0].keys == keys && KeysValid(keys) && |keys| == 2 && keys[0].id != keys[1].id
    requires AnchorsUnique(Definitions(sections))
    ensures SectionsReadable(sections)
  {
  }
}
