/** Reading back what a save has made: whose anchors are all there, and which saves are refused for them. */
module ProviderReload {
  import opened Wrappers
  import opened PythonText
  import opened ProviderDocuments
  import opened ProviderSaving

  // ---- keys and anchors of a section ----

  lemma {:induction false} NameFound(keys: seq<Key>, name: string, i: nat)
    ensures ByName(keys, name, i).Some? ==> ByName(keys, name, i).value in keys
    decreases |keys| - i
  {
    if i < |keys| { NameFound(keys, name, i + 1); }
  }

  lemma {:induction false} IdFound(keys: seq<Key>, id: string, i: nat)
    ensures ById(keys, id, i).Some? ==> ById(keys, id, i).value in keys
    decreases |keys| - i
  {
    if i < |keys| { IdFound(keys, id, i + 1); }
  }

  lemma PrimaryFound(keys: seq<Key>)
    ensures Primary(keys).None? ==> keys == []
    ensures Primary(keys).Some? ==> Primary(keys).value in keys
  {
    NameFound(keys, DEFAULT_KEY, 0);
  }

  /** The key of a model is one of those it is looked up in, and only without any key there is none. */
  lemma KeyOfFound(keys: seq<Key>, m: Model)
    requires KeyOf(keys, m).Success?
    ensures KeyOf(keys, m).value.None? ==> keys == []
    ensures KeyOf(keys, m).value.Some? ==> KeyOf(keys, m).value.value in keys
  {
    IdFound(keys, Strip(m.keyId), 0);
    PrimaryFound(keys);
    var valued := ByValue(keys, Strip(m.keyValue), 0);
    NameFound(keys, if Strip(m.keyName) != "" then Strip(m.keyName) else if valued.Some? then valued.value.name else "", 0);
  }

  lemma {:induction false} DefinedKey(provider: string, keys: seq<Key>, a: nat)
    requires a < |keys|
    ensures Definition(KeyAnchor(provider, keys[a].name), Some(keys[a].value)) in KeyDefinitions(provider, keys)
  {
    if a < |keys| - 1 { DefinedKey(provider, keys[..|keys| - 1], a); }
  }

  lemma {:induction false} ListAt(sections: seq<Section>, j: nat)
    requires j < |sections|
    ensures |DefinitionLists(sections)| == |sections|
    ensures DefinitionLists(sections)[j] == SectionDefinitions(sections[j])
  {
    hide SectionDefinitions;
    ListCount(sections);
    var front := sections[..|sections| - 1];
    if j < |front| {
      ListCount(front);
      ListAt(front, j);
    }
  }

  lemma {:induction false} ListCount(sections: seq<Section>)
    ensures |DefinitionLists(sections)| == |sections|
  {
    if sections != [] { ListCount(sections[..|sections| - 1]); }
  }

  lemma {:induction false} JoinedHas(dss: seq<seq<Definition>>, j: nat, d: Definition)
    requires j < |dss| && d in dss[j]
    ensures d in Joined(dss)
  {
    if j < |dss| - 1 { JoinedHas(dss[..|dss| - 1], j, d); }
  }

  lemma SectionDefined(sections: seq<Section>, j: nat, d: Definition)
    requires j < |sections| && d in SectionDefinitions(sections[j])
    ensures d in Definitions(sections)
  {
    ListAt(sections, j);
    JoinedHas(DefinitionLists(sections), j, d);
  }

  lemma {:induction false} SectionAt(ps: seq<Provider>, j: nat)
    requires Sections(ps).Success? && j < |ps|
    ensures |Sections(ps).value| == |ps| && SectionOf(ps[j]) == Success(Sections(ps).value[j])
  {
    if |ps| > 1 {
      SectionAt(ps[..|ps| - 1], if j < |ps| - 1 then j else 0);
    }
  }

  // ---- entries ----

  predicate InSections(sections: seq<Section>, o: Owned)
    requires CanSave(o.provider, o.model)
  {
    exists j :: 0 <= j < |sections| && SectionOf(o.provider) == Success(sections[j])
  }

  lemma IsDefined(ds: seq<Definition>, d: Definition)
    requires d in ds
    ensures Defined(ds, Alias(d.anchor))
  {
    var i :| 0 <= i < |ds| && ds[i] == d;
    assert ds[i].anchor == d.anchor;
  }

  lemma KeyReadable(sections: seq<Section>, j: nat, key: Key)
    requires SectionsReadable(sections) && j < |sections| && key in sections[j].keys
    ensures IsKeyId(key.id) && Defined(Definitions(sections), Alias(KeyAnchor(sections[j].name, key.name)))
  {
    var keys := sections[j].keys;
    var a :| 0 <= a < |keys| && keys[a] == key;
    assert KeysValid(keys);
    DefinedKey(sections[j].name, keys, a);
    var d := Definition(KeyAnchor(sections[j].name, key.name), Some(key.value));
    SectionDefined(sections, j, d);
    IsDefined(Definitions(sections), d);
  }

  lemma BaseReadable(sections: seq<Section>, j: nat)
    requires j < |sections| && sections[j].base != ""
    ensures Defined(Definitions(sections), Alias(BaseAnchor(sections[j].name)))
  {
    var d := Definition(BaseAnchor(sections[j].name), Some(sections[j].base));
    assert d in SectionDefinitions(sections[j]);
    SectionDefined(sections, j, d);
    IsDefined(Definitions(sections), d);
  }

  lemma EntryReadable(sections: seq<Section>, o: Owned, id: string)
    requires CanSave(o.provider, o.model) && IsDeploymentId(id) && InSections(sections, o) && SectionsReadable(sections)
    ensures var e := EntryOf(o.provider, o.model, id);
            var ds := if Active(o.provider, o.model) then Definitions(sections) else [];
            EntryValid(e) && Defined(ds, e.base) && Defined(ds, e.key)
  {
    var p := o.provider;
    var j :| 0 <= j < |sections| && SectionOf(p) == Success(sections[j]);
    HexStripped(id);
    KeyOfFound(sections[j].keys, o.model);
    if ModelKey(p, o.model).Some? { KeyReadable(sections, j, ModelKey(p, o.model).value); }
    if p.base != "" { BaseReadable(sections, j); }
  }

  lemma {:induction false} SelectedReadable(sections: seq<Section>, os: seq<Owned>, ids: seq<string>, on: bool)
    requires AllSavable(os) && Identified(os, ids) && SectionsReadable(sections)
    requires forall i | 0 <= i < |os| :: InSections(sections, os[i])
    ensures EntriesReadable(Select(os, ids, on), if on then Definitions(sections) else [])
  {
    hide EntryOf, SectionOf, IsDeploymentId, Definitions, SectionsReadable, EntryValid, Defined;
    if os != [] {
      var n := |os| - 1;
      IdentifiedFront(os, ids);
      SelectedReadable(sections, os[..n], ids[..n], on);
      if Active(os[n].provider, os[n].model) == on {
        EntryReadable(sections, os[n], ids[n]);
        OneMoreReadable(Select(os[..n], ids[..n], on), EntryOf(os[n].provider, os[n].model, ids[n]),
                        if on then Definitions(sections) else []);
      }
    }
  }

  lemma OneMoreReadable(es: seq<Entry>, e: Entry, ds: seq<Definition>)
    requires EntriesReadable(es, ds) && EntryValid(e) && Defined(ds, e.base) && Defined(ds, e.key)
    ensures EntriesReadable(es + [e], ds)
  {
  }

  lemma {:induction false} FlatFrom(ps: seq<Provider>, k: nat) returns (j: nat)
    requires k < |Flat(ps)|
    ensures j < |ps| && Flat(ps)[k].provider == ps[j]
  {
    var n := |ps| - 1;
    if k < |Flat(ps[..n])| {
      j := FlatFrom(ps[..n], k);
    } else {
      OwnedAt(ps[n], ps[n].models);
      j := n;
    }
  }

  /** What was saved is readable exactly when its sections are. */
  lemma SavedReadable(ps: seq<Provider>, ids: seq<string>)
    requires Dumpable(ps) && Identified(Flat(ps), ids)
    ensures Readable(Saved(ps, ids)) <==> SectionsReadable(Sections(ps).value)
  {
    var sections, os := Sections(ps).value, Flat(ps);
    if SectionsReadable(sections) {
      forall k | 0 <= k < |os| ensures InSections(sections, os[k]) {
        var j := FlatFrom(ps, k);
        SectionAt(ps, j);
        assert SectionOf(os[k].provider) == Success(sections[j]);
      }
      SelectedReadable(sections, os, ids, true);
      SelectedReadable(sections, os, ids, false);
    }
  }

  /**
   A save goes through exactly when all providers and models can be written down, every
   model finds an id, and the text can be read back: no two anchors and no two key ids are
   equal, and key names and ids are proper ones.  It splits the models over two lists.
   */
  method SaveConfig(ps: seq<Provider>, draw: nat -> string)
      returns (ending: Ending, document: Document, ghost ids: seq<string>)
    requires forall n :: IsDeploymentId(draw(n))
    ensures ending == Fine <==> Savable(ps) && Given(Flat(ps), draw).Some?
    ensures ending == Fine ==> Identified(Flat(ps), ids) && document == Saved(ps, ids)
    ensures ending == Fine ==> ids == Given(Flat(ps), draw).value.ids
    ensures ending == Refused ==> !Dumpable(ps)
    ensures ending == Unreadable ==> Dumpable(ps) && !SectionsReadable(Sections(ps).value)
    ensures ending == NoNewId ==> Given(Flat(ps), draw).None?
  {
    ending, document, ids := MakeDocument(ps, draw);
    if ending == Fine {
      IdsNeverCollide(ps, ids);
      var unique := AssertUniqueDeploymentIds(document.active + document.disabled);
      if !unique {
        return Refused, document, ids;
      }
      SavedReadable(ps, ids);
      if !Readable(document) {
        ending := Unreadable;
      }
    }
  }

  /** The document, before it is checked. */
  method MakeDocument(ps: seq<Provider>, draw: nat -> string)
      returns (ending: Ending, document: Document, ghost ids: seq<string>)
    requires forall n :: IsDeploymentId(draw(n))
    ensures ending == Fine ==> Dumpable(ps) && Identified(Flat(ps), ids) && document == Saved(ps, ids)
    ensures ending == Fine ==> Given(Flat(ps), draw).Some? && ids == Given(Flat(ps), draw).value.ids
    ensures ending == Refused ==> !Dumpable(ps)
    ensures ending == NoNewId ==> Given(Flat(ps), draw).None?
    ensures ending != Unreadable
  {
    var active, disabled;
    ending, active, disabled, ids := SaveEntries(ps, draw);
    document := Document([], active, disabled);
    if ending == Fine {
      var sections := DumpSections(ps);
      if sections.Failure? {
        return Refused, document, ids;
      }
      document := Document(sections.value, active, disabled);
    }
  }

  method SaveEntries(ps: seq<Provider>, draw: nat -> string)
      returns (ending: Ending, active: seq<Entry>, disabled: seq<Entry>, ghost ids: seq<string>)
    requires forall n :: IsDeploymentId(draw(n))
    ensures ending == Fine ==>
              NamesDistinct(ps) && AllSavable(Flat(ps)) && Identified(Flat(ps), ids)
              && active == Select(Flat(ps), ids, true) && disabled == Select(Flat(ps), ids, false)
    ensures ending == Fine ==> Given(Flat(ps), draw).Some? && ids == Given(Flat(ps), draw).value.ids
    ensures ending == Refused ==> !Dumpable(ps)
    ensures ending == NoNewId ==> Given(Flat(ps), draw).None?
    ensures ending != Unreadable
  {
    active, disabled := [], [];
    var seen: set<string>, at: nat := {}, 0;
    var names: set<string> := {};
    ids := [];
    for i := 0 to |ps|
      invariant Progress(Flat(ps[..i]), ids, seen, active, disabled)
      invariant Given(Flat(ps[..i]), draw) == Some(Giving(ids, at))
      invariant NamesSeen(ps[..i], names)
    {
      var name := Strip(ps[i].name);
      NameStep(ps, i, names);
      if name == "" || name in names {
        return Refused, active, disabled, ids;
      }
      names := names + {name};
      FlatStep(ps, i);
      ending, ids, seen, active, disabled, at :=
        SaveModels(ps[i], Flat(ps[..i]), ids, seen, active, disabled, draw, at);
      if ending != Fine {
        if ending == Refused {
          var k :| 0 <= k < |ps[i].models| && !CanSave(ps[i], ps[i].models[k]);
          NotSavable(ps, i, k);
        } else {
          GivenFails(ps, i + 1, draw);
        }
        return;
      }
    }
    assert ps[..|ps|] == ps;
    ending := Fine;
  }

  // ---- names that clash ----

  lemma BlankBecomesUnderscore(a: char, b: char, c: char)
    requires 'a' <= a <= 'z' && 'a' <= b <= 'z' && (c == ' ' || c == '_')
    ensures AnchorPart([a, c, b], "provider") == [a, '_', b]
  {
    var s := [a, c, b];
    assert s[..2] == [a, c] && s[..2][..1] == [a] && [a][..0] == "";
    assert Words([a]) == [a] && Words(s[..2]) == [a] + "_" && Words(s) == [a] + "_" + [b];
    assert Words(s) == [a, '_', b];
    StripPadded("", s, "");
    assert "" + s + "" == s;
  }

  /** Providers with distinct names are refused when the names differ in a blank and an underscore only. */
  lemma NamesMayClash(ps: seq<Provider>, i: nat, j: nat, a: char, b: char)
    requires 'a' <= a <= 'z' && 'a' <= b <= 'z' && Sections(ps).Success?
    requires i < j < |ps| && Strip(ps[i].name) == [a, ' ', b] && Strip(ps[j].name) == [a, '_', b]
    ensures !Savable(ps)
  {
    BlankBecomesUnderscore(a, b, ' ');
    BlankBecomesUnderscore(a, b, '_');
    SectionAt(ps, i);
    SectionAt(ps, j);
    var sections := Sections(ps).value;
    SharedAnchor(sections, i, j, Definition(Anchor(sections[i].name, "provider"), None));
  }

  /** A definition that stands in two sections is a repeated anchor. */
  lemma SharedAnchor(sections: seq<Section>, i: nat, j: nat, d: Definition)
    requires i < j < |sections| && d in SectionDefinitions(sections[i]) && d in SectionDefinitions(sections[j])
    ensures !AnchorsUnique(Definitions(sections))
  {
    ListAt(sections, i);
    ListAt(sections, j);
    JoinedTwice(DefinitionLists(sections), i, j, d);
  }

  lemma {:induction false} JoinedTwice(dss: seq<seq<Definition>>, i: nat, j: nat, d: Definition)
    requires i < j < |dss| && d in dss[i] && d in dss[j]
    ensures !AnchorsUnique(Joined(dss))
  {
    var rest := dss[..|dss| - 1];
    if j == |rest| {
      JoinedHas(rest, i, d);
      InBoth(Joined(rest), dss[j], d);
    } else {
      JoinedTwice(rest, i, j, d);
      InFront(Joined(rest), dss[|rest|]);
    }
  }

  lemma InBoth(front: seq<Definition>, last: seq<Definition>, d: Definition)
    requires d in front && d in last
    ensures !AnchorsUnique(front + last)
  {
    var x :| 0 <= x < |front| && front[x] == d;
    var y :| 0 <= y < |last| && last[y] == d;
    assert (front + last)[x] == d && (front + last)[|front| + y] == d;
  }

  lemma InFront(front: seq<Definition>, last: seq<Definition>)
    requires !AnchorsUnique(front)
    ensures !AnchorsUnique(front + last)
  {
    var x, y :| 0 <= x < y < |front| && front[x].anchor == front[y].anchor;
    assert (front + last)[x] == front[x] && (front + last)[y] == front[y];
  }
}
