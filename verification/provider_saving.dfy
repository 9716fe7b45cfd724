/** Saving: the loops that split an editor's models over two lists and give them their ids. */
module ProviderSaving {
  import opened Wrappers
  import opened PythonText
  import opened ProviderDocuments

  // ---- what is saved ----

  /** A model together with the provider it stands under. */
  datatype Owned = Owned(provider: Provider, model: Model)

  function OwnedBy(p: Provider, models: seq<Model>): seq<Owned> {
    if models == [] then [] else OwnedBy(p, models[..|models| - 1]) + [Owned(p, models[|models| - 1])]
  }

  function Flat(ps: seq<Provider>): seq<Owned> {
    if ps == [] then [] else Flat(ps[..|ps| - 1]) + OwnedBy(ps[|ps| - 1], ps[|ps| - 1].models)
  }

  predicate AllSavable(os: seq<Owned>) { forall i | 0 <= i < |os| :: CanSave(os[i].provider, os[i].model) }

  /** The entries of the models that are active, or of those that are not, in order. */
  function Select(os: seq<Owned>, ids: seq<string>, active: bool): seq<Entry>
    requires |ids| == |os| && AllSavable(os)
  {
    if os == [] then []
    else
      var n := |os| - 1;
      var front := Select(os[..n], ids[..n], active);
      if Active(os[n].provider, os[n].model) == active then front + [EntryOf(os[n].provider, os[n].model, ids[n])]
      else front
  }

  function SectionOf(p: Provider): Result<Section> {
    var keys := NormalizedKeys(p);
    if keys.Failure? then Failure else Success(Section(Strip(p.name), p.enabled, p.base, p.adapter, keys.value))
  }

  function Sections(ps: seq<Provider>): Result<seq<Section>> {
    if ps == [] then Success([])
    else
      var front, last := Sections(ps[..|ps| - 1]), SectionOf(ps[|ps| - 1]);
      if front.Failure? || last.Failure? then Failure else Success(front.value + [last.value])
  }

  predicate NamesDistinct(ps: seq<Provider>) {
    && (forall i | 0 <= i < |ps| :: Strip(ps[i].name) != "")
    && forall i, j | 0 <= i < j < |ps| :: Strip(ps[i].name) != Strip(ps[j].name)
  }

  /** What the loops of a save demand. */
  predicate Dumpable(ps: seq<Provider>) { NamesDistinct(ps) && Sections(ps).Success? && AllSavable(Flat(ps)) }

  /** What a save demands: the text it made is read again before it is written. */
  predicate Savable(ps: seq<Provider>) { Dumpable(ps) && SectionsReadable(Sections(ps).value) }

  function Saved(ps: seq<Provider>, ids: seq<string>): Document
    requires Dumpable(ps) && |ids| == |Flat(ps)|
  {
    Document(Sections(ps).value, Select(Flat(ps), ids, true), Select(Flat(ps), ids, false))
  }

  function Members(ids: seq<string>): set<string> { set id | id in ids }

  /** Every model that has a proper id nobody before it has keeps it, and all ids are proper and distinct. */
  ghost predicate Identified(os: seq<Owned>, ids: seq<string>) {
    && |ids| == |os| && Distinct(ids)
    && (forall i | 0 <= i < |ids| :: IsDeploymentId(ids[i]))
    && forall i | 0 <= i < |os| ::
         var kept := KeptId(os[i].model, Members(ids[..i])); kept.Some? ==> ids[i] == kept.value
  }

  // ---- the ids given ----

  /** The ids given so far, and the number of draws made. */
  datatype Giving = Giving(ids: seq<string>, draws: nat)

  /** The id of one more model: its own, or the first of up to 128 draws that is new. */
  function GiveOne(m: Model, g: Giving, draw: nat -> string): Option<Giving> {
    var seen := Members(g.ids);
    var kept, drawn := KeptId(m, seen), FirstNew(seen, draw, g.draws, g.draws + ATTEMPTS);
    if kept.Some? then Some(Giving(g.ids + [kept.value], g.draws))
    else if drawn.Some? then Some(Giving(g.ids + [draw(drawn.value)], drawn.value + 1))
    else None
  }

  /** The ids of all models in order, unless one model finds none. */
  function Given(os: seq<Owned>, draw: nat -> string): Option<Giving> {
    if os == [] then Some(Giving([], 0))
    else
      var front := Given(os[..|os| - 1], draw);
      if front.None? then None else GiveOne(os[|os| - 1].model, front.value, draw)
  }

  lemma GivenLast(os: seq<Owned>, o: Owned, draw: nat -> string)
    ensures Given(os + [o], draw)
            == if Given(os, draw).None? then None else GiveOne(o.model, Given(os, draw).value, draw)
  {
    assert (os + [o])[..|os|] == os;
  }

  lemma {:induction false} GivenBehind(os: seq<Owned>, more: seq<Owned>, draw: nat -> string)
    requires Given(os, draw).None?
    ensures Given(os + more, draw).None?
  {
    if more == [] {
      assert os + more == os;
    } else {
      var front, last := more[..|more| - 1], more[|more| - 1];
      GivenBehind(os, front, draw);
      GivenLast(os + front, last, draw);
      assert os + more == (os + front) + [last];
    }
  }

  lemma {:induction false} GivenFails(ps: seq<Provider>, i: nat, draw: nat -> string)
    requires i <= |ps| && Given(Flat(ps[..i]), draw).None?
    ensures Given(Flat(ps), draw).None?
    decreases |ps| - i
  {
    if i < |ps| {
      FlatStep(ps, i);
      GivenBehind(Flat(ps[..i]), OwnedBy(ps[i], ps[i].models), draw);
      GivenFails(ps, i + 1, draw);
    } else {
      assert ps[..i] == ps;
    }
  }

  predicate NoDrawTwice(draw: nat -> string, from: nat, end: nat) {
    forall i, j | from <= i < j < end :: draw(i) != draw(j)
  }

  /** A model finds no id only among more than 128 models, or when 128 draws in a row hold one twice. */
  lemma {:induction false} FewFindIds(os: seq<Owned>, draw: nat -> string) returns (from: nat)
    requires Given(os, draw).None?
    ensures |os| > ATTEMPTS || !NoDrawTwice(draw, from, from + ATTEMPTS)
  {
    var n := |os| - 1;
    var front := Given(os[..n], draw);
    if front.None? {
      from := FewFindIds(os[..n], draw);
    } else {
      from := front.value.draws;
      GivenCount(os[..n], draw);
      AllSeen(Members(front.value.ids), draw, from, from + ATTEMPTS);
      if NoDrawTwice(draw, from, from + ATTEMPTS) {
        Pigeons(Members(front.value.ids), draw, from, from + ATTEMPTS);
        MembersCount(front.value.ids);
      }
    }
  }

  lemma {:induction false} GivenCount(os: seq<Owned>, draw: nat -> string)
    requires Given(os, draw).Some?
    ensures |Given(os, draw).value.ids| == |os|
  {
    if os != [] { GivenCount(os[..|os| - 1], draw); }
  }

  lemma {:induction false} AllSeen(seen: set<string>, draw: nat -> string, from: nat, end: nat)
    requires FirstNew(seen, draw, from, end).None?
    ensures forall k: nat | from <= k < end :: draw(k) in seen
    decreases end - from
  {
    if from < end { AllSeen(seen, draw, from + 1, end); }
  }

  lemma {:induction false} Pigeons(seen: set<string>, draw: nat -> string, from: nat, end: nat)
    requires from <= end && NoDrawTwice(draw, from, end) && forall k: nat | from <= k < end :: draw(k) in seen
    ensures |seen| >= end - from
    decreases end - from
  {
    if from < end {
      Pigeons(seen - {draw(from)}, draw, from + 1, end);
    }
  }

  lemma {:induction false} MembersCount(ids: seq<string>)
    ensures |Members(ids)| <= |ids|
  {
    if ids == [] {
      assert Members(ids) == {};
    } else {
      var front := ids[..|ids| - 1];
      MembersCount(front);
      assert ids == front + [ids[|ids| - 1]];
      assert Members(ids) == Members(front) + {ids[|ids| - 1]};
    }
  }

  // ---- the loops ----

  /** One model: its entry with an id not seen before. */
  method SaveModel(o: Owned, ghost ids: seq<string>, seen: set<string>, draw: nat -> string, from: nat)
      returns (r: Result<string>, next: nat)
    requires (forall n :: IsDeploymentId(draw(n))) && seen == Members(ids)
    ensures GiveOne(o.model, Giving(ids, from), draw) == if r.Success? then Some(Giving(ids + [r.value], next)) else None
    ensures r.Success? ==> r.value !in seen && IsDeploymentId(r.value)
    ensures r.Success? && KeptId(o.model, seen).Some? ==> r.value == KeptId(o.model, seen).value
    ensures r.Failure? ==> forall k: nat | from <= k < from + ATTEMPTS :: draw(k) in seen
  {
    next := from;
    var kept := KeptId(o.model, seen);
    if kept.Some? {
      return Success(kept.value), next;
    }
    r, next := RandomDeploymentId(seen, draw, from);
  }

  /** How far saving has come: entries split over the two lists, ids given. */
  ghost predicate Progress(os: seq<Owned>, ids: seq<string>, seen: set<string>, active: seq<Entry>, disabled: seq<Entry>) {
    && Identified(os, ids) && AllSavable(os) && seen == Members(ids)
    && active == Select(os, ids, true) && disabled == Select(os, ids, false)
  }

  lemma ProgressStep(os: seq<Owned>, ids: seq<string>, seen: set<string>, active: seq<Entry>, disabled: seq<Entry>,
                     o: Owned, id: string)
    requires Progress(os, ids, seen, active, disabled)
    requires CanSave(o.provider, o.model) && id !in seen && IsDeploymentId(id)
    requires KeptId(o.model, seen).Some? ==> id == KeptId(o.model, seen).value
    ensures var e := EntryOf(o.provider, o.model, id);
            var on := Active(o.provider, o.model);
            Progress(os + [o], ids + [id], seen + {id}, if on then active + [e] else active,
                     if on then disabled else disabled + [e])
  {
    var n := |os|;
    assert (os + [o])[..n] == os && (ids + [id])[..n] == ids;
    IdentifiedStep(os, ids, o, id);
  }

  lemma IdentifiedStep(os: seq<Owned>, ids: seq<string>, o: Owned, id: string)
    requires Identified(os, ids) && id !in Members(ids) && IsDeploymentId(id)
    requires KeptId(o.model, Members(ids)).Some? ==> id == KeptId(o.model, Members(ids)).value
    ensures Identified(os + [o], ids + [id]) && Members(ids + [id]) == Members(ids) + {id}
  {
    var n := |os|;
    assert (ids + [id])[..n] == ids;
    forall i | 0 <= i < n ensures (ids + [id])[..i] == ids[..i] { }
    forall i | 0 <= i < n ensures ids[i] != id { assert ids[i] in ids; }
  }

  /** Why a save ends with an exception. */
  datatype Ending = Fine | Refused | Unreadable | NoNewId

  /** One model more: its entry goes to one of the two lists. */
  method SaveNext(o: Owned, ghost before: seq<Owned>, ghost ids: seq<string>, seen: set<string>,
                  active: seq<Entry>, disabled: seq<Entry>, draw: nat -> string, from: nat)
      returns (ending: Ending, ghost allIds: seq<string>, allSeen: set<string>, on: seq<Entry>, off: seq<Entry>, at: nat)
    requires forall n :: IsDeploymentId(draw(n))
    requires Progress(before, ids, seen, active, disabled) && Given(before, draw) == Some(Giving(ids, from))
    ensures ending == Fine ==>
              Progress(before + [o], allIds, allSeen, on, off) && Given(before + [o], draw) == Some(Giving(allIds, at))
    ensures ending == Refused ==> !CanSave(o.provider, o.model)
    ensures ending == NoNewId ==> Given(before + [o], draw).None?
    ensures ending != Unreadable
  {
    allIds, allSeen, on, off, at := ids, seen, active, disabled, from;
    if !CanSave(o.provider, o.model) {
      return Refused, allIds, allSeen, on, off, at;
    }
    var id;
    id, at := SaveModel(o, ids, seen, draw, from);
    GivenLast(before, o, draw);
    if id.Failure? {
      return NoNewId, allIds, allSeen, on, off, at;
    }
    ProgressStep(before, ids, seen, active, disabled, o, id.value);
    allSeen := seen + {id.value};
    allIds := ids + [id.value];
    var e := EntryOf(o.provider, o.model, id.value);
    if Active(o.provider, o.model) {
      on := active + [e];
    } else {
      off := disabled + [e];
    }
    ending := Fine;
  }

  /** The models of one provider. */
  method SaveModels(p: Provider, ghost before: seq<Owned>, ghost ids: seq<string>, seen: set<string>,
                    active: seq<Entry>, disabled: seq<Entry>, draw: nat -> string, from: nat)
      returns (ending: Ending, ghost allIds: seq<string>, allSeen: set<string>, on: seq<Entry>, off: seq<Entry>, at: nat)
    requires forall n :: IsDeploymentId(draw(n))
    requires Progress(before, ids, seen, active, disabled) && Given(before, draw) == Some(Giving(ids, from))
    ensures ending == Fine ==> Progress(before + OwnedBy(p, p.models), allIds, allSeen, on, off)
    ensures ending == Fine ==> Given(before + OwnedBy(p, p.models), draw) == Some(Giving(allIds, at))
    ensures ending == Refused ==> exists k :: 0 <= k < |p.models| && !CanSave(p, p.models[k])
    ensures ending == NoNewId ==> Given(before + OwnedBy(p, p.models), draw).None?
    ensures ending != Unreadable
  {
    hide Progress, Given, GiveOne, CanSave, EntryOf;
    allIds, allSeen, on, off, at := ids, seen, active, disabled, from;
    ghost var done := before;
    OwnedNone(before, p);
    for k := 0 to |p.models|
      invariant done == before + OwnedBy(p, p.models[..k])
      invariant Progress(done, allIds, allSeen, on, off) && Given(done, draw) == Some(Giving(allIds, at))
    {
      OwnedStep(before, p, k);
      ending, allIds, allSeen, on, off, at :=
        SaveNext(Owned(p, p.models[k]), done, allIds, allSeen, on, off, draw, at);
      if ending != Fine {
        if ending == NoNewId { OwnedRest(before, p, k + 1, draw); }
        return;
      }
      done := done + [Owned(p, p.models[k])];
    }
    assert p.models[..|p.models|] == p.models;
    ending := Fine;
  }

  ghost predicate NamesSeen(ps: seq<Provider>, names: set<string>) {
    NamesDistinct(ps) && names == set p | p in ps :: Strip(p.name)
  }

  lemma NameStep(ps: seq<Provider>, i: nat, names: set<string>)
    requires i < |ps| && NamesSeen(ps[..i], names)
    ensures var name := Strip(ps[i].name);
            if name == "" || name in names then !NamesDistinct(ps) else NamesSeen(ps[..i + 1], names + {name})
  {
    var name := Strip(ps[i].name);
    if name in names {
      var p :| p in ps[..i] && Strip(p.name) == name;
      var k :| 0 <= k < i && ps[..i][k] == p;
      assert Strip(ps[k].name) == Strip(ps[i].name);
    } else if name != "" {
      assert ps[..i + 1] == ps[..i] + [ps[i]];
      forall k | 0 <= k < i ensures Strip(ps[k].name) != name { assert ps[..i][k] in ps[..i]; }
    }
  }

  method DumpSections(ps: seq<Provider>) returns (r: Result<seq<Section>>)
    ensures r == Sections(ps)
  {
    var sections := [];
    for i := 0 to |ps|
      invariant Sections(ps[..i]) == Success(sections)
    {
      assert ps[..i + 1][..i] == ps[..i];
      var s := SectionOf(ps[i]);
      if s.Failure? {
        SectionsFail(ps, i + 1);
        return Failure;
      }
      sections := sections + [s.value];
    }
    assert ps[..|ps|] == ps;
    return Success(sections);
  }

  lemma {:induction false} SectionsFail(ps: seq<Provider>, i: nat)
    requires i <= |ps| && Sections(ps[..i]).Failure?
    ensures Sections(ps).Failure?
    decreases |ps| - i
  {
    if i < |ps| {
      assert ps[..i + 1][..i] == ps[..i];
      SectionsFail(ps, i + 1);
    } else {
      assert ps[..i] == ps;
    }
  }

  lemma FlatStep(ps: seq<Provider>, i: nat)
    requires i < |ps|
    ensures Flat(ps[..i + 1]) == Flat(ps[..i]) + OwnedBy(ps[i], ps[i].models)
    ensures Flat(ps[..i]) + OwnedBy(ps[i], ps[i].models[..0]) == Flat(ps[..i])
  {
    assert ps[..i + 1][..i] == ps[..i];
  }

  /** A model that finds no id ends the giving, whatever models follow. */
  lemma {:induction false} OwnedRest(before: seq<Owned>, p: Provider, k: nat, draw: nat -> string)
    requires k <= |p.models| && Given(before + OwnedBy(p, p.models[..k]), draw).None?
    ensures Given(before + OwnedBy(p, p.models), draw).None?
    decreases |p.models| - k
  {
    if k < |p.models| {
      OwnedStep(before, p, k);
      GivenLast(before + OwnedBy(p, p.models[..k]), Owned(p, p.models[k]), draw);
      OwnedRest(before, p, k + 1, draw);
    } else {
      assert p.models[..k] == p.models;
    }
  }

  lemma OwnedNone(before: seq<Owned>, p: Provider)
    ensures before + OwnedBy(p, p.models[..0]) == before
  {
  }

  lemma OwnedStep(before: seq<Owned>, p: Provider, k: nat)
    requires k < |p.models|
    ensures before + OwnedBy(p, p.models[..k + 1]) == (before + OwnedBy(p, p.models[..k])) + [Owned(p, p.models[k])]
  {
    assert p.models[..k + 1][..k] == p.models[..k];
  }

  lemma {:induction false} OwnedAt(p: Provider, models: seq<Model>)
    ensures |OwnedBy(p, models)| == |models|
    ensures forall k | 0 <= k < |models| :: OwnedBy(p, models)[k] == Owned(p, models[k])
  {
    if models != [] { OwnedAt(p, models[..|models| - 1]); }
  }

  /** Every model of every provider is among the flat ones. */
  lemma {:induction false} FlatHas(ps: seq<Provider>, i: nat, k: nat) returns (at: nat)
    requires i < |ps| && k < |ps[i].models|
    ensures at < |Flat(ps)| && Flat(ps)[at] == Owned(ps[i], ps[i].models[k])
  {
    var n := |ps| - 1;
    if i < n {
      at := FlatHas(ps[..n], i, k);
    } else {
      OwnedAt(ps[n], ps[n].models);
      at := |Flat(ps[..n])| + k;
    }
  }

  lemma NotSavable(ps: seq<Provider>, i: nat, k: nat)
    requires i < |ps| && k < |ps[i].models| && !CanSave(ps[i], ps[i].models[k])
    ensures !Dumpable(ps)
  {
    var at := FlatHas(ps, i, k);
  }

  // ---- the last check ----

  function ProperId(e: Entry): string { Strip(e.deploymentId) }

  predicate UniqueIds(es: seq<Entry>) {
    forall i, j | 0 <= i < j < |es| :: ProperId(es[i]) == "" || ProperId(es[i]) != ProperId(es[j])
  }

  function ProperIds(es: seq<Entry>): set<string> {
    if es == [] then {}
    else
      var front, id := ProperIds(es[..|es| - 1]), ProperId(es[|es| - 1]);
      if id == "" then front else front + {id}
  }

  method AssertUniqueDeploymentIds(es: seq<Entry>) returns (ok: bool)
    ensures ok <==> UniqueIds(es)
  {
    hide ProperId;
    var seen: set<string> := {};
    for i := 0 to |es|
      invariant UniqueIds(es[..i]) && seen == ProperIds(es[..i])
    {
      assert es[..i + 1] == es[..i] + [es[i]] && es[..i + 1][..i] == es[..i];
      UniqueOneMore(es[..i], es[i]);
      var id := ProperId(es[i]);
      if id != "" {
        if id in seen {
          PrefixNotUnique(es, i + 1);
          return false;
        }
        seen := seen + {id};
      }
    }
    assert es[..|es|] == es;
    ok := true;
  }

  lemma PrefixNotUnique(es: seq<Entry>, n: nat)
    requires n <= |es| && !UniqueIds(es[..n])
    ensures !UniqueIds(es)
  {
    var i, j :| 0 <= i < j < n && ProperId(es[..n][i]) != "" && ProperId(es[..n][i]) == ProperId(es[..n][j]);
    assert es[..n][i] == es[i] && es[..n][j] == es[j];
  }

  lemma {:induction false} ProperIdsAt(es: seq<Entry>, id: string)
    ensures id in ProperIds(es) <==> id != "" && exists k :: 0 <= k < |es| && ProperId(es[k]) == id
  {
    if es != [] {
      var front := es[..|es| - 1];
      ProperIdsAt(front, id);
      if id != "" && exists k :: 0 <= k < |es| && ProperId(es[k]) == id {
        var k :| 0 <= k < |es| && ProperId(es[k]) == id;
        if k < |front| { assert ProperId(front[k]) == id; }
      }
    }
  }

  lemma UniqueOneMore(es: seq<Entry>, e: Entry)
    requires UniqueIds(es)
    ensures UniqueIds(es + [e]) <==> ProperId(e) !in ProperIds(es)
  {
    var id := ProperId(e);
    ProperIdsAt(es, id);
    var all := es + [e];
    if id in ProperIds(es) {
      var k :| 0 <= k < |es| && ProperId(es[k]) == id;
      assert ProperId(all[k]) == ProperId(all[|es|]);
    } else {
      forall k | 0 <= k < |es| ensures ProperId(es[k]) == "" || ProperId(es[k]) != id { }
    }
  }

  lemma HexStripped(id: string)
    requires IsDeploymentId(id)
    ensures Strip(id) == id
  {
    StripPadded("", id, "");
    assert "" + id + "" == id;
  }

  /** The entries carry the ids given, each in one of the lists. */
  lemma {:induction false} SelectedIds(os: seq<Owned>, ids: seq<string>)
    requires Identified(os, ids) && AllSavable(os)
    ensures var on, off := Select(os, ids, true), Select(os, ids, false);
            && UniqueIds(on) && UniqueIds(off)
            && (forall e | e in on || e in off :: ProperId(e) in Members(ids))
            && forall a, b | a in on && b in off :: ProperId(a) != ProperId(b)
  {
    if os != [] {
      var n := |os| - 1;
      IdentifiedFront(os, ids);
      SelectedIds(os[..n], ids[..n]);
      HexStripped(ids[n]);
      assert ids[n] !in Members(ids[..n]);
      assert Members(ids[..n]) <= Members(ids);
      var on := Active(os[n].provider, os[n].model);
      var e := EntryOf(os[n].provider, os[n].model, ids[n]);
      UniqueStep(Select(os[..n], ids[..n], on), e, Members(ids[..n]));
      IdsApart(Select(os[..n], ids[..n], on), Select(os[..n], ids[..n], !on), e, Members(ids[..n]));
    }
  }

  lemma IdsApart(es: seq<Entry>, others: seq<Entry>, e: Entry, ids: set<string>)
    requires forall a, b | a in es && b in others :: ProperId(a) != ProperId(b)
    requires (forall x | x in others :: ProperId(x) in ids) && ProperId(e) !in ids
    ensures forall a, b | a in es + [e] && b in others :: ProperId(a) != ProperId(b)
  {
  }

  lemma IdentifiedFront(os: seq<Owned>, ids: seq<string>)
    requires Identified(os, ids) && os != []
    ensures Identified(os[..|os| - 1], ids[..|os| - 1])
  {
    var n := |os| - 1;
    forall i | 0 <= i < n ensures ids[..n][..i] == ids[..i] { }
  }

  lemma UniqueStep(es: seq<Entry>, e: Entry, ids: set<string>)
    requires UniqueIds(es) && (forall x | x in es :: ProperId(x) in ids) && ProperId(e) !in ids
    ensures UniqueIds(es + [e])
  {
    forall i | 0 <= i < |es| ensures ProperId(es[i]) != ProperId(e) { assert es[i] in es; }
  }

  /** The last check of a save never fails: all deployment ids over both lists are distinct. */
  lemma IdsNeverCollide(ps: seq<Provider>, ids: seq<string>)
    requires Dumpable(ps) && Identified(Flat(ps), ids)
    ensures var d := Saved(ps, ids); UniqueIds(d.active + d.disabled)
  {
    SelectedIds(Flat(ps), ids);
    var on, off := Select(Flat(ps), ids, true), Select(Flat(ps), ids, false);
    forall i, j | 0 <= i < |on| && 0 <= j < |off| ensures ProperId(on[i]) != ProperId(off[j]) {
      assert on[i] in on && off[j] in off;
    }
  }
}
