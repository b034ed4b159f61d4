/**
  The custom-template store (`templateStorage.ts`): at most three templates
  kept under one storage key, at most one of them marked default. The stored
  list is the `templates` field of a `TemplateStore`; each operation reads it,
  changes a copy and writes the copy back, as the source does with
  `localStorage`. Timestamps (`Date.now()`) are parameters.
 */
module TemplateStorage {
  import opened Wrappers
  import opened Lists

  datatype Template = Template(id: string, name: string, css: string, isDefault: bool, createdAt: int, updatedAt: int)

  const MaxTemplates: nat := 3

  function IdIs(id: string): Template -> bool { (t: Template) => t.id == id }
  function IdIsNot(id: string): Template -> bool { (t: Template) => t.id != id }

  /** Every other template loses its default mark. */
  function ClearOtherDefaults(ts: seq<Template>, id: string): (r: seq<Template>)
    ensures |r| == |ts|
  {
    seq(|ts|, i requires 0 <= i < |ts| => if ts[i].id != id then ts[i].(isDefault := false) else ts[i])
  }

  /**
    `saveTemplate(template)`: `None` when the id is new and three templates
    are stored; otherwise the list written back, in which a default template
    has unmarked every other one, an existing id is replaced in place with a
    new `updatedAt`, and a new id is appended with both timestamps set.
   */
  function SaveSpec(ts: seq<Template>, t: Template, now: int): (r: Option<seq<Template>>)
  {
    var idx := FindIndex(ts, IdIs(t.id));
    if idx.None? && |ts| >= MaxTemplates then None
    else
      var cleared := if t.isDefault then ClearOtherDefaults(ts, t.id) else ts;
      match idx
      case Some(i) => Some(cleared[i := t.(updatedAt := now)])
      case None => Some(cleared + [t.(createdAt := now, updatedAt := now)])
  }

  /** `deleteTemplate(id)`: every template with that id is removed; the call always reports success. */
  function DeleteSpec(ts: seq<Template>, id: string): seq<Template> {
    Filter(ts, IdIsNot(id))
  }

  /** `setDefaultTemplate(id)`: the default mark is set exactly on the templates with that id. */
  function SetDefaultSpec(ts: seq<Template>, id: string): (r: seq<Template>)
    ensures |r| == |ts|
  {
    seq(|ts|, i requires 0 <= i < |ts| => ts[i].(isDefault := ts[i].id == id))
  }

  /** `getDefaultTemplate()`: the first default template, else the first template, else `null`. */
  function DefaultTemplate(ts: seq<Template>): Option<Template> {
    match Find(ts, (t: Template) => t.isDefault)
    case Some(t) => Some(t)
    case None => if ts == [] then None else Some(ts[0])
  }

  /** `getTemplateById(id)`: the first template with that id. */
  function TemplateById(ts: seq<Template>, id: string): Option<Template> {
    Find(ts, IdIs(id))
  }

  /** `canAddMoreTemplates()`. */
  predicate CanAddMore(ts: seq<Template>) {
    |ts| < MaxTemplates
  }

  predicate UniqueIds(ts: seq<Template>) {
    forall i, j :: 0 <= i < j < |ts| ==> ts[i].id != ts[j].id
  }

  predicate AtMostOneDefault(ts: seq<Template>) {
    forall i, j :: 0 <= i < j < |ts| && ts[i].isDefault ==> !ts[j].isDefault
  }

  /** The state every operation keeps. */
  predicate Valid(ts: seq<Template>) {
    |ts| <= MaxTemplates && UniqueIds(ts) && AtMostOneDefault(ts)
  }

  /** A save is refused exactly when the id is new and the store is full, which is exactly when no more can be added. */
  lemma SaveRefusedIff(ts: seq<Template>, t: Template, now: int)
    ensures SaveSpec(ts, t, now).None? <==> (forall k :: 0 <= k < |ts| ==> ts[k].id != t.id) && |ts| >= MaxTemplates
    ensures (forall k :: 0 <= k < |ts| ==> ts[k].id != t.id) ==> (SaveSpec(ts, t, now).Some? <==> CanAddMore(ts))
  {
  }

  /** Saving an existing id replaces the first template with that id, in place. */
  lemma SaveReplaces(ts: seq<Template>, t: Template, now: int, i: nat)
    requires i < |ts| && ts[i].id == t.id && forall k :: 0 <= k < i ==> ts[k].id != t.id
    ensures SaveSpec(ts, t, now).Some?
    ensures var r := SaveSpec(ts, t, now).value;
      |r| == |ts| && r[i] == t.(updatedAt := now) &&
      forall k :: 0 <= k < |ts| && k != i ==>
        r[k] == (if t.isDefault && ts[k].id != t.id then ts[k].(isDefault := false) else ts[k])
  {
    assert FindIndex(ts, IdIs(t.id)) == Some(i);
  }

  /** Saving a new id appends it, with both timestamps set, after the others. */
  lemma SaveAppends(ts: seq<Template>, t: Template, now: int)
    requires forall k :: 0 <= k < |ts| ==> ts[k].id != t.id
    requires |ts| < MaxTemplates
    ensures SaveSpec(ts, t, now).Some?
    ensures var r := SaveSpec(ts, t, now).value;
      |r| == |ts| + 1 && r[|ts|] == t.(createdAt := now, updatedAt := now) &&
      forall k :: 0 <= k < |ts| ==>
        r[k] == (if t.isDefault then ts[k].(isDefault := false) else ts[k])
  {
  }

  /** After saving a default template only entries with its id are marked default. */
  lemma SaveDefaultClears(ts: seq<Template>, t: Template, now: int)
    requires t.isDefault && SaveSpec(ts, t, now).Some?
    ensures var r := SaveSpec(ts, t, now).value;
      forall k :: 0 <= k < |r| && r[k].isDefault ==> r[k].id == t.id
  {
  }

  /** A saved template reads back by its id, updated now, and created now when its id was new. */
  lemma SaveThenFind(ts: seq<Template>, t: Template, now: int)
    requires SaveSpec(ts, t, now).Some?
    ensures TemplateById(SaveSpec(ts, t, now).value, t.id) ==
      Some(if FindIndex(ts, IdIs(t.id)).Some? then t.(updatedAt := now) else t.(createdAt := now, updatedAt := now))
  {
    match FindIndex(ts, IdIs(t.id)) {
      case Some(i) => FindReplaced(ts, t, now, i);
      case None => FindAppended(ts, t, now);
    }
  }

  lemma FindReplaced(ts: seq<Template>, t: Template, now: int, i: nat)
    requires FindIndex(ts, IdIs(t.id)) == Some(i)
    ensures SaveSpec(ts, t, now).Some? && FindIndex(SaveSpec(ts, t, now).value, IdIs(t.id)) == Some(i)
    ensures SaveSpec(ts, t, now).value[i] == t.(updatedAt := now)
  {
    SaveReplaces(ts, t, now, i);
  }

  lemma FindAppended(ts: seq<Template>, t: Template, now: int)
    requires FindIndex(ts, IdIs(t.id)).None? && SaveSpec(ts, t, now).Some?
    ensures FindIndex(SaveSpec(ts, t, now).value, IdIs(t.id)) == Some(|ts|)
    ensures SaveSpec(ts, t, now).value[|ts|] == t.(createdAt := now, updatedAt := now)
  {
    SaveAppends(ts, t, now);
  }

  /** Saving keeps the cap, the distinct ids and the single default. */
  lemma SavePreservesValid(ts: seq<Template>, t: Template, now: int)
    requires Valid(ts) && SaveSpec(ts, t, now).Some?
    ensures Valid(SaveSpec(ts, t, now).value)
  {
    var r := SaveSpec(ts, t, now).value;
    var idx := FindIndex(ts, IdIs(t.id));
    if t.isDefault {
      SaveDefaultClears(ts, t, now);
      forall i, j | 0 <= i < j < |r| && r[i].isDefault ensures !r[j].isDefault {
        assert r[i].id == t.id;
      }
    }
  }

  /** Deleting removes every template with the id and keeps every other one, in order. */
  lemma DeleteRemoves(ts: seq<Template>, id: string)
    ensures forall k :: 0 <= k < |DeleteSpec(ts, id)| ==> DeleteSpec(ts, id)[k].id != id
    ensures forall k :: 0 <= k < |ts| && ts[k].id != id ==> ts[k] in DeleteSpec(ts, id)
    ensures (forall k :: 0 <= k < |ts| ==> ts[k].id != id) ==> DeleteSpec(ts, id) == ts
  {
    forall k | 0 <= k < |ts| && ts[k].id != id ensures ts[k] in DeleteSpec(ts, id) {
      FilterKeeps(ts, IdIsNot(id), k);
    }
    FilterSameLength(ts, IdIsNot(id));
  }

  /** The order of the entries a filter keeps: a sub-sequence, so distinct ids and the single default survive. */
  lemma {:induction false} FilterValid(ts: seq<Template>, p: Template -> bool)
    requires Valid(ts)
    ensures Valid(Filter(ts, p))
  {
    if ts != [] {
      assert Valid(ts[1..]) by {
        assert forall k :: 1 <= k < |ts| ==> ts[k] == ts[1..][k - 1];
      }
      FilterValid(ts[1..], p);
      if p(ts[0]) {
        var rest := Filter(ts[1..], p);
        forall j | 0 <= j < |rest| ensures rest[j].id != ts[0].id && (ts[0].isDefault ==> !rest[j].isDefault) {
          FilterFrom(ts[1..], p, j);
        }
        assert Filter(ts, p) == [ts[0]] + rest;
      }
    }
  }

  lemma DeletePreservesValid(ts: seq<Template>, id: string)
    requires Valid(ts)
    ensures Valid(DeleteSpec(ts, id))
  {
    FilterValid(ts, IdIsNot(id));
  }

  /** Setting the default marks exactly the templates with that id; an unknown id leaves no default. */
  lemma SetDefaultMarks(ts: seq<Template>, id: string)
    ensures forall k :: 0 <= k < |ts| ==> (SetDefaultSpec(ts, id)[k].isDefault <==> ts[k].id == id)
    ensures (forall k :: 0 <= k < |ts| ==> ts[k].id != id) ==>
      forall k :: 0 <= k < |ts| ==> !SetDefaultSpec(ts, id)[k].isDefault
    ensures Valid(ts) ==> Valid(SetDefaultSpec(ts, id))
  {
  }

  /** The default is the first marked template when there is one, else the first template, and exists exactly when a template does. */
  lemma DefaultTemplateIs(ts: seq<Template>)
    ensures DefaultTemplate(ts).None? <==> ts == []
    ensures (exists k :: 0 <= k < |ts| && ts[k].isDefault) ==>
      DefaultTemplate(ts).Some? && DefaultTemplate(ts).value.isDefault
    ensures (forall k :: 0 <= k < |ts| ==> !ts[k].isDefault) && ts != [] ==> DefaultTemplate(ts) == Some(ts[0])
  {
  }

  /** Looking up by id finds a template with that id exactly when one is stored. */
  lemma TemplateByIdIs(ts: seq<Template>, id: string)
    ensures TemplateById(ts, id).Some? ==> TemplateById(ts, id).value.id == id && TemplateById(ts, id).value in ts
    ensures TemplateById(ts, id).None? <==> forall k :: 0 <= k < |ts| ==> ts[k].id != id
  {
  }

  /** The stored templates, standing for the `wechat-templates` storage key. */
  class TemplateStore {
    var templates: seq<Template>

    constructor(initial: seq<Template>)
      ensures templates == initial
    {
      templates := initial;
    }

    /** `saveTemplate`: the `forEach` clearing the other defaults is a loop over the loaded copy. */
    method Save(t: Template, now: int) returns (ok: bool)
      modifies this
      ensures ok == SaveSpec(old(templates), t, now).Some?
      ensures templates == SaveSpec(old(templates), t, now).GetOr(old(templates))
    {
      var ts := templates;
      var idx := FindIndex(ts, IdIs(t.id));
      if idx.None? && |ts| >= MaxTemplates {
        return false;
      }
      if t.isDefault {
        var i := 0;
        while i < |ts|
          invariant 0 <= i <= |ts| && |ts| == |templates|
          invariant forall k :: 0 <= k < i ==> ts[k] == ClearOtherDefaults(templates, t.id)[k]
          invariant forall k :: i <= k < |ts| ==> ts[k] == templates[k]
        {
          if ts[i].id != t.id {
            ts := ts[i := ts[i].(isDefault := false)];
          }
          i := i + 1;
        }
        assert ts == ClearOtherDefaults(templates, t.id);
      }
      match idx {
        case Some(k) => ts := ts[k := t.(updatedAt := now)];
        case None => ts := ts + [t.(createdAt := now, updatedAt := now)];
      }
      templates := ts;
      ok := true;
    }

    /** `deleteTemplate`. */
    method Delete(id: string) returns (ok: bool)
      modifies this
      ensures ok && templates == DeleteSpec(old(templates), id)
    {
      templates := Filter(templates, IdIsNot(id));
      ok := true;
    }

    /** `setDefaultTemplate`: the `forEach` is a loop over the loaded copy. */
    method SetDefault(id: string) returns (ok: bool)
      modifies this
      ensures ok && templates == SetDefaultSpec(old(templates), id)
    {
      var ts := templates;
      var i := 0;
      while i < |ts|
        invariant 0 <= i <= |ts| && |ts| == |templates|
        invariant forall k :: 0 <= k < i ==> ts[k] == SetDefaultSpec(templates, id)[k]
        invariant forall k :: i <= k < |ts| ==> ts[k] == templates[k]
      {
        ts := ts[i := ts[i].(isDefault := ts[i].id == id)];
        i := i + 1;
      }
      assert ts == SetDefaultSpec(templates, id);
      templates := ts;
      ok := true;
    }
  }
}
