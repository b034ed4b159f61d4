/**
  The content editor's handlers: the style the editor keeps in sync with the
  selected template, the scoping of hand-edited CSS, saving that CSS as a new
  custom template, and the guard before copying the formatter's output.

  `Date.now()`, which the source reads three times while building a new
  template, is one parameter `now`. The storage the handlers read and write
  is the `templates` field.
 */
module ContentEditor {
  import opened Wrappers
  import opened Strings
  import TemplateStorage
  import Lists
  import BuiltinTemplates
  import CssScope
  import EditorPanel

  type Template = TemplateStorage.Template

  /** Why a handler stops early. */
  datatype Refusal = EmptyStyle | TemplatesFull | EmptyName | SaveFailed | NothingToCopy

  const TemplateIdPrefix: string := "template-"

  /** `!s.trim()`. */
  predicate Blank(s: string) {
    Trim(s) == ""
  }

  /** The template built on confirmation: trimmed name and CSS, not default, id `template-<now>`. */
  function NewTemplate(name: string, style: string, now: nat): Template {
    TemplateStorage.Template(TemplateIdPrefix + NatToString(now), Trim(name), Trim(style), false, now, now)
  }

  /** The effect run when the selection or the templates change: the selected template's CSS, or nothing. */
  function SyncedStyle(ts: seq<Template>, selected: Option<string>): string {
    if selected.Some? && selected.value != "" then
      match TemplateStorage.TemplateById(ts, selected.value)
      case Some(t) => t.css
      case None => ""
    else ""
  }

  /** `handleSaveAsTemplate`'s two checks, in order. */
  function SaveAsRefusal(style: string, ts: seq<Template>): Option<Refusal> {
    if Blank(style) then Some(EmptyStyle)
    else if !TemplateStorage.CanAddMore(ts) then Some(TemplatesFull)
    else None
  }

  /** `handleConfirmSaveTemplate`: the two checks, then the store's answer. */
  function ConfirmSave(name: string, style: string, ts: seq<Template>, now: nat): Result<seq<Template>, Refusal> {
    if Blank(name) then Err(EmptyName)
    else if Blank(style) then Err(EmptyStyle)
    else
      match TemplateStorage.SaveSpec(ts, NewTemplate(name, style, now), now)
      case Some(r) => Ok(r)
      case None => Err(SaveFailed)
  }

  /** `handleCopyToWechat`'s guard. */
  function CopyRefusal(html: string): Option<Refusal> {
    if Blank(html) then Some(NothingToCopy) else None
  }

  /** Saving is offered exactly for CSS that is not all white space while a slot is free. */
  lemma SaveAsRefusedIff(style: string, ts: seq<Template>)
    ensures SaveAsRefusal(style, ts).None? <==> !AllSpace(style) && |ts| < TemplateStorage.MaxTemplates
    ensures SaveAsRefusal(style, ts) == Some(EmptyStyle) <==> AllSpace(style)
  {
    TrimEmptyIffAllSpace(style);
  }

  lemma PrefixDiffers(s: string)
    ensures !BuiltinTemplates.IsBuiltinTemplate(TemplateIdPrefix + s)
  {
    assert (TemplateIdPrefix + s)[0] == 't';
    assert BuiltinTemplates.BuiltinPrefix[0] == 'b';
  }

  /** A new template is never taken for a built-in one, is not the default, and carries its own name and CSS trimmed. */
  lemma NewTemplateShape(name: string, style: string, now: nat)
    ensures var t := NewTemplate(name, style, now);
      StartsWith(t.id, TemplateIdPrefix) && !BuiltinTemplates.IsBuiltinTemplate(t.id) &&
      !t.isDefault && t.createdAt == now && t.updatedAt == now &&
      Trim(t.name) == t.name && Trim(t.css) == t.css
  {
    var t := NewTemplate(name, style, now);
    PrefixDiffers(NatToString(now));
    assert t.id[..|TemplateIdPrefix|] == TemplateIdPrefix;
    TrimIdempotent(name);
    TrimIdempotent(style);
  }

  /** Confirmation fails exactly for a blank name, blank CSS, or a new id while three templates are stored. */
  lemma ConfirmRefusedIff(name: string, style: string, ts: seq<Template>, now: nat)
    ensures ConfirmSave(name, style, ts, now).Err? <==>
      AllSpace(name) || AllSpace(style) ||
      ((forall k :: 0 <= k < |ts| ==> ts[k].id != NewTemplate(name, style, now).id) && |ts| >= TemplateStorage.MaxTemplates)
    ensures ConfirmSave(name, style, ts, now) == Err(EmptyName) <==> AllSpace(name)
  {
    TrimEmptyIffAllSpace(name);
    TrimEmptyIffAllSpace(style);
    TemplateStorage.SaveRefusedIff(ts, NewTemplate(name, style, now), now);
  }

  /**
    A confirmed save stores the new template where lookup by its id finds
    it, with the trimmed CSS, which is not empty; the cap, the distinct ids
    and the single default still hold.
   */
  lemma ConfirmSaved(name: string, style: string, ts: seq<Template>, now: nat)
    requires ConfirmSave(name, style, ts, now).Ok?
    ensures var t := NewTemplate(name, style, now);
      var r := ConfirmSave(name, style, ts, now).value;
      TemplateStorage.TemplateById(r, t.id) == Some(t) && t.css == Trim(style) && t.css != "" &&
      (|r| == |ts| || |r| == |ts| + 1)
    ensures TemplateStorage.Valid(ts) ==> TemplateStorage.Valid(ConfirmSave(name, style, ts, now).value)
  {
    var t := NewTemplate(name, style, now);
    TemplateStorage.SaveThenFind(ts, t, now);
    assert t.(updatedAt := now) == t && t.(createdAt := now, updatedAt := now) == t;
    TemplateStorage.SaveRefusedIff(ts, t, now);
    if TemplateStorage.Valid(ts) {
      TemplateStorage.SavePreservesValid(ts, t, now);
    }
  }

  /** After a confirmed save, the style synced to the new template's id is the trimmed CSS. */
  lemma ConfirmLookup(name: string, style: string, ts: seq<Template>, now: nat)
    requires ConfirmSave(name, style, ts, now).Ok?
    ensures var id := NewTemplate(name, style, now).id;
      var r := ConfirmSave(name, style, ts, now).value;
      TemplateStorage.TemplateById(r, id).Some? && TemplateStorage.TemplateById(r, id).value.css == Trim(style) &&
      Trim(style) != "" && id != "" && SyncedStyle(r, Some(id)) == Trim(style)
  {
    ConfirmSaved(name, style, ts, now);
  }

  /** The synced style is the CSS of the template the selection names, or empty. */
  lemma SyncedStyleIs(ts: seq<Template>, selected: Option<string>)
    ensures var s := SyncedStyle(ts, selected);
      s == "" ||
      (selected.Some? && TemplateStorage.TemplateById(ts, selected.value).Some? &&
       s == TemplateStorage.TemplateById(ts, selected.value).value.css)
    ensures selected.Some? && selected.value != "" && (forall k :: 0 <= k < |ts| ==> ts[k].id != selected.value) ==>
      SyncedStyle(ts, selected) == ""
  {
    if selected.Some? {
      TemplateStorage.TemplateByIdIs(ts, selected.value);
    }
  }

  /** Nothing is copied exactly when the output is all white space. */
  lemma CopyRefusedIff(html: string)
    ensures CopyRefusal(html).Some? <==> AllSpace(html)
  {
    TrimEmptyIffAllSpace(html);
  }

  /** The editor's state. */
  class Editor {
    var templates: seq<Template>
    var selectedTemplateId: Option<string>
    var currentStyle: string
    var templateName: string
    var showSaveTemplateModal: bool
    var clipboard: Option<string>

    /** Mounting: the default template is selected and its CSS loaded. */
    constructor(stored: seq<Template>)
      ensures templates == stored && selectedTemplateId == EditorPanel.DefaultId(stored)
      ensures currentStyle == SyncedStyle(stored, selectedTemplateId)
      ensures templateName == "" && !showSaveTemplateModal && clipboard == None
    {
      templates := stored;
      selectedTemplateId := EditorPanel.DefaultId(stored);
      currentStyle := SyncedStyle(stored, EditorPanel.DefaultId(stored));
      templateName := "";
      showSaveTemplateModal := false;
      clipboard := None;
    }

    /** Picking a template from the menu; the effect then loads its CSS. */
    method SelectTemplate(id: string)
      modifies this
      ensures selectedTemplateId == Some(id) && currentStyle == SyncedStyle(old(templates), Some(id))
      ensures templates == old(templates) && templateName == old(templateName)
      ensures showSaveTemplateModal == old(showSaveTemplateModal) && clipboard == old(clipboard)
    {
      selectedTemplateId := Some(id);
      currentStyle := SyncedStyle(templates, selectedTemplateId);
    }

    /** `handleStorageChange`, followed by the effect that reloads the style. */
    method HandleStorageChange(stored: seq<Template>)
      modifies this
      ensures templates == stored
      ensures selectedTemplateId == EditorPanel.ReconcileSelection(stored, old(selectedTemplateId))
      ensures currentStyle == SyncedStyle(stored, selectedTemplateId)
      ensures templateName == old(templateName) && showSaveTemplateModal == old(showSaveTemplateModal)
      ensures clipboard == old(clipboard)
    {
      templates := stored;
      selectedTemplateId := EditorPanel.ReconcileSelection(stored, selectedTemplateId);
      currentStyle := SyncedStyle(templates, selectedTemplateId);
    }

    /** `handleStyleChange`: the edited CSS, scoped unless it already names an anchor. */
    method HandleStyleChange(style: string)
      modifies this
      ensures currentStyle == CssScope.EditorScope(style)
      ensures templates == old(templates) && selectedTemplateId == old(selectedTemplateId)
      ensures templateName == old(templateName) && showSaveTemplateModal == old(showSaveTemplateModal)
      ensures clipboard == old(clipboard)
    {
      currentStyle := CssScope.EditorScope(style);
    }

    /** `handleSaveAsTemplate`: open the name dialog with an empty name, unless refused. */
    method HandleSaveAsTemplate() returns (refusal: Option<Refusal>)
      modifies this
      ensures refusal == SaveAsRefusal(old(currentStyle), old(templates))
      ensures refusal.None? ==> templateName == "" && showSaveTemplateModal
      ensures refusal.Some? ==> templateName == old(templateName) && showSaveTemplateModal == old(showSaveTemplateModal)
      ensures templates == old(templates) && selectedTemplateId == old(selectedTemplateId)
      ensures currentStyle == old(currentStyle) && clipboard == old(clipboard)
    {
      if Trim(currentStyle) == "" {
        return Some(EmptyStyle);
      }
      if !TemplateStorage.CanAddMore(templates) {
        return Some(TemplatesFull);
      }
      templateName := "";
      showSaveTemplateModal := true;
      refusal := None;
    }

    /**
      `handleConfirmSaveTemplate`: on success the dialog closes, the name is
      cleared, and, once the delayed callback has run, the new template is
      selected and its CSS is the current style.
     */
    method HandleConfirmSaveTemplate(now: nat) returns (refusal: Option<Refusal>)
      modifies this`templates, this`selectedTemplateId, this`currentStyle, this`templateName, this`showSaveTemplateModal
      ensures var res := ConfirmSave(old(templateName), old(currentStyle), old(templates), now);
        refusal == (if res.Err? then Some(res.error) else None)
      ensures refusal.None? ==>
        templates == ConfirmSave(old(templateName), old(currentStyle), old(templates), now).value &&
        !showSaveTemplateModal && templateName == "" &&
        selectedTemplateId == Some(NewTemplate(old(templateName), old(currentStyle), now).id) &&
        currentStyle == Trim(old(currentStyle)) &&
        currentStyle == SyncedStyle(templates, selectedTemplateId)
      ensures refusal.Some? ==>
        templates == old(templates) && selectedTemplateId == old(selectedTemplateId) &&
        currentStyle == old(currentStyle) && templateName == old(templateName) &&
        showSaveTemplateModal == old(showSaveTemplateModal)
    {
      var name, style := templateName, currentStyle;
      var res := ConfirmSave(name, style, templates, now);
      if res.Err? {
        return Some(res.error);
      }
      ConfirmLookup(name, style, templates, now);
      Commit(res.value, NewTemplate(name, style, now).id);
      refusal := None;
    }

    /** The success path: store, close the dialog, then the delayed callback selects the new template and loads its CSS. */
    method Commit(saved: seq<Template>, id: string)
      requires id != ""
      modifies this`templates, this`selectedTemplateId, this`currentStyle, this`templateName, this`showSaveTemplateModal
      ensures templates == saved && !showSaveTemplateModal && templateName == ""
      ensures selectedTemplateId == Some(id)
      ensures currentStyle == (if SyncedStyle(saved, Some(id)) != "" then SyncedStyle(saved, Some(id)) else old(currentStyle))
    {
      templates := saved;
      showSaveTemplateModal := false;
      templateName := "";
      selectedTemplateId := Some(id);
      var found := TemplateStorage.TemplateById(templates, id);
      if found.Some? && found.value.css != "" {
        currentStyle := found.value.css;
      }
    }

    /** `handleCopyToWechat`: write the formatter's output unless it is blank. */
    method HandleCopyToWechat(html: string) returns (refusal: Option<Refusal>)
      modifies this
      ensures refusal == CopyRefusal(html)
      ensures clipboard == (if refusal.None? then Some(html) else old(clipboard))
      ensures templates == old(templates) && selectedTemplateId == old(selectedTemplateId)
      ensures currentStyle == old(currentStyle) && templateName == old(templateName)
      ensures showSaveTemplateModal == old(showSaveTemplateModal)
    {
      if html == "" || Trim(html) == "" {
        return Some(NothingToCopy);
      }
      clipboard := Some(html);
      refusal := None;
    }
  }
}
