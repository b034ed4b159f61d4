/**
  The editor panel's template selection and its "copy HTML" menu. The
  selection follows the stored templates: when the selected template is
  deleted, it falls back to the default template's id, or to none. The copy
  menu picks one of three builders by mode and refuses to write an empty
  result to the clipboard.

  The builders' inputs that come from the page (the serialised preview
  clone, the processed content and the output of the WeChat formatter) are
  parameters.
 */
module EditorPanel {
  import opened Wrappers
  import opened Strings
  import TemplateStorage
  import Lists
  import WechatFormatter
  import HtmlExporter

  type Template = TemplateStorage.Template

  // ---------------------------------------------------------------------------
  // Selection

  /** `getDefaultTemplate()?.id || null`: an empty id counts as no id. */
  function DefaultId(ts: seq<Template>): Option<string> {
    match TemplateStorage.DefaultTemplate(ts)
    case Some(t) => if t.id != "" then Some(t.id) else None
    case None => None
  }

  /** The storage-change handler: a selected id no stored template carries is replaced by the default's id. */
  function ReconcileSelection(ts: seq<Template>, selected: Option<string>): Option<string> {
    if selected.Some? && selected.value != "" && TemplateStorage.TemplateById(ts, selected.value).None? then
      DefaultId(ts)
    else selected
  }

  /** The default id, when there is one, names a stored template, and there is none only for an empty store or an empty id. */
  lemma DefaultIdStored(ts: seq<Template>)
    ensures DefaultId(ts).Some? ==>
      DefaultId(ts).value != "" && TemplateStorage.TemplateById(ts, DefaultId(ts).value).Some?
    ensures DefaultId(ts).None? <==> ts == [] || TemplateStorage.DefaultTemplate(ts).value.id == ""
  {
    TemplateStorage.DefaultTemplateIs(ts);
    match TemplateStorage.DefaultTemplate(ts) {
      case Some(t) =>
        assert t in ts by {
          var i := Lists.FindIndex(ts, (t: Template) => t.isDefault);
          if i.None? { assert t == ts[0]; }
        }
        TemplateStorage.TemplateByIdIs(ts, t.id);
      case None =>
    }
  }

  /** After the handler a non-empty selection names a stored template. */
  lemma ReconcileValid(ts: seq<Template>, selected: Option<string>)
    ensures var r := ReconcileSelection(ts, selected);
      r.Some? && r.value != "" ==> TemplateStorage.TemplateById(ts, r.value).Some?
  {
    DefaultIdStored(ts);
  }

  /** A selection that is empty or still stored is kept; a dangling one becomes the default's id. */
  lemma ReconcileCases(ts: seq<Template>, selected: Option<string>)
    ensures selected.None? ==> ReconcileSelection(ts, selected).None?
    ensures selected.Some? && TemplateStorage.TemplateById(ts, selected.value).Some? ==>
      ReconcileSelection(ts, selected) == selected
    ensures selected.Some? && selected.value != "" && (forall k :: 0 <= k < |ts| ==> ts[k].id != selected.value) ==>
      ReconcileSelection(ts, selected) == DefaultId(ts)
  {
    if selected.Some? {
      TemplateStorage.TemplateByIdIs(ts, selected.value);
    }
  }

  /** Handling the same storage twice is handling it once. */
  lemma ReconcileIdempotent(ts: seq<Template>, selected: Option<string>)
    ensures ReconcileSelection(ts, ReconcileSelection(ts, selected)) == ReconcileSelection(ts, selected)
  {
    ReconcileValid(ts, selected);
  }

  // ---------------------------------------------------------------------------
  // Copy

  datatype CopyMode = Full | Content | Wechat

  /**
    `handleCopyHtml(type)`'s choice of builder: the full document, the
    formatter's output, or the preview clone falling back to the content
    HTML when there is no clone.
   */
  function CopyHtml(mode: CopyMode, ts: seq<Template>, templateId: Option<string>,
                    previewHtml: string, processed: string, wechatHtml: string): string {
    match mode
    case Full => HtmlExporter.FullHtml(ts, templateId, previewHtml, processed)
    case Wechat => wechatHtml
    case Content => if previewHtml != "" then previewHtml else HtmlExporter.ContentHtml(processed)
  }

  lemma ContainsNonEmpty(s: string, sub: string)
    requires sub != [] && Contains(s, sub)
    ensures s != []
  {
    var i := ContainsWitness(s, sub);
  }

  /** Only the formatter can leave nothing to copy: the full document and the content HTML are never empty. */
  lemma CopyEmptyIff(mode: CopyMode, ts: seq<Template>, templateId: Option<string>,
                     previewHtml: string, processed: string, wechatHtml: string)
    ensures CopyHtml(mode, ts, templateId, previewHtml, processed, wechatHtml) == "" <==>
      mode == Wechat && wechatHtml == ""
  {
    if mode == Content && previewHtml == "" {
      HtmlExporter.ContentHtmlMarked(processed);
      var c := HtmlExporter.ContentHtml(processed);
      if Contains(c, WechatFormatter.MarkerDouble) {
        ContainsNonEmpty(c, WechatFormatter.MarkerDouble);
      } else {
        ContainsNonEmpty(c, WechatFormatter.MarkerSingle);
      }
    }
  }

  /**
    What each mode copies: the full document is the exporter's document
    around the same body the content mode copies, and the content mode copies
    the preview clone or else HTML carrying the `wechat-article` marker.
   */
  lemma CopySources(ts: seq<Template>, templateId: Option<string>, previewHtml: string, processed: string, wechatHtml: string)
    ensures var full := CopyHtml(Full, ts, templateId, previewHtml, processed, wechatHtml);
      var body := CopyHtml(Content, ts, templateId, previewHtml, processed, wechatHtml);
      |full| >= |HtmlExporter.DocEnd| + |body| &&
      full[|full| - |HtmlExporter.DocEnd| - |body|..|full| - |HtmlExporter.DocEnd|] == body
    ensures var body := CopyHtml(Content, ts, templateId, previewHtml, processed, wechatHtml);
      body == previewHtml ||
      (previewHtml == "" && (Contains(body, WechatFormatter.MarkerDouble) || Contains(body, WechatFormatter.MarkerSingle)))
    ensures CopyHtml(Wechat, ts, templateId, previewHtml, processed, wechatHtml) == wechatHtml
  {
    HtmlExporter.FullHtmlLayout(ts, templateId, previewHtml, processed);
    HtmlExporter.ContentHtmlMarked(processed);
  }

  /** The panel's state: the stored templates it shows, its selection, and the clipboard. */
  class Panel {
    var templates: seq<Template>
    var selectedTemplateId: Option<string>
    var clipboard: Option<string>

    /** Mounting: the default template is selected. */
    constructor(stored: seq<Template>)
      ensures templates == stored && selectedTemplateId == DefaultId(stored) && clipboard == None
    {
      templates := stored;
      selectedTemplateId := DefaultId(stored);
      clipboard := None;
    }

    /** `handleStorageChange`: reload the templates and drop a selection that no longer exists. */
    method HandleStorageChange(stored: seq<Template>)
      modifies this
      ensures templates == stored
      ensures selectedTemplateId == ReconcileSelection(stored, old(selectedTemplateId))
      ensures clipboard == old(clipboard)
    {
      templates := stored;
      if selectedTemplateId.Some? && selectedTemplateId.value != "" {
        var found := TemplateStorage.TemplateById(stored, selectedTemplateId.value);
        if found.None? {
          var d := TemplateStorage.DefaultTemplate(stored);
          if d.Some? && d.value.id != "" {
            selectedTemplateId := Some(d.value.id);
          } else {
            selectedTemplateId := None;
          }
        }
      }
    }

    /** `handleCopyHtml(type)`: build the HTML for the mode; write it unless it is empty. */
    method HandleCopyHtml(mode: CopyMode, previewHtml: string, processed: string, wechatHtml: string) returns (copied: bool)
      modifies this
      ensures var html := CopyHtml(mode, old(templates), old(selectedTemplateId), previewHtml, processed, wechatHtml);
        copied == (html != "") && clipboard == (if copied then Some(html) else old(clipboard))
      ensures templates == old(templates) && selectedTemplateId == old(selectedTemplateId)
    {
      var html := "";
      if mode == Full {
        html := HtmlExporter.FullHtml(templates, selectedTemplateId, previewHtml, processed);
      } else if mode == Wechat {
        html := wechatHtml;
      } else {
        html := if previewHtml != "" then previewHtml else HtmlExporter.ContentHtml(processed);
      }
      if html == "" {
        return false;
      }
      clipboard := Some(html);
      copied := true;
    }
  }
}
