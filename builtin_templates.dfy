/**
  The built-in style templates: a fixed table of six entries whose ids share
  the `builtin-` prefix, of which the first is the default. Their CSS texts
  are not modelled; the table takes them as a record of six strings.
 */
module BuiltinTemplates {
  import opened Wrappers
  import opened Strings
  import TemplateStorage

  const BuiltinPrefix: string := "builtin-"

  /** The id suffixes after `builtin-`, in table order. */
  const IdSuffixes: seq<string> :=
    ["wechat-green", "minimal-blue", "lively-orange", "elegant-purple", "science-purple", "modern-purple"]

  const Names: seq<string> := ["微信绿", "极简蓝", "活泼橙", "雅致紫", "科技紫", "现代紫"]

  /** The six style sheets, in table order. */
  datatype StyleSheets = StyleSheets(wechatGreen: string, minimalBlue: string, livelyOrange: string,
                                     elegantPurple: string, sciencePurple: string, modernPurple: string)

  function SheetAt(css: StyleSheets, k: nat): string
    requires k < 6
  {
    [css.wechatGreen, css.minimalBlue, css.livelyOrange, css.elegantPurple, css.sciencePurple, css.modernPurple][k]
  }

  /** Row `k` of the table: only the first row is the default, and every timestamp is 0. */
  function Row(css: StyleSheets, k: nat): TemplateStorage.Template
    requires k < 6
  {
    TemplateStorage.Template(BuiltinPrefix + IdSuffixes[k], Names[k], SheetAt(css, k), k == 0, 0, 0)
  }

  /** `builtinTemplates`, which `getBuiltinTemplates()` returns as it is. */
  function Table(css: StyleSheets): (r: seq<TemplateStorage.Template>)
    ensures |r| == 6
    ensures forall k :: 0 <= k < 6 ==> r[k] == Row(css, k)
  {
    [Row(css, 0), Row(css, 1), Row(css, 2), Row(css, 3), Row(css, 4), Row(css, 5)]
  }

  /** `isBuiltinTemplate(id)`. */
  predicate IsBuiltinTemplate(id: string) {
    StartsWith(id, BuiltinPrefix)
  }

  /** An id is built-in exactly when it is `builtin-` followed by any suffix, the empty one included. */
  lemma BuiltinIff(id: string)
    ensures IsBuiltinTemplate(id) <==> exists s :: id == BuiltinPrefix + s
  {
    if IsBuiltinTemplate(id) {
      assert id == BuiltinPrefix + id[|BuiltinPrefix|..];
    }
    forall s | id == BuiltinPrefix + s ensures IsBuiltinTemplate(id) {
      assert id[..|BuiltinPrefix|] == BuiltinPrefix;
    }
  }

  /** Every id in the table is built-in. */
  lemma TableIdsBuiltin(css: StyleSheets)
    ensures forall k :: 0 <= k < |Table(css)| ==> IsBuiltinTemplate(Table(css)[k].id)
  {
    forall k | 0 <= k < 6 ensures IsBuiltinTemplate(Table(css)[k].id) {
      BuiltinIff(BuiltinPrefix + IdSuffixes[k]);
    }
  }

  lemma SuffixesDistinct()
    ensures forall i, j :: 0 <= i < j < |IdSuffixes| ==> IdSuffixes[i] != IdSuffixes[j]
  {
    assert IdSuffixes[0][0] == 'w' && IdSuffixes[2][0] == 'l' && IdSuffixes[3][0] == 'e' && IdSuffixes[4][0] == 's';
    assert IdSuffixes[1][1] == 'i' && IdSuffixes[5][1] == 'o';
    assert IdSuffixes[1][0] == 'm' && IdSuffixes[5][0] == 'm';
  }

  /** The ids are pairwise distinct. */
  lemma TableIdsDistinct(css: StyleSheets)
    ensures TemplateStorage.UniqueIds(Table(css))
  {
    SuffixesDistinct();
    var t := Table(css);
    forall i, j | 0 <= i < j < |t| ensures t[i].id != t[j].id {
      PrefixInjective(IdSuffixes[i], IdSuffixes[j]);
    }
  }

  lemma PrefixInjective(a: string, b: string)
    ensures BuiltinPrefix + a == BuiltinPrefix + b ==> a == b
  {
    if BuiltinPrefix + a == BuiltinPrefix + b {
      assert a == (BuiltinPrefix + a)[|BuiltinPrefix|..];
      assert b == (BuiltinPrefix + b)[|BuiltinPrefix|..];
    }
  }

  /** Exactly one row is the default: the first. */
  lemma TableOneDefault(css: StyleSheets)
    ensures Table(css)[0].isDefault
    ensures forall k :: 1 <= k < |Table(css)| ==> !Table(css)[k].isDefault
    ensures TemplateStorage.AtMostOneDefault(Table(css))
    ensures TemplateStorage.DefaultTemplate(Table(css)) == Some(Table(css)[0])
  {
    TemplateStorage.DefaultTemplateIs(Table(css));
  }

  /** Every row was created and updated at time 0. */
  lemma TableTimestamps(css: StyleSheets)
    ensures forall k :: 0 <= k < |Table(css)| ==> Table(css)[k].createdAt == 0 && Table(css)[k].updatedAt == 0
  {
  }
}
