# wechat-md in Dafny

A verified model of the core of **wechat-md**, an editor that turns Markdown (or pasted HTML) into HTML that pastes cleanly into the WeChat official-account editor. The model covers the path from Markdown/HTML text to inline-styled, class-free HTML, and the three small stores that feed it:

- **Role-class annotators** (`roles.dfy`, `hast.dfy`, `wechat_plugin.dfy`, `live_preview.dfy`, `html_generator.dfy`). Three tree walks tag elements with `wechat-article-*` classes from one tag→class table. The rehype plugin and the live-preview walk append a class only when it is absent. `addWechatClasses` replaces the class list and wraps the body in one `div.wechat-article`. Each walk is a method with a loop over the children, proved equal to a specification function. Idempotence, "exactly the fixed points", and "only classes change" are proved about those functions.
- **CSS scope rewriting** (`css_scope.dfy`, `css_unscope.dfy`). `StyleInjector` and the editor's style handler prefix every brace-free selector segment with `.bytemd-preview .markdown-body`. The render harness strips those prefixes again with an ordered chain of rewrites. Proved: the guards, at-rule pass-through, idempotence, and a concrete input on which the order of the chain matters.
- **The render harness** (`render_harness.dfy`, `render_code_blocks.dfy`, `render_transforms.dfy`, `render_clean.dfy`). This is `testWechatRender` and `cleanHtmlForTest`. Code blocks become one `div` per line followed by a zero-height separator paragraph. Headings become styled paragraphs. Inline code becomes a `span`, and task items become emoji text. A whitelist rebuild then sanitises the tree.
- **The formatter** (`wechat_formatter.dfy`). This covers `matchesSelector`, the inline-style assembly of `processElement` (with the property-name correction of the finding below) and the `class`/`id`/`data-*` stripper. It also covers the CSS and fallback selection of `generateWechatHtml`.
- **The exporter** (`html_exporter.dfy`): the full-document and content-only string builders, and the preview clone with `local://` image sources resolved.
- **The stores** (`template_storage.dfy`, `document_storage.dfy`, `image_storage.dfy`, `builtin_templates.dfy`):
  - at most 3 templates with at most one default;
  - at most 5 documents with a current-document pointer;
  - images under a 2 MB per-file cap and a 10 MB total cap.

  Each store is a class whose `seq` field stands for the `localStorage` entry. Its methods are proved to set the new state to a specification function of the old state.
- **Editor components** (`content_editor.dfy`, `editor_panel.dfy`, `toc.dfy`, `image_plugin.dfy`). These cover:
  - the save-as-template and copy handlers;
  - the template-selection fallback;
  - the table-of-contents heading extractor;
  - the `local://` image-source rewrite and cursor arithmetic of the image plugin.

Shared pieces live in `strings.dfy` (the JavaScript white-space set, `trim`, `split`, decimal rendering), `lists.dfy` (`find`, `findIndex`, `filter`, sums), `dom.dfy` (the node tree) and `wrappers.dfy` (`Option`, `Result`).

Trees are values. A node is an element (lower-case tag, class list, other attributes, children), a text node or a comment. A walk that mutates the DOM in place is modelled as a method that returns the rewritten tree. Clocks and random numbers are parameters. HTML parsing and serialisation are not modelled.

Behaviours of the code a reader may not expect, which the model follows:
- A code block whose text ends in a newline gets a final `&nbsp;` line `div`, because the text is split at every `\n`.
- The heading, table and list transforms overwrite `style`; they do not merge it.
- The sanitiser drops a non-whitelisted element together with its subtree.
- A TOC line ending in `\r` (a CRLF file) is not a heading, because `.` in the heading regex does not match `\r`.

## Model

| member | source | states |
|---|---|---|
| Roles.RoleClass | src/utils/bytemdWechatPlugin.ts:29-91 | a tag has a role class exactly when it is one of the thirteen mapped tags; every role class starts with `wechat-article-` and is neither the container class nor the code-block class |
| Roles.ListsShareRole | src/utils/bytemdWechatPlugin.ts:55-60 | `ul` and `ol` both map to `wechat-article-list`; `pre`, `div` and `h4` have no role |
| Roles.RolesDistinct | src/utils/bytemdWechatPlugin.ts:29-91 | apart from `ul`/`ol`, two different mapped tags get different role classes |
| Hast.ClassList | src/utils/bytemdWechatPlugin.ts:22-27 | a string `className` becomes the only entry, an array is copied, anything else gives the empty list |
| WechatPlugin.AnnotatedClasses | src/utils/bytemdWechatPlugin.ts:29-98 | the prior class list is a prefix of the result, at most two classes are added, and each added class is the tag's role class or `wechat-article` |
| WechatPlugin.Visit | src/utils/bytemdWechatPlugin.ts:12-109 | the recursive walk (class-list rewrite, then every child in order) returns the tree the specification function `Annotate` describes |
| WechatPlugin.AnnotatedClassesFixedIff | src/utils/bytemdWechatPlugin.ts:29-98 | the class-list step leaves a list unchanged exactly when it already holds the role class and, for a `markdown-body` div, `wechat-article` |
| WechatPlugin.AnnotatedClassesComplete | src/utils/bytemdWechatPlugin.ts:29-98 | after the step the list is complete for its tag |
| WechatPlugin.AnnotatedClassesIdempotent | src/utils/bytemdWechatPlugin.ts:29-98 | applying the class-list step twice equals applying it once |
| WechatPlugin.RoleAdded | src/utils/bytemdWechatPlugin.ts:29-91 | a mapped tag gains its role class (`ul`/`ol` the shared list class); an unmapped tag other than `div` keeps its list unchanged |
| WechatPlugin.MarkdownBodyDiv | src/utils/bytemdWechatPlugin.ts:94-98 | a `div` with `markdown-body` and no `wechat-article` gains exactly that class at the end; any other div is untouched |
| WechatPlugin.PriorClassesKept | src/utils/bytemdWechatPlugin.ts:17-100 | after the walk an element's `className` is an array; a prior string is its first entry and a prior array is kept as its prefix |
| WechatPlugin.AnnotateIdempotent | src/utils/bytemdWechatPlugin.ts:12-109 | running the walk twice gives the tree of running it once |
| WechatPlugin.AnnotateFixedIff | src/utils/bytemdWechatPlugin.ts:12-109 | the walk leaves a tree unchanged exactly when every element is already well annotated |
| WechatPlugin.AnnotateWellAnnotated | src/utils/bytemdWechatPlugin.ts:12-109 | every element of the walked tree carries an array class list that is complete for its tag |
| WechatPlugin.AnnotateOnlyClasses | src/utils/bytemdWechatPlugin.ts:12-109 | the walk changes class names only: leaves, tags, `src` and the tree's shape are untouched, and every child is visited |
| BuiltinTemplates.Table | src/utils/builtinTemplates.ts:7-1035 | `getBuiltinTemplates()` returns the six-row table as it is, row `k` holding the `k`-th built-in id, name and style sheet |
| BuiltinTemplates.BuiltinIff | src/utils/builtinTemplates.ts:1040-1042 | an id is built-in exactly when it is `builtin-` followed by some suffix |
| BuiltinTemplates.TableIdsBuiltin | src/utils/builtinTemplates.ts:9-845 | every id in the table satisfies `isBuiltinTemplate` |
| BuiltinTemplates.TableIdsDistinct | src/utils/builtinTemplates.ts:9-845 | the six ids are pairwise distinct |
| BuiltinTemplates.TableOneDefault | src/utils/builtinTemplates.ts:158-1024 | the first row is the only default, so the table keeps the single-default invariant and `getDefaultTemplate` over it yields the first row |
| BuiltinTemplates.TableTimestamps | src/utils/builtinTemplates.ts:159-1026 | every row was created and updated at time 0 |
| TemplateStorage.ClearOtherDefaults | src/utils/templateStorage.ts:28-34 | clearing the other defaults keeps the number of templates |
| TemplateStorage.SetDefaultSpec | src/utils/templateStorage.ts:68-75 | setting the default keeps the number of templates |
| TemplateStorage.SaveRefusedIff | src/utils/templateStorage.ts:22-95 | a save is refused exactly when the id is new and three templates are stored; for a new id it succeeds exactly when `canAddMoreTemplates` holds |
| TemplateStorage.SaveReplaces | src/utils/templateStorage.ts:22-38 | saving an existing id replaces the first template with that id in place with a new `updatedAt`; the count is unchanged and every other entry is kept, minus its default mark when the saved one is a default |
| TemplateStorage.SaveAppends | src/utils/templateStorage.ts:22-46 | saving a new id below the cap appends it last with both timestamps set and keeps every other entry, unmarked when the new one is a default |
| TemplateStorage.SaveDefaultClears | src/utils/templateStorage.ts:28-34 | after saving a default template only entries with its id carry the default mark |
| TemplateStorage.SaveThenFind | src/utils/templateStorage.ts:36-90 | a saved template reads back by its id, updated now, and also created now when its id was new |
| TemplateStorage.SavePreservesValid | src/utils/templateStorage.ts:17-50 | saving keeps the cap of three, distinct ids and at most one default |
| TemplateStorage.DeleteRemoves | src/utils/templateStorage.ts:56-62 | deleting removes every template with the id, keeps every other one, and changes nothing when the id is absent |
| TemplateStorage.FilterValid | src/utils/templateStorage.ts:59 | the entries a filter keeps still have distinct ids and at most one default |
| TemplateStorage.DeletePreservesValid | src/utils/templateStorage.ts:56-62 | deleting keeps the store's invariant |
| TemplateStorage.SetDefaultMarks | src/utils/templateStorage.ts:68-75 | exactly the templates with the id are marked default; an unknown id leaves none; the invariant is kept |
| TemplateStorage.DefaultTemplateIs | src/utils/templateStorage.ts:82-85 | the default exists exactly when a template does; it is a marked one when any is marked, else the first |
| TemplateStorage.TemplateByIdIs | src/utils/templateStorage.ts:87-90 | lookup by id returns a stored template with that id, and nothing exactly when no template has it |
| TemplateStorage.TemplateStore.Save | src/utils/templateStorage.ts:17-50 | the loop that clears the other defaults plus the replace-or-append leaves the store equal to the save specification, and the result reports whether the save was accepted |
| TemplateStorage.TemplateStore.Delete | src/utils/templateStorage.ts:56-62 | the store becomes the filtered list and the call reports success |
| TemplateStorage.TemplateStore.SetDefault | src/utils/templateStorage.ts:68-75 | the loop over the loaded copy leaves the store equal to the set-default specification |
| DocumentStorage.CurrentFor | src/utils/documentStorage.ts:47-53 | `setCurrentDocumentId` stores the id exactly when it is present and non-empty, and removes the key otherwise |
| DocumentStorage.SaveCases | src/utils/documentStorage.ts:82-111 | a save is refused exactly when the id is new and five documents are stored; an existing id is replaced in place with a fresh `updatedAt`; a new id below the cap is appended |
| DocumentStorage.SavePreservesValid | src/utils/documentStorage.ts:82-111 | saving keeps the cap of five and distinct ids |
| DocumentStorage.CreateCases | src/utils/documentStorage.ts:116-200 | creating fails exactly when `canCreateDocument` is false; otherwise the new document has id `doc-<now>`, the given name or `文档 <n+1>`, the given content or empty content and no template; it is stored, the count stays within the cap, and it becomes current |
| DocumentStorage.DeleteCases | src/utils/documentStorage.ts:142-152 | deleting fails exactly when no document has the id; otherwise every copy is removed and every other document is kept |
| DocumentStorage.DeleteMovesCurrent | src/utils/documentStorage.ts:154-162 | deleting the current document moves the current id to the first remaining document or clears it; deleting any other document leaves it |
| DocumentStorage.DeletePreservesValid | src/utils/documentStorage.ts:142-169 | deleting keeps the cap and distinct ids, and a current id that named a stored document still does |
| DocumentStorage.RenameCases | src/utils/documentStorage.ts:174-192 | renaming fails exactly for an unknown id; otherwise only the first document with the id changes, taking the trimmed name, and its content is kept |
| DocumentStorage.CurrentDocumentIs | src/utils/documentStorage.ts:62-69 | the current document is missing exactly when the current id is unset, empty or names no stored document; otherwise it has that id |
| DocumentStorage.DocumentStore.Save | src/utils/documentStorage.ts:82-111 | the store becomes the save specification's list, the result says whether it was accepted, and the current id is untouched |
| DocumentStorage.DocumentStore.SetCurrent | src/utils/documentStorage.ts:47-57 | the current id becomes the stored form of the argument and the documents are untouched |
| DocumentStorage.DocumentStore.Create | src/utils/documentStorage.ts:116-137 | at the cap nothing changes and an error is returned; otherwise the new document is returned, saved and made current |
| DocumentStorage.DocumentStore.Delete | src/utils/documentStorage.ts:142-169 | an absent id changes nothing and returns false; otherwise the documents and the current id become the delete specification's pair |
| DocumentStorage.DocumentStore.UpdateName | src/utils/documentStorage.ts:174-192 | the documents become the rename specification's list, the result says whether the id was found, and the current id is untouched |
| ImageStorage.SaveCases | src/utils/imageStorage.ts:16-113 | a save fails exactly for a file over 2 MB, a total that would pass 10 MB, or an unreadable file; otherwise it returns the id and appends exactly one record (its size and data from the file, type `image/png` when the file has none), the total grows by the file size and stays within 10 MB |
| ImageStorage.DeleteCases | src/utils/imageStorage.ts:153-158 | deleting removes every record with the id, keeps every other record, and never raises the total size |
| ImageStorage.DataUrlIs | src/utils/imageStorage.ts:123-135 | the data URL exists exactly when a record has the id, and is `data:<type>;base64,<data>` of such a record |
| ImageStorage.FirstDataUrl | src/utils/imageStorage.ts:126-130 | the data URL of an id is built from the first record with that id |
| ImageStorage.DataUrlStarts | src/utils/imageStorage.ts:130 | every data URL starts with `data:` |
| ImageStorage.ConvertCases | src/utils/imageStorage.ts:195-210 | a url that does not start with `local://`, or whose id is blank, comes back unchanged; a url that changes was a `local://` url and becomes the data URL of its trimmed id |
| ImageStorage.ConvertStored | src/utils/imageStorage.ts:195-210 | `local://<id>` of a stored image with a trimmed, non-empty id converts to that image's data URL |
| ImageStorage.LinkTail | src/utils/imageStorage.ts:183 | the `](local://ID)` part of the pattern, when it matches, stays inside the text and captures an id that is non-empty and free of `)` |
| ImageStorage.LazyTail | src/utils/imageStorage.ts:183 | the lazy `.*?` followed by the tail stays inside the text and captures such an id |
| ImageStorage.LinkAt | src/utils/imageStorage.ts:183 | a match of the whole pattern at a position is non-empty, stays inside the text and captures such an id |
| ImageStorage.NextLink | src/utils/imageStorage.ts:186 | the leftmost match `exec` finds ends after a non-empty stretch inside the text and captures such an id |
| ImageStorage.ExtractedIds | src/utils/imageStorage.ts:182-190 | every extracted id is non-empty and contains no `)` |
| ImageStorage.ExtractImageIdsLoop | src/utils/imageStorage.ts:182-190 | the `exec` loop pushing each capture returns the ids of every match, in order, each search starting where the previous match ended |
| ImageStorage.ExtractLink | src/utils/imageStorage.ts:180-190 | `![alt](local://id)` (alt without `]` or line break) followed by more markdown yields `id`, then the ids of the rest |
| ImageStorage.ExtractPlain | src/utils/imageStorage.ts:182-190 | markdown without `!` contributes no id in front of what follows |
| ImageStorage.ImageStore.Save | src/utils/imageStorage.ts:68-118 | on a refused save the store is unchanged and an error is returned; otherwise the id is returned and the store becomes the save specification's list |
| ImageStorage.ImageStore.Delete | src/utils/imageStorage.ts:153-163 | the store becomes the filtered list and the call reports success |
| ImageStorage.ImageStore.Clear | src/utils/imageStorage.ts:168-176 | the store becomes empty and the call reports success |
| ImagePlugin.Visit | src/utils/bytemdImagePlugin.ts:68-88 | the recursive visit (rewrite the node, then each child in order) returns the tree the specification function `RewriteImages` describes |
| ImagePlugin.NewSrcCases | src/utils/bytemdImagePlugin.ts:71-79 | a non-`local://` source is kept; a source that changes was `local://` and becomes the data URL of its stored image; every new source is a data URL or the old one |
| ImagePlugin.NewSrcIdempotent | src/utils/bytemdImagePlugin.ts:73-77 | a rewritten source is no longer `local://`, so rewriting it again changes nothing |
| ImagePlugin.RewriteOnlySrc | src/utils/bytemdImagePlugin.ts:68-85 | the step changes image sources only: tags, classes, leaves and the tree's shape are kept and every child is visited |
| ImagePlugin.RewriteIdempotent | src/utils/bytemdImagePlugin.ts:68-85 | running the step twice is running it once |
| ImagePlugin.ElementSrcIdempotent | src/utils/bytemdImagePlugin.ts:69-79 | rewriting one element's source twice is rewriting it once |
| ImagePlugin.RewriteElement | src/utils/bytemdImagePlugin.ts:69-79 | only an `img` whose source starts with `local://` changes, and its new source is the data URL of the stored image with the trimmed id |
| ImagePlugin.CursorAfterLine | src/utils/bytemdImagePlugin.ts:31-34 | inserting a line without a break followed by one break puts the cursor at the start of the next line |
| ImagePlugin.InsertCursor | src/utils/bytemdImagePlugin.ts:17-34 | for a name and id without line breaks the inserted text is `![name](local://id)` and a break, and the cursor ends at line + 1, column 0 |
| ImagePlugin.NoIdNoInsert | src/utils/bytemdImagePlugin.ts:11-15 | a missing or empty image id inserts nothing |
| ImagePlugin.InsertedIdExtracted | src/utils/bytemdImagePlugin.ts:18-19 | the inserted markdown is read back by the image-id scanner as exactly the saved image's id |
| ImagePlugin.NameChars | src/utils/bytemdImagePlugin.ts:18 | the fallback name `screenshot-<ts>.png` holds no `]` and no line break, so its reference is always scanned |
| HtmlGenerator.ReplacedClasses | src/utils/htmlGenerator.ts:15-62 | a mapped tag's class list becomes exactly its role class; a code-block `pre` (a `code` descendant or non-blank text) becomes exactly `wechat-article-code-block`; every other list is kept |
| HtmlGenerator.ProcessElement | src/utils/htmlGenerator.ts:14-68 | the recursive `processElement` (set the class name, then each child element in order) returns the tree the specification function `Classify` describes |
| HtmlGenerator.ElementsOf | src/utils/htmlGenerator.ts:65-72 | `children` holds exactly the element nodes among the child nodes, and no more of them |
| HtmlGenerator.AddWechatClasses | src/utils/htmlGenerator.ts:4-87 | the loop over the body's element children returns the container `WrapBody` describes |
| HtmlGenerator.ClassifyOnlyClasses | src/utils/htmlGenerator.ts:14-68 | processing changes class lists only: tags, attributes, text and shape are kept |
| HtmlGenerator.ClassifyIdempotent | src/utils/htmlGenerator.ts:14-68 | processing twice gives what processing once gives |
| HtmlGenerator.MappedClassesReplaced | src/utils/htmlGenerator.ts:17-62 | a mapped element's class list is exactly its role class, so every earlier class on it is lost |
| HtmlGenerator.WrapBodyShape | src/utils/htmlGenerator.ts:10-86 | the result is one `div` whose only class is `wechat-article`; with element children it holds them processed, in order, and otherwise unchanged; without them it holds the body's nodes as they are |
| HtmlGenerator.WrapBodyDropsText | src/utils/htmlGenerator.ts:71-75 | once the body has an element child, text directly under the body is not copied |
| HtmlGenerator.RemoveInlineStyles | src/utils/htmlGenerator.ts:97-102 | the recursive walk returns the tree with `style` removed at every level (`CleanStyles`) |
| HtmlGenerator.CleanStylesNoStyle | src/utils/htmlGenerator.ts:97-105 | after cleaning no element has a `style` attribute |
| HtmlGenerator.CleanStylesOnlyStyle | src/utils/htmlGenerator.ts:97-105 | cleaning a tree without `style` attributes changes nothing, so `style` is the only thing removed |
| HtmlGenerator.ClassifyKeepsNoStyle | src/utils/htmlGenerator.ts:14-68 | processing adds no `style` attribute |
| HtmlGenerator.UlMatch | src/utils/htmlGenerator.ts:172 | a line is a bullet item exactly when it is `*`, `-` or `+`, one space, then a single line; the item text is that rest |
| HtmlGenerator.LeadingDigits | src/utils/htmlGenerator.ts:173 | the length of the maximal run of decimal digits at the start of a line |
| HtmlGenerator.OlMatchIff | src/utils/htmlGenerator.ts:173 | reading `^\d+\. (.*)$` with the maximal digit run finds a match exactly when the backtracking regular expression does, with the same item text |
| HtmlGenerator.ClassifyLine | src/utils/htmlGenerator.ts:172-202 | a line is a `ul` item exactly when the bullet pattern matches; it is an `ol` item exactly when only the numbered pattern matches; any other line is output through the paragraph rule |
| HtmlGenerator.RunLength | src/utils/htmlGenerator.ts:175-190 | the run counted is the longest prefix of items of one kind |
| HtmlGenerator.GroupedClosed | src/utils/htmlGenerator.ts:170-207 | from a closed state the loop's output equals the reference grouping: each maximal run of items of one kind becomes one list (open tag, items, close tag), and every other line stands alone |
| HtmlGenerator.GroupedOpen | src/utils/htmlGenerator.ts:175-207 | with a list open the loop adds the run of items of its kind, closes the list at the first other line or at the end, then continues as from a closed state |
| HtmlGenerator.GroupedSwitch | src/utils/htmlGenerator.ts:176-196 | a line that does not continue the open list closes it first |
| HtmlGenerator.GroupLine | src/utils/htmlGenerator.ts:171-202 | one turn of the loop pushes the lines of one grouping step and leaves `inList`/`listType` naming the list left open; `listType` is `''` exactly when no list is open |
| HtmlGenerator.StateName | src/utils/htmlGenerator.ts:166-177 | `listType` is the tag name of the open list, so the pushed close tag names it |
| HtmlGenerator.ItemStep | src/utils/htmlGenerator.ts:175-190 | an item line closes a list of the other kind, opens one of its kind unless open, pushes the item, and leaves its kind open |
| HtmlGenerator.PlainStep | src/utils/htmlGenerator.ts:191-202 | any other line closes the open list and is pushed through the paragraph rule, leaving no list open |
| HtmlGenerator.GroupListLines | src/utils/htmlGenerator.ts:165-207 | the `for` loop with its two state variables and the final close produces the reference grouping of the lines |
| HtmlGenerator.RenderNoLists | src/utils/htmlGenerator.ts:197-201 | without list items each line is output on its own: wrapped in `<p>` unless blank or a lone tag |
| HtmlGenerator.SwitchClosesFirst | src/utils/htmlGenerator.ts:175-207 | a bullet item followed by a numbered item gives `<ul>`, its item, `</ul>`, `<ol>`, the other item, `</ol>` |
| HtmlGenerator.ConvertMarkdownToHtml | src/utils/htmlGenerator.ts:138-212 | the conversion is the inline rewrites, a split on line breaks, the list grouping and a join |
| HtmlGenerator.ProcessContent | src/utils/htmlGenerator.ts:111-132 | the conversion runs only for markdown, then `cleanHtml` on the parsed body, then `addWechatClasses` on the re-parsed result |
| HtmlGenerator.ProcessedHasNoStyle | src/utils/htmlGenerator.ts:111-132 | when parsing gives back what was serialised, the output container holds no `style` attribute anywhere |
| CssScope.BraceIndex | src/components/StyleInjector.tsx:29 | the index of the first `{` or `}`, or the length when there is none; everything before it is brace-free |
| CssScope.ScopeRule | src/components/StyleInjector.tsx:29-37 | a non-empty brace-free segment before `{` goes through the callback, and the scan continues after the brace |
| CssScope.ScopeBody | src/components/StyleInjector.tsx:29 | a segment followed by `}` (a declaration body), or a `{` with nothing before it, is copied unchanged |
| CssScope.ScopeTail | src/components/StyleInjector.tsx:29 | text after the last brace is copied unchanged |
| CssScope.InjectorGuard | src/components/StyleInjector.tsx:27-38 | CSS that is empty or names `.bytemd-preview` or `.markdown-body` anywhere is stored unchanged; any other CSS is scoped |
| CssScope.AtRulePassThrough | src/components/StyleInjector.tsx:32-33 | an at-rule head is returned as matched, under either callback |
| CssScope.InjectorScopesSelector | src/components/StyleInjector.tsx:30-36 | a selector that starts with no `@` and names no anchor becomes `.bytemd-preview .markdown-body <trimmed> {` |
| CssScope.InjectorKeepsAnchored | src/components/StyleInjector.tsx:32-33 | a selector that already names an anchor is returned as matched |
| CssScope.NestedRuleScoped | src/components/StyleInjector.tsx:29-37 | a declaration body is never rewritten, but a rule nested in an at-rule block is scoped like a top-level one |
| CssScope.PrefixAnchors | src/components/StyleInjector.tsx:36 | the prefix names both `.bytemd-preview` and `.markdown-body` |
| CssScope.ScopeMarks | src/components/StyleInjector.tsx:29-37 | whenever the rewrite changes anything, its output names both anchors |
| CssScope.InjectorIdempotent | src/components/StyleInjector.tsx:27-38 | scoping the stored CSS again changes nothing |
| CssScope.EditorIdempotent | src/components/ContentEditor/index.tsx:77-91 | the editor's rewrite is idempotent too |
| CssScope.InjectedIsScopedTemplateCss | src/components/StyleInjector.tsx:19-47 | the injected style text is the template's trimmed CSS through the guard; it is empty for a null id, a missing template or empty CSS |
| CssScope.EditorGuard | src/components/ContentEditor/index.tsx:78-89 | editor CSS naming `.preview-content` or `.markdown-body` is kept verbatim; any other CSS is scoped with the editor's callback |
| CssScope.PreviewAnchorAlone | src/components/StyleInjector.tsx:27-32 | a selector naming only `.bytemd-preview` stops the injector but is prefixed a second time by the editor |
| CssUnscope.Span | src/utils/__tests__/wechat-render.test.ts:56-63 | a greedy run (`\s+`, `[a-zA-Z0-9]*`, `[\w-]+`): every character up to the end satisfies the class and the next one does not |
| CssUnscope.MatchPreviewBody | src/utils/__tests__/wechat-render.test.ts:56-60 | `.bytemd-preview\s+\.markdown-body` at the start of the text ends inside the text past both anchors |
| CssUnscope.Ident | src/utils/__tests__/wechat-render.test.ts:57-59 | `[a-zA-Z][a-zA-Z0-9]*` at a position is non-empty and stays inside the text |
| CssUnscope.MatchAt | src/utils/__tests__/wechat-render.test.ts:56-63 | a match of any of the eight patterns is non-empty and starts with one of the two anchors |
| CssUnscope.TagClassAfter | src/utils/__tests__/wechat-render.test.ts:57 | the tag-class tail, when it matches, ends past where it starts |
| CssUnscope.TagDotClassAfter | src/utils/__tests__/wechat-render.test.ts:58 | the tag.class tail, when it matches, ends past where it starts |
| CssUnscope.TagTagAfter | src/utils/__tests__/wechat-render.test.ts:59 | the tag-tag tail, when it matches, ends past where it starts |
| CssUnscope.ReplaceAllMatch | src/utils/__tests__/wechat-render.test.ts:56-63 | a global replace substitutes a match at the current position and resumes right after it |
| CssUnscope.ReplaceAllSkip | src/utils/__tests__/wechat-render.test.ts:56-63 | where no match starts, a global replace copies one character and moves on |
| CssUnscope.ReplaceAllAnchorFree | src/utils/__tests__/wechat-render.test.ts:56-63 | text in which neither anchor occurs passes every replacement unchanged |
| CssUnscope.UnscopeAnchorFree | src/utils/__tests__/wechat-render.test.ts:55-63 | CSS that never names `.bytemd-preview` or `.markdown-body` is handed to the inliner exactly as written |
| CssUnscope.ReplaceAllDotFreePrefix | src/utils/__tests__/wechat-render.test.ts:56-63 | every pattern starts with a dot, so a dot-free prefix is copied as it is |
| CssUnscope.ShortPassesChain | src/utils/__tests__/wechat-render.test.ts:55-63 | text shorter than both anchors passes the whole chain unchanged |
| CssUnscope.PreviewBodyDotRewrites | src/utils/__tests__/wechat-render.test.ts:56 | the first rule turns `.bytemd-preview<spaces>.markdown-body.` into `.` and resumes after it |
| CssUnscope.TagClassMatch | src/utils/__tests__/wechat-render.test.ts:57 | after the scope prefix, the tag-class pattern matches what the tag-class tail reads |
| CssUnscope.TagClassRewrite | src/utils/__tests__/wechat-render.test.ts:57 | the tag-class rule rewrites `.bytemd-preview .markdown-body tag .class` to `tag .class`, with exactly one space |
| CssUnscope.TagClassRuleOneIdle | src/utils/__tests__/wechat-render.test.ts:56 | the first rule does not fire on a tag-class selector |
| CssUnscope.SpaceMatch | src/utils/__tests__/wechat-render.test.ts:60 | the generic prefix strip drops the scope prefix and the spaces after it, then goes on |
| CssUnscope.TagClassGenericStrip | src/utils/__tests__/wechat-render.test.ts:60 | the generic prefix strip alone keeps the original spacing between tag and class |
| CssUnscope.TagClassThroughChain | src/utils/__tests__/wechat-render.test.ts:55-63 | through the chain in its order, a tag-class selector comes out as `tag .class` |
| CssUnscope.TagClassStripFirst | src/utils/__tests__/wechat-render.test.ts:55-63 | with the generic prefix strip run first, such a selector keeps its spacing through the rest of the chain |
| CssUnscope.OrderMatters | src/utils/__tests__/wechat-render.test.ts:55-63 | the order is fixed and matters: the chain gives `tag .class`, while running the generic strip first gives a different result whenever the spacing is not one space |
| WechatFormatter.SelectorTrimmed | src/utils/wechatFormatter.ts:44-45 | a selector without surrounding white space is matched as it is, so `trim()` changes nothing for it |
| WechatFormatter.MatchesClassIff | src/utils/wechatFormatter.ts:48-51 | `.c` matches an element exactly when its class list contains `c` |
| WechatFormatter.MatchesIdIff | src/utils/wechatFormatter.ts:54-56 | `#i` matches an element exactly when its `id` is `i` |
| WechatFormatter.MatchesTagIff | src/utils/wechatFormatter.ts:59-61 | a plain name without a dot matches an element exactly when it is the element's tag in lower case |
| WechatFormatter.MatchesTagClassIff | src/utils/wechatFormatter.ts:64-69 | `t.c` matches an element exactly when its lower-cased tag is `t` and its class list contains `c` |
| WechatFormatter.DescendantNeverMatches | src/utils/wechatFormatter.ts:44-72 | a descendant selector `t u` matches no element at all |
| WechatFormatter.ImportantProps | src/utils/wechatFormatter.ts:99-105 | the list of properties read holds exactly 28 names |
| WechatFormatter.DeclsSound | src/utils/wechatFormatter.ts:107-114 | every declaration comes from a listed property whose value is not empty, `normal`, `none`, `auto`, `0px` or transparent, and every listed property with such a value is copied |
| WechatFormatter.DeclarationsSound | src/utils/wechatFormatter.ts:99-114 | each corrected declaration is `name: value` for a listed property whose value is worth copying, and every listed property with such a value is copied |
| WechatFormatter.CamelCaseRoundTrip | src/utils/wechatFormatter.ts:111 | the hyphen-to-capital rewrite loses nothing on lower-case hyphenated names: turning capitals back into hyphens gives the name back |
| WechatFormatter.CamelCaseNoHyphen | src/utils/wechatFormatter.ts:111 | a name without hyphens is left as it is |
| WechatFormatter.CamelCaseHyphen | src/utils/wechatFormatter.ts:111 | a hyphen before a lower-case letter is replaced by that letter in upper case |
| WechatFormatter.CamelCaseFontSize | src/utils/wechatFormatter.ts:111 | `font-size` becomes `fontSize` |
| WechatFormatter.CamelCaseBreaksFontSize | src/utils/wechatFormatter.ts:108-112 | with a computed `font-size` of `16px` the code as written pushes `fontSize: 16px`, and `fontSize` is no CSS property name |
| WechatFormatter.FontSizeCorrected | src/utils/wechatFormatter.ts:108-112 | with the names kept as read, the same value is pushed as `font-size: 16px` |
| WechatFormatter.CollectDeclarations | src/utils/wechatFormatter.ts:107-114 | the `forEach` over the property list returns one declaration per property whose value is worth copying, in list order, with the corrected hyphenated name (see Findings; the as-written camel-cased list is `DeclarationsAsWritten`) |
| WechatFormatter.CollectFrom | src/utils/wechatFormatter.ts:107-114 | the loop over any property list pushes, in order, one declaration per property whose value is worth copying, written with the corrected hyphenated name |
| WechatFormatter.DeclsFromSnoc | src/utils/wechatFormatter.ts:108-113 | one more property adds its declaration, with the corrected name, exactly when its value is worth copying |
| WechatFormatter.MergeStyleKeeps | src/utils/wechatFormatter.ts:117-120 | with no declaration nothing changes; otherwise the old style stays a prefix of the new one, every declaration occurs in it, and every other attribute is kept |
| WechatFormatter.ApplyKids | src/utils/wechatFormatter.ts:123-129 | processing the children keeps their number |
| WechatFormatter.ApplyStylesOnlyStyle | src/utils/wechatFormatter.ts:93-130 | the style pass changes `style` attributes only: with `style` removed everywhere the tree is what it was |
| WechatFormatter.ApplyStylesIdle | src/utils/wechatFormatter.ts:117-120 | when no element has a value worth copying the tree is left exactly as it was |
| WechatFormatter.ElementsCount | src/utils/wechatFormatter.ts:123-129 | the pass keeps the number of element children |
| WechatFormatter.PairedByIndex | src/utils/wechatFormatter.ts:123-129 | the k-th element child is processed with the clone's k-th child when the clone has one, and is otherwise untouched |
| WechatFormatter.ProcessElement | src/utils/wechatFormatter.ts:93-130 | the recursive `processElement` returns the tree `ApplyStyles` describes, with the corrected declarations merged into each element's `style` |
| WechatFormatter.ProcessChildren | src/utils/wechatFormatter.ts:123-129 | the loop over the children returns the children `ApplyKids` describes, with the corrected declarations |
| WechatFormatter.KeptAttrs | src/utils/wechatFormatter.ts:200-207 | an attribute survives exactly when it is not `class`, `id` or `data-*`, and keeps its value |
| WechatFormatter.StripStripped | src/utils/wechatFormatter.ts:199-211 | after the strip no element anywhere has a class, an `id` or a `data-*` attribute |
| WechatFormatter.StripIdle | src/utils/wechatFormatter.ts:199-211 | a tree with nothing to remove is left as it is |
| WechatFormatter.StripFixedIff | src/utils/wechatFormatter.ts:199-211 | a tree is its own strip exactly when nothing removable is left in it, and stripping twice is stripping once |
| WechatFormatter.StripKeeps | src/utils/wechatFormatter.ts:199-211 | tags, node order and text survive the strip, and every other attribute keeps its value |
| WechatFormatter.RemoveAttributes | src/utils/wechatFormatter.ts:199-211 | the attribute loop and the recursion over the children return the tree `Strip` describes |
| WechatFormatter.TemplateCssCases | src/utils/wechatFormatter.ts:151-157 | the CSS is empty unless a stored template with non-empty CSS is selected, and then it is that CSS trimmed |
| WechatFormatter.PreviewArticle | src/utils/wechatFormatter.ts:162-168 | the clone carries `wechat-article`, no longer carries `markdown-body`, and keeps every other class, the tag, the attributes and the children |
| WechatFormatter.WrapArticleCases | src/utils/wechatFormatter.ts:171-174 | the fallback HTML is wrapped exactly when neither quoting of `class="wechat-article"` occurs; afterwards one does, so wrapping again changes nothing |
| WechatFormatter.GenerateStripped | src/utils/wechatFormatter.ts:145-219 | whatever the input, no class, `id` or `data-*` attribute is left in the output |
| WechatFormatter.GenerateFromPreview | src/utils/wechatFormatter.ts:160-192 | with a preview, the output is the preview's clone, styled (with the corrected declarations) only when there is template CSS, then stripped |
| WechatFormatter.CorrectionOnlyStyle | src/utils/wechatFormatter.ts:107-120 | the style pass with corrected names and the pass as written give the same tree once `style` is removed: the correction changes only the `style` text |
| ContentEditor.SaveAsRefusedIff | src/components/ContentEditor/index.tsx:199-210 | saving is offered exactly when the CSS is not all white space and fewer than 3 templates are stored; blank CSS is the first refusal |
| ContentEditor.NewTemplateShape | src/components/ContentEditor/index.tsx:223-230 | the new template's id starts with `template-` and is never a built-in id; it is not the default, both stamps are the given time, and name and CSS are trimmed |
| ContentEditor.ConfirmRefusedIff | src/components/ContentEditor/index.tsx:213-232 | confirmation fails exactly for a blank name, blank CSS, or a new id while 3 templates are stored; a blank name is reported first |
| ContentEditor.ConfirmSaved | src/components/ContentEditor/index.tsx:223-232 | after a confirmed save, lookup by the new id finds the new template with the trimmed, non-empty CSS; the count grows by at most one, and the store's invariant still holds |
| ContentEditor.ConfirmLookup | src/components/ContentEditor/index.tsx:242-252 | after a confirmed save, the style loaded for the new id is the trimmed CSS |
| ContentEditor.SyncedStyleIs | src/components/ContentEditor/index.tsx:62-73 | the loaded style is the CSS of the selected template, or empty; an unknown id gives empty |
| ContentEditor.CopyRefusedIff | src/components/ContentEditor/index.tsx:98-101 | nothing is copied exactly when the output is empty or all white space |
| ContentEditor.Editor.constructor | src/components/ContentEditor/index.tsx:32-41 | on mount the default template (or none) is selected, its CSS is the current style, the dialog is closed and the name empty |
| ContentEditor.Editor.SelectTemplate | src/components/ContentEditor/index.tsx:355 | picking a template selects it and loads its CSS; nothing else changes |
| ContentEditor.Editor.HandleStorageChange | src/components/ContentEditor/index.tsx:45-52 | the templates are reloaded, a dangling selection falls back to the default template's id or none, and the style is reloaded |
| ContentEditor.Editor.HandleStyleChange | src/components/ContentEditor/index.tsx:77-91 | the current style becomes the edited CSS scoped by `EditorScope`; nothing else changes |
| ContentEditor.Editor.HandleSaveAsTemplate | src/components/ContentEditor/index.tsx:199-210 | unless refused, the name dialog opens with an empty name; a refusal changes nothing |
| ContentEditor.Editor.HandleConfirmSaveTemplate | src/components/ContentEditor/index.tsx:213-257 | on success the store holds the saved list, the dialog closes, the name is cleared, the new id is selected and its trimmed CSS is the current style; a refusal changes nothing |
| ContentEditor.Editor.Commit | src/components/ContentEditor/index.tsx:232-253 | the success path stores the list, closes the dialog, selects the id and loads its CSS when it has any |
| ContentEditor.Editor.HandleCopyToWechat | src/components/ContentEditor/index.tsx:94-113 | the output is written to the clipboard exactly when it is not blank; otherwise nothing changes |
| EditorPanel.DefaultIdStored | src/components/ContentEditor/EditorPanel.tsx:24-26 | the initial selection, when there is one, is a non-empty id of a stored template; there is none only for an empty store or a default with an empty id |
| EditorPanel.ReconcileValid | src/components/ContentEditor/EditorPanel.tsx:30-40 | after the storage-change handler a non-empty selection names a stored template |
| EditorPanel.ReconcileCases | src/components/ContentEditor/EditorPanel.tsx:35-39 | no selection stays none, a selection still stored is kept, and a dangling one becomes the default template's id or none |
| EditorPanel.ReconcileIdempotent | src/components/ContentEditor/EditorPanel.tsx:30-43 | running the handler twice on the same storage gives what running it once gives |
| EditorPanel.CopyEmptyIff | src/components/ContentEditor/EditorPanel.tsx:199-215 | the HTML for a mode is empty exactly in `wechat` mode with an empty formatter output: the full document and the content HTML are never empty |
| EditorPanel.CopySources | src/components/ContentEditor/EditorPanel.tsx:201-210 | `full` embeds the same body `content` copies, just before the document end; `content` copies the preview clone or else HTML carrying the `wechat-article` marker; `wechat` copies the formatter's output |
| EditorPanel.Panel.constructor | src/components/ContentEditor/EditorPanel.tsx:24-26 | on mount the default template's id, or none, is selected |
| EditorPanel.Panel.HandleStorageChange | src/components/ContentEditor/EditorPanel.tsx:30-40 | the templates are reloaded and the selection reconciled; the clipboard is unchanged |
| EditorPanel.Panel.HandleCopyHtml | src/components/ContentEditor/EditorPanel.tsx:197-217 | the HTML the mode selects is written to the clipboard exactly when it is not empty; the templates and selection are unchanged |
| HtmlExporter.ResolveImages | src/utils/htmlExporter.ts:26-35 | the `forEach` over the images below a node returns the tree `ExportImage` describes |
| HtmlExporter.ResolveSrc | src/utils/htmlExporter.ts:28-34 | one image's attributes become what `ExportAttrs` describes: a `local://` source with a new, non-empty conversion is replaced |
| HtmlExporter.GetPreviewHtml | src/utils/htmlExporter.ts:9-41 | no preview container gives no clone; otherwise the clone with its classes fixed and its images resolved, as `PreviewHtml` describes |
| HtmlExporter.ExportImageOnlySrc | src/utils/htmlExporter.ts:26-35 | the image pass changes image sources only: classes, other attributes, text and shape stay |
| HtmlExporter.ExportImageSrc | src/utils/htmlExporter.ts:26-34 | the attribute names stay the same, and a value that changes is the `src` of an `img` that started with `local://` and becomes that stored image's data URL |
| HtmlExporter.ExportImageIdempotent | src/utils/htmlExporter.ts:26-35 | resolving the images of an exported tree again changes nothing |
| HtmlExporter.PreviewCloneShape | src/utils/htmlExporter.ts:15-35 | the clone keeps the container's tag and attributes, carries `wechat-article` and not `markdown-body`, and its children differ from the preview's in image sources only |
| HtmlExporter.FullHtmlLayout | src/utils/htmlExporter.ts:60-88 | the document is the fixed head, the style text, the fixed middle, the body HTML verbatim and the fixed end, and each piece reads back at its place |
| HtmlExporter.FullHtmlStyle | src/utils/htmlExporter.ts:52-58 | the style text is the selected stored template's trimmed CSS when that is not empty, and otherwise the `/* 未选择样式模版 */` comment |
| HtmlExporter.ContentHtmlMarked | src/utils/htmlExporter.ts:94-106 | the content HTML carries a `wechat-article` marker, and is the processed content itself exactly when that already carried one; the full document uses the same HTML when there is no preview |
| LivePreview.LiveClasses | src/components/ContentEditor/EditorPanel.tsx:80-153 | the class step keeps every class already present, in order, and adds at most one |
| LivePreview.Walk | src/components/ContentEditor/EditorPanel.tsx:79-159 | the recursive `addClassesToElements` returns the tree `Annotate` describes |
| LivePreview.ApplyWechatClasses | src/components/ContentEditor/EditorPanel.tsx:67-171 | without a container nothing happens; with one, it gains `wechat-article` if absent and every child is walked, as `AnnotateContainer` describes |
| LivePreview.AnnotateOnlyClasses | src/components/ContentEditor/EditorPanel.tsx:79-159 | the walk changes class lists only: tags, attributes, text and shape are kept |
| LivePreview.LiveClassesFixedIff | src/components/ContentEditor/EditorPanel.tsx:82-153 | an element's class step changes nothing exactly when its list already holds the class the step would add |
| LivePreview.AnnotateFixedIff | src/components/ContentEditor/EditorPanel.tsx:79-159 | the walk leaves a tree unchanged exactly when every element in it already carries its role class |
| LivePreview.AnnotateIdempotent | src/components/ContentEditor/EditorPanel.tsx:79-159 | running the walk twice gives what running it once gives |
| LivePreview.ContainerIdempotent | src/components/ContentEditor/EditorPanel.tsx:67-171 | running the whole container step twice gives what running it once gives |
| LivePreview.AnnotateWellAnnotated | src/components/ContentEditor/EditorPanel.tsx:155-164 | after the walk every element below the container carries its role class, so every descendant was reached |
| LivePreview.ContainerClasses | src/components/ContentEditor/EditorPanel.tsx:72-76 | the container gains `wechat-article` only when absent and keeps its classes; its own tag earns no role class |
| LivePreview.PreRule | src/components/ContentEditor/EditorPanel.tsx:134-142 | a `pre` gains `wechat-article-code-block` exactly when it has a `code` descendant or non-blank text |
| RenderClean.CleanKidsConcat | src/utils/__tests__/wechat-render.test.ts:327-338 | the children are rebuilt sibling by sibling: cleaning a concatenation concatenates the cleanings |
| RenderClean.CleanElementKeeps | src/utils/__tests__/wechat-render.test.ts:318-324 | an element is dropped exactly when its tag is not on the allowed list; a kept one keeps its tag, classes and attributes |
| RenderClean.CleanElementSanitized | src/utils/__tests__/wechat-render.test.ts:318-346 | whatever the cleaning keeps holds only allowed elements, and below them only text and allowed elements |
| RenderClean.CleanKidsSanitized | src/utils/__tests__/wechat-render.test.ts:327-338 | the rebuilt children hold only text and allowed elements, at every depth |
| RenderClean.CleanElementIdle | src/utils/__tests__/wechat-render.test.ts:318-346 | an element that is already sanitized comes out unchanged |
| RenderClean.CleanKidsIdle | src/utils/__tests__/wechat-render.test.ts:327-338 | children that are already sanitized come out unchanged |
| RenderClean.CleanElementFixedIff | src/utils/__tests__/wechat-render.test.ts:318-346 | the cleaning leaves an element unchanged exactly when it is sanitized |
| RenderClean.CleanElementIdempotent | src/utils/__tests__/wechat-render.test.ts:318-346 | cleaning twice gives what cleaning once gives |
| RenderClean.CleanElementText | src/utils/__tests__/wechat-render.test.ts:318-346 | when every element is allowed, only comments go and the text of the tree is kept |
| RenderClean.CleanKidsText | src/utils/__tests__/wechat-render.test.ts:327-338 | when every element is allowed, the text of the rebuilt children is the text of the originals |
| RenderClean.DroppedText | src/utils/__tests__/wechat-render.test.ts:340-343 | a `p` whose only child is a dropped element holding text gets that text back as its only child |
| RenderClean.CleanElementLoop | src/utils/__tests__/wechat-render.test.ts:318-346 | the loop over the child nodes, appending text, cleaned elements and nothing for comments, returns what `CleanElement` describes |
| RenderClean.CleanHtmlDiv | src/utils/__tests__/wechat-render.test.ts:300-303 | cleaning the wrapping `div` keeps it, so the output is sanitized, and output that was already sanitized is returned as it is |
| CodeBlocks.ElementTexts | src/utils/__tests__/wechat-render.test.ts:127-133 | there is no child text to join exactly when the `pre` has no element child |
| CodeBlocks.CodeLines | src/utils/__tests__/wechat-render.test.ts:141-150 | one line `div` per piece of the code text split at `\n` |
| CodeBlocks.BuildSection | src/utils/__tests__/wechat-render.test.ts:113-152 | the loop appending one inner `div` per line builds the section `CodeSection` describes |
| CodeBlocks.ConvertAllConcat | src/utils/__tests__/wechat-render.test.ts:112-167 | the pass works sibling by sibling: converting a concatenation concatenates the conversions |
| CodeBlocks.AdjacentBlocksSeparated | src/utils/__tests__/wechat-render.test.ts:154-165 | two adjacent blocks come out as two sections, each followed by its own zero-height separator |
| CodeBlocks.SectionNoBlocks | src/utils/__tests__/wechat-render.test.ts:115-165 | a section and its separator hold no code block |
| CodeBlocks.ConvertNodeNoBlocks | src/utils/__tests__/wechat-render.test.ts:112-167 | after the pass on a node no code block is left at any depth |
| CodeBlocks.ConvertAllNoBlocks | src/utils/__tests__/wechat-render.test.ts:112-167 | after the pass on a list no code block is left at any depth |
| CodeBlocks.ConvertAllIdle | src/utils/__tests__/wechat-render.test.ts:112-167 | a list without code blocks passes unchanged |
| CodeBlocks.ConvertAllFixedIff | src/utils/__tests__/wechat-render.test.ts:112-167 | the pass leaves a list unchanged exactly when no code block is in it |
| CodeBlocks.ConvertAllIdempotent | src/utils/__tests__/wechat-render.test.ts:112-167 | running the pass twice gives what running it once gives |
| CodeBlocks.CodeLinesText | src/utils/__tests__/wechat-render.test.ts:141-150 | there is one line `div` more than there are newlines; an empty piece shows as `&nbsp;` and any other keeps its text verbatim; the pieces joined by `\n` give the code text back |
| CodeBlocks.LastLine | src/utils/__tests__/wechat-render.test.ts:141-150 | a code text that is empty or ends in a newline ends with an `&nbsp;` line; any other ends with its own non-empty last line |
| CodeBlocks.CodeTextFromCode | src/utils/__tests__/wechat-render.test.ts:119-122 | with a `code` descendant whose text is not empty, the code text is that text |
| CodeBlocks.EmptyPreLines | src/utils/__tests__/wechat-render.test.ts:127-141 | a `pre` without `code` and without text, but with element children, gets one line per element child |
| RenderHarness.Transform | src/utils/__tests__/wechat-render.test.ts:178-297 | the transforms run in the fixed order headings, tables, quotes, inline code, rules, lists, task items; a wrapping `div` stays a `div` |
| RenderHarness.SelectArticleMarked | src/utils/__tests__/wechat-render.test.ts:29-52 | the chosen container always carries `wechat-article`, so the branch that re-annotates it is never taken |
| RenderHarness.SelectArticleCases | src/utils/__tests__/wechat-render.test.ts:29-45 | a container already marked is taken as it is; with no element in the body, a new `div.wechat-article` holds the whole body |
| RenderHarness.RenderSanitized | src/utils/__tests__/wechat-render.test.ts:14-306 | whatever the inliner returns, every node of the output is text or a whitelisted element, at every depth |
| RenderHarness.FinishSanitized | src/utils/__tests__/wechat-render.test.ts:106-305 | the steps after inlining always produce sanitized output |
| RenderHarness.RenderFallback | src/utils/__tests__/wechat-render.test.ts:101-104 | when the inliner throws, the rest of the pipeline runs on the chosen container alone |
| RenderHarness.CountIsOpenings | src/utils/__tests__/wechat-render.test.ts:365-368 | for a tag name without `<`, the global regular-expression count equals the number of positions where an opening tag starts |
| RenderHarness.SeparatorDetected | src/utils/__tests__/wechat-render.test.ts:373-375 | any output holding the separator's style passes the separator check |
| RenderHarness.SeparatorHeight | src/utils/__tests__/wechat-render.test.ts:159-161 | the separator's style contains `height:0` |
| RenderHarness.SeparatorOverflow | src/utils/__tests__/wechat-render.test.ts:159-161 | the separator's style contains `overflow:hidden` |
| RenderTransforms.HeadingStyleTable | src/utils/__tests__/wechat-render.test.ts:180-191 | every level h1 to h6 has its own entry, so the `h3` fallback is never taken for a heading, and no two levels share a style |
| RenderTransforms.PromoteText | src/utils/__tests__/wechat-render.test.ts:188-230 | replacing headings or block quotes by a copy of their content keeps the text of the tree |
| RenderTransforms.PromoteOuterFree | src/utils/__tests__/wechat-render.test.ts:188-230 | after a replacing step every selected element left sits inside a replacement, which has no class and only a `style` attribute |
| RenderTransforms.HeadingBecomesParagraph | src/utils/__tests__/wechat-render.test.ts:188-198 | a heading becomes a `p` whose only attribute is its level's style, set rather than merged, holding the heading's children as they were |
| RenderTransforms.HeadingsResult | src/utils/__tests__/wechat-render.test.ts:178-198 | after the heading step every remaining heading sits inside a converted one, and the text is kept |
| RenderTransforms.QuotesResult | src/utils/__tests__/wechat-render.test.ts:220-230 | after the block-quote step every remaining quote sits inside a converted `section`, and the text is kept |
| RenderTransforms.RestyleShape | src/utils/__tests__/wechat-render.test.ts:200-270 | a step that sets styles in place keeps tags, structure and text |
| RenderTransforms.RestyleRestyled | src/utils/__tests__/wechat-render.test.ts:200-270 | after such a step every selected element has no class and a style the step would keep |
| RenderTransforms.RestyleFixedIff | src/utils/__tests__/wechat-render.test.ts:200-270 | such a step leaves a tree unchanged exactly when every selected element is already restyled |
| RenderTransforms.RestyleIdempotent | src/utils/__tests__/wechat-render.test.ts:200-270 | with a style rule that keeps what it produces, running such a step twice gives what running it once gives |
| RenderTransforms.StylesStable | src/utils/__tests__/wechat-render.test.ts:204-266 | the table, rule and list style rules each keep the styles they set |
| RenderTransforms.TablesResult | src/utils/__tests__/wechat-render.test.ts:200-218 | the table step keeps shape and text, leaves every table and every `th`/`td` inside one without class and with its fixed style, and is idempotent |
| RenderTransforms.RulesResult | src/utils/__tests__/wechat-render.test.ts:247-253 | the rule step keeps shape and text, leaves every `hr` without class and with its fixed style, and is idempotent |
| RenderTransforms.ListsResult | src/utils/__tests__/wechat-render.test.ts:255-270 | the list step keeps shape and text, leaves every list and every item inside one without class and with its style, and is idempotent |
| RenderTransforms.ItemStyleRule | src/utils/__tests__/wechat-render.test.ts:262-269 | an item inside a list loses its classes and keeps a style that mentions `margin`; any other style is replaced by `margin:4px 0;` |
| RenderTransforms.InlineCodeText | src/utils/__tests__/wechat-render.test.ts:232-245 | the inline-code step keeps the text of the tree |
| RenderTransforms.InlineCodeFixedIff | src/utils/__tests__/wechat-render.test.ts:232-245 | the step changes a tree exactly when some `code` lies outside every `pre` |
| RenderTransforms.InlineCodeClears | src/utils/__tests__/wechat-render.test.ts:232-245 | after the step every `code` left lies inside a `pre` |
| RenderTransforms.InlineCodeIdempotent | src/utils/__tests__/wechat-render.test.ts:232-245 | running the step twice gives what running it once gives |
| RenderTransforms.Marker | src/utils/__tests__/wechat-render.test.ts:287 | a marker found is `x`, `X` or white space, and the text after it is shorter than the input |
| RenderTransforms.FindCheckbox | src/utils/__tests__/wechat-render.test.ts:276 | the search returns a checkbox `input`, and finds none exactly when there is none below the item |
| RenderTransforms.MarkerAfterSpace | src/utils/__tests__/wechat-render.test.ts:280 | a marker after leading white space is found, with the rest of the text after it |
| RenderTransforms.TaskMatchComplete | src/utils/__tests__/wechat-render.test.ts:287 | every text made of white space, `[c]`, white space and a one-line text matches, capturing that text, ticked exactly for `x` or `X` |
| RenderTransforms.TaskMatchSound | src/utils/__tests__/wechat-render.test.ts:287-290 | every match comes from such a text: white space, `[c]`, white space, then the captured one-line text, ticked exactly for `x` or `X` |
| RenderTransforms.NoMarkerNoTask | src/utils/__tests__/wechat-render.test.ts:280-293 | text without a marker is no task and is left as it is by the marker removal |
| RenderTransforms.TasksAddNoCheckbox | src/utils/__tests__/wechat-render.test.ts:273-295 | the task step never introduces a checkbox |
| RenderTransforms.TasksShape | src/utils/__tests__/wechat-render.test.ts:273-295 | the step keeps tag, classes and attributes; a rewritten item holds exactly one text, any other element its walked children |
| RenderTransforms.TasksClearItems | src/utils/__tests__/wechat-render.test.ts:276-284 | after the step no list item holds a checkbox |
| RenderTransforms.CheckboxItem | src/utils/__tests__/wechat-render.test.ts:277-284 | an item with a checkbox reads `☑️` when it is ticked and `⬜` otherwise, a space, then its text without the marker, trimmed |
| RenderTransforms.MarkedItem | src/utils/__tests__/wechat-render.test.ts:286-293 | an item without a checkbox whose text matches reads the icon for the captured mark, a space, then the captured text |
| Toc.HashRun | src/components/ContentEditor/TOC.tsx:22 | the length of the maximal run of `#` a line starts with |
| Toc.SpaceRun | src/components/ContentEditor/TOC.tsx:22 | the length of the maximal run of white space a text starts with |
| Toc.Headings | src/components/ContentEditor/TOC.tsx:16-32 | one entry per matching line |
| Toc.ExtractHeadings | src/components/ContentEditor/TOC.tsx:16-32 | the loop over the lines split at `\n`, with its running count, returns the entries `Headings` describes |
| Toc.MatchShape | src/components/ContentEditor/TOC.tsx:22-24 | a match is one to six `#`, non-empty white space, then a non-empty second group free of line breaks; the level is the number of `#` |
| Toc.HeadingMatches | src/components/ContentEditor/TOC.tsx:22 | conversely, one to six `#`, white space, then text free of line breaks that does not start with white space is a heading of that level, and that text is the second group |
| Toc.SevenHashesNone | src/components/ContentEditor/TOC.tsx:22 | a line starting with seven or more `#` is never a heading |
| Toc.HeadingsStep | src/components/ContentEditor/TOC.tsx:21-29 | one more line adds its entry, numbered by the count so far, exactly when it matches |
| Toc.HeadingLinesSound | src/components/ContentEditor/TOC.tsx:21-29 | the entries come from the matching lines, each once and in line order, and from no other line |
| Toc.HeadingLinesSorted | src/components/ContentEditor/TOC.tsx:21-29 | the lines that yield entries are in range and strictly increasing, so the outline follows document order |
| Toc.HeadingLinesComplete | src/components/ContentEditor/TOC.tsx:21-29 | every line that matches the heading pattern yields an entry |
| Toc.HeadingsLevels | src/components/ContentEditor/TOC.tsx:24 | every entry's level is the number of `#` its line starts with, from 1 to 6 |
| Toc.NoHeadingsIff | src/components/ContentEditor/TOC.tsx:34-38 | there are no entries, so nothing is rendered, exactly when no line is a heading |
| Toc.NatToStringInjective | src/components/ContentEditor/TOC.tsx:26 | different numbers are written differently |
| Toc.HeadingIdInjective | src/components/ContentEditor/TOC.tsx:26 | the line index and the count can be read back from an id |
| Toc.HeadingIdsDistinct | src/components/ContentEditor/TOC.tsx:20-27 | no two entries share an id |
| Strings.Trim | src/components/ContentEditor/TOC.tsx:25 | `trim()`: the result is the slice of the input left after dropping white space at both ends: every dropped character is white space and the result neither starts nor ends with white space |
| Strings.TrimIdempotent | src/components/ContentEditor/TOC.tsx:25 | trimming a trimmed string changes nothing |
| Strings.TrimEmptyIffAllSpace | src/components/ContentEditor/index.tsx:200 | `trim()` is empty exactly when the input is all white space, which is how saving a template rejects blank style code |
| Strings.Split | src/components/ContentEditor/TOC.tsx:18 | `split('\n')` always yields at least one line |
| Strings.SplitCount | src/components/ContentEditor/TOC.tsx:18 | splitting yields one more part than there are separators |
| Strings.JoinSplit | src/components/ContentEditor/TOC.tsx:18 | joining the parts of a split with the separator gives back the input |
| Strings.SplitLastEmpty | src/utils/__tests__/wechat-render.test.ts:141 | the last part is empty exactly when the input is empty or ends with the separator (the trailing-newline code line) |
| Strings.NatToString | src/components/ContentEditor/TOC.tsx:26 | the decimal rendering of a counter is non-empty and all digits |
| Strings.ToLower | src/utils/wechatFormatter.ts:59 | `toLowerCase()` keeps the length and lowers each ASCII letter in place |
| Lists.FindIndex | src/utils/templateStorage.ts:22 | `findIndex`: the first position satisfying the predicate, and `-1` (None) exactly when none does |
| Lists.Find | src/utils/templateStorage.ts:89 | `find`: present exactly when `findIndex` finds a position, and then the element at it |
| Lists.Filter | src/utils/templateStorage.ts:59 | `filter`: no longer than the input and every kept element satisfies the predicate |
| Lists.FilterSameLength | src/utils/templateStorage.ts:59 | the filter keeps the length exactly when every element passes, and then returns the input |
| Lists.SumFilter | src/utils/imageStorage.ts:38 | the summed size of a filtered list is at most that of the whole list |
| Dom.AddClass | src/utils/wechatFormatter.ts:165 | `classList.add`: the class is present afterwards, appended only when it was absent |
| Dom.RemoveClass | src/utils/wechatFormatter.ts:167 | `classList.remove`: the class is gone, and the result is the input filtered by `x !== c`, so the other classes keep their order |
| Dom.FindWithClass | src/utils/wechatFormatter.ts:184 | `querySelector('.c')`: any node found carries the class |
| Dom.FindWithClassFirst | src/utils/wechatFormatter.ts:184 | `querySelector('.c')` returns the first node carrying the class in document order (each node, then its descendants, then its later siblings), and none when no node carries it |
| Dom.FindTag | src/utils/__tests__/wechat-render.test.ts:119 | `querySelector(tag)`: any element found has the tag, and nothing is found only when no descendant has it |
| Dom.FindTagFirst | src/utils/__tests__/wechat-render.test.ts:119 | `querySelector(tag)` returns the first element with the tag in document order (each node, then its descendants, then its later siblings) |
| Dom.FirstElement | src/utils/__tests__/wechat-render.test.ts:30-31 | `firstElementChild`: any result is an element of the list, and none means the list holds no element |
| Dom.FirstElementFirst | src/utils/__tests__/wechat-render.test.ts:30-31 | `firstElementChild` is the first entry of the list that is an element |
| Dom.SetAttr | src/utils/htmlExporter.ts:32 | `setAttribute` changes that one attribute and nothing else of the element |

## Left out

- HTML parsing and serialisation (`DOMParser`, `innerHTML`, `cloneNode`, `outerHTML`) are not modelled. The model works on the node tree, and where the source parses text a parse function is a parameter (`HtmlGenerator.ProcessContent`). The exporter's string builders take already serialised HTML.
- CSS inlining by `juice` is a function parameter of the render harness that may fail, because it is a foreign library.
- The browser's `getComputedStyle` becomes a tree of property→value maps given as input, because the computed values come from the browser's CSS engine.
- `applyCssAsInlineStyles` (src/utils/wechatFormatter.ts:4-39) is not modelled: it rests entirely on `getComputedStyle` over parsed rules.
- `generateWechatFormatHtml` (src/utils/htmlExporter.ts:116) is not a separate member. It returns `generateWechatHtml`'s result unchanged, so its callers use `WechatFormatter.GenerateWechatHtml` directly.
- `localStorage`, `JSON.parse`/`JSON.stringify` and their `catch` paths are not modelled. Each store is a `seq` field, and a failed write never happens in the model.
- `Date.now()` and `Math.random()` are not modelled: timestamps and random suffixes are parameters.
- `FileReader` (`fileToBase64`) is not modelled. The data it reads is a parameter, and `None` stands for an unreadable file.
- The asynchronous Clipboard API and its `execCommand` fallback are not modelled. The clipboard is a field that a successful copy overwrites.
- `ContentEditor.Editor.Commit` runs the deferred part of confirm-save (after `setTimeout`) at once, so interleavings with other events are not modelled.
- Paste listeners, `MutationObserver`, `setTimeout`/`setInterval` and `window` events (`templatesUpdated`, `storage`) are not modelled. Their handlers are methods that the environment calls.
- The CodeMirror 6 and `insertText` branches of `insertImageToEditor` are not modelled; only the CodeMirror 5 cursor arithmetic is.
- Pure UI components and configuration (template manager and editor views, the preview panel, app bootstrap, analytics, build config) are not modelled, because they hold no logic beyond wiring.
- The CSS text of the six built-in templates is an opaque string per row; only the table's invariants are proved.
- The inline Markdown rewrites of `convertMarkdownToHtml` (src/utils/htmlGenerator.ts:139-162) are one opaque per-line function parameter; the list-grouping state machine around them is modelled.
- The write of the scoped CSS into the `<style>` element's `textContent` is not modelled; the injected text is the value of a function.
- The TOC effect that assigns `id`s to rendered heading elements is not modelled; it queries the live DOM.
- Update in place and aliasing of DOM nodes are not modelled: every walk returns a new tree.
- WechatFormatter.CollectDeclarations: pushes `font-size: 16px` where the source pushes `fontSize: 16px` (the finding below). The source's camel-cased list is `WechatFormatter.DeclarationsAsWritten`.
- WechatFormatter.CollectFrom: writes each property's hyphenated name, not the camel-cased name of src/utils/wechatFormatter.ts:111, for the same reason.
- WechatFormatter.DeclsFromSnoc: is the step lemma of the corrected declaration list, not of the camel-cased one.
- WechatFormatter.ProcessElement: merges the corrected declarations into `style`, so its `style` text differs from the source's in the property names only (`WechatFormatter.CorrectionOnlyStyle`).
- WechatFormatter.ProcessChildren: carries the same corrected declarations as `ProcessElement`.
- WechatFormatter.GenerateWechatHtml: styles with the corrected declarations, as do `WechatNodes` and the lemmas about it (`GenerateStripped`, `GenerateFromPreview`).
- WechatFormatter.GenerateWechatHtml: takes the `processContent` output as a free string parameter. It is not tied to `HtmlGenerator.ProcessContent`, because its proved properties hold for any value.
- Dom.FindWithClass: its own contract does not say the node found is the first in document order; `Dom.FindWithClassFirst` states that.
- Dom.FindTag: its own contract does not say the element found is the first in document order; `Dom.FindTagFirst` states that.
- Dom.FirstElement: its own contract does not say the result is the first element; `Dom.FirstElementFirst` states that.
- Lists.Filter: its own contract states only the length bound and that kept elements pass; membership both ways is in `Lists.FilterKeeps` and `Lists.FilterFrom`.
- Strings.Split: its own contract states only that there is at least one part; the partition is stated by `Strings.JoinSplit`, `Strings.SplitCount` and `Strings.SplitLastEmpty`.

## Findings

| source | as written | input that shows it | evidently intended | confidence | as-written member | corrected member |
|---|---|---|---|---|---|---|
| src/utils/wechatFormatter.ts:111 | the property name is camel-cased (`font-size` → `fontSize`) before it is written into the `style` attribute string, where CSS ignores `fontSize: 16px` | an element whose computed `font-size` is `16px` | emit the hyphenated name, `font-size: 16px` | not executed | WechatFormatter.CamelCaseBreaksFontSize | WechatFormatter.FontSizeCorrected |
