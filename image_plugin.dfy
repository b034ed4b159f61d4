/**
  The image-upload editor plugin: its rehype step, which points `local://`
  image sources at the stored data URLs, and the markdown it inserts for a
  saved image together with where the cursor goes afterwards.
 */
module ImagePlugin {
  import opened Wrappers
  import opened Strings
  import opened Hast
  import ImageStorage
  import Lists

  // ---------------------------------------------------------------------------
  // The rehype step

  /** The new `src` of an image: the converted url when it is non-empty and differs, for a `local://` source. */
  function NewSrc(images: seq<ImageStorage.StoredImage>, src: string): string {
    if src != "" && StartsWith(src, ImageStorage.LocalScheme) then
      var d := ImageStorage.ConvertImageUrl(images, src);
      if d != "" && d != src then d else src
    else src
  }

  /** An element's `src` after the step: only a non-empty `img` source is rewritten. */
  function ElementSrc(images: seq<ImageStorage.StoredImage>, t: string, src: Option<string>): Option<string> {
    if t == "img" && src.Some? && src.value != "" then Some(NewSrc(images, src.value)) else src
  }

  /** The tree after the step: every `img` element with a non-empty `src` gets `NewSrc`, and the walk goes into every child. */
  function RewriteImages(images: seq<ImageStorage.StoredImage>, n: HNode): HNode
    decreases n
  {
    match n
    case HLeaf(_, _) => n
    case HRoot(cs) => HRoot(seq(|cs|, i requires 0 <= i < |cs| => RewriteImages(images, cs[i])))
    case HElement(t, cn, src, cs) =>
      HElement(t, cn, ElementSrc(images, t, src), seq(|cs|, i requires 0 <= i < |cs| => RewriteImages(images, cs[i])))
  }

  /** The recursive `visit`: rewrite the node, then each child in order. */
  method Visit(images: seq<ImageStorage.StoredImage>, node: HNode) returns (r: HNode)
    ensures r == RewriteImages(images, node)
    decreases node
  {
    if node.HLeaf? {
      return node;
    }
    var cs := node.children;
    var out: seq<HNode> := [];
    var i := 0;
    while i < |cs|
      invariant 0 <= i <= |cs|
      invariant out == seq(i, k requires 0 <= k < i => RewriteImages(images, cs[k]))
    {
      var c := Visit(images, cs[i]);
      out := out + [c];
      i := i + 1;
    }
    if node.HRoot? {
      r := HRoot(out);
    } else {
      var src := node.src;
      if node.tagName == "img" && src.Some? && src.value != "" && StartsWith(src.value, ImageStorage.LocalScheme) {
        var d := ImageStorage.ConvertImageUrl(images, src.value);
        if d != "" && d != src.value {
          src := Some(d);
        }
      }
      r := HElement(node.tagName, node.className, src, out);
    }
  }

  /** A source changes only from `local://` to the data URL of a stored image. */
  lemma NewSrcCases(images: seq<ImageStorage.StoredImage>, src: string)
    ensures !StartsWith(src, ImageStorage.LocalScheme) ==> NewSrc(images, src) == src
    ensures NewSrc(images, src) != src ==>
      StartsWith(src, ImageStorage.LocalScheme) &&
      ImageStorage.ImageDataUrl(images, Trim(src[|ImageStorage.LocalScheme|..])) ==
        Some(NewSrc(images, src))
    ensures StartsWith(NewSrc(images, src), "data:") || NewSrc(images, src) == src
  {
    ImageStorage.ConvertCases(images, src);
    if NewSrc(images, src) != src {
      ImageStorage.DataUrlStarts(images, Trim(src[|ImageStorage.LocalScheme|..]));
    }
  }

  /** A data URL is not a `local://` url, so a rewritten source is left alone the next time. */
  lemma NewSrcIdempotent(images: seq<ImageStorage.StoredImage>, src: string)
    ensures NewSrc(images, NewSrc(images, src)) == NewSrc(images, src)
  {
    NewSrcCases(images, src);
    var s := NewSrc(images, src);
    if s != src {
      assert s[0] == 'd';
      assert !StartsWith(s, ImageStorage.LocalScheme) by {
        assert ImageStorage.LocalScheme[0] == 'l';
      }
    }
  }

  /** Everything but `src`: the tree with every source erased. */
  function EraseSrc(n: HNode): HNode
    decreases n
  {
    match n
    case HLeaf(_, _) => n
    case HRoot(cs) => HRoot(seq(|cs|, i requires 0 <= i < |cs| => EraseSrc(cs[i])))
    case HElement(t, cn, _, cs) => HElement(t, cn, None, seq(|cs|, i requires 0 <= i < |cs| => EraseSrc(cs[i])))
  }

  /** The step touches image sources only: tags, classes, leaves and the shape are kept. */
  lemma {:induction false} RewriteOnlySrc(images: seq<ImageStorage.StoredImage>, n: HNode)
    ensures EraseSrc(RewriteImages(images, n)) == EraseSrc(n)
    decreases n
  {
    match n
    case HLeaf(_, _) =>
    case HRoot(cs) =>
      forall i | 0 <= i < |cs| { RewriteOnlySrc(images, cs[i]); }
    case HElement(t, cn, src, cs) =>
      forall i | 0 <= i < |cs| { RewriteOnlySrc(images, cs[i]); }
  }

  /** Running the step twice is running it once. */
  lemma {:induction false} RewriteIdempotent(images: seq<ImageStorage.StoredImage>, n: HNode)
    ensures RewriteImages(images, RewriteImages(images, n)) == RewriteImages(images, n)
    decreases n
  {
    match n
    case HLeaf(_, _) =>
    case HRoot(cs) =>
      forall i | 0 <= i < |cs| { RewriteIdempotent(images, cs[i]); }
    case HElement(t, cn, src, cs) =>
      forall i | 0 <= i < |cs| { RewriteIdempotent(images, cs[i]); }
      ElementSrcIdempotent(images, t, src);
  }

  lemma ElementSrcIdempotent(images: seq<ImageStorage.StoredImage>, t: string, src: Option<string>)
    ensures ElementSrc(images, t, ElementSrc(images, t, src)) == ElementSrc(images, t, src)
  {
    if t == "img" && src.Some? && src.value != "" {
      NewSrcIdempotent(images, src.value);
      NewSrcCases(images, src.value);
    }
  }

  /** Only `img` sources change, and each one that changes becomes a stored image's data URL. */
  lemma RewriteElement(images: seq<ImageStorage.StoredImage>, t: string, cn: ClassName, src: Option<string>, cs: seq<HNode>)
    ensures var r := RewriteImages(images, HElement(t, cn, src, cs));
      r.src != src ==>
        (t == "img" && src.Some? && StartsWith(src.value, ImageStorage.LocalScheme) && r.src.Some? &&
         ImageStorage.ImageDataUrl(images, Trim(src.value[|ImageStorage.LocalScheme|..])) == Some(r.src.value))
  {
    if t == "img" && src.Some? && src.value != "" {
      NewSrcCases(images, src.value);
    }
  }

  // ---------------------------------------------------------------------------
  // `insertImageToEditor`

  /** The file name, or `screenshot-<ts>.png` when it is empty. */
  function ImageName(fileName: string, now: nat): string {
    if fileName != "" then fileName else "screenshot-" + NatToString(now) + ".png"
  }

  /** The markdown inserted for a saved image: `![name](local://id)` and a line break. */
  function InsertedMarkdown(fileName: string, imageId: string, now: nat): string {
    "![" + ImageName(fileName, now) + "](local://" + imageId + ")\n"
  }

  datatype Cursor = Cursor(line: nat, ch: nat)

  /** Where the CodeMirror 5 path puts the cursor after inserting `text` at `c`. */
  function CursorAfter(c: Cursor, text: string): Cursor {
    var lines := Split(text, '\n');
    Cursor(c.line + |lines| - 1, |lines[|lines| - 1]|)
  }

  /**
    The whole insertion: nothing without an image id (the save failed),
    else the markdown and the cursor after it.
   */
  function InsertImage(imageId: Option<string>, fileName: string, now: nat, c: Cursor): Option<(string, Cursor)> {
    if imageId.None? || imageId.value == "" then None
    else
      var md := InsertedMarkdown(fileName, imageId.value, now);
      Some((md, CursorAfter(c, md)))
  }

  predicate NoNewline(s: string) {
    forall i :: 0 <= i < |s| ==> s[i] != '\n'
  }

  lemma NoNewlineConcat(a: string, b: string)
    requires NoNewline(a) && NoNewline(b)
    ensures NoNewline(a + b)
  {
    forall i | 0 <= i < |a + b| ensures (a + b)[i] != '\n' {
      if i >= |a| { assert (a + b)[i] == b[i - |a|]; }
    }
  }

  /** A line without a break, then one break: the cursor lands at the start of the next line. */
  lemma CursorAfterLine(c: Cursor, line: string)
    requires NoNewline(line)
    ensures CursorAfter(c, line + "\n") == Cursor(c.line + 1, 0)
  {
    var s := line + "\n";
    CountCharConcat(line, "\n", '\n');
    NoCharCount(line, '\n');
    assert CountChar("\n", '\n') == 1 by { assert "\n"[1..] == ""; }
    SplitCount(s, '\n');
    SplitLastEmpty(s, '\n');
  }

  lemma NameNoNewline(fileName: string, now: nat)
    requires NoNewline(fileName)
    ensures NoNewline(ImageName(fileName, now))
  {
    if fileName == "" {
      var d := NatToString(now);
      assert NoNewline(d);
      NoNewlineConcat("screenshot-", d);
      NoNewlineConcat("screenshot-" + d, ".png");
    }
  }

  /** For a name and id without line breaks, the cursor ends at the start of the line after the cursor's. */
  lemma InsertCursor(imageId: string, fileName: string, now: nat, c: Cursor)
    requires imageId != "" && NoNewline(imageId) && NoNewline(fileName)
    ensures InsertImage(Some(imageId), fileName, now, c) ==
      Some((InsertedMarkdown(fileName, imageId, now), Cursor(c.line + 1, 0)))
  {
    var name := ImageName(fileName, now);
    NameNoNewline(fileName, now);
    var line := "![" + name + "](local://" + imageId + ")";
    NoNewlineConcat("![", name);
    NoNewlineConcat("![" + name, "](local://");
    NoNewlineConcat("![" + name + "](local://", imageId);
    NoNewlineConcat("![" + name + "](local://" + imageId, ")");
    assert InsertedMarkdown(fileName, imageId, now) == line + "\n";
    CursorAfterLine(c, line);
  }

  /** Without an image id nothing is inserted. */
  lemma NoIdNoInsert(fileName: string, now: nat, c: Cursor)
    ensures InsertImage(None, fileName, now, c).None?
    ensures InsertImage(Some(""), fileName, now, c).None?
  {
  }

  /** The inserted markdown is the reference the image scanner reads back: its one id is the saved image's. */
  lemma InsertedIdExtracted(fileName: string, imageId: string, now: nat)
    requires NoLineTerminator(fileName) && (forall i :: 0 <= i < |fileName| ==> fileName[i] != ']')
    requires NoLineTerminator(imageId) && ImageStorage.IdChars(imageId)
    ensures ImageStorage.ExtractImageIds(InsertedMarkdown(fileName, imageId, now)) == [imageId]
  {
    var name := ImageName(fileName, now);
    if fileName == "" {
      NameChars(now);
    }
    assert InsertedMarkdown(fileName, imageId, now) == ImageStorage.ImageLink(name, imageId) + "\n";
    ImageStorage.ExtractLink(name, imageId, "\n");
    ImageStorage.ExtractPlain("\n", "");
    assert "\n" + "" == "\n";
    assert ImageStorage.ExtractImageIds("") == [];
  }

  /** The fallback name holds no `]` and no line break. */
  lemma NameChars(now: nat)
    ensures var name := ImageName("", now);
      NoLineTerminator(name) && forall i :: 0 <= i < |name| ==> name[i] != ']'
  {
    var d := NatToString(now);
    var name := "screenshot-" + d + ".png";
    forall i | 0 <= i < |name| ensures !IsLineTerminator(name[i]) && name[i] != ']' {
      if 11 <= i < 11 + |d| { assert name[i] == d[i - 11]; }
      else if i >= 11 + |d| { assert name[i] == ".png"[i - 11 - |d|]; }
    }
  }
}
