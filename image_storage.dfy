/**
  The local image store (`imageStorage.ts`): pasted images kept as base64
  records under one storage key, with a per-image cap of 2 MB and a total cap
  of 10 MB; `local://<id>` references in the markdown and their resolution
  to `data:` URLs. The record list is the `images` field of an `ImageStore`.
  The generated id (`Date.now()` and `Math.random()`), the clock and the
  base64 text the file reader produces are parameters.
 */
module ImageStorage {
  import opened Wrappers
  import opened Strings
  import opened Lists

  datatype StoredImage = StoredImage(id: string, name: string, data: string, size: nat, kind: string, createdAt: int)

  /** What `saveImage` reads from the `File`. */
  datatype ImageFile = ImageFile(name: string, size: nat, kind: string)

  const MaxImageSize: nat := 2 * 1024 * 1024
  const MaxTotalSize: nat := 10 * 1024 * 1024

  function SizeOf(img: StoredImage): nat { img.size }
  function IdIs(id: string): StoredImage -> bool { (img: StoredImage) => img.id == id }
  function IdIsNot(id: string): StoredImage -> bool { (img: StoredImage) => img.id != id }

  /** `getTotalSize()`. */
  function TotalSize(images: seq<StoredImage>): nat {
    Sum(images, SizeOf)
  }

  /** The record `saveImage` stores: the type defaults to `image/png`, the name to one built from the id. */
  function NewRecord(file: ImageFile, data: string, id: string, now: int): StoredImage {
    StoredImage(id, if file.name != "" then file.name else "image-" + id + ".png", data, file.size,
                if file.kind != "" then file.kind else "image/png", now)
  }

  /**
    `saveImage(file)`: an error for a file over 2 MB, for a total that would
    pass 10 MB, or when the file could not be read (`data` is `None`);
    otherwise the new id and the list with the record appended.
   */
  function SaveSpec(images: seq<StoredImage>, file: ImageFile, data: Option<string>, id: string, now: int)
    : Result<(string, seq<StoredImage>), string>
  {
    if file.size > MaxImageSize then Err("图片大小不能超过 2MB")
    else if TotalSize(images) + file.size > MaxTotalSize then Err("总存储空间不足，请先删除一些图片")
    else if data.None? || data.value == "" then Err("无法读取文件内容")
    else Ok((id, images + [NewRecord(file, data.value, id, now)]))
  }

  /** `getImageDataUrl(id)`: the data URL of the first record with the id. */
  function ImageDataUrl(images: seq<StoredImage>, id: string): Option<string> {
    match Find(images, IdIs(id))
    case Some(img) => Some("data:" + img.kind + ";base64," + img.data)
    case None => None
  }

  /** `deleteImage(id)`: every record with the id is removed; the call reports success. */
  function DeleteSpec(images: seq<StoredImage>, id: string): seq<StoredImage> {
    Filter(images, IdIsNot(id))
  }

  const LocalScheme: string := "local://"

  /**
    `convertImageUrl(url)`: a `local://` url with a non-blank id that is
    stored becomes that image's data URL; every other url is returned as it is.
   */
  function ConvertImageUrl(images: seq<StoredImage>, url: string): string {
    if url != "" && StartsWith(url, LocalScheme) then
      var id := Trim(url[|LocalScheme|..]);
      if id == "" then url
      else match ImageDataUrl(images, id)
        case Some(dataUrl) => dataUrl
        case None => url
    else url
  }

  /** A save fails exactly on the caps and an unreadable file; otherwise it appends one record and keeps the total within 10 MB. */
  lemma SaveCases(images: seq<StoredImage>, file: ImageFile, data: Option<string>, id: string, now: int)
    ensures SaveSpec(images, file, data, id, now).Err? <==>
      file.size > MaxImageSize || TotalSize(images) + file.size > MaxTotalSize || data.None? || data.value == ""
    ensures SaveSpec(images, file, data, id, now).Ok? ==>
      var (rid, r) := SaveSpec(images, file, data, id, now).value;
      rid == id && |r| == |images| + 1 && r[..|images|] == images &&
      r[|images|].id == id && r[|images|].size == file.size && r[|images|].data == data.value &&
      (file.kind == "" ==> r[|images|].kind == "image/png") &&
      TotalSize(r) == TotalSize(images) + file.size && TotalSize(r) <= MaxTotalSize
  {
    if SaveSpec(images, file, data, id, now).Ok? {
      var r := SaveSpec(images, file, data, id, now).value.1;
      SumAppend(images, NewRecord(file, data.value, id, now), SizeOf);
      assert r[..|images|] == images;
    }
  }

  /** Deleting removes every record with the id, keeps the rest and never raises the total. */
  lemma DeleteCases(images: seq<StoredImage>, id: string)
    ensures forall k :: 0 <= k < |DeleteSpec(images, id)| ==> DeleteSpec(images, id)[k].id != id
    ensures forall k :: 0 <= k < |images| && images[k].id != id ==> images[k] in DeleteSpec(images, id)
    ensures TotalSize(DeleteSpec(images, id)) <= TotalSize(images)
  {
    forall k | 0 <= k < |images| && images[k].id != id ensures images[k] in DeleteSpec(images, id) {
      FilterKeeps(images, IdIsNot(id), k);
    }
    SumFilter(images, IdIsNot(id), SizeOf);
  }

  /** The data URL exists exactly when a record has the id, and is built from the first such record. */
  lemma DataUrlIs(images: seq<StoredImage>, id: string)
    ensures ImageDataUrl(images, id).None? <==> forall k :: 0 <= k < |images| ==> images[k].id != id
    ensures ImageDataUrl(images, id).Some? ==>
      exists k :: 0 <= k < |images| && images[k].id == id &&
        ImageDataUrl(images, id).value == "data:" + images[k].kind + ";base64," + images[k].data
  {
    if ImageDataUrl(images, id).Some? {
      var k := FindIndex(images, IdIs(id)).value;
      assert images[k].id == id;
    }
  }

  /** Every data URL starts with `data:`. */
  lemma DataUrlStarts(images: seq<StoredImage>, id: string)
    ensures ImageDataUrl(images, id).Some? ==> StartsWith(ImageDataUrl(images, id).value, "data:")
  {
    match Find(images, IdIs(id)) {
      case Some(img) =>
        var d, k, m := "data:", img.kind, ";base64,";
        assert d + k + m + img.data == d + (k + m + img.data);
        PrefixParts(d, k + m + img.data);
      case None =>
    }
  }

  /** A url is rewritten only from `local://` to the data URL of a stored image; every other url comes back unchanged. */
  lemma ConvertCases(images: seq<StoredImage>, url: string)
    ensures !StartsWith(url, LocalScheme) ==> ConvertImageUrl(images, url) == url
    ensures StartsWith(url, LocalScheme) && Trim(url[|LocalScheme|..]) == "" ==> ConvertImageUrl(images, url) == url
    ensures ConvertImageUrl(images, url) != url ==>
      StartsWith(url, LocalScheme) && ImageDataUrl(images, Trim(url[|LocalScheme|..])).Some? &&
      ConvertImageUrl(images, url) == ImageDataUrl(images, Trim(url[|LocalScheme|..])).value
  {
  }

  /** A stored image's reference resolves to its data URL. */
  lemma ConvertStored(images: seq<StoredImage>, k: nat)
    requires k < |images| && images[k].id != "" && Trim(images[k].id) == images[k].id
    requires forall j :: 0 <= j < k ==> images[j].id != images[k].id
    ensures ConvertImageUrl(images, LocalScheme + images[k].id) ==
      "data:" + images[k].kind + ";base64," + images[k].data
  {
    var id := images[k].id;
    PrefixParts(LocalScheme, id);
    FirstDataUrl(images, k);
    ConvertIdOf(images, LocalScheme + id, id);
  }

  /** The first record with an id supplies that id's data URL. */
  lemma FirstDataUrl(images: seq<StoredImage>, k: nat)
    requires k < |images|
    requires forall j :: 0 <= j < k ==> images[j].id != images[k].id
    ensures ImageDataUrl(images, images[k].id) == Some("data:" + images[k].kind + ";base64," + images[k].data)
  {
    assert FindIndex(images, IdIs(images[k].id)) == Some(k);
  }

  /** A `local://` url whose remainder is a trimmed, non-blank id converts as that id. */
  lemma ConvertIdOf(images: seq<StoredImage>, url: string, id: string)
    requires StartsWith(url, LocalScheme) && url[|LocalScheme|..] == id
    requires id != "" && Trim(id) == id && ImageDataUrl(images, id).Some?
    ensures ConvertImageUrl(images, url) == ImageDataUrl(images, id).value
  {
  }

  // ---------------------------------------------------------------------------
  // `extractImageId`: the matches of /!\[.*?\]\(local:\/\/([^)]+)\)/g in order

  /** An id the pattern captures: `[^)]+`. */
  predicate IdChars(id: string) {
    id != [] && forall i :: 0 <= i < |id| ==> id[i] != ')'
  }

  const LinkMiddle: string := "](local://"

  /** A match found `n` characters further on: its end moves by `n`, its capture stays. */
  function Shift(m: Option<(nat, string)>, n: nat): (r: Option<(nat, string)>)
    ensures r.Some? <==> m.Some?
    ensures r.Some? ==> r.value.0 == m.value.0 + n && r.value.1 == m.value.1
  {
    match m
    case Some((e, id)) => Some((e + n, id))
    case None => None
  }

  /** `\]\(local:\/\/([^)]+)\)` at the start of `t`: the length matched and the captured id. */
  function LinkTail(t: string): (r: Option<(nat, string)>)
    ensures r.Some? ==> r.value.0 <= |t| && IdChars(r.value.1)
  {
    if |t| >= |LinkMiddle| && t[..|LinkMiddle|] == LinkMiddle then
      var u := t[|LinkMiddle|..];
      var n := IndexOfChar(u, ')');
      if 0 < n < |u| then Some((|LinkMiddle| + n + 1, u[..n])) else None
    else None
  }

  /** The lazy `.*?` before the tail: the shortest line-terminator-free stretch after which the tail matches. */
  function LazyTail(t: string): (r: Option<(nat, string)>)
    ensures r.Some? ==> r.value.0 <= |t| && IdChars(r.value.1)
    decreases |t|
  {
    match LinkTail(t)
    case Some(m) => Some(m)
    case None =>
      if t != [] && !IsLineTerminator(t[0]) then
        Shift(LazyTail(t[1..]), 1)
      else None
  }

  /** The whole pattern at the start of `t`. */
  function LinkAt(t: string): (r: Option<(nat, string)>)
    ensures r.Some? ==> 0 < r.value.0 <= |t| && IdChars(r.value.1)
  {
    if |t| >= 2 && t[0] == '!' && t[1] == '[' then
      Shift(LazyTail(t[2..]), 2)
    else None
  }

  /** `regex.exec` from the start of `t`: the end of the leftmost match and its id. */
  function NextLink(t: string): (r: Option<(nat, string)>)
    ensures r.Some? ==> 0 < r.value.0 <= |t| && IdChars(r.value.1)
    decreases |t|
  {
    if t == [] then None
    else match LinkAt(t)
      case Some(m) => Some(m)
      case None =>
        Shift(NextLink(t[1..]), 1)
  }

  /** The ids of every match, each search starting where the previous match ended. */
  function ExtractImageIds(t: string): seq<string>
    decreases |t|
  {
    match NextLink(t)
    case Some((e, id)) => [id] + ExtractImageIds(t[e..])
    case None => []
  }

  /** Every extracted id is what `[^)]+` captures: non-empty and free of `)`. */
  lemma {:induction false} ExtractedIds(t: string)
    ensures forall i :: 0 <= i < |ExtractImageIds(t)| ==> IdChars(ExtractImageIds(t)[i])
    decreases |t|
  {
    match NextLink(t)
    case Some((e, id)) =>
      ExtractedIds(t[e..]);
    case None =>
  }

  /** `extractImageId` as the source writes it: a loop calling `exec` until it fails, pushing each capture. */
  method ExtractImageIdsLoop(markdown: string) returns (ids: seq<string>)
    ensures ids == ExtractImageIds(markdown)
  {
    ids := [];
    var pos := 0;
    ghost var total := ExtractImageIds(markdown);
    assert markdown[0..] == markdown;
    EmptyPrefix(total);
    while true
      invariant 0 <= pos <= |markdown|
      invariant total == ids + ExtractImageIds(markdown[pos..])
      decreases |markdown| - pos
    {
      var m := NextLink(markdown[pos..]);
      if m.None? {
        ExtractNone(markdown[pos..]);
        assert ids + [] == ids;
        break;
      }
      var e := m.value.0;
      ExtractAt(markdown[pos..], e, m.value.1);
      SliceOfSlice(markdown, pos, e);
      ghost var before, found := ids, ExtractImageIds(markdown[pos..]);
      ids := ids + [m.value.1];
      pos := pos + e;
      Snoc(total, before, found, m.value.1, ids, ExtractImageIds(markdown[pos..]));
    }
  }

  /** An `exec` that fails ends the ids. */
  lemma ExtractNone(u: string)
    requires NextLink(u).None?
    ensures ExtractImageIds(u) == []
  {
  }

  /** An `exec` that succeeds gives its capture, then the ids from where it ended. */
  lemma ExtractAt(u: string, e: nat, id: string)
    requires NextLink(u) == Some((e, id))
    ensures e <= |u| && ExtractImageIds(u) == [id] + ExtractImageIds(u[e..])
  {
  }

  lemma EmptyPrefix(ids: seq<string>)
    ensures ids == [] + ids
  {
  }

  lemma SliceOfSlice(t: string, pos: nat, e: nat)
    requires pos + e <= |t|
    ensures t[pos..][e..] == t[pos + e..]
  {
  }

  lemma Snoc(total: seq<string>, ids: seq<string>, a: seq<string>, x: string, ids': seq<string>, r: seq<string>)
    requires total == ids + a && a == [x] + r && ids' == ids + [x]
    ensures total == ids' + r
  {
  }

  /** The markdown an image reference is written as: `![alt](local://id)`. */
  function ImageLink(alt: string, id: string): string {
    ['!', '['] + alt + LinkMiddle + id + [')']
  }

  lemma LinkTailOf(id: string, rest: string)
    requires IdChars(id)
    ensures LinkTail(LinkMiddle + id + [')'] + rest) == Some((|LinkMiddle| + |id| + 1, id))
  {
    var t := LinkMiddle + id + [')'] + rest;
    assert t[..|LinkMiddle|] == LinkMiddle;
    var u := t[|LinkMiddle|..];
    assert u == id + [')'] + rest;
    assert u[|id|] == ')';
    assert IndexOfChar(u, ')') == |id| by {
      assert forall i :: 0 <= i < |id| ==> u[i] == id[i];
    }
    assert u[..|id|] == id;
  }

  /** An alt text with no `]` and no line break is skipped by the lazy search. */
  lemma {:induction false} LazySkipsAlt(alt: string, x: string)
    requires NoLineTerminator(alt) && forall i :: 0 <= i < |alt| ==> alt[i] != ']'
    ensures LazyTail(alt + x) == Shift(LazyTail(x), |alt|)
    decreases |alt|
  {
    if alt == [] {
      assert alt + x == x;
    } else {
      ConsSplit(alt, x);
      NotLinkTail(alt + x);
      LazyStep(alt + x);
      LazySkipsAlt(alt[1..], x);
      ShiftShift(LazyTail(x), |alt| - 1, 1);
    }
  }

  /** The tail starts with `]`, so no other first character starts it. */
  lemma NotLinkTail(t: string)
    requires t != [] && t[0] != ']'
    ensures LinkTail(t).None?
  {
    assert LinkMiddle[0] == ']';
    if |t| >= |LinkMiddle| { assert t[..|LinkMiddle|][0] != LinkMiddle[0]; }
  }

  /** Where the tail does not match, the lazy search takes one more character. */
  lemma LazyStep(t: string)
    requires t != [] && LinkTail(t).None? && !IsLineTerminator(t[0])
    ensures LazyTail(t) == Shift(LazyTail(t[1..]), 1)
  {
  }

  lemma ShiftShift(m: Option<(nat, string)>, a: nat, b: nat)
    ensures Shift(Shift(m, a), b) == Shift(m, a + b)
  {
  }

  /** A reference followed by more markdown yields its id, then the ids of the rest. */
  lemma ExtractLink(alt: string, id: string, rest: string)
    requires NoLineTerminator(alt) && (forall i :: 0 <= i < |alt| ==> alt[i] != ']') && IdChars(id)
    ensures ExtractImageIds(ImageLink(alt, id) + rest) == [id] + ExtractImageIds(rest)
  {
    var link := ImageLink(alt, id);
    var tail := LinkMiddle + id + [')'] + rest;
    LinkRegroup(['!', '['], alt, LinkMiddle, id, [')'], rest);
    LinkTailOf(id, rest);
    LinkAtAlt(alt, tail);
    PrefixParts(link, rest);
    NextLinkAt(link + rest);
  }

  /** Regrouping a reference followed by more text as its opening, its alt text and its tail. */
  lemma LinkRegroup(p: string, a: string, m: string, i: string, c: string, r: string)
    ensures p + a + m + i + c + r == p + a + (m + i + c + r)
  {
  }

  /** `![`, an alt text the lazy search skips, then a matching tail. */
  lemma LinkAtAlt(alt: string, tail: string)
    requires NoLineTerminator(alt) && (forall i :: 0 <= i < |alt| ==> alt[i] != ']') && LinkTail(tail).Some?
    ensures LinkAt(['!', '['] + alt + tail) == Some((LinkTail(tail).value.0 + |alt| + 2, LinkTail(tail).value.1))
  {
    var t := ['!', '['] + alt + tail;
    assert t[0] == '!' && t[1] == '[' && t[2..] == alt + tail;
    LinkAtOpen(t);
    LazySkipsAlt(alt, tail);
    assert LazyTail(tail) == LinkTail(tail);
    ShiftShift(LinkTail(tail), |alt|, 2);
  }

  lemma LinkAtOpen(t: string)
    requires |t| >= 2 && t[0] == '!' && t[1] == '['
    ensures LinkAt(t) == Shift(LazyTail(t[2..]), 2)
  {
  }

  /** A match at the start is the one `exec` finds, and extraction continues after it. */
  lemma NextLinkAt(t: string)
    requires LinkAt(t).Some?
    ensures ExtractImageIds(t) == [LinkAt(t).value.1] + ExtractImageIds(t[LinkAt(t).value.0..])
  {
  }

  /** Markdown without `!` before a reference contributes no id. */
  lemma {:induction false} NextLinkSkipsPlain(text: string, x: string)
    requires forall i :: 0 <= i < |text| ==> text[i] != '!'
    ensures NextLink(text + x) == Shift(NextLink(x), |text|)
    decreases |text|
  {
    if text == [] {
      assert text + x == x;
    } else {
      ConsSplit(text, x);
      assert LinkAt(text + x).None?;
      NextLinkSkipsPlain(text[1..], x);
      ShiftShift(NextLink(x), |text| - 1, 1);
    }
  }

  lemma ExtractPlain(text: string, rest: string)
    requires forall i :: 0 <= i < |text| ==> text[i] != '!'
    ensures ExtractImageIds(text + rest) == ExtractImageIds(rest)
  {
    NextLinkSkipsPlain(text, rest);
    if NextLink(rest).Some? {
      var e, id := NextLink(rest).value.0, NextLink(rest).value.1;
      DropPast(text, rest, e);
      ShiftedIds(text + rest, rest, e, |text|, id);
    } else {
      ExtractNone(text + rest);
      ExtractNone(rest);
    }
  }

  lemma DropPast(a: string, b: string, e: nat)
    requires e <= |b|
    ensures (a + b)[e + |a|..] == b[e..]
  {
  }

  /** A match that ends `n` characters further on in `u` than in `v`, with the same rest, gives the same ids. */
  lemma ShiftedIds(u: string, v: string, e: nat, n: nat, id: string)
    requires NextLink(u) == Some((e + n, id)) && NextLink(v) == Some((e, id))
    requires e + n <= |u| && e <= |v| && u[e + n..] == v[e..]
    ensures ExtractImageIds(u) == ExtractImageIds(v)
  {
    ExtractAt(u, e + n, id);
    ExtractAt(v, e, id);
    Cons(ExtractImageIds(u), id, ExtractImageIds(u[e + n..]), ExtractImageIds(v), ExtractImageIds(v[e..]));
  }

  lemma Cons(a: seq<string>, x: string, r: seq<string>, b: seq<string>, r': seq<string>)
    requires a == [x] + r && b == [x] + r' && r == r'
    ensures a == b
  {
  }

  /** The stored images, standing for the `wechat-images` storage key. */
  class ImageStore {
    var images: seq<StoredImage>

    constructor(initial: seq<StoredImage>)
      ensures images == initial
    {
      images := initial;
    }

    /** `saveImage`: the thrown errors are the `Err` results. */
    method Save(file: ImageFile, data: Option<string>, id: string, now: int) returns (r: Result<string, string>)
      modifies this
      ensures SaveSpec(old(images), file, data, id, now).Err? ==> r.Err? && images == old(images)
      ensures SaveSpec(old(images), file, data, id, now).Ok? ==>
        r == Ok(id) && images == SaveSpec(old(images), file, data, id, now).value.1
    {
      if file.size > MaxImageSize {
        return Err("图片大小不能超过 2MB");
      }
      if TotalSize(images) + file.size > MaxTotalSize {
        return Err("总存储空间不足，请先删除一些图片");
      }
      if data.None? || data.value == "" {
        return Err("无法读取文件内容");
      }
      images := images + [NewRecord(file, data.value, id, now)];
      r := Ok(id);
    }

    /** `deleteImage`. */
    method Delete(id: string) returns (ok: bool)
      modifies this
      ensures ok && images == DeleteSpec(old(images), id)
    {
      images := Filter(images, IdIsNot(id));
      ok := true;
    }

    /** `clearAllImages`. */
    method Clear() returns (ok: bool)
      modifies this
      ensures ok && images == []
    {
      images := [];
      ok := true;
    }
  }
}
