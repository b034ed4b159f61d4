/**
  The document store (`documentStorage.ts`): at most five documents under one
  storage key, plus a separate id of the current document. Both keys
  are fields of a `DocumentStore`; each operation reads the list, changes a
  copy and writes it back. `Date.now()` is the parameter `now`, one value per
  call.
 */
module DocumentStorage {
  import opened Wrappers
  import opened Strings
  import opened Lists

  datatype Document = Document(id: string, name: string, content: string,
                               selectedTemplateId: Option<string>, createdAt: int, updatedAt: int)

  const MaxDocuments: nat := 5

  function IdIs(id: string): Document -> bool { (d: Document) => d.id == id }
  function IdIsNot(id: string): Document -> bool { (d: Document) => d.id != id }

  /** `setCurrentDocumentId(id)`: an empty or missing id removes the current id. */
  function CurrentFor(id: Option<string>): (r: Option<string>)
    ensures r.Some? <==> id.Some? && id.value != ""
    ensures r.Some? ==> r == id
  {
    if id.Some? && id.value != "" then id else None
  }

  /** `getCurrentDocument()`: nothing when the current id is unset or empty, else the first document with that id. */
  function CurrentDocument(ds: seq<Document>, current: Option<string>): Option<Document> {
    if current.None? || current.value == "" then None else Find(ds, IdIs(current.value))
  }

  /**
    `saveDocument(document)`: the document with a fresh `updatedAt` replaces
    the first one with its id, or is appended when its id is new and fewer
    than five are stored; `None` (the source's `false`) otherwise.
   */
  function SaveSpec(ds: seq<Document>, d: Document, now: int): Option<seq<Document>> {
    var updated := d.(updatedAt := now);
    match FindIndex(ds, IdIs(d.id))
    case Some(i) => Some(ds[i := updated])
    case None => if |ds| >= MaxDocuments then None else Some(ds + [updated])
  }

  /** The document `createDocument` builds: id from the clock, numbered default name, empty content, no template. */
  function NewDocument(count: nat, name: Option<string>, content: Option<string>, now: nat): Document {
    Document("doc-" + NatToString(now),
             if name.Some? && name.value != "" then name.value else "文档 " + NatToString(count + 1),
             if content.Some? then content.value else "",
             None, now, now)
  }

  /**
    `createDocument(name, content)`: an error at five documents; otherwise the
    new document, the list after saving it, and the current id set to it.
   */
  function CreateSpec(ds: seq<Document>, name: Option<string>, content: Option<string>, now: nat)
    : Result<(Document, seq<Document>, Option<string>), string>
  {
    if |ds| >= MaxDocuments then Err("最多只能保存 5 篇文档，请先删除现有文档")
    else
      var d := NewDocument(|ds|, name, content, now);
      Ok((d, SaveSpec(ds, d, now).GetOr(ds), CurrentFor(Some(d.id))))
  }

  /**
    `deleteDocument(id)`: `None` (the source's `false`, nothing written) when
    no document has the id; otherwise the list without it and the current id,
    moved to the first remaining document or cleared when it pointed at the
    deleted id.
   */
  function DeleteSpec(ds: seq<Document>, current: Option<string>, id: string): Option<(seq<Document>, Option<string>)> {
    var filtered := Filter(ds, IdIsNot(id));
    if |filtered| == |ds| then None
    else if current == Some(id) then
      Some((filtered, if |filtered| > 0 then CurrentFor(Some(filtered[0].id)) else CurrentFor(None)))
    else Some((filtered, current))
  }

  /** `updateDocumentName(id, name)`: the first document with the id gets the trimmed name and a fresh `updatedAt`. */
  function RenameSpec(ds: seq<Document>, id: string, name: string, now: int): Option<seq<Document>> {
    match FindIndex(ds, IdIs(id))
    case Some(i) => Some(ds[i := ds[i].(name := Trim(name), updatedAt := now)])
    case None => None
  }

  /** `canCreateDocument()`. */
  predicate CanCreate(ds: seq<Document>) {
    |ds| < MaxDocuments
  }

  predicate UniqueIds(ds: seq<Document>) {
    forall i, j :: 0 <= i < j < |ds| ==> ds[i].id != ds[j].id
  }

  /** The cap and distinct ids. */
  predicate Valid(ds: seq<Document>) {
    |ds| <= MaxDocuments && UniqueIds(ds)
  }

  /** The current id is unset or names a stored document. */
  predicate CurrentOk(ds: seq<Document>, current: Option<string>) {
    current.Some? ==> exists k :: 0 <= k < |ds| && ds[k].id == current.value
  }

  /** Saving replaces an existing id in place, appends a new one below the cap, and refuses a new one at the cap. */
  lemma SaveCases(ds: seq<Document>, d: Document, now: int)
    ensures SaveSpec(ds, d, now).None? <==> (forall k :: 0 <= k < |ds| ==> ds[k].id != d.id) && |ds| >= MaxDocuments
    ensures (exists k :: 0 <= k < |ds| && ds[k].id == d.id) ==>
      var i := FindIndex(ds, IdIs(d.id)).value;
      SaveSpec(ds, d, now) == Some(ds[i := d.(updatedAt := now)]) && ds[i].id == d.id
    ensures (forall k :: 0 <= k < |ds| ==> ds[k].id != d.id) && |ds| < MaxDocuments ==>
      SaveSpec(ds, d, now) == Some(ds + [d.(updatedAt := now)])
  {
  }

  /** Saving keeps the cap and the distinct ids. */
  lemma SavePreservesValid(ds: seq<Document>, d: Document, now: int)
    requires Valid(ds) && SaveSpec(ds, d, now).Some?
    ensures Valid(SaveSpec(ds, d, now).value)
  {
  }

  /** Creating fails exactly when no more documents may be created; otherwise the new document is current and stored. */
  lemma CreateCases(ds: seq<Document>, name: Option<string>, content: Option<string>, now: nat)
    ensures CreateSpec(ds, name, content, now).Err? <==> !CanCreate(ds)
    ensures CreateSpec(ds, name, content, now).Ok? ==>
      var (d, ds', cur) := CreateSpec(ds, name, content, now).value;
      d.content == content.GetOr("") && d.selectedTemplateId.None? &&
      d.id == "doc-" + NatToString(now) &&
      (name.Some? && name.value != "" ==> d.name == name.value) &&
      (name.None? || name.value == "" ==> d.name == "文档 " + NatToString(|ds| + 1)) &&
      cur == Some(d.id) && d.(updatedAt := now) in ds' && |ds'| <= MaxDocuments &&
      CurrentOk(ds', cur)
  {
    if CanCreate(ds) {
      var d := NewDocument(|ds|, name, content, now);
      assert d.id[..4] == "doc-";
      var ds' := SaveSpec(ds, d, now).value;
      var k := match FindIndex(ds, IdIs(d.id)) case Some(i) => i case None => |ds|;
      assert ds'[k] == d.(updatedAt := now) && ds'[k].id == d.id;
    }
  }

  /** Deleting an absent id changes nothing; deleting a present one removes every copy and keeps the rest. */
  lemma DeleteCases(ds: seq<Document>, current: Option<string>, id: string)
    ensures DeleteSpec(ds, current, id).None? <==> forall k :: 0 <= k < |ds| ==> ds[k].id != id
    ensures DeleteSpec(ds, current, id).Some? ==>
      var (ds', _) := DeleteSpec(ds, current, id).value;
      (forall k :: 0 <= k < |ds'| ==> ds'[k].id != id) &&
      (forall k :: 0 <= k < |ds| && ds[k].id != id ==> ds[k] in ds')
  {
    FilterSameLength(ds, IdIsNot(id));
    forall k | 0 <= k < |ds| && ds[k].id != id ensures ds[k] in Filter(ds, IdIsNot(id)) {
      FilterKeeps(ds, IdIsNot(id), k);
    }
  }

  /** Deleting the current document moves the current id to the first remaining one or clears it; any other deletion leaves it. */
  lemma DeleteMovesCurrent(ds: seq<Document>, current: Option<string>, id: string)
    requires DeleteSpec(ds, current, id).Some?
    ensures var (ds', cur) := DeleteSpec(ds, current, id).value;
      (current != Some(id) ==> cur == current) &&
      (current == Some(id) && ds' == [] ==> cur.None?) &&
      (current == Some(id) && ds' != [] && ds'[0].id != "" ==> cur == Some(ds'[0].id))
  {
  }

  /** Deleting keeps the invariant and a current id that named a stored document still does. */
  lemma DeletePreservesValid(ds: seq<Document>, current: Option<string>, id: string)
    requires Valid(ds) && CurrentOk(ds, current) && DeleteSpec(ds, current, id).Some?
    ensures var (ds', cur) := DeleteSpec(ds, current, id).value;
      Valid(ds') && CurrentOk(ds', cur)
  {
    var (ds', cur) := DeleteSpec(ds, current, id).value;
    FilterUnique(ds, IdIsNot(id));
    if current.Some? && current != Some(id) {
      var k :| 0 <= k < |ds| && ds[k].id == current.value;
      FilterKeeps(ds, IdIsNot(id), k);
      var j :| 0 <= j < |ds'| && ds'[j] == ds[k];
    }
  }

  lemma {:induction false} FilterUnique(ds: seq<Document>, p: Document -> bool)
    requires UniqueIds(ds)
    ensures UniqueIds(Filter(ds, p))
  {
    if ds != [] {
      assert UniqueIds(ds[1..]) by {
        assert forall k :: 1 <= k < |ds| ==> ds[k] == ds[1..][k - 1];
      }
      FilterUnique(ds[1..], p);
      if p(ds[0]) {
        var rest := Filter(ds[1..], p);
        forall j | 0 <= j < |rest| ensures rest[j].id != ds[0].id {
          FilterFrom(ds[1..], p, j);
        }
        assert Filter(ds, p) == [ds[0]] + rest;
      }
    }
  }

  /** Renaming fails for an unknown id; otherwise only the first document with the id changes, and only its name and time. */
  lemma RenameCases(ds: seq<Document>, id: string, name: string, now: int)
    ensures RenameSpec(ds, id, name, now).None? <==> forall k :: 0 <= k < |ds| ==> ds[k].id != id
    ensures RenameSpec(ds, id, name, now).Some? ==>
      var r := RenameSpec(ds, id, name, now).value;
      var i := FindIndex(ds, IdIs(id)).value;
      |r| == |ds| && r[i].id == id && r[i].name == Trim(name) && r[i].content == ds[i].content &&
      forall k :: 0 <= k < |ds| && k != i ==> r[k] == ds[k]
  {
  }

  /** The current document is missing exactly when the current id is unset, empty or dangling; otherwise it carries that id. */
  lemma CurrentDocumentIs(ds: seq<Document>, current: Option<string>)
    ensures CurrentDocument(ds, current).None? <==>
      current.None? || current.value == "" || forall k :: 0 <= k < |ds| ==> ds[k].id != current.value
    ensures CurrentDocument(ds, current).Some? ==> CurrentDocument(ds, current).value.id == current.value
  {
  }

  /** The stored documents and the current-document id, standing for the two storage keys. */
  class DocumentStore {
    var documents: seq<Document>
    var current: Option<string>

    constructor(initial: seq<Document>, cur0: Option<string>)
      ensures documents == initial && current == cur0
    {
      documents := initial;
      current := cur0;
    }

    /** `saveDocument`. */
    method Save(d: Document, now: int) returns (ok: bool)
      modifies this
      ensures ok == SaveSpec(old(documents), d, now).Some?
      ensures documents == SaveSpec(old(documents), d, now).GetOr(old(documents)) && current == old(current)
    {
      var ds := documents;
      var updated := d.(updatedAt := now);
      var idx := FindIndex(ds, IdIs(d.id));
      if idx.Some? {
        ds := ds[idx.value := updated];
      } else {
        if |ds| >= MaxDocuments {
          return false;
        }
        ds := ds + [updated];
      }
      documents := ds;
      ok := true;
    }

    /** `setCurrentDocumentId`. */
    method SetCurrent(id: Option<string>)
      modifies this
      ensures current == CurrentFor(id) && documents == old(documents)
    {
      if id.Some? && id.value != "" {
        current := id;
      } else {
        current := None;
      }
    }

    /** `createDocument`: the thrown error is the `Err` result. */
    method Create(name: Option<string>, content: Option<string>, now: nat) returns (r: Result<Document, string>)
      modifies this
      ensures CreateSpec(old(documents), name, content, now).Err? ==>
        r.Err? && documents == old(documents) && current == old(current)
      ensures CreateSpec(old(documents), name, content, now).Ok? ==>
        var (d, ds', cur) := CreateSpec(old(documents), name, content, now).value;
        r == Ok(d) && documents == ds' && current == cur
    {
      if |documents| >= MaxDocuments {
        return Err("最多只能保存 5 篇文档，请先删除现有文档");
      }
      var d := NewDocument(|documents|, name, content, now);
      var _ := Save(d, now);
      SetCurrent(Some(d.id));
      r := Ok(d);
    }

    /** `deleteDocument`. */
    method Delete(id: string) returns (ok: bool)
      modifies this
      ensures ok == DeleteSpec(old(documents), old(current), id).Some?
      ensures ok ==> (documents, current) == DeleteSpec(old(documents), old(current), id).value
      ensures !ok ==> documents == old(documents) && current == old(current)
    {
      var filtered := Filter(documents, IdIsNot(id));
      if |filtered| == |documents| {
        return false;
      }
      var cur0 := current;
      documents := filtered;
      if cur0 == Some(id) {
        if |filtered| > 0 {
          SetCurrent(Some(filtered[0].id));
        } else {
          SetCurrent(None);
        }
      }
      ok := true;
    }

    /** `updateDocumentName`. */
    method UpdateName(id: string, name: string, now: int) returns (ok: bool)
      modifies this
      ensures ok == RenameSpec(old(documents), id, name, now).Some?
      ensures documents == RenameSpec(old(documents), id, name, now).GetOr(old(documents)) && current == old(current)
    {
      var idx := FindIndex(documents, IdIs(id));
      if idx.None? {
        return false;
      }
      var i := idx.value;
      documents := documents[i := documents[i].(name := Trim(name), updatedAt := now)];
      ok := true;
    }
  }
}
