/** The issued-drawings list of an IssueSheet: a list keyed by drawing when
    adding (a repeated drawing adds to its entry's copies) and keyed by the
    entry's own `_id` when removing (the entry is spliced out). */
module IssuedDrawings {
  import opened Documents
  import opened IssueSheetSchema

  /** `findIndex(d => d.drawing.toString() === drawing)`: the first entry for
      `drawing`, or -1 when there is none. */
  function DrawingIndex(entries: seq<IssuedDrawing>, drawing: Id): (i: int)
    ensures -1 <= i < |entries|
    ensures i == -1 <==> forall j :: 0 <= j < |entries| ==> entries[j].drawing != drawing
    ensures 0 <= i ==> entries[i].drawing == drawing
    ensures 0 <= i ==> forall j :: 0 <= j < i ==> entries[j].drawing != drawing
  {
    if entries == [] then -1
    else if entries[0].drawing == drawing then 0
    else
      var k := DrawingIndex(entries[1..], drawing);
      if k == -1 then -1 else k + 1
  }

  /** The first entry whose own identifier is `entryId`, or -1. */
  function EntryIndex(entries: seq<IssuedDrawing>, entryId: Id): (i: int)
    ensures -1 <= i < |entries|
    ensures i == -1 <==> forall j :: 0 <= j < |entries| ==> entries[j].id != entryId
    ensures 0 <= i ==> entries[i].id == entryId
    ensures 0 <= i ==> forall j :: 0 <= j < i ==> entries[j].id != entryId
  {
    if entries == [] then -1
    else if entries[0].id == entryId then 0
    else
      var k := EntryIndex(entries[1..], entryId);
      if k == -1 then -1 else k + 1
  }

  /** The linear search the add handler runs over the entries. */
  method FindDrawingIndex(entries: seq<IssuedDrawing>, drawing: Id) returns (i: int)
    ensures i == DrawingIndex(entries, drawing)
  {
    i := 0;
    while i < |entries| && entries[i].drawing != drawing
      invariant 0 <= i <= |entries|
      invariant forall j :: 0 <= j < i ==> entries[j].drawing != drawing
    {
      i := i + 1;
    }
    if i == |entries| {
      i := -1;
    }
  }

  /** The linear search the remove handler runs over the entries, matching
      each entry's own identifier. */
  method FindEntryIndex(entries: seq<IssuedDrawing>, entryId: Id) returns (i: int)
    ensures i == EntryIndex(entries, entryId)
  {
    i := 0;
    while i < |entries| && entries[i].id != entryId
      invariant 0 <= i <= |entries|
      invariant forall j :: 0 <= j < i ==> entries[j].id != entryId
    {
      i := i + 1;
    }
    if i == |entries| {
      i := -1;
    }
  }

  /** The list after adding `copies` of `drawing`: the first entry for that
      drawing gets the copies added; with no such entry a new one, carrying
      the fresh sub-document identifier `freshId`, is appended. */
  function AddIssued(entries: seq<IssuedDrawing>, drawing: Id, copies: int, freshId: Id): (r: seq<IssuedDrawing>)
    ensures |entries| <= |r| <= |entries| + 1
    ensures forall k :: 0 <= k < |entries| ==> r[k].id == entries[k].id && r[k].drawing == entries[k].drawing
  {
    var i := DrawingIndex(entries, drawing);
    if i == -1 then entries + [IssuedDrawing(freshId, drawing, copies)]
    else entries[i := entries[i].(copies := entries[i].copies + copies)]
  }

  /** Adding a drawing that is already listed changes only the copies of its
      first entry; the length and every other entry stay as they were. */
  lemma AddIssuedExisting(entries: seq<IssuedDrawing>, drawing: Id, copies: int, freshId: Id, k: int)
    requires 0 <= k < |entries| && entries[k].drawing == drawing
    ensures var r := AddIssued(entries, drawing, copies, freshId);
            var i := DrawingIndex(entries, drawing);
            && 0 <= i <= k
            && |r| == |entries|
            && r[i] == IssuedDrawing(entries[i].id, drawing, entries[i].copies + copies)
            && (forall j :: 0 <= j < |r| && j != i ==> r[j] == entries[j])
  {
  }

  /** Adding a drawing that is not listed appends one entry at the end and
      leaves every earlier entry unchanged. */
  lemma AddIssuedNew(entries: seq<IssuedDrawing>, drawing: Id, copies: int, freshId: Id)
    requires forall j :: 0 <= j < |entries| ==> entries[j].drawing != drawing
    ensures AddIssued(entries, drawing, copies, freshId) == entries + [IssuedDrawing(freshId, drawing, copies)]
  {
  }

  /** No drawing has two entries. */
  ghost predicate DrawingsUnique(entries: seq<IssuedDrawing>) {
    forall j, k :: 0 <= j < k < |entries| ==> entries[j].drawing != entries[k].drawing
  }

  /** Adding keeps the list keyed by drawing, and afterwards the drawing has an entry. */
  lemma AddIssuedKeepsUnique(entries: seq<IssuedDrawing>, drawing: Id, copies: int, freshId: Id)
    requires DrawingsUnique(entries)
    ensures DrawingsUnique(AddIssued(entries, drawing, copies, freshId))
    ensures DrawingIndex(AddIssued(entries, drawing, copies, freshId), drawing) != -1
  {
    var r := AddIssued(entries, drawing, copies, freshId);
    var i := DrawingIndex(entries, drawing);
    if i == -1 {
      assert r[|entries|].drawing == drawing;
    } else {
      assert r[i].drawing == drawing;
    }
  }

  /** The number of copies over all entries. */
  function TotalCopies(entries: seq<IssuedDrawing>): int {
    if entries == [] then 0 else entries[0].copies + TotalCopies(entries[1..])
  }

  lemma {:induction false} TotalCopiesAppend(a: seq<IssuedDrawing>, b: seq<IssuedDrawing>)
    ensures TotalCopies(a + b) == TotalCopies(a) + TotalCopies(b)
  {
    if a != [] {
      assert (a + b)[1..] == a[1..] + b;
      TotalCopiesAppend(a[1..], b);
    } else {
      assert a + b == b;
    }
  }

  lemma {:induction false} TotalCopiesUpdate(s: seq<IssuedDrawing>, i: nat, e: IssuedDrawing)
    requires i < |s|
    ensures TotalCopies(s[i := e]) == TotalCopies(s) - s[i].copies + e.copies
  {
    if i > 0 {
      assert s[i := e][1..] == s[1..][i - 1 := e];
      TotalCopiesUpdate(s[1..], i - 1, e);
    }
  }

  /** Adding grows the total number of copies by exactly `copies`. */
  lemma AddIssuedTotalCopies(entries: seq<IssuedDrawing>, drawing: Id, copies: int, freshId: Id)
    ensures TotalCopies(AddIssued(entries, drawing, copies, freshId)) == TotalCopies(entries) + copies
  {
    var i := DrawingIndex(entries, drawing);
    if i == -1 {
      TotalCopiesAppend(entries, [IssuedDrawing(freshId, drawing, copies)]);
    } else {
      TotalCopiesUpdate(entries, i, entries[i].(copies := entries[i].copies + copies));
    }
  }

  /** Adding one drawing twice, 2 copies then 3, leaves one entry with 5. */
  lemma AddSameDrawingTwice(drawing: Id, first: Id, second: Id)
    ensures AddIssued(AddIssued([], drawing, 2, first), drawing, 3, second) == [IssuedDrawing(first, drawing, 5)]
  {
    var once := AddIssued([], drawing, 2, first);
    assert once == [IssuedDrawing(first, drawing, 2)];
    assert DrawingIndex(once, drawing) == 0;
  }

  /** The list after removing the entry whose own identifier is `entryId`, or
      None when no entry has it. */
  function RemoveEntry(entries: seq<IssuedDrawing>, entryId: Id): (r: Option<seq<IssuedDrawing>>)
    ensures r.None? <==> forall j :: 0 <= j < |entries| ==> entries[j].id != entryId
    ensures r.Some? ==>
              var i := EntryIndex(entries, entryId);
              && |r.value| == |entries| - 1
              && entries[i].id == entryId
              && (forall j :: 0 <= j < i ==> r.value[j] == entries[j])
              && (forall j :: i <= j < |r.value| ==> r.value[j] == entries[j + 1])
              && multiset(r.value) + multiset{entries[i]} == multiset(entries)
  {
    var i := EntryIndex(entries, entryId);
    if i == -1 then None
    else
      CutOut(entries, i);
      Some(entries[..i] + entries[i + 1..])
  }

  /** Cutting out position `i` shifts the later elements down by one and
      loses exactly that element. */
  lemma CutOut(s: seq<IssuedDrawing>, i: int)
    requires 0 <= i < |s|
    ensures var r := s[..i] + s[i + 1..];
            && |r| == |s| - 1
            && (forall j :: 0 <= j < i ==> r[j] == s[j])
            && (forall j :: i <= j < |r| ==> r[j] == s[j + 1])
            && multiset(r) + multiset{s[i]} == multiset(s)
  {
    assert s == s[..i] + [s[i]] + s[i + 1..];
  }

  /** Entry identifiers are distinct (Mongoose gives each sub-document a fresh one). */
  ghost predicate EntryIdsUnique(entries: seq<IssuedDrawing>) {
    forall j, k :: 0 <= j < k < |entries| ==> entries[j].id != entries[k].id
  }

  /** With distinct entry identifiers, a removed identifier no longer occurs
      and the remaining identifiers stay distinct. */
  lemma RemoveEntryRemovesId(entries: seq<IssuedDrawing>, entryId: Id)
    requires EntryIdsUnique(entries)
    requires RemoveEntry(entries, entryId).Some?
    ensures var rest := RemoveEntry(entries, entryId).value;
            EntryIdsUnique(rest) && forall j :: 0 <= j < |rest| ==> rest[j].id != entryId
  {
    var rest := RemoveEntry(entries, entryId).value;
    var i := EntryIndex(entries, entryId);
    forall j | 0 <= j < |rest|
      ensures rest[j].id != entryId
    {
      if j >= i {
        assert rest[j] == entries[j + 1];
      }
    }
    forall j, k | 0 <= j < k < |rest|
      ensures rest[j].id != rest[k].id
    {
      var j' := if j < i then j else j + 1;
      var k' := if k < i then k else k + 1;
      assert rest[j] == entries[j'] && rest[k] == entries[k'];
    }
  }

  /** Adding keeps entry identifiers distinct when the identifier of a new
      entry is fresh, as the store's supply makes it for every stored sheet. */
  lemma AddIssuedKeepsEntryIdsUnique(entries: seq<IssuedDrawing>, drawing: Id, copies: int, freshId: Id)
    requires EntryIdsUnique(entries)
    requires EntryIdsBelow(entries, freshId)
    ensures EntryIdsUnique(AddIssued(entries, drawing, copies, freshId))
    ensures EntryIdsBelow(AddIssued(entries, drawing, copies, freshId), freshId + 1)
  {
    var r := AddIssued(entries, drawing, copies, freshId);
    var i := DrawingIndex(entries, drawing);
    if i == -1 {
      forall j, k | 0 <= j < k < |r|
        ensures r[j].id != r[k].id
      {
        if k == |entries| {
          assert r[j] == entries[j] && r[j] in entries;
        }
      }
    } else {
      assert forall j :: 0 <= j < |r| ==> r[j].id == entries[j].id;
      forall e | e in r
        ensures e.id < freshId + 1
      {
        var j :| 0 <= j < |r| && r[j] == e;
        assert entries[j] in entries;
      }
    }
  }

  // ---- The comparison at routes/IssueSheet.js line 329, as written ----

  /** The two kinds of value the comparison meets: an entry's `_id` is an
      ObjectId object, the route parameter `drawingId` a string. */
  datatype JsValue = JsObjectId(oid: Id) | JsString(text: string)

  /** JavaScript `===`: values of different types are never strictly equal,
      and an ObjectId object is never the same object as the parameter. */
  predicate StrictEquals(a: JsValue, b: JsValue) {
    a.JsString? && b.JsString? && a.text == b.text
  }

  function HexDigit(d: nat): char
    requires d < 16
  {
    "0123456789abcdef"[d]
  }

  /** The text form of an identifier, as a client would put it in the URL. */
  function IdText(id: Id): (s: string)
    ensures |s| > 0
  {
    if id < 16 then [HexDigit(id)] else IdText(id / 16) + [HexDigit(id % 16)]
  }

  /** `findIndex(d => d._id === drawingId)` exactly as written: it compares an
      ObjectId with a string. */
  function EntryIndexAsWritten(entries: seq<IssuedDrawing>, param: string): (i: int)
    ensures -1 <= i < |entries|
  {
    if entries == [] then -1
    else if StrictEquals(JsObjectId(entries[0].id), JsString(param)) then 0
    else
      var k := EntryIndexAsWritten(entries[1..], param);
      if k == -1 then -1 else k + 1
  }

  /** As written, the search never finds an entry, so the remove handler
      always answers NotFound. */
  lemma {:induction false} EntryIndexAsWrittenNeverMatches(entries: seq<IssuedDrawing>, param: string)
    ensures EntryIndexAsWritten(entries, param) == -1
  {
    if entries != [] {
      EntryIndexAsWrittenNeverMatches(entries[1..], param);
    }
  }

  /** A sheet holding one entry with identifier 7: a request naming that entry
      is refused as written, while the identifier match finds it. */
  lemma RemoveAsWrittenMissesEntry()
    ensures var entries := [IssuedDrawing(7, 3, 1)];
            && EntryIndexAsWritten(entries, IdText(7)) == -1
            && EntryIndex(entries, 7) == 0
            && RemoveEntry(entries, 7) == Some([])
  {
    var entries := [IssuedDrawing(7, 3, 1)];
    EntryIndexAsWrittenNeverMatches(entries, IdText(7));
    assert entries[..0] + entries[1..] == [];
  }
}
