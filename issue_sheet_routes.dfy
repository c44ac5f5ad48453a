/** The IssueSheet routes: create (with number allocation), add and remove an
    issued drawing, and delete. */
module IssueSheetRoutes {
  import opened Documents
  import opened IssueSheetSchema
  import opened IssuedDrawings
  import opened Database
  import opened Allocator

  /** Sheet numbers come only from the allocator: no two sheets share a
      number, and every number lies below the counter. */
  ghost predicate NumbersAllocated(sheets: map<Id, IssueSheet>, counter: Option<int>) {
    && (forall a, b :: a in sheets && b in sheets && a != b && sheets[a].issueSheetNumber.Some? ==>
          sheets[a].issueSheetNumber != sheets[b].issueSheetNumber)
    && (counter.Some? ==>
          forall a :: a in sheets && sheets[a].issueSheetNumber.Some? ==>
            sheets[a].issueSheetNumber.value < counter.value)
  }

  /** Storing a sheet under the number the allocator just returned keeps the
      numbers distinct once the counter has moved past it. */
  lemma AllocatedNumberIsNew(sheets: map<Id, IssueSheet>, c: int, id: Id, sheet: IssueSheet)
    requires NumbersAllocated(sheets, Some(c))
    requires id !in sheets && sheet.issueSheetNumber == Some(c)
    ensures NumbersAllocated(sheets[id := sheet], Some(c + 1))
  {
  }

  /** POST /: the client's `issueSheetNumber` is replaced by the allocator's
      value before the sheet is created. When creation is refused after the
      allocation, the counter stays incremented: a number is skipped, never
      reused. */
  method CreateIssueSheet(db: Store, body: IssueSheetBody) returns (r: Outcome<Id>)
    requires db.Valid()
    modifies db
    ensures db.Valid()
    ensures old(db.counter).None? ==> r == Failed(CounterMissing) && db.State() == old(db.State())
    ensures old(db.counter).Some? ==>
              var number := old(db.counter).value;
              var id := old(db.nextId);
              var doc := NewIssueSheet(body.(issueSheetNumber := Some(number)), id + 1);
              if doc.None? then
                && r == Failed(ValidationFailed)
                && db.State() == old(db.State()).(counter := Some(number + 1))
              else
                && r == Ok(id)
                && id !in old(db.issueSheets)
                && db.State() == old(db.State()).(counter := Some(number + 1),
                                                  issueSheets := old(db.issueSheets)[id := doc.value],
                                                  nextId := id + 1 + |doc.value.drawingsIssued|)
    ensures r.Ok? ==> db.issueSheets[r.value].issueSheetNumber == Some(old(db.counter).value)
    ensures NumbersAllocated(old(db.issueSheets), old(db.counter)) ==> NumbersAllocated(db.issueSheets, db.counter)
  {
    var number := NextIssueSheetNumber(db);
    if !number.Ok? {
      return Failed(CounterMissing);
    }
    assert number.value == old(db.counter).value;
    ghost var counted := db.State();
    var data := body.(issueSheetNumber := Some(number.value));
    var id := db.nextId;
    var doc := NewIssueSheet(data, id + 1);
    if doc.None? {
      return Failed(ValidationFailed);
    }
    if NumbersAllocated(db.issueSheets, Some(number.value)) {
      AllocatedNumberIsNew(db.issueSheets, number.value, id, doc.value);
    }
    id := db.InsertIssueSheet(doc.value);
    r := Ok(id);
    assert db.State() == counted.(issueSheets := counted.issueSheets[id := doc.value],
                                  nextId := id + 1 + |doc.value.drawingsIssued|);
  }

  /** POST /:issueSheetId/addDrawing: NotFound without change when the sheet
      is missing; otherwise the entry list becomes AddIssued of the old one
      and the sheet is saved. A fresh sub-document identifier is used only
      when a new entry is appended. */
  method AddDrawing(db: Store, sheetId: Id, drawing: Id, copies: int) returns (r: Outcome<IssueSheet>)
    requires db.Valid()
    modifies db
    ensures db.Valid()
    ensures sheetId !in old(db.issueSheets) ==> r == NotFound && db.State() == old(db.State())
    ensures sheetId in old(db.issueSheets) ==>
              var sheet := old(db.issueSheets)[sheetId];
              var freshId := old(db.nextId);
              var updated := sheet.(drawingsIssued := AddIssued(sheet.drawingsIssued, drawing, copies, freshId));
              var used := if DrawingIndex(sheet.drawingsIssued, drawing) == -1 then 1 else 0;
              && r == Ok(updated)
              && db.State() == old(db.State()).(issueSheets := old(db.issueSheets)[sheetId := updated],
                                                nextId := freshId + used)
    ensures NumbersAllocated(old(db.issueSheets), old(db.counter)) ==> NumbersAllocated(db.issueSheets, db.counter)
  {
    if sheetId !in db.issueSheets {
      return NotFound;
    }
    var sheet := db.issueSheets[sheetId];
    var entries := sheet.drawingsIssued;
    var i := FindDrawingIndex(entries, drawing);
    if i != -1 {
      entries := entries[i := entries[i].(copies := entries[i].copies + copies)];
    } else {
      var entryId := db.FreshId();
      entries := entries + [IssuedDrawing(entryId, drawing, copies)];
    }
    sheet := sheet.(drawingsIssued := entries);
    assert EntryIdsBelow(entries, db.nextId);
    db.issueSheets := db.issueSheets[sheetId := sheet];
    r := Ok(sheet);
  }

  /** DELETE /:issueSheetId/removeDrawing/:drawingId, matching the parameter
      against each entry's own identifier: NotFound without change when the
      sheet is missing or no entry has that identifier; otherwise the first
      such entry is spliced out and the sheet saved. (The handler as written
      compares an ObjectId with a string and never matches; see
      IssuedDrawings.EntryIndexAsWritten.) */
  method RemoveDrawing(db: Store, sheetId: Id, entryId: Id) returns (r: Outcome<IssueSheet>)
    requires db.Valid()
    modifies db
    ensures db.Valid()
    ensures sheetId !in old(db.issueSheets) ==> r == NotFound && db.State() == old(db.State())
    ensures sheetId in old(db.issueSheets) ==>
              var sheet := old(db.issueSheets)[sheetId];
              var rest := RemoveEntry(sheet.drawingsIssued, entryId);
              if rest.None? then
                r == NotFound && db.State() == old(db.State())
              else
                && r == Ok(sheet.(drawingsIssued := rest.value))
                && db.State() == old(db.State()).(issueSheets := old(db.issueSheets)[sheetId := r.value])
    ensures NumbersAllocated(old(db.issueSheets), old(db.counter)) ==> NumbersAllocated(db.issueSheets, db.counter)
  {
    if sheetId !in db.issueSheets {
      return NotFound;
    }
    var sheet := db.issueSheets[sheetId];
    var entries := sheet.drawingsIssued;
    var i := FindEntryIndex(entries, entryId);
    if i == -1 {
      return NotFound;
    }
    entries := entries[..i] + entries[i + 1..];
    sheet := sheet.(drawingsIssued := entries);
    assert forall e :: e in entries ==> e in old(db.issueSheets)[sheetId].drawingsIssued;
    db.issueSheets := db.issueSheets[sheetId := sheet];
    r := Ok(sheet);
  }

  /** DELETE /:id: NotFound without change when the sheet is missing;
      otherwise only that sheet is removed. */
  method DeleteIssueSheet(db: Store, id: Id) returns (r: Outcome<()>)
    requires db.Valid()
    modifies db
    ensures db.Valid()
    ensures id !in old(db.issueSheets) ==> r == NotFound && db.State() == old(db.State())
    ensures id in old(db.issueSheets) ==>
              r == Ok(()) && db.State() == old(db.State()).(issueSheets := old(db.issueSheets) - {id})
    ensures NumbersAllocated(old(db.issueSheets), old(db.counter)) ==> NumbersAllocated(db.issueSheets, db.counter)
  {
    if id !in db.issueSheets {
      return NotFound;
    }
    db.issueSheets := db.issueSheets - {id};
    r := Ok(());
  }

  /** From a fresh database, startup then three creations in a row: the
      sheets carry the numbers 1, 2 and 3 and the counter ends at 4. */
  method ThreeSheets(body: IssueSheetBody) returns (numbers: seq<Option<int>>, counter: Option<int>)
    requires body.media.None?
    ensures numbers == [Some(1), Some(2), Some(3)]
    ensures counter == Some(4)
  {
    var db := new Store();
    Bootstrap(db);
    numbers := [];
    for k := 0 to 3
      invariant db.Valid() && db.counter == Some(k + 1) && |numbers| == k
      invariant forall j :: 0 <= j < k ==> numbers[j] == Some(j + 1)
    {
      var r := CreateIssueSheet(db, body);
      numbers := numbers + [db.issueSheets[r.value].issueSheetNumber];
    }
    counter := db.counter;
  }
}
