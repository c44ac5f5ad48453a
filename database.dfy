/** The document database as the handlers see it: one collection per model,
    the single Counter document, and a supply of fresh identifiers. Each
    `await` on the database becomes a step on this store. */
module Database {
  import opened Documents
  import opened RegisterSchema
  import opened IssueSheetSchema

  /** The whole content of the store at one moment. */
  datatype Snapshot = Snapshot(
    drawings: map<Id, Drawing>,
    categories: map<Id, Category>,
    registers: map<Id, Register>,
    issueSheets: map<Id, IssueSheet>,
    counter: Option<int>,
    nextId: Id)
  {
    /** Every identifier in use, of a document or of an issued-drawing
        sub-document, lies below `nextId`, so `nextId` is always fresh. */
    ghost predicate Valid() {
      && (forall id :: id in drawings ==> id < nextId)
      && (forall id :: id in categories ==> id < nextId)
      && (forall id :: id in registers ==> id < nextId)
      && (forall id :: id in issueSheets ==> id < nextId)
      && (forall id :: id in issueSheets ==> EntryIdsBelow(issueSheets[id].drawingsIssued, nextId))
    }

    /** The Category and Register references name existing documents: each
        Category's drawings are stored Drawings, each Register's categories
        stored Categories. The drawing references of issue-sheet entries are
        not covered. The database does not enforce this; the handlers keep it
        only in some cases. */
    ghost predicate RefsResolve() {
      && (forall c, d :: c in categories && d in categories[c].drawings ==> d in drawings)
      && (forall g, c :: g in registers && c in registers[g].categories ==> c in categories)
    }
  }

  class Store {
    var drawings: map<Id, Drawing>
    var categories: map<Id, Category>
    var registers: map<Id, Register>
    var issueSheets: map<Id, IssueSheet>
    /** The `issueSheetNumber` of the Counter document, None when there is none. */
    var counter: Option<int>
    var nextId: Id

    ghost function State(): Snapshot
      reads this
    {
      Snapshot(drawings, categories, registers, issueSheets, counter, nextId)
    }

    ghost predicate Valid()
      reads this
    {
      State().Valid()
    }

    /** An empty database, before the startup code has created a Counter. */
    constructor ()
      ensures Valid()
      ensures State() == Snapshot(map[], map[], map[], map[], None, 0)
    {
      drawings, categories, registers, issueSheets := map[], map[], map[], map[];
      counter := None;
      nextId := 0;
    }

    /** The identifier the database gives the next new document or sub-document. */
    method FreshId() returns (id: Id)
      requires Valid()
      modifies this
      ensures Valid()
      ensures id == old(nextId)
      ensures State() == old(State()).(nextId := id + 1)
    {
      id := nextId;
      nextId := nextId + 1;
    }

    /** `IssueSheet.create`: stores the sheet under a fresh identifier, its
        issued-drawing entries having taken the identifiers that follow. */
    method InsertIssueSheet(sheet: IssueSheet) returns (id: Id)
      requires Valid()
      requires EntryIdsBelow(sheet.drawingsIssued, nextId + 1 + |sheet.drawingsIssued|)
      modifies this
      ensures Valid()
      ensures id == old(nextId) && id !in old(issueSheets)
      ensures State() == old(State()).(issueSheets := old(issueSheets)[id := sheet],
                                       nextId := id + 1 + |sheet.drawingsIssued|)
    {
      id := nextId;
      issueSheets := issueSheets[id := sheet];
      nextId := id + 1 + |sheet.drawingsIssued|;
    }

    /** `Register.create`: stores the Register under a fresh identifier. */
    method InsertRegister(register: Register) returns (id: Id)
      requires Valid()
      modifies this
      ensures Valid()
      ensures id == old(nextId) && id !in old(registers)
      ensures State() == old(State()).(registers := old(registers)[id := register], nextId := id + 1)
    {
      id := nextId;
      registers := registers[id := register];
      nextId := nextId + 1;
    }
  }
}
