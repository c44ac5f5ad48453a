/** Record shape of an IssueSheet: its issued-drawing entries, the `media`
    enumeration and the `isSaved` default. Timestamps and the `Date.now()`
    defaults of the two signature blocks are not part of this model. */
module IssueSheetSchema {
  import opened Documents

  /** The two values the `media` enumeration admits. */
  datatype Media = Electronic | Physical

  function MediaName(m: Media): string {
    match m
    case Electronic => "electronic"
    case Physical => "physical"
  }

  /** The enum validator: a string is accepted exactly when it names a Media. */
  function ParseMedia(s: string): (m: Option<Media>)
    ensures m.Some? <==> (s == "electronic" || s == "physical")
    ensures m.Some? ==> MediaName(m.value) == s
  {
    if s == "electronic" then Some(Electronic)
    else if s == "physical" then Some(Physical)
    else None
  }

  /** The `issuedBy` / `receiveBy` blocks, without their dates. */
  datatype Party = Party(name: Option<string>, signature: Option<string>)

  /** One issued-drawing entry as a request carries it. */
  datatype EntryBody = EntryBody(drawing: Id, copies: int)

  /** One stored issued-drawing entry: a sub-document with its own `_id`,
      one Drawing reference and a number of copies. */
  datatype IssuedDrawing = IssuedDrawing(id: Id, drawing: Id, copies: int)

  /** Fields a request may carry for a new IssueSheet. */
  datatype IssueSheetBody = IssueSheetBody(
    issueSheetNumber: Option<int>,
    to: Option<string>,
    attention: Option<string>,
    client: Option<string>,
    projectName: Option<string>,
    projectNumber: Option<int>,
    drawingsIssued: Option<seq<EntryBody>>,
    remarks: Option<string>,
    issuedFor: Option<string>,
    media: Option<string>,
    issuedBy: Party,
    receiveBy: Party,
    isSaved: Option<bool>)

  /** A stored IssueSheet. `issueSheetNumber` is a plain optional number: the
      schema neither requires it nor makes it unique. */
  datatype IssueSheet = IssueSheet(
    issueSheetNumber: Option<int>,
    to: Option<string>,
    attention: Option<string>,
    client: Option<string>,
    projectName: Option<string>,
    projectNumber: Option<int>,
    drawingsIssued: seq<IssuedDrawing>,
    remarks: Option<string>,
    issuedFor: Option<string>,
    media: Option<Media>,
    issuedBy: Party,
    receiveBy: Party,
    isSaved: bool)

  /** Every entry identifier lies below `bound`. */
  ghost predicate EntryIdsBelow(entries: seq<IssuedDrawing>, bound: Id) {
    forall e :: e in entries ==> e.id < bound
  }

  /** Entry sub-documents receive consecutive fresh identifiers from `firstId`. */
  function NumberEntries(entries: seq<EntryBody>, firstId: Id): (r: seq<IssuedDrawing>)
    ensures |r| == |entries|
    ensures EntryIdsBelow(r, firstId + |entries|)
    ensures forall k :: 0 <= k < |r| ==> r[k].id == firstId + k
    ensures forall j, k :: 0 <= j < k < |r| ==> r[j].id != r[k].id
    ensures forall k :: 0 <= k < |r| ==> r[k].drawing == entries[k].drawing && r[k].copies == entries[k].copies
  {
    if entries == [] then []
    else [IssuedDrawing(firstId, entries[0].drawing, entries[0].copies)] + NumberEntries(entries[1..], firstId + 1)
  }

  /** Casting and validating a body into an IssueSheet: it is refused exactly
      when `media` is present and not one of the enumeration's values; the
      entry list defaults to empty and `isSaved` to false. */
  function NewIssueSheet(body: IssueSheetBody, firstEntryId: Id): (r: Option<IssueSheet>)
    ensures r.None? <==> body.media.Some? && body.media.value != "electronic" && body.media.value != "physical"
    ensures r.Some? ==> r.value.issueSheetNumber == body.issueSheetNumber
    ensures r.Some? ==> r.value.drawingsIssued == NumberEntries(body.drawingsIssued.GetOr([]), firstEntryId)
    ensures r.Some? ==> && r.value.to == body.to && r.value.attention == body.attention
                        && r.value.client == body.client && r.value.projectName == body.projectName
                        && r.value.projectNumber == body.projectNumber && r.value.remarks == body.remarks
                        && r.value.issuedFor == body.issuedFor
                        && r.value.issuedBy == body.issuedBy && r.value.receiveBy == body.receiveBy
    ensures r.Some? ==> (r.value.isSaved <==> body.isSaved == Some(true))
    ensures r.Some? && body.drawingsIssued.None? ==> r.value.drawingsIssued == []
    ensures r.Some? ==> EntryIdsBelow(r.value.drawingsIssued, firstEntryId + |r.value.drawingsIssued|)
    ensures r.Some? && body.media.Some? ==> r.value.media.Some? && MediaName(r.value.media.value) == body.media.value
    ensures r.Some? && body.media.None? ==> r.value.media.None?
  {
    var media := if body.media.None? then Some(None) else
                   match ParseMedia(body.media.value)
                   case Some(m) => Some(Some(m))
                   case None => None;
    if media.None? then None
    else
      var entries := NumberEntries(body.drawingsIssued.GetOr([]), firstEntryId);
      Some(IssueSheet(body.issueSheetNumber, body.to, body.attention, body.client, body.projectName,
                      body.projectNumber, entries, body.remarks, body.issuedFor, media.value,
                      body.issuedBy, body.receiveBy, body.isSaved.GetOr(false)))
  }
}
