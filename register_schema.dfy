/** Record shapes of the drawing register: Drawing, Category and Register
    documents and the defaults the schemas fill in. No field is required and
    none is unique, so every client-supplied field is optional. */
module RegisterSchema {
  import opened Documents

  /** Fields a request may carry for a new Drawing. */
  datatype DrawingBody = DrawingBody(
    drawingNumber: Option<string>,
    projectNumber: Option<string>,
    description: Option<string>,
    title: Option<string>,
    size: Option<string>,
    revisions: Option<int>)

  /** A stored Drawing. Its project number is a string, unlike a Register's. */
  datatype Drawing = Drawing(
    drawingNumber: Option<string>,
    projectNumber: Option<string>,
    description: Option<string>,
    title: Option<string>,
    size: Option<string>,
    revisions: int)

  /** Casting a body into a Drawing: `revisions` defaults to 0, every other
      field is kept as given (absent fields stay absent). */
  function NewDrawing(body: DrawingBody): (d: Drawing)
    ensures body.revisions.None? ==> d.revisions == 0
    ensures body.revisions.Some? ==> d.revisions == body.revisions.value
    ensures d.projectNumber == body.projectNumber && d.drawingNumber == body.drawingNumber
    ensures d.title == body.title && d.description == body.description && d.size == body.size
  {
    Drawing(body.drawingNumber, body.projectNumber, body.description, body.title, body.size,
            body.revisions.GetOr(0))
  }

  /** Fields a request may carry for a new Category, a list of Drawing
      identifiers included. */
  datatype CategoryBody = CategoryBody(title: Option<string>, description: Option<string>,
                                       drawings: Option<seq<Id>>)

  /** A stored Category; `drawings` is an ordered list of Drawing identifiers. */
  datatype Category = Category(title: Option<string>, description: Option<string>, drawings: seq<Id>)

  /** Casting a body into a Category: the reference list starts empty unless
      the body supplies one, which is kept as given. */
  function NewCategory(body: CategoryBody): (c: Category)
    ensures body.drawings.None? ==> c.drawings == []
    ensures body.drawings.Some? ==> c.drawings == body.drawings.value
    ensures c.title == body.title && c.description == body.description
  {
    Category(body.title, body.description, body.drawings.GetOr([]))
  }

  /** Fields of a Register other than its category list; dates are kept as
      epoch milliseconds. */
  datatype RegisterBody = RegisterBody(
    projectName: Option<string>,
    projectNumber: Option<int>,
    projectDescipline: Option<string>,
    projectEngineers: Option<seq<string>>,
    commencementDate: Option<int>,
    completionDate: Option<int>)

  /** A stored Register; `categories` is an ordered list of Category identifiers. */
  datatype Register = Register(
    projectName: Option<string>,
    projectNumber: Option<int>,
    projectDescipline: Option<string>,
    projectEngineers: seq<string>,
    commencementDate: Option<int>,
    completionDate: Option<int>,
    categories: seq<Id>)

  /** Casting a body and an optional category list into a Register: both
      arrays default to empty, every scalar field is kept as given. */
  function NewRegister(body: RegisterBody, categories: Option<seq<Id>>): (r: Register)
    ensures categories.None? ==> r.categories == []
    ensures categories.Some? ==> r.categories == categories.value
    ensures body.projectEngineers.None? ==> r.projectEngineers == []
    ensures body.projectEngineers.Some? ==> r.projectEngineers == body.projectEngineers.value
    ensures r.projectNumber == body.projectNumber && r.projectName == body.projectName
    ensures r.projectDescipline == body.projectDescipline
    ensures r.commencementDate == body.commencementDate && r.completionDate == body.completionDate
  {
    Register(body.projectName, body.projectNumber, body.projectDescipline,
             body.projectEngineers.GetOr([]), body.commencementDate, body.completionDate,
             categories.GetOr([]))
  }
}
