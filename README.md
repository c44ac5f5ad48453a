# issuesheetApp backend: a Dafny model

This project models the behavioural core of the issuesheetApp backend. The
backend is an Express/Mongoose service that keeps a drawing register
(Registers → Categories → Drawings) and issue sheets recording which drawings
were sent out, and how many copies of each.

The database is modelled as one object, `Database.Store`. It holds:
- one map from identifier to document for each collection (Drawings,
  Categories, Registers, IssueSheets);
- the single Counter document's number, which may be absent;
- a supply of fresh identifiers.

Every route handler that does real work is a method that takes that store. It applies
its `await`ed steps in source order, including the partial effects that an
early return leaves behind. It answers `Ok`, `NotFound` or `Failed(reason)`.
Each handler's postcondition states the whole new state of the store as an
update of the old one, so "nothing else changes" is part of every contract.
Two store-wide invariants are proved where they hold:
- `Snapshot.Valid`: every document and issued-drawing entry identifier lies
  below the fresh-identifier supply;
- `Snapshot.RefsResolve`: every Category's drawing reference and every
  Register's category reference names an existing document (issue-sheet
  entries' drawing references are not covered).
  The database does not enforce this; the handlers keep it only in the cases
  the contracts name.

Modules, one per source file or concern:

- `Documents`: identifiers, `Option`, and the `Outcome` of a handler.
- `RegisterSchema` and `IssueSheetSchema`: the record shapes and the defaults
  that the Mongoose schemas fill in. `revisions` defaults to 0, `isSaved` to
  false, and reference arrays start empty. `media` is limited to `electronic`
  and `physical`.
- `Database`: the store and its snapshot.
- `Allocator`: the issue-sheet number allocator and the startup code that
  creates the Counter.
- `IssuedDrawings`: the issued-drawings list of a sheet. Adding is keyed by
  drawing. Removing is keyed by the entry's own identifier.
- `RefLists`: removing every occurrence of an identifier from an ordered
  reference list.
- `IssueSheetRoutes`, `CategoryRoutes` and `RegisterRoutes`: the handlers of
  the three route files.

Two behaviours of the code are easy to misread; the model follows the code:
- The allocator calls `findByIdAndUpdate` without `{ new: true }`, so it
  returns the counter value from BEFORE the increment. From the startup
  counter (default 1), the first sheet is numbered 1 and the counter is left
  at 2.
- The register update (`PUT /:id`) places the newly created category
  identifiers BEFORE the existing ones: `[...categoryIds, ...register.categories]`.
  Old and new identifiers are all kept, which is the sense in which the
  update is additive.

## Model

| member | source | states |
|---|---|---|
| Allocator.Allocation | util/nextIssueSheetNumber.js:6-14 | One call on a counter state. It succeeds exactly when a Counter exists and returns the number it held, leaving it one higher; with no Counter it fails and the counter stays absent. |
| Allocator.NextIssueSheetNumber | util/nextIssueSheetNumber.js:4-15 | Returns the counter value from before the increment and leaves the counter at that value + 1. With no Counter document it fails and nothing changes. Only the counter's number changes; no collection is touched. |
| Allocator.Bootstrap | server.js:26-31 | At startup a missing Counter is created with its default number 1. An existing Counter is kept as it is. |
| Allocator.Allocations | util/nextIssueSheetNumber.js:6-14 | n successive calls, each from the counter the previous one left, give exactly n results. What the results are is stated by AllocationsFrom, AllocationsIncrease and AllocationsWithoutCounter. |
| Allocator.AllocationsFrom | util/nextIssueSheetNumber.js:6-14 | From counter value c, n successive calls return c, c+1, …, c+n-1 in that order and leave the counter at c+n. |
| Allocator.AllocationsIncrease | util/nextIssueSheetNumber.js:6-14 | Any two successive calls both succeed, and the later one returns a strictly greater value. No number is handed out twice. |
| Allocator.AllocationsWithoutCounter | util/nextIssueSheetNumber.js:6-8 | Without a Counter document every call fails and the counter stays absent. |
| Allocator.FirstAllocation | models/Counter.js:5 | On a fresh database, startup followed by one call returns 1 and leaves the counter at 2. |
| RegisterSchema.NewDrawing | models/DrawingRegister.js:105-112 | A Drawing created without `revisions` has 0 revisions. Every other field is kept exactly as given, absent fields included. |
| RegisterSchema.NewCategory | models/DrawingRegister.js:65-69 | A new Category's drawing list is empty unless the body supplies one, which is kept as given. Its title and description are kept. |
| RegisterSchema.NewRegister | models/DrawingRegister.js:114-122 | A Register created without categories has an empty category list. With categories, it has exactly that list in that order. An absent engineer list becomes empty and a supplied one is kept. The project name, number, discipline and both dates are kept as given. |
| IssueSheetSchema.ParseMedia | models/IssueSheet.js:103 | A `media` string is accepted exactly when it is `electronic` or `physical`, and the accepted value names that string. |
| IssueSheetSchema.NumberEntries | models/IssueSheet.js:95-100 | Each entry keeps its drawing and copies and receives its own identifier: the k-th gets the k-th fresh identifier, so they are distinct and lie in the fresh range. |
| IssueSheetSchema.NewIssueSheet | models/IssueSheet.js:88-117 | Creation is refused exactly when `media` is present and not in the enumeration. Otherwise the number and every other scalar field and signature block are kept as given, a present `media` is the value it names and an absent one stays absent, `isSaved` is true only when the body says so, and the entry list is `NumberEntries` of the supplied list (empty by default): each entry keeps its drawing and copies under its own fresh, distinct identifier. |
| IssuedDrawings.DrawingIndex | routes/IssueSheet.js:269 | Gives the index of the first entry for the drawing, or -1 exactly when no entry is for it. |
| IssuedDrawings.FindDrawingIndex | routes/IssueSheet.js:269 | The handler's linear search returns exactly `DrawingIndex`. |
| IssuedDrawings.AddIssued | routes/IssueSheet.js:269-277 | The list grows by at most one entry, and every existing entry keeps its identifier and drawing. The rest of its meaning is stated by AddIssuedExisting, AddIssuedNew, AddIssuedKeepsUnique, AddIssuedTotalCopies and AddIssuedKeepsEntryIdsUnique. |
| IssuedDrawings.AddIssuedExisting | routes/IssueSheet.js:269-273 | Adding a drawing that is already listed adds `copies` to its first entry only. The length and every other entry are unchanged. |
| IssuedDrawings.AddIssuedNew | routes/IssueSheet.js:274-277 | Adding a drawing that is not listed appends `{drawing, copies}` at the end. Earlier entries are unchanged. |
| IssuedDrawings.AddIssuedKeepsUnique | routes/IssueSheet.js:269-277 | If no drawing has two entries before an add, that still holds after it, and the drawing then has an entry. |
| IssuedDrawings.AddIssuedTotalCopies | routes/IssueSheet.js:269-277 | An add grows the total number of copies over all entries by exactly `copies`. |
| IssuedDrawings.AddSameDrawingTwice | routes/IssueSheet.js:269-277 | Adding one drawing with 2 copies and then with 3 leaves a single entry with 5. |
| IssuedDrawings.EntryIndex | routes/IssueSheet.js:329 | Gives the index of the first entry whose own identifier matches, or -1 exactly when none does. |
| IssuedDrawings.FindEntryIndex | routes/IssueSheet.js:329 | The handler's linear search, matching entry identifiers, returns exactly `EntryIndex`. |
| IssuedDrawings.RemoveEntry | routes/IssueSheet.js:329-337 | Gives None exactly when no entry has the identifier. Otherwise exactly the first matching entry is spliced out: the length drops by one, the others keep their order, and the multiset loses just that entry. |
| IssuedDrawings.AddIssuedKeepsEntryIdsUnique | routes/IssueSheet.js:269-277 | When the new entry's identifier is fresh (every stored identifier lies below it, as the store's invariant gives), an add keeps entry identifiers distinct and below the advanced supply. |
| IssuedDrawings.RemoveEntryRemovesId | routes/IssueSheet.js:329-337 | With distinct entry identifiers, the removed identifier no longer occurs and the rest stay distinct. |
| IssuedDrawings.EntryIndexAsWritten | routes/IssueSheet.js:329 | The search with strict equality between an ObjectId and a string, as written. |
| IssuedDrawings.EntryIndexAsWrittenNeverMatches | routes/IssueSheet.js:329-333 | As written, that search finds no entry for any list and any parameter. |
| IssuedDrawings.RemoveAsWrittenMissesEntry | routes/IssueSheet.js:329-337 | A sheet whose one entry has identifier 7: as written, the request naming it is refused. The identifier match finds the entry at index 0 and removes it. |
| RefLists.RemoveAll | routes/Categories.js:275 | After filtering, the identifier no longer occurs, every other identifier is still present, and the list is shorter whenever the identifier was in it. |
| RefLists.RemoveAllAppend | routes/Categories.js:275 | Filtering distributes over concatenation, so the kept elements stay in their input order. |
| RefLists.RemoveAllAbsent | routes/DrawingRegister.js:410 | Filtering out an identifier that is not listed leaves the list as it was. |
| RefLists.RemoveAllMultiset | routes/DrawingRegister.js:410 | Exactly the occurrences of the identifier disappear. Every other identifier keeps its multiplicity. |
| RefLists.RemoveAllIdempotent | routes/Categories.js:275 | Filtering twice by the same identifier is the same as filtering once. |
| Database.Store.FreshId | routes/Categories.js:210 | A new document gets an identifier that no stored document or entry has. Nothing else changes. |
| Database.Store.InsertIssueSheet | routes/IssueSheet.js:39 | `IssueSheet.create` stores the sheet under a fresh identifier. Its entries have taken the identifiers that follow. |
| Database.Store.InsertRegister | routes/DrawingRegister.js:65 | `Register.create` stores the Register under a fresh identifier. Nothing else changes. |
| IssueSheetRoutes.CreateIssueSheet | routes/IssueSheet.js:33-45 | The number is allocated first and replaces any number the client sent, and the stored sheet carries it. With no Counter nothing changes. If validation refuses the sheet, the counter stays incremented: a number is skipped, never reused. Allocator-issued numbers stay distinct and below the counter. |
| IssueSheetRoutes.AllocatedNumberIsNew | models/IssueSheet.js:89 | The schema gives no uniqueness. A sheet stored under the number just allocated keeps the numbers distinct once the counter has moved past it. |
| IssueSheetRoutes.ThreeSheets | routes/IssueSheet.js:36-39 | On a fresh database, startup and three creations give the sheets numbers 1, 2 and 3 and leave the counter at 4. |
| IssueSheetRoutes.AddDrawing | routes/IssueSheet.js:257-286 | A missing sheet gives NotFound and changes nothing. Otherwise only that sheet changes: its entry list becomes the add of the old list. A fresh entry identifier is used only when an entry is appended. |
| IssueSheetRoutes.RemoveDrawing | routes/IssueSheet.js:318-344 | A missing sheet, or no entry with that identifier, gives NotFound and changes nothing. Otherwise only that sheet changes: the first matching entry is spliced out. |
| IssueSheetRoutes.DeleteIssueSheet | routes/IssueSheet.js:197-209 | A missing sheet gives NotFound and changes nothing. Otherwise only that sheet is removed. |
| CategoryRoutes.AddDrawingToCategory | routes/Categories.js:195-227 | The Drawing is saved first and never has a project number. With a missing category the result is NotFound and the Drawing remains as an orphan. Otherwise the category's list becomes the old list followed by the new identifier. Category and Register references that resolved still resolve. |
| CategoryRoutes.DeleteDrawingFromCategory | routes/Categories.js:259-286 | A missing category, or a drawing it does not list, gives NotFound and changes nothing. Otherwise every occurrence is filtered out of that category's list, and then the Drawing is deleted. Other categories are not touched. Category and Register references stay resolved when no other category lists the drawing. |
| CategoryRoutes.DeleteCategory | routes/Categories.js:130-143 | A missing category gives NotFound and changes nothing. Otherwise only the Category is removed; Registers and Drawings are untouched. |
| CategoryRoutes.Resolve | routes/Categories.js:373-379 | Populating a reference list yields no more drawings than it has identifiers, each of them a stored Drawing. Exact membership is stated by ResolveMembers. |
| CategoryRoutes.CategoriesDrawings | routes/Categories.js:386-388 | The populated drawings of a category list are all stored Drawings. Membership in both directions is stated by CategoriesDrawingsMembers. |
| CategoryRoutes.ProjectDrawings | routes/Categories.js:369-392 | The listing for a project holds only stored Drawings. Membership in both directions, order over the registers and the exclusion of other projects are stated by ProjectDrawingsMembers, ProjectDrawingsAppend and ProjectDrawingsOtherProjects. |
| CategoryRoutes.CollectProjectDrawings | routes/Categories.js:384-389 | The nested loops return exactly `ProjectDrawings`. |
| CategoryRoutes.ProjectDrawingsAppend | routes/Categories.js:385-389 | The listing distributes over the register sequence: earlier registers' drawings come before later ones'. |
| CategoryRoutes.ProjectDrawingsOtherProjects | routes/Categories.js:373 | Registers of other projects contribute nothing. |
| CategoryRoutes.ResolveMembers | routes/Categories.js:373-379 | Populating a reference list yields a drawing exactly when a listed identifier names that stored drawing. |
| CategoryRoutes.CategoriesDrawingsMembers | routes/Categories.js:386-388 | A drawing is listed for a category list exactly when a stored category in it lists that drawing. |
| CategoryRoutes.ProjectDrawingsMembers | routes/Categories.js:369-392 | A drawing is in the project listing exactly when some Register with that project number has a category that lists it. |
| RegisterRoutes.CreatedCategoriesContent | routes/DrawingRegister.js:56-61 | The categories created from n bodies occupy exactly the n fresh identifiers, in order. Each is cast from its own body. |
| RegisterRoutes.TitledCategories | routes/DrawingRegister.js:58-59 | The k-th Category created from a title list is titled by the k-th title and has no description and no drawings. |
| RegisterRoutes.CreatedKeepsRefs | routes/DrawingRegister.js:343 | Creating categories keeps every reference resolving when the drawing lists the bodies supply name stored Drawings (a title list supplies none). |
| RegisterRoutes.InsertCategories | routes/DrawingRegister.js:56-61 | One Category per body is created, in order, under fresh identifiers, which are returned in that order. Nothing else changes. |
| RegisterRoutes.CreateRegister | routes/DrawingRegister.js:53-80 | With a category list, its Categories are created first, and the Register is stored with exactly their identifiers in order. Without one, the Register is stored from the body with an empty list. References that resolved still resolve. |
| RegisterRoutes.UpdateRegister | routes/DrawingRegister.js:246-290 | Non-empty new titles become Categories first. A missing register then fails, and the created Categories remain. Otherwise the list becomes the new identifiers followed by the old ones; with no or empty titles it is unchanged. References that resolved still resolve. |
| RegisterRoutes.AddCategories | routes/DrawingRegister.js:334-363 | The Categories are created first, each with the title, description and drawing list its element carries. A missing register gives NotFound and leaves them as orphans. Otherwise their identifiers are appended after the existing ones. References that resolved still resolve when every supplied drawing identifier names a stored Drawing; otherwise the source leaves a dangling one. |
| RegisterRoutes.DeleteCategoryFromRegister | routes/DrawingRegister.js:394-421 | A missing register, or a category it does not list, gives NotFound and changes nothing. Otherwise every occurrence is filtered out of that register's list, and then the Category is deleted. References stay resolved when no other register lists it. |
| RegisterRoutes.DeleteRegister | routes/DrawingRegister.js:472-482 | A missing register gives NotFound and changes nothing. Otherwise only the Register is removed; its Categories and Drawings remain. |

## Left out
- Database.Snapshot.RefsResolve: the drawing references of issue-sheet entries are not covered. The source never checks them, and deleting a Drawing (routes/Categories.js:278) can leave an issue sheet listing it.
- Database.Snapshot.Valid: reference identifiers that clients supply (the `drawing` of an add, the `drawings` of a category) share the identifier space with fresh ones and are not bounded by the supply, so a later fresh identifier can equal one of them; real ObjectIds never collide this way.
- The user routes and the user model (`routes/User.js`, `models/Users.js`) are not part of this model. Password hashing and token signing are foreign library calls, and the rest is plain find, update and delete.
- `test.js` is not part of this model. It is an unrelated outbound HTTP call.
- Database connection, Express wiring, HTTP status codes and JSON bodies are left out. Handlers answer `Ok`, `NotFound` or `Failed` instead.
- Concurrency is not modelled, including the atomicity of `$inc` and the unawaited `save` of the startup Counter. Handlers run one at a time.
- Only one Counter document is modelled. The allocator reads only the first of several, so the model holds at most one.
- The read routes that only `populate` references (the GETs of registers, categories and sheets) are left out. Population is modelled only inside the project-drawings listing.
- The generic `findByIdAndUpdate(id, body)` merges are left out: the issue-sheet PUT, the category PUT, and the fields of the register PUT other than its category list. Merging untyped JSON field by field is not specified.
- Timestamps and the `Date.now()` defaults of `issuedBy.date` and `receiveBy.date` depend on the clock and are left out. Dates are plain integers.
- ObjectIds are abstracted as natural numbers from one fresh supply shared with sub-documents. Their text form matters only for the finding below.
- The order of the Register collection that `Register.find` returns is a parameter of the project-drawings listing.
- Mongoose casting of untyped input is not modelled, for instance `copies` or `projectNumber` arriving as strings, a non-numeric project number making the listing query throw, and a cast error making `Register.create` fail after the categories were created. Fields are typed in the model, so those casts cannot fail.
- IssueSheetSchema.NewIssueSheet: media is the only validation failure modelled, because the schema has no required fields and casting is left out as said above.
- RegisterRoutes.AddCategories: only an array body is modelled. `Category.create` with a single object is not. Keys of an element other than `title`, `description` and `drawings` are not modelled.
- RegisterRoutes.CreateRegister: the category list is taken to be a list of titles. A truthy non-array value, which `for…of` would iterate character by character, is not modelled.
- RegisterRoutes.UpdateRegister: the two `404 Register not found` answers after `findByIdAndUpdate` are unreachable once `register.categories` has thrown on a missing register, so the model has no such path.
- IssueSheetRoutes.AddDrawing: `copies` is an integer. JavaScript's `+=` on a string or undefined value is not modelled.
- IssueSheetRoutes.AddDrawing: every entry carries a drawing, and so does every request. The schema does not require one, so a sheet created with an entry like `{copies: 2}`, or an add without `drawing`, stores an entry without a drawing. Any later add that scans that entry throws at `d.drawing.toString()` (500, nothing saved), whereas the model answers Ok. The model does not capture entries without a drawing or that failure.
- The difference between null and absent values in Mongoose documents is not modelled. Absent top-level scalars are `None`, and absent arrays become empty. Entry fields (`drawing`, `copies`) are never absent in the model; see the AddDrawing line above.

## Findings

| source | as written | input that shows it | evidently intended | confidence | as-written member | corrected member |
|---|---|---|---|---|---|---|
| routes/IssueSheet.js:329 | `findIndex(d => d._id === drawingId)` compares an entry's ObjectId with the route's string parameter using strict equality. That is never true, so every remove answers "Drawing not found in the issue sheet". | A sheet whose single entry has identifier 7, and a request naming 7 | Match the entry whose identifier's text equals the parameter (as the add route does with `toString()`), and splice that entry out. The route's documentation calls the parameter the identifier of the drawing to be removed, so the key meant could instead be the entry's drawing reference; the comparison never matches under either reading, and the model follows the entry-identifier reading | not executed | IssuedDrawings.RemoveAsWrittenMissesEntry | IssueSheetRoutes.RemoveDrawing |
