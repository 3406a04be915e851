# Course table of the RESTful-APIs tutorial server, in Dafny

The server keeps an in-memory table of courses, each with an `id` and a
`name`. Six records are seeded when the process starts. Four handlers under
`/api/courses` read and change the table:

- **get by id** finds the first record whose id equals the parsed path id, or answers 404;
- **create** checks the body against the schema (`name`: a required string at least three
  UTF-16 code units long, as JavaScript measures it), answers 400 on failure, and otherwise appends `{id: length + 1, name}`;
- **update** answers 404 for an unknown id, then 400 for a bad body, and otherwise renames the
  matched record in place;
- **delete** answers 404 for an unknown id. Otherwise it computes the record's position and
  calls `slice`, which copies rather than removes. So the table is left as it was and the found
  record is returned.

Two behaviours of the code shape the model: delete removes nothing, and a
new id is `length + 1`. Together they keep one invariant through every
handler: the record at position `i` has id `i + 1`. Ids are therefore unique,
and a lookup of id `k` hits position `k - 1` exactly when `1 <= k <= length`.

Layout:

- `wrappers.dfy`: `Option` and `Result`.
- `validation.dfy`: the request body, the schema rule `Validate` and its reference statement `Acceptable`.
- `courses.dfy`: the `Course` record and the seed. Also the searches `FindIndex` (`find`),
  `IndexOf` (`indexOf`) and `Slice` (`slice`), the invariant `IdsMatchPositions`, and lemmas
  about all of these.
- `store.dfy`: the class `CourseStore`, whose `courses` field the handlers `Get`, `Create`,
  `Update` and `Delete` read and reassign. Two client methods state properties that span two
  requests.

The path id arrives as `Option<int>`: `None` stands for a `parseInt` that yields NaN, which
equals no id. The body is either a JSON object with an optional `name` member, or some other
JSON value.

## Model

| member | source | states |
|---|---|---|
| `Validation.Validate` | index.js:131-138 | accepts a body exactly when it is an object whose `name` is present, is text and is at least 3 UTF-16 code units long (`Acceptable`); the accepted value is that name; a rejection names a constraint the body really breaks |
| `Validation.Utf16Length` | index.js:134 | the length the schema's `min(3)` measures: UTF-16 code units, between the number of characters and twice that, and equal to it when no character lies beyond U+FFFF |
| `Validation.RejectionIsDetermined` | index.js:66-70 | the constraint a body breaks determines the error reported: a body that breaks constraint `e` is rejected with exactly `e` (the converse of `Validate`'s rejection clause) |
| `Validation.AstralPairIsLongEnough` | index.js:67 | a name of two characters beyond U+FFFF, four UTF-16 code units, is accepted as it stands |
| `Courses.FindIndex` | index.js:53 | finds a position exactly when the id parsed and some record has it; that position holds the first record with the id; an unparseable id finds nothing |
| `Courses.IndexOf` | index.js:125 | -1 exactly when the record is absent, otherwise the first position holding an equal record |
| `Courses.RelativeIndex` | index.js:126 | a `slice` argument becomes a position within `0..length`, unchanged when already in range |
| `Courses.Slice` | index.js:126 | the result is the run of elements from the start position up to the end position, and empty when end is not past start; the input list is not changed |
| `Courses.DeleteSliceIsAtMostHead` | index.js:125-126 | `slice(index, 1)` is empty for every position past the first and a copy of the head at the first; either way the table itself is left as it was, so nothing is removed |
| `Courses.SeedIdsMatchPositions` | index.js:13-20 | the seeded table has id `i + 1` at position `i` |
| `Courses.IdsAreUnique` | index.js:13-20 | under that invariant no two records share an id |
| `Courses.FindByPosition` | index.js:53 | under the invariant a lookup of id `k` hits position `k - 1` when `1 <= k <= length` and finds nothing otherwise |
| `Courses.IndexOfFound` | index.js:120-125 | the position `indexOf` gives for the record `find` returned is the position `find` hit |
| `Courses.AppendKeepsIds` | index.js:78-82 | appending with id `length + 1` keeps the invariant, and that id exceeds every id already present |
| `Courses.RenameKeepsIds` | index.js:111 | changing one record's name keeps the invariant |
| `Store.CourseStore.constructor` | index.js:13-20 | the table starts as the six seeded records and satisfies the invariant |
| `Store.CourseStore.Get` | index.js:51-59 | 404 exactly when the id does not parse or matches no record, otherwise the first matching record; under the invariant the answer is 200 exactly for ids `1..length`, with the record at position `id - 1`; the table is not changed |
| `Store.CourseStore.Create` | index.js:63-84 | 400 exactly when the schema rejects the body, naming a broken constraint, with the table unchanged; otherwise exactly one record is appended at the end, with id `old length + 1` (larger than every existing id) and the body's name, and it is returned; the invariant is kept |
| `Store.CourseStore.Update` | index.js:86-113 | 404 exactly when the id matches nothing, whatever the body; for a match, 400 exactly when the body is rejected; on 404 and 400 the table is unchanged; on success only the name of the first matching record changes (to the body's name), every other record, the length, order and ids stay, and the renamed record is returned; the invariant is kept |
| `Store.CourseStore.Delete` | index.js:114-129 | 404 exactly when the id does not parse or matches no record, otherwise the first matching record; under the invariant the answer is 200 exactly for ids `1..length`, with the record at position `id - 1`; the table is not changed |
| `Store.DeleteThenGet` | index.js:120-128 | a lookup right after a delete succeeds exactly when the delete did, and returns the same record |
| `Store.CreateThenGet` | index.js:78-83 | after a successful create the table has grown by one, and a lookup of the new id returns the created record; after a failed create the table is unchanged |

## Left out

- Express plumbing is not modelled: app and router creation, the JSON body middleware, router mounting, `PORT` and `app.listen` (index.js:1-11, 140-147). It is framework and I/O.
- The demonstration routes `/`, `/auth/login`, `/cour/:id`, `/post/:year/:month` and `/product/:year/:month` (index.js:22-46) are not modelled. They only echo values the framework parsed.
- The POST and PUT handlers are declared `(res, req)`, with request and response swapped (index.js:63, 86). The DELETE route is registered as `'courses/:id'` without the leading slash (index.js:114). The model follows the evident request-to-response logic of these handlers and records both defects in comments only.
- Joi's message text (`error.details[0].message`, index.js:74, 106) is not modelled. A rejection carries the kind of constraint that failed instead.
- Joi's rejection of unknown body keys is not modelled. A body is modelled only by its `name` member.
- The library's separate "empty string" complaint is folded into `NameTooShort`.
- JavaScript's `parseInt` is not modelled. The path id is given already parsed, as `Option<int>`.
- `console.log` (index.js:71, 146) is not modelled.
- Object identity is not modelled. Records are values, so update replaces the record at the matched position rather than assigning a field of a shared object, and `indexOf` compares records by value. `Courses.IndexOfFound` shows that the position it returns is still the one `find` hit.
- The response bodies for 404 and 400 are not modelled; `NotFound` and `BadRequest` stand for the status and what it reports.
- Validation.Validate: a name holding a lone surrogate (legal in JSON, with a JavaScript length) cannot be represented, because a Dafny `string` holds only Unicode scalar values; every other name is measured in UTF-16 code units, as JavaScript does.
