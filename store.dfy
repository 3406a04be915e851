/**
 * The module-level `courses` array of index.js and the four `/courses`
 * handlers that read and change it (index.js:51-129). Each handler takes
 * the parsed path id and body and yields the response it would send.
 */
module Store {
  import opened Wrappers
  import opened Validation
  import opened Courses

  /** What a handler sends: 404 with a message, 400 with the validator's complaint, or 200 with a record. */
  datatype Response = NotFound | BadRequest(error: ValidationError) | Ok(course: Course)

  /** The in-memory table, updated in place by the create and update handlers. */
  class CourseStore {
    var courses: seq<Course>

    /** The record at position `i` has id `i + 1`. */
    ghost predicate Valid()
      reads this
    {
      IdsMatchPositions(courses)
    }

    /** The table as the process starts with it (index.js:13-20). */
    constructor ()
      ensures Valid()
      ensures courses == Seed
    {
      courses := Seed;
    }

    /**
     * GET /courses/:id (index.js:51-59): the first record whose id equals the
     * parsed path id, or 404. The table is only read.
     */
    method Get(id: Option<int>) returns (r: Response)
      ensures !r.BadRequest?
      ensures r.NotFound? <==> id.None? || !HasId(courses, id.value)
      ensures r.Ok? ==> exists i :: FirstWithId(courses, id.value, i) && r.course == courses[i]
      ensures Valid() ==> (r.Ok? <==> id.Some? && 1 <= id.value <= |courses|)
      ensures Valid() && r.Ok? ==> r.course == courses[id.value - 1]
    {
      var found := FindIndex(courses, id);
      if found.None? {
        r := NotFound;
      } else {
        r := Ok(courses[found.value]);
      }
      if Valid() && id.Some? {
        FindByPosition(courses, id.value);
      }
    }

    /**
     * POST /courses (index.js:63-84): a body the schema rejects gives 400 and
     * leaves the table alone; otherwise one record with id `length + 1` and
     * the body's name is appended and returned. (The source declares the
     * handler as `(res, req)`, with the roles swapped; the model follows the
     * evident request-to-response reading.)
     */
    method Create(body: Body) returns (r: Response)
      requires Valid()
      modifies this
      ensures Valid()
      ensures !r.NotFound?
      ensures r.BadRequest? <==> !Acceptable(body)
      ensures r.BadRequest? ==> Breaks(body, r.error) && courses == old(courses)
      ensures r.Ok? ==>
                && body.name == Some(Text(r.course.name))
                && r.course.id == |old(courses)| + 1
                && courses == old(courses) + [r.course]
      ensures r.Ok? ==> forall c :: c in old(courses) ==> c.id < r.course.id
    {
      var result := Validate(body);
      if result.Failure? {
        r := BadRequest(result.error);
        return;
      }
      var course := Course(|courses| + 1, result.value);
      AppendKeepsIds(courses, result.value);
      courses := courses + [course];
      r := Ok(course);
    }

    /**
     * PUT /courses/:id (index.js:86-113): an id that matches nothing gives 404
     * whatever the body; for a match, a body the schema rejects gives 400;
     * otherwise only that record's name changes and the record is returned.
     * (Declared as `(res, req)` in the source, like the create handler.)
     */
    method Update(id: Option<int>, body: Body) returns (r: Response)
      requires Valid()
      modifies this
      ensures Valid()
      ensures r.NotFound? <==> id.None? || !HasId(old(courses), id.value)
      ensures r.BadRequest? <==> !r.NotFound? && !Acceptable(body)
      ensures r.BadRequest? ==> Breaks(body, r.error)
      ensures !r.Ok? ==> courses == old(courses)
      ensures r.Ok? ==> exists i :: && FirstWithId(old(courses), id.value, i)
                                    && body.name == Some(Text(r.course.name))
                                    && r.course == old(courses)[i].(name := r.course.name)
                                    && courses == old(courses)[i := r.course]
    {
      var found := FindIndex(courses, id);
      if found.None? {
        r := NotFound;
        return;
      }
      var result := Validate(body);
      if result.Failure? {
        r := BadRequest(result.error);
        return;
      }
      var i := found.value;
      var course := courses[i].(name := result.value);
      RenameKeepsIds(courses, i, result.value);
      courses := courses[i := course];
      r := Ok(course);
    }

    /**
     * DELETE /courses/:id (index.js:114-129): an id that matches nothing gives
     * 404; for a match the handler computes the record's position and calls
     * `slice`, which copies rather than removes, and discards the copy, so the
     * table is left as it was and the found record is returned. (The route is
     * registered as `'courses/:id'`, without the leading slash.)
     */
    method Delete(id: Option<int>) returns (r: Response)
      ensures !r.BadRequest?
      ensures r.NotFound? <==> id.None? || !HasId(courses, id.value)
      ensures r.Ok? ==> exists i :: FirstWithId(courses, id.value, i) && r.course == courses[i]
      ensures Valid() ==> (r.Ok? <==> id.Some? && 1 <= id.value <= |courses|)
      ensures Valid() && r.Ok? ==> r.course == courses[id.value - 1]
    {
      var found := FindIndex(courses, id);
      if Valid() && id.Some? {
        FindByPosition(courses, id.value);
      }
      if found.None? {
        r := NotFound;
        return;
      }
      var course := courses[found.value];
      var index := IndexOf(courses, course);
      var _ := Slice(courses, index, 1);
      r := Ok(course);
    }
  }

  /**
   * A delete never removes anything: the lookup that follows it finds the
   * very record the delete returned.
   */
  method DeleteThenGet(store: CourseStore, id: Option<int>) returns (deleted: Response, after: Response)
    ensures deleted.Ok? <==> after.Ok?
    ensures deleted.Ok? ==> after == deleted
  {
    deleted := store.Delete(id);
    after := store.Get(id);
  }

  /**
   * After a successful create, a lookup of the new id returns the record
   * that was created. A failed create leaves the table as it was and makes
   * no lookup; `after` is then just `NotFound`.
   */
  method CreateThenGet(store: CourseStore, body: Body) returns (created: Response, after: Response)
    requires store.Valid()
    modifies store
    ensures store.Valid()
    ensures created.Ok? ==> after == created && |store.courses| == |old(store.courses)| + 1
    ensures !created.Ok? ==> store.courses == old(store.courses) && after == NotFound
  {
    created := store.Create(body);
    if created.Ok? {
      after := store.Get(Some(created.course.id));
    } else {
      after := NotFound;
    }
  }
}
