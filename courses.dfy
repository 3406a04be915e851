/**
 * The course table as a value: its records, the searches the handlers run
 * over it (`find`, `indexOf`, `slice`), its seed, and the invariant that
 * ties each record's id to its position.
 */
module Courses {
  import opened Wrappers

  /** One record of the table (index.js:13-20). */
  datatype Course = Course(id: int, name: string)

  /** The six records the table holds when the process starts (index.js:13-20). */
  const Seed: seq<Course> := [
    Course(1, "Math"),
    Course(2, "Science"),
    Course(3, "English"),
    Course(4, "History"),
    Course(5, "Spanish"),
    Course(6, "Spanish")
  ]

  /** Position `i` holds the first record whose id is `k`. */
  predicate FirstWithId(s: seq<Course>, k: int, i: int)
  {
    0 <= i < |s| && s[i].id == k && forall j :: 0 <= j < i ==> s[j].id != k
  }

  /** Some record of `s` has id `k`. */
  predicate HasId(s: seq<Course>, k: int)
  {
    exists i :: 0 <= i < |s| && s[i].id == k
  }

  /**
   * The handlers' `courses.find(c => c.id === parseInt(param))`, as the
   * position of the hit. A path id that does not parse (`None`, JavaScript's
   * NaN) equals no id, so the search then finds nothing.
   */
  function FindIndex(s: seq<Course>, id: Option<int>): (r: Option<nat>)
    ensures r.Some? <==> id.Some? && HasId(s, id.value)
    ensures r.Some? ==> FirstWithId(s, id.value, r.value)
  {
    if id.None? || |s| == 0 then None
    else if s[0].id == id.value then Some(0)
    else match FindIndex(s[1..], id)
      case None => None
      case Some(i) => Some(i + 1)
  }

  /**
   * `courses.indexOf(course)` (index.js:125): the first position holding a
   * record equal to `c`, or -1 when there is none.
   */
  function IndexOf(s: seq<Course>, c: Course): (r: int)
    ensures -1 <= r < |s|
    ensures r == -1 <==> c !in s
    ensures r >= 0 ==> s[r] == c && forall j :: 0 <= j < r ==> s[j] != c
  {
    if |s| == 0 then -1
    else if s[0] == c then 0
    else
      var i := IndexOf(s[1..], c);
      if i == -1 then -1 else i + 1
  }

  /** How `Array.prototype.slice` turns an argument into a position of a list of length `len`. */
  function RelativeIndex(k: int, len: nat): (r: nat)
    ensures r <= len
    ensures 0 <= k <= len ==> r == k
  {
    if k < 0 then (if len + k < 0 then 0 else len + k)
    else if k < len then k
    else len
  }

  /**
   * `s.slice(start, end)`: a fresh list of the elements from position
   * `start` up to, not including, `end`; `s` itself is not changed.
   */
  function Slice<T>(s: seq<T>, start: int, end: int): (r: seq<T>)
    ensures RelativeIndex(start, |s|) + |r| <= |s|
    ensures forall k :: 0 <= k < |r| ==> r[k] == s[RelativeIndex(start, |s|) + k]
    ensures RelativeIndex(start, |s|) < RelativeIndex(end, |s|) ==>
              |r| == RelativeIndex(end, |s|) - RelativeIndex(start, |s|)
    ensures RelativeIndex(end, |s|) <= RelativeIndex(start, |s|) ==> r == []
  {
    var from, to := RelativeIndex(start, |s|), RelativeIndex(end, |s|);
    if from < to then s[from..to] else []
  }

  /**
   * The delete handler's `courses.slice(index, 1)`: for any position past
   * the first it is empty, and at the first it is a copy of the head.
   */
  lemma DeleteSliceIsAtMostHead<T>(s: seq<T>, index: nat)
    ensures Slice(s, index, 1) == if index == 0 && |s| > 0 then [s[0]] else []
  {
  }

  /** The table's invariant: the record at position `i` has id `i + 1`. */
  predicate IdsMatchPositions(s: seq<Course>)
  {
    forall i :: 0 <= i < |s| ==> s[i].id == i + 1
  }

  /** The seed satisfies the invariant: ids 1 to 6 at positions 0 to 5. */
  lemma SeedIdsMatchPositions()
    ensures IdsMatchPositions(Seed)
  {
  }

  /** Under the invariant no two records share an id. */
  lemma IdsAreUnique(s: seq<Course>, i: nat, j: nat)
    requires IdsMatchPositions(s)
    requires i < |s| && j < |s| && s[i].id == s[j].id
    ensures i == j
  {
  }

  /**
   * Under the invariant a lookup of id `k` hits position `k - 1` exactly when
   * `1 <= k <= |s|`, and finds nothing otherwise.
   */
  lemma FindByPosition(s: seq<Course>, k: int)
    requires IdsMatchPositions(s)
    ensures FindIndex(s, Some(k)) == if 1 <= k <= |s| then Some(k - 1) else None
  {
    if 1 <= k <= |s| {
      assert s[k - 1].id == k;
    }
  }

  /**
   * The position the delete handler computes with `indexOf` is the one
   * `find` hit: an earlier equal record would have had the same id.
   */
  lemma IndexOfFound(s: seq<Course>, id: Option<int>)
    requires FindIndex(s, id).Some?
    ensures IndexOf(s, s[FindIndex(s, id).value]) == FindIndex(s, id).value
  {
  }

  /**
   * Appending with id `|s| + 1`, as the create handler does, keeps the
   * invariant, and that id is larger than every id already present.
   */
  lemma AppendKeepsIds(s: seq<Course>, name: string)
    requires IdsMatchPositions(s)
    ensures IdsMatchPositions(s + [Course(|s| + 1, name)])
    ensures forall c :: c in s ==> c.id < |s| + 1
  {
  }

  /** Renaming a record, as the update handler does, keeps the invariant. */
  lemma RenameKeepsIds(s: seq<Course>, i: nat, name: string)
    requires IdsMatchPositions(s) && i < |s|
    ensures IdsMatchPositions(s[i := s[i].(name := name)])
  {
  }
}
