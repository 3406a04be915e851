/**
 * The single rule that both the create handler (index.js:66-70) and the
 * update handler (through `validateCourse`, index.js:131-138) apply to a
 * request body: `name` is a required string at least three UTF-16 code units long.
 */
module Validation {
  import opened Wrappers

  /** The kind of JSON value found under a body member; only text carries content the rule inspects. */
  datatype Value = Text(s: string) | Number | Boolean | Null | Composite

  /**
   * A parsed request body: a JSON object, of which only its `name` member
   * matters, or any other JSON value (an array, say).
   */
  datatype Body = Object(name: Option<Value>) | NotAnObject

  /** Which constraint of the schema a body breaks; the library's message text is abstracted away. */
  datatype ValidationError = BodyNotObject | NameRequired | NameNotString | NameTooShort

  /** The schema's `min(3)`. */
  const MinNameLength: nat := 3

  /**
   * The length JavaScript reports for a string: the number of UTF-16 code
   * units, where a character beyond U+FFFF takes two (a surrogate pair).
   */
  function Utf16Length(s: string): (r: nat)
    ensures |s| <= r <= 2 * |s|
    ensures (forall i :: 0 <= i < |s| ==> s[i] as int <= 0xFFFF) ==> r == |s|
  {
    if |s| == 0 then 0
    else (if s[0] as int > 0xFFFF then 2 else 1) + Utf16Length(s[1..])
  }

  /** The schema as one statement: a body is acceptable exactly when all three constraints hold. */
  predicate Acceptable(b: Body)
  {
    b.Object? && b.name.Some? && b.name.value.Text? && Utf16Length(b.name.value.s) >= MinNameLength
  }

  /** Whether body `b` breaks the constraint that `e` reports. */
  predicate Breaks(b: Body, e: ValidationError)
  {
    match e
    case BodyNotObject => b.NotAnObject?
    case NameRequired => b.Object? && b.name.None?
    case NameNotString => b.Object? && b.name.Some? && !b.name.value.Text?
    case NameTooShort =>
      b.Object? && b.name.Some? && b.name.value.Text? && Utf16Length(b.name.value.s) < MinNameLength
  }

  /**
   * Checks body `b` against the schema, constraint by constraint, and yields
   * the name to store or the constraint that failed.
   */
  function Validate(b: Body): (r: Result<string, ValidationError>)
    ensures r.Success? <==> Acceptable(b)
    ensures r.Success? ==> b.name == Some(Text(r.value)) && Utf16Length(r.value) >= MinNameLength
    ensures r.Failure? ==> Breaks(b, r.error)
  {
    match b
    case NotAnObject => Failure(BodyNotObject)
    case Object(None) => Failure(NameRequired)
    case Object(Some(v)) =>
      if !v.Text? then Failure(NameNotString)
      else if Utf16Length(v.s) < MinNameLength then Failure(NameTooShort)
      else Success(v.s)
  }

  /** A body breaks at most one constraint, so the error Validate reports is the only one that applies. */
  lemma RejectionIsDetermined(b: Body, e: ValidationError)
    requires Breaks(b, e)
    ensures Validate(b) == Failure(e)
  {
  }

  /**
   * Two characters beyond U+FFFF are four UTF-16 code units, so a name made
   * of them meets `min(3)` and is accepted.
   */
  lemma AstralPairIsLongEnough()
    ensures Validate(Object(Some(Text("\U{1F600}\U{1F600}")))) == Success("\U{1F600}\U{1F600}")
  {
    var s := "\U{1F600}\U{1F600}";
    assert s[1..][1..] == [];
  }
}
