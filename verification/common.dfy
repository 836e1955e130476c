/** Shared vocabulary of the marketplace model: identifiers, optional values,
    the request-level error taxonomy, and a deterministic id allocator. */
module Common {

  /** Opaque document identifier (a MongoDB ObjectId in the server). */
  type Id = nat

  /** Abstract timestamp; every operation that stamps a date receives `now`. */
  type Time = int

  /** A URL returned by the blob store for an uploaded file. */
  type Url = string

  datatype Option<+T> = None | Some(value: T)

  /** Failure kinds a controller or middleware answers with. `ServerError` is the
      500 the controllers return from their catch block: a thrown exception,
      a schema validation error or a unique-index violation at save time. */
  datatype Error =
    | Unauthenticated   // 401
    | EmailNotVerified  // email-verification middleware
    | Forbidden         // 403
    | NotFound          // 404
    | BadRequest        // 400
    | ServerError       // 500

  datatype Result<+T> = Ok(value: T) | Err(error: Error)

  /** Outcome of a middleware step: continue with `next()` or answer early. */
  datatype Outcome = Pass | Fail(error: Error)

  /** JavaScript truthiness of an optional string body field: `undefined`,
      `null` and `""` are all falsy. */
  predicate Truthy(s: Option<string>)
  {
    s.Some? && |s.value| > 0
  }

  /** A number field of a request body as it arrives: text (a multipart
      form field or a JSON string), where any non-empty text, "0" included,
      is truthy, or a JSON number, where 0 is falsy. Text is taken to name
      the integer `Number(...)` reads from it, and empty text reads as 0. */
  datatype BodyNumber = Text(n: int) | EmptyText | Json(n: int)

  /** `Number(x)` of a present field. */
  function NumberOf(b: BodyNumber): int
  {
    match b
    case Text(n) => n
    case EmptyText => 0
    case Json(n) => n
  }

  /** JavaScript truthiness of an optional number field: absent, empty text
      and a JSON 0 are falsy. */
  predicate NumberTruthy(b: Option<BodyNumber>)
  {
    b.Some? && (b.value.Text? || (b.value.Json? && b.value.n != 0))
  }

  /** `x || null` for an optional string. */
  function OrNull(s: Option<string>): (r: Option<string>)
    ensures r.Some? <==> Truthy(s)
    ensures r.Some? ==> r == s
  {
    if Truthy(s) then s else None
  }

  /** The given value, or `default` when the field is absent. */
  function GetOr<T>(o: Option<T>, default: T): T
  {
    if o.Some? then o.value else default
  }

  /** ASCII lower-casing: `A`..`Z` become `a`..`z` and every other character
      stays. */
  function ToLower(s: string): (r: string)
    ensures |r| == |s|
    ensures forall i :: 0 <= i < |s| ==> r[i] == LowerChar(s[i])
  {
    seq(|s|, i requires 0 <= i < |s| => LowerChar(s[i]))
  }

  function LowerChar(c: char): char
  {
    if 'A' <= c <= 'Z' then (c as int - 'A' as int + 'a' as int) as char else c
  }

  /** A string without upper-case ASCII letters is its own lower-casing, and
      lower-casing twice is lower-casing once. */
  lemma ToLowerFixes(s: string)
    ensures (forall i :: 0 <= i < |s| ==> !('A' <= s[i] <= 'Z')) ==> ToLower(s) == s
    ensures ToLower(ToLower(s)) == ToLower(s)
  {
  }

  /** The largest element of a non-empty finite set of identifiers. */
  function MaxOf(s: set<Id>): (m: Id)
    requires s != {}
    ensures m in s
    ensures forall x :: x in s ==> x <= m
  {
    MaxExists(s);
    var m :| m in s && forall x :: x in s ==> x <= m;
    m
  }

  lemma MaxExists(s: set<Id>)
    requires s != {}
    ensures exists m :: m in s && forall x :: x in s ==> x <= m
  {
    var m := MaxWitness(s);
  }

  lemma {:induction false} MaxWitness(s: set<Id>) returns (m: Id)
    requires s != {}
    ensures m in s
    ensures forall x :: x in s ==> x <= m
    decreases |s|
  {
    var y :| y in s;
    if s == {y} {
      m := y;
    } else {
      var rest := MaxWitness(s - {y});
      m := if y <= rest then rest else y;
      forall x | x in s
        ensures x <= m
      {
        if x != y {
          assert x in s - {y};
        }
      }
    }
  }

  /** The smallest element of a non-empty finite set of identifiers. */
  function MinOf(s: set<Id>): (m: Id)
    requires s != {}
    ensures m in s
    ensures forall x :: x in s ==> m <= x
  {
    MinExists(s);
    var m :| m in s && forall x :: x in s ==> m <= x;
    m
  }

  lemma MinExists(s: set<Id>)
    requires s != {}
    ensures exists m :: m in s && forall x :: x in s ==> m <= x
  {
    var m := MinWitness(s);
  }

  lemma {:induction false} MinWitness(s: set<Id>) returns (m: Id)
    requires s != {}
    ensures m in s
    ensures forall x :: x in s ==> m <= x
    decreases |s|
  {
    var y :| y in s;
    if s == {y} {
      m := y;
    } else {
      var rest := MinWitness(s - {y});
      m := if rest <= y then rest else y;
      forall x | x in s
        ensures m <= x
      {
        if x != y {
          assert x in s - {y};
        }
      }
    }
  }

  /** An identifier that no element of `used` equals: one past the largest,
      standing in for a freshly generated ObjectId. */
  function Fresh(used: set<Id>): (r: Id)
    ensures r !in used
    ensures forall x :: x in used ==> x < r
  {
    if used == {} then 0 else MaxOf(used) + 1
  }
}
