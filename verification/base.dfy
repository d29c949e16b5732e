/**
 Shared vocabulary of the model: optional values, the ASCII lower-casing
 the account layer applies to usernames and e-mail addresses, and the
 JavaScript truthiness the route handlers test request fields with.
 */
module Base {

  /** A value that may be absent (`null` in the source). */
  datatype Option<+T> = None | Some(value: T)

  predicate IsUpper(c: char)
  {
    'A' <= c <= 'Z'
  }

  /** Lower-cases one character; only 'A'..'Z' are affected. */
  function LowerChar(c: char): char
  {
    if IsUpper(c) then (c as int + 32) as char else c
  }

  /** `s.toLowerCase()`, restricted to ASCII letters. */
  function Lower(s: string): (r: string)
    ensures |r| == |s|
    ensures forall i :: 0 <= i < |s| ==> !IsUpper(r[i])
    ensures forall i :: 0 <= i < |s| && !IsUpper(s[i]) ==> r[i] == s[i]
    ensures forall i :: 0 <= i < |s| && IsUpper(s[i]) ==> r[i] as int == s[i] as int + 32
  {
    seq(|s|, i requires 0 <= i < |s| => LowerChar(s[i]))
  }

  /** Lower-casing twice is lower-casing once. */
  lemma LowerIdempotent(s: string)
    ensures Lower(Lower(s)) == Lower(s)
  {
  }

  /** Two strings that differ only in letter case lower-case to the same string. */
  predicate SameIgnoringCase(a: string, b: string)
  {
    Lower(a) == Lower(b)
  }

  /** The same character, or the same ASCII letter in the other case. */
  predicate CaseVariants(x: char, y: char)
  {
    x == y
    || (IsUpper(x) && y as int == x as int + 32)
    || (IsUpper(y) && x as int == y as int + 32)
  }

  /**
   Strings are the same ignoring case exactly when they have the same length
   and agree position by position up to the case of a letter.
   */
  lemma SameIgnoringCaseExactly(a: string, b: string)
    ensures SameIgnoringCase(a, b) <==>
              |a| == |b| && forall i :: 0 <= i < |a| ==> CaseVariants(a[i], b[i])
  {
  }

  lemma SameIgnoringCaseIsEquivalence(a: string, b: string, c: string)
    ensures SameIgnoringCase(a, a)
    ensures SameIgnoringCase(a, b) ==> SameIgnoringCase(b, a)
    ensures SameIgnoringCase(a, b) && SameIgnoringCase(b, c) ==> SameIgnoringCase(a, c)
  {
  }

  /**
   How a route handler ends: a response sent with a status and a body, or a
   status set on the response that is never sent (the client is left waiting).
   */
  datatype Response<+B> = Send(status: nat, body: B) | Unsent(status: nat)

  /**
   A request-body field as the route handlers see it: absent, or a string.
   JavaScript's `!field` holds for an absent field and for the empty string.
   */
  predicate Truthy(field: Option<string>)
  {
    field.Some? && |field.value| > 0
  }
}
