/**
 * The request shape the validation schemas are checked against, and the
 * field constraints they are built from. A field missing from a map is
 * `undefined`; any JSON value other than a string (a number, `null`, an
 * array, an object) is `NotString`.
 */
module Schema {
  import opened Common
  import opened Strings

  datatype Value = Str(s: string) | NotString

  type Fields = map<string, Value>

  /** `{ body: req.body, query: req.query, params: req.params }`. */
  datatype Request = Request(body: Fields, query: Fields, params: Fields)

  /** A string length bound: `.min(lo)` and, when given, `.max(hi)`. */
  predicate LengthWithin(s: string, lo: nat, hi: Option<nat>) {
    lo <= |s| && (hi.Some? ==> |s| <= hi.value)
  }

  /** `z.string().min(lo).max(hi)`: present, a string, and of bounded length. */
  predicate RequiredString(f: Fields, key: string, lo: nat, hi: Option<nat>) {
    key in f && f[key].Str? && LengthWithin(f[key].s, lo, hi)
  }

  /** The same constraint followed by `.optional()`. */
  predicate OptionalString(f: Fields, key: string, lo: nat, hi: Option<nat>) {
    key !in f || (f[key].Str? && LengthWithin(f[key].s, lo, hi))
  }

  /** `z.enum([...]).optional()`. */
  predicate OptionalOneOf(f: Fields, key: string, allowed: set<string>) {
    key !in f || (f[key].Str? && f[key].s in allowed)
  }

  /** `z.string().regex(/^\d+$/).optional()`: one or more ASCII digits. */
  predicate OptionalDigits(f: Fields, key: string) {
    key !in f || (f[key].Str? && AllDigits(f[key].s))
  }

  predicate AllDigits(s: string) {
    |s| > 0 && forall i | 0 <= i < |s| :: IsDigit(s[i])
  }

  predicate IsHex(c: char) {
    IsDigit(c) || 'a' <= c <= 'f' || 'A' <= c <= 'F'
  }

  /** The 8-4-4-4-12 hexadecimal shape of a UUID, in either letter case. */
  predicate IsUuid(s: string) {
    && |s| == 36
    && (forall i | 0 <= i < 36 :: if i in {8, 13, 18, 23} then s[i] == '-' else IsHex(s[i]))
  }

  /** `params: z.object({ id: z.string().uuid(...) })`. */
  predicate HasUuidId(req: Request) {
    "id" in req.params && req.params["id"].Str? && IsUuid(req.params["id"].s)
  }

  function DigitValue(c: char): (d: nat)
    requires IsDigit(c)
    ensures d < 10
  {
    (c as int - '0' as int) as nat
  }

  /** `parseInt` of a string of decimal digits. */
  function DecimalValue(s: string): nat
    requires forall i | 0 <= i < |s| :: IsDigit(s[i])
    decreases |s|
  {
    if s == [] then 0 else DecimalValue(s[..|s| - 1]) * 10 + DigitValue(s[|s| - 1])
  }

  /** Parsing what `Decimal` prints gives the number back. */
  lemma {:induction false} DecimalRoundTrip(n: nat)
    ensures DecimalValue(Decimal(n)) == n
    decreases n
  {
    var r := Decimal(n);
    if n < 10 {
      assert r[..|r| - 1] == [];
    } else {
      DecimalRoundTrip(n / 10);
      assert r[..|r| - 1] == Decimal(n / 10);
    }
  }
}
