/**
 * The part of zod that the validation schemas use, as a small interpreter: an object
 * schema is a list of field rules, and input is a JSON-like object in which a missing
 * key stands for `undefined`. Unknown keys are ignored, as zod's default object
 * parsing strips them. Whether a string is a UUID and whether a string (or array or
 * object) parses as a date are left to the caller as oracles.
 */
module Schema {

  /** A JSON-like input value. */
  datatype Value =
    | JNull
    | JBool(b: bool)
    | JNum(n: real)
    | JStr(s: string)
    | JList(items: seq<Value>)
    | JObject(fields: map<string, Value>)

  /** The checks the schemas apply to a present, non-null (or non-nullable) value. */
  datatype Check =
    | Text(minLen: nat, maxLen: nat)   // z.string().min(minLen).max(maxLen)
    | Uuid                             // z.string().uuid()
    | CoercedDate                      // z.coerce.date()
    | Integer(lo: int, hi: int)        // z.number().int().min(lo).max(hi)
    | OneOf(options: seq<string>)      // z.enum(options)
    | Boolean                          // z.boolean()

  /** One key of an object schema, with its `.optional()` and `.nullable()` modifiers. */
  datatype FieldRule = FieldRule(key: string, check: Check, optional: bool, nullable: bool)

  /** The oracles the model does not open up: zod's UUID pattern, and JavaScript's
      `Date` parsing of strings, arrays and objects. */
  datatype Oracles = Oracles(isUuid: string -> bool, parsesAsDate: Value -> bool)

  /** Largest absolute millisecond count a JavaScript `Date` can hold. */
  const MaxTimeValue: real := 8_640_000_000_000_000.0

  /** Whether `new Date(v)` is a valid date: `null` is the epoch and booleans are 0 or 1 ms;
      a number must lie within the `Date` range; other values are parsed. */
  predicate CoercesToDate(v: Value, o: Oracles) {
    match v
    case JNull => true
    case JBool(_) => true
    case JNum(n) => -MaxTimeValue <= n <= MaxTimeValue
    case _ => o.parsesAsDate(v)
  }

  predicate IsInteger(n: real) {
    n.Floor as real == n
  }

  predicate CheckHolds(c: Check, v: Value, o: Oracles) {
    match c
    case Text(lo, hi) => v.JStr? && lo <= |v.s| <= hi
    case Uuid => v.JStr? && o.isUuid(v.s)
    case CoercedDate => CoercesToDate(v, o)
    case Integer(lo, hi) => v.JNum? && IsInteger(v.n) && lo as real <= v.n <= hi as real
    case OneOf(options) => v.JStr? && v.s in options
    case Boolean => v.JBool?
  }

  /** A missing key passes only an optional field (for a required coerced date,
      `new Date(undefined)` is invalid); `null` passes a nullable field; anything else
      must pass the field's check. */
  predicate FieldAccepts(f: FieldRule, input: map<string, Value>, o: Oracles) {
    if f.key !in input then f.optional
    else if input[f.key] == JNull && f.nullable then true
    else CheckHolds(f.check, input[f.key], o)
  }

  /** `schema.safeParse(input).success`. */
  predicate Accepts(schema: seq<FieldRule>, input: map<string, Value>, o: Oracles) {
    forall i :: 0 <= i < |schema| ==> FieldAccepts(schema[i], input, o)
  }

  // Readings of single fields, used to state what each schema accepts.

  predicate Absent(input: map<string, Value>, key: string) {
    key !in input
  }

  predicate AbsentOrNull(input: map<string, Value>, key: string) {
    key !in input || input[key] == JNull
  }

  predicate TextOfLength(input: map<string, Value>, key: string, lo: nat, hi: nat) {
    key in input && input[key].JStr? && lo <= |input[key].s| <= hi
  }

  predicate UuidText(input: map<string, Value>, key: string, o: Oracles) {
    key in input && input[key].JStr? && o.isUuid(input[key].s)
  }

  predicate DateValue(input: map<string, Value>, key: string, o: Oracles) {
    key in input && CoercesToDate(input[key], o)
  }

  predicate IntegerIn(input: map<string, Value>, key: string, lo: int, hi: int) {
    key in input && input[key].JNum? && IsInteger(input[key].n) && lo as real <= input[key].n <= hi as real
  }

  predicate TextAmong(input: map<string, Value>, key: string, options: seq<string>) {
    key in input && input[key].JStr? && input[key].s in options
  }

  predicate BooleanValue(input: map<string, Value>, key: string) {
    key in input && input[key].JBool?
  }

  /** `c.repeat(n)` for a one-character string `c`. */
  function Repeat(c: char, n: nat): (s: string)
    ensures |s| == n
    ensures forall i :: 0 <= i < n ==> s[i] == c
  {
    if n == 0 then "" else Repeat(c, n - 1) + [c]
  }

  /** A rule accepts exactly what its modifiers and check allow, read field by field. */
  lemma FieldAcceptsIff(f: FieldRule, input: map<string, Value>, o: Oracles)
    ensures FieldAccepts(f, input, o) <==>
      (f.optional && Absent(input, f.key))
      || (f.nullable && f.key in input && input[f.key] == JNull)
      || (f.key in input && CheckHolds(f.check, input[f.key], o))
  {
  }

  /** Any list of rules that are all optional accepts the empty object. */
  lemma AllOptionalAcceptsEmpty(schema: seq<FieldRule>, o: Oracles)
    requires forall i :: 0 <= i < |schema| ==> schema[i].optional
    ensures Accepts(schema, map[], o)
  {
  }
}
