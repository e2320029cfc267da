/** The request schema for a weekly check-in. */
module CheckInValidation {
  import opened Schema

  const CreateCheckInSchema: seq<FieldRule> := [
    FieldRule("weekStartDate", CoercedDate, false, false),
    FieldRule("accomplishments", Text(1, 5000), false, false),
    FieldRule("challenges", Text(1, 5000), false, false),
    FieldRule("nextWeekPriorities", Text(1, 5000), false, false),
    FieldRule("needsAdjustment", Boolean, false, false)
  ]

  /** Every field is required: a date, three texts of 1 to 5000 characters and a
      boolean. */
  predicate CreateCheckInFields(input: map<string, Value>, o: Oracles) {
    && DateValue(input, "weekStartDate", o)
    && TextOfLength(input, "accomplishments", 1, 5000)
    && TextOfLength(input, "challenges", 1, 5000)
    && TextOfLength(input, "nextWeekPriorities", 1, 5000)
    && BooleanValue(input, "needsAdjustment")
  }

  lemma CreateCheckInSchemaMeaning(input: map<string, Value>, o: Oracles)
    ensures Accepts(CreateCheckInSchema, input, o) <==> CreateCheckInFields(input, o)
  {
    if CreateCheckInFields(input, o) {
      forall i | 0 <= i < |CreateCheckInSchema|
        ensures FieldAccepts(CreateCheckInSchema[i], input, o)
      {
        assert i in {0, 1, 2, 3, 4};
      }
    }
    if Accepts(CreateCheckInSchema, input, o) {
      assert FieldAccepts(CreateCheckInSchema[0], input, o);
      assert FieldAccepts(CreateCheckInSchema[1], input, o);
      assert FieldAccepts(CreateCheckInSchema[2], input, o);
      assert FieldAccepts(CreateCheckInSchema[3], input, o);
      assert FieldAccepts(CreateCheckInSchema[4], input, o);
    }
  }

  /** A complete check-in, with the week start given as a parseable date string. */
  function CheckIn(week: Value, text: string, adjust: Value): map<string, Value> {
    map["weekStartDate" := week, "accomplishments" := JStr(text), "challenges" := JStr(text),
        "nextWeekPriorities" := JStr(text), "needsAdjustment" := adjust]
  }

  /** A check-in with every field is accepted, up to 5000 characters of text. */
  lemma CheckInAccepted(o: Oracles)
    requires o.parsesAsDate(JStr("2025-01-05"))
    ensures Accepts(CreateCheckInSchema, CheckIn(JStr("2025-01-05"), "Ran 20 miles", JBool(false)), o)
    ensures Accepts(CreateCheckInSchema, CheckIn(JStr("2025-01-05"), Repeat('a', 5000), JBool(true)), o)
  {
    CreateCheckInSchemaMeaning(CheckIn(JStr("2025-01-05"), "Ran 20 miles", JBool(false)), o);
    CreateCheckInSchemaMeaning(CheckIn(JStr("2025-01-05"), Repeat('a', 5000), JBool(true)), o);
  }

  /** Leaving out the adjustment flag or the week start, sending the flag as null, or
      sending an empty or a 5001-character text gets a check-in rejected. */
  lemma CheckInRejected(o: Oracles)
    ensures !Accepts(CreateCheckInSchema, CheckIn(JStr("2025-01-05"), "Ran 20 miles", JBool(false)) - {"needsAdjustment"}, o)
    ensures !Accepts(CreateCheckInSchema, CheckIn(JStr("2025-01-05"), "Ran 20 miles", JNull), o)
    ensures !Accepts(CreateCheckInSchema, CheckIn(JStr("2025-01-05"), "", JBool(false)), o)
    ensures !Accepts(CreateCheckInSchema, CheckIn(JStr("2025-01-05"), Repeat('a', 5001), JBool(false)), o)
    ensures !Accepts(CreateCheckInSchema, CheckIn(JStr("2025-01-05"), "Ran 20 miles", JBool(false)) - {"weekStartDate"}, o)
  {
    CreateCheckInSchemaMeaning(CheckIn(JStr("2025-01-05"), "Ran 20 miles", JBool(false)) - {"needsAdjustment"}, o);
    CreateCheckInSchemaMeaning(CheckIn(JStr("2025-01-05"), "Ran 20 miles", JNull), o);
    CreateCheckInSchemaMeaning(CheckIn(JStr("2025-01-05"), "", JBool(false)), o);
    CreateCheckInSchemaMeaning(CheckIn(JStr("2025-01-05"), Repeat('a', 5001), JBool(false)), o);
    CreateCheckInSchemaMeaning(CheckIn(JStr("2025-01-05"), "Ran 20 miles", JBool(false)) - {"weekStartDate"}, o);
  }

  /** A week start given as a number of milliseconds is accepted exactly when it lies in
      the range of a JavaScript `Date`. */
  lemma NumericWeekStart(ms: real, o: Oracles)
    ensures Accepts(CreateCheckInSchema, CheckIn(JNum(ms), "Ran 20 miles", JBool(false)), o)
      <==> -MaxTimeValue <= ms <= MaxTimeValue
  {
    CreateCheckInSchemaMeaning(CheckIn(JNum(ms), "Ran 20 miles", JBool(false)), o);
  }
}
