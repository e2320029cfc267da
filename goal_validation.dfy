/** The request schemas for creating and updating a goal. */
module GoalValidation {
  import opened Schema

  const CreateGoalSchema: seq<FieldRule> := [
    FieldRule("title", Text(1, 200), false, false),
    FieldRule("description", Text(0, 1000), true, true),
    FieldRule("targetDate", CoercedDate, false, false),
    FieldRule("category", Text(0, 50), true, true),
    FieldRule("objectiveId", Uuid, true, true)
  ]

  const GoalStatuses: seq<string> := ["not_started", "in_progress", "on_track", "off_track", "completed"]

  const UpdateGoalSchema: seq<FieldRule> := [
    FieldRule("title", Text(1, 200), true, false),
    FieldRule("description", Text(0, 1000), true, true),
    FieldRule("targetDate", CoercedDate, true, false),
    FieldRule("category", Text(0, 50), true, true),
    FieldRule("objectiveId", Uuid, true, true),
    FieldRule("status", OneOf(GoalStatuses), true, false)
  ]

  /** What a create request must carry, field by field. */
  predicate CreateGoalFields(input: map<string, Value>, o: Oracles) {
    && TextOfLength(input, "title", 1, 200)
    && (AbsentOrNull(input, "description") || TextOfLength(input, "description", 0, 1000))
    && DateValue(input, "targetDate", o)
    && (AbsentOrNull(input, "category") || TextOfLength(input, "category", 0, 50))
    && (AbsentOrNull(input, "objectiveId") || UuidText(input, "objectiveId", o))
  }

  /** What an update request may carry: every field is optional; the description,
      category and objective may also be null, and so may the target date, which
      date coercion turns into the epoch. */
  predicate UpdateGoalFields(input: map<string, Value>, o: Oracles) {
    && (Absent(input, "title") || TextOfLength(input, "title", 1, 200))
    && (AbsentOrNull(input, "description") || TextOfLength(input, "description", 0, 1000))
    && (Absent(input, "targetDate") || DateValue(input, "targetDate", o))
    && (AbsentOrNull(input, "category") || TextOfLength(input, "category", 0, 50))
    && (AbsentOrNull(input, "objectiveId") || UuidText(input, "objectiveId", o))
    && (Absent(input, "status") || TextAmong(input, "status", GoalStatuses))
  }

  lemma CreateGoalSchemaMeaning(input: map<string, Value>, o: Oracles)
    ensures Accepts(CreateGoalSchema, input, o) <==> CreateGoalFields(input, o)
  {
    if CreateGoalFields(input, o) {
      forall i | 0 <= i < |CreateGoalSchema|
        ensures FieldAccepts(CreateGoalSchema[i], input, o)
      {
        assert i in {0, 1, 2, 3, 4};
      }
    }
    if Accepts(CreateGoalSchema, input, o) {
      assert FieldAccepts(CreateGoalSchema[0], input, o);
      assert FieldAccepts(CreateGoalSchema[1], input, o);
      assert FieldAccepts(CreateGoalSchema[2], input, o);
      assert FieldAccepts(CreateGoalSchema[3], input, o);
      assert FieldAccepts(CreateGoalSchema[4], input, o);
    }
  }

  lemma UpdateGoalSchemaMeaning(input: map<string, Value>, o: Oracles)
    ensures Accepts(UpdateGoalSchema, input, o) <==> UpdateGoalFields(input, o)
  {
    if UpdateGoalFields(input, o) {
      forall i | 0 <= i < |UpdateGoalSchema|
        ensures FieldAccepts(UpdateGoalSchema[i], input, o)
      {
        assert i in {0, 1, 2, 3, 4, 5};
      }
    }
    if Accepts(UpdateGoalSchema, input, o) {
      assert FieldAccepts(UpdateGoalSchema[0], input, o);
      assert FieldAccepts(UpdateGoalSchema[1], input, o);
      assert FieldAccepts(UpdateGoalSchema[2], input, o);
      assert FieldAccepts(UpdateGoalSchema[3], input, o);
      assert FieldAccepts(UpdateGoalSchema[4], input, o);
      assert FieldAccepts(UpdateGoalSchema[5], input, o);
    }
  }

  const TargetDate := JStr("2025-12-31")

  function TitleAndDate(title: string): map<string, Value> {
    map["title" := JStr(title), "targetDate" := TargetDate]
  }

  /** Requests with a title and a target date that parses are accepted, with or without
      a description and category; a null description is accepted too. */
  lemma CreateGoalAccepted(o: Oracles)
    requires o.parsesAsDate(TargetDate)
    ensures Accepts(CreateGoalSchema, TitleAndDate("Run a marathon"), o)
    ensures Accepts(CreateGoalSchema, TitleAndDate("Run a marathon")[
      "description" := JStr("Complete my first full marathon")]["category" := JStr("Health")], o)
    ensures Accepts(CreateGoalSchema, TitleAndDate("Valid Title")["description" := JNull], o)
  {
    CreateGoalSchemaMeaning(TitleAndDate("Run a marathon"), o);
    CreateGoalSchemaMeaning(TitleAndDate("Run a marathon")[
      "description" := JStr("Complete my first full marathon")]["category" := JStr("Health")], o);
    CreateGoalSchemaMeaning(TitleAndDate("Valid Title")["description" := JNull], o);
  }

  /** An empty or over-long title, an over-long description or category, a target date
      that does not parse, or a missing target date gets a create request rejected. */
  lemma CreateGoalRejected(o: Oracles)
    requires !o.parsesAsDate(JStr("not-a-date"))
    ensures !Accepts(CreateGoalSchema, TitleAndDate(""), o)
    ensures !Accepts(CreateGoalSchema, TitleAndDate(Repeat('a', 201)), o)
    ensures !Accepts(CreateGoalSchema, TitleAndDate("Valid Title")["description" := JStr(Repeat('a', 1001))], o)
    ensures !Accepts(CreateGoalSchema, TitleAndDate("Valid Title")["category" := JStr(Repeat('a', 51))], o)
    ensures !Accepts(CreateGoalSchema, TitleAndDate("Valid Title")["targetDate" := JStr("not-a-date")], o)
    ensures !Accepts(CreateGoalSchema, map["title" := JStr("Valid Title")], o)
  {
    assert !FieldAccepts(CreateGoalSchema[0], TitleAndDate(""), o);
    assert !FieldAccepts(CreateGoalSchema[0], TitleAndDate(Repeat('a', 201)), o);
    assert !FieldAccepts(CreateGoalSchema[1], TitleAndDate("Valid Title")["description" := JStr(Repeat('a', 1001))], o);
    assert !FieldAccepts(CreateGoalSchema[3], TitleAndDate("Valid Title")["category" := JStr(Repeat('a', 51))], o);
    assert !FieldAccepts(CreateGoalSchema[2], TitleAndDate("Valid Title")["targetDate" := JStr("not-a-date")], o);
    assert !FieldAccepts(CreateGoalSchema[2], map["title" := JStr("Valid Title")], o);
  }

  /** A required coerced date accepts `null`, since `new Date(null)` is the epoch. */
  lemma NullTargetDateIsEpoch(o: Oracles)
    ensures Accepts(CreateGoalSchema, map["title" := JStr("Valid Title"), "targetDate" := JNull], o)
  {
    CreateGoalSchemaMeaning(map["title" := JStr("Valid Title"), "targetDate" := JNull], o);
  }

  /** The update schema accepts partial and empty updates and exactly the five goal
      statuses; "at_risk", which the progress engine computes, is not one of them. */
  lemma UpdateGoalExamples(status: string, o: Oracles)
    ensures Accepts(UpdateGoalSchema, map["title" := JStr("Updated Title")], o)
    ensures Accepts(UpdateGoalSchema, map[], o)
    ensures Accepts(UpdateGoalSchema, map["status" := JStr(status)], o) <==> status in GoalStatuses
    ensures !Accepts(UpdateGoalSchema, map["status" := JStr("invalid_status")], o)
    ensures !Accepts(UpdateGoalSchema, map["status" := JStr("at_risk")], o)
    ensures !Accepts(UpdateGoalSchema, map["title" := JNull], o)
  {
    UpdateGoalSchemaMeaning(map["title" := JStr("Updated Title")], o);
    UpdateGoalSchemaMeaning(map[], o);
    UpdateGoalSchemaMeaning(map["status" := JStr(status)], o);
    UpdateGoalSchemaMeaning(map["status" := JStr("invalid_status")], o);
    UpdateGoalSchemaMeaning(map["status" := JStr("at_risk")], o);
    UpdateGoalSchemaMeaning(map["title" := JNull], o);
  }

  /** A valid create request that carries no status is also a valid update. */
  lemma CreateIsUpdate(input: map<string, Value>, o: Oracles)
    requires Accepts(CreateGoalSchema, input, o)
    requires "status" !in input
    ensures Accepts(UpdateGoalSchema, input, o)
  {
    CreateGoalSchemaMeaning(input, o);
    UpdateGoalSchemaMeaning(input, o);
  }
}
