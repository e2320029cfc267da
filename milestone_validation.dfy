/** The request schemas for creating and updating a milestone. */
module MilestoneValidation {
  import opened Schema

  const CreateMilestoneSchema: seq<FieldRule> := [
    FieldRule("goalId", Uuid, false, false),
    FieldRule("title", Text(1, 200), false, false),
    FieldRule("description", Text(0, 1000), true, true),
    FieldRule("dueDate", CoercedDate, false, false),
    FieldRule("type", OneOf(["quarterly", "monthly"]), false, false),
    FieldRule("quarter", Integer(1, 4), true, true),
    FieldRule("month", Integer(1, 12), true, true)
  ]

  const MilestoneStatuses: seq<string> := ["not_started", "in_progress", "completed", "off_track"]

  const UpdateMilestoneSchema: seq<FieldRule> := [
    FieldRule("title", Text(1, 200), true, false),
    FieldRule("description", Text(0, 1000), true, true),
    FieldRule("dueDate", CoercedDate, true, false),
    FieldRule("status", OneOf(MilestoneStatuses), true, false),
    FieldRule("quarter", Integer(1, 4), true, true),
    FieldRule("month", Integer(1, 12), true, true)
  ]

  /** What a create request must carry, field by field. */
  predicate CreateMilestoneFields(input: map<string, Value>, o: Oracles) {
    && UuidText(input, "goalId", o)
    && TextOfLength(input, "title", 1, 200)
    && (AbsentOrNull(input, "description") || TextOfLength(input, "description", 0, 1000))
    && DateValue(input, "dueDate", o)
    && TextAmong(input, "type", ["quarterly", "monthly"])
    && (AbsentOrNull(input, "quarter") || IntegerIn(input, "quarter", 1, 4))
    && (AbsentOrNull(input, "month") || IntegerIn(input, "month", 1, 12))
  }

  /** What an update request may carry: every field is optional; the description,
      quarter and month may be null, and so may the due date, which date coercion
      turns into the epoch; the title and status may not. */
  predicate UpdateMilestoneFields(input: map<string, Value>, o: Oracles) {
    && (Absent(input, "title") || TextOfLength(input, "title", 1, 200))
    && (AbsentOrNull(input, "description") || TextOfLength(input, "description", 0, 1000))
    && (Absent(input, "dueDate") || DateValue(input, "dueDate", o))
    && (Absent(input, "status") || TextAmong(input, "status", MilestoneStatuses))
    && (AbsentOrNull(input, "quarter") || IntegerIn(input, "quarter", 1, 4))
    && (AbsentOrNull(input, "month") || IntegerIn(input, "month", 1, 12))
  }

  lemma CreateMilestoneSchemaMeaning(input: map<string, Value>, o: Oracles)
    ensures Accepts(CreateMilestoneSchema, input, o) <==> CreateMilestoneFields(input, o)
  {
    if CreateMilestoneFields(input, o) {
      forall i | 0 <= i < |CreateMilestoneSchema|
        ensures FieldAccepts(CreateMilestoneSchema[i], input, o)
      {
        assert i in {0, 1, 2, 3, 4, 5, 6};
      }
    }
    if Accepts(CreateMilestoneSchema, input, o) {
      assert FieldAccepts(CreateMilestoneSchema[0], input, o);
      assert FieldAccepts(CreateMilestoneSchema[1], input, o);
      assert FieldAccepts(CreateMilestoneSchema[2], input, o);
      assert FieldAccepts(CreateMilestoneSchema[3], input, o);
      assert FieldAccepts(CreateMilestoneSchema[4], input, o);
      assert FieldAccepts(CreateMilestoneSchema[5], input, o);
      assert FieldAccepts(CreateMilestoneSchema[6], input, o);
    }
  }

  lemma UpdateMilestoneSchemaMeaning(input: map<string, Value>, o: Oracles)
    ensures Accepts(UpdateMilestoneSchema, input, o) <==> UpdateMilestoneFields(input, o)
  {
    if UpdateMilestoneFields(input, o) {
      forall i | 0 <= i < |UpdateMilestoneSchema|
        ensures FieldAccepts(UpdateMilestoneSchema[i], input, o)
      {
        assert i in {0, 1, 2, 3, 4, 5};
      }
    }
    if Accepts(UpdateMilestoneSchema, input, o) {
      assert FieldAccepts(UpdateMilestoneSchema[0], input, o);
      assert FieldAccepts(UpdateMilestoneSchema[1], input, o);
      assert FieldAccepts(UpdateMilestoneSchema[2], input, o);
      assert FieldAccepts(UpdateMilestoneSchema[3], input, o);
      assert FieldAccepts(UpdateMilestoneSchema[4], input, o);
      assert FieldAccepts(UpdateMilestoneSchema[5], input, o);
    }
  }

  const GoalId := "123e4567-e89b-12d3-a456-426614174000"
  const DueDate := JStr("2025-03-31")

  /** The smallest create request: the required fields only. */
  function RequiredOnly(kind: string): map<string, Value> {
    map["goalId" := JStr(GoalId), "title" := JStr("Test"), "dueDate" := DueDate, "type" := JStr(kind)]
  }

  const FullRequest: map<string, Value> := map[
    "goalId" := JStr(GoalId), "title" := JStr("Complete training plan"),
    "description" := JStr("Finish the 12-week training program"),
    "dueDate" := DueDate, "type" := JStr("quarterly"), "quarter" := JNum(1.0)]

  /** A full request and a request with only the required fields are accepted, given
      that the goal id is a UUID and the due date parses. */
  lemma CreateMilestoneAccepted(o: Oracles)
    requires o.isUuid(GoalId) && o.parsesAsDate(DueDate)
    ensures Accepts(CreateMilestoneSchema, FullRequest, o)
    ensures Accepts(CreateMilestoneSchema, RequiredOnly("quarterly"), o)
  {
    CreateMilestoneSchemaMeaning(FullRequest, o);
    CreateMilestoneSchemaMeaning(RequiredOnly("quarterly"), o);
  }

  /** Changing one field of an accepted request to a bad value gets it rejected. */
  lemma CreateMilestoneRejected(o: Oracles)
    requires !o.isUuid("invalid-uuid")
    ensures !Accepts(CreateMilestoneSchema, RequiredOnly("quarterly")["goalId" := JStr("invalid-uuid")], o)
    ensures !Accepts(CreateMilestoneSchema, RequiredOnly("quarterly")["title" := JStr("")], o)
    ensures !Accepts(CreateMilestoneSchema, RequiredOnly("quarterly")["title" := JStr(Repeat('a', 201))], o)
    ensures !Accepts(CreateMilestoneSchema, RequiredOnly("invalid"), o)
    ensures !Accepts(CreateMilestoneSchema, RequiredOnly("quarterly")["quarter" := JNum(2.5)], o)
    ensures !Accepts(CreateMilestoneSchema, RequiredOnly("quarterly") - {"dueDate"}, o)
  {
    assert !FieldAccepts(CreateMilestoneSchema[0], RequiredOnly("quarterly")["goalId" := JStr("invalid-uuid")], o);
    assert !FieldAccepts(CreateMilestoneSchema[1], RequiredOnly("quarterly")["title" := JStr("")], o);
    assert !FieldAccepts(CreateMilestoneSchema[1], RequiredOnly("quarterly")["title" := JStr(Repeat('a', 201))], o);
    assert !FieldAccepts(CreateMilestoneSchema[4], RequiredOnly("invalid"), o);
    assert !FieldAccepts(CreateMilestoneSchema[5], RequiredOnly("quarterly")["quarter" := JNum(2.5)], o);
    assert !FieldAccepts(CreateMilestoneSchema[3], RequiredOnly("quarterly") - {"dueDate"}, o);
  }

  /** Exactly the whole numbers 1 to 4 are accepted as a quarter, and 1 to 12 as a month. */
  lemma QuarterAndMonthRanges(n: int, o: Oracles)
    requires o.isUuid(GoalId) && o.parsesAsDate(DueDate)
    ensures Accepts(CreateMilestoneSchema, RequiredOnly("quarterly")["quarter" := JNum(n as real)], o) <==> 1 <= n <= 4
    ensures Accepts(CreateMilestoneSchema, RequiredOnly("monthly")["month" := JNum(n as real)], o) <==> 1 <= n <= 12
  {
    CreateMilestoneSchemaMeaning(RequiredOnly("quarterly")["quarter" := JNum(n as real)], o);
    CreateMilestoneSchemaMeaning(RequiredOnly("monthly")["month" := JNum(n as real)], o);
  }

  /** The update schema accepts partial and empty updates and exactly the four
      milestone statuses; a title may be left out but not set to null, while a null due
      date passes because `new Date(null)` is the epoch. */
  lemma UpdateMilestoneExamples(status: string, o: Oracles)
    ensures Accepts(UpdateMilestoneSchema, map["title" := JStr("Updated Title")], o)
    ensures Accepts(UpdateMilestoneSchema, map[], o)
    ensures Accepts(UpdateMilestoneSchema, map["status" := JStr(status)], o) <==> status in MilestoneStatuses
    ensures !Accepts(UpdateMilestoneSchema, map["status" := JStr("invalid_status")], o)
    ensures !Accepts(UpdateMilestoneSchema, map["status" := JStr("on_track")], o)
    ensures !Accepts(UpdateMilestoneSchema, map["title" := JNull], o)
    ensures Accepts(UpdateMilestoneSchema, map["dueDate" := JNull], o)
  {
    UpdateMilestoneSchemaMeaning(map["title" := JStr("Updated Title")], o);
    UpdateMilestoneSchemaMeaning(map[], o);
    UpdateMilestoneSchemaMeaning(map["status" := JStr(status)], o);
    UpdateMilestoneSchemaMeaning(map["status" := JStr("invalid_status")], o);
    UpdateMilestoneSchemaMeaning(map["status" := JStr("on_track")], o);
    UpdateMilestoneSchemaMeaning(map["title" := JNull], o);
    UpdateMilestoneSchemaMeaning(map["dueDate" := JNull], o);
  }

  /** A valid create request that carries no status is also a valid update. */
  lemma CreateIsUpdate(input: map<string, Value>, o: Oracles)
    requires Accepts(CreateMilestoneSchema, input, o)
    requires "status" !in input
    ensures Accepts(UpdateMilestoneSchema, input, o)
  {
    CreateMilestoneSchemaMeaning(input, o);
    UpdateMilestoneSchemaMeaning(input, o);
  }
}
