/** The request schemas for creating and updating a todo. */
module TodoValidation {
  import opened Schema

  const CreateTodoSchema: seq<FieldRule> := [
    FieldRule("goalId", Uuid, false, false),
    FieldRule("milestoneId", Uuid, true, true),
    FieldRule("title", Text(1, 200), false, false),
    FieldRule("description", Text(0, 1000), true, true),
    FieldRule("dueDate", CoercedDate, true, true)
  ]

  const UpdateTodoSchema: seq<FieldRule> := [
    FieldRule("title", Text(1, 200), true, false),
    FieldRule("description", Text(0, 1000), true, true),
    FieldRule("dueDate", CoercedDate, true, true),
    FieldRule("completed", Boolean, true, false),
    FieldRule("milestoneId", Uuid, true, true)
  ]

  /** What a create request must carry, field by field: a goal and a title; the
      milestone, description and due date may be missing or null. */
  predicate CreateTodoFields(input: map<string, Value>, o: Oracles) {
    && UuidText(input, "goalId", o)
    && (AbsentOrNull(input, "milestoneId") || UuidText(input, "milestoneId", o))
    && TextOfLength(input, "title", 1, 200)
    && (AbsentOrNull(input, "description") || TextOfLength(input, "description", 0, 1000))
    && (AbsentOrNull(input, "dueDate") || DateValue(input, "dueDate", o))
  }

  /** What an update request may carry: every field is optional; the title and the
      completed flag may not be null. */
  predicate UpdateTodoFields(input: map<string, Value>, o: Oracles) {
    && (Absent(input, "title") || TextOfLength(input, "title", 1, 200))
    && (AbsentOrNull(input, "description") || TextOfLength(input, "description", 0, 1000))
    && (AbsentOrNull(input, "dueDate") || DateValue(input, "dueDate", o))
    && (Absent(input, "completed") || BooleanValue(input, "completed"))
    && (AbsentOrNull(input, "milestoneId") || UuidText(input, "milestoneId", o))
  }

  lemma CreateTodoSchemaMeaning(input: map<string, Value>, o: Oracles)
    ensures Accepts(CreateTodoSchema, input, o) <==> CreateTodoFields(input, o)
  {
    if CreateTodoFields(input, o) {
      forall i | 0 <= i < |CreateTodoSchema|
        ensures FieldAccepts(CreateTodoSchema[i], input, o)
      {
        assert i in {0, 1, 2, 3, 4};
      }
    }
    if Accepts(CreateTodoSchema, input, o) {
      assert FieldAccepts(CreateTodoSchema[0], input, o);
      assert FieldAccepts(CreateTodoSchema[1], input, o);
      assert FieldAccepts(CreateTodoSchema[2], input, o);
      assert FieldAccepts(CreateTodoSchema[3], input, o);
      assert FieldAccepts(CreateTodoSchema[4], input, o);
    }
  }

  lemma UpdateTodoSchemaMeaning(input: map<string, Value>, o: Oracles)
    ensures Accepts(UpdateTodoSchema, input, o) <==> UpdateTodoFields(input, o)
  {
    if UpdateTodoFields(input, o) {
      forall i | 0 <= i < |UpdateTodoSchema|
        ensures FieldAccepts(UpdateTodoSchema[i], input, o)
      {
        assert i in {0, 1, 2, 3, 4};
      }
    }
    if Accepts(UpdateTodoSchema, input, o) {
      assert FieldAccepts(UpdateTodoSchema[0], input, o);
      assert FieldAccepts(UpdateTodoSchema[1], input, o);
      assert FieldAccepts(UpdateTodoSchema[2], input, o);
      assert FieldAccepts(UpdateTodoSchema[3], input, o);
      assert FieldAccepts(UpdateTodoSchema[4], input, o);
    }
  }

  const GoalId := "123e4567-e89b-12d3-a456-426614174000"
  const MilestoneId := "223e4567-e89b-12d3-a456-426614174000"

  function GoalAndTitle(title: string): map<string, Value> {
    map["goalId" := JStr(GoalId), "title" := JStr(title)]
  }

  /** Create requests with a goal and a title are accepted, with a milestone, a null
      milestone, or a description and due date; the due date needs no parse when it
      is left out. */
  lemma CreateTodoAccepted(o: Oracles)
    requires o.isUuid(GoalId) && o.isUuid(MilestoneId) && o.parsesAsDate(JStr("2025-03-31"))
    ensures Accepts(CreateTodoSchema, GoalAndTitle("Complete task")["milestoneId" := JStr(MilestoneId)][
      "description" := JStr("Finish this important task")]["dueDate" := JStr("2025-03-31")], o)
    ensures Accepts(CreateTodoSchema, GoalAndTitle("Complete task"), o)
    ensures Accepts(CreateTodoSchema, GoalAndTitle("Complete task")["milestoneId" := JNull], o)
  {
    CreateTodoSchemaMeaning(GoalAndTitle("Complete task")["milestoneId" := JStr(MilestoneId)][
      "description" := JStr("Finish this important task")]["dueDate" := JStr("2025-03-31")], o);
    CreateTodoSchemaMeaning(GoalAndTitle("Complete task"), o);
    CreateTodoSchemaMeaning(GoalAndTitle("Complete task")["milestoneId" := JNull], o);
  }

  /** A goal or milestone id that is not a UUID, or an empty or over-long title or
      description, gets a create request rejected. */
  lemma CreateTodoRejected(o: Oracles)
    requires !o.isUuid("invalid-uuid")
    ensures !Accepts(CreateTodoSchema, map["goalId" := JStr("invalid-uuid"), "title" := JStr("Test")], o)
    ensures !Accepts(CreateTodoSchema, GoalAndTitle("Test")["milestoneId" := JStr("invalid-uuid")], o)
    ensures !Accepts(CreateTodoSchema, GoalAndTitle(""), o)
    ensures !Accepts(CreateTodoSchema, GoalAndTitle(Repeat('a', 201)), o)
    ensures !Accepts(CreateTodoSchema, GoalAndTitle("Valid Title")["description" := JStr(Repeat('a', 1001))], o)
  {
    assert !FieldAccepts(CreateTodoSchema[0], map["goalId" := JStr("invalid-uuid"), "title" := JStr("Test")], o);
    assert !FieldAccepts(CreateTodoSchema[1], GoalAndTitle("Test")["milestoneId" := JStr("invalid-uuid")], o);
    assert !FieldAccepts(CreateTodoSchema[2], GoalAndTitle(""), o);
    assert !FieldAccepts(CreateTodoSchema[2], GoalAndTitle(Repeat('a', 201)), o);
    assert !FieldAccepts(CreateTodoSchema[3], GoalAndTitle("Valid Title")["description" := JStr(Repeat('a', 1001))], o);
  }

  /** Update requests: a title, a completed flag, a due date, a null due date or nothing
      at all are accepted; the completed flag must be a boolean, not null. */
  lemma UpdateTodoExamples(o: Oracles)
    requires o.parsesAsDate(JStr("2025-06-15"))
    ensures Accepts(UpdateTodoSchema, map["title" := JStr("Updated Title")], o)
    ensures Accepts(UpdateTodoSchema, map["completed" := JBool(true)], o)
    ensures Accepts(UpdateTodoSchema, map[], o)
    ensures Accepts(UpdateTodoSchema, map["dueDate" := JStr("2025-06-15")], o)
    ensures Accepts(UpdateTodoSchema, map["dueDate" := JNull], o)
    ensures !Accepts(UpdateTodoSchema, map["completed" := JNull], o)
    ensures !Accepts(UpdateTodoSchema, map["completed" := JStr("true")], o)
  {
    UpdateTodoSchemaMeaning(map["title" := JStr("Updated Title")], o);
    UpdateTodoSchemaMeaning(map["completed" := JBool(true)], o);
    UpdateTodoSchemaMeaning(map[], o);
    UpdateTodoSchemaMeaning(map["dueDate" := JStr("2025-06-15")], o);
    UpdateTodoSchemaMeaning(map["dueDate" := JNull], o);
    UpdateTodoSchemaMeaning(map["completed" := JNull], o);
    UpdateTodoSchemaMeaning(map["completed" := JStr("true")], o);
  }

  /** A valid create request that carries no completed flag is also a valid update
      (the goal id is simply ignored by the update schema). */
  lemma CreateIsUpdate(input: map<string, Value>, o: Oracles)
    requires Accepts(CreateTodoSchema, input, o)
    requires "completed" !in input
    ensures Accepts(UpdateTodoSchema, input, o)
  {
    CreateTodoSchemaMeaning(input, o);
    UpdateTodoSchemaMeaning(input, o);
  }
}
