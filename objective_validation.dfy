/** The request schemas for creating and updating an objective. */
module ObjectiveValidation {
  import opened Schema

  const CreateObjectiveSchema: seq<FieldRule> := [
    FieldRule("title", Text(1, 200), false, false),
    FieldRule("description", Text(0, 1000), true, true)
  ]

  const ObjectiveStatuses: seq<string> := ["not_started", "in_progress", "on_track", "off_track", "completed"]

  const UpdateObjectiveSchema: seq<FieldRule> := [
    FieldRule("title", Text(1, 200), true, false),
    FieldRule("description", Text(0, 1000), true, true),
    FieldRule("status", OneOf(ObjectiveStatuses), true, false)
  ]

  /** What a create request must carry, field by field. */
  predicate CreateObjectiveFields(input: map<string, Value>) {
    && TextOfLength(input, "title", 1, 200)
    && (AbsentOrNull(input, "description") || TextOfLength(input, "description", 0, 1000))
  }

  /** What an update request may carry: every field is optional; only the description
      may be null. */
  predicate UpdateObjectiveFields(input: map<string, Value>) {
    && (Absent(input, "title") || TextOfLength(input, "title", 1, 200))
    && (AbsentOrNull(input, "description") || TextOfLength(input, "description", 0, 1000))
    && (Absent(input, "status") || TextAmong(input, "status", ObjectiveStatuses))
  }

  lemma CreateObjectiveSchemaMeaning(input: map<string, Value>, o: Oracles)
    ensures Accepts(CreateObjectiveSchema, input, o) <==> CreateObjectiveFields(input)
  {
    if CreateObjectiveFields(input) {
      forall i | 0 <= i < |CreateObjectiveSchema|
        ensures FieldAccepts(CreateObjectiveSchema[i], input, o)
      {
        assert i in {0, 1};
      }
    }
    if Accepts(CreateObjectiveSchema, input, o) {
      assert FieldAccepts(CreateObjectiveSchema[0], input, o);
      assert FieldAccepts(CreateObjectiveSchema[1], input, o);
    }
  }

  lemma UpdateObjectiveSchemaMeaning(input: map<string, Value>, o: Oracles)
    ensures Accepts(UpdateObjectiveSchema, input, o) <==> UpdateObjectiveFields(input)
  {
    if UpdateObjectiveFields(input) {
      forall i | 0 <= i < |UpdateObjectiveSchema|
        ensures FieldAccepts(UpdateObjectiveSchema[i], input, o)
      {
        assert i in {0, 1, 2};
      }
    }
    if Accepts(UpdateObjectiveSchema, input, o) {
      assert FieldAccepts(UpdateObjectiveSchema[0], input, o);
      assert FieldAccepts(UpdateObjectiveSchema[1], input, o);
      assert FieldAccepts(UpdateObjectiveSchema[2], input, o);
    }
  }

  /** Create requests: a title alone or with a description (or a null one) is accepted;
      an empty, missing or over-long title or an over-long description is not. */
  lemma CreateObjectiveExamples(o: Oracles)
    ensures Accepts(CreateObjectiveSchema, map["title" := JStr("Become a better runner"),
      "description" := JStr("Improve my running performance and endurance")], o)
    ensures Accepts(CreateObjectiveSchema, map["title" := JStr("Become a better runner")], o)
    ensures Accepts(CreateObjectiveSchema, map["title" := JStr("Valid Title"), "description" := JNull], o)
    ensures !Accepts(CreateObjectiveSchema, map["title" := JStr("")], o)
    ensures !Accepts(CreateObjectiveSchema, map["description" := JStr("Some description")], o)
    ensures !Accepts(CreateObjectiveSchema, map["title" := JStr(Repeat('a', 201))], o)
    ensures !Accepts(CreateObjectiveSchema, map["title" := JStr("Valid Title"),
      "description" := JStr(Repeat('a', 1001))], o)
  {
    CreateObjectiveSchemaMeaning(map["title" := JStr("Become a better runner"),
      "description" := JStr("Improve my running performance and endurance")], o);
    CreateObjectiveSchemaMeaning(map["title" := JStr("Become a better runner")], o);
    CreateObjectiveSchemaMeaning(map["title" := JStr("Valid Title"), "description" := JNull], o);
    CreateObjectiveSchemaMeaning(map["title" := JStr("")], o);
    CreateObjectiveSchemaMeaning(map["description" := JStr("Some description")], o);
    CreateObjectiveSchemaMeaning(map["title" := JStr(Repeat('a', 201))], o);
    CreateObjectiveSchemaMeaning(map["title" := JStr("Valid Title"),
      "description" := JStr(Repeat('a', 1001))], o);
  }

  /** Update requests: partial, empty and full updates are accepted, exactly the five
      statuses are, and an empty title is not. */
  lemma UpdateObjectiveExamples(status: string, o: Oracles)
    ensures Accepts(UpdateObjectiveSchema, map["title" := JStr("Updated Title")], o)
    ensures Accepts(UpdateObjectiveSchema, map["description" := JStr("Updated description")], o)
    ensures Accepts(UpdateObjectiveSchema, map[], o)
    ensures Accepts(UpdateObjectiveSchema, map["title" := JStr("Updated Title"),
      "description" := JStr("Updated description"), "status" := JStr("on_track")], o)
    ensures Accepts(UpdateObjectiveSchema, map["status" := JStr(status)], o) <==> status in ObjectiveStatuses
    ensures !Accepts(UpdateObjectiveSchema, map["status" := JStr("invalid_status")], o)
    ensures !Accepts(UpdateObjectiveSchema, map["title" := JStr("")], o)
  {
    UpdateObjectiveSchemaMeaning(map["title" := JStr("Updated Title")], o);
    UpdateObjectiveSchemaMeaning(map["description" := JStr("Updated description")], o);
    UpdateObjectiveSchemaMeaning(map[], o);
    UpdateObjectiveSchemaMeaning(map["title" := JStr("Updated Title"),
      "description" := JStr("Updated description"), "status" := JStr("on_track")], o);
    UpdateObjectiveSchemaMeaning(map["status" := JStr(status)], o);
    UpdateObjectiveSchemaMeaning(map["status" := JStr("invalid_status")], o);
    UpdateObjectiveSchemaMeaning(map["title" := JStr("")], o);
  }

  /** A valid create request that carries no status is also a valid update. */
  lemma CreateIsUpdate(input: map<string, Value>, o: Oracles)
    requires Accepts(CreateObjectiveSchema, input, o)
    requires "status" !in input
    ensures Accepts(UpdateObjectiveSchema, input, o)
  {
    CreateObjectiveSchemaMeaning(input, o);
    UpdateObjectiveSchemaMeaning(input, o);
  }
}
