/**
  The schema of a review result (reviewResultSchema in internal/llm/parser.go),
  which the provider and the validator get rewritten.
 */
module ReviewSchemas {
  import opened Schemas

  function Typed(name: string): Schema { Schema(One(name), map[], {}, NoItems, Unstated) }

  function ListOf(s: Schema): Schema { Schema(One("array"), map[], {}, Items(s), Unstated) }

  function Record(props: map<string, Schema>, required: set<string>): Schema {
    Schema(One("object"), props, required, NoItems, Stated(false))
  }

  function Fields(names: set<string>, s: Schema): map<string, Schema> { map k | k in names :: s }

  const FINDING_REQUIRED: set<string> :=
    {"category", "severity", "confidence", "title", "body_markdown", "path", "anchor_kind"}

  const FINDING_TEXTS: set<string> :=
    {"category", "severity", "title", "body_markdown", "path", "anchor_kind", "range_start_kind", "range_end_kind",
     "anchor_snippet", "suggested_patch", "canonical_key", "symbol", "trigger_condition", "impact", "no_finding_reason"}

  const FINDING_LINES: set<string> :=
    {"old_line", "new_line", "range_start_old_line", "range_start_new_line", "range_end_old_line", "range_end_new_line"}

  function FindingSchema(): Schema {
    Record(
      Fields(FINDING_TEXTS, Typed("string")) + Fields(FINDING_LINES, Typed("integer"))
      + Fields({"confidence"}, Typed("number")) + Fields({"introduced_by_this_change"}, Typed("boolean"))
      + Fields({"evidence", "blind_spots"}, ListOf(Typed("string"))),
      FINDING_REQUIRED)
  }

  const RESULT_REQUIRED: set<string> := {"schema_version", "review_run_id", "summary", "findings"}

  const RESULT_TEXTS: set<string> := {"schema_version", "review_run_id", "status", "summary"}

  function NoteSchema(): Schema { Record(Fields({"body_markdown"}, Typed("string")), {"body_markdown"}) }

  /** The properties of a review result whose findings are described by `item`. */
  function ResultProps(item: Schema): map<string, Schema> {
    Fields(RESULT_TEXTS, Typed("string")) + Fields({"summary_note"}, NoteSchema())
    + Fields({"blind_spots"}, ListOf(Typed("string"))) + Fields({"findings"}, ListOf(item))
  }

  function ReviewResultSchema(): Schema { Record(ResultProps(FindingSchema()), RESULT_REQUIRED) }

  predicate AllDeclared(props: map<string, Schema>) { forall k | k in props :: Declared(props[k]) }

  lemma {:induction false} TypedDeclared(name: string)
    requires name != "object" && name != "array"
    ensures Declared(Typed(name)) && Declared(ListOf(Typed(name)))
  {
  }

  lemma {:induction false} ListDeclared(s: Schema)
    requires Declared(s)
    ensures Declared(ListOf(s))
  {
  }

  lemma {:induction false} FieldsDeclared(names: set<string>, s: Schema)
    requires Declared(s)
    ensures AllDeclared(Fields(names, s))
  {
  }

  lemma {:induction false} UnionDeclared(a: map<string, Schema>, b: map<string, Schema>)
    requires AllDeclared(a) && AllDeclared(b)
    ensures AllDeclared(a + b)
  {
  }

  lemma {:induction false} RecordDeclared(props: map<string, Schema>, required: set<string>)
    requires AllDeclared(props) && required <= props.Keys
    ensures Declared(Record(props, required))
  {
  }

  function FindingProps(): map<string, Schema> { FindingSchema().props }

  lemma {:induction false} FindingPropsDeclared()
    ensures AllDeclared(FindingProps())
  {
    var texts, lines := Fields(FINDING_TEXTS, Typed("string")), Fields(FINDING_LINES, Typed("integer"));
    var number, flag := Fields({"confidence"}, Typed("number")), Fields({"introduced_by_this_change"},
      Typed("boolean"));
    var lists := Fields({"evidence", "blind_spots"}, ListOf(Typed("string")));
    TypedDeclared("string");
    TypedDeclared("integer");
    TypedDeclared("number");
    TypedDeclared("boolean");
    FieldsDeclared(FINDING_TEXTS, Typed("string"));
    FieldsDeclared(FINDING_LINES, Typed("integer"));
    FieldsDeclared({"confidence"}, Typed("number"));
    FieldsDeclared({"introduced_by_this_change"}, Typed("boolean"));
    FieldsDeclared({"evidence", "blind_spots"}, ListOf(Typed("string")));
    UnionDeclared(texts, lines);
    UnionDeclared(texts + lines, number);
    UnionDeclared(texts + lines + number, flag);
    UnionDeclared(texts + lines + number + flag, lists);
  }

  lemma {:induction false} FindingNames()
    ensures FINDING_REQUIRED <= FindingProps().Keys
  {
    assert FINDING_REQUIRED <= FINDING_TEXTS + {"confidence"};
  }

  lemma {:induction false} FindingDeclared()
    ensures Declared(FindingSchema())
  {
    FindingPropsDeclared();
    FindingNames();
    RecordDeclared(FindingProps(), FINDING_REQUIRED);
  }

  lemma {:induction false} NoteDeclared()
    ensures Declared(NoteSchema())
  {
    TypedDeclared("string");
    FieldsDeclared({"body_markdown"}, Typed("string"));
    RecordDeclared(Fields({"body_markdown"}, Typed("string")), {"body_markdown"});
  }

  lemma {:induction false} ResultPropsDeclared(item: Schema)
    requires Declared(item)
    ensures AllDeclared(ResultProps(item))
  {
    var texts, note := Fields(RESULT_TEXTS, Typed("string")), Fields({"summary_note"}, NoteSchema());
    var spots, findings := Fields({"blind_spots"}, ListOf(Typed("string"))), Fields({"findings"}, ListOf(item));
    TypedDeclared("string");
    NoteDeclared();
    ListDeclared(item);
    FieldsDeclared(RESULT_TEXTS, Typed("string"));
    FieldsDeclared({"summary_note"}, NoteSchema());
    FieldsDeclared({"blind_spots"}, ListOf(Typed("string")));
    FieldsDeclared({"findings"}, ListOf(item));
    UnionDeclared(texts, note);
    UnionDeclared(texts + note, spots);
    UnionDeclared(texts + note + spots, findings);
  }

  lemma {:induction false} ResultNames(item: Schema)
    ensures RESULT_REQUIRED <= ResultProps(item).Keys
  {
    assert RESULT_REQUIRED <= RESULT_TEXTS + {"findings"};
  }

  /** Every name the review schema requires, at any depth, is one of its properties. */
  lemma {:induction false} ReviewSchemaDeclared()
    ensures Declared(ReviewResultSchema())
  {
    FindingDeclared();
    ResultPropsDeclared(FindingSchema());
    ResultNames(FindingSchema());
    RecordDeclared(ResultProps(FindingSchema()), RESULT_REQUIRED);
  }

  /**
    For the schema in use: what a strict provider may return passes validation, and
    then the original without null optionals.
   */
  lemma {:induction false} StrictReviewPasses(v: Value)
    requires Accepts(StrictSchema(ReviewResultSchema()), v)
    ensures Accepts(ValidationSchema(ReviewResultSchema()), v) && Complete(ReviewResultSchema(), v)
    ensures Accepts(ReviewResultSchema(), DropNulls(ReviewResultSchema(), v))
  {
    ReviewSchemaDeclared();
    StrictMeaning(ReviewResultSchema(), v);
    ValidationMeaning(ReviewResultSchema(), v);
  }
}
