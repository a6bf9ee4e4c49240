/** src/helpers/enums.converters.ts: reading a feedback question type from its
    name. */
module EnumConverters {
  import opened Wrappers

  /** The feedback question types the converter knows. */
  datatype FeedbackQuestionType = MVP_GENERAL

  /** The string form of a value, as `toString()` gives it. */
  function Name(t: FeedbackQuestionType): string {
    match t
    case MVP_GENERAL => "MVP_GENERAL"
  }

  /** `toFeedbackQuestionType`: the value whose name is exactly `value`, or
      undefined. It is total: every string gets an answer. */
  function ToFeedbackQuestionType(value: string): (t: Option<FeedbackQuestionType>)
    ensures t.Some? <==> exists q :: Name(q) == value
    ensures t.Some? ==> Name(t.value) == value
  {
    if value == Name(MVP_GENERAL) then Some(MVP_GENERAL) else None
  }

  /** Converting a value's own name gives the value back. */
  lemma NameRoundTrip(t: FeedbackQuestionType)
    ensures ToFeedbackQuestionType(Name(t)) == Some(t)
  {
  }

  /** The match is exact: another letter case is not recognised. */
  lemma CaseMatters()
    ensures ToFeedbackQuestionType("mvp_general") == None
    ensures ToFeedbackQuestionType("") == None
  {
    assert "mvp_general"[0] != "MVP_GENERAL"[0];
  }
}
