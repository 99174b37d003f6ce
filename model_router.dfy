/**
 * lib/model-router.ts: a keyword classifier that sends planning-like
 * requests to one model and everything else to a faster editing model.
 */
module ModelRouter {
  import opened Strings

  datatype TaskType = Plan | Edit

  /** A `ModelConfig`; the cost per token is the decimal the table writes. */
  datatype ModelConfig = ModelConfig(name: string, description: string, costPerToken: real)

  /** The `MODELS` table. */
  function Models(t: TaskType): ModelConfig
  {
    match t
    case Plan => ModelConfig("gpt-5-mini-2025-08-07", "Fast reasoning for planning and architecture", 0.000002)
    case Edit => ModelConfig("gpt-5.1-codex-mini", "Fast, efficient for code edits", 0.000001)
  }

  /** `selectModel(taskType)`. */
  function SelectModel(t: TaskType): (name: string)
    ensures t == Plan ==> name == "gpt-5-mini-2025-08-07"
    ensures t == Edit ==> name == "gpt-5.1-codex-mini"
  {
    Models(t).name
  }

  /** `getModelConfig(taskType)`. */
  function GetModelConfig(t: TaskType): (c: ModelConfig)
    ensures c.name == SelectModel(t)
    ensures t == Plan ==> c.description == "Fast reasoning for planning and architecture"
    ensures t == Edit ==> c.description == "Fast, efficient for code edits"
  {
    Models(t)
  }

  /** The two task types go to different models. */
  lemma ModelsDiffer()
    ensures SelectModel(Plan) != SelectModel(Edit)
  {
    assert SelectModel(Plan)[5] == '-' && SelectModel(Edit)[5] == '.';
  }

  /** The words that make a request a planning task. */
  const PlanKeywords: seq<string> :=
    ["plan", "design", "architecture", "refactor", "restructure", "organize", "how should", "what approach", "multiple files"]

  /**
   * `inferTaskType(message)`: the search over the keywords returns `'plan'`
   * at the first hit, so a request is a planning task exactly when its
   * lower-cased text contains one of the nine keywords.
   */
  function InferTaskType(message: string): (t: TaskType)
    ensures t == Plan <==> exists k :: k in PlanKeywords && Contains(Lower(message), k)
    ensures t == Edit <==> forall k :: k in PlanKeywords ==> !Contains(Lower(message), k)
  {
    if ContainsAny(Lower(message), PlanKeywords) then Plan else Edit
  }

  /** The empty request is an edit. */
  lemma EmptyIsEdit()
    ensures InferTaskType("") == Edit
  {
    EmptyContainsNoKeyword(PlanKeywords);
  }

  /** Letter case does not matter. */
  lemma CaseInsensitive(message: string)
    ensures InferTaskType(message) == InferTaskType(Lower(message))
  {
    LowerIdempotent(message);
  }

  /** Text around a planning request keeps it a planning request. */
  lemma PlanSurvivesContext(before: string, message: string, after: string)
    requires InferTaskType(message) == Plan
    ensures InferTaskType(before + message + after) == Plan
  {
    var k :| k in PlanKeywords && Contains(Lower(message), k);
    LowerConcat(before + message, after);
    LowerConcat(before, message);
    ContainsExtended(Lower(before), Lower(message), Lower(after), k);
  }

  /** A keyword, in any case, makes a planning request. */
  lemma KeywordMakesPlan(before: string, k: string, after: string)
    requires k in PlanKeywords
    ensures InferTaskType(before + k + after) == Plan
  {
    assert Lower(k) == k;
    assert Contains(k, k) by {
      assert OccursAt(k, k, 0);
    }
    assert Contains(Lower(k), k);
    assert InferTaskType(k) == Plan;
    PlanSurvivesContext(before, k, after);
  }
}
