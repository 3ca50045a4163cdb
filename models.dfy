/** The records that flow through the pipeline: comments, the arguments
    extracted from them, the static citations, and parsed policy documents. */
module Models {
  import opened Wrappers
  import opened PyValue

  /** The stance of an argument. */
  datatype ArgumentType = Support | Objection | Neutral

  function ArgumentTypeName(t: ArgumentType): string {
    match t
    case Support => "support"
    case Objection => "objection"
    case Neutral => "neutral"
  }

  /** One argument, derived from exactly one comment and tied to one clause.
      `citations` holds citation ids and is filled in by the analysis run. */
  datatype Argument = Argument(
    id: string,
    commentId: string,
    text: string,
    argType: ArgumentType,
    themes: seq<string>,
    clause: string,
    confidence: real,
    citations: seq<string>,
    relatedArguments: seq<string>)

  datatype CitationType = Legal | Academic | Expert

  /** A static legal or academic reference. */
  datatype Citation = Citation(
    id: string,
    title: string,
    source: string,
    citationType: CitationType,
    url: Option<string>,
    summary: string,
    relevanceScore: real)

  /** A public comment on a policy clause. The timestamp is kept as text;
      date parsing is not part of the model. */
  datatype Comment = Comment(
    id: string,
    text: string,
    source: string,
    timestamp: string,
    policyClause: string,
    metadata: Option<Value>)

  datatype PolicyClause = PolicyClause(
    id: string,
    text: string,
    section: string,
    argumentsFor: seq<string>,
    argumentsAgainst: seq<string>)

  datatype PolicyDocument = PolicyDocument(
    id: string,
    title: string,
    content: string,
    clauses: seq<PolicyClause>)
}
