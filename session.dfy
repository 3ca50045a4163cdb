/** The API's in-memory session store: the uploaded comments and policy
    documents, the arguments of the last analysis, and the citations found for
    them, together with the endpoints that update and read the store. HTTP
    routing, temporary files and the parsing of uploaded files are not
    modelled: an upload receives the records its parser produced. */
module Session {
  import opened Wrappers
  import opened Text
  import opened Sequences
  import opened PyValue
  import opened Models
  import Extractor
  import Gemini
  import opened CitationOracle
  import opened Fusion
  import opened Amendment
  import opened Compute

  /** An HTTPException: a status code and its detail text. */
  datatype HttpError = HttpError(status: nat, detail: string)

  const NoCommentsUploaded: string := "No comments uploaded"
  const NoPolicyUploaded: string := "No policy document uploaded"
  const ClauseNotFound: string := "Clause not found"
  const NoAnalysisCompleted: string := "No analysis completed"

  /** `[comment.id for comment in comments]`. */
  function UploadedIds(comments: seq<Comment>): (r: seq<string>)
    ensures |r| == |comments|
    ensures forall i :: 0 <= i < |comments| ==> r[i] == comments[i].id
  {
    seq(|comments|, i requires 0 <= i < |comments| => comments[i].id)
  }

  // ---------------------------------------------------------------------
  // Attaching citations
  // ---------------------------------------------------------------------

  /** `[citation.id for citation in citations]`. */
  function CitationIds(cits: seq<Citation>): (r: seq<string>)
    ensures |r| == |cits|
    ensures forall i :: 0 <= i < |cits| ==> r[i] == cits[i].id
  {
    seq(|cits|, i requires 0 <= i < |cits| => cits[i].id)
  }

  /** An argument whose citations are the ids of the table entries relevant
      to its text; every other field is kept. */
  function Cited(a: Argument, table: seq<Citation>): Argument {
    a.(citations := CitationIds(RelevantCitations(table, a.text)))
  }

  /** The arguments after the citation loop. */
  function CitedArguments(args: seq<Argument>, table: seq<Citation>): (r: seq<Argument>)
    ensures |r| == |args|
    ensures forall i :: 0 <= i < |args| ==> r[i] == Cited(args[i], table)
  {
    seq(|args|, i requires 0 <= i < |args| => Cited(args[i], table))
  }

  /** Everything the citation loop appends to the citation store, in order,
      repeats kept. */
  function AllFound(args: seq<Argument>, table: seq<Citation>): seq<Citation> {
    if args == [] then []
    else AllFound(args[..|args| - 1], table) + RelevantCitations(table, Last(args).text)
  }

  /** The citation ids attached to the arguments, one argument after the
      other. */
  function AttachedIds(args: seq<Argument>): seq<string> {
    if args == [] then [] else AttachedIds(args[..|args| - 1]) + Last(args).citations
  }

  /** The citation loop keeps the arguments and their order and changes
      only their citation lists. */
  lemma CitationIdsConcat(p: seq<Citation>, q: seq<Citation>)
    ensures CitationIds(p + q) == CitationIds(p) + CitationIds(q)
  {
    var l, r := CitationIds(p + q), CitationIds(p) + CitationIds(q);
    assert |l| == |r|;
    forall i | 0 <= i < |l| ensures l[i] == r[i] {
      if i < |p| { assert (p + q)[i] == p[i]; } else { assert (p + q)[i] == q[i - |p|]; }
    }
  }

  /** The citation store receives exactly the citations whose ids were
      attached, argument by argument, with repeats. */
  lemma {:induction false} FoundCitationsAttached(args: seq<Argument>, table: seq<Citation>)
    ensures CitationIds(AllFound(args, table)) == AttachedIds(CitedArguments(args, table))
  {
    if args != [] {
      var init := args[..|args| - 1];
      FoundCitationsAttached(init, table);
      var cited := CitedArguments(args, table);
      assert cited[..|cited| - 1] == CitedArguments(init, table);
      CitationIdsConcat(AllFound(init, table), RelevantCitations(table, Last(args).text));
    }
  }

  lemma CitedStep(args: seq<Argument>, i: nat, table: seq<Citation>)
    requires i < |args|
    ensures CitedArguments(args[..i + 1], table) == CitedArguments(args[..i], table) + [Cited(args[i], table)]
    ensures AllFound(args[..i + 1], table) == AllFound(args[..i], table) + RelevantCitations(table, args[i].text)
  {
    assert args[..i + 1][..i] == args[..i];
  }

  // ---------------------------------------------------------------------
  // The clause breakdown by theme
  // ---------------------------------------------------------------------

  /** The (theme, argument) pairs of one argument. */
  function PairsOf(a: Argument): (r: seq<(string, Argument)>)
    ensures |r| == |a.themes|
    ensures forall i :: 0 <= i < |r| ==> r[i] == (a.themes[i], a)
  {
    seq(|a.themes|, i requires 0 <= i < |a.themes| => (a.themes[i], a))
  }

  /** The (theme, argument) pairs in the order the nested loop visits
      them. */
  function ThemePairs(args: seq<Argument>): seq<(string, Argument)> {
    if args == [] then [] else ThemePairs(args[..|args| - 1]) + PairsOf(Last(args))
  }

  function PairThemes(pairs: seq<(string, Argument)>): seq<string> {
    if pairs == [] then [] else PairThemes(pairs[..|pairs| - 1]) + [Last(pairs).0]
  }

  /** `theme_arguments`: for each pair, the argument is appended to its
      theme's list, which is created empty on first sight. */
  function Breakdown(pairs: seq<(string, Argument)>): map<string, seq<Argument>> {
    if pairs == [] then map[]
    else
      var m := Breakdown(pairs[..|pairs| - 1]);
      var (t, a) := Last(pairs);
      m[t := (if t in m then m[t] else []) + [a]]
  }

  /** The arguments paired with theme `t`, in pair order. */
  function Carrying(pairs: seq<(string, Argument)>, t: string): seq<Argument> {
    if pairs == [] then []
    else Carrying(pairs[..|pairs| - 1], t) + (if Last(pairs).0 == t then [Last(pairs).1] else [])
  }

  /** The breakdown has a list for exactly the themes that occur, and each
      list holds the arguments paired with that theme. */
  lemma {:induction false} BreakdownShape(pairs: seq<(string, Argument)>)
    ensures forall t :: t in Breakdown(pairs) <==> t in PairThemes(pairs)
    ensures forall t :: t in Breakdown(pairs) ==> Breakdown(pairs)[t] == Carrying(pairs, t)
  {
    if pairs != [] {
      BreakdownShape(pairs[..|pairs| - 1]);
      var init := pairs[..|pairs| - 1];
      var m := Breakdown(init);
      var (t, a) := Last(pairs);
      if t !in PairThemes(init) {
        MissingThemeCarriesNothing(init, t);
      }
    }
  }

  lemma MissingThemeCarriesNothing(pairs: seq<(string, Argument)>, t: string)
    requires t !in PairThemes(pairs)
    ensures Carrying(pairs, t) == []
  {
    if pairs != [] {
      MissingThemeCarriesNothing(pairs[..|pairs| - 1], t);
    }
  }

  /** One step of the nested loop. */
  lemma BreakdownStep(pairs: seq<(string, Argument)>, x: (string, Argument))
    ensures Breakdown(pairs + [x]) ==
      var m := Breakdown(pairs);
      m[x.0 := (if x.0 in m then m[x.0] else []) + [x.1]]
    ensures PairThemes(pairs + [x]) == PairThemes(pairs) + [x.0]
    ensures x.0 in Breakdown(pairs) <==> x.0 in FirstSeen(PairThemes(pairs))
    ensures FirstSeen(PairThemes(pairs + [x])) ==
      var seen := FirstSeen(PairThemes(pairs));
      if x.0 in seen then seen else seen + [x.0]
  {
    assert (pairs + [x])[..|pairs|] == pairs;
    assert (PairThemes(pairs) + [x.0])[..|PairThemes(pairs)|] == PairThemes(pairs);
    BreakdownShape(pairs);
    FirstSeenShape(PairThemes(pairs));
  }

  lemma {:induction false} CarryingConcat(p: seq<(string, Argument)>, q: seq<(string, Argument)>, t: string)
    ensures Carrying(p + q, t) == Carrying(p, t) + Carrying(q, t)
    decreases |q|
  {
    if q != [] {
      var q' := q[..|q| - 1];
      CarryingConcat(p, q', t);
      assert (p + q)[..|p + q| - 1] == p + q';
    } else {
      assert p + q == p;
    }
  }

  lemma {:induction false} CarryingPairsOf(a: Argument, j: nat, t: string)
    requires j <= |a.themes|
    ensures forall b :: b in Carrying(PairsOf(a)[..j], t) <==> b == a && t in a.themes[..j]
  {
    if j > 0 {
      CarryingPairsOf(a, j - 1, t);
      assert PairsOf(a)[..j][..j - 1] == PairsOf(a)[..j - 1];
      assert a.themes[..j] == a.themes[..j - 1] + [a.themes[j - 1]];
    }
  }

  /** Every argument listed under a theme carries that theme, and every
      argument carrying it is listed. */
  lemma {:induction false} CarryingMembers(args: seq<Argument>, t: string)
    ensures forall a :: a in Carrying(ThemePairs(args), t) <==> a in args && t in a.themes
  {
    if args != [] {
      var init, a := args[..|args| - 1], Last(args);
      assert ThemePairs(args) == ThemePairs(init) + PairsOf(a);
      CarryingMembers(init, t);
      CarryingConcat(ThemePairs(init), PairsOf(a), t);
      CarryingOfOne(a, t);
      assert args == init + [a];
      forall b
        ensures b in Carrying(ThemePairs(args), t) <==> b in args && t in b.themes
      {
        assert b in args <==> b in init || b == a;
      }
    }
  }

  /** The pairs of one argument list it under theme `t` exactly when it
      carries `t`. */
  lemma CarryingOfOne(a: Argument, t: string)
    ensures forall b :: b in Carrying(PairsOf(a), t) <==> b == a && t in a.themes
  {
    CarryingPairsOf(a, |a.themes|, t);
    assert PairsOf(a)[..|a.themes|] == PairsOf(a);
    assert a.themes[..|a.themes|] == a.themes;
  }

  /** The arguments carrying theme `t`, in argument order. */
  function WithTheme(args: seq<Argument>, t: string): seq<Argument> {
    if args == [] then []
    else WithTheme(args[..|args| - 1], t) + (if t in Last(args).themes then [Last(args)] else [])
  }

  lemma CarryingOfDistinct(a: Argument, t: string)
    requires Distinct(a.themes)
    ensures Carrying(PairsOf(a), t) == if t in a.themes then [a] else []
  {
    CarryingCount(a, |a.themes|, t);
    CarryingPairsOf(a, |a.themes|, t);
    assert PairsOf(a)[..|a.themes|] == PairsOf(a);
    assert a.themes[..|a.themes|] == a.themes;
    DistinctCounts(a.themes, t);
    var c := Carrying(PairsOf(a), t);
    if t in a.themes {
      assert t in multiset(a.themes);
      assert |c| == 1;
      assert c[0] in c;
      assert c == [c[0]];
    }
  }

  lemma {:induction false} CarryingCount(a: Argument, j: nat, t: string)
    requires j <= |a.themes|
    ensures |Carrying(PairsOf(a)[..j], t)| == multiset(a.themes[..j])[t]
  {
    if j > 0 {
      CarryingCount(a, j - 1, t);
      var p := PairsOf(a)[..j];
      assert p[..j - 1] == PairsOf(a)[..j - 1];
      assert Last(p) == (a.themes[j - 1], a);
      assert |Carrying(p, t)| == |Carrying(p[..j - 1], t)| + (if a.themes[j - 1] == t then 1 else 0);
      assert a.themes[..j] == a.themes[..j - 1] + [a.themes[j - 1]];
      assert multiset(a.themes[..j]) == multiset(a.themes[..j - 1]) + multiset{a.themes[j - 1]};
    }
  }

  /** When no argument repeats a theme, each theme's list is exactly the
      arguments carrying it, in argument order. */
  lemma {:induction false} CarryingOfDistinctThemes(args: seq<Argument>, t: string)
    requires forall i :: 0 <= i < |args| ==> Distinct(args[i].themes)
    ensures Carrying(ThemePairs(args), t) == WithTheme(args, t)
  {
    if args != [] {
      var init := args[..|args| - 1];
      CarryingOfDistinctThemes(init, t);
      CarryingConcat(ThemePairs(init), PairsOf(Last(args)), t);
      CarryingOfDistinct(Last(args), t);
    }
  }

  /** A theme occurs among the pairs exactly when some argument is paired
      with it. */
  lemma {:induction false} PairThemesCarrying(pairs: seq<(string, Argument)>, t: string)
    ensures t in PairThemes(pairs) <==> Carrying(pairs, t) != []
  {
    if pairs != [] {
      PairThemesCarrying(pairs[..|pairs| - 1], t);
    }
  }

  /** The theme loop of get_clause_analysis: the themes in order of first
      appearance and, for each, the arguments listed under it. */
  method ThemeBreakdown(args: seq<Argument>) returns (order: seq<string>, byTheme: map<string, seq<Argument>>)
    ensures order == FirstSeen(PairThemes(ThemePairs(args)))
    ensures byTheme == Breakdown(ThemePairs(args))
  {
    order := [];
    byTheme := map[];
    var i := 0;
    while i < |args|
      invariant 0 <= i <= |args|
      invariant order == FirstSeen(PairThemes(ThemePairs(args[..i])))
      invariant byTheme == Breakdown(ThemePairs(args[..i]))
    {
      order, byTheme := AddThemes(order, byTheme, ThemePairs(args[..i]), args[i]);
      assert args[..i + 1][..i] == args[..i];
      i := i + 1;
    }
    assert args[..|args|] == args;
  }

  lemma PairsPrefixStep(before: seq<(string, Argument)>, a: Argument, j: nat)
    requires j < |a.themes|
    ensures before + PairsOf(a)[..j + 1] == (before + PairsOf(a)[..j]) + [(a.themes[j], a)]
  {
    assert PairsOf(a)[..j + 1] == PairsOf(a)[..j] + [(a.themes[j], a)];
  }

  /** One pass of the inner loop, as the loop sees it: `order` and
      `byTheme` before the pass, `order'` and `byTheme'` after it. */
  lemma AddThemeStep(before: seq<(string, Argument)>, a: Argument, j: nat,
                     order: seq<string>, byTheme: map<string, seq<Argument>>,
                     order': seq<string>, byTheme': map<string, seq<Argument>>)
    requires j < |a.themes|
    requires order == FirstSeen(PairThemes(before + PairsOf(a)[..j]))
    requires byTheme == Breakdown(before + PairsOf(a)[..j])
    requires order' == if a.themes[j] in byTheme then order else order + [a.themes[j]]
    requires byTheme' == byTheme[a.themes[j] := (if a.themes[j] in byTheme then byTheme[a.themes[j]] else []) + [a]]
    ensures order' == FirstSeen(PairThemes(before + PairsOf(a)[..j + 1]))
    ensures byTheme' == Breakdown(before + PairsOf(a)[..j + 1])
  {
    PairsPrefixStep(before, a, j);
    BreakdownStep(before + PairsOf(a)[..j], (a.themes[j], a));
  }

  /** The inner loop: the argument is appended under each of its themes. */
  method AddThemes(order0: seq<string>, byTheme0: map<string, seq<Argument>>, ghost before: seq<(string, Argument)>, a: Argument)
    returns (order: seq<string>, byTheme: map<string, seq<Argument>>)
    requires order0 == FirstSeen(PairThemes(before)) && byTheme0 == Breakdown(before)
    ensures order == FirstSeen(PairThemes(before + PairsOf(a)))
    ensures byTheme == Breakdown(before + PairsOf(a))
  {
    order, byTheme := order0, byTheme0;
    var j := 0;
    assert before + PairsOf(a)[..0] == before;
    while j < |a.themes|
      invariant 0 <= j <= |a.themes|
      invariant order == FirstSeen(PairThemes(before + PairsOf(a)[..j]))
      invariant byTheme == Breakdown(before + PairsOf(a)[..j])
    {
      var theme := a.themes[j];
      ghost var order0, byTheme0 := order, byTheme;
      var listed := if theme in byTheme then byTheme[theme] else [];
      if theme !in byTheme {
        order := order + [theme];
      }
      byTheme := byTheme[theme := listed + [a]];
      AddThemeStep(before, a, j, order0, byTheme0, order, byTheme);
      j := j + 1;
    }
    assert PairsOf(a)[..|a.themes|] == PairsOf(a);
  }

  /** The loop body of the citation step over a list of arguments: each
      argument's citation list is overwritten in place, and the citations
      found are collected in order. */
  method CiteAll(args: seq<Argument>, table: seq<Citation>) returns (cited: seq<Argument>, found: seq<Citation>)
    ensures cited == CitedArguments(args, table)
    ensures found == AllFound(args, table)
  {
    cited, found := args, [];
    var i := 0;
    while i < |args|
      invariant 0 <= i <= |args|
      invariant cited == CitedArguments(args[..i], table) + args[i..]
      invariant found == AllFound(args[..i], table)
    {
      CiteNext(args, table, i, cited);
      CitedStep(args, i, table);
      var argument := cited[i];
      var relevant := FilterRelevant(table, argument.text);
      cited := cited[i := argument.(citations := CitationIds(relevant))];
      found := found + relevant;
      i := i + 1;
    }
    assert args[..|args|] == args;
    assert args[|args|..] == [];
  }

  /** One turn of the citation loop: the next argument is still the input's,
      and citing it extends the cited prefix by one. */
  lemma CiteNext(args: seq<Argument>, table: seq<Citation>, i: nat, cited: seq<Argument>)
    requires i < |args|
    requires cited == CitedArguments(args[..i], table) + args[i..]
    ensures cited[i] == args[i]
    ensures cited[i := Cited(args[i], table)] == CitedArguments(args[..i + 1], table) + args[i + 1..]
  {
    var done := CitedArguments(args[..i], table);
    ReplaceNext(done, args[i..], Cited(args[i], table));
    CitedStep(args, i, table);
    assert args[i..][1..] == args[i + 1..];
  }

  /** Overwriting the element after a prefix. */
  lemma ReplaceNext<T>(done: seq<T>, rest: seq<T>, x: T)
    requires rest != []
    ensures (done + rest)[|done|] == rest[0]
    ensures (done + rest)[|done| := x] == (done + [x]) + rest[1..]
  {
  }

  /** The clause analysis response. */
  datatype ClauseAnalysis = ClauseAnalysis(
    clauseId: string,
    totalArguments: nat,
    themeOrder: seq<string>,
    themes: map<string, seq<Argument>>,
    supportCount: nat,
    objectionCount: nat)

  // ---------------------------------------------------------------------
  // The analysis response
  // ---------------------------------------------------------------------

  /** `{clause: len(args) for clause, args in clause_arguments.items()}`. */
  function ClauseCounts(clauses: seq<string>, groups: map<string, seq<Argument>>): (r: seq<(string, nat)>)
    requires forall c :: c in clauses ==> c in groups
    ensures |r| == |clauses|
  {
    if clauses == [] then []
    else ClauseCounts(clauses[..|clauses| - 1], groups) + [(Last(clauses), |groups[Last(clauses)]|)]
  }

  function TotalCount(counts: seq<(string, nat)>): nat {
    if counts == [] then 0 else TotalCount(counts[..|counts| - 1]) + Last(counts).1
  }

  /** Counting the groups of the clause aggregation: the counts add up to
      the sizes of the clauses' groups. */
  lemma {:induction false} ClauseCountsTotal(args: seq<Argument>, clauses: seq<string>, groups: map<string, seq<Argument>>)
    requires forall c :: c in clauses ==> c in groups && groups[c] == Matching(args, ByClause, c)
    ensures TotalCount(ClauseCounts(clauses, groups)) == GroupSizes(args, ByClause, clauses)
  {
    if clauses != [] {
      var init := clauses[..|clauses| - 1];
      ClauseCountsTotal(args, init, groups);
      var counts := ClauseCounts(clauses, groups);
      assert counts[..|counts| - 1] == ClauseCounts(init, groups);
    }
  }

  /** One entry per clause, in clause order, holding the size of its group. */
  lemma {:induction false} ClauseCountsEntries(args: seq<Argument>, clauses: seq<string>, groups: map<string, seq<Argument>>)
    requires forall c :: c in clauses ==> c in groups && groups[c] == Matching(args, ByClause, c)
    ensures forall i :: 0 <= i < |clauses| ==>
              ClauseCounts(clauses, groups)[i] == (clauses[i], |Matching(args, ByClause, clauses[i])|)
  {
    if clauses != [] {
      var init := clauses[..|clauses| - 1];
      ClauseCountsEntries(args, init, groups);
      var counts := ClauseCounts(clauses, groups);
      forall i | 0 <= i < |clauses|
        ensures counts[i] == (clauses[i], |Matching(args, ByClause, clauses[i])|)
      {
        if i < |init| {
          assert counts[i] == ClauseCounts(init, groups)[i] && init[i] == clauses[i];
        }
      }
    }
  }

  /** The analysis response. */
  datatype AnalysisReport = AnalysisReport(
    requirements: Requirements,
    computeRoute: ComputeType,
    numArguments: nat,
    clauseArguments: seq<(string, nat)>,
    suggestions: seq<Suggestion>)

  /** The arguments an extractor produced for the comments: the language
      model's when its extractor could be built, the keyword heuristic's
      otherwise. */
  predicate Extracted(args: seq<Argument>, comments: seq<Comment>, ids: seq<string>,
                      useModel: bool, replies: seq<Option<string>>, decoder: map<string, Value>)
    requires |ids| == |comments| && |replies| == |comments|
  {
    && |args| == |comments|
    && forall i :: 0 <= i < |comments| ==>
         if useModel then Gemini.IsGeminiArgument(args[i], comments[i], ids[i], replies[i], decoder)
         else Extractor.IsHeuristicArgument(args[i], comments[i], ids[i])
  }

  /** What the analysis response reports about the stored arguments: the
      assessment of the comment count and its route, the argument count,
      one count per clause in clause order adding up to the argument count,
      and the suggestions for the arguments. */
  predicate IsAnalysisReport(report: AnalysisReport, numComments: nat, memoryPercent: real, args: seq<Argument>) {
    var clauses := FirstSeenKeys(args, ByClause);
    && report.requirements == AssessRequirements(numComments)
    && report.computeRoute == (if numComments < 10000 && memoryPercent < 80.0 then Local
                               else if 10000 <= numComments < 100000 then Hybrid
                               else Cloud)
    && report.numArguments == |args|
    && |report.clauseArguments| == |clauses|
    && (forall i :: 0 <= i < |report.clauseArguments| ==>
          report.clauseArguments[i] == (clauses[i], |Matching(args, ByClause, clauses[i])|))
    && TotalCount(report.clauseArguments) == report.numArguments
    && report.suggestions == SuggestionsFor(clauses, args, SampleCitations)
  }

  /** The extraction step of analyze: the language model's extractor when it
      can be built from the environment's key, else the keyword heuristic. */
  method ExtractWithFallback(comments: seq<Comment>, ids: seq<string>, environmentKey: Option<string>,
                             replies: seq<Option<string>>, decoder: map<string, Value>)
    returns (args: seq<Argument>)
    requires |ids| == |comments| && |replies| == |comments|
    ensures Extracted(args, comments, ids, Gemini.NewGeminiExtractor(None, environmentKey).Ok?, replies, decoder)
  {
    var extractor := Gemini.NewGeminiExtractor(None, environmentKey);
    if extractor.Ok? {
      args := Gemini.ExtractArguments(comments, ids, replies, decoder);
    } else {
      args := Extractor.ExtractArguments(comments, ids);
    }
  }

  /** The reporting steps of analyze, after the citations are attached. */
  method Report(numComments: nat, memoryPercent: real, args: seq<Argument>) returns (report: AnalysisReport)
    ensures IsAnalysisReport(report, numComments, memoryPercent, args)
  {
    var requirements := AssessRequirements(numComments);
    var route := RouteProcessing([("requirements", RequirementsValue(requirements))], memoryPercent);
    RouteOfAssessment(numComments, memoryPercent);
    var weights := CalculateArgumentWeights(args);
    var clauses, byClause := AggregateArguments(args);
    var counts := ClauseCounts(clauses, byClause);
    ClauseCountsTotal(args, clauses, byClause);
    ClauseCountsEntries(args, clauses, byClause);
    GroupSizesTotal(args, ByClause);
    var suggestions := SuggestAmendments(args, SampleCitations);
    report := AnalysisReport(requirements, route.value, |args|, counts, suggestions);
  }

  /** The session store. */
  class SessionStore {
    var comments: seq<Comment>
    var arguments: seq<Argument>
    var policies: seq<PolicyDocument>
    var citations: seq<Citation>

    /** The store starts with four empty lists. */
    constructor ()
      ensures comments == [] && arguments == [] && policies == [] && citations == []
    {
      comments, arguments, policies, citations := [], [], [], [];
    }

    /** Both comment uploads: the parsed comments are appended to the store,
        and their ids are echoed. */
    method UploadComments(parsed: seq<Comment>) returns (message: string, commentIds: seq<string>)
      modifies this
      ensures comments == old(comments) + parsed
      ensures arguments == old(arguments) && policies == old(policies) && citations == old(citations)
      ensures message == "Successfully uploaded " + NatToString(|parsed|) + " comments"
      ensures commentIds == UploadedIds(parsed)
    {
      comments := comments + parsed;
      message := "Successfully uploaded " + NatToString(|parsed|) + " comments";
      commentIds := UploadedIds(parsed);
    }

    /** The policy upload: the parsed document is appended. */
    method UploadPolicy(policy: PolicyDocument) returns (policyId: string)
      modifies this
      ensures policies == old(policies) + [policy]
      ensures comments == old(comments) && arguments == old(arguments) && citations == old(citations)
      ensures policyId == policy.id
    {
      policies := policies + [policy];
      policyId := policy.id;
    }

    /** The citation loop of analyze: each argument gets the ids of its
        relevant citations, and those citations are appended to the store. The
        program looks them up in the oracle's sample table (find_citations);
        the table is a parameter here. */
    method AttachCitations(table: seq<Citation>)
      modifies this
      ensures arguments == CitedArguments(old(arguments), table)
      ensures citations == old(citations) + AllFound(old(arguments), table)
      ensures comments == old(comments) && policies == old(policies)
    {
      var cited, found := CiteAll(arguments, table);
      arguments, citations := cited, citations + found;
    }

    /** analyze: fails while no comments, then while no policy, have been
        uploaded; otherwise it assesses and routes the work, replaces the
        stored arguments by a fresh extraction (the language model's when its
        extractor can be built from the environment's key, else the keyword
        heuristic's), attaches citations, and reports the argument count,
        the per-clause counts and the suggestions. The fresh argument ids,
        the model's replies and the decoder are parameters. */
    method Analyze(environmentKey: Option<string>, memoryPercent: real, argumentIds: seq<string>,
                   replies: seq<Option<string>>, decoder: map<string, Value>)
      returns (r: Result<AnalysisReport, HttpError>, ghost extracted: seq<Argument>)
      requires |argumentIds| == |comments| && |replies| == |comments|
      modifies this
      ensures comments == old(comments) && policies == old(policies)
      ensures old(comments) == [] ==> r == Err(HttpError(400, NoCommentsUploaded))
      ensures old(comments) != [] && old(policies) == [] ==> r == Err(HttpError(400, NoPolicyUploaded))
      ensures r.Ok? <==> old(comments) != [] && old(policies) != []
      ensures r.Err? ==> arguments == old(arguments) && citations == old(citations)
      ensures r.Ok? ==>
        && Extracted(extracted, comments, argumentIds, Gemini.NewGeminiExtractor(None, environmentKey).Ok?, replies, decoder)
        && arguments == CitedArguments(extracted, SampleCitations)
        && citations == old(citations) + AllFound(extracted, SampleCitations)
        && |arguments| == |comments| > 0
        && IsAnalysisReport(r.value, |comments|, memoryPercent, arguments)
    {
      extracted := [];
      if comments == [] {
        return Err(HttpError(400, NoCommentsUploaded)), extracted;
      }
      if policies == [] {
        return Err(HttpError(400, NoPolicyUploaded)), extracted;
      }
      var report;
      report, extracted := ExtractAndReport(environmentKey, memoryPercent, argumentIds, replies, decoder);
      r := Ok(report);
    }

    /** The steps of analyze once both uploads are present. */
    method ExtractAndReport(environmentKey: Option<string>, memoryPercent: real, argumentIds: seq<string>,
                            replies: seq<Option<string>>, decoder: map<string, Value>)
      returns (report: AnalysisReport, ghost extracted: seq<Argument>)
      requires |argumentIds| == |comments| && |replies| == |comments|
      modifies this
      ensures comments == old(comments) && policies == old(policies)
      ensures Extracted(extracted, comments, argumentIds, Gemini.NewGeminiExtractor(None, environmentKey).Ok?, replies, decoder)
      ensures arguments == CitedArguments(extracted, SampleCitations)
      ensures citations == old(citations) + AllFound(extracted, SampleCitations)
      ensures |arguments| == |comments|
      ensures IsAnalysisReport(report, |comments|, memoryPercent, arguments)
    {
      var produced := ExtractWithFallback(comments, argumentIds, environmentKey, replies, decoder);
      extracted := produced;
      arguments := produced;
      AttachCitations(SampleCitations);
      report := Report(|comments|, memoryPercent, arguments);
    }

    /** get_clause_analysis: 404 when no argument is on the clause;
        otherwise the clause's arguments broken down by theme and counted by
        stance. */
    method GetClauseAnalysis(clauseId: string) returns (r: Result<ClauseAnalysis, HttpError>)
      ensures r.Err? <==> Matching(arguments, ByClause, clauseId) == []
      ensures r.Err? ==> r.error == HttpError(404, ClauseNotFound)
      ensures r.Ok? ==>
        var onClause := Matching(arguments, ByClause, clauseId);
        && r.value.clauseId == clauseId
        && r.value.totalArguments == |onClause|
        && r.value.themeOrder == FirstSeen(PairThemes(ThemePairs(onClause)))
        && r.value.themes == Breakdown(ThemePairs(onClause))
        && r.value.supportCount == CountOfType(onClause, Support)
        && r.value.objectionCount == CountOfType(onClause, Objection)
        && r.value.supportCount + r.value.objectionCount <= r.value.totalArguments
    {
      var onClause := Matching(arguments, ByClause, clauseId);
      if onClause == [] {
        return Err(HttpError(404, ClauseNotFound));
      }
      var order, byTheme := ThemeBreakdown(onClause);
      CountsWithinTotal(onClause);
      r := Ok(ClauseAnalysis(clauseId, |onClause|, order, byTheme,
                             CountOfType(onClause, Support), CountOfType(onClause, Objection)));
    }

    /** get_amendment_suggestions: 400 before any analysis, else the
        suggestions for the stored arguments. */
    method GetAmendmentSuggestions() returns (r: Result<seq<Suggestion>, HttpError>)
      ensures r.Err? <==> arguments == []
      ensures r.Err? ==> r.error == HttpError(400, NoAnalysisCompleted)
      ensures r.Ok? ==> r.value == SuggestionsFor(FirstSeenKeys(arguments, ByClause), arguments, SampleCitations)
    {
      if arguments == [] {
        return Err(HttpError(400, NoAnalysisCompleted));
      }
      var suggestions := SuggestAmendments(arguments, SampleCitations);
      r := Ok(suggestions);
    }
  }

  /** A clause's theme lists name exactly the themes its arguments carry,
      and each list holds exactly the clause's arguments carrying that
      theme. */
  lemma ClauseBreakdownMembers(onClause: seq<Argument>, t: string)
    ensures t in Breakdown(ThemePairs(onClause)) <==> exists a :: a in onClause && t in a.themes
    ensures t in Breakdown(ThemePairs(onClause)) ==>
      forall a :: a in Breakdown(ThemePairs(onClause))[t] <==> a in onClause && t in a.themes
  {
    var pairs := ThemePairs(onClause);
    BreakdownShape(pairs);
    PairThemesCarrying(pairs, t);
    CarryingMembers(onClause, t);
    if t in Breakdown(pairs) {
      var c := Carrying(pairs, t);
      assert c[0] in c;
    }
  }

  /** When no argument repeats a theme, each theme's list is the clause's
      arguments carrying it, in argument order. */
  lemma ClauseBreakdownOrder(onClause: seq<Argument>, t: string)
    requires forall i :: 0 <= i < |onClause| ==> Distinct(onClause[i].themes)
    requires t in Breakdown(ThemePairs(onClause))
    ensures Breakdown(ThemePairs(onClause))[t] == WithTheme(onClause, t)
  {
    BreakdownShape(ThemePairs(onClause));
    CarryingOfDistinctThemes(onClause, t);
  }
}
