/** The amendment generator: one suggestion per clause, chosen by comparing
    the clause's support and objection counts. An objection response names
    the clause's most frequent objection themes and the citations found
    for its objections. */
module Amendment {
  import opened Text
  import opened Sequences
  import opened Models
  import opened Sorting
  import opened CitationOracle
  import opened Fusion

  datatype SuggestionType = ObjectionResponse | SupportAcknowledgment | BalancedReview

  function SuggestionTypeName(t: SuggestionType): string {
    match t
    case ObjectionResponse => "objection_response"
    case SupportAcknowledgment => "support_acknowledgment"
    case BalancedReview => "balanced_review"
  }

  /** The texts a suggestion carries: the generators' fixed strings and
      f-strings, rendered by MessageText. */
  datatype Message =
    | AddressConcerns(themes: string)
    | SignificantObjection(themes: string)
    | ReviseClause(clause: string, themes: string)
    | PositiveReception
    | StrongSupport
    | RetainAsWorded
    | MixedFeedback
    | BothSupportAndObjection
    | ConductReview(clause: string)

  function MessageText(m: Message): string {
    match m
    case AddressConcerns(themes) => "Address concerns regarding " + themes
    case SignificantObjection(themes) =>
      "This clause has received significant objection, primarily concerning " + themes +
        ". Consider revising to address these concerns."
    case ReviseClause(clause, themes) => "Revise clause " + clause + " to better address " + themes + " concerns"
    case PositiveReception => "Positive reception"
    case StrongSupport => "This clause has received strong support from commenters."
    case RetainAsWorded => "Retain this clause as currently worded"
    case MixedFeedback => "Mixed feedback requires detailed review"
    case BothSupportAndObjection =>
      "This clause has received both support and objection. A detailed review is recommended."
    case ConductReview(clause) => "Conduct detailed review of clause " + clause + " considering all feedback"
  }

  /** A suggestion record (its uuid is not modelled). */
  datatype Suggestion = Suggestion(
    clause: string,
    kind: SuggestionType,
    summary: Message,
    details: Message,
    suggestedChange: Message,
    citations: seq<Citation>,
    confidence: real)

  /** `sum(1 for arg in args if arg.type == t)`. */
  function CountOfType(args: seq<Argument>, t: ArgumentType): (n: nat)
    ensures n <= |args|
  {
    if args == [] then 0
    else (if args[0].argType == t then 1 else 0) + CountOfType(args[1..], t)
  }

  /** An argument has one stance, so supports and objections together never
      exceed the arguments. */
  lemma {:induction false} CountsWithinTotal(args: seq<Argument>)
    ensures CountOfType(args, Support) + CountOfType(args, Objection) <= |args|
  {
    if args != [] {
      CountsWithinTotal(args[1..]);
    }
  }

  /** The suggestion type for the counts of one clause. */
  function KindFor(supports: nat, objections: nat): (k: SuggestionType)
    ensures k == ObjectionResponse <==> objections > supports
    ensures k == SupportAcknowledgment <==> supports > objections
    ensures k == BalancedReview <==> supports == objections
  {
    if objections > supports then ObjectionResponse
    else if supports > objections then SupportAcknowledgment
    else BalancedReview
  }

  function Min3(n: nat): nat {
    if n < 3 then n else 3
  }

  // ---------------------------------------------------------------------
  // Objection themes
  // ---------------------------------------------------------------------

  /** The themes of the objections, in order, repeats kept. */
  function ObjectionThemes(args: seq<Argument>): seq<string> {
    if args == [] then []
    else
      var a := args[|args| - 1];
      ObjectionThemes(args[..|args| - 1]) + (if a.argType == Objection then a.themes else [])
  }

  /** `theme_count[t] = theme_count.get(t, 0) + 1` over a theme sequence. */
  function ThemeCounts(themes: seq<string>): map<string, nat> {
    if themes == [] then map[]
    else
      var m := ThemeCounts(themes[..|themes| - 1]);
      var t := themes[|themes| - 1];
      m[t := (if t in m then m[t] else 0) + 1]
  }

  /** The count dict has the themes as keys and each theme's number of
      occurrences as value. */
  lemma {:induction false} ThemeCountsShape(themes: seq<string>)
    ensures forall t :: t in ThemeCounts(themes) <==> t in themes
    ensures forall t :: t in ThemeCounts(themes) ==> ThemeCounts(themes)[t] == multiset(themes)[t]
  {
    if themes != [] {
      var init := themes[..|themes| - 1];
      ThemeCountsShape(init);
      assert themes == init + [themes[|themes| - 1]];
    }
  }

  lemma ObjectionThemesStep(args: seq<Argument>, i: nat)
    requires i < |args|
    ensures ObjectionThemes(args[..i + 1]) ==
      ObjectionThemes(args[..i]) + (if args[i].argType == Objection then args[i].themes else [])
  {
    assert args[..i + 1][..i] == args[..i];
  }

  lemma ThemeStep(flat: seq<string>, t: string)
    ensures FirstSeen(flat + [t]) == if t in FirstSeen(flat) then FirstSeen(flat) else FirstSeen(flat) + [t]
    ensures ThemeCounts(flat + [t]) == ThemeCounts(flat)[t := (if t in ThemeCounts(flat) then ThemeCounts(flat)[t] else 0) + 1]
  {
    assert (flat + [t])[..|flat|] == flat;
  }

  /** One turn of the inner counting loop, given the values before and
      after it. */
  lemma CountNext(flat: seq<string>, themes: seq<string>, j: nat,
                  order: seq<string>, counts: map<string, nat>,
                  order': seq<string>, counts': map<string, nat>)
    requires j < |themes|
    requires order == FirstSeen(flat + themes[..j]) && counts == ThemeCounts(flat + themes[..j])
    requires order' == if themes[j] in order then order else order + [themes[j]]
    requires counts' == counts[themes[j] := (if themes[j] in counts then counts[themes[j]] else 0) + 1]
    ensures order' == FirstSeen(flat + themes[..j + 1]) && counts' == ThemeCounts(flat + themes[..j + 1])
  {
    assert flat + themes[..j + 1] == (flat + themes[..j]) + [themes[j]];
    ThemeStep(flat + themes[..j], themes[j]);
  }

  /** The counting loops of generate_objection_response: the dict's keys in
      insertion order, and the dict. */
  method CountObjectionThemes(args: seq<Argument>) returns (order: seq<string>, counts: map<string, nat>)
    ensures order == FirstSeen(ObjectionThemes(args))
    ensures counts == ThemeCounts(ObjectionThemes(args))
  {
    order := [];
    counts := map[];
    var i := 0;
    while i < |args|
      invariant 0 <= i <= |args|
      invariant order == FirstSeen(ObjectionThemes(args[..i]))
      invariant counts == ThemeCounts(ObjectionThemes(args[..i]))
    {
      ObjectionThemesStep(args, i);
      if args[i].argType == Objection {
        assert ObjectionThemes(args[..i + 1]) == ObjectionThemes(args[..i]) + args[i].themes;
        order, counts := CountThemes(order, counts, ObjectionThemes(args[..i]), args[i].themes);
      } else {
        assert ObjectionThemes(args[..i + 1]) == ObjectionThemes(args[..i]);
      }
      i := i + 1;
    }
    assert args[..i] == args;
  }

  /** The inner loop: one argument's themes counted on top of `flat`. */
  method CountThemes(order0: seq<string>, counts0: map<string, nat>, ghost flat: seq<string>, themes: seq<string>)
    returns (order: seq<string>, counts: map<string, nat>)
    requires order0 == FirstSeen(flat) && counts0 == ThemeCounts(flat)
    ensures order == FirstSeen(flat + themes)
    ensures counts == ThemeCounts(flat + themes)
  {
    order, counts := order0, counts0;
    var j := 0;
    assert flat + themes[..0] == flat;
    while j < |themes|
      invariant 0 <= j <= |themes|
      invariant order == FirstSeen(flat + themes[..j])
      invariant counts == ThemeCounts(flat + themes[..j])
    {
      ghost var prevOrder, prevCounts := order, counts;
      var t := themes[j];
      if t !in order {
        order := order + [t];
      }
      counts := counts[t := (if t in counts then counts[t] else 0) + 1];
      CountNext(flat, themes, j, prevOrder, prevCounts, order, counts);
      j := j + 1;
    }
    assert themes[..j] == themes;
  }

  /** `theme_count.items()` keyed for a sort by descending count. */
  function Ranked(order: seq<string>, counts: map<string, nat>): (r: seq<Keyed<string>>)
    ensures |r| == |order|
    ensures forall i :: 0 <= i < |r| ==>
      r[i] == Keyed(order[i], -((if order[i] in counts then counts[order[i]] else 0) as real))
  {
    if order == [] then []
    else [Keyed(order[0], -((if order[0] in counts then counts[order[0]] else 0) as real))] + Ranked(order[1..], counts)
  }

  /** `sorted(theme_count.items(), key=count, reverse=True)`. */
  function ThemeRanking(args: seq<Argument>): seq<Keyed<string>> {
    var flat := ObjectionThemes(args);
    SortByKey(Ranked(FirstSeen(flat), ThemeCounts(flat)))
  }

  /** The names of the first three ranked themes. */
  function TopThemes(args: seq<Argument>): seq<string> {
    var ranking := ThemeRanking(args);
    Items(ranking[..Min3(|ranking|)])
  }

  /** No item occurs twice. */
  predicate DistinctItems(r: seq<Keyed<string>>) {
    forall i, j :: 0 <= i < j < |r| ==> r[i].item != r[j].item
  }

  /** The count a theme is ranked by. */
  function CountIn(counts: map<string, nat>, t: string): nat {
    if t in counts then counts[t] else 0
  }

  lemma RankedMembers(order: seq<string>, counts: map<string, nat>)
    ensures forall y :: y in Ranked(order, counts) <==> y.item in order && y.key == -(CountIn(counts, y.item) as real)
  {
    var r := Ranked(order, counts);
    forall y: Keyed<string> | y.item in order && y.key == -(CountIn(counts, y.item) as real)
      ensures y in r
    {
      var i :| 0 <= i < |order| && order[i] == y.item;
      assert r[i] == y;
    }
  }

  lemma RankedDistinct(order: seq<string>, counts: map<string, nat>)
    requires Distinct(order)
    ensures Distinct(Ranked(order, counts))
  {
    var r := Ranked(order, counts);
    forall i, j | 0 <= i < j < |r| ensures r[i] != r[j] {
      assert r[i].item == order[i] && r[j].item == order[j];
    }
  }

  /** The ranking holds each objection theme once, keyed by its negated
      number of occurrences. */
  lemma RankingMembers(args: seq<Argument>)
    ensures var flat := ObjectionThemes(args);
      forall y :: y in ThemeRanking(args) <==> y.item in flat && y.key == -(multiset(flat)[y.item] as real)
  {
    var flat := ObjectionThemes(args);
    var counts := ThemeCounts(flat);
    FirstSeenShape(flat);
    ThemeCountsShape(flat);
    SortByKeyMembers(Ranked(FirstSeen(flat), counts));
    RankedMembers(FirstSeen(flat), counts);
    assert forall t :: t in flat ==> CountIn(counts, t) == multiset(flat)[t];
  }

  /** The ranking is a permutation of one entry per distinct objection
      theme, so no entry repeats. */
  lemma RankingDistinct(args: seq<Argument>)
    ensures Distinct(ThemeRanking(args))
    ensures |ThemeRanking(args)| == |FirstSeen(ObjectionThemes(args))|
  {
    var flat := ObjectionThemes(args);
    var ranked := Ranked(FirstSeen(flat), ThemeCounts(flat));
    FirstSeenShape(flat);
    RankedDistinct(FirstSeen(flat), ThemeCounts(flat));
    SortByKeyShape(ranked);
    SortByKeyLength(ranked);
    PermutationOfDistinct(ranked, ThemeRanking(args));
  }

  /** No theme is ranked twice: an entry's key is fixed by its theme. */
  lemma RankingDistinctItems(args: seq<Argument>)
    ensures DistinctItems(ThemeRanking(args))
    ensures |ThemeRanking(args)| == |FirstSeen(ObjectionThemes(args))|
  {
    var r := ThemeRanking(args);
    RankingDistinct(args);
    RankingMembers(args);
    forall i, j | 0 <= i < j < |r|
      ensures r[i].item != r[j].item
    {
      assert r[i] in r && r[j] in r;
    }
  }

  /** The first `n` ranked names, read off the ranking. */
  lemma TopThemesEntries(args: seq<Argument>)
    ensures var r := ThemeRanking(args);
      && |TopThemes(args)| == Min3(|r|)
      && forall i :: 0 <= i < |TopThemes(args)| ==> TopThemes(args)[i] == r[i].item
  {
    var r := ThemeRanking(args);
    assert forall i :: 0 <= i < Min3(|r|) ==> r[..Min3(|r|)][i] == r[i];
  }

  /** The top themes are up to three distinct objection themes. */
  lemma TopThemesDistinct(args: seq<Argument>)
    ensures var flat := ObjectionThemes(args);
      var top := TopThemes(args);
      && |top| == Min3(|FirstSeen(flat)|)
      && Distinct(top)
      && (forall t :: t in top ==> t in flat)
  {
    var r := ThemeRanking(args);
    var top := TopThemes(args);
    TopThemesEntries(args);
    RankingDistinctItems(args);
    RankingMembers(args);
    forall t | t in top
      ensures t in ObjectionThemes(args)
    {
      var i :| 0 <= i < |top| && top[i] == t;
      assert r[i] in r;
    }
  }

  /** The top themes come by descending count, and no theme left out has a
      higher count than one kept. */
  lemma TopThemesRanked(args: seq<Argument>)
    ensures var flat := ObjectionThemes(args);
      var top := TopThemes(args);
      && (forall i, j :: 0 <= i < j < |top| ==> multiset(flat)[top[i]] >= multiset(flat)[top[j]])
      && (forall t, u :: t in flat && t !in top && u in top ==> multiset(flat)[t] <= multiset(flat)[u])
  {
    TopThemesDescending(args);
    TopThemesBeatRest(args);
  }

  lemma TopThemesDescending(args: seq<Argument>)
    ensures var flat := ObjectionThemes(args);
      var top := TopThemes(args);
      forall i, j :: 0 <= i < j < |top| ==> multiset(flat)[top[i]] >= multiset(flat)[top[j]]
  {
    var flat := ObjectionThemes(args);
    var r := ThemeRanking(args);
    var top := TopThemes(args);
    TopThemesEntries(args);
    RankingMembers(args);
    SortByKeyShape(Ranked(FirstSeen(flat), ThemeCounts(flat)));
    forall i, j | 0 <= i < j < |top|
      ensures multiset(flat)[top[i]] >= multiset(flat)[top[j]]
    {
      assert r[i] in r;
      assert r[j] in r;
    }
  }

  lemma TopThemesBeatRest(args: seq<Argument>)
    ensures var flat := ObjectionThemes(args);
      var top := TopThemes(args);
      forall t, u :: t in flat && t !in top && u in top ==> multiset(flat)[t] <= multiset(flat)[u]
  {
    var flat := ObjectionThemes(args);
    var r := ThemeRanking(args);
    var top := TopThemes(args);
    TopThemesEntries(args);
    RankingMembers(args);
    SortByKeyShape(Ranked(FirstSeen(flat), ThemeCounts(flat)));
    PrefixBeatsRest(flat, r, top);
  }

  /** In a ranking sorted by negated count, a theme outside the leading
      entries occurs no more often than any theme among them. */
  lemma PrefixBeatsRest(flat: seq<string>, r: seq<Keyed<string>>, top: seq<string>)
    requires SortedByKey(r)
    requires |top| <= |r| && forall j :: 0 <= j < |top| ==> top[j] == r[j].item
    requires forall y :: y in r <==> y.item in flat && y.key == -(multiset(flat)[y.item] as real)
    ensures forall t, u :: t in flat && t !in top && u in top ==> multiset(flat)[t] <= multiset(flat)[u]
  {
    forall t, u | t in flat && t !in top && u in top
      ensures multiset(flat)[t] <= multiset(flat)[u]
    {
      var y := Keyed(t, -(multiset(flat)[t] as real));
      assert y in r;
      var k :| 0 <= k < |r| && r[k] == y;
      var i :| 0 <= i < |top| && top[i] == u;
      assert !(k < |top|);
      assert r[i] in r;
    }
  }

  // ---------------------------------------------------------------------
  // Objection citations
  // ---------------------------------------------------------------------

  /** `citations.extend(find_citations(arg))` over the objections. */
  function ObjectionCitations(args: seq<Argument>, table: seq<Citation>): seq<Citation> {
    if args == [] then []
    else
      var a := args[|args| - 1];
      ObjectionCitations(args[..|args| - 1], table) +
        (if a.argType == Objection then RelevantCitations(table, a.text) else [])
  }

  /** The ids of some citations. */
  function IdsOf(cits: seq<Citation>): set<string> {
    set c | c in cits :: c.id
  }

  predicate DistinctIds(cits: seq<Citation>) {
    forall i, j :: 0 <= i < j < |cits| ==> cits[i].id != cits[j].id
  }

  /** The first citation of each id, in order (the `seen_ids` loop). */
  function UniqueById(cits: seq<Citation>): seq<Citation> {
    if cits == [] then []
    else
      var u := UniqueById(cits[..|cits| - 1]);
      var c := cits[|cits| - 1];
      if c.id in IdsOf(u) then u else u + [c]
  }

  /** Deduplication keeps one citation per id, every id, and input order. */
  lemma {:induction false} UniqueByIdShape(cits: seq<Citation>)
    ensures DistinctIds(UniqueById(cits))
    ensures IdsOf(UniqueById(cits)) == IdsOf(cits)
    ensures IsSubsequence(UniqueById(cits), cits)
  {
    UniqueByIdIds(cits);
    UniqueByIdSubsequence(cits);
  }

  lemma {:induction false} UniqueByIdIds(cits: seq<Citation>)
    ensures DistinctIds(UniqueById(cits))
    ensures IdsOf(UniqueById(cits)) == IdsOf(cits)
  {
    if cits != [] {
      var init := cits[..|cits| - 1];
      var c := cits[|cits| - 1];
      var u := UniqueById(init);
      UniqueByIdIds(init);
      assert cits == init + [c];
      assert IdsOf(cits) == IdsOf(init) + {c.id};
      if c.id !in IdsOf(u) {
        assert IdsOf(u + [c]) == IdsOf(u) + {c.id};
        assert forall i :: 0 <= i < |u| ==> u[i] in u;
      }
    }
  }

  lemma {:induction false} UniqueByIdSubsequence(cits: seq<Citation>)
    ensures IsSubsequence(UniqueById(cits), cits)
  {
    if cits != [] {
      var init := cits[..|cits| - 1];
      var c := cits[|cits| - 1];
      var u := UniqueById(init);
      UniqueByIdSubsequence(init);
      assert cits == init + [c];
      SubsequenceSnoc(u, init, c, c.id !in IdsOf(u));
      if c.id in IdsOf(u) {
        assert u + [] == u;
      }
    }
  }

  /** Distinct ids: as many ids as citations. */
  lemma {:induction false} DistinctIdsCount(cits: seq<Citation>)
    requires DistinctIds(cits)
    ensures |IdsOf(cits)| == |cits|
  {
    if cits != [] {
      var init := cits[..|cits| - 1];
      var c := cits[|cits| - 1];
      DistinctIdsCount(init);
      assert cits == init + [c];
      assert IdsOf(cits) == IdsOf(init) + {c.id};
    }
  }

  /** Every collected citation comes from the sample table. */
  lemma {:induction false} ObjectionCitationsFromTable(args: seq<Argument>, table: seq<Citation>)
    ensures forall c :: c in ObjectionCitations(args, table) ==> c in table
  {
    if args != [] {
      var a := args[|args| - 1];
      ObjectionCitationsFromTable(args[..|args| - 1], table);
      RelevantCitationsShape(table, a.text);
    }
  }

  /** No more ids than citations. */
  lemma {:induction false} IdsOfCount(cits: seq<Citation>)
    ensures |IdsOf(cits)| <= |cits|
  {
    if cits != [] {
      var init := cits[..|cits| - 1];
      IdsOfCount(init);
      assert cits == init + [cits[|cits| - 1]];
      assert IdsOf(cits) == IdsOf(init) + {cits[|cits| - 1].id};
    }
  }

  /** Citations with distinct ids drawn from a table are no more than the
      table. */
  lemma DistinctIdsFromTable(cits: seq<Citation>, table: seq<Citation>)
    requires DistinctIds(cits)
    requires forall c :: c in cits ==> c in table
    ensures |cits| <= |table|
  {
    DistinctIdsCount(cits);
    IdsOfCount(table);
    SubsetCardinality(IdsOf(cits), IdsOf(table));
  }

  /** The deduplicated objection citations: distinct ids, from the table,
      and never more than three, so the `[:3]` cut never drops one. */
  lemma UniqueCitationsShape(args: seq<Argument>, table: seq<Citation>)
    ensures var u := UniqueById(ObjectionCitations(args, table));
      && |u| <= |table| && DistinctIds(u) && (forall c :: c in u ==> c in table)
  {
    var cits := ObjectionCitations(args, table);
    var u := UniqueById(cits);
    UniqueByIdShape(cits);
    SubsequenceElements(u, cits);
    ObjectionCitationsFromTable(args, table);
    DistinctIdsFromTable(u, table);
  }

  lemma ObjectionCitationsStep(args: seq<Argument>, i: nat, table: seq<Citation>)
    requires i < |args|
    ensures ObjectionCitations(args[..i + 1], table) == ObjectionCitations(args[..i], table) +
      (if args[i].argType == Objection then RelevantCitations(table, args[i].text) else [])
  {
    assert args[..i + 1][..i] == args[..i];
  }

  /** The citation-collecting loop of generate_objection_response. */
  method CollectObjectionCitations(args: seq<Argument>, table: seq<Citation>) returns (cits: seq<Citation>)
    ensures cits == ObjectionCitations(args, table)
  {
    cits := [];
    var i := 0;
    while i < |args|
      invariant 0 <= i <= |args|
      invariant cits == ObjectionCitations(args[..i], table)
    {
      ObjectionCitationsStep(args, i, table);
      if args[i].argType == Objection {
        var found := FilterRelevant(table, args[i].text);
        cits := cits + found;
      } else {
        assert cits + [] == cits;
      }
      i := i + 1;
    }
    assert args[..i] == args;
  }

  lemma UniqueByIdStep(cits: seq<Citation>, i: nat)
    requires i < |cits|
    ensures UniqueById(cits[..i + 1]) ==
      if cits[i].id in IdsOf(UniqueById(cits[..i])) then UniqueById(cits[..i])
      else UniqueById(cits[..i]) + [cits[i]]
  {
    assert cits[..i + 1][..i] == cits[..i];
  }

  /** The `seen_ids` loop. */
  method DedupCitations(cits: seq<Citation>) returns (unique: seq<Citation>)
    ensures unique == UniqueById(cits)
  {
    unique := [];
    var seen: set<string> := {};
    var i := 0;
    while i < |cits|
      invariant 0 <= i <= |cits|
      invariant unique == UniqueById(cits[..i])
      invariant seen == IdsOf(unique)
    {
      UniqueByIdStep(cits, i);
      if cits[i].id !in seen {
        unique := unique + [cits[i]];
        seen := seen + {cits[i].id};
      }
      i := i + 1;
    }
    assert cits[..i] == cits;
  }

  // ---------------------------------------------------------------------
  // The three generators
  // ---------------------------------------------------------------------

  /** What generate_objection_response returns for a clause. */
  function ObjectionResponseFor(clause: string, args: seq<Argument>, table: seq<Citation>): Suggestion {
    var themes := Join(TopThemes(args), ", ");
    var unique := UniqueById(ObjectionCitations(args, table));
    Suggestion(clause, ObjectionResponse, AddressConcerns(themes), SignificantObjection(themes),
               ReviseClause(clause, themes), unique[..Min3(|unique|)], 0.9)
  }

  /** generate_objection_response. */
  method GenerateObjectionResponse(clause: string, args: seq<Argument>, table: seq<Citation>) returns (s: Suggestion)
    ensures s == ObjectionResponseFor(clause, args, table)
  {
    var order, counts := CountObjectionThemes(args);
    var ranking := SortByKey(Ranked(order, counts));
    var top := Items(ranking[..Min3(|ranking|)]);
    var cits := CollectObjectionCitations(args, table);
    var unique := DedupCitations(cits);
    var themes := Join(top, ", ");
    s := Suggestion(clause, ObjectionResponse, AddressConcerns(themes), SignificantObjection(themes),
                    ReviseClause(clause, themes), unique[..Min3(|unique|)], 0.9);
  }

  /** generate_support_acknowledgment: a fixed record. */
  function SupportAcknowledgmentFor(clause: string): Suggestion {
    Suggestion(clause, SupportAcknowledgment, PositiveReception, StrongSupport, RetainAsWorded, [], 0.8)
  }

  /** generate_balanced_review: a fixed record that names the clause. */
  function BalancedReviewFor(clause: string): Suggestion {
    Suggestion(clause, BalancedReview, MixedFeedback, BothSupportAndObjection, ConductReview(clause), [], 0.7)
  }

  /** The suggestion for one clause and its arguments. */
  function SuggestionFor(clause: string, group: seq<Argument>, table: seq<Citation>): Suggestion {
    match KindFor(CountOfType(group, Support), CountOfType(group, Objection))
    case ObjectionResponse => ObjectionResponseFor(clause, group, table)
    case SupportAcknowledgment => SupportAcknowledgmentFor(clause)
    case BalancedReview => BalancedReviewFor(clause)
  }

  /** A suggestion is for its clause, its type follows the counts, its
      confidence is fixed by the type, and only an objection response
      carries citations: at most three, with distinct ids, from the
      table. */
  lemma SuggestionForShape(clause: string, group: seq<Argument>, table: seq<Citation>)
    ensures var s := SuggestionFor(clause, group, table);
      var supports := CountOfType(group, Support);
      var objections := CountOfType(group, Objection);
      && s.clause == clause
      && (s.kind == ObjectionResponse <==> objections > supports)
      && (s.kind == SupportAcknowledgment <==> supports > objections)
      && (s.kind == BalancedReview <==> supports == objections)
      && s.confidence == (match s.kind case ObjectionResponse => 0.9 case SupportAcknowledgment => 0.8 case BalancedReview => 0.7)
      && (s.kind != ObjectionResponse ==> s.citations == [])
      && |s.citations| <= 3
      && DistinctIds(s.citations)
      && |s.citations| <= |table|
      && (forall c :: c in s.citations ==> c in table)
  {
    var u := UniqueById(ObjectionCitations(group, table));
    UniqueCitationsShape(group, table);
  }

  /** `sep.join(parts)` contains every part. */
  lemma {:induction false} JoinContainsParts(parts: seq<string>, sep: string, i: nat)
    requires i < |parts|
    ensures Contains(Join(parts, sep), parts[i])
  {
    if |parts| == 1 {
      ContainsAt(Join(parts, sep), parts[0], 0);
    } else if i == 0 {
      ContainsAt(Join(parts, sep), parts[0], 0);
    } else {
      JoinContainsParts(parts[1..], sep, i - 1);
      var k := ContainsWitness(Join(parts[1..], sep), parts[i]);
      var pre := parts[0] + sep;
      assert Join(parts, sep) == pre + Join(parts[1..], sep);
      assert Join(parts, sep)[|pre| + k..|pre| + k + |parts[i]|] == Join(parts[1..], sep)[k..k + |parts[i]|];
      ContainsAt(Join(parts, sep), parts[i], |pre| + k);
    }
  }

  /** `s` occurs in `p + s + q`. */
  lemma ContainsMiddle(p: string, s: string, q: string)
    ensures Contains(p + s + q, s)
  {
    assert (p + s + q)[|p|..|p| + |s|] == s;
    ContainsAt(p + s + q, s, |p|);
  }

  /** An occurrence inside the middle part is an occurrence in the whole. */
  lemma ContainsEmbedded(p: string, s: string, q: string, t: string)
    requires Contains(s, t)
    ensures Contains(p + s + q, t)
  {
    var k := ContainsWitness(s, t);
    assert (p + s + q)[|p| + k..|p| + k + |t|] == s[k..k + |t|];
    ContainsAt(p + s + q, t, |p| + k);
  }

  /** The objection texts embed the joined theme names, so each names every
      top theme; the suggested change also names the clause. */
  lemma ObjectionTextsNameThemes(clause: string, top: seq<string>, i: nat)
    requires i < |top|
    ensures var themes := Join(top, ", ");
      && Contains(MessageText(AddressConcerns(themes)), top[i])
      && Contains(MessageText(SignificantObjection(themes)), top[i])
      && Contains(MessageText(ReviseClause(clause, themes)), top[i])
      && Contains(MessageText(ReviseClause(clause, themes)), clause)
  {
    var themes := Join(top, ", ");
    JoinContainsParts(top, ", ", i);
    ContainsEmbedded("Address concerns regarding ", themes, "", top[i]);
    assert "Address concerns regarding " + themes + "" == MessageText(AddressConcerns(themes));
    ContainsEmbedded("This clause has received significant objection, primarily concerning ", themes,
                     ". Consider revising to address these concerns.", top[i]);
    ContainsEmbedded("Revise clause " + clause + " to better address ", themes, " concerns", top[i]);
    ContainsMiddle("Revise clause ", clause, " to better address " + themes + " concerns");
    assert "Revise clause " + clause + " to better address " + themes + " concerns" ==
      "Revise clause " + clause + (" to better address " + themes + " concerns");
  }

  /** The summary, details and suggested change of an objection response
      name every top theme. */
  lemma ObjectionResponseNamesThemes(clause: string, args: seq<Argument>, table: seq<Citation>, t: string)
    requires t in TopThemes(args)
    ensures var s := ObjectionResponseFor(clause, args, table);
      && Contains(MessageText(s.summary), t) && Contains(MessageText(s.details), t)
      && Contains(MessageText(s.suggestedChange), t) && Contains(MessageText(s.suggestedChange), clause)
  {
    var top := TopThemes(args);
    var i :| 0 <= i < |top| && top[i] == t;
    ObjectionTextsNameThemes(clause, top, i);
  }

  /** A balanced review's suggested change names the clause. */
  lemma BalancedReviewNamesClause(clause: string)
    ensures Contains(MessageText(BalancedReviewFor(clause).suggestedChange), clause)
  {
    ContainsMiddle("Conduct detailed review of clause ", clause, " considering all feedback");
  }

  // ---------------------------------------------------------------------
  // suggest_amendments
  // ---------------------------------------------------------------------

  /** The suggestions for some clauses, in their order. */
  function SuggestionsFor(clauses: seq<string>, args: seq<Argument>, table: seq<Citation>): (r: seq<Suggestion>)
    ensures |r| == |clauses|
  {
    if clauses == [] then []
    else
      var c := clauses[|clauses| - 1];
      SuggestionsFor(clauses[..|clauses| - 1], args, table) + [SuggestionFor(c, Matching(args, ByClause, c), table)]
  }

  lemma SuggestionsForStep(clauses: seq<string>, t: nat, args: seq<Argument>, table: seq<Citation>)
    requires t < |clauses|
    ensures SuggestionsFor(clauses[..t + 1], args, table) ==
      SuggestionsFor(clauses[..t], args, table) + [SuggestionFor(clauses[t], Matching(args, ByClause, clauses[t]), table)]
  {
    assert clauses[..t + 1][..t] == clauses[..t];
  }

  /** suggest_amendments: one suggestion per clause, in first-seen clause
      order. `table` is the table find_citations searches (SampleCitations
      in the program). */
  method SuggestAmendments(args: seq<Argument>, table: seq<Citation>) returns (suggestions: seq<Suggestion>)
    ensures suggestions == SuggestionsFor(FirstSeenKeys(args, ByClause), args, table)
  {
    var clauses, byClause := GroupArguments(args, ByClause);
    suggestions := [];
    var t := 0;
    while t < |clauses|
      invariant 0 <= t <= |clauses|
      invariant suggestions == SuggestionsFor(clauses[..t], args, table)
    {
      SuggestionsForStep(clauses, t, args, table);
      var s := Suggest(clauses[t], byClause[clauses[t]], table);
      suggestions := suggestions + [s];
      t := t + 1;
    }
    assert clauses[..t] == clauses;
  }

  /** The body of the clause loop: the counts, and the generator they
      select. */
  method Suggest(clause: string, group: seq<Argument>, table: seq<Citation>) returns (s: Suggestion)
    ensures s == SuggestionFor(clause, group, table)
  {
    var supports := CountOfType(group, Support);
    var objections := CountOfType(group, Objection);
    if objections > supports {
      s := GenerateObjectionResponse(clause, group, table);
    } else if supports > objections {
      s := SupportAcknowledgmentFor(clause);
    } else {
      s := BalancedReviewFor(clause);
    }
  }

  /** Each suggestion is the one for its clause's arguments. */
  lemma {:induction false} SuggestionsForIndex(clauses: seq<string>, args: seq<Argument>, table: seq<Citation>, i: nat)
    requires i < |clauses|
    ensures SuggestionsFor(clauses, args, table)[i] == SuggestionFor(clauses[i], Matching(args, ByClause, clauses[i]), table)
  {
    if i < |clauses| - 1 {
      SuggestionsForIndex(clauses[..|clauses| - 1], args, table, i);
    }
  }

  /** suggest_amendments gives one suggestion per clause that has
      arguments, each for its own clause, none twice. */
  lemma OneSuggestionPerClause(args: seq<Argument>, table: seq<Citation>)
    ensures var clauses := FirstSeenKeys(args, ByClause);
      var r := SuggestionsFor(clauses, args, table);
      && Distinct(clauses)
      && (forall c :: c in clauses <==> exists a :: a in args && a.clause == c)
      && (forall i :: 0 <= i < |r| ==> r[i].clause == clauses[i])
  {
    FirstSeenKeysShape(args, ByClause);
    var clauses := FirstSeenKeys(args, ByClause);
    var r := SuggestionsFor(clauses, args, table);
    forall i | 0 <= i < |r|
      ensures r[i].clause == clauses[i]
    {
      SuggestionsForIndex(clauses, args, table, i);
      SuggestionForShape(clauses[i], Matching(args, ByClause, clauses[i]), table);
    }
  }
}
