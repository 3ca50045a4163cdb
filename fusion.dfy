/** The multi-source fusion engine: arguments grouped by clause or by
    identical text, weights from mean confidence and source diversity, echo
    chambers, and cross-validation. Python dicts are modelled as a key
    sequence in insertion order together with a map. */
module Fusion {
  import opened Sequences
  import opened Models

  /** The argument field a dict groups by. */
  datatype GroupKey = ByClause | ByText

  function KeyOf(a: Argument, key: GroupKey): string {
    match key
    case ByClause => a.clause
    case ByText => a.text
  }

  function Last<T>(s: seq<T>): T
    requires s != []
  {
    s[|s| - 1]
  }

  /** The arguments with key `k`, in input order. */
  function Matching(args: seq<Argument>, key: GroupKey, k: string): (r: seq<Argument>)
    ensures |r| <= |args|
  {
    if args == [] then []
    else Matching(args[..|args| - 1], key, k) + (if KeyOf(Last(args), key) == k then [Last(args)] else [])
  }

  /** The distinct keys, in order of first appearance (dict insertion
      order). */
  function FirstSeenKeys(args: seq<Argument>, key: GroupKey): seq<string> {
    if args == [] then []
    else
      var keys := FirstSeenKeys(args[..|args| - 1], key);
      if KeyOf(Last(args), key) in keys then keys else keys + [KeyOf(Last(args), key)]
  }

  /** A group holds exactly the arguments with its key, in input order. */
  lemma {:induction false} MatchingShape(args: seq<Argument>, key: GroupKey, k: string)
    ensures forall a :: a in Matching(args, key, k) <==> a in args && KeyOf(a, key) == k
    ensures IsSubsequence(Matching(args, key, k), args)
  {
    if args != [] {
      var init := args[..|args| - 1];
      MatchingShape(init, key, k);
      assert args == init + [Last(args)];
      SubsequenceSnoc(Matching(init, key, k), init, Last(args), KeyOf(Last(args), key) == k);
    }
  }

  /** Appending one element to both sides, or to the right side only, keeps
      a subsequence a subsequence. */
  lemma {:induction false} SubsequenceSnoc<T>(sub: seq<T>, s: seq<T>, x: T, keep: bool)
    requires IsSubsequence(sub, s)
    ensures IsSubsequence(sub + (if keep then [x] else []), s + [x])
    decreases |s|
  {
    var sub' := sub + (if keep then [x] else []);
    if s == [] {
      assert sub == [];
      if keep {
        assert sub' == [x] && sub'[1..] == [] && (s + [x])[1..] == [];
      }
    } else if sub == [] {
      if keep {
        assert sub' == [x];
        SubsequenceOfSingleton(x, s + [x]);
      }
    } else if sub[0] == s[0] && IsSubsequence(sub[1..], s[1..]) {
      SubsequenceSnoc(sub[1..], s[1..], x, keep);
      assert sub'[0] == sub[0] && sub'[1..] == sub[1..] + (if keep then [x] else []);
      assert (s + [x])[1..] == s[1..] + [x];
    } else {
      SubsequenceSnoc(sub, s[1..], x, keep);
      assert (s + [x])[1..] == s[1..] + [x];
    }
  }

  lemma {:induction false} SubsequenceOfSingleton<T>(x: T, s: seq<T>)
    requires s != [] && Last(s) == x
    ensures IsSubsequence([x], s)
    decreases |s|
  {
    if |s| > 1 {
      assert Last(s[1..]) == x;
      SubsequenceOfSingleton(x, s[1..]);
    } else {
      assert s[0] == x && [x][1..] == [];
    }
  }

  /** The first-seen keys are distinct and are exactly the keys present. */
  lemma {:induction false} FirstSeenKeysShape(args: seq<Argument>, key: GroupKey)
    ensures Distinct(FirstSeenKeys(args, key))
    ensures forall k :: k in FirstSeenKeys(args, key) <==> exists a :: a in args && KeyOf(a, key) == k
  {
    if args != [] {
      var init := args[..|args| - 1];
      FirstSeenKeysShape(init, key);
      assert args == init + [Last(args)];
      assert forall a :: a in args <==> a in init || a == Last(args);
    }
  }

  /** A key that is present has a non-empty group. */
  lemma PresentKeyHasArguments(args: seq<Argument>, key: GroupKey, k: string)
    requires k in FirstSeenKeys(args, key)
    ensures Matching(args, key, k) != []
  {
    FirstSeenKeysShape(args, key);
    MatchingShape(args, key, k);
    var a :| a in args && KeyOf(a, key) == k;
    assert a in Matching(args, key, k);
  }

  // ---------------------------------------------------------------------
  // Grouping (the defaultdict(list) loops)
  // ---------------------------------------------------------------------

  /** One more argument extends its own group and no other. */
  lemma MatchingStep(args: seq<Argument>, i: nat, key: GroupKey, k: string)
    requires i < |args|
    ensures Matching(args[..i + 1], key, k) ==
      Matching(args[..i], key, k) + (if KeyOf(args[i], key) == k then [args[i]] else [])
  {
    assert args[..i + 1][..i] == args[..i];
  }

  /** One more argument adds its key when the key is new. */
  lemma FirstSeenKeysStep(args: seq<Argument>, i: nat, key: GroupKey)
    requires i < |args|
    ensures FirstSeenKeys(args[..i + 1], key) ==
      if KeyOf(args[i], key) in FirstSeenKeys(args[..i], key) then FirstSeenKeys(args[..i], key)
      else FirstSeenKeys(args[..i], key) + [KeyOf(args[i], key)]
  {
    assert args[..i + 1][..i] == args[..i];
  }

  /** A key not seen yet has no arguments yet. */
  lemma UnseenKeyHasNoArguments(args: seq<Argument>, key: GroupKey, k: string)
    requires k !in FirstSeenKeys(args, key)
    ensures Matching(args, key, k) == []
  {
    FirstSeenKeysShape(args, key);
    MatchingShape(args, key, k);
  }

  /** `groups[k].append(arg)` on a defaultdict keeps every list equal to
      the matching arguments of one more input. */
  lemma GroupsStep(args: seq<Argument>, i: nat, key: GroupKey,
                   before: map<string, seq<Argument>>, after: map<string, seq<Argument>>)
    requires i < |args|
    requires forall k :: k in before ==> before[k] == Matching(args[..i], key, k)
    requires KeyOf(args[i], key) !in before ==> Matching(args[..i], key, KeyOf(args[i], key)) == []
    requires after == before[KeyOf(args[i], key) :=
      (if KeyOf(args[i], key) in before then before[KeyOf(args[i], key)] else []) + [args[i]]]
    ensures forall k :: k in after ==> after[k] == Matching(args[..i + 1], key, k)
  {
    forall k | k in after
      ensures after[k] == Matching(args[..i + 1], key, k)
    {
      MatchingStep(args, i, key, k);
      if k != KeyOf(args[i], key) {
        assert Matching(args[..i], key, k) + [] == Matching(args[..i], key, k);
      }
    }
  }

  /** `groups[key(arg)].append(arg)` for every argument: the dict's keys in
      insertion order, and its lists. */
  method GroupArguments(args: seq<Argument>, key: GroupKey) returns (keys: seq<string>, groups: map<string, seq<Argument>>)
    ensures keys == FirstSeenKeys(args, key)
    ensures forall k :: k in groups <==> k in keys
    ensures forall k :: k in groups ==> groups[k] == Matching(args, key, k)
  {
    keys := [];
    groups := map[];
    var i := 0;
    while i < |args|
      invariant 0 <= i <= |args|
      invariant GroupsOf(args[..i], key, keys, groups)
    {
      ghost var prevKeys, prevGroups := keys, groups;
      var k := KeyOf(args[i], key);
      if k !in groups {
        keys := keys + [k];
      }
      groups := groups[k := (if k in groups then groups[k] else []) + [args[i]]];
      GroupNext(args, i, key, prevKeys, prevGroups, keys, groups);
      i := i + 1;
    }
    assert args[..i] == args;
  }

  /** The loop state of the grouping: the keys in first-seen order, and each
      key's arguments. */
  ghost predicate GroupsOf(args: seq<Argument>, key: GroupKey, keys: seq<string>, groups: map<string, seq<Argument>>) {
    && keys == FirstSeenKeys(args, key)
    && (forall k :: k in groups <==> k in keys)
    && (forall k :: k in groups ==> groups[k] == Matching(args, key, k))
  }

  /** One turn of the grouping loop, given the state before and after it. */
  lemma GroupNext(args: seq<Argument>, i: nat, key: GroupKey,
                  keys: seq<string>, groups: map<string, seq<Argument>>,
                  keys': seq<string>, groups': map<string, seq<Argument>>)
    requires i < |args|
    requires GroupsOf(args[..i], key, keys, groups)
    requires keys' == if KeyOf(args[i], key) in groups then keys else keys + [KeyOf(args[i], key)]
    requires groups' == groups[KeyOf(args[i], key) :=
      (if KeyOf(args[i], key) in groups then groups[KeyOf(args[i], key)] else []) + [args[i]]]
    ensures GroupsOf(args[..i + 1], key, keys', groups')
  {
    var k := KeyOf(args[i], key);
    FirstSeenKeysStep(args, i, key);
    if k !in groups {
      UnseenKeyHasNoArguments(args[..i], key, k);
    }
    GroupsStep(args, i, key, groups, groups');
  }

  /** aggregate_arguments: the arguments of each clause. */
  method AggregateArguments(args: seq<Argument>) returns (clauses: seq<string>, byClause: map<string, seq<Argument>>)
    ensures clauses == FirstSeenKeys(args, ByClause)
    ensures forall c :: c in byClause <==> c in clauses
    ensures forall c :: c in byClause ==> byClause[c] == Matching(args, ByClause, c)
  {
    clauses, byClause := GroupArguments(args, ByClause);
  }

  /** The total length of the groups of some keys. */
  function GroupSizes(args: seq<Argument>, key: GroupKey, keys: seq<string>): nat {
    if keys == [] then 0
    else GroupSizes(args, key, keys[..|keys| - 1]) + |Matching(args, key, Last(keys))|
  }

  lemma {:induction false} GroupSizesSnoc(args: seq<Argument>, key: GroupKey, keys: seq<string>, a: Argument)
    requires Distinct(keys)
    ensures GroupSizes(args + [a], key, keys) ==
      GroupSizes(args, key, keys) + (if KeyOf(a, key) in keys then 1 else 0)
  {
    if keys != [] {
      var init := keys[..|keys| - 1];
      assert Distinct(init);
      GroupSizesSnoc(args, key, init, a);
      assert (args + [a])[..|args + [a]| - 1] == args;
      assert keys == init + [Last(keys)];
      assert KeyOf(a, key) in keys <==> KeyOf(a, key) in init || KeyOf(a, key) == Last(keys);
      assert KeyOf(a, key) in init ==> KeyOf(a, key) != Last(keys);
    }
  }

  /** Every argument lands in exactly one group: the group sizes add up to
      the number of arguments. */
  lemma {:induction false} GroupSizesTotal(args: seq<Argument>, key: GroupKey)
    ensures GroupSizes(args, key, FirstSeenKeys(args, key)) == |args|
  {
    if args != [] {
      var init := args[..|args| - 1];
      var a := Last(args);
      var keys := FirstSeenKeys(init, key);
      GroupSizesTotal(init, key);
      FirstSeenKeysShape(init, key);
      assert args == init + [a];
      GroupSizesSnoc(init, key, keys, a);
      if KeyOf(a, key) !in keys {
        var keys' := keys + [KeyOf(a, key)];
        assert keys'[..|keys'| - 1] == keys;
        UnseenKeyHasNoArguments(init, key, KeyOf(a, key));
      }
    }
  }

  // ---------------------------------------------------------------------
  // Weights
  // ---------------------------------------------------------------------

  function Confidences(group: seq<Argument>): (r: seq<real>)
    ensures |r| == |group|
  {
    seq(|group|, i requires 0 <= i < |group| => group[i].confidence)
  }

  function Sum(xs: seq<real>): real {
    if xs == [] then 0.0 else Sum(xs[..|xs| - 1]) + Last(xs)
  }

  /** statistics.mean. */
  function Mean(xs: seq<real>): real
    requires xs != []
  {
    Sum(xs) / (|xs| as real)
  }

  /** The distinct comments a group comes from. */
  function CommentIds(group: seq<Argument>): set<string> {
    set a | a in group :: a.commentId
  }

  /** The weight of the arguments with one text: their mean confidence times
      1 + 0.1 per distinct source comment. */
  function TextWeight(args: seq<Argument>, text: string): real
    requires Matching(args, ByText, text) != []
  {
    var group := Matching(args, ByText, text);
    Mean(Confidences(group)) * (1.0 + (|CommentIds(group)| as real) * 0.1)
  }

  /** A lone argument weighs its confidence times 1.1, so nothing keeps a
      weight at or below 1. */
  lemma LoneArgumentWeight(a: Argument)
    ensures Matching([a], ByText, a.text) == [a]
    ensures TextWeight([a], a.text) == a.confidence * 1.1
  {
    assert [a][..0] == [];
    assert Confidences([a]) == [a.confidence];
    assert Sum([a.confidence]) == Sum([]) + a.confidence;
    assert CommentIds([a]) == {a.commentId};
  }

  /** The ids of some arguments. */
  function IdSet(group: seq<Argument>): set<string> {
    set a | a in group :: a.id
  }

  lemma IdSetSnoc(group: seq<Argument>, j: nat)
    requires j < |group|
    ensures IdSet(group[..j + 1]) == IdSet(group[..j]) + {group[j].id}
  {
    assert group[..j + 1] == group[..j] + [group[j]];
  }

  /** Writing the id of one more group member extends the keys by its id. */
  lemma KeysStep<V>(m: map<string, V>, base: set<string>, group: seq<Argument>, j: nat, v: V)
    requires j < |group| && m.Keys == base + IdSet(group[..j])
    ensures m[group[j].id := v].Keys == base + IdSet(group[..j + 1])
  {
    IdSetSnoc(group, j);
  }

  /** Where a member of a text group sits among all the arguments. */
  lemma GroupMemberIndex(args: seq<Argument>, text: string, j: nat) returns (k: nat)
    requires j < |Matching(args, ByText, text)|
    ensures k < |args| && args[k] == Matching(args, ByText, text)[j] && args[k].text == text
  {
    MatchingShape(args, ByText, text);
    var a := Matching(args, ByText, text)[j];
    assert a in Matching(args, ByText, text);
    k :| 0 <= k < |args| && args[k] == a;
  }

  /** The ids of the arguments whose text is one of `texts`. */
  function IdsOfTexts(args: seq<Argument>, texts: seq<string>): set<string> {
    if texts == [] then {}
    else IdsOfTexts(args, texts[..|texts| - 1]) + IdSet(Matching(args, ByText, Last(texts)))
  }

  /** Going over every text reaches every id. */
  lemma {:induction false} IdsOfTextsMembers(args: seq<Argument>, texts: seq<string>)
    ensures forall id :: id in IdsOfTexts(args, texts) <==>
      exists a :: a in args && a.id == id && a.text in texts
  {
    if texts != [] {
      var init := texts[..|texts| - 1];
      IdsOfTextsMembers(args, init);
      MatchingShape(args, ByText, Last(texts));
      assert texts == init + [Last(texts)];
    }
  }

  lemma IdsOfAllTexts(args: seq<Argument>)
    ensures IdsOfTexts(args, FirstSeenKeys(args, ByText)) == IdSet(args)
  {
    IdsOfTextsMembers(args, FirstSeenKeys(args, ByText));
    FirstSeenKeysShape(args, ByText);
  }

  lemma IdsOfTextsStep(args: seq<Argument>, texts: seq<string>, t: nat)
    requires t < |texts|
    ensures IdsOfTexts(args, texts[..t + 1]) == IdsOfTexts(args, texts[..t]) + IdSet(Matching(args, ByText, texts[t]))
  {
    assert texts[..t + 1][..t] == texts[..t];
  }

  /** The weight written for one id: the weight of a text that id carries.
      Argument ids are fresh uuids, so an id carries one text; were two
      arguments to share an id, the model leaves open which text's weight
      is kept (Python keeps the last one written). */
  predicate WeighsAsText(weights: map<string, real>, args: seq<Argument>, id: string) {
    id in weights &&
    exists j :: 0 <= j < |args| && args[j].id == id && Matching(args, ByText, args[j].text) != [] &&
      weights[id] == TextWeight(args, args[j].text)
  }

  lemma WeighsAsTextWritten(weights: map<string, real>, args: seq<Argument>, j: nat, w: real)
    requires j < |args| && Matching(args, ByText, args[j].text) != []
    requires w == TextWeight(args, args[j].text)
    ensures WeighsAsText(weights[args[j].id := w], args, args[j].id)
  {
  }

  lemma WeighsAsTextKept(weights: map<string, real>, args: seq<Argument>, id: string, other: string, w: real)
    requires id != other && WeighsAsText(weights, args, id)
    ensures WeighsAsText(weights[other := w], args, id)
  {
    var j :| 0 <= j < |args| && args[j].id == id && Matching(args, ByText, args[j].text) != [] &&
      weights[id] == TextWeight(args, args[j].text);
  }

  /** Writing the weight of an argument's text under its id keeps every
      entry a text weight. */
  lemma WeightsStep(weights: map<string, real>, args: seq<Argument>, j: nat, w: real, after: map<string, real>)
    requires j < |args| && Matching(args, ByText, args[j].text) != []
    requires w == TextWeight(args, args[j].text)
    requires forall id :: id in weights ==> WeighsAsText(weights, args, id)
    requires after == weights[args[j].id := w]
    ensures forall id :: id in after ==> WeighsAsText(after, args, id)
  {
    forall id | id in after
      ensures WeighsAsText(after, args, id)
    {
      if id == args[j].id {
        WeighsAsTextWritten(weights, args, j, w);
      } else {
        WeighsAsTextKept(weights, args, id, args[j].id, w);
      }
    }
  }

  /** calculate_argument_weights. Every argument id gets a weight; when ids
      are unique it is the weight of the argument's own text. */
  method CalculateArgumentWeights(args: seq<Argument>) returns (weights: map<string, real>)
    ensures weights.Keys == IdSet(args)
    ensures forall id :: id in weights ==> WeighsAsText(weights, args, id)
  {
    var texts, byText := GroupArguments(args, ByText);
    weights := map[];
    var t := 0;
    while t < |texts|
      invariant 0 <= t <= |texts|
      invariant weights.Keys == IdsOfTexts(args, texts[..t])
      invariant forall id :: id in weights ==> WeighsAsText(weights, args, id)
    {
      var text := texts[t];
      var group := byText[text];
      PresentKeyHasArguments(args, ByText, text);
      var weight := Mean(Confidences(group)) * (1.0 + (|CommentIds(group)| as real) * 0.1);
      weights := AssignWeight(weights, args, group, text, weight);
      IdsOfTextsStep(args, texts, t);
      t := t + 1;
    }
    assert texts[..t] == texts;
    IdsOfAllTexts(args);
  }

  /** The inner loop: every argument of one text group gets that group's
      weight. */
  method AssignWeight(weights0: map<string, real>, args: seq<Argument>, group: seq<Argument>, text: string, weight: real)
    returns (weights: map<string, real>)
    requires group == Matching(args, ByText, text) && group != []
    requires weight == TextWeight(args, text)
    requires forall id :: id in weights0 ==> WeighsAsText(weights0, args, id)
    ensures weights.Keys == weights0.Keys + IdSet(group)
    ensures forall id :: id in weights ==> WeighsAsText(weights, args, id)
  {
    weights := weights0;
    var j := 0;
    while j < |group|
      invariant 0 <= j <= |group|
      invariant weights.Keys == weights0.Keys + IdSet(group[..j])
      invariant forall id :: id in weights ==> WeighsAsText(weights, args, id)
    {
      var a := group[j];
      ghost var k := GroupMemberIndex(args, text, j);
      ghost var before := weights;
      weights := weights[a.id := weight];
      WeightsStep(before, args, k, weight, weights);
      KeysStep(before, weights0.Keys, group, j, weight);
      j := j + 1;
    }
    assert group[..j] == group;
  }

  // ---------------------------------------------------------------------
  // Echo chambers
  // ---------------------------------------------------------------------

  /** More than ten distinct source comments share this text. */
  predicate Echoed(args: seq<Argument>, text: string) {
    |CommentIds(Matching(args, ByText, text))| > 10
  }

  function Ids(group: seq<Argument>): (r: seq<string>)
    ensures |r| == |group|
  {
    seq(|group|, i requires 0 <= i < |group| => group[i].id)
  }

  /** The ids of the echoed texts among `texts`, text by text, each text's
      arguments in input order. */
  function EchoIds(args: seq<Argument>, texts: seq<string>): seq<string> {
    if texts == [] then []
    else EchoIds(args, texts[..|texts| - 1]) +
         (if Echoed(args, Last(texts)) then Ids(Matching(args, ByText, Last(texts))) else [])
  }

  /** An id is reported exactly when an argument with it has an echoed text
      among `texts`. */
  lemma {:induction false} EchoIdsMembers(args: seq<Argument>, texts: seq<string>)
    ensures forall id :: id in EchoIds(args, texts) <==>
      exists a :: a in args && a.id == id && a.text in texts && Echoed(args, a.text)
  {
    if texts != [] {
      var init := texts[..|texts| - 1];
      var text := Last(texts);
      EchoIdsMembers(args, init);
      MatchingShape(args, ByText, text);
      assert texts == init + [text];
      var group := Matching(args, ByText, text);
      forall id ensures id in Ids(group) <==> exists a :: a in group && a.id == id {
        if id in Ids(group) {
          var i :| 0 <= i < |group| && Ids(group)[i] == id;
          assert group[i] in group;
        }
        if exists a :: a in group && a.id == id {
          var a :| a in group && a.id == id;
          var i :| 0 <= i < |group| && group[i] == a;
          assert Ids(group)[i] == id;
        }
      }
    }
  }

  /** detect_echo_chambers: the ids of every argument whose text comes from
      more than ten distinct comments, grouped by text in order of first
      appearance. */
  method DetectEchoChambers(args: seq<Argument>) returns (echoChambers: seq<string>)
    ensures echoChambers == EchoIds(args, FirstSeenKeys(args, ByText))
  {
    var texts, byText := GroupArguments(args, ByText);
    echoChambers := [];
    var t := 0;
    while t < |texts|
      invariant 0 <= t <= |texts|
      invariant echoChambers == EchoIds(args, texts[..t])
    {
      var text := texts[t];
      var sources := CommentIds(byText[text]);
      assert texts[..t + 1][..t] == texts[..t];
      if |sources| > 10 {
        var ids := IdsWithText(args, text);
        echoChambers := echoChambers + ids;
      }
      t := t + 1;
    }
    assert texts[..t] == texts;
  }

  /** `for arg in arguments: if arg.text == text: append(arg.id)`. */
  method IdsWithText(args: seq<Argument>, text: string) returns (ids: seq<string>)
    ensures ids == Ids(Matching(args, ByText, text))
  {
    ids := [];
    var i := 0;
    while i < |args|
      invariant 0 <= i <= |args|
      invariant ids == Ids(Matching(args[..i], ByText, text))
    {
      MatchingStep(args, i, ByText, text);
      if args[i].text == text {
        ids := ids + [args[i].id];
      }
      i := i + 1;
    }
    assert args[..i] == args;
  }

  /** Which arguments are reported: exactly those whose text has more than
      ten distinct source comments (eleven suffice, ten do not). */
  lemma EchoChambersMembers(args: seq<Argument>)
    ensures forall id :: id in EchoIds(args, FirstSeenKeys(args, ByText)) <==>
      exists a :: a in args && a.id == id && Echoed(args, a.text)
  {
    EchoIdsMembers(args, FirstSeenKeys(args, ByText));
    FirstSeenKeysShape(args, ByText);
  }

  // ---------------------------------------------------------------------
  // Cross-validation
  // ---------------------------------------------------------------------

  /** The result written for one id: whether a text that id carries occurs
      in more than one argument. As for the weights, ids are fresh uuids;
      which of two texts sharing an id wins is left open. */
  predicate ValidatedAsText(results: map<string, bool>, args: seq<Argument>, id: string) {
    id in results &&
    exists j :: 0 <= j < |args| && args[j].id == id &&
      results[id] == (|Matching(args, ByText, args[j].text)| > 1)
  }

  lemma ValidatedAsTextWritten(results: map<string, bool>, args: seq<Argument>, j: nat, v: bool)
    requires j < |args| && v == (|Matching(args, ByText, args[j].text)| > 1)
    ensures ValidatedAsText(results[args[j].id := v], args, args[j].id)
  {
  }

  lemma ValidatedAsTextKept(results: map<string, bool>, args: seq<Argument>, id: string, other: string, v: bool)
    requires id != other && ValidatedAsText(results, args, id)
    ensures ValidatedAsText(results[other := v], args, id)
  {
    var j :| 0 <= j < |args| && args[j].id == id &&
      results[id] == (|Matching(args, ByText, args[j].text)| > 1);
  }

  /** Writing the result of an argument's text under its id keeps every
      entry a text result. */
  lemma ValidationStep(results: map<string, bool>, args: seq<Argument>, j: nat, v: bool, after: map<string, bool>)
    requires j < |args| && v == (|Matching(args, ByText, args[j].text)| > 1)
    requires forall id :: id in results ==> ValidatedAsText(results, args, id)
    requires after == results[args[j].id := v]
    ensures forall id :: id in after ==> ValidatedAsText(after, args, id)
  {
    forall id | id in after
      ensures ValidatedAsText(after, args, id)
    {
      if id == args[j].id {
        ValidatedAsTextWritten(results, args, j, v);
      } else {
        ValidatedAsTextKept(results, args, id, args[j].id, v);
      }
    }
  }

  /** cross_validate_arguments. Every argument id gets a result; an
      argument is validated when its text group has more than one argument
      (counting arguments, not distinct comments). */
  method CrossValidateArguments(args: seq<Argument>) returns (results: map<string, bool>)
    ensures results.Keys == IdSet(args)
    ensures forall id :: id in results ==> ValidatedAsText(results, args, id)
  {
    var texts, byText := GroupArguments(args, ByText);
    results := map[];
    var t := 0;
    while t < |texts|
      invariant 0 <= t <= |texts|
      invariant results.Keys == IdsOfTexts(args, texts[..t])
      invariant forall id :: id in results ==> ValidatedAsText(results, args, id)
    {
      var text := texts[t];
      var group := byText[text];
      var isValidated := |group| > 1;
      results := AssignValidation(results, args, group, text, isValidated);
      IdsOfTextsStep(args, texts, t);
      t := t + 1;
    }
    assert texts[..t] == texts;
    IdsOfAllTexts(args);
  }

  /** The inner loop: every argument of one text group gets the group's
      result. */
  method AssignValidation(results0: map<string, bool>, args: seq<Argument>, group: seq<Argument>, text: string, isValidated: bool)
    returns (results: map<string, bool>)
    requires group == Matching(args, ByText, text)
    requires isValidated == (|group| > 1)
    requires forall id :: id in results0 ==> ValidatedAsText(results0, args, id)
    ensures results.Keys == results0.Keys + IdSet(group)
    ensures forall id :: id in results ==> ValidatedAsText(results, args, id)
  {
    results := results0;
    var j := 0;
    while j < |group|
      invariant 0 <= j <= |group|
      invariant results.Keys == results0.Keys + IdSet(group[..j])
      invariant forall id :: id in results ==> ValidatedAsText(results, args, id)
    {
      var a := group[j];
      ghost var k := GroupMemberIndex(args, text, j);
      ghost var before := results;
      results := results[a.id := isValidated];
      ValidationStep(before, args, k, isValidated, results);
      KeysStep(before, results0.Keys, group, j, isValidated);
      j := j + 1;
    }
    assert group[..j] == group;
  }
}
