/** The upload parsers: a policy document split into one clause per kept
    line, and comments built from decoded JSON records with field defaults.
    Reading the files, the JSON decoder, the pandas CSV reader and date
    parsing are not modelled: the parsers receive the file's text or the
    decoded items, and the fresh ids and the current time are parameters. */
module Ingestion {
  import opened Wrappers
  import opened Text
  import opened PyValue
  import opened Models
  import opened Sequences

  // ---------------------------------------------------------------------
  // Policy documents
  // ---------------------------------------------------------------------

  const PolicyTitle: string := "Policy Document"

  /** A line becomes a clause when it is not blank and does not itself start
      with '#' (an indented '#' line is kept). */
  predicate Kept(line: string) {
    Strip(line) != "" && !StartsWith(line, "#")
  }

  /** The clause of line `i` (counted from 0). */
  function ClauseFor(i: nat, line: string): PolicyClause {
    PolicyClause("clause_" + ZeroPadded(i, 3), Strip(line), "Section " + NatToString(i + 1), [], [])
  }

  /** The clauses of the lines, in line order. */
  function PolicyClauses(lines: seq<string>): seq<PolicyClause> {
    if lines == [] then []
    else
      var n := |lines| - 1;
      PolicyClauses(lines[..n]) + (if Kept(lines[n]) then [ClauseFor(n, lines[n])] else [])
  }

  /** The indices of the kept lines, in order. */
  function KeptLines(lines: seq<string>): seq<nat> {
    if lines == [] then []
    else
      var n := |lines| - 1;
      KeptLines(lines[..n]) + (if Kept(lines[n]) then [n] else [])
  }

  /** The kept line indices are in range, increasing, and cover every
      kept line. */
  lemma {:induction false} KeptLinesShape(lines: seq<string>)
    ensures var origin := KeptLines(lines);
      && |origin| <= |lines|
      && (forall k :: 0 <= k < |origin| ==> origin[k] < |lines| && Kept(lines[origin[k]]))
      && (forall k, l :: 0 <= k < l < |origin| ==> origin[k] < origin[l])
      && (forall i :: 0 <= i < |lines| && Kept(lines[i]) ==> i in origin)
  {
    if lines != [] {
      var n := |lines| - 1;
      var init := lines[..n];
      KeptLinesShape(init);
      assert forall i :: 0 <= i < n ==> init[i] == lines[i];
      var prev := KeptLines(init);
      var origin := KeptLines(lines);
      assert forall k :: 0 <= k < |prev| ==> origin[k] == prev[k];
    }
  }

  /** Clause k is made from the k-th kept line. */
  lemma {:induction false} PolicyClausesShape(lines: seq<string>)
    ensures var clauses, origin := PolicyClauses(lines), KeptLines(lines);
      && |clauses| == |origin| <= |lines|
      && (forall k :: 0 <= k < |origin| ==>
            origin[k] < |lines| && Kept(lines[origin[k]]) && clauses[k] == ClauseFor(origin[k], lines[origin[k]]))
  {
    KeptLinesShape(lines);
    if lines != [] {
      var n := |lines| - 1;
      var init := lines[..n];
      PolicyClausesShape(init);
      var prev, origin := KeptLines(init), KeptLines(lines);
      forall k | 0 <= k < |origin|
        ensures PolicyClauses(lines)[k] == ClauseFor(origin[k], lines[origin[k]])
      {
        if k < |prev| {
          assert origin[k] == prev[k] && init[prev[k]] == lines[prev[k]];
        }
      }
    }
  }

  /** A clause id determines the line number it was made from. */
  lemma ClauseIdInjective(i: nat, j: nat, a: string, b: string)
    ensures ClauseFor(i, a).id == ClauseFor(j, b).id ==> i == j
  {
    var p, q := ZeroPadded(i, 3), ZeroPadded(j, 3);
    if "clause_" + p == "clause_" + q {
      assert p == ("clause_" + p)[7..];
      assert q == ("clause_" + q)[7..];
      ZeroPaddedInjective(i, j, 3);
    }
  }

  /** No two clauses of a document share an id. */
  lemma ClauseIdsDistinct(lines: seq<string>)
    ensures forall k, l :: 0 <= k < l < |PolicyClauses(lines)| ==>
              PolicyClauses(lines)[k].id != PolicyClauses(lines)[l].id
  {
    KeptLinesShape(lines);
    PolicyClausesShape(lines);
    var clauses, origin := PolicyClauses(lines), KeptLines(lines);
    forall k, l | 0 <= k < l < |clauses|
      ensures clauses[k].id != clauses[l].id
    {
      ClauseIdInjective(origin[k], origin[l], lines[origin[k]], lines[origin[l]]);
    }
  }

  /** parse_policy_document on the file's text: one clause per kept line,
      the text kept verbatim as the content. */
  method ParsePolicyDocument(content: string, documentId: string) returns (policy: PolicyDocument)
    ensures policy == PolicyDocument(documentId, PolicyTitle, content, PolicyClauses(Split(content, '\n')))
  {
    var lines := Split(content, '\n');
    var clauses := [];
    var i := 0;
    while i < |lines|
      invariant 0 <= i <= |lines|
      invariant clauses == PolicyClauses(lines[..i])
    {
      var line := lines[i];
      assert lines[..i + 1][..i] == lines[..i];
      if Strip(line) != "" && !StartsWith(line, "#") {
        var clause := PolicyClause("clause_" + ZeroPadded(i, 3), Strip(line), "Section " + NatToString(i + 1), [], []);
        clauses := clauses + [clause];
      }
      i := i + 1;
    }
    assert lines[..|lines|] == lines;
    policy := PolicyDocument(documentId, PolicyTitle, content, clauses);
  }

  /** A '#' after indentation does not make a comment line. */
  lemma IndentedHashKept()
    ensures Kept("  # x")
    ensures !Kept("# x")
    ensures !Kept(" \t ")
  {
    var s := "  # x";
    assert s[2] == '#' && !IsSpace(s[2]);
    StripShape(s);
    assert !StartsWith(s, "#") by { assert s[0] != '#'; }
    assert StartsWith("# x", "#") by { assert "# x"[..1] == "#"; }
    StripShape(" \t ");
    assert forall c :: c in " \t " ==> IsSpace(c);
  }

  // ---------------------------------------------------------------------
  // JSON comments
  // ---------------------------------------------------------------------

  /** Why a decoded item cannot become a comment (the exception the program
      raises). `index` is the item's position. */
  datatype ParseError =
    | NotADict(index: nat)
    | MissingText(index: nat)
    | InvalidField(index: nat, field: string)

  /** The string value of a field, or its default when absent; `None` when
      the value is not a string (the comment model rejects it). */
  function StringField(entries: seq<(string, Value)>, key: string, default: string): Option<string> {
    var v := GetOr(entries, key, Str(default));
    if v.Str? then Some(v.s) else None
  }

  /** One decoded item as a comment: the id defaults to a fresh one, source
      and clause to "unknown", metadata to an empty dict; a missing
      timestamp is the current time; a missing text is an error. */
  function CommentOf(item: Value, index: nat, freshId: string, now: string): (r: Result<Comment, ParseError>)
    ensures r.Ok? ==> item.Dict? && Has(item.entries, "text")
    ensures item.Dict? && !Has(item.entries, "text") ==> r == Err(MissingText(index))
    ensures !item.Dict? ==> r == Err(NotADict(index))
  {
    if !item.Dict? then Err(NotADict(index))
    else
      var e := item.entries;
      var id := StringField(e, "id", freshId);
      if !Has(e, "text") then Err(MissingText(index))
      else
        var text := Lookup(e, "text").value;
        var source := StringField(e, "source", "unknown");
        var timestamp := StringField(e, "timestamp", now);
        var clause := StringField(e, "policy_clause", "unknown");
        var metadata := GetOr(e, "metadata", Dict([]));
        if id.None? then Err(InvalidField(index, "id"))
        else if !text.Str? then Err(InvalidField(index, "text"))
        else if source.None? then Err(InvalidField(index, "source"))
        else if timestamp.None? then Err(InvalidField(index, "timestamp"))
        else if clause.None? then Err(InvalidField(index, "policy_clause"))
        else if !(metadata.Dict? || metadata.Null?) then Err(InvalidField(index, "metadata"))
        else Ok(Comment(id.value, text.s, source.value, timestamp.value, clause.value,
                        if metadata.Null? then None else Some(metadata)))
  }

  /** The fields an item without "id", "source", "policy_clause",
      "timestamp" and "metadata" gets. */
  lemma CommentDefaults(item: Value, text: string, index: nat, freshId: string, now: string)
    requires item.Dict? && Lookup(item.entries, "text") == Some(Str(text))
    requires !Has(item.entries, "id") && !Has(item.entries, "source") && !Has(item.entries, "policy_clause")
    requires !Has(item.entries, "timestamp") && !Has(item.entries, "metadata")
    ensures CommentOf(item, index, freshId, now) ==
      Ok(Comment(freshId, text, "unknown", now, "unknown", Some(Dict([]))))
  {
  }

  /** Each item's conversion, by position. */
  function Conversions(items: seq<Value>, ids: seq<string>, now: string): (r: seq<Result<Comment, ParseError>>)
    requires |ids| == |items|
    ensures |r| == |items|
    ensures forall i :: 0 <= i < |items| ==> r[i] == CommentOf(items[i], i, ids[i], now)
  {
    seq(|items|, i requires 0 <= i < |items| => CommentOf(items[i], i, ids[i], now))
  }

  /** The items converted in order, stopping at the first that fails. */
  function ParseItems(items: seq<Value>, ids: seq<string>, now: string): Result<seq<Comment>, ParseError>
    requires |ids| == |items|
  {
    Collect(Conversions(items, ids, now))
  }

  /** The parse succeeds exactly when every item converts, and then gives
      one comment per item, in order. */
  lemma ParseItemsOk(items: seq<Value>, ids: seq<string>, now: string)
    requires |ids| == |items|
    ensures var r := ParseItems(items, ids, now);
      && (r.Ok? <==> forall i :: 0 <= i < |items| ==> CommentOf(items[i], i, ids[i], now).Ok?)
      && (r.Ok? ==> |r.value| == |items|)
      && (r.Ok? ==> forall i :: 0 <= i < |items| ==> r.value[i] == CommentOf(items[i], i, ids[i], now).value)
  {
    CollectOk(Conversions(items, ids, now));
  }

  /** A failing parse reports the error of the first item that fails. */
  lemma ParseItemsFirstError(items: seq<Value>, ids: seq<string>, now: string, i: nat)
    requires |ids| == |items| && i < |items|
    requires forall j :: 0 <= j < i ==> CommentOf(items[j], j, ids[j], now).Ok?
    requires CommentOf(items[i], i, ids[i], now).Err?
    ensures ParseItems(items, ids, now) == Err(CommentOf(items[i], i, ids[i], now).error)
  {
    CollectFirstError(Conversions(items, ids, now), i);
  }

  /** parse_json_comments on the decoded list: each item becomes a comment,
      in order. */
  method ParseJsonComments(items: seq<Value>, ids: seq<string>, now: string) returns (r: Result<seq<Comment>, ParseError>)
    requires |ids| == |items|
    ensures r == ParseItems(items, ids, now)
  {
    ghost var conversions := Conversions(items, ids, now);
    var comments := [];
    var i := 0;
    while i < |items|
      invariant 0 <= i <= |items|
      invariant Collect(conversions[..i]) == Ok(comments)
    {
      var comment := CommentOf(items[i], i, ids[i], now);
      CollectStep(conversions, i);
      if comment.Err? {
        r := Err(comment.error);
        CollectErrorSticks(conversions, i + 1);
        return;
      }
      comments := comments + [comment.value];
      i := i + 1;
    }
    assert conversions[..|items|] == conversions;
    r := Ok(comments);
  }
}
