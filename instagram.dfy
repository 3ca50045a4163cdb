/** The Instagram ingestor: the post id taken from a URL or given as is, the
    access token check, and the formatting of fetched comments. The Graph API
    calls (token test, paged comment fetch) are not modelled: their outcomes
    are parameters. */
module Instagram {
  import opened Wrappers
  import opened Text
  import opened PyValue
  import opened PluginBase
  import opened Sequences

  const SourceTypes: seq<string> := ["instagram", "ig", "insta"]

  /** can_handle. */
  predicate CanHandle(sourceType: string) {
    Handles(sourceType, SourceTypes)
  }

  /** The plugin answers to its three source types, in any letter case, and
      not to "default". */
  lemma CanHandleSourceTypes()
    ensures forall s :: CanHandle(s) <==> CanHandle(Lower(s))
    ensures forall i :: 0 <= i < |SourceTypes| ==> CanHandle(SourceTypes[i])
    ensures !CanHandle("default")
  {
    HandlesAnyCase(SourceTypes);
    assert Lower("default") == "default";
  }

  /** initialize: an empty token fails before any call; otherwise the
      outcome is whether the API accepted the token. */
  function Initialize(accessToken: string, accepted: bool): (ok: bool)
    ensures ok ==> accessToken != ""
    ensures accessToken != "" ==> ok == accepted
  {
    if accessToken == "" then false else accepted
  }

  /** _extract_post_id: a source without '/' is already an id; otherwise the
      last path segment once surrounding slashes are stripped. (The `None`
      return of the source is unreachable: splitting always gives a part.) */
  function ExtractPostId(source: string): (r: string)
    ensures '/' !in source ==> r == source
    ensures '/' !in r
  {
    if '/' !in source then source else LastPart(StripBy(source, Only("/")), '/')
  }

  /** A post URL `<prefix>/<id>` followed by any number of slashes gives
      back `<id>`, e.g. https://www.instagram.com/p/C1234567890/. */
  lemma PostUrlId(prefix: string, id: string, tail: string)
    requires id != [] && '/' !in id
    requires forall k :: 0 <= k < |tail| ==> tail[k] == '/'
    ensures ExtractPostId(prefix + "/" + id + tail) == id
  {
    var t := StripBy(prefix + "/" + id + tail, Only("/"));
    StripPostUrl(prefix, id, tail);
    var r := LastPart(t, '/');
    SameSegment(t, '/', |t| - |id|, |t| - |r|);
  }

  /** Stripping the slashes around `<prefix>/<id><tail>` leaves text that
      ends with `<id>`, right after a slash or with nothing before it. */
  lemma StripPostUrl(prefix: string, id: string, tail: string)
    requires id != [] && '/' !in id
    requires forall k :: 0 <= k < |tail| ==> tail[k] == '/'
    ensures var t := StripBy(prefix + "/" + id + tail, Only("/"));
      |id| <= |t| && t[|t| - |id|..] == id && (|t| == |id| || t[|t| - |id| - 1] == '/')
  {
    var v := prefix + "/" + id;
    var u := v + tail;
    var slash := Only("/");
    // Stripping the front keeps at least the whole of `<id>`.
    var t0 := TrimStart(u, slash);
    TrimStartShape(u, slash);
    var a := |u| - |t0|;
    assert u[|prefix| + 1] == id[0];
    assert !In(u[|prefix| + 1], slash);
    assert a <= |prefix| + 1;
    assert t0 == u[a..];
    // Stripping the back removes exactly the tail.
    var t := TrimEnd(t0, slash);
    TrimEndShape(t0, slash);
    assert !In(t0[|v| - 1 - a], slash);
    assert forall j :: |v| - a <= j < |t0| ==> t0[j] == tail[j - (|v| - a)];
    assert |t| == |v| - a;
    assert u[..|v|] == v;
    assert t == u[a..|v|] == v[a..];
    var m := |t| - |id|;
    assert t[m..] == id;
    assert m == 0 || t[m - 1] == v[|prefix|];
  }

  /** Two positions that each start a separator-free suffix right after a
      separator (or at the start) are the same position. */
  lemma SameSegment(t: string, sep: char, m: nat, k: nat)
    requires m <= |t| && k <= |t|
    requires m == 0 || t[m - 1] == sep
    requires k == 0 || t[k - 1] == sep
    requires sep !in t[m..] && sep !in t[k..]
    ensures m == k
  {
    assert forall j :: m <= j < |t| ==> t[j] == t[m..][j - m];
    assert forall j :: k <= j < |t| ==> t[j] == t[k..][j - k];
  }

  /** The replies count of a comment: `.get("count", 0)` of its replies dict,
      or 0 without one; a replies value that is not a dict makes `.get` raise. */
  function RepliesCount(comment: seq<(string, Value)>): Option<Value> {
    match Lookup(comment, "replies")
    case None => Some(Int(0))
    case Some(Dict(entries)) => Some(GetOr(entries, "count", Int(0)))
    case Some(_) => None
  }

  /** The record of comment `i`, or `Err(i)` where formatting it raises: the
      comment is not a dict, or its replies value is not one. */
  function CommentRecord(comment: Value, i: nat, source: string): Result<PlatformRecord, nat> {
    if !comment.Dict? then Err(i)
    else
      var c := comment.entries;
      match RepliesCount(c)
      case None => Err(i)
      case Some(replies) =>
        Ok(PlatformRecord(
          GetOr(c, "text", Str("")),
          source,
          GetOr(c, "timestamp", Str("")),
          GetOr(c, "username", Str("unknown")),
          GetOr(c, "like_count", Int(0)),
          [("platform", Str("instagram")),
           ("post_id", GetOr(c, "id", Str(""))),
           ("replies", replies)]))
  }

  /** A comment that formats: the username is the author, the replies count
      comes from the replies dict, and the metadata has no category. */
  lemma CommentRecordFields(c: seq<(string, Value)>, i: nat, source: string)
    requires CommentRecord(Dict(c), i, source).Ok?
    ensures var r := CommentRecord(Dict(c), i, source).value;
      && r.author == GetOr(c, "username", Str("unknown"))
      && r.source == source
      && Lookup(r.metadata, "platform") == Some(Str("instagram"))
      && (!Has(c, "replies") ==> Lookup(r.metadata, "replies") == Some(Int(0)))
      && (Has(c, "replies") ==>
            (Lookup(c, "replies").value.Dict? &&
             Lookup(r.metadata, "replies") == Some(GetOr(Lookup(c, "replies").value.entries, "count", Int(0)))))
      && !Has(r.metadata, "category")
  {
    var m := CommentRecord(Dict(c), i, source).value.metadata;
    LookupFirst(m, "platform", 0);
    LookupFirst(m, "replies", 2);
  }

  /** A dict comment fails exactly when its replies value is present and not
      a dict. */
  lemma CommentRecordFails(c: seq<(string, Value)>, i: nat, source: string)
    ensures CommentRecord(Dict(c), i, source).Err? <==> (Has(c, "replies") && !Lookup(c, "replies").value.Dict?)
    ensures CommentRecord(Dict(c), i, source).Err? ==> CommentRecord(Dict(c), i, source).error == i
  {
  }

  /** The per-comment outcomes, in order. */
  function CommentResults(comments: seq<Value>, source: string): (rs: seq<Result<PlatformRecord, nat>>)
    ensures |rs| == |comments|
    ensures forall i :: 0 <= i < |comments| ==> rs[i] == CommentRecord(comments[i], i, source)
  {
    seq(|comments|, i requires 0 <= i < |comments| => CommentRecord(comments[i], i, source))
  }

  /** What _format_comments returns, or the position of the comment it
      raises on. */
  function FormattedComments(comments: seq<Value>, source: string): Result<seq<PlatformRecord>, nat> {
    Collect(CommentResults(comments, source))
  }

  /** Formatting succeeds exactly when every comment formats, and then gives
      one record per comment in order. */
  lemma FormattedCommentsOk(comments: seq<Value>, source: string)
    ensures var f := FormattedComments(comments, source);
      && (f.Ok? <==> forall i :: 0 <= i < |comments| ==> CommentRecord(comments[i], i, source).Ok?)
      && (f.Ok? ==>
            (|f.value| == |comments| &&
             forall i :: 0 <= i < |comments| ==> f.value[i] == CommentRecord(comments[i], i, source).value))
  {
    CollectOk(CommentResults(comments, source));
  }

  /** Formatting stops at the first comment that does not format. */
  lemma FormattedCommentsFirstError(comments: seq<Value>, source: string, i: nat)
    requires i < |comments| && CommentRecord(comments[i], i, source).Err?
    requires forall j :: 0 <= j < i ==> CommentRecord(comments[j], j, source).Ok?
    ensures FormattedComments(comments, source) == Err(i)
  {
    CollectFirstError(CommentResults(comments, source), i);
  }

  /** _format_comments. */
  method FormatComments(comments: seq<Value>, source: string) returns (r: Result<seq<PlatformRecord>, nat>)
    ensures r == FormattedComments(comments, source)
  {
    ghost var results := CommentResults(comments, source);
    var formatted := [];
    var i := 0;
    while i < |comments|
      invariant 0 <= i <= |comments|
      invariant Collect(results[..i]) == Ok(formatted)
    {
      CollectStep(results, i);
      var record := CommentRecord(comments[i], i, source);
      if record.Err? {
        CollectErrorSticks(results, i + 1);
        return Err(i);
      }
      formatted := formatted + [record.value];
      i := i + 1;
    }
    assert results[..i] == results;
    r := Ok(formatted);
  }

  /** ingest: nothing for an empty post id, a failed fetch (`fetched` is
      `None`: a non-200 page raises) or a comment that does not format;
      otherwise the formatted comments. `fetched` is every page's "data"
      concatenated. */
  method Ingest(source: string, fetched: Option<seq<Value>>) returns (records: seq<PlatformRecord>)
    ensures ExtractPostId(source) == "" || fetched.None? ==> records == []
    ensures ExtractPostId(source) != "" && fetched.Some? ==>
              records == (var f := FormattedComments(fetched.value, source); if f.Ok? then f.value else [])
  {
    var postId := ExtractPostId(source);
    if postId == "" {
      return [];
    }
    if fetched.None? {
      return [];
    }
    var formatted := FormatComments(fetched.value, source);
    records := if formatted.Ok? then formatted.value else [];
  }

  /** A source made only of slashes has an empty id, so nothing is ingested. */
  lemma OnlySlashesNoId(source: string)
    requires source != [] && forall k :: 0 <= k < |source| ==> source[k] == '/'
    ensures ExtractPostId(source) == ""
  {
    assert source[0] in source;
    StripByShape(source, Only("/"));
  }
}
