/** The LinkedIn ingestor: the post id taken from a post URL, the access
    token checks, and the formatting of fetched comments. Validating the
    token and fetching comments from the LinkedIn API are not modelled: their
    outcomes are parameters. */
module LinkedIn {
  import opened Wrappers
  import opened Text
  import opened PyValue
  import opened PluginBase
  import opened Patterns

  const SourceTypes: seq<string> := ["linkedin", "linked_in", "professional_network", "default"]

  /** can_handle. */
  predicate CanHandle(sourceType: string) {
    Handles(sourceType, SourceTypes)
  }

  /** The plugin answers to its four source types, in any letter case. */
  lemma CanHandleSourceTypes()
    ensures forall s :: CanHandle(s) <==> CanHandle(Lower(s))
    ensures forall i :: 0 <= i < |SourceTypes| ==> CanHandle(SourceTypes[i])
  {
    HandlesAnyCase(SourceTypes);
  }

  /** initialize: an empty token fails before any call; otherwise the
      outcome is whether the API accepted the token. */
  function Initialize(accessToken: string, accepted: bool): (ok: bool)
    ensures ok ==> accessToken != ""
  {
    if accessToken == "" then false else accepted
  }

  /** The fixed part of the post URL pattern, which captures `\d+`. */
  const ActivityCore := "linkedin.com/feed/update/urn:li:activity:"

  /** _extract_post_id. */
  function ExtractPostId(url: string): (r: Option<string>)
    ensures r.Some? ==> IsDigits(r.value)
  {
    Capture(url, ActivityCore, Digit)
  }

  /** The post id is the digit run after the leftmost occurrence of the
      fixed part that a digit follows; with no such occurrence there is
      none. */
  lemma ExtractPostIdShape(url: string, q: nat)
    requires MatchAt(url, q, ActivityCore, Digit)
    requires forall p :: 0 <= p < q ==> !MatchAt(url, p, ActivityCore, Digit)
    ensures ExtractPostId(url) == Some(url[q + |ActivityCore|..RunEnd(url, q + |ActivityCore|, Digit)])
  {
    CaptureAt(url, ActivityCore, Digit, q);
  }

  /** A URL without the letter 'l' has no post id. */
  lemma NoPostIdWithoutL(url: string)
    requires 'l' !in url
    ensures ExtractPostId(url).None?
  {
    NoMatchWithoutFirstLetter(url, ActivityCore, Digit);
  }

  /** The record of one fetched comment. */
  function CommentRecord(comment: seq<(string, Value)>, source: string): PlatformRecord {
    PlatformRecord(
      GetOr(comment, "text", Str("")),
      source,
      GetOr(comment, "timestamp", Str("")),
      GetOr(comment, "author", Str("unknown")),
      GetOr(comment, "like_count", Int(0)),
      [("platform", Str("linkedin")),
       ("post_id", GetOr(comment, "id", Str(""))),
       ("replies", GetOr(comment, "reply_count", Int(0))),
       ("category", Str("professional_discussion"))])
  }

  /** The record of a comment: its own fields where present, the defaults
      otherwise, and the fixed platform and category. */
  lemma CommentRecordFields(comment: seq<(string, Value)>, source: string)
    ensures var r := CommentRecord(comment, source);
      && (Has(comment, "text") ==> r.text == Lookup(comment, "text").value)
      && (!Has(comment, "text") ==> r.text == Str(""))
      && (!Has(comment, "author") ==> r.author == Str("unknown"))
      && (!Has(comment, "like_count") ==> r.likes == Int(0))
      && r.source == source
      && Lookup(r.metadata, "platform") == Some(Str("linkedin"))
      && Lookup(r.metadata, "category") == Some(Str("professional_discussion"))
  {
    var m := CommentRecord(comment, source).metadata;
    LookupFirst(m, "platform", 0);
    LookupFirst(m, "category", 3);
  }

  /** _format_comments: one record per comment, in order. */
  method FormatComments(comments: seq<seq<(string, Value)>>, source: string) returns (formatted: seq<PlatformRecord>)
    ensures |formatted| == |comments|
    ensures forall i :: 0 <= i < |comments| ==> formatted[i] == CommentRecord(comments[i], source)
  {
    formatted := [];
    var i := 0;
    while i < |comments|
      invariant 0 <= i <= |comments|
      invariant |formatted| == i
      invariant forall k :: 0 <= k < i ==> formatted[k] == CommentRecord(comments[k], source)
    {
      formatted := formatted + [CommentRecord(comments[i], source)];
      i := i + 1;
    }
  }

  /** ingest: nothing without a post id or without a token; otherwise the
      fetched comments formatted. `fetched` is what the API returned (the
      fetch itself turns a request error into no comments). */
  method Ingest(source: string, accessToken: string, fetched: seq<seq<(string, Value)>>) returns (records: seq<PlatformRecord>)
    ensures ExtractPostId(source).None? || accessToken == "" ==> records == []
    ensures ExtractPostId(source).Some? && accessToken != "" ==>
              |records| == |fetched| && forall i :: 0 <= i < |fetched| ==> records[i] == CommentRecord(fetched[i], source)
  {
    var postId := ExtractPostId(source);
    if postId.None? || postId.value == "" {
      return [];
    }
    if accessToken == "" {
      return [];
    }
    records := FormatComments(fetched, source);
  }
}
