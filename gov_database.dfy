/** The government database ingestor: the query taken from the source, the
    request URL, and the mapping of the decoded response to records. The
    HTTP request and the JSON decoding are not modelled: the decoded
    response, or its absence after a network error, is a parameter. */
module GovDatabase {
  import opened Wrappers
  import opened Text
  import opened PyValue
  import opened PluginBase
  import opened Sequences

  const SourceTypes: seq<string> := ["gov_db", "government", "gov_database"]

  /** can_handle. */
  predicate CanHandle(sourceType: string) {
    Handles(sourceType, SourceTypes)
  }

  /** The plugin answers to its three source types, in any letter case, and
      not to "default". */
  lemma CanHandleSourceTypes()
    ensures forall s :: CanHandle(s) <==> CanHandle(Lower(s))
    ensures forall i :: 0 <= i < |SourceTypes| ==> CanHandle(SourceTypes[i])
    ensures !CanHandle("default")
  {
    HandlesAnyCase(SourceTypes);
    assert Lower("default") == "default";
  }

  // ---------------------------------------------------------------------
  // The query and the request URL
  // ---------------------------------------------------------------------

  const DefaultBaseUrl := "https://api.gov/data"

  /** The (query type, query value) of a source: split at the first ':',
      or ("id", source) when there is none. */
  function SplitSource(source: string): (q: (string, string))
    ensures ':' !in source ==> q == ("id", source)
    ensures ':' in source ==> ':' !in q.0 && q.0 + ":" + q.1 == source
  {
    if ':' in source then
      var i := FirstIndex(source, ':');
      assert source == source[..i] + ":" + source[i + 1..];
      (source[..i], source[i + 1..])
    else ("id", source)
  }

  /** Splitting gives back the parts of `<type>:<value>` whenever the type
      has no ':'; the value may hold any number of them. */
  lemma SplitSourceOf(queryType: string, queryValue: string)
    requires ':' !in queryType
    ensures SplitSource(queryType + ":" + queryValue) == (queryType, queryValue)
  {
    var s := queryType + ":" + queryValue;
    assert s[|queryType|] == ':';
    var i := FirstIndex(s, ':');
    assert forall j :: 0 <= j < |queryType| ==> s[j] == queryType[j];
    assert forall j :: 0 <= j < i ==> s[..i][j] == s[j];
    assert i == |queryType|;
    assert s[..i] == queryType && s[i + 1..] == queryValue;
  }

  /** The URL requested for a source. */
  function RequestUrl(baseUrl: string, source: string): (url: string)
    ensures ':' !in source ==> url == baseUrl + "/id/" + source
  {
    var q := SplitSource(source);
    baseUrl + "/" + q.0 + "/" + q.1
  }

  /** `<type>:<value>` is requested at `<base>/<type>/<value>`. */
  lemma RequestUrlOf(baseUrl: string, queryType: string, queryValue: string)
    requires ':' !in queryType
    ensures RequestUrl(baseUrl, queryType + ":" + queryValue) == baseUrl + "/" + queryType + "/" + queryValue
  {
    SplitSourceOf(queryType, queryValue);
  }

  // ---------------------------------------------------------------------
  // Records
  // ---------------------------------------------------------------------

  /** One ingested record; `platform` is always "government_database". */
  datatype GovRecord = GovRecord(
    text: Value, source: Value, timestamp: Value, author: Value,
    platform: string, category: Value, region: Value)

  /** The two record shapes of the response mapping: list elements and a
      single item take their text from "comment" first, the elements of a
      "comments" field from "text" only. */
  datatype Shape = ItemShape | CommentShape

  /** The record of one dict. */
  function Record(entries: seq<(string, Value)>, shape: Shape): GovRecord {
    var text := GetOr(entries, "text", Str(""));
    GovRecord(
      if shape == ItemShape then GetOr(entries, "comment", text) else text,
      GetOr(entries, "source", Str("Government Database")),
      GetOr(entries, "timestamp", GetOr(entries, "date", Str(""))),
      GetOr(entries, "author", Str("Anonymous")),
      "government_database",
      GetOr(entries, "category", Str("general")),
      GetOr(entries, "region", Str("national")))
  }

  /** An item's "comment" wins over its "text" whenever the key is present,
      even with an empty value; a comment of a "comments" field ignores
      "comment" altogether. */
  lemma RecordText(entries: seq<(string, Value)>)
    ensures Has(entries, "comment") ==> Record(entries, ItemShape).text == Lookup(entries, "comment").value
    ensures !Has(entries, "comment") ==> Record(entries, ItemShape).text == Record(entries, CommentShape).text
    ensures Record(entries, CommentShape).text == GetOr(entries, "text", Str(""))
    ensures Record([("comment", Str("")), ("text", Str("hi"))], ItemShape).text == Str("")
    ensures Record([("comment", Str("")), ("text", Str("hi"))], CommentShape).text == Str("hi")
  {
    var e := [("comment", Str("")), ("text", Str("hi"))];
    LookupFirst(e, "comment", 0);
    LookupFirst(e, "text", 1);
  }

  /** A dict without any of the keys gets every default. */
  lemma RecordDefaults(entries: seq<(string, Value)>, shape: Shape)
    requires forall i :: 0 <= i < |entries| ==>
               entries[i].0 !in ["comment", "text", "source", "timestamp", "date", "author", "category", "region"]
    ensures Record(entries, shape) == GovRecord(
              Str(""), Str("Government Database"), Str(""), Str("Anonymous"),
              "government_database", Str("general"), Str("national"))
  {
    assert forall i :: 0 <= i < |entries| ==> entries[i].0 != "comment" && entries[i].0 != "text";
    assert forall i :: 0 <= i < |entries| ==> entries[i].0 != "source" && entries[i].0 != "timestamp";
    assert forall i :: 0 <= i < |entries| ==> entries[i].0 != "date" && entries[i].0 != "author";
    assert forall i :: 0 <= i < |entries| ==> entries[i].0 != "category" && entries[i].0 != "region";
  }

  /** The record of element `i`, or `Err(i)` where `.get` on it raises. */
  function RecordResults(items: seq<Value>, shape: Shape): (rs: seq<Result<GovRecord, nat>>)
    ensures |rs| == |items|
    ensures forall i :: 0 <= i < |items| ==>
              rs[i] == if items[i].Dict? then Ok(Record(items[i].entries, shape)) else Err(i)
  {
    seq(|items|, i requires 0 <= i < |items| =>
      if items[i].Dict? then Ok(Record(items[i].entries, shape)) else Err(i))
  }

  /** The records of a list of elements, or the first element that is not a
      dict. */
  function Records(items: seq<Value>, shape: Shape): Result<seq<GovRecord>, nat> {
    Collect(RecordResults(items, shape))
  }

  /** A list of dicts gives one record per dict, in order; any other element
      makes the whole mapping fail at the first one. */
  lemma RecordsOk(items: seq<Value>, shape: Shape)
    ensures Records(items, shape).Ok? <==> AllDicts(items)
    ensures Records(items, shape).Ok? ==>
              (|Records(items, shape).value| == |items| &&
               forall i :: 0 <= i < |items| ==> Records(items, shape).value[i] == Record(items[i].entries, shape))
  {
    CollectOk(RecordResults(items, shape));
  }

  /** The loop that appends one record per element. */
  method MapItems(items: seq<Value>, shape: Shape) returns (r: Result<seq<GovRecord>, nat>)
    ensures r == Records(items, shape)
  {
    ghost var results := RecordResults(items, shape);
    var records := [];
    var i := 0;
    while i < |items|
      invariant 0 <= i <= |items|
      invariant Collect(results[..i]) == Ok(records)
    {
      CollectStep(results, i);
      if !items[i].Dict? {
        CollectErrorSticks(results, i + 1);
        return Err(i);
      }
      records := records + [Record(items[i].entries, shape)];
      i := i + 1;
    }
    assert results[..i] == results;
    r := Ok(records);
  }

  // ---------------------------------------------------------------------
  // The response
  // ---------------------------------------------------------------------

  /** The records of a "comments" field: a list is mapped element by element;
      an empty string or dict is iterated without elements; any other value
      raises (a non-empty string or dict yields strings, which have no
      `.get`; the rest are not iterable). `None` stands for the raise. */
  function CommentsRecords(comments: Value): Option<seq<GovRecord>> {
    match comments
    case List(items) =>
      var r := Records(items, CommentShape);
      if r.Ok? then Some(r.value) else None
    case Str(s) => if s == "" then Some([]) else None
    case Dict(entries) => if entries == [] then Some([]) else None
    case _ => None
  }

  /** The records of a decoded response, `None` when the mapping raises. */
  function ResponseRecords(data: Value): Option<seq<GovRecord>> {
    match data
    case List(items) =>
      var r := Records(items, ItemShape);
      if r.Ok? then Some(r.value) else None
    case Dict(entries) =>
      (match Lookup(entries, "comments")
       case Some(comments) => CommentsRecords(comments)
       case None => Some([Record(entries, ItemShape)]))
    case _ => Some([])
  }

  /** The shapes of the mapping: a list of dicts gives one record per dict;
      a dict with a list of dict comments one record per comment; any other
      dict exactly one record; a value that is neither list nor dict
      nothing. */
  lemma ResponseShapes(data: Value)
    ensures data.List? && AllDicts(data.items) ==>
              ResponseRecords(data).Some? && |ResponseRecords(data).value| == |data.items|
    ensures data.List? && !AllDicts(data.items) ==> ResponseRecords(data).None?
    ensures data.Dict? && !Has(data.entries, "comments") ==>
              ResponseRecords(data) == Some([Record(data.entries, ItemShape)])
    ensures data.Dict? && Has(data.entries, "comments") && Lookup(data.entries, "comments").value.List? ==>
              var comments := Lookup(data.entries, "comments").value.items;
              (ResponseRecords(data).Some? <==> AllDicts(comments)) &&
              (AllDicts(comments) ==> |ResponseRecords(data).value| == |comments|)
    ensures !data.List? && !data.Dict? ==> ResponseRecords(data) == Some([])
  {
    if data.List? {
      RecordsOk(data.items, ItemShape);
    } else if data.Dict? && Has(data.entries, "comments") && Lookup(data.entries, "comments").value.List? {
      RecordsOk(Lookup(data.entries, "comments").value.items, CommentShape);
    }
  }

  /** The mapping of a decoded response, with its appending loops. */
  method MapResponse(data: Value) returns (r: Option<seq<GovRecord>>)
    ensures r == ResponseRecords(data)
  {
    if data.List? {
      var items := MapItems(data.items, ItemShape);
      r := if items.Ok? then Some(items.value) else None;
    } else if data.Dict? {
      var comments := Lookup(data.entries, "comments");
      if comments.None? {
        r := Some([Record(data.entries, ItemShape)]);
      } else if comments.value.List? {
        var items := MapItems(comments.value.items, CommentShape);
        r := if items.Ok? then Some(items.value) else None;
      } else {
        r := CommentsRecords(comments.value);
      }
    } else {
      r := Some([]);
    }
  }

  /** ingest: requests `RequestUrl(baseUrl, source)`; `response` is the
      decoded body, `None` after a network or decoding error. Any error
      gives no records. */
  method Ingest(source: string, baseUrl: string, response: Option<Value>) returns (url: string, records: seq<GovRecord>)
    ensures url == RequestUrl(baseUrl, source)
    ensures response.None? ==> records == []
    ensures response.Some? ==>
              records == (var m := ResponseRecords(response.value); if m.Some? then m.value else [])
    ensures forall i :: 0 <= i < |records| ==> records[i].platform == "government_database"
  {
    var q := SplitSource(source);
    url := baseUrl + "/" + q.0 + "/" + q.1;
    if response.None? {
      return url, [];
    }
    var mapped := MapResponse(response.value);
    records := if mapped.Some? then mapped.value else [];
    PlatformIsFixed(response.value);
  }

  /** Every record the mapping produces is on the government platform. */
  lemma PlatformIsFixed(data: Value)
    ensures var m := ResponseRecords(data);
      m.Some? ==> forall i :: 0 <= i < |m.value| ==> m.value[i].platform == "government_database"
  {
    ResponseShapes(data);
    if data.List? {
      RecordsOk(data.items, ItemShape);
    } else if data.Dict? && Has(data.entries, "comments") && Lookup(data.entries, "comments").value.List? {
      RecordsOk(Lookup(data.entries, "comments").value.items, CommentShape);
    }
  }
}
