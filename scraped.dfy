/** The scraped-data ingestor: files exported by scraping tools (JSON, plain
    text or CSV) turned into uniform records, with the platform guessed from
    the source and the item. Reading the file, decoding its JSON and reading
    its CSV rows are not modelled: ingest receives what they produce. */
module ScrapedData {
  import opened Wrappers
  import opened Text
  import opened PyValue
  import opened PluginBase
  import opened Sequences

  const SourceTypes: seq<string> := ["scraped_data", "scraped", "yt-dlp", "youtube-dl", "manual_scrape"]

  /** can_handle. */
  predicate CanHandle(sourceType: string) {
    Handles(sourceType, SourceTypes)
  }

  /** The plugin answers to its five source types, in any letter case. */
  lemma CanHandleSourceTypes()
    ensures forall s :: CanHandle(s) <==> CanHandle(Lower(s))
    ensures forall i :: 0 <= i < |SourceTypes| ==> CanHandle(SourceTypes[i])
  {
    HandlesAnyCase(SourceTypes);
  }

  // ---------------------------------------------------------------------
  // File formats
  // ---------------------------------------------------------------------

  /** `source.split('.')[-1].lower()`. */
  function FileExtension(source: string): (ext: string)
    ensures '.' !in ext
    ensures '.' !in source ==> ext == Lower(source)
  {
    var parts := Split(source, '.');
    var last := parts[|parts| - 1];
    assert last in parts;
    Lower(last)
  }

  datatype FileFormat = Json | Txt | Csv

  /** The supported extensions; anything else is refused. */
  function FormatOf(ext: string): Option<FileFormat> {
    if ext == "json" then Some(Json)
    else if ext == "txt" then Some(Txt)
    else if ext == "csv" then Some(Csv)
    else None
  }

  const ListKeys: seq<string> := ["comments", "items", "data", "entries"]

  /** The first of `keys` whose value is a list. */
  function FirstList(entries: seq<(string, Value)>, keys: seq<string>): (r: Option<seq<Value>>)
    ensures r.Some? <==> exists i :: 0 <= i < |keys| && Lookup(entries, keys[i]).Some? && Lookup(entries, keys[i]).value.List?
  {
    if keys == [] then None
    else
      var v := Lookup(entries, keys[0]);
      if v.Some? && v.value.List? then Some(v.value.items)
      else
        var r := FirstList(entries, keys[1..]);
        assert forall i :: 1 <= i < |keys| ==> keys[1..][i - 1] == keys[i];
        r
  }

  /** The first list-valued key wins. */
  lemma FirstListFirst(entries: seq<(string, Value)>, keys: seq<string>, i: nat)
    requires i < |keys| && Lookup(entries, keys[i]).Some? && Lookup(entries, keys[i]).value.List?
    requires forall j :: 0 <= j < i ==> !(Lookup(entries, keys[j]).Some? && Lookup(entries, keys[j]).value.List?)
    ensures FirstList(entries, keys) == Some(Lookup(entries, keys[i]).value.items)
  {
    if i > 0 {
      assert forall j :: 0 <= j < i - 1 ==> keys[1..][j] == keys[j + 1];
      FirstListFirst(entries, keys[1..], i - 1);
    }
  }

  /** _parse_json_data on the decoded file: a list as it is, a dict through
      its first list-valued key among comments/items/data/entries or else
      as the only item, and any other value as one item holding its text. */
  function ParseJsonData(data: Value): (items: seq<Value>)
    ensures data.List? ==> items == data.items
    ensures data.Dict? && FirstList(data.entries, ListKeys).None? ==> items == [data]
    ensures !data.List? && !data.Dict? ==> items == [Dict([("text", Str(PyStr(data)))])]
  {
    match data
    case List(items) => items
    case Dict(entries) =>
      var found := FirstList(entries, ListKeys);
      if found.Some? then found.value else [data]
    case _ => [Dict([("text", Str(PyStr(data)))])]
  }

  // ---------------------------------------------------------------------
  // Plain text
  // ---------------------------------------------------------------------

  /** The end of the whitespace run that starts at `i`. */
  function RunEnd(s: string, i: nat): (e: nat)
    requires i <= |s|
    ensures i <= e <= |s|
    ensures forall k :: i <= k < e ==> IsSpace(s[k])
    ensures e == |s| || !IsSpace(s[e])
    decreases |s| - i
  {
    if i == |s| || !IsSpace(s[i]) then i else RunEnd(s, i + 1)
  }

  /** A newline (`crlf` false) or a CR LF pair (`crlf` true) at `q`. */
  predicate BreakAt(s: string, q: nat, crlf: bool) {
    if crlf then q + 1 < |s| && s[q] == '\r' && s[q + 1] == '\n'
    else q < |s| && s[q] == '\n'
  }

  /** The last position in `[lo, hi)` where a break starts. */
  function LastBreak(s: string, lo: nat, hi: nat, crlf: bool): (r: Option<nat>)
    requires lo <= hi
    ensures r.Some? ==> lo <= r.value < hi && BreakAt(s, r.value, crlf)
    ensures r.Some? ==> forall q :: r.value < q < hi ==> !BreakAt(s, q, crlf)
    ensures r.None? ==> forall q :: lo <= q < hi ==> !BreakAt(s, q, crlf)
    decreases hi
  {
    if lo == hi then None
    else if BreakAt(s, hi - 1, crlf) then Some(hi - 1)
    else LastBreak(s, lo, hi - 1, crlf)
  }

  /** Where a match of `\n\s*\n|\r\n\s*\r\n` that starts at `p` ends. The
      greedy `\s*` takes the whole whitespace run and gives back just enough
      for the closing newline (or CR LF), so the match ends after the last
      one in the run. */
  function SeparatorEnd(s: string, p: nat): (r: Option<nat>)
    requires p <= |s|
    ensures r.Some? ==> p < r.value <= |s|
  {
    if BreakAt(s, p, false) then
      var q := LastBreak(s, p + 1, RunEnd(s, p + 1), false);
      if q.Some? then Some(q.value + 1) else AltSeparatorEnd(s, p)
    else AltSeparatorEnd(s, p)
  }

  /** The second alternative, `\r\n\s*\r\n`. */
  function AltSeparatorEnd(s: string, p: nat): (r: Option<nat>)
    requires p <= |s|
    ensures r.Some? ==> p < r.value <= |s|
  {
    if BreakAt(s, p, true) then
      var q := LastBreak(s, p + 2, RunEnd(s, p + 2), true);
      if q.Some? then Some(q.value + 2) else None
    else None
  }

  /** re.split from position `p`, the current piece starting at `start`. */
  function SplitFrom(s: string, start: nat, p: nat): (pieces: seq<string>)
    requires start <= p <= |s|
    ensures pieces != []
    decreases |s| - p
  {
    if p == |s| then [s[start..]]
    else
      var e := SeparatorEnd(s, p);
      if e.Some? then [s[start..p]] + SplitFrom(s, e.value, e.value)
      else SplitFrom(s, start, p + 1)
  }

  /** `re.split(r'\n\s*\n|\r\n\s*\r\n', s)`. */
  function SplitParagraphs(s: string): seq<string> {
    SplitFrom(s, 0, 0)
  }

  /** Positions where no separator starts do not cut the piece. */
  lemma {:induction false} SplitFromSkips(s: string, start: nat, p: nat, q: nat)
    requires start <= p <= q <= |s|
    requires forall k :: p <= k < q ==> SeparatorEnd(s, k).None?
    ensures SplitFrom(s, start, p) == SplitFrom(s, start, q)
    decreases q - p
  {
    if p < q {
      SplitFromSkips(s, start, p + 1, q);
    }
  }

  /** A text without a newline is one piece. */
  lemma NoNewlineOnePiece(s: string)
    requires '\n' !in s
    ensures SplitParagraphs(s) == [s]
  {
    forall k | 0 <= k < |s|
      ensures SeparatorEnd(s, k).None?
    {
      assert !BreakAt(s, k, false) && !BreakAt(s, k, true);
    }
    SplitFromSkips(s, 0, 0, |s|);
    assert s[0..] == s;
  }

  /** A blank line made of two newlines ends the piece before it and starts
      the next piece after it. */
  lemma BlankLineSeparates(s: string, p: nat)
    requires p + 2 <= |s| && s[p] == '\n' && s[p + 1] == '\n'
    requires p + 2 == |s| || !IsSpace(s[p + 2])
    ensures SeparatorEnd(s, p) == Some(p + 2)
  {
    assert RunEnd(s, p + 1) == p + 2;
    assert BreakAt(s, p + 1, false);
  }

  /** Two newline-free paragraphs separated by a blank line are split
      apart. */
  lemma TwoParagraphs(a: string, b: string)
    requires '\n' !in a && '\n' !in b && (b == [] || !IsSpace(b[0]))
    ensures SplitParagraphs(a + "\n\n" + b) == [a, b]
  {
    var s := a + "\n\n" + b;
    var n := |a|;
    assert forall k :: 0 <= k < n ==> s[k] == a[k];
    assert forall k :: n + 2 <= k < |s| ==> s[k] == b[k - n - 2];
    forall k | 0 <= k < n
      ensures SeparatorEnd(s, k).None?
    {
      assert !BreakAt(s, k, false);
      if BreakAt(s, k, true) {
        assert k + 1 == n;
        assert RunEnd(s, k + 2) == n + 2;
        assert !BreakAt(s, n + 1, true);
      }
    }
    SplitFromSkips(s, 0, 0, n);
    BlankLineSeparates(s, n);
    forall k | n + 2 <= k < |s|
      ensures SeparatorEnd(s, k).None?
    {
      assert !BreakAt(s, k, false) && !BreakAt(s, k, true);
    }
    SplitFromSkips(s, n + 2, n + 2, |s|);
    assert s[..n] == a && s[n + 2..] == b;
  }

  /** A piece that is not only whitespace. */
  predicate NonBlank(piece: string) {
    Strip(piece) != ""
  }

  /** The item of piece `i`: its index as id and its stripped text. */
  function TextItem(i: nat, piece: string): Value {
    Dict([("id", Str(NatToString(i))), ("text", Str(Strip(piece)))])
  }

  /** The items of the non-blank pieces, in order. */
  function TextItems(pieces: seq<string>): seq<Value> {
    if pieces == [] then []
    else
      var n := |pieces| - 1;
      TextItems(pieces[..n]) + (if NonBlank(pieces[n]) then [TextItem(n, pieces[n])] else [])
  }

  /** The indices of the non-blank pieces. */
  function KeptPieces(pieces: seq<string>): seq<nat> {
    if pieces == [] then []
    else
      var n := |pieces| - 1;
      KeptPieces(pieces[..n]) + (if NonBlank(pieces[n]) then [n] else [])
  }

  /** The kept indices are in range, increasing, and cover every
      non-blank piece. */
  lemma {:induction false} KeptPiecesShape(pieces: seq<string>)
    ensures var kept := KeptPieces(pieces);
      && |kept| <= |pieces|
      && (forall k :: 0 <= k < |kept| ==> kept[k] < |pieces| && NonBlank(pieces[kept[k]]))
      && (forall k, l :: 0 <= k < l < |kept| ==> kept[k] < kept[l])
      && (forall i :: 0 <= i < |pieces| && NonBlank(pieces[i]) ==> i in kept)
  {
    KeptPiecesInRange(pieces);
    KeptPiecesIncreasing(pieces);
    KeptPiecesComplete(pieces);
  }

  lemma {:induction false} KeptPiecesInRange(pieces: seq<string>)
    ensures var kept := KeptPieces(pieces);
      && |kept| <= |pieces|
      && (forall k :: 0 <= k < |kept| ==> kept[k] < |pieces| && NonBlank(pieces[kept[k]]))
  {
    if pieces != [] {
      var n := |pieces| - 1;
      var init := pieces[..n];
      KeptPiecesInRange(init);
      var prev, kept := KeptPieces(init), KeptPieces(pieces);
      forall k | 0 <= k < |kept|
        ensures kept[k] < |pieces| && NonBlank(pieces[kept[k]])
      {
        if k < |prev| { assert kept[k] == prev[k] && init[prev[k]] == pieces[prev[k]]; }
      }
    }
  }

  lemma {:induction false} KeptPiecesIncreasing(pieces: seq<string>)
    ensures var kept := KeptPieces(pieces);
      forall k, l :: 0 <= k < l < |kept| ==> kept[k] < kept[l]
  {
    if pieces != [] {
      var n := |pieces| - 1;
      var init := pieces[..n];
      KeptPiecesIncreasing(init);
      KeptPiecesInRange(init);
      var prev, kept := KeptPieces(init), KeptPieces(pieces);
      assert forall k :: 0 <= k < |prev| ==> kept[k] == prev[k] < n;
    }
  }

  lemma {:induction false} KeptPiecesComplete(pieces: seq<string>)
    ensures forall i :: 0 <= i < |pieces| && NonBlank(pieces[i]) ==> i in KeptPieces(pieces)
  {
    if pieces != [] {
      var n := |pieces| - 1;
      var init := pieces[..n];
      KeptPiecesComplete(init);
      var prev, kept := KeptPieces(init), KeptPieces(pieces);
      forall i | 0 <= i < |pieces| && NonBlank(pieces[i])
        ensures i in kept
      {
        if i < n {
          assert init[i] == pieces[i];
          assert i in prev;
        }
      }
    }
  }

  /** Item k comes from the k-th non-blank piece and carries that piece's
      index as id; blank pieces give no item but still use up an index. */
  lemma {:induction false} TextItemsShape(pieces: seq<string>)
    ensures var items, kept := TextItems(pieces), KeptPieces(pieces);
      && |items| == |kept| <= |pieces|
      && (forall k :: 0 <= k < |kept| ==>
            kept[k] < |pieces| && NonBlank(pieces[kept[k]]) && items[k] == TextItem(kept[k], pieces[kept[k]]))
  {
    KeptPiecesShape(pieces);
    if pieces != [] {
      var n := |pieces| - 1;
      var init := pieces[..n];
      TextItemsShape(init);
      var prev, kept := KeptPieces(init), KeptPieces(pieces);
      forall k | 0 <= k < |kept|
        ensures TextItems(pieces)[k] == TextItem(kept[k], pieces[kept[k]])
      {
        if k < |prev| {
          assert kept[k] == prev[k] && init[prev[k]] == pieces[prev[k]];
        }
      }
    }
  }

  /** _parse_text_data on the file's text. */
  method ParseTextData(content: string) returns (items: seq<Value>)
    ensures items == TextItems(SplitParagraphs(Strip(content)))
  {
    var pieces := SplitParagraphs(Strip(content));
    items := [];
    var i := 0;
    while i < |pieces|
      invariant 0 <= i <= |pieces|
      invariant items == TextItems(pieces[..i])
    {
      assert pieces[..i + 1][..i] == pieces[..i];
      var piece := pieces[i];
      if Strip(piece) != "" {
        items := items + [Dict([("id", Str(NatToString(i))), ("text", Str(Strip(piece)))])];
      }
      i := i + 1;
    }
    assert pieces[..|pieces|] == pieces;
  }

  // ---------------------------------------------------------------------
  // Records
  // ---------------------------------------------------------------------

  /** One formatted item; `raw` is the item itself. */
  datatype ScrapedRecord = ScrapedRecord(
    text: string, source: string, timestamp: string, author: string, likes: nat,
    platform: string, itemId: Value, replies: nat, raw: Value)

  /** `item.get(key)`. */
  function Get(entries: seq<(string, Value)>, key: string): Value {
    GetOr(entries, key, Null)
  }

  /** `item.get(keys[j]) or ... or item.get(keys[-1]) or default`. */
  function FirstTruthy(entries: seq<(string, Value)>, keys: seq<string>, j: nat, default: Value): Value
    requires j <= |keys|
    decreases |keys| - j
  {
    if j == |keys| then default
    else if Truthy(Get(entries, keys[j])) then Get(entries, keys[j])
    else FirstTruthy(entries, keys, j + 1, default)
  }

  /** With no truthy value among the keys from `j` on, the default. */
  lemma {:induction false} FirstTruthyNone(entries: seq<(string, Value)>, keys: seq<string>, j: nat, default: Value)
    requires j <= |keys|
    requires forall i :: j <= i < |keys| ==> !Truthy(Get(entries, keys[i]))
    ensures FirstTruthy(entries, keys, j, default) == default
    decreases |keys| - j
  {
    if j < |keys| {
      FirstTruthyNone(entries, keys, j + 1, default);
    }
  }

  /** Otherwise the value of the first key with a truthy value. */
  lemma {:induction false} FirstTruthyFirst(entries: seq<(string, Value)>, keys: seq<string>, j: nat, i: nat, default: Value)
    requires j <= i < |keys| && Truthy(Get(entries, keys[i]))
    requires forall l :: j <= l < i ==> !Truthy(Get(entries, keys[l]))
    ensures FirstTruthy(entries, keys, j, default) == Get(entries, keys[i])
    decreases i - j
  {
    if j < i {
      FirstTruthyFirst(entries, keys, j + 1, i, default);
    }
  }

  /** `int(v) if str(v).isdigit() else 0`. */
  function Count(v: Value): nat {
    var t := PyStr(v);
    if IsDigits(t) then DigitsValue(t) else 0
  }

  /** A non-negative integer counts as itself; a negative one, a boolean
      and a string that is not all digits count as 0. */
  lemma CountShape(v: Value)
    ensures v.Int? && v.i >= 0 ==> Count(v) == v.i
    ensures v.Int? && v.i < 0 ==> Count(v) == 0
    ensures v.Bool? ==> Count(v) == 0
    ensures v.Str? && !IsDigits(v.s) ==> Count(v) == 0
  {
    match v
    case Int(i) =>
      if i >= 0 {
        DigitsValueOfNatToString(i);
      } else {
        assert PyStr(v) == "-" + NatToString(-i);
        assert PyStr(v)[0] in PyStr(v) && !IsDigit(PyStr(v)[0]);
      }
    case Bool(b) =>
      var t := PyStr(v);
      assert t == if b then "True" else "False";
      assert t[0] in t && !IsDigit(t[0]);
    case _ =>
  }

  const TextKeys: seq<string> := ["text", "content", "comment"]
  const AuthorKeys: seq<string> := ["author", "username", "name"]
  const TimeKeys: seq<string> := ["timestamp", "date", "publishedAt"]
  const LikeKeys: seq<string> := ["likes", "like_count", "upvotes"]
  const ReplyKeys: seq<string> := ["replies", "reply_count", "comments"]

  /** _detect_platform: markers in the source first, then in the item's
      text; youtube before linkedin before instagram. */
  function DetectPlatform(source: string, item: Value): string {
    if Contains(source, "youtube.com") || Contains(source, "youtu.be") then "youtube"
    else if Contains(source, "linkedin.com") then "linkedin"
    else if Contains(source, "instagram.com") then "instagram"
    else
      var shown := Lower(Repr(item));
      if Contains(shown, "youtube") then "youtube"
      else if Contains(shown, "linkedin") then "linkedin"
      else if Contains(shown, "instagram") then "instagram"
      else "scraped_data"
  }

  /** A platform marker in the source decides, whatever the item says. */
  lemma SourceDecidesPlatform(source: string, item: Value, other: Value)
    requires Contains(source, "youtube.com") || Contains(source, "youtu.be") ||
             Contains(source, "linkedin.com") || Contains(source, "instagram.com")
    ensures DetectPlatform(source, item) == DetectPlatform(source, other)
  {
  }

  /** The record of item `i`. */
  function ItemRecord(entries: seq<(string, Value)>, i: nat, source: string): ScrapedRecord {
    ScrapedRecord(
      PyStr(FirstTruthy(entries, TextKeys, 0, Str(""))),
      source,
      PyStr(FirstTruthy(entries, TimeKeys, 0, Str(""))),
      PyStr(FirstTruthy(entries, AuthorKeys, 0, Str("unknown"))),
      Count(FirstTruthy(entries, LikeKeys, 0, Int(0))),
      DetectPlatform(source, Dict(entries)),
      GetOr(entries, "id", Str(NatToString(i))),
      Count(FirstTruthy(entries, ReplyKeys, 0, Int(0))),
      Dict(entries))
  }

  /** An item whose text, author and time keys hold only falsy values and
      that has no id gets the defaults. */
  lemma ItemDefaults(entries: seq<(string, Value)>, i: nat, source: string)
    requires forall k :: 0 <= k < |TextKeys| ==> !Truthy(Get(entries, TextKeys[k]))
    requires forall k :: 0 <= k < |AuthorKeys| ==> !Truthy(Get(entries, AuthorKeys[k]))
    requires forall k :: 0 <= k < |TimeKeys| ==> !Truthy(Get(entries, TimeKeys[k]))
    requires !Has(entries, "id")
    ensures var r := ItemRecord(entries, i, source);
      r.text == "" && r.author == "unknown" && r.timestamp == "" && r.itemId == Str(NatToString(i))
  {
    FirstTruthyNone(entries, TextKeys, 0, Str(""));
    FirstTruthyNone(entries, AuthorKeys, 0, Str("unknown"));
    FirstTruthyNone(entries, TimeKeys, 0, Str(""));
  }

  /** The record of the item at position `i`, or that position when the
      item is not a dict (its `.get` raises). */
  function RecordOf(item: Value, i: nat, source: string): Result<ScrapedRecord, nat> {
    if item.Dict? then Ok(ItemRecord(item.entries, i, source)) else Err(i)
  }

  /** The per-item results, in order. */
  function RecordResults(items: seq<Value>, source: string): (r: seq<Result<ScrapedRecord, nat>>)
    ensures |r| == |items|
    ensures forall i :: 0 <= i < |items| ==> r[i] == RecordOf(items[i], i, source)
  {
    seq(|items|, i requires 0 <= i < |items| => RecordOf(items[i], i, source))
  }

  /** The records of the items, or the position of the first item that is
      not a dict. */
  function ScrapedRecords(items: seq<Value>, source: string): Result<seq<ScrapedRecord>, nat> {
    Collect(RecordResults(items, source))
  }

  /** Formatting succeeds exactly when every item is a dict, and then gives
      one record per item, in order, record `i` made from item `i`. */
  lemma ScrapedRecordsOk(items: seq<Value>, source: string)
    ensures ScrapedRecords(items, source).Ok? <==> AllDicts(items)
    ensures ScrapedRecords(items, source).Ok? ==> |ScrapedRecords(items, source).value| == |items|
    ensures ScrapedRecords(items, source).Ok? ==> forall i :: 0 <= i < |items| ==>
              ScrapedRecords(items, source).value[i] == ItemRecord(items[i].entries, i, source)
  {
    var rs := RecordResults(items, source);
    CollectOk(rs);
    assert forall i :: 0 <= i < |items| ==> (rs[i].Ok? <==> items[i].Dict?);
  }

  /** Otherwise it reports the first item that is not a dict. */
  lemma ScrapedRecordsFirstError(items: seq<Value>, source: string, i: nat)
    requires i < |items| && !items[i].Dict?
    requires forall j :: 0 <= j < i ==> items[j].Dict?
    ensures ScrapedRecords(items, source) == Err(i)
  {
    var rs := RecordResults(items, source);
    assert forall j :: 0 <= j < i ==> rs[j].Ok?;
    CollectFirstError(rs, i);
  }

  /** _format_scraped_data, with `Err(i)` for the exception raised by the
      first item `i` that is not a dict. */
  method FormatScrapedData(items: seq<Value>, source: string) returns (r: Result<seq<ScrapedRecord>, nat>)
    ensures r == ScrapedRecords(items, source)
  {
    ghost var results := RecordResults(items, source);
    var records := [];
    var i := 0;
    while i < |items|
      invariant 0 <= i <= |items|
      invariant Collect(results[..i]) == Ok(records)
    {
      CollectStep(results, i);
      if !items[i].Dict? {
        CollectErrorSticks(results, i + 1);
        return Err(i);
      }
      records := records + [ItemRecord(items[i].entries, i, source)];
      i := i + 1;
    }
    assert results[..i] == results;
    r := Ok(records);
  }

  // ---------------------------------------------------------------------
  // Ingest
  // ---------------------------------------------------------------------

  /** An existing file as the ingestor would read it: its decoded JSON
      (`None` when it does not decode), its text, and the items the CSV
      reader builds from its rows, each with its row number as id, its
      joined non-empty values as text and its other columns (`None` when the
      dialect cannot be detected). */
  datatype ScrapedFile = ScrapedFile(json: Option<Value>, text: string, csvItems: Option<seq<Value>>)

  /** The items of an existing file, by its extension; `None` when the
      extension is not supported or the JSON does not decode. */
  function FileItems(source: string, file: ScrapedFile): Option<seq<Value>> {
    match FormatOf(FileExtension(source))
    case None => None
    case Some(Json) => if file.json.Some? then Some(ParseJsonData(file.json.value)) else None
    case Some(Txt) => Some(TextItems(SplitParagraphs(Strip(file.text))))
    case Some(Csv) => file.csvItems
  }

  /** The records ingest returns for a source; `file` is `None` when the
      source is not an existing path (an identifier, which gives nothing). */
  function IngestedRecords(source: string, file: Option<ScrapedFile>): seq<ScrapedRecord> {
    if file.None? then []
    else
      var items := FileItems(source, file.value);
      if items.None? then []
      else
        var records := ScrapedRecords(items.value, source);
        if records.Ok? then records.value else []
  }

  /** Reading the items of an existing file. */
  method ReadItems(source: string, file: ScrapedFile) returns (items: Option<seq<Value>>)
    ensures items == FileItems(source, file)
    ensures FormatOf(FileExtension(source)).None? ==> items.None?
  {
    var ext := FileExtension(source);
    if ext == "json" {
      if file.json.None? {
        return None;
      }
      items := Some(ParseJsonData(file.json.value));
    } else if ext == "txt" {
      var parsed := ParseTextData(file.text);
      items := Some(parsed);
    } else if ext == "csv" {
      items := file.csvItems;
    } else {
      items := None;
    }
  }

  /** ingest: every failure (no such file, an unsupported extension, a
      parse error, an item that is not a dict) gives no records. */
  method Ingest(source: string, file: Option<ScrapedFile>) returns (records: seq<ScrapedRecord>)
    ensures records == IngestedRecords(source, file)
    ensures file.None? || FormatOf(FileExtension(source)).None? ==> records == []
  {
    if file.None? {
      return [];
    }
    var items := ReadItems(source, file.value);
    if items.None? {
      return [];
    }
    var formatted := FormatScrapedData(items.value, source);
    records := if formatted.Ok? then formatted.value else [];
  }

  /** A JSON list of dicts gives one record per dict, in order, with the
      item's position as its default id. */
  lemma JsonListRecords(source: string, items: seq<Value>, file: ScrapedFile)
    requires FormatOf(FileExtension(source)) == Some(Json) && file.json == Some(List(items))
    requires AllDicts(items)
    ensures |IngestedRecords(source, Some(file))| == |items|
    ensures forall i :: 0 <= i < |items| ==>
              IngestedRecords(source, Some(file))[i] == ItemRecord(items[i].entries, i, source)
  {
    assert FileItems(source, file) == Some(items);
    ScrapedRecordsOk(items, source);
  }

  /** A JSON list with an item that is not a dict gives nothing at all. */
  lemma JsonListWithNonDict(source: string, items: seq<Value>, file: ScrapedFile, i: nat)
    requires FormatOf(FileExtension(source)) == Some(Json) && file.json == Some(List(items))
    requires i < |items| && !items[i].Dict?
    ensures IngestedRecords(source, Some(file)) == []
  {
    assert FileItems(source, file) == Some(items);
    ScrapedRecordsOk(items, source);
  }
}
