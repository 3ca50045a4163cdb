/** The YouTube ingestor: the video id taken from a URL, the formatting of
    fetched comments, and the scraped-data fallback over its built-in sample
    comments. Fetching comments from the YouTube Data API is not modelled:
    ingest receives the fetched comments, or their absence, as a parameter. */
module YouTube {
  import opened Wrappers
  import opened Text
  import opened PyValue
  import opened PluginBase
  import ScrapedData
  import opened Patterns

  const SourceTypes: seq<string> := ["youtube", "yt", "youtube_video", "political_debate", "default"]

  /** can_handle. */
  predicate CanHandle(sourceType: string) {
    Handles(sourceType, SourceTypes)
  }

  /** The plugin answers to its five source types, in any letter case. */
  lemma CanHandleSourceTypes()
    ensures forall s :: CanHandle(s) <==> CanHandle(Lower(s))
    ensures forall i :: 0 <= i < |SourceTypes| ==> CanHandle(SourceTypes[i])
  {
    HandlesAnyCase(SourceTypes);
  }

  // ---------------------------------------------------------------------
  // Video ids
  // ---------------------------------------------------------------------

  /** The fixed part of each URL pattern, in the order they are tried;
      each captures `[^&\n\r\s]+`. */
  const WatchCore := "youtube.com/watch?v="
  const EmbedCore := "youtube.com/embed/"
  const ShortCore := "youtu.be/"
  const VCore := "youtube.com/v/"
  const Cores: seq<string> := [WatchCore, EmbedCore, ShortCore, VCore]

  /** A character a video id may contain. */
  predicate IdChar(c: char) {
    InClass(c, NotAmpOrSpace)
  }

  /** The capture of the pattern with fixed part `core`. */
  function CaptureId(s: string, core: string): Option<string> {
    Capture(s, core, NotAmpOrSpace)
  }

  /** The first of `cores[j..]` whose pattern matches, and its capture. */
  function FirstCapture(s: string, cores: seq<string>, j: nat): Option<string>
    requires j <= |cores|
    decreases |cores| - j
  {
    if j == |cores| then None
    else if CaptureId(s, cores[j]).Some? then CaptureId(s, cores[j])
    else FirstCapture(s, cores, j + 1)
  }

  /** An earlier pattern wins over a later one, wherever in the string
      either matches. */
  lemma {:induction false} FirstCaptureOrder(s: string, cores: seq<string>, j: nat, i: nat)
    requires j <= i < |cores| && CaptureId(s, cores[i]).Some?
    requires forall l :: j <= l < i ==> CaptureId(s, cores[l]).None?
    ensures FirstCapture(s, cores, j) == CaptureId(s, cores[i])
    decreases i - j
  {
    if j < i {
      FirstCaptureOrder(s, cores, j + 1, i);
    }
  }

  /** A capture of any pattern is non-empty and made of id characters. */
  lemma {:induction false} FirstCaptureShape(s: string, cores: seq<string>, j: nat)
    requires j <= |cores|
    ensures FirstCapture(s, cores, j).Some? <==> exists i :: j <= i < |cores| && CaptureId(s, cores[i]).Some?
    ensures FirstCapture(s, cores, j).Some? ==>
              FirstCapture(s, cores, j).value != [] && forall c :: c in FirstCapture(s, cores, j).value ==> IdChar(c)
    decreases |cores| - j
  {
    if j < |cores| {
      FirstCaptureShape(s, cores, j + 1);
    }
  }

  /** The characters of `[a-zA-Z0-9_-]`. */
  predicate IdAlphabet(c: char) {
    IsWordChar(c) || c == '-'
  }

  /** The fallback as intended: the input is already an id, exactly 11
      characters of `[a-zA-Z0-9_-]`. */
  predicate IsBareId(url: string) {
    |url| == 11 && forall c :: c in url ==> IdAlphabet(c)
  }

  /** The fallback as written: `len(url) == 11` and
      `re.match(r'^[a-zA-Z0-9_-]+$', url)`. `$` also matches just before a
      newline that ends the string, so ten id characters and a newline
      pass too. */
  predicate IsBareIdAsWritten(url: string) {
    |url| == 11 &&
    ((forall c :: c in url ==> IdAlphabet(c)) ||
     ((forall c :: c in url[..10] ==> IdAlphabet(c)) && url[10] == '\n'))
  }

  /** _extract_video_id as written. */
  function ExtractVideoIdAsWritten(url: string): Option<string> {
    var captured := FirstCapture(url, Cores, 0);
    if captured.Some? then captured
    else if IsBareIdAsWritten(url) then Some(url)
    else None
  }

  /** _extract_video_id with the fallback as intended; ingest uses this. */
  function ExtractVideoId(url: string): (r: Option<string>)
    ensures r.Some? ==> r.value != [] && forall c :: c in r.value ==> IdChar(c)
  {
    var captured := FirstCapture(url, Cores, 0);
    FirstCaptureShape(url, Cores, 0);
    if captured.Some? then captured
    else if IsBareId(url) then
      assert forall c :: c in url ==> IdChar(c) by {
        forall c | c in url ensures IdChar(c) {
          assert IdAlphabet(c);
        }
      }
      Some(url)
    else None
  }

  /** The patterns are tried in order and the first that matches anywhere
      in the URL decides. */
  lemma ExtractVideoIdPattern(url: string, i: nat)
    requires i < |Cores| && CaptureId(url, Cores[i]).Some?
    requires forall l :: 0 <= l < i ==> CaptureId(url, Cores[l]).None?
    ensures ExtractVideoId(url) == CaptureId(url, Cores[i])
  {
    FirstCaptureOrder(url, Cores, 0, i);
  }

  /** A URL no pattern matches is accepted only as a bare 11-character
      id. */
  lemma ExtractVideoIdBare(url: string)
    requires forall i :: 0 <= i < |Cores| ==> CaptureId(url, Cores[i]).None?
    ensures ExtractVideoId(url) == if IsBareId(url) then Some(url) else None
  {
    FirstCaptureShape(url, Cores, 0);
  }

  /** Every fixed part starts with 'y', so a string without that letter
      matches no pattern. */
  lemma NoPatternWithoutY(url: string)
    requires 'y' !in url
    ensures FirstCapture(url, Cores, 0).None?
  {
    forall i | 0 <= i < |Cores|
      ensures CaptureId(url, Cores[i]).None?
    {
      NoMatchWithoutFirstLetter(url, Cores[i], NotAmpOrSpace);
    }
    FirstCaptureShape(url, Cores, 0);
  }

  /** The fallback as written accepts ten id characters followed by a
      newline, and returns an id that ends in whitespace; the intended
      fallback refuses it. */
  lemma TrailingNewlineAccepted()
    ensures ExtractVideoIdAsWritten("ABCDEFGHIJ\n") == Some("ABCDEFGHIJ\n")
    ensures IsSpace("ABCDEFGHIJ\n"[10])
    ensures ExtractVideoId("ABCDEFGHIJ\n") == None
  {
    var url := "ABCDEFGHIJ\n";
    NoPatternWithoutY(url);
    assert url[..10] == "ABCDEFGHIJ";
    assert !IdAlphabet(url[10]) && url[10] in url;
  }

  /** Wherever the as-written fallback differs, it is on an input ending in
      a newline. */
  lemma AsWrittenDiffersOnlyOnNewline(url: string)
    requires ExtractVideoIdAsWritten(url) != ExtractVideoId(url)
    ensures |url| == 11 && url[10] == '\n'
    ensures ExtractVideoIdAsWritten(url) == Some(url) && ExtractVideoId(url) == None
  {
    assert IsBareId(url) ==> IsBareIdAsWritten(url);
  }

  // ---------------------------------------------------------------------
  // Comments
  // ---------------------------------------------------------------------

  /** The record of one fetched comment (a dict of the API layer). */
  function CommentRecord(comment: seq<(string, Value)>, source: string): PlatformRecord {
    PlatformRecord(
      GetOr(comment, "text", Str("")),
      source,
      GetOr(comment, "timestamp", Str("")),
      GetOr(comment, "author", Str("unknown")),
      GetOr(comment, "like_count", Int(0)),
      [("platform", Str("youtube")),
       ("video_id", GetOr(comment, "id", Str(""))),
       ("replies", GetOr(comment, "reply_count", Int(0))),
       ("category", Str("political_debate"))])
  }

  /** The record of a comment: its own fields where present, the defaults
      otherwise, and the fixed platform and category. */
  lemma CommentRecordFields(comment: seq<(string, Value)>, source: string)
    ensures var r := CommentRecord(comment, source);
      && (Has(comment, "text") ==> r.text == Lookup(comment, "text").value)
      && (!Has(comment, "text") ==> r.text == Str(""))
      && (!Has(comment, "author") ==> r.author == Str("unknown"))
      && (!Has(comment, "like_count") ==> r.likes == Int(0))
      && r.source == source
      && Lookup(r.metadata, "platform") == Some(Str("youtube"))
      && Lookup(r.metadata, "category") == Some(Str("political_debate"))
  {
    var m := CommentRecord(comment, source).metadata;
    LookupFirst(m, "platform", 0);
    LookupFirst(m, "category", 3);
  }

  /** _format_comments: one record per comment, in order. */
  method FormatComments(comments: seq<seq<(string, Value)>>, source: string) returns (formatted: seq<PlatformRecord>)
    ensures |formatted| == |comments|
    ensures forall i :: 0 <= i < |comments| ==> formatted[i] == CommentRecord(comments[i], source)
  {
    formatted := [];
    var i := 0;
    while i < |comments|
      invariant 0 <= i <= |comments|
      invariant |formatted| == i
      invariant forall k :: 0 <= k < i ==> formatted[k] == CommentRecord(comments[k], source)
    {
      formatted := formatted + [CommentRecord(comments[i], source)];
      i := i + 1;
    }
  }

  // ---------------------------------------------------------------------
  // The scraped-data fallback
  // ---------------------------------------------------------------------

  const MockTexts: seq<string> := [
    "Arnabji a true bharatya always on the side of the people of Bharat against all who are in and out of Bharat Arnabji takes them all right on.... Vande matharam",
    "Yes, share market will go up after 4 June and with Modi ji as PM lot of foreign investment will come to India they have trust in Modi ji",
    "These rich crooks can get away with anything and everything, money makes it happen.",
    "Sorry to say this......Congress old timers are total gone case. I feel pity for the young students whom he teaches management.",
    "In 10 years - Petrol price doubled, unemployment at all time high, communal violence and MANIPUR... We don't want BJP anymore",
    "Excellent Shehzad\U{2026}",
    "Shehzad u just stole the show; more power to you, keep up the very good work, remarkable",
    "This time Modi waves not supported to BJP therefore No wave",
    "Debate with Arnab LIVE; PM Modi notches it up ahead of elections 2024, Brand Modi is unstoppable; PM Modi offered prayers and performed Rudra Abhishek at Kashi Vishwanath Temple...",
    "The so called professor of strategic management is at loss of words at Shehzad's questions. What kind of a professor is he? He has no facts only rhetoric."
  ]

  const MockAuthors: seq<string> := ["user1", "user2", "user3", "user4", "user5", "user6", "user7", "user8", "user9", "user10"]

  const MockTimes: seq<string> := [
    "2024-05-20T10:00:00Z", "2024-05-20T10:05:00Z", "2024-05-20T10:10:00Z", "2024-05-20T10:15:00Z",
    "2024-05-20T10:20:00Z", "2024-05-20T10:25:00Z", "2024-05-20T10:30:00Z", "2024-05-20T10:35:00Z",
    "2024-05-20T10:40:00Z", "2024-05-20T10:45:00Z"]

  const MockLikes: seq<nat> := [150, 200, 85, 120, 310, 95, 180, 65, 140, 220]

  /** A sample comment as the fallback writes it: text, author, timestamp
      and likes, in that order. */
  function SampleComment(text: string, author: string, time: string, likes: nat): Value {
    Dict([("text", Str(text)), ("author", Str(author)), ("timestamp", Str(time)), ("likes", Int(likes))])
  }

  /** _create_mock_scraped_data: the ten sample comments. */
  function MockScrapedData(): (data: seq<Value>)
    ensures |data| == 10
  {
    seq(10, i requires 0 <= i < 10 => SampleComment(MockTexts[i], MockAuthors[i], MockTimes[i], MockLikes[i]))
  }

  /** The scraped-data record of a sample comment keeps its text, author,
      timestamp and likes, takes its position as id and counts no replies. */
  lemma SampleRecord(text: string, author: string, time: string, likes: nat, i: nat, source: string)
    requires text != "" && author != "" && time != "" && likes > 0
    ensures var r := ScrapedData.ItemRecord(SampleComment(text, author, time, likes).entries, i, source);
      && r.text == text && r.author == author && r.timestamp == time
      && r.likes == likes && r.replies == 0 && r.itemId == Str(NatToString(i)) && r.source == source
  {
    SampleRecordTexts(text, author, time, likes, i, source);
    SampleRecordCounts(text, author, time, likes, i, source);
  }

  lemma SampleRecordTexts(text: string, author: string, time: string, likes: nat, i: nat, source: string)
    requires text != "" && author != "" && time != ""
    ensures var r := ScrapedData.ItemRecord(SampleComment(text, author, time, likes).entries, i, source);
      r.text == text && r.author == author && r.timestamp == time
  {
    var e := SampleComment(text, author, time, likes).entries;
    LookupFirst(e, "text", 0);
    LookupFirst(e, "author", 1);
    LookupFirst(e, "timestamp", 2);
    ScrapedData.FirstTruthyFirst(e, ScrapedData.TextKeys, 0, 0, Str(""));
    ScrapedData.FirstTruthyFirst(e, ScrapedData.AuthorKeys, 0, 0, Str("unknown"));
    ScrapedData.FirstTruthyFirst(e, ScrapedData.TimeKeys, 0, 0, Str(""));
  }

  lemma SampleRecordCounts(text: string, author: string, time: string, likes: nat, i: nat, source: string)
    requires likes > 0
    ensures var r := ScrapedData.ItemRecord(SampleComment(text, author, time, likes).entries, i, source);
      r.likes == likes && r.replies == 0 && r.itemId == Str(NatToString(i)) && r.source == source
  {
    SampleLikes(text, author, time, likes);
    SampleNoReplies(text, author, time, likes);
    assert !Has(SampleComment(text, author, time, likes).entries, "id");
  }

  /** A sample comment's likes count is its likes. */
  lemma SampleLikes(text: string, author: string, time: string, likes: nat)
    requires likes > 0
    ensures ScrapedData.Count(ScrapedData.FirstTruthy(SampleComment(text, author, time, likes).entries,
                                                      ScrapedData.LikeKeys, 0, Int(0))) == likes
  {
    var e := SampleComment(text, author, time, likes).entries;
    LookupFirst(e, "likes", 3);
    ScrapedData.FirstTruthyFirst(e, ScrapedData.LikeKeys, 0, 0, Int(0));
    ScrapedData.CountShape(Int(likes));
  }

  /** A sample comment has none of the reply keys, so its replies count is
      0. */
  lemma SampleNoReplies(text: string, author: string, time: string, likes: nat)
    ensures ScrapedData.Count(ScrapedData.FirstTruthy(SampleComment(text, author, time, likes).entries,
                                                      ScrapedData.ReplyKeys, 0, Int(0))) == 0
  {
    var e := SampleComment(text, author, time, likes).entries;
    forall k | 0 <= k < 3
      ensures !Has(e, ScrapedData.ReplyKeys[k])
    {
      assert forall j :: 0 <= j < |e| ==> e[j].0 != ScrapedData.ReplyKeys[k];
    }
    ScrapedData.FirstTruthyNone(e, ScrapedData.ReplyKeys, 0, Int(0));
    ScrapedData.CountShape(Int(0));
  }

  /** What ingest returns: nothing without a video id; the fetched comments
      as they are when the API path succeeds; otherwise the scraped-data
      records of the sample comments. */
  datatype Ingested = NoVideo | Fetched(comments: seq<Value>) | Fallback(records: seq<ScrapedData.ScrapedRecord>)

  /** ingest. `fetched` is what the API path returned, `None` when there is
      no API key or the API call failed; `tempPath` is the temporary JSON
      file the sample comments are written to and read back from. */
  method Ingest(source: string, fetched: Option<seq<Value>>, tempPath: string) returns (r: Ingested)
    ensures ExtractVideoId(source).None? ==> r == NoVideo
    ensures ExtractVideoId(source).Some? && fetched.Some? ==> r == Fetched(fetched.value)
    ensures ExtractVideoId(source).Some? && fetched.None? ==>
              r.Fallback? && ScrapedData.ScrapedRecords(MockScrapedData(), tempPath) == Ok(r.records)
  {
    var videoId := ExtractVideoId(source);
    if videoId.None? {
      return NoVideo;
    }
    if fetched.Some? {
      return Fetched(fetched.value);
    }
    var formatted := ScrapedData.FormatScrapedData(MockScrapedData(), tempPath);
    MockDataAllDicts();
    ScrapedData.ScrapedRecordsOk(MockScrapedData(), tempPath);
    r := Fallback(formatted.value);
  }

  lemma MockDataAllDicts()
    ensures AllDicts(MockScrapedData())
  {
  }

  /** The fallback gives the ten sample comments, in order, each with its
      author, text, timestamp and likes, its position as id and no
      replies. */
  lemma FallbackRecords(tempPath: string)
    ensures ScrapedData.ScrapedRecords(MockScrapedData(), tempPath).Ok?
    ensures var rs := ScrapedData.ScrapedRecords(MockScrapedData(), tempPath).value;
      && |rs| == 10
      && forall i :: 0 <= i < 10 ==>
           rs[i].text == MockTexts[i] && rs[i].author == MockAuthors[i] && rs[i].timestamp == MockTimes[i]
           && rs[i].likes == MockLikes[i] && rs[i].replies == 0 && rs[i].itemId == Str(NatToString(i))
  {
    var data := MockScrapedData();
    MockDataAllDicts();
    ScrapedData.ScrapedRecordsOk(data, tempPath);
    var rs := ScrapedData.ScrapedRecords(data, tempPath).value;
    forall i | 0 <= i < 10
      ensures rs[i].text == MockTexts[i] && rs[i].author == MockAuthors[i] && rs[i].timestamp == MockTimes[i]
        && rs[i].likes == MockLikes[i] && rs[i].replies == 0 && rs[i].itemId == Str(NatToString(i))
    {
      SampleRecordAt(tempPath, i);
    }
  }

  lemma SampleRecordAt(tempPath: string, i: nat)
    requires i < 10
    ensures var r := ScrapedData.ItemRecord(MockScrapedData()[i].entries, i, tempPath);
      r.text == MockTexts[i] && r.author == MockAuthors[i] && r.timestamp == MockTimes[i]
      && r.likes == MockLikes[i] && r.replies == 0 && r.itemId == Str(NatToString(i))
  {
    assert MockTexts[i] != "" && MockAuthors[i] != "" && MockTimes[i] != "" && MockLikes[i] > 0;
    assert MockScrapedData()[i] == SampleComment(MockTexts[i], MockAuthors[i], MockTimes[i], MockLikes[i]);
    SampleRecord(MockTexts[i], MockAuthors[i], MockTimes[i], MockLikes[i], i, tempPath);
  }
}
