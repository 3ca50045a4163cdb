/** The LLM-backed argument extractor: its key check, the cleaning and
    normalisation of the model's JSON reply, the defaults used when a field is
    missing, and the per-comment fallback to keyword analysis. The model call
    itself and the JSON decoder are not modelled: the reply of each call is a
    parameter, and the decoder is given as a table from cleaned reply text to
    decoded value (text missing from the table is a decode error). */
module Gemini {
  import opened Wrappers
  import opened Text
  import opened PyValue
  import opened Models
  import opened Extractor
  import opened Sequences

  const ModelName: string := "gemini-pro"
  const MissingKeyMessage: string := "Gemini API key is required. Set GEMINI_API_KEY environment variable."

  datatype GeminiExtractor = GeminiExtractor(apiKey: string, modelName: string)

  /** Truthiness of an optional string: present and non-empty. */
  predicate Given(s: Option<string>) {
    s.Some? && s.value != ""
  }

  /** The constructor: the explicit key, or else the environment's, and an
      error when neither is a non-empty string. */
  function NewGeminiExtractor(apiKey: Option<string>, environmentKey: Option<string>): (r: Result<GeminiExtractor, string>)
    ensures r.Ok? <==> Given(apiKey) || Given(environmentKey)
    ensures r.Err? ==> r.error == MissingKeyMessage
    ensures r.Ok? ==> r.value.apiKey != "" && r.value.modelName == ModelName
    ensures r.Ok? && Given(apiKey) ==> r.value.apiKey == apiKey.value
    ensures r.Ok? && !Given(apiKey) ==> r.value.apiKey == environmentKey.value
  {
    var key := if Given(apiKey) then apiKey else environmentKey;
    if Given(key) then Ok(GeminiExtractor(key.value, ModelName)) else Err(MissingKeyMessage)
  }

  // ---------------------------------------------------------------------
  // Cleaning the reply text
  // ---------------------------------------------------------------------

  /** Strips the reply, then drops one leading "```json" and one trailing
      "```" fence. */
  function CleanResponse(text: string): (r: string)
    ensures |r| <= |text|
  {
    var stripped := Strip(text);
    var unfenced := if StartsWith(stripped, "```json") then stripped[7..] else stripped;
    if EndsWith(unfenced, "```") then unfenced[..|unfenced| - 3] else unfenced
  }

  /** A body wrapped in a json code fence comes back exactly. */
  lemma CleanResponseOfFenced(body: string)
    ensures CleanResponse("```json" + body + "```") == body
  {
    var fenced := "```json" + body + "```";
    StripUnchanged(fenced);
    assert fenced[..7] == "```json";
    assert fenced[7..] == body + "```";
    assert (body + "```")[..|body|] == body;
  }

  /** A reply that opens a json fence and never closes it loses only the
      opening fence; what follows it is kept as it is. */
  lemma CleanResponseOfOpenedOnly(body: string)
    requires body == [] || !IsSpace(body[|body| - 1])
    requires !EndsWith(body, "```")
    ensures CleanResponse("```json" + body) == body
  {
    var text := "```json" + body;
    StripUnchanged(text);
    assert text[..7] == "```json";
    assert text[7..] == body;
  }

  /** A reply that only closes a fence loses that closing fence. */
  lemma CleanResponseOfClosedOnly(body: string)
    requires body == [] || !IsSpace(body[0])
    requires !StartsWith(body + "```", "```json")
    ensures CleanResponse(body + "```") == body
  {
    var closed := body + "```";
    assert closed[|closed| - 1] == '`' && !IsSpace('`');
    assert closed[0] == if body == [] then '`' else body[0];
    StripUnchanged(closed);
    assert closed[|closed| - 3..] == "```";
    assert closed[..|closed| - 3] == body;
  }

  /** A reply without fences is only stripped. */
  lemma CleanResponseOfUnfenced(text: string)
    requires !StartsWith(Strip(text), "```json") && !EndsWith(Strip(text), "```")
    ensures CleanResponse(text) == Strip(text)
  {
  }

  // ---------------------------------------------------------------------
  // Normalising the decoded reply
  // ---------------------------------------------------------------------

  /** `d[key] = v` on a dict: the value of an existing key is replaced in
      place, a new key goes at the end. */
  function SetEntry(entries: seq<(string, Value)>, key: string, v: Value): (r: seq<(string, Value)>)
    ensures Lookup(r, key) == Some(v)
    ensures forall k :: k != key ==> Lookup(r, k) == Lookup(entries, k)
  {
    if entries == [] then [(key, v)]
    else if entries[0].0 == key then [(key, v)] + entries[1..]
    else [entries[0]] + SetEntry(entries[1..], key, v)
  }

  /** The stance named by the reply's "type" value: only the exact strings
      "support" and "objection" select those stances. */
  function StanceOf(v: Option<Value>): (t: ArgumentType)
    ensures t == Support <==> v == Some(Str("support"))
    ensures t == Objection <==> v == Some(Str("objection"))
  {
    if v == Some(Str("support")) then Support
    else if v == Some(Str("objection")) then Objection
    else Neutral
  }

  /** A present value that is not a list becomes the one-element list of its
      str(); a list or a missing value stays as it is. */
  function Listified(v: Option<Value>): (r: Option<Value>)
    ensures v.None? ==> r.None?
    ensures r.Some? ==> r.value.List?
    ensures v.Some? && v.value.List? ==> r == v
  {
    if v.Some? && !v.value.List? then Some(List([Str(PyStr(v.value))])) else v
  }

  /** The in-place updates _parse_gemini_response makes to a decoded dict. */
  function Normalised(entries: seq<(string, Value)>): (out: seq<(string, Value)>)
    ensures Lookup(out, "type") == Some(Str(ArgumentTypeName(StanceOf(Lookup(entries, "type")))))
    ensures Lookup(out, "themes") == Listified(Lookup(entries, "themes"))
    ensures Lookup(out, "citations") == Listified(Lookup(entries, "citations"))
    ensures forall k :: k != "type" && k != "themes" && k != "citations" ==> Lookup(out, k) == Lookup(entries, k)
  {
    var typed := SetEntry(entries, "type", Str(ArgumentTypeName(StanceOf(Lookup(entries, "type")))));
    ListifyEntry(ListifyEntry(typed, "themes"), "citations")
  }

  /** A present value under `key` that is not a list replaced by the
      one-element list of its str(). */
  function ListifyEntry(entries: seq<(string, Value)>, key: string): (out: seq<(string, Value)>)
    ensures Lookup(out, key) == Listified(Lookup(entries, key))
    ensures forall k :: k != key ==> Lookup(out, k) == Lookup(entries, k)
  {
    var v := Lookup(entries, key);
    if v.Some? && !v.value.List? then SetEntry(entries, key, List([Str(PyStr(v.value))])) else entries
  }

  /** Normalising twice changes no key's value. */
  lemma NormalisedIdempotent(entries: seq<(string, Value)>)
    ensures forall k :: Lookup(Normalised(Normalised(entries)), k) == Lookup(Normalised(entries), k)
  {
    var once := Normalised(entries);
    var t := StanceOf(Lookup(entries, "type"));
    match t
    case Support => assert StanceOf(Lookup(once, "type")) == Support;
    case Objection => assert StanceOf(Lookup(once, "type")) == Objection;
    case Neutral => assert StanceOf(Lookup(once, "type")) == Neutral;
  }

  /** The dict returned when the reply is not valid JSON. */
  const DefaultData: seq<(string, Value)> :=
    [("type", Str("neutral")), ("themes", List([Str("general")])),
     ("confidence", Float("0.5", 0.5)), ("citations", List([]))]

  /** _parse_gemini_response. A decode error gives the default dict; a
      decoded value that is not a dict fails on `.get`, and that failure
      reaches extract_arguments. */
  function ParseGeminiResponse(responseText: string, decoder: map<string, Value>): (r: Result<seq<(string, Value)>, string>)
    ensures CleanResponse(responseText) !in decoder ==> r == Ok(DefaultData)
    ensures CleanResponse(responseText) in decoder ==>
      (r.Ok? <==> decoder[CleanResponse(responseText)].Dict?)
    ensures CleanResponse(responseText) in decoder && r.Ok? ==>
      r.value == Normalised(decoder[CleanResponse(responseText)].entries)
  {
    var cleaned := CleanResponse(responseText);
    if cleaned !in decoder then Ok(DefaultData)
    else
      var data := decoder[cleaned];
      if data.Dict? then Ok(Normalised(data.entries)) else Err("object has no attribute 'get'")
  }

  // ---------------------------------------------------------------------
  // Building the argument
  // ---------------------------------------------------------------------

  /** A list of strings, as the List[str] fields of Argument accept. */
  function StringList(v: Value): (r: Option<seq<string>>)
    ensures r.Some? <==> v.List? && forall i :: 0 <= i < |v.items| ==> v.items[i].Str?
    ensures r.Some? ==> |r.value| == |v.items| && forall i :: 0 <= i < |r.value| ==> v.items[i] == Str(r.value[i])
  {
    if v.List? && forall i :: 0 <= i < |v.items| ==> v.items[i].Str? then
      Some(seq(|v.items|, i requires 0 <= i < |v.items| && v.items[i].Str? => v.items[i].s))
    else None
  }

  /** A number, as the float field of Argument accepts it in lax mode: an
      int, a float, a bool (as 1.0 or 0.0), or a string holding a plain
      decimal numeral. */
  function Number(v: Value): (r: Option<real>)
    ensures v.Int? ==> r == Some(v.i as real)
    ensures v.Float? ==> r == Some(v.r)
    ensures v.Bool? ==> r == Some(if v.b then 1.0 else 0.0)
    ensures v.Str? ==> r == DecimalValue(v.s)
    ensures v.Null? || v.List? || v.Dict? ==> r.None?
  {
    match v
    case Int(i) => Some(i as real)
    case Float(_, x) => Some(x)
    case Bool(b) => Some(if b then 1.0 else 0.0)
    case Str(s) => DecimalValue(s)
    case _ => None
  }

  /** 10 to the power k. */
  function Pow10(k: nat): (r: nat)
    ensures r >= 1
  {
    if k == 0 then 1 else 10 * Pow10(k - 1)
  }

  /** The value of whole digits, a point, and fraction digits. */
  function PointValue(whole: string, frac: string): (r: real)
    requires AllDigits(whole) && AllDigits(frac)
    ensures r >= DigitsValue(whole) as real
  {
    DigitsValue(whole) as real + DigitsValue(frac) as real / Pow10(|frac|) as real
  }

  /** A plain decimal numeral: at least one digit, and at most one '.'. */
  predicate IsUnsignedDecimal(s: string) {
    if '.' in s then
      var i := FirstIndex(s, '.');
      AllDigits(s[..i]) && AllDigits(s[i + 1..]) && |s| > 1
    else IsDigits(s)
  }

  /** The value of a plain decimal numeral: its whole digits plus its
      fraction digits over the matching power of ten. */
  function UnsignedDecimal(s: string): (r: Option<real>)
    ensures r.Some? <==> IsUnsignedDecimal(s)
    ensures r.Some? ==> r.value >= 0.0
  {
    if '.' in s then
      var i := FirstIndex(s, '.');
      var whole, frac := s[..i], s[i + 1..];
      if AllDigits(whole) && AllDigits(frac) && |s| > 1 then
        Some(PointValue(whole, frac))
      else None
    else if IsDigits(s) then Some(DigitsValue(s) as real)
    else None
  }

  /** float(s) on a string of the form [+|-]digits[.digits]; any other string
      fails. */
  function DecimalValue(s: string): (r: Option<real>)
    ensures r.Some? <==> IsUnsignedDecimal(if s != [] && (s[0] == '+' || s[0] == '-') then s[1..] else s)
  {
    if s != [] && (s[0] == '+' || s[0] == '-') then
      match UnsignedDecimal(s[1..])
      case Some(x) => Some(if s[0] == '-' then -x else x)
      case None => None
    else UnsignedDecimal(s)
  }

  /** The numeral of a natural number reads back as that number. */
  lemma DecimalOfNumeral(n: nat)
    ensures DecimalValue(NatToString(n)) == Some(n as real)
    ensures DecimalValue("-" + NatToString(n)) == Some(-(n as real))
  {
    var d := NatToString(n);
    DigitsValueOfNatToString(n);
    assert !IsDigit('.') && !IsDigit('+') && !IsDigit('-');
    assert d[0] in d;
    assert ("-" + d)[1..] == d;
  }

  /** In digits followed by a '.', the first '.' is the one after the digits. */
  lemma PointAfterDigits(d: string, rest: string)
    requires AllDigits(d)
    requires rest != [] && rest[0] == '.'
    ensures '.' in d + rest && FirstIndex(d + rest, '.') == |d|
  {
    var s := d + rest;
    assert s[|d|] == '.';
    var i := FirstIndex(s, '.');
    assert !IsDigit('.');
  }

  /** Whole digits, a '.', and fraction digits make an unsigned decimal. */
  lemma UnsignedOfFraction(d: string, frac: string)
    requires IsDigits(d) && AllDigits(frac)
    ensures UnsignedDecimal(d + ("." + frac)) == Some(PointValue(d, frac))
  {
    var s := d + ("." + frac);
    PointAfterDigits(d, "." + frac);
    assert s[..|d|] == d;
    assert s[|d| + 1..] == frac;
    UnsignedSplit(s, |d|, d, frac);
  }

  /** An unsigned decimal read at its first point. */
  lemma UnsignedSplit(s: string, i: nat, whole: string, frac: string)
    requires '.' in s && FirstIndex(s, '.') == i
    requires s[..i] == whole && s[i + 1..] == frac && |s| > 1
    requires AllDigits(whole) && AllDigits(frac)
    ensures UnsignedDecimal(s) ==
            Some(PointValue(whole, frac))
  {
  }

  /** A numeral with a fraction reads back as whole plus fraction. */
  lemma DecimalOfFraction(n: nat, frac: string)
    requires AllDigits(frac)
    ensures DecimalValue(NatToString(n) + "." + frac) == Some(PointValue(NatToString(n), frac))
  {
    var d := NatToString(n);
    var s := d + ("." + frac);
    assert s == d + "." + frac;
    DigitsValueOfNatToString(n);
    UnsignedOfFraction(d, frac);
    assert !IsDigit('+') && !IsDigit('-');
    assert s[0] == d[0] && d[0] in d;
  }

  /** The confidence "0.9" reads as 0.9. */
  lemma DecimalOfPointNine()
    ensures DecimalValue("0.9") == Some(0.9)
  {
    assert NatToString(0) + "." + "9" == "0.9";
    assert DigitsValue("9") == 9 by {
      assert "9"[..0] == [];
    }
    DecimalOfFraction(0, "9");
  }

  /** Text that is not a numeral does not coerce: "high", the empty string,
      a lone '.', and two points. */
  lemma DecimalRejects()
    ensures DecimalValue("high") == None
    ensures DecimalValue("") == None
    ensures DecimalValue(".") == None
    ensures DecimalValue("1.2.3") == None
  {
    assert !IsDigit('h');
    assert "high"[0] == 'h' && 'h' in "high";
    assert FirstIndex("1.2.3", '.') == 1;
    assert "1.2.3"[2..] == "2.3" && '.' in "2.3" && !IsDigit('.');
  }

  /** The stance named by one of the three stance strings. */
  function StanceNamed(v: Value): (r: Option<ArgumentType>)
    ensures r.Some? ==> v == Str(ArgumentTypeName(r.value))
  {
    if v == Str("support") then Some(Support)
    else if v == Str("objection") then Some(Objection)
    else if v == Str("neutral") then Some(Neutral)
    else None
  }

  /** The Argument built from a parsed reply, with the defaults NEUTRAL,
      ["general"], 0.8 and [] for missing fields. A field of the wrong shape
      fails validation. */
  function BuildArgument(comment: Comment, id: string, data: seq<(string, Value)>): (r: Result<Argument, string>)
    ensures r.Ok? ==> r.value.id == id && r.value.commentId == comment.id && r.value.text == comment.text
    ensures r.Ok? ==> r.value.clause == comment.policyClause && r.value.relatedArguments == []
    ensures !Has(data, "themes") && r.Ok? ==> r.value.themes == ["general"]
    ensures !Has(data, "confidence") && r.Ok? ==> r.value.confidence == 0.8
    ensures !Has(data, "citations") && r.Ok? ==> r.value.citations == []
    ensures Lookup(data, "confidence").Some? && Lookup(data, "confidence").value.Float? && r.Ok? ==>
      r.value.confidence == Lookup(data, "confidence").value.r
    ensures r.Ok? <==>
      StanceNamed(GetOr(data, "type", Str("neutral"))).Some? &&
      StringList(GetOr(data, "themes", List([Str("general")]))).Some? &&
      Number(GetOr(data, "confidence", Float("0.8", 0.8))).Some? &&
      StringList(GetOr(data, "citations", List([]))).Some?
    ensures r.Ok? ==>
      r.value.argType == StanceNamed(GetOr(data, "type", Str("neutral"))).value &&
      r.value.themes == StringList(GetOr(data, "themes", List([Str("general")]))).value &&
      r.value.confidence == Number(GetOr(data, "confidence", Float("0.8", 0.8))).value &&
      r.value.citations == StringList(GetOr(data, "citations", List([]))).value
  {
    var stance := StanceNamed(GetOr(data, "type", Str("neutral")));
    var themes := StringList(GetOr(data, "themes", List([Str("general")])));
    var confidence := Number(GetOr(data, "confidence", Float("0.8", 0.8)));
    var citations := StringList(GetOr(data, "citations", List([])));
    if stance.None? || themes.None? || confidence.None? || citations.None? then Err("validation error")
    else Ok(Argument(id, comment.id, comment.text, stance.value, themes.value,
                     comment.policyClause, confidence.value, citations.value, []))
  }

  /** A normalised dict always names a valid stance, so only the themes,
      confidence and citations can fail validation. */
  lemma NormalisedStanceValid(entries: seq<(string, Value)>)
    ensures StanceNamed(GetOr(Normalised(entries), "type", Str("neutral"))) ==
            Some(StanceOf(Lookup(entries, "type")))
  {
    var t := StanceOf(Lookup(entries, "type"));
    assert GetOr(Normalised(entries), "type", Str("neutral")) == Str(ArgumentTypeName(t));
    StanceNameRoundTrip(t);
  }

  /** Reading a stance's own name back gives that stance. */
  lemma StanceNameRoundTrip(t: ArgumentType)
    ensures StanceNamed(Str(ArgumentTypeName(t))) == Some(t)
  {
    match t
    case Support =>
    case Objection =>
    case Neutral =>
  }

  /** The strings a reply field yields once normalised: the default when it
      is absent, the strings of a list whose items are all strings, and the
      str() of any other single value; a list holding a non-string fails. */
  function ReplyStrings(v: Option<Value>, default: seq<string>): (r: Option<seq<string>>)
    ensures v.None? ==> r == Some(default)
    ensures v.Some? && !v.value.List? ==> r == Some([PyStr(v.value)])
    ensures v.Some? && v.value.List? ==>
      (r.Some? <==> forall i :: 0 <= i < |v.value.items| ==> v.value.items[i].Str?)
  {
    match v
    case None => Some(default)
    case Some(x) => if x.List? then StringList(x) else Some([PyStr(x)])
  }

  /** Reading a listified field with a string-list default gives the
      field's reply strings. */
  lemma ListifiedStrings(v: Option<Value>, dv: Value, d: seq<string>)
    requires StringList(dv) == Some(d)
    ensures StringList(Listified(v).GetOr(dv)) == ReplyStrings(v, d)
  {
    if v.Some? && !v.value.List? {
      var l := List([Str(PyStr(v.value))]);
      assert Listified(v) == Some(l);
      assert StringList(l).value == [PyStr(v.value)];
    }
  }

  /** What a reply that decodes to a dict yields: the stance its "type"
      names, the themes and citations it gives (a single value becoming a
      one-element list), and its confidence; it is accepted exactly when
      those lists hold strings and the confidence is a number. */
  lemma AcceptedReplyArgument(comment: Comment, id: string, entries: seq<(string, Value)>)
    ensures var r := BuildArgument(comment, id, Normalised(entries));
      r.Ok? <==>
        ReplyStrings(Lookup(entries, "themes"), ["general"]).Some? &&
        Number(GetOr(entries, "confidence", Float("0.8", 0.8))).Some? &&
        ReplyStrings(Lookup(entries, "citations"), []).Some?
    ensures var r := BuildArgument(comment, id, Normalised(entries));
      r.Ok? ==>
        r.value.argType == StanceOf(Lookup(entries, "type")) &&
        r.value.themes == ReplyStrings(Lookup(entries, "themes"), ["general"]).value &&
        r.value.confidence == Number(GetOr(entries, "confidence", Float("0.8", 0.8))).value &&
        r.value.citations == ReplyStrings(Lookup(entries, "citations"), []).value
  {
    var data := Normalised(entries);
    NormalisedStanceValid(entries);
    DefaultDataLists();
    ListifiedStrings(Lookup(entries, "themes"), List([Str("general")]), ["general"]);
    ListifiedStrings(Lookup(entries, "citations"), List([]), []);
    assert Lookup(data, "confidence") == Lookup(entries, "confidence");
  }

  /** A reply naming a supporting stance, one theme and the confidence as the
      string "0.9" builds a supporting argument with confidence 0.9. */
  lemma SupportReplyArgument(comment: Comment, id: string, reply: string, decoder: map<string, Value>)
    requires CleanResponse(reply) in decoder
    requires decoder[CleanResponse(reply)] ==
      Dict([("type", Str("support")), ("themes", List([Str("privacy")])), ("confidence", Str("0.9"))])
    ensures SingleArgument(comment, id, Some(reply), decoder) ==
      Ok(Argument(id, comment.id, comment.text, Support, ["privacy"], comment.policyClause, 0.9, [], []))
  {
    var entries := [("type", Str("support")), ("themes", List([Str("privacy")])), ("confidence", Str("0.9"))];
    AcceptedReplyArgument(comment, id, entries);
    assert Lookup(entries, "type") == Some(Str("support"));
    assert Lookup(entries, "themes") == Some(List([Str("privacy")]));
    assert Lookup(entries, "confidence") == Some(Str("0.9"));
    assert Lookup(entries, "citations") == None;
    assert StringList(List([Str("privacy")])).value == ["privacy"];
    DecimalOfPointNine();
  }

  /** The default dict of a decode error builds a neutral, general argument
      with confidence 0.5. */
  lemma DefaultDataArgument(comment: Comment, id: string)
    ensures BuildArgument(comment, id, DefaultData) ==
            Ok(Argument(id, comment.id, comment.text, Neutral, ["general"], comment.policyClause, 0.5, [], []))
  {
    DefaultDataFields();
    DefaultDataLists();
  }

  /** What `.get` reads from the default dict. */
  lemma DefaultDataFields()
    ensures GetOr(DefaultData, "type", Str("neutral")) == Str("neutral")
    ensures GetOr(DefaultData, "themes", List([Str("general")])) == List([Str("general")])
    ensures GetOr(DefaultData, "confidence", Float("0.8", 0.8)) == Float("0.5", 0.5)
    ensures GetOr(DefaultData, "citations", List([])) == List([])
  {
    var d := DefaultData;
    assert Lookup(d, "type") == Some(Str("neutral"));
    assert Lookup(d, "themes") == Some(List([Str("general")]));
    assert Lookup(d, "confidence") == Some(Float("0.5", 0.5));
    assert Lookup(d, "citations") == Some(List([]));
  }

  /** The default themes and citations validate as lists of strings. */
  lemma DefaultDataLists()
    ensures StringList(List([Str("general")])) == Some(["general"])
    ensures StringList(List([])) == Some([])
  {
    var general := StringList(List([Str("general")]));
    assert general.Some? && |general.value| == 1 && Str(general.value[0]) == Str("general");
    assert general.value == ["general"];
  }

  /** _extract_single_argument: `reply` is the text of the model's answer, or
      None when the call raised. */
  function SingleArgument(comment: Comment, id: string, reply: Option<string>, decoder: map<string, Value>): (r: Result<Argument, string>)
    ensures reply.None? ==> r.Err?
    ensures reply.Some? && CleanResponse(reply.value) !in decoder ==>
      r == Ok(Argument(id, comment.id, comment.text, Neutral, ["general"], comment.policyClause, 0.5, [], []))
    ensures reply.Some? && CleanResponse(reply.value) in decoder ==>
      if decoder[CleanResponse(reply.value)].Dict? then
        r == BuildArgument(comment, id, Normalised(decoder[CleanResponse(reply.value)].entries))
      else r.Err?
  {
    if reply.None? then Err("model call failed")
    else
      var data :- ParseGeminiResponse(reply.value, decoder);
      DefaultDataArgument(comment, id);
      BuildArgument(comment, id, data)
  }

  // ---------------------------------------------------------------------
  // Fallback and the extraction loop
  // ---------------------------------------------------------------------

  /** The fallback argument: the comment text kept verbatim, stance and
      themes from the keyword rules applied to the lower-cased text, and
      confidence 0.5. */
  predicate IsFallbackArgument(a: Argument, comment: Comment, id: string) {
    && a.id == id
    && a.commentId == comment.id
    && a.text == comment.text
    && a.argType == DetectArgumentType(Lower(comment.text))
    && a.themes == Themes(Lower(comment.text))
    && a.clause == comment.policyClause
    && a.confidence == 0.5
    && a.citations == [] && a.relatedArguments == []
  }

  /** _create_fallback_argument. */
  method CreateFallbackArgument(comment: Comment, id: string) returns (argument: Argument)
    ensures IsFallbackArgument(argument, comment, id)
  {
    var textLower := Lower(comment.text);
    var argumentType := DetectArgumentType(textLower);
    var themes := ExtractThemes(textLower);
    argument := Argument(id, comment.id, comment.text, argumentType, themes, comment.policyClause, 0.5, [], []);
  }

  /** What extract_arguments yields for one comment: the model's argument,
      or the fallback when anything on that path failed. */
  predicate IsGeminiArgument(a: Argument, comment: Comment, id: string, reply: Option<string>, decoder: map<string, Value>) {
    var r := SingleArgument(comment, id, reply, decoder);
    if r.Ok? then a == r.value else IsFallbackArgument(a, comment, id)
  }

  /** The body of the extraction loop: the model's argument for one
      comment, or its fallback when the call, the parse or the validation
      fails. */
  method ExtractOne(comment: Comment, id: string, reply: Option<string>, decoder: map<string, Value>)
    returns (argument: Argument)
    ensures IsGeminiArgument(argument, comment, id, reply, decoder)
  {
    var r := SingleArgument(comment, id, reply, decoder);
    if r.Ok? {
      argument := r.value;
    } else {
      argument := CreateFallbackArgument(comment, id);
    }
  }

  /** extract_arguments: one argument per comment, in input order; a failure
      on one comment is replaced by that comment's fallback alone. */
  method ExtractArguments(comments: seq<Comment>, ids: seq<string>, replies: seq<Option<string>>, decoder: map<string, Value>)
    returns (arguments: seq<Argument>)
    requires |ids| == |comments| && |replies| == |comments|
    ensures |arguments| == |comments|
    ensures forall i :: 0 <= i < |comments| ==> IsGeminiArgument(arguments[i], comments[i], ids[i], replies[i], decoder)
  {
    arguments := [];
    var i := 0;
    while i < |comments|
      invariant 0 <= i <= |comments|
      invariant |arguments| == i
      invariant forall k :: 0 <= k < i ==> IsGeminiArgument(arguments[k], comments[k], ids[k], replies[k], decoder)
    {
      var argument := ExtractOne(comments[i], ids[i], replies[i], decoder);
      ghost var prev := arguments;
      arguments := arguments + [argument];
      AppendKeeps(prev, argument, arguments,
                  (k: nat, a: Argument) => k < |comments| && IsGeminiArgument(a, comments[k], ids[k], replies[k], decoder));
      i := i + 1;
    }
  }

  /** A keyword with a character the text never uses does not occur in it. */
  lemma AbsentKeyword(text: string, keyword: string, c: char)
    requires c in keyword && c !in text
    ensures !Contains(text, keyword)
  {
    if Contains(text, keyword) {
      ContainsChars(text, keyword);
    }
  }

  /** A table row none of whose keywords occurs in a text written with
      `letters`: `witnesses[i]` is a character of keyword i outside them. */
  lemma RowAbsent(keywords: seq<string>, text: string, letters: string, witnesses: string)
    requires forall c :: c in text ==> c in letters
    requires |witnesses| == |keywords|
    requires forall i :: 0 <= i < |keywords| ==> witnesses[i] in keywords[i] && witnesses[i] !in letters
    ensures !AnyKeyword(keywords, text)
  {
    forall k | k in keywords
      ensures !Contains(text, k)
    {
      var i :| 0 <= i < |keywords| && keywords[i] == k;
      AbsentKeyword(text, k, witnesses[i]);
    }
  }

  /** The letters of "personal data", and a newline. */
  predicate PersonalDataLetters(text: string) {
    forall c :: c in text ==> c in "personal\ndt "
  }

  lemma PrivacyRowOverPersonalData(text: string)
    requires PersonalDataLetters(text)
    ensures AnyKeyword(ThemeTable[0].1, text) <==> Contains(text, "personal data")
  {
    RowAbsent(["privacy", "surveillance", "monitoring"], text, "personal\ndt ", "ium");
  }

  lemma OtherRowsOverPersonalData(text: string)
    requires PersonalDataLetters(text)
    ensures forall i :: 1 <= i < |ThemeTable| ==> !AnyKeyword(ThemeTable[i].1, text)
  {
    EconomicLegalOverPersonalData(text);
    TechnicalImplementationOverPersonalData(text);
  }

  lemma EconomicLegalOverPersonalData(text: string)
    requires PersonalDataLetters(text)
    ensures !AnyKeyword(ThemeTable[1].1, text) && !AnyKeyword(ThemeTable[2].1, text)
  {
    EconomicOverPersonalData(text);
    LegalOverPersonalData(text);
  }

  lemma EconomicOverPersonalData(text: string)
    requires PersonalDataLetters(text)
    ensures !AnyKeyword(ThemeTable[1].1, text)
  {
    RowAbsent(ThemeTable[1].1, text, "personal\ndt ", "cxmfc");
  }

  lemma LegalOverPersonalData(text: string)
    requires PersonalDataLetters(text)
    ensures !AnyKeyword(ThemeTable[2].1, text)
  {
    RowAbsent(ThemeTable[2].1, text, "personal\ndt ", "wgci");
  }

  lemma TechnicalImplementationOverPersonalData(text: string)
    requires PersonalDataLetters(text)
    ensures !AnyKeyword(ThemeTable[3].1, text) && !AnyKeyword(ThemeTable[4].1, text)
  {
    TechnicalOverPersonalData(text);
    ImplementationOverPersonalData(text);
  }

  lemma TechnicalOverPersonalData(text: string)
    requires PersonalDataLetters(text)
    ensures !AnyKeyword(ThemeTable[3].1, text)
  {
    RowAbsent(ThemeTable[3].1, text, "personal\ndt ", "ccyf");
  }

  lemma ImplementationOverPersonalData(text: string)
    requires PersonalDataLetters(text)
    ensures !AnyKeyword(ThemeTable[4].1, text)
  {
    RowAbsent(ThemeTable[4].1, text, "personal\ndt ", "iccx");
  }

  /** On a text written with the letters of "personal data" and a newline,
      only the phrase "personal data" itself can match a theme keyword. */
  lemma ThemesOverPersonalData(text: string)
    requires PersonalDataLetters(text)
    ensures MatchedThemes(ThemeTable, text) == if Contains(text, "personal data") then ["privacy"] else []
  {
    PrivacyRowOverPersonalData(text);
    OtherRowsOverPersonalData(text);
    var rest := ThemeTable[1..];
    assert forall i :: 0 <= i < |rest| ==> rest[i] == ThemeTable[i + 1];
    MatchedThemesEmpty(rest, text);
  }

  /** With the newline kept, no theme keyword occurs. */
  lemma RawLineHasNoTheme(a: string, b: string)
    requires a == "personal" && b == "data"
    ensures Themes(Lower(a + "\n" + b)) == ["general"]
  {
    var raw := a + "\n" + b;
    assert forall c :: c in raw ==> c in a || c == '\n' || c in b;
    LowerOfLowerCase(raw);
    AbsentKeyword(raw, "personal data", ' ');
    ThemesOverPersonalData(raw);
  }

  /** With the newline collapsed, "personal data" occurs. */
  lemma JoinedLineIsPrivacy(a: string, b: string)
    requires a == "personal" && b == "data"
    ensures Themes(a + " " + b) == ["privacy"]
  {
    var joined := a + " " + b;
    assert forall c :: c in joined ==> c in a || c == ' ' || c in b;
    LowerOfLowerCase(joined);
    assert joined[..13] == "personal data";
    ThemesOverPersonalData(joined);
  }

  /** The fallback keeps the raw text where the heuristic extractor
      normalises it, so the two can disagree: a newline between the words
      "personal" and "data" hides the privacy theme from the fallback only. */
  lemma FallbackDiffersFromHeuristic(a: string, b: string)
    requires a == "personal" && b == "data"
    ensures Themes(Lower(a + "\n" + b)) == ["general"]
    ensures Themes(PreprocessText(a + "\n" + b)) == ["privacy"]
  {
    RawLineHasNoTheme(a, b);
    assert LowerWord(a) && LowerWord(b);
    PreprocessJoinsLines(a, b);
    JoinedLineIsPrivacy(a, b);
  }
}
