/** The heuristic argument extractor: text normalisation, stance by keyword
    counting, theme tags from fixed keyword tables, and one argument per
    comment. */
module Extractor {
  import opened Text
  import opened Sequences
  import opened Models

  // ---------------------------------------------------------------------
  // Text normalisation
  // ---------------------------------------------------------------------

  /** re.sub(r'\s+', ' ', s): every run of whitespace becomes one space. */
  function CollapseWhitespace(s: string): string
    decreases |s|
  {
    if s == [] then []
    else if IsSpace(s[0]) then " " + CollapseWhitespace(TrimStart(s, Whitespace))
    else [s[0]] + CollapseWhitespace(s[1..])
  }

  /** After collapsing, the only whitespace left is ' ', and every other
      character comes from the input. */
  lemma {:induction false} CollapseWhitespaceShape(s: string)
    ensures forall c :: c in CollapseWhitespace(s) && IsSpace(c) ==> c == ' '
    ensures forall c :: c in CollapseWhitespace(s) && c != ' ' ==> c in s
    decreases |s|
  {
    if s != [] {
      if IsSpace(s[0]) {
        TrimStartShape(s, Whitespace);
        CollapseWhitespaceShape(TrimStart(s, Whitespace));
      } else {
        CollapseWhitespaceShape(s[1..]);
      }
    }
  }

  /** A run without whitespace passes through collapsing unchanged. */
  lemma {:induction false} CollapseWhitespaceOfWord(word: string, rest: string)
    requires forall c :: c in word ==> !IsSpace(c)
    ensures CollapseWhitespace(word + rest) == word + CollapseWhitespace(rest)
  {
    if word != [] {
      var s := word + rest;
      assert word[0] in word;
      assert s[0] == word[0] && !IsSpace(s[0]);
      assert s[1..] == word[1..] + rest;
      CollapseWhitespaceOfWord(word[1..], rest);
      assert CollapseWhitespace(s) == [s[0]] + CollapseWhitespace(s[1..]);
      assert word == [word[0]] + word[1..];
    } else {
      assert word + rest == rest;
    }
  }

  /** The characters the normalisation keeps: word characters, whitespace and
      the punctuation . , ; : ! ? ( ) - */
  predicate Kept(c: char) {
    IsWordChar(c) || IsSpace(c) || c in ".,;:!?()-"
  }

  /** re.sub(r'[^\w\s.,;:!?()-]', '', s): deletes every other character. */
  function RemoveSpecial(s: string): string {
    if s == [] then []
    else (if Kept(s[0]) then [s[0]] else []) + RemoveSpecial(s[1..])
  }

  /** Deletion keeps exactly the characters that are kept, in order. */
  lemma {:induction false} RemoveSpecialShape(s: string)
    ensures forall c :: c in RemoveSpecial(s) <==> c in s && Kept(c)
  {
    if s != [] {
      RemoveSpecialShape(s[1..]);
      assert s == [s[0]] + s[1..];
    }
  }

  /** Deletion leaves a string of kept characters unchanged. */
  lemma {:induction false} RemoveSpecialOfKept(s: string)
    requires forall c :: c in s ==> Kept(c)
    ensures RemoveSpecial(s) == s
  {
    if s != [] {
      RemoveSpecialOfKept(s[1..]);
      assert s == [s[0]] + s[1..];
    }
  }

  /** preprocess_text: lower-case, collapse whitespace, delete special
      characters, strip. */
  function PreprocessText(text: string): string {
    var lowered := Lower(text);
    var collapsed := CollapseWhitespace(lowered);
    var cleaned := RemoveSpecial(collapsed);
    Strip(cleaned)
  }

  /** The normalised text has no upper-case letter, only kept characters, no
      whitespace other than ' ', and no space at either end. */
  lemma PreprocessTextShape(text: string)
    ensures var r := PreprocessText(text);
            && (forall c :: c in r ==> !IsUpper(c) && Kept(c))
            && (forall c :: c in r && IsSpace(c) ==> c == ' ')
            && (r == [] || (r[0] != ' ' && r[|r| - 1] != ' '))
  {
    var lowered := Lower(text);
    var collapsed := CollapseWhitespace(lowered);
    var cleaned := RemoveSpecial(collapsed);
    CollapseWhitespaceShape(lowered);
    RemoveSpecialShape(collapsed);
    StripShape(cleaned);
    assert forall c :: c in collapsed && c != ' ' ==> !IsUpper(c);
  }

  /** A non-empty run of lower-case word characters. */
  predicate LowerWord(w: string) {
    w != [] && forall c :: c in w ==> IsWordChar(c) && !IsUpper(c)
  }

  lemma CollapseJoinsLines(a: string, b: string)
    requires LowerWord(a) && LowerWord(b)
    ensures CollapseWhitespace(a + "\n" + b) == a + " " + b
  {
    CollapseWhitespaceOfWord(a, "\n" + b);
    assert a + "\n" + b == a + ("\n" + b);
    assert b[0] in b;
    assert ("\n" + b)[1..] == b;
    assert TrimStart("\n" + b, Whitespace) == TrimStart(b, Whitespace) == b;
    CollapseWhitespaceOfWord(b, "");
    assert b + "" == b;
    assert a + " " + b == a + (" " + b);
  }

  /** Two lower-case words separated by a newline come out separated by one
      space. */
  lemma PreprocessJoinsLines(a: string, b: string)
    requires LowerWord(a) && LowerWord(b)
    ensures PreprocessText(a + "\n" + b) == a + " " + b
  {
    var text := a + "\n" + b;
    var joined := a + " " + b;
    assert forall c :: c in text ==> c in a || c == '\n' || c in b;
    assert forall c :: c in joined ==> c in a || c == ' ' || c in b;
    LowerOfLowerCase(text);
    CollapseJoinsLines(a, b);
    RemoveSpecialOfKept(joined);
    assert joined[0] == a[0] && joined[|joined| - 1] == b[|b| - 1];
    assert a[0] in a && b[|b| - 1] in b;
    StripUnchanged(joined);
  }

  /** Whitespace is collapsed before characters are deleted, so deleting a
      character between two spaces leaves two adjacent spaces behind, and the
      normalisation is not idempotent. */
  lemma PreprocessNotIdempotent()
    ensures PreprocessText("a @ b") == "a  b"
    ensures PreprocessText("a  b") == "a b"
  {
    CollapseSample();
    RemoveSpecialSample();
    StripUnchanged("a  b");
    StripUnchanged("a b");
  }

  lemma CollapseSample()
    ensures CollapseWhitespace(Lower("a @ b")) == "a @ b"
    ensures CollapseWhitespace(Lower("a  b")) == "a b"
  {
    assert Lower("a @ b") == "a @ b";
    assert Lower("a  b") == "a  b";
    assert TrimStart(" @ b", Whitespace) == "@ b";
    assert TrimStart(" b", Whitespace) == "b";
    assert TrimStart("  b", Whitespace) == "b";
  }

  lemma RemoveSpecialSample()
    ensures RemoveSpecial("a @ b") == "a  b"
    ensures RemoveSpecial("a b") == "a b"
  {
    assert RemoveSpecial("b") == "b";
    assert RemoveSpecial(" b") == " b";
    assert RemoveSpecial("@ b") == " b";
  }

  // ---------------------------------------------------------------------
  // Stance detection
  // ---------------------------------------------------------------------

  const SupportKeywords: seq<string> := ["support", "agree", "good", "benefit", "positive", "favor"]
  const ObjectionKeywords: seq<string> :=
    ["against", "disagree", "bad", "negative", "concern", "problem", "issue"]

  /** sum(1 for keyword in keywords if keyword in text). */
  function CountPresent(keywords: seq<string>, text: string): (n: nat)
    ensures n <= |keywords|
  {
    if keywords == [] then 0
    else (if Contains(text, keywords[0]) then 1 else 0) + CountPresent(keywords[1..], text)
  }

  /** The keywords of a list that occur in the text. */
  function PresentKeywords(keywords: seq<string>, text: string): set<string> {
    set k | k in keywords && Contains(text, k)
  }

  lemma PresentKeywordsCons(keywords: seq<string>, text: string)
    requires keywords != []
    ensures PresentKeywords(keywords, text) ==
              (if Contains(text, keywords[0]) then {keywords[0]} else {}) + PresentKeywords(keywords[1..], text)
  {
    assert keywords == [keywords[0]] + keywords[1..];
  }

  /** Each keyword counts once however often it occurs: the count is the
      number of distinct keywords present. */
  lemma {:induction false} CountPresentIsKeywordsPresent(keywords: seq<string>, text: string)
    requires Distinct(keywords)
    ensures CountPresent(keywords, text) == |PresentKeywords(keywords, text)|
  {
    if keywords != [] {
      var rest := keywords[1..];
      CountPresentIsKeywordsPresent(rest, text);
      PresentKeywordsCons(keywords, text);
      forall j | 0 <= j < |rest| ensures rest[j] != keywords[0] {
        assert rest[j] == keywords[j + 1];
      }
      assert keywords[0] !in PresentKeywords(rest, text);
    }
  }

  function SupportScore(text: string): nat {
    CountPresent(SupportKeywords, Lower(text))
  }

  function ObjectionScore(text: string): nat {
    CountPresent(ObjectionKeywords, Lower(text))
  }

  /** detect_argument_type: the side with more keywords present wins; a tie,
      including 0-0, is neutral. */
  function DetectArgumentType(text: string): (t: ArgumentType)
    ensures t == Support <==> SupportScore(text) > ObjectionScore(text)
    ensures t == Objection <==> ObjectionScore(text) > SupportScore(text)
    ensures t == Neutral <==> SupportScore(text) == ObjectionScore(text)
  {
    var support := SupportScore(text);
    var objection := ObjectionScore(text);
    if support > objection then Support
    else if objection > support then Objection
    else Neutral
  }

  /** Each score is the number of distinct keywords of its list found in
      the lowercased text, so support scores at most 6 and objection at
      most 7. */
  lemma ScoresCountDistinctKeywords(text: string)
    ensures SupportScore(text) == |PresentKeywords(SupportKeywords, Lower(text))| <= 6
    ensures ObjectionScore(text) == |PresentKeywords(ObjectionKeywords, Lower(text))| <= 7
  {
    assert Distinct(SupportKeywords);
    assert Distinct(ObjectionKeywords);
    CountPresentIsKeywordsPresent(SupportKeywords, Lower(text));
    CountPresentIsKeywordsPresent(ObjectionKeywords, Lower(text));
  }

  /** Stance detection ignores case: it sees the same text whether or not
      it has been lower-cased already. */
  lemma DetectArgumentTypeIgnoresCase(text: string)
    ensures DetectArgumentType(Lower(text)) == DetectArgumentType(text)
  {
    LowerIdempotent(text);
  }

  /** Matching is by substring, so "disagree" also counts as "agree". */
  lemma AgreeInsideDisagree(text: string)
    requires Contains(text, "disagree")
    ensures Contains(text, "agree")
  {
    var i := ContainsWitness(text, "disagree");
    assert text[i + 3..i + 8] == text[i..i + 8][3..];
    ContainsAt(text, "agree", i + 3);
  }

  /** A keyword present adds at least one to its side's score. */
  lemma {:induction false} CountPresentPositive(keywords: seq<string>, text: string, k: string)
    requires k in keywords && Contains(text, k)
    ensures CountPresent(keywords, text) >= 1
  {
    if keywords[0] != k {
      assert k in keywords[1..];
      CountPresentPositive(keywords[1..], text, k);
    }
  }

  /** "disagree" scores on both sides, so it never tips the balance by itself:
      each side scores at least one whenever it occurs. */
  lemma DisagreeScoresBothSides(text: string)
    requires Contains(Lower(text), "disagree")
    ensures SupportScore(text) >= 1 && ObjectionScore(text) >= 1
  {
    AgreeInsideDisagree(Lower(text));
    CountPresentPositive(SupportKeywords, Lower(text), "agree");
    CountPresentPositive(ObjectionKeywords, Lower(text), "disagree");
  }

  // ---------------------------------------------------------------------
  // Themes
  // ---------------------------------------------------------------------

  const ThemeTable: seq<(string, seq<string>)> := [
    ("privacy", ["privacy", "personal data", "surveillance", "monitoring"]),
    ("economic", ["cost", "expense", "money", "financial", "economy"]),
    ("legal", ["law", "legal", "constitution", "rights"]),
    ("technical", ["technology", "technical", "system", "software"]),
    ("implementation", ["implement", "process", "procedure", "execute"])
  ]

  const ThemeNames: seq<string> := ["privacy", "economic", "legal", "technical", "implementation"]

  /** any(keyword in text for keyword in keywords). */
  predicate AnyKeyword(keywords: seq<string>, text: string) {
    exists k :: k in keywords && Contains(text, k)
  }

  /** The names of the table rows with a keyword in the text, in table order. */
  function MatchedThemes(table: seq<(string, seq<string>)>, text: string): (r: seq<string>)
    ensures |r| <= |table|
  {
    if table == [] then []
    else (if AnyKeyword(table[0].1, text) then [table[0].0] else []) + MatchedThemes(table[1..], text)
  }

  /** The themes of a text, ["general"] when no theme keyword occurs. */
  function Themes(text: string): seq<string> {
    var matched := MatchedThemes(ThemeTable, Lower(text));
    if matched == [] then ["general"] else matched
  }

  /** Theme detection ignores case as well. */
  lemma ThemesIgnoreCase(text: string)
    ensures Themes(Lower(text)) == Themes(text)
  {
    LowerIdempotent(text);
  }

  lemma {:induction false} MatchedThemesIsSubsequence(table: seq<(string, seq<string>)>, text: string)
    ensures IsSubsequence(MatchedThemes(table, text), seq(|table|, i requires 0 <= i < |table| => table[i].0))
  {
    var names := seq(|table|, i requires 0 <= i < |table| => table[i].0);
    if table != [] {
      var rest := table[1..];
      MatchedThemesIsSubsequence(rest, text);
      assert names[1..] == seq(|rest|, i requires 0 <= i < |rest| => rest[i].0);
      var matched := MatchedThemes(table, text);
      if AnyKeyword(table[0].1, text) {
        assert matched[0] == names[0] && matched[1..] == MatchedThemes(rest, text);
      } else {
        assert matched == MatchedThemes(rest, text);
      }
    }
  }

  lemma {:induction false} MatchedThemesEmpty(table: seq<(string, seq<string>)>, text: string)
    ensures MatchedThemes(table, text) == [] <==>
              forall i :: 0 <= i < |table| ==> !AnyKeyword(table[i].1, text)
  {
    if table != [] {
      MatchedThemesEmpty(table[1..], text);
      assert forall i :: 1 <= i < |table| ==> table[1..][i - 1] == table[i];
    }
  }

  /** extract_themes: a non-empty, duplicate-free list in table order, and
      ["general"] exactly when no theme keyword occurs. */
  lemma ThemesShape(text: string)
    ensures Themes(text) != [] && Distinct(Themes(text))
    ensures Themes(text) == ["general"] || IsSubsequence(Themes(text), ThemeNames)
    ensures forall t :: t in Themes(text) ==> t in ThemeNames || t == "general"
    ensures Themes(text) == ["general"] <==>
              forall i :: 0 <= i < |ThemeTable| ==> !AnyKeyword(ThemeTable[i].1, Lower(text))
  {
    var matched := MatchedThemes(ThemeTable, Lower(text));
    MatchedThemesIsSubsequence(ThemeTable, Lower(text));
    assert seq(|ThemeTable|, i requires 0 <= i < |ThemeTable| => ThemeTable[i].0) == ThemeNames;
    SubsequenceOfDistinct(matched, ThemeNames);
    SubsequenceElements(matched, ThemeNames);
    MatchedThemesEmpty(ThemeTable, Lower(text));
    if matched != [] {
      assert matched[0] in ThemeNames;
    }
  }

  /** The loop of extract_themes: one pass over the table, appending every
      theme with a keyword present in `text`. */
  method MatchThemes(table: seq<(string, seq<string>)>, text: string) returns (themes: seq<string>)
    ensures themes == MatchedThemes(table, text)
  {
    themes := [];
    var i := 0;
    while i < |table|
      invariant 0 <= i <= |table|
      invariant themes + MatchedThemes(table[i..], text) == MatchedThemes(table, text)
    {
      assert table[i..][1..] == table[i + 1..];
      var keywords := table[i].1;
      var found := false;
      var j := 0;
      while j < |keywords|
        invariant 0 <= j <= |keywords|
        invariant found <==> exists k :: k in keywords[..j] && Contains(text, k)
      {
        assert keywords[..j + 1] == keywords[..j] + [keywords[j]];
        if Contains(text, keywords[j]) {
          assert keywords[j] in keywords[..j + 1];
          found := true;
        }
        j := j + 1;
      }
      assert keywords[..j] == keywords;
      if found {
        themes := themes + [table[i].0];
      }
      i := i + 1;
    }
  }

  /** extract_themes: the matched themes of the lower-cased text, or
      ["general"] when there are none. */
  method ExtractThemes(text: string) returns (themes: seq<string>)
    ensures themes == Themes(text)
  {
    themes := MatchThemes(ThemeTable, Lower(text));
    if themes == [] {
      themes := ["general"];
    }
  }

  // ---------------------------------------------------------------------
  // Arguments
  // ---------------------------------------------------------------------

  /** The argument built for one comment: the normalised text, the stance
      and themes of that text, and the fixed confidence 0.85. */
  predicate IsHeuristicArgument(a: Argument, comment: Comment, id: string) {
    && a.id == id
    && a.commentId == comment.id
    && a.text == PreprocessText(comment.text)
    && a.argType == DetectArgumentType(a.text)
    && a.themes == Themes(a.text)
    && a.clause == comment.policyClause
    && a.confidence == 0.85
    && a.citations == [] && a.relatedArguments == []
  }

  /** The body of the loop in extract_arguments, for one comment. */
  method ExtractArgument(comment: Comment, id: string) returns (argument: Argument)
    ensures IsHeuristicArgument(argument, comment, id)
  {
    var processed := PreprocessText(comment.text);
    var argumentType := DetectArgumentType(processed);
    var themes := ExtractThemes(processed);
    argument := Argument(id, comment.id, processed, argumentType, themes, comment.policyClause, 0.85, [], []);
  }

  /** extract_arguments: one argument per comment, in input order. `ids` are
      the fresh identifiers the source draws from uuid4, one per comment. */
  method ExtractArguments(comments: seq<Comment>, ids: seq<string>) returns (arguments: seq<Argument>)
    requires |ids| == |comments|
    ensures |arguments| == |comments|
    ensures forall i :: 0 <= i < |comments| ==> IsHeuristicArgument(arguments[i], comments[i], ids[i])
  {
    arguments := [];
    var i := 0;
    while i < |comments|
      invariant 0 <= i <= |comments|
      invariant |arguments| == i
      invariant forall k :: 0 <= k < i ==> IsHeuristicArgument(arguments[k], comments[k], ids[k])
    {
      var argument := ExtractArgument(comments[i], ids[i]);
      arguments := arguments + [argument];
      i := i + 1;
    }
  }
}
