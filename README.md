# Sovereign's Edict — a Dafny model of the comment-analysis pipeline

Sovereign's Edict takes public comments on a draft policy and works through them in stages:

- it mines each comment for an argument (a stance, themes and the clause it is about);
- it looks up supporting citations in a small static table;
- it fuses the arguments across sources (groups by clause, weights by repetition, flags echo chambers, cross-validates);
- it proposes one amendment suggestion per clause.

A FastAPI service keeps the uploaded comments, policy documents, arguments and citations in an in-memory store and runs this pipeline on request. Around the pipeline sit:

- the upload parsers;
- a compute advisor that bands a dataset by size and routes the work;
- a module registry and a plugin manager;
- six source plugins: YouTube, LinkedIn, Instagram, a government database, scraped files, and the Indian Digital Personal Data Protection Act text.

This project models that core in Dafny, with one module per source file:

- `Extractor` covers the keyword heuristic.
- `Gemini` covers the language-model extractor's key check, response normalisation and fallback.
- `CitationOracle`, `Fusion`, `Amendment` and `Compute` cover the pipeline stages and the advisor.
- `Session` covers the API's store and its endpoints.
- `Ingestion` covers the upload parsers.
- `Registry` and `Plugins` cover the registry and the plugin manager.
- `YouTube`, `LinkedIn`, `Instagram`, `GovDatabase`, `ScrapedData` and `LegalPolicy` cover the plugins.

Shared helper modules:

- `Wrappers` holds Option and Result.
- `Text` holds Python's `strip`, `split`, `lower`, `join` and `in` on ASCII text.
- `PyValue` holds JSON-like Python values, with `dict.get`, truthiness, and a simplified `str()` and `repr()` (see below).
- `Patterns` holds the hand-modelled regular expressions.
- `Sequences` and `Sorting` hold subsequences, first-seen order, collecting results, and Python's stable `sorted` by key.
- `Models` and `PluginBase` hold the data records.

How the code is modelled:

- Code that the source writes as loops over lists and dicts is written as Dafny methods with loop invariants. Each such method is proved equal to a specification function, and the properties are proved as lemmas about that function.
- The session store, the registry and the plugin manager are classes whose methods update their fields in place.
- Fresh uuids, the current time, the machine's memory load, the language model's replies, decoded JSON and network responses are parameters.

Behaviour of the code worth knowing:

- The heuristic confidence is the constant 0.85.
- Stance counts the distinct keywords present, not their occurrences.
- Nothing clamps a weight: a lone argument with confidence 1.0 weighs 1.1 (`Fusion.LoneArgumentWeight`).
- Cross-validation counts the arguments sharing a text, not the distinct comments behind them.
- The language-model fallback is not the heuristic path: it reads the raw lowercased text rather than the normalised text, keeps the text verbatim and uses confidence 0.5 (`Gemini.FallbackDiffersFromHeuristic`).

## Model

| member | source | states |
|---|---|---|
| Extractor.PreprocessTextShape | backend/mining/extractor.py:18-31 | the normalised text has no upper-case letter, keeps only word characters, whitespace and `.,;:!?()-`, has only plain spaces as whitespace, and does not start or end with a space |
| Extractor.CollapseWhitespaceShape | backend/mining/extractor.py:26 | collapsing whitespace leaves only single spaces as whitespace and invents no other character |
| Extractor.CollapseWhitespaceOfWord | backend/mining/extractor.py:26 | a word without whitespace passes through the collapse unchanged |
| Extractor.RemoveSpecialShape | backend/mining/extractor.py:29 | a character survives removal exactly when it was in the text and is in the kept class |
| Extractor.RemoveSpecialOfKept | backend/mining/extractor.py:29 | text made only of kept characters is unchanged |
| Extractor.PreprocessJoinsLines | backend/mining/extractor.py:22-31 | two lower-case words on separate lines are normalised to the words joined by one space |
| Extractor.PreprocessNotIdempotent | backend/mining/extractor.py:26-31 | "a @ b" normalises to "a  b" with two spaces, and normalising again gives "a b", so normalisation is not idempotent |
| Extractor.CountPresentIsKeywordsPresent | backend/mining/extractor.py:74-75 | over a keyword list without repeats, the count is the number of distinct keywords present, however often each occurs |
| Extractor.ScoresCountDistinctKeywords | backend/mining/extractor.py:69-75 | each score is the number of distinct keywords of its list in the lowercased text, so support is at most 6 and objection at most 7 |
| Extractor.DetectArgumentType | backend/mining/extractor.py:64-82 | support exactly when the support score is higher, objection exactly when the objection score is higher, neutral exactly on a tie, including 0-0 |
| Extractor.DetectArgumentTypeIgnoresCase | backend/mining/extractor.py:72 | stance detection gives the same answer for a text and its lowercased form |
| Extractor.AgreeInsideDisagree | backend/mining/extractor.py:69-70 | any text containing "disagree" also contains the support keyword "agree" |
| Extractor.DisagreeScoresBothSides | backend/mining/extractor.py:69-75 | a text containing "disagree" scores at least one on each side |
| Extractor.CountPresentPositive | backend/mining/extractor.py:74-75 | a keyword present in the text makes the count at least one |
| Extractor.MatchedThemesIsSubsequence | backend/mining/extractor.py:103-105 | the matched themes are a subsequence of the table's theme names, in table order |
| Extractor.MatchedThemesEmpty | backend/mining/extractor.py:103-105 | no theme matches exactly when no keyword of any row occurs |
| Extractor.ThemesShape | backend/mining/extractor.py:85-111 | the themes are non-empty and free of repeats; they are either ["general"] or a subsequence of privacy, economic, legal, technical, implementation; ["general"] exactly when no theme keyword occurs |
| Extractor.ThemesIgnoreCase | backend/mining/extractor.py:91 | themes are the same for a text and its lowercased form |
| Extractor.MatchThemes | backend/mining/extractor.py:102-105 | the theme loop computes the matched themes of the table |
| Extractor.ExtractThemes | backend/mining/extractor.py:85-111 | extract_themes returns the themes of the text |
| Extractor.ExtractArgument | backend/mining/extractor.py:44-59 | the argument carries the comment's id and clause, the normalised text, that text's stance and themes, confidence 0.85 and no citations |
| Extractor.ExtractArguments | backend/mining/extractor.py:34-61 | exactly one such argument per comment, in input order |
| Gemini.NewGeminiExtractor | backend/mining/gemini_extractor.py:25-34 | construction succeeds exactly when the argument or the environment gives a non-empty key; the argument's key wins; otherwise the fixed error |
| Gemini.CleanResponse | backend/mining/gemini_extractor.py:127-131 | cleaning never lengthens the text |
| Gemini.CleanResponseOfFenced | backend/mining/gemini_extractor.py:127-131 | a reply fenced as "```json" body "```" cleans to the body |
| Gemini.CleanResponseOfUnfenced | backend/mining/gemini_extractor.py:127-131 | an unfenced reply cleans to its stripped text |
| Gemini.CleanResponseOfOpenedOnly | backend/mining/gemini_extractor.py:127-131 | a reply that opens a "```json" fence and does not close it cleans to what follows the fence |
| Gemini.CleanResponseOfClosedOnly | backend/mining/gemini_extractor.py:127-131 | a reply that only ends in "```" cleans to what precedes the fence |
| Gemini.SetEntry | backend/mining/gemini_extractor.py:139-151 | assigning a key makes its lookup the new value and leaves every other key's lookup alone |
| Gemini.StanceOf | backend/mining/gemini_extractor.py:137-143 | "support" maps to support and "objection" to objection, each exactly; anything else or a missing type is neutral |
| Gemini.Listified | backend/mining/gemini_extractor.py:146-151 | a missing field stays missing, a list is untouched, and anything else becomes a list |
| Gemini.Normalised | backend/mining/gemini_extractor.py:136-153 | after normalisation, the type is the stance's name and themes and citations are listified; every other key is unchanged |
| Gemini.ListifyEntry | backend/mining/gemini_extractor.py:146-152 | a present non-list value under the key becomes the one-element list of its str(); a list or a missing value is kept; every other key is unchanged |
| Gemini.StanceNameRoundTrip | backend/mining/gemini_extractor.py:83 | the stored stance, read back by its name when the Argument is built, is the same stance (also lines 137-143) |
| Gemini.NormalisedIdempotent | backend/mining/gemini_extractor.py:136-153 | normalising twice looks up the same as normalising once |
| Gemini.NormalisedStanceValid | backend/mining/gemini_extractor.py:137-143 | the normalised type always names a valid stance, the one the reply asked for (also line 83) |
| Gemini.ParseGeminiResponse | backend/mining/gemini_extractor.py:121-163 | a reply that does not decode gives the fixed default; one that decodes succeeds exactly when it is a dict, and then gives that dict normalised |
| Gemini.StringList | backend/mining/gemini_extractor.py:84 | a value converts to a list of strings exactly when it is a list of strings, element by element (also line 87) |
| Gemini.StanceNamed | backend/mining/gemini_extractor.py:83 | a value converts to a stance only when it is that stance's name |
| Gemini.Number | backend/mining/gemini_extractor.py:86 | the float field takes an int or float as its value, a bool as 1.0 or 0.0, a string by its decimal value, and refuses null, lists and dicts |
| Gemini.UnsignedDecimal | backend/mining/gemini_extractor.py:86 | a string has an unsigned decimal value exactly when it is digits with at most one point and at least one digit, and the value is never negative |
| Gemini.DecimalValue | backend/mining/gemini_extractor.py:86 | a string coerces exactly when, after an optional sign, it is an unsigned decimal |
| Gemini.DecimalOfNumeral | backend/mining/gemini_extractor.py:86 | the string of a natural number, with or without a minus sign, coerces to that number |
| Gemini.DecimalOfFraction | backend/mining/gemini_extractor.py:86 | "n.f" coerces to n plus the fraction digits f over 10 to the power of their count |
| Gemini.DecimalOfPointNine | backend/mining/gemini_extractor.py:86 | the confidence "0.9" coerces to 0.9 |
| Gemini.DecimalRejects | backend/mining/gemini_extractor.py:86 | "high", the empty string, "." and "1.2.3" do not coerce |
| Gemini.BuildArgument | backend/mining/gemini_extractor.py:79-88 | the argument keeps the comment's id, text and clause; it is built exactly when the type names a stance, themes and citations are lists of strings and the confidence is a number, and then its fields are those values; missing fields default to neutral, ["general"] themes, confidence 0.8 and no citations |
| Gemini.ReplyStrings | backend/mining/gemini_extractor.py:146-151 | an absent field gives the default, a single value gives its str(), and a list gives strings exactly when every item is a string |
| Gemini.ListifiedStrings | backend/mining/gemini_extractor.py:84 | reading a listified field with a string-list default gives the reply's strings for it (also lines 146-151) |
| Gemini.AcceptedReplyArgument | backend/mining/gemini_extractor.py:79-88 | for a reply that decodes to a dict, the argument is built exactly when its themes and citations give strings and its confidence is a number; its stance is the one "type" names, and its themes, confidence and citations are the reply's (also lines 136-153) |
| Gemini.SupportReplyArgument | backend/mining/gemini_extractor.py:66-90 | a reply with type "support", themes ["privacy"] and confidence "0.9" gives a supporting argument with those themes and confidence 0.9 |
| Gemini.DefaultDataArgument | backend/mining/gemini_extractor.py:158-163 | the decode-error default becomes a neutral argument with themes ["general"], confidence 0.5 and no citations (also lines 79-88) |
| Gemini.SingleArgument | backend/mining/gemini_extractor.py:66-90 | a failed call is an error; an undecodable reply gives the default argument; a reply decoding to a dict gives the argument built from that dict normalised, and any other decoded value is an error |
| Gemini.CreateFallbackArgument | backend/mining/gemini_extractor.py:165-210 | the fallback keeps the comment's text verbatim, takes stance and themes from the raw lowercased text, and uses confidence 0.5 |
| Gemini.ExtractOne | backend/mining/gemini_extractor.py:54-62 | one comment yields the model's argument when the call, the parse and the validation succeed, and its fallback otherwise |
| Gemini.ExtractArguments | backend/mining/gemini_extractor.py:41-64 | one argument per comment, in order: the model's where that comment succeeds, and that comment's fallback alone where it fails |
| Gemini.ThemesOverPersonalData | backend/mining/gemini_extractor.py:187-200 | over the letters of "personal data" and whitespace, only the privacy row can match, and only through "personal data" |
| Gemini.RawLineHasNoTheme | backend/mining/gemini_extractor.py:173 | "personal\ndata", lowercased but not normalised, has theme ["general"] (also lines 195-200) |
| Gemini.JoinedLineIsPrivacy | backend/mining/extractor.py:93-109 | "personal data" has theme ["privacy"] |
| Gemini.FallbackDiffersFromHeuristic | backend/mining/gemini_extractor.py:173 | the same comment "personal\ndata" is "general" for the fallback and "privacy" for the heuristic extractor (also lines 195-200) |
| CitationOracle.RelevantCitationsShape | backend/citation/oracle.py:49-68 | the found citations are a subsequence of the table, and a citation is found exactly when it shares more than two tokens with the text |
| CitationOracle.FilterRelevant | backend/citation/oracle.py:60-68 | the filtering loop returns the relevant citations in table order |
| CitationOracle.FindCitations | backend/citation/oracle.py:49-68 | find_citations returns the relevant citations of the static table for the argument's text |
| CitationOracle.SampleCitationsDistinct | backend/citation/oracle.py:18-46 | the static table has no repeated entry |
| CitationOracle.FoundCitationsShape | backend/citation/oracle.py:18-68 | at most three citations, no repeats, in table order, each exactly one that is relevant |
| CitationOracle.FewTokensFindNothing | backend/citation/oracle.py:63-65 | a text with at most two distinct tokens is relevant to no citation |
| CitationOracle.BlankTextFindsNothing | backend/citation/oracle.py:63 | an empty or whitespace-only text has no tokens and finds nothing |
| CitationOracle.ValidateCitation | backend/citation/oracle.py:71-75 | an id is valid exactly when it is one of the table's ids |
| CitationOracle.FoundCitationsValidate | backend/citation/oracle.py:49-75 | every found citation's id validates |
| Fusion.MatchingShape | backend/fusion/engine.py:23-25 | an argument is in its key's group exactly when it is an input argument with that key, and the group is a subsequence of the input |
| Fusion.FirstSeenKeysShape | backend/fusion/engine.py:23-25 | the group keys are distinct and are exactly the keys that occur |
| Fusion.PresentKeyHasArguments | backend/fusion/engine.py:23-27 | every present key has a non-empty group |
| Fusion.UnseenKeyHasNoArguments | backend/fusion/engine.py:23-27 | an absent key has no arguments |
| Fusion.GroupArguments | backend/fusion/engine.py:22-27 | the grouping loop gives the first-seen keys and, for each, its arguments in input order |
| Fusion.AggregateArguments | backend/fusion/engine.py:18-27 | aggregate_arguments maps exactly the clauses present to their arguments, in input order |
| Fusion.GroupSizesTotal | backend/fusion/engine.py:18-27 | the group sizes add up to the number of arguments |
| Fusion.LoneArgumentWeight | backend/fusion/engine.py:43-47 | a lone argument weighs its confidence times 1.1, unclamped |
| Fusion.CalculateArgumentWeights | backend/fusion/engine.py:30-53 | every argument id gets a weight, and each is the mean confidence of its text group times one plus a tenth of the group's distinct comment ids |
| Fusion.AssignWeight | backend/fusion/engine.py:50-51 | writing one group's weight keeps every entry equal to its text group's weight |
| Fusion.IdsOfTextsMembers | backend/fusion/engine.py:50-51 | the ids of the groups of some texts are exactly the ids of the arguments with those texts (also lines 95-96) |
| Fusion.IdsOfAllTexts | backend/fusion/engine.py:50-51 | the groups of all texts cover every argument id (also lines 95-96) |
| Fusion.EchoIdsMembers | backend/fusion/engine.py:63-74 | an id is flagged exactly when its argument's text comes from more than ten distinct comment ids |
| Fusion.DetectEchoChambers | backend/fusion/engine.py:56-76 | the flagged ids come by text in first-seen order, then in input order |
| Fusion.IdsWithText | backend/fusion/engine.py:72-74 | the inner loop lists the ids of the text's group in input order |
| Fusion.EchoChambersMembers | backend/fusion/engine.py:56-76 | an argument is flagged exactly when its text comes from more than ten distinct comment ids |
| Fusion.CrossValidateArguments | backend/fusion/engine.py:79-98 | every argument id gets a flag, true exactly when its text group has more than one argument |
| Fusion.AssignValidation | backend/fusion/engine.py:92-96 | writing one group's flag keeps every entry correct |
| Amendment.CountsWithinTotal | backend/amendment/generator.py:33-34 | supports plus objections never exceed the group's size |
| Amendment.KindFor | backend/amendment/generator.py:37-42 | objection response exactly when objections are more, support acknowledgment exactly when supports are more, balanced review exactly on a tie |
| Amendment.ThemeCountsShape | backend/amendment/generator.py:54-58 | the theme counts have exactly the objection themes as keys, each counting its occurrences |
| Amendment.CountObjectionThemes | backend/amendment/generator.py:54-58 | the counting loop gives the objection themes in first-seen order and their counts |
| Amendment.CountThemes | backend/amendment/generator.py:57-58 | the inner loop extends order and counts by one argument's themes |
| Amendment.RankingMembers | backend/amendment/generator.py:61 | the ranking holds each objection theme once, keyed by its negated count |
| Amendment.TopThemesDistinct | backend/amendment/generator.py:61 | the top themes number min(3, distinct objection themes), are distinct, and are objection themes |
| Amendment.TopThemesRanked | backend/amendment/generator.py:61 | the top themes are in descending count order, and no theme left out has a higher count than one kept |
| Amendment.TopThemesEntries | backend/amendment/generator.py:61 | the top themes are the first up to three entries of the stable ranking, so ties keep first-seen order |
| Amendment.UniqueByIdShape | backend/amendment/generator.py:70-76 | deduplication keeps the first citation of each id, in order, and loses no id |
| Amendment.UniqueCitationsShape | backend/amendment/generator.py:63-76 | the deduplicated objection citations have distinct ids, come from the table, and are no more than the table |
| Amendment.CollectObjectionCitations | backend/amendment/generator.py:63-68 | the loop collects the citations of each objection argument, in order |
| Amendment.DedupCitations | backend/amendment/generator.py:70-76 | the loop with a seen-id set computes the first-per-id deduplication |
| Amendment.GenerateObjectionResponse | backend/amendment/generator.py:49-87 | the response names the top themes, keeps the first three unique citations, and has confidence 0.9 |
| Amendment.SuggestionForShape | backend/amendment/generator.py:31-46 | a suggestion is for its clause; its type follows the counts; confidence is 0.9, 0.8 or 0.7 by type; only an objection response has citations, at most three with distinct ids from the table (also lines 78-119) |
| Amendment.ObjectionTextsNameThemes | backend/amendment/generator.py:82-84 | summary, details and suggested change each name every top theme, and the suggested change names the clause |
| Amendment.ObjectionResponseNamesThemes | backend/amendment/generator.py:78-87 | every top theme appears in the response's three texts |
| Amendment.BalancedReviewNamesClause | backend/amendment/generator.py:116 | a balanced review's suggested change names the clause |
| Amendment.Suggest | backend/amendment/generator.py:31-44 | the body of the clause loop picks the generator by the counts |
| Amendment.SuggestAmendments | backend/amendment/generator.py:18-46 | suggest_amendments gives one suggestion per clause group, in first-seen clause order |
| Amendment.SuggestionsForIndex | backend/amendment/generator.py:31-44 | suggestion i is the one for clause i and that clause's arguments |
| Amendment.OneSuggestionPerClause | backend/amendment/generator.py:23-46 | the clauses are distinct and are exactly those present, and suggestion i is for clause i |
| Compute.AssessRequirements | backend/compute/manager.py:17-47 | the four bands: below 1000 local with 512MB, below 10000 local with 1GB, below 100000 hybrid with 2GB, otherwise cloud with 4GB+; the count is kept and the action is "Process " plus the type |
| Compute.AssessmentMonotone | backend/compute/manager.py:24-39 | a larger dataset never gets a type nearer to local |
| Compute.RouteProcessing | backend/compute/manager.py:65-83 | hybrid exactly when the compute type is "hybrid"; local exactly when it is "local" (or missing) and memory is under 80%; the cloud otherwise; routing fails only when the requirements are not a dict |
| Compute.RouteOfAssessment | backend/compute/manager.py:65-83 | an assessed job goes local only when small and under 80% memory, hybrid when mid-sized, and to the cloud otherwise |
| Compute.RawKey | backend/compute/manager.py:91 | a job's size value can be read exactly when the job and its requirements are dicts |
| Compute.NumericKey | backend/compute/manager.py:91 | ints, floats and bools compare as numbers (a bool as 1 or 0); no other value does |
| Compute.JobKey | backend/compute/manager.py:91 | a job has a numeric size exactly when its size value can be read and is a number |
| Compute.KeyedJobs | backend/compute/manager.py:91 | every job gets its numeric size key, a missing count being 0, exactly when every job has one |
| Compute.OrderedJobsShape | backend/compute/manager.py:91 | the ordered jobs are a permutation of the input; with numeric sizes they ascend, with equal sizes in input order; otherwise the one job is left as it is |
| Compute.OrderedJobsDefined | backend/compute/manager.py:91 | jobs that all have numeric sizes are ordered, and one job whose size can be read is ordered whatever its size |
| Compute.SingleFloatJob | backend/compute/manager.py:86-96 | a single job of size 2.5 gives the order ["a"] |
| Compute.FloatAndIntJobs | backend/compute/manager.py:86-96 | jobs of size 2.5 and 1 are ordered smaller first |
| Compute.OptimizeOrder | backend/compute/manager.py:86-96 | the processing order lists each sorted job's id, one per job, and allocation is "sequential" |
| Session.SessionStore.constructor | backend/main.py:33-38 | the store starts with four empty lists |
| Session.SessionStore.UploadComments | backend/main.py:56-66 | an upload extends the comments and reports their count and ids; nothing else changes (also lines 82-92) |
| Session.UploadedIds | backend/main.py:65 | one id per uploaded comment, in order |
| Session.SessionStore.UploadPolicy | backend/main.py:108-118 | an upload appends the policy and reports its id; nothing else changes |
| Session.SessionStore.AttachCitations | backend/main.py:149-153 | each argument's citations become the ids found for it, and every found citation is appended to the store, duplicates kept |
| Session.CiteAll | backend/main.py:150-153 | the citation loop gives the cited arguments and everything found, in order |
| Session.FoundCitationsAttached | backend/main.py:150-153 | the ids of the appended citations are the ids attached to the arguments, in order |
| Session.SessionStore.Analyze | backend/main.py:122-171 | no comments fails first, then no policy; otherwise arguments are replaced by a fresh extraction (model or heuristic) with citations attached, and the report holds the counts and suggestions |
| Session.ExtractWithFallback | backend/main.py:139-147 | the model's extraction when its extractor can be built, else the heuristic one |
| Session.Report | backend/main.py:133-171 | the report assesses and routes the comment count, counts the arguments and each clause's arguments (adding up to the total), and holds the suggestions |
| Session.ClauseCountsTotal | backend/main.py:169 | the per-clause counts add up to the clause groups' sizes |
| Session.ClauseCountsEntries | backend/main.py:169 | one count per clause, in clause order, each its group's size |
| Session.SessionStore.GetClauseAnalysis | backend/main.py:180-204 | 404 exactly when no argument has the clause; otherwise the theme breakdown, and stance counts whose sum is at most the total |
| Session.ThemeBreakdown | backend/main.py:190-196 | the loop builds the first-seen theme order and each theme's arguments |
| Session.AddThemes | backend/main.py:193-196 | the inner loop adds one argument under each of its themes |
| Session.BreakdownShape | backend/main.py:190-196 | the breakdown's themes are exactly the carried themes, each listing its carriers |
| Session.ClauseBreakdownMembers | backend/main.py:190-196 | a theme is listed exactly when some argument of the clause carries it, and its list holds exactly those arguments |
| Session.ClauseBreakdownOrder | backend/main.py:190-196 | when no argument repeats a theme, each list is the carriers in argument order |
| Session.SessionStore.GetAmendmentSuggestions | backend/main.py:206-215 | 400 exactly when no arguments are stored, else the suggestions for them |
| Ingestion.PolicyClausesShape | backend/ingestion/parser.py:80-91 | clause k comes from the k-th kept line, in increasing line order, with no more clauses than lines |
| Ingestion.KeptLinesShape | backend/ingestion/parser.py:82-83 | the kept line numbers are increasing, in range, and include every kept line |
| Ingestion.ClauseIdsDistinct | backend/ingestion/parser.py:84-85 | no two clauses share an id |
| Ingestion.ClauseIdInjective | backend/ingestion/parser.py:85 | a zero-padded clause id determines its line number |
| Ingestion.ParsePolicyDocument | backend/ingestion/parser.py:70-100 | the document keeps its content verbatim, has the fixed title, and has one clause per kept line |
| Ingestion.IndentedHashKept | backend/ingestion/parser.py:83 | "  # x" is kept, "# x" and a blank line are not |
| Ingestion.CommentOf | backend/ingestion/parser.py:57-64 | a non-dict item and an item without "text" are errors at their position |
| Ingestion.CommentDefaults | backend/ingestion/parser.py:58-63 | missing fields get a fresh id, source and clause "unknown", the current time and an empty metadata dict |
| Ingestion.ParseItemsOk | backend/ingestion/parser.py:55-67 | the parse succeeds exactly when every item converts, giving one comment per item in order |
| Ingestion.ParseItemsFirstError | backend/ingestion/parser.py:56-65 | a failing parse reports the first failing item |
| Ingestion.ParseJsonComments | backend/ingestion/parser.py:48-67 | the loop computes the parse of the items |
| LegalPolicy.CanHandleSourceTypes | backend/plugins/indian_legal_policy/plugin.py:59-67 | case-insensitive membership in its four source types |
| LegalPolicy.ParsePolicyContent | backend/plugins/indian_legal_policy/plugin.py:105-180 | the line loop computes the state machine's sections |
| LegalPolicy.SectionsWellFormed | backend/plugins/indian_legal_policy/plugin.py:121-178 | every section has a heading title, a chapter line if any, and non-empty content of body lines |
| LegalPolicy.RunGood | backend/plugins/indian_legal_policy/plugin.py:121-168 | the parser state stays well-formed line by line |
| LegalPolicy.NoHeadingNoSections | backend/plugins/indian_legal_policy/plugin.py:145-159 | without a numbered heading no section opens and none is emitted (also line 171) |
| LegalPolicy.ContentAfterChapterDropped | backend/plugins/indian_legal_policy/plugin.py:138-142 | content after a chapter line, before any heading, is discarded (also lines 166-168) |
| LegalPolicy.EmptyHeadingVanishes | backend/plugins/indian_legal_policy/plugin.py:147 | a heading followed directly by another heading emits nothing (also lines 157-159) |
| LegalPolicy.SectionsOnlyGrow | backend/plugins/indian_legal_policy/plugin.py:121-168 | the sections emitted after any prefix of the lines are a prefix of those emitted after all of them: later lines never change or remove a saved section |
| LegalPolicy.BodyLinePlain | backend/plugins/indian_legal_policy/plugin.py:162-168 | a body line is non-empty and does not start with '#' |
| LegalPolicy.SectionRecordsShape | backend/plugins/indian_legal_policy/plugin.py:193-206 | one record per section, in order |
| LegalPolicy.FormatPolicySections | backend/plugins/indian_legal_policy/plugin.py:182-208 | the loop computes the records: fixed author and date, subtitle None, type "section" |
| LegalPolicy.RecordTextLines | backend/plugins/indian_legal_policy/plugin.py:195 | a record's text splits back into chapter (or "None"), title, "None" and the content lines |
| LegalPolicy.Ingest | backend/plugins/indian_legal_policy/plugin.py:69-103 | no document gives nothing; otherwise the records of its parsed sections |
| ScrapedData.CanHandleSourceTypes | backend/plugins/scraped_data_ingestor/plugin.py:52-60 | case-insensitive membership in its five source types |
| ScrapedData.FileExtension | backend/plugins/scraped_data_ingestor/plugin.py:73 | the extension has no '.', and a name without '.' is its own lowercased extension |
| ScrapedData.ParseJsonData | backend/plugins/scraped_data_ingestor/plugin.py:107-118 | a list as is; a dict without a list under the known keys as [dict]; anything else as [{'text': str(value)}] |
| ScrapedData.FirstList | backend/plugins/scraped_data_ingestor/plugin.py:112-114 | a list is found exactly when one of the known keys holds a list |
| ScrapedData.FirstListFirst | backend/plugins/scraped_data_ingestor/plugin.py:112-114 | the first known key holding a list wins |
| ScrapedData.NoNewlineOnePiece | backend/plugins/scraped_data_ingestor/plugin.py:132 | text without a newline is one piece |
| ScrapedData.TwoParagraphs | backend/plugins/scraped_data_ingestor/plugin.py:132 | two lines separated by a blank line are two pieces |
| ScrapedData.TextItemsShape | backend/plugins/scraped_data_ingestor/plugin.py:135-143 | item k comes from the k-th non-blank piece, stripped, with that piece's index as id |
| ScrapedData.ParseTextData | backend/plugins/scraped_data_ingestor/plugin.py:120-143 | the loop computes the items of the stripped content's pieces |
| ScrapedData.FirstTruthyFirst | backend/plugins/scraped_data_ingestor/plugin.py:206-210 | the first truthy fallback key gives the field |
| ScrapedData.FirstTruthyNone | backend/plugins/scraped_data_ingestor/plugin.py:206-210 | with no truthy fallback key the default is used |
| ScrapedData.CountShape | backend/plugins/scraped_data_ingestor/plugin.py:220 | a count is taken as int only when its str() is all digits: a non-negative int is kept, while a negative int, a boolean or a string that is not all digits gives 0 (also line 224) |
| ScrapedData.ItemDefaults | backend/plugins/scraped_data_ingestor/plugin.py:206-208 | an item without text, author, time and id gets '', 'unknown', '' and its index (also line 223) |
| ScrapedData.SourceDecidesPlatform | backend/plugins/scraped_data_ingestor/plugin.py:240-246 | a platform marker in the source decides regardless of the item |
| ScrapedData.ScrapedRecordsOk | backend/plugins/scraped_data_ingestor/plugin.py:202-229 | formatting succeeds exactly when every item is a dict, giving one record per item in order |
| ScrapedData.ScrapedRecordsFirstError | backend/plugins/scraped_data_ingestor/plugin.py:204-206 | formatting fails at the first non-dict item |
| ScrapedData.FormatScrapedData | backend/plugins/scraped_data_ingestor/plugin.py:193-229 | the loop computes the records or the first failure |
| ScrapedData.ReadItems | backend/plugins/scraped_data_ingestor/plugin.py:72-81 | the extension chooses the reader; an unsupported one gives no items |
| ScrapedData.Ingest | backend/plugins/scraped_data_ingestor/plugin.py:62-94 | every failure gives no records; otherwise the records of the file's items |
| ScrapedData.JsonListRecords | backend/plugins/scraped_data_ingestor/plugin.py:62-118 | a JSON list of dicts gives one record per dict, in order (also lines 193-229) |
| ScrapedData.JsonListWithNonDict | backend/plugins/scraped_data_ingestor/plugin.py:92-94 | a JSON list with a non-dict gives nothing at all (also lines 204-206) |
| YouTube.CanHandleSourceTypes | backend/plugins/youtube_ingestor/plugin.py:84 | case-insensitive membership in its five source types |
| YouTube.ExtractVideoId | backend/plugins/youtube_ingestor/plugin.py:207-232 | a returned id is non-empty with no '&' or whitespace |
| YouTube.FirstCaptureOrder | backend/plugins/youtube_ingestor/plugin.py:223-226 | an earlier pattern wins over a later one wherever each matches |
| YouTube.FirstCaptureShape | backend/plugins/youtube_ingestor/plugin.py:216-226 | some pattern captures exactly when one matches, and a capture is non-empty id characters |
| YouTube.ExtractVideoIdPattern | backend/plugins/youtube_ingestor/plugin.py:216-226 | the first matching pattern's capture is the id |
| YouTube.ExtractVideoIdBare | backend/plugins/youtube_ingestor/plugin.py:228-232 | with no pattern matching, the input is the id exactly when it is 11 characters of `[A-Za-z0-9_-]` |
| YouTube.NoPatternWithoutY | backend/plugins/youtube_ingestor/plugin.py:216-221 | a string without 'y' matches no pattern |
| YouTube.TrailingNewlineAccepted | backend/plugins/youtube_ingestor/plugin.py:229 | the fallback as written accepts "ABCDEFGHIJ\n" and returns it with the newline; the intended one refuses it |
| YouTube.AsWrittenDiffersOnlyOnNewline | backend/plugins/youtube_ingestor/plugin.py:229 | the two fallbacks differ only on 11-character inputs ending in a newline |
| YouTube.CommentRecordFields | backend/plugins/youtube_ingestor/plugin.py:299-312 | a record takes the comment's fields or defaults ("unknown" author, 0 likes) and fixed platform "youtube" and category "political_debate" |
| YouTube.FormatComments | backend/plugins/youtube_ingestor/plugin.py:288-314 | one record per comment, in order |
| YouTube.MockScrapedData | backend/plugins/youtube_ingestor/plugin.py:135-205 | ten sample comments |
| YouTube.FallbackRecords | backend/plugins/youtube_ingestor/plugin.py:109-125 | the fallback yields the ten samples, in order, each keeping text, author, time and likes, with its index as id and no replies |
| YouTube.SampleRecord | backend/plugins/youtube_ingestor/plugin.py:135-205 | a sample comment's record keeps its fields, counts no replies and takes its index as id |
| YouTube.Ingest | backend/plugins/youtube_ingestor/plugin.py:86-133 | no id gives nothing; a successful API fetch is returned as fetched; otherwise the scraped-data records of the samples |
| LinkedIn.CanHandleSourceTypes | backend/plugins/linkedin_ingestor/plugin.py:80 | case-insensitive membership in its four source types |
| LinkedIn.Initialize | backend/plugins/linkedin_ingestor/plugin.py:30-57 | an empty token never initialises |
| LinkedIn.ExtractPostId | backend/plugins/linkedin_ingestor/plugin.py:113-128 | a post id is all digits |
| LinkedIn.ExtractPostIdShape | backend/plugins/linkedin_ingestor/plugin.py:122-126 | the id is the digit run after the leftmost fixed part that a digit follows |
| LinkedIn.NoPostIdWithoutL | backend/plugins/linkedin_ingestor/plugin.py:122-128 | a URL without 'l' has no post id |
| LinkedIn.CommentRecordFields | backend/plugins/linkedin_ingestor/plugin.py:185-198 | a record takes the comment's fields or defaults, with platform "linkedin" and category "professional_discussion" |
| LinkedIn.FormatComments | backend/plugins/linkedin_ingestor/plugin.py:174-200 | one record per comment, in order |
| LinkedIn.Ingest | backend/plugins/linkedin_ingestor/plugin.py:82-111 | no post id or no token gives nothing; otherwise the formatted fetched comments |
| Instagram.CanHandleSourceTypes | backend/plugins/instagram_ingestor/plugin.py:78 | case-insensitive membership in its three source types, not "default" |
| Instagram.Initialize | backend/plugins/instagram_ingestor/plugin.py:28-55 | an empty token never initialises; otherwise the API's answer decides |
| Instagram.ExtractPostId | backend/plugins/instagram_ingestor/plugin.py:107-128 | a source without '/' is its own id, including ""; an id never contains '/' |
| Instagram.PostUrlId | backend/plugins/instagram_ingestor/plugin.py:121-124 | a URL ending in "/" + id with trailing slashes gives back the id |
| Instagram.OnlySlashesNoId | backend/plugins/instagram_ingestor/plugin.py:121-124 | a source of only slashes has an empty id |
| Instagram.CommentRecordFields | backend/plugins/instagram_ingestor/plugin.py:172-186 | the author comes from "username", replies from the replies dict's count or 0, platform "instagram", no category |
| Instagram.CommentRecordFails | backend/plugins/instagram_ingestor/plugin.py:180 | a dict comment fails exactly when its replies value is present and not a dict |
| Instagram.FormattedCommentsOk | backend/plugins/instagram_ingestor/plugin.py:161-186 | formatting succeeds exactly when every comment formats, one record per comment in order |
| Instagram.FormattedCommentsFirstError | backend/plugins/instagram_ingestor/plugin.py:170-186 | formatting stops at the first comment that does not format |
| Instagram.FormatComments | backend/plugins/instagram_ingestor/plugin.py:161-186 | the loop computes the formatting |
| Instagram.Ingest | backend/plugins/instagram_ingestor/plugin.py:80-105 | an empty id, a failed fetch or a comment that does not format gives nothing; otherwise the formatted comments |
| GovDatabase.CanHandleSourceTypes | backend/plugins/gov_database/plugin.py:64 | case-insensitive membership in its three source types, not "default" |
| GovDatabase.SplitSource | backend/plugins/gov_database/plugin.py:82-87 | no ':' gives ("id", source); otherwise a type without ':' that rejoins with the value to the source |
| GovDatabase.SplitSourceOf | backend/plugins/gov_database/plugin.py:82-87 | "type:value" splits back into its type and value |
| GovDatabase.RequestUrl | backend/plugins/gov_database/plugin.py:97 | a source without ':' is fetched from base/id/source |
| GovDatabase.RequestUrlOf | backend/plugins/gov_database/plugin.py:82-97 | "type:value" is fetched from base/type/value |
| GovDatabase.RecordText | backend/plugins/gov_database/plugin.py:111 | an item's text is "comment" when present even if empty, else "text"; a comment's text is "text" only (also lines 129, 142) |
| GovDatabase.RecordDefaults | backend/plugins/gov_database/plugin.py:112-119 | the fixed defaults: source, author, category, region, platform |
| GovDatabase.RecordsOk | backend/plugins/gov_database/plugin.py:107-121 | mapping succeeds exactly when every item is a dict, one record per item in order |
| GovDatabase.MapItems | backend/plugins/gov_database/plugin.py:107-121 | the loop computes the mapping (also lines 124-138) |
| GovDatabase.ResponseShapes | backend/plugins/gov_database/plugin.py:106-152 | a list of dicts gives one record per element and a list holding a non-dict fails; a dict with a comments list gives one record per comment, failing on a non-dict comment; a dict without comments gives one record; any other value gives none |
| GovDatabase.MapResponse | backend/plugins/gov_database/plugin.py:106-152 | the branches compute the response's records |
| GovDatabase.PlatformIsFixed | backend/plugins/gov_database/plugin.py:118 | every record's platform is "government_database" |
| GovDatabase.Ingest | backend/plugins/gov_database/plugin.py:66-162 | the URL of the split source; a failed request or processing error gives nothing; otherwise the response's records |
| Registry.Get | backend/modules/base.py:144-154 | a lookup finds exactly the registered names, with their modules |
| Registry.GetAfterPut | backend/modules/base.py:132-154 | a registration is seen by the next lookup, overwrites an earlier one, and leaves other names alone |
| Registry.ModuleRegistry.constructor | backend/modules/base.py:126-130 | four empty tables |
| Registry.ModuleRegistry.RegisterIngestor | backend/modules/base.py:132-134 | only the ingestor table changes, and the name now finds the module |
| Registry.ModuleRegistry.RegisterProcessor | backend/modules/base.py:136-138 | only the processor table changes, and the name now finds the module |
| Registry.ModuleRegistry.RegisterExporter | backend/modules/base.py:140-142 | only the exporter table changes, and the name now finds the module |
| Registry.ModuleRegistry.GetIngestor | backend/modules/base.py:144-146 | the registered ingestor, or none |
| Registry.ModuleRegistry.GetProcessor | backend/modules/base.py:148-150 | the registered processor, or none |
| Registry.ModuleRegistry.GetExporter | backend/modules/base.py:152-154 | the registered exporter, or none |
| Registry.ModuleRegistry.GetAllIngestors | backend/modules/base.py:156-158 | a copy equal to the table |
| Registry.ModuleRegistry.GetAllProcessors | backend/modules/base.py:160-162 | a copy equal to the table |
| Registry.ModuleRegistry.GetAllExporters | backend/modules/base.py:164-166 | a copy equal to the table |
| Plugins.PluginName | backend/plugins/__init__.py:50-53 | an entry is a plugin exactly when it does not start with "__" and is a directory or a ".py" file; a file loses ".py" |
| Plugins.PluginNameExamples | backend/plugins/__init__.py:50-53 | "__init__.py", "__pycache__" and "README.md" are not plugins; "helpers.py" is "helpers"; a directory "notes.py" keeps its name |
| Plugins.DiscoveredNamesMembers | backend/plugins/__init__.py:47-54 | a name is discovered exactly when some listing entry gives it |
| Plugins.DiscoverPlugins | backend/plugins/__init__.py:37-54 | the listing's plugin names in listing order, none without a directory |
| Plugins.RegistrationKind | backend/plugins/__init__.py:92-100 | ingestor when it can handle, else processor when it can process, else exporter when it can export, else nothing |
| Plugins.LoadedOf | backend/plugins/__init__.py:122-130 | the loaded names are exactly the discovered names whose class exists and initialises |
| Plugins.OfKind | backend/plugins/__init__.py:92-100 | the loaded plugins that register under a kind |
| Plugins.PluginManager.constructor | backend/plugins/__init__.py:34-35 | no plugins loaded and a fresh, empty registry |
| Plugins.PluginManager.LoadPlugin | backend/plugins/__init__.py:56-114 | a plugin is kept and registered by its capabilities only when it initialises; a failure changes nothing |
| Plugins.PluginManager.LoadAllPlugins | backend/plugins/__init__.py:116-130 | returns exactly the discovered plugins that loaded, adds them to the loaded ones, and registers each under its kind |
| Plugins.PluginManager.RegisterPluginModule | backend/plugins/__init__.py:132-149 | registers under the named type's table only, and an unknown type registers nothing |
| Plugins.CreatePluginTemplate | backend/plugins/__init__.py:163-283 | a template exactly for ingestor, processor and exporter; otherwise the unknown-type comment |
| Plugins.AnalyzerHasNoTemplate | backend/plugins/__init__.py:163-283 | "analyzer" gets the unknown-type comment |
| Plugins.GetAvailablePlugins | backend/plugins/__init__.py:286-291 | every discovered name, and only those, maps to "Available" |
| Patterns.Capture | backend/plugins/linkedin_ingestor/plugin.py:122-126 | a capture exists exactly when the pattern matches somewhere, and it is a non-empty run of the captured class |

## Left out

- File, directory and network I/O are parameters of the model:
  - reading uploaded or local files, and temporary files (the YouTube fallback's round trip through a temporary JSON file is a plain function call);
  - `os.listdir`/`os.path.exists`;
  - the HTTP routing of the API;
  - the YouTube, LinkedIn, Instagram and government-database requests, with their pagination loops and token validation calls;
  - the language-model client.
  Their outcomes are given to the model.
- Library parsers are not modelled:
  - `json.loads`: decoded values are given;
  - `pandas` in `parse_csv_comments` (backend/ingestion/parser.py:20-45), which has no model;
  - `csv.Sniffer`/`DictReader` and the row conversion in `_parse_csv_data` (backend/plugins/scraped_data_ingestor/plugin.py:145-177): the items it builds from the rows are given;
  - date parsing.
- `psutil` is not modelled; the memory load is a parameter, and CPU load is not used.
- uuid ids and `datetime.now()` are parameters with no value assumed.
- `str.title()` and the wording of the plugin templates are not modelled; a template records only its kind and plugin name.
- The prompt text sent to the language model is not modelled.
- Python's regular-expression engine is not modelled in general. Only the patterns the core uses are written out by hand, over ASCII. Unicode `\s`, `\w`, `isdigit` and case mapping of non-ASCII letters are not modelled.
- Floating point is not modelled: confidences, weights, means and the memory load are `real`.
- Dynamic import and reflection in `load_plugin` are not modelled. A loaded plugin is a value holding its capabilities and its initialize result, and `classes` gives the class each name would import.
- `get_loaded_plugins` (backend/plugins/__init__.py:293-297) is not modelled: it reports reflected class names.
- The government-database `initialize` always succeeds and has no member.
- The root, health and argument-listing endpoints return constants or the stored list, and have no member.
- Logging is not modelled.
- YouTube.Ingest: the fetched API comments are returned as fetched, as the source does. `_format_comments` is modelled on its own and not called by ingest.
- YouTube.Ingest: ingest uses the corrected id check of the finding below, so "ABCDEFGHIJ\n" gives no video where the source goes on to fetch with that id.
- Gemini.BuildArgument: of the coercions the Argument record makes in lax mode, only int, bool and plain decimal strings to float are modelled. Strings with exponents, underscores, surrounding whitespace, "inf" or "nan" are refused, and so are non-str items (ints, floats, bools) inside the themes or citations lists, which some pydantic versions turn into strings.
- Compute.OptimizeResources: with two or more jobs, a size that is not a number gives `None`. Python raises only when it compares that size with a number or `None`; sizes that are all strings, or all lists, would sort, and that is not modelled.
- PyValue.Repr: a string is always shown in single quotes. Python's switch to double quotes and its escapes are not modelled.
- ScrapedData.DetectPlatform: the platform of the YouTube fallback's records depends on the temporary file name and the samples' `repr()`; no lemma fixes it.
- LinkedIn.Initialize: when the token is not empty, the outcome is the API's answer, which the contract does not constrain further.
- Amendment.GenerateObjectionResponse: the suggestion id (a uuid) is not part of the suggestion.

## Findings

| source | as written | input that shows it | evidently intended | confidence | as-written member | corrected member |
|---|---|---|---|---|---|---|
| backend/plugins/youtube_ingestor/plugin.py:229 | a source of length 11 is taken as a bare id when the pattern `^[a-zA-Z0-9_-]+$` matches it, and `$` also matches just before a final newline | "ABCDEFGHIJ\n" is returned as a video id, newline included | only 11 characters of `[A-Za-z0-9_-]` are a bare id | not executed | YouTube.TrailingNewlineAccepted | YouTube.ExtractVideoId |
