/** The citation oracle: a fixed table of three citations, a relevance test
    by shared lower-case whitespace tokens, and a check that an id is in the
    table. */
module CitationOracle {
  import opened Wrappers
  import opened Text
  import opened Sequences
  import opened Models

  const SampleCitations: seq<Citation> := [
    Citation("cit_001", "Puttaswamy Judgment on Privacy Rights", "Supreme Court of India", Legal,
             Some("https://example.com/puttaswamy-judgment"),
             "Landmark judgment establishing privacy as a fundamental right under the Indian Constitution.",
             0.98),
    Citation("cit_002", "General Data Protection Regulation (GDPR)", "European Union", Legal,
             Some("https://example.com/gdpr"),
             "Regulation on data protection and privacy in the European Union.",
             0.95),
    Citation("cit_003", "Economic Impact of Data Privacy Laws", "Journal of Digital Economics", Academic,
             Some("https://example.com/economic-impact"),
             "Study on the economic effects of implementing strict data privacy regulations.",
             0.85)
  ]

  const SampleCitationIds: set<string> := {"cit_001", "cit_002", "cit_003"}

  /** set(text.lower().split()): whitespace-separated tokens, punctuation
      kept attached. */
  function Tokens(text: string): set<string> {
    set w | w in Words(Lower(text))
  }

  /** The text a citation is matched against: its title and summary. */
  function CitationText(citation: Citation): string {
    citation.title + " " + citation.summary
  }

  /** The tokens an argument text and a citation share. */
  function SharedTokens(text: string, citation: Citation): set<string> {
    Tokens(text) * Tokens(CitationText(citation))
  }

  /** A citation is relevant when more than two tokens are shared. */
  predicate Relevant(text: string, citation: Citation) {
    |SharedTokens(text, citation)| > 2
  }

  /** The relevant citations of a table, in table order. */
  function RelevantCitations(table: seq<Citation>, text: string): (r: seq<Citation>)
    ensures |r| <= |table|
  {
    if table == [] then []
    else (if Relevant(text, table[0]) then [table[0]] else []) + RelevantCitations(table[1..], text)
  }

  /** The relevant citations are exactly the table's relevant entries, kept
      in table order. */
  lemma {:induction false} RelevantCitationsShape(table: seq<Citation>, text: string)
    ensures IsSubsequence(RelevantCitations(table, text), table)
    ensures forall c :: c in RelevantCitations(table, text) <==> c in table && Relevant(text, c)
  {
    if table != [] {
      RelevantCitationsShape(table[1..], text);
      var r := RelevantCitations(table, text);
      assert table == [table[0]] + table[1..];
      if Relevant(text, table[0]) {
        assert r[0] == table[0] && r[1..] == RelevantCitations(table[1..], text);
      } else {
        assert r == RelevantCitations(table[1..], text);
      }
    }
  }

  lemma RelevantCitationsStep(table: seq<Citation>, i: nat, text: string)
    requires i < |table|
    ensures RelevantCitations(table[i..], text) ==
            (if Relevant(text, table[i]) then [table[i]] else []) + RelevantCitations(table[i + 1..], text)
  {
    assert table[i..][1..] == table[i + 1..];
  }

  /** One turn of the filter loop keeps its invariant. */
  lemma FilterNext(table: seq<Citation>, text: string, i: nat, keep: bool, prev: seq<Citation>, found: seq<Citation>)
    requires i < |table| && keep == Relevant(text, table[i])
    requires prev + RelevantCitations(table[i..], text) == RelevantCitations(table, text)
    requires found == prev + (if keep then [table[i]] else [])
    ensures found + RelevantCitations(table[i + 1..], text) == RelevantCitations(table, text)
  {
    RelevantCitationsStep(table, i, text);
    ConcatStep(prev, if keep then [table[i]] else [], RelevantCitations(table[i + 1..], text),
               RelevantCitations(table[i..], text), RelevantCitations(table, text));
  }

  /** The loop of find_citations over a table: each relevant citation is
      appended in turn. */
  method FilterRelevant(table: seq<Citation>, text: string) returns (found: seq<Citation>)
    ensures found == RelevantCitations(table, text)
  {
    found := [];
    var i := 0;
    while i < |table|
      invariant 0 <= i <= |table|
      invariant found + RelevantCitations(table[i..], text) == RelevantCitations(table, text)
    {
      ghost var prev := found;
      var keep := Relevant(text, table[i]);
      if keep {
        found := found + [table[i]];
      }
      FilterNext(table, text, i, keep, prev, found);
      i := i + 1;
    }
    assert table[i..] == [];
    assert found + [] == found;
  }

  /** find_citations: the relevant sample citations for an argument. */
  method FindCitations(argument: Argument) returns (found: seq<Citation>)
    ensures found == RelevantCitations(SampleCitations, argument.text)
  {
    found := FilterRelevant(SampleCitations, argument.text);
  }

  /** The sample ids are pairwise different. */
  lemma SampleCitationsDistinct()
    ensures Distinct(SampleCitations)
  {
    assert forall i :: 0 <= i < |SampleCitations| ==> SampleCitations[i].id == ["cit_001", "cit_002", "cit_003"][i];
  }

  /** What find_citations returns: at most three citations, each from the
      table and relevant, none twice, in table order. */
  lemma FoundCitationsShape(text: string)
    ensures var found := RelevantCitations(SampleCitations, text);
            && |found| <= 3
            && Distinct(found)
            && IsSubsequence(found, SampleCitations)
            && forall c :: c in found <==> c in SampleCitations && Relevant(text, c)
  {
    RelevantCitationsShape(SampleCitations, text);
    SampleCitationsDistinct();
    SubsequenceOfDistinct(RelevantCitations(SampleCitations, text), SampleCitations);
  }

  /** An argument text with at most two distinct tokens (for instance one
      word repeated) never finds a citation. */
  lemma FewTokensFindNothing(text: string, citation: Citation)
    requires |Tokens(text)| <= 2
    ensures !Relevant(text, citation)
  {
    SubsetCardinality(SharedTokens(text, citation), Tokens(text));
  }

  /** Blank text has no tokens, so it finds nothing. */
  lemma BlankTextFindsNothing(text: string, table: seq<Citation>)
    requires forall c :: c in text ==> IsSpace(c)
    ensures Tokens(text) == {}
    ensures RelevantCitations(table, text) == []
  {
    assert forall c :: c in Lower(text) ==> IsSpace(c);
    WordsShape(Lower(text));
    RelevantCitationsShape(table, text);
    forall c | c in table
      ensures !Relevant(text, c)
    {
      FewTokensFindNothing(text, c);
    }
  }

  /** validate_citation: whether some table entry has the id. */
  function ValidateCitation(citationId: string): (valid: bool)
    ensures valid <==> citationId in SampleCitationIds
  {
    var table := SampleCitations;
    assert table[0].id == "cit_001" && table[1].id == "cit_002" && table[2].id == "cit_003";
    exists i :: 0 <= i < |table| && table[i].id == citationId
  }

  /** Every citation the oracle finds validates. */
  lemma FoundCitationsValidate(text: string)
    ensures forall c :: c in RelevantCitations(SampleCitations, text) ==> ValidateCitation(c.id)
  {
    RelevantCitationsShape(SampleCitations, text);
    forall c | c in RelevantCitations(SampleCitations, text)
      ensures ValidateCitation(c.id)
    {
      var i :| 0 <= i < |SampleCitations| && SampleCitations[i] == c;
    }
  }
}
