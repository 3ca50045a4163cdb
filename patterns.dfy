/** The regular-expression searches the URL extractors use, of the shape
    `(?:https?://)?(?:www\.)?<fixed>(<class>+)` under `re.search`: the first
    group is the longest run of class characters right after the leftmost
    occurrence of the fixed part that is followed by at least one of them.
    The optional `https://` and `www.` in front never change the capture
    when the fixed part starts with a letter neither of them contains (a
    match that starts on a prefix has its fixed part right after the
    prefix), which holds for every fixed part used here. */
module Patterns {
  import opened Wrappers
  import opened Text

  /** The capture classes: `[^&\n\r\s]` and `\d` (ASCII). */
  datatype CharClass = NotAmpOrSpace | Digit

  predicate InClass(c: char, cls: CharClass) {
    match cls
    case NotAmpOrSpace => c != '&' && !IsSpace(c)
    case Digit => IsDigit(c)
  }

  /** The end of the run of class characters that starts at `i`. */
  function RunEnd(s: string, i: nat, cls: CharClass): (e: nat)
    requires i <= |s|
    ensures i <= e <= |s|
    ensures forall k :: i <= k < e ==> InClass(s[k], cls)
    ensures e == |s| || !InClass(s[e], cls)
    decreases |s| - i
  {
    if i == |s| || !InClass(s[i], cls) then i else RunEnd(s, i + 1, cls)
  }

  /** The pattern can match at `q`: the fixed part occurs there and at
      least one class character follows it. */
  predicate MatchAt(s: string, q: nat, core: string, cls: CharClass) {
    q + |core| < |s| && s[q..q + |core|] == core && InClass(s[q + |core|], cls)
  }

  /** The leftmost match position from `q` on. */
  function MatchFrom(s: string, core: string, cls: CharClass, q: nat): (r: Option<nat>)
    requires q <= |s|
    ensures r.Some? ==> q <= r.value && MatchAt(s, r.value, core, cls)
    ensures r.Some? ==> forall p :: q <= p < r.value ==> !MatchAt(s, p, core, cls)
    ensures r.None? ==> forall p :: q <= p ==> !MatchAt(s, p, core, cls)
    decreases |s| - q
  {
    if q == |s| then None
    else if MatchAt(s, q, core, cls) then Some(q)
    else MatchFrom(s, core, cls, q + 1)
  }

  /** `re.search(pattern, s).group(1)`, `None` when nothing matches. */
  function Capture(s: string, core: string, cls: CharClass): (r: Option<string>)
    ensures r.Some? <==> exists q :: MatchAt(s, q, core, cls)
    ensures r.Some? ==> r.value != [] && forall c :: c in r.value ==> InClass(c, cls)
  {
    match MatchFrom(s, core, cls, 0)
    case None => None
    case Some(q) =>
      var start := q + |core|;
      var run := s[start..RunEnd(s, start, cls)];
      assert forall c :: c in run ==> InClass(c, cls) by {
        forall c | c in run ensures InClass(c, cls) {
          var k :| 0 <= k < |run| && run[k] == c;
          assert run[k] == s[start + k];
        }
      }
      Some(run)
  }

  /** The capture is the whole run after the leftmost match, whatever
      comes after it. */
  lemma CaptureAt(s: string, core: string, cls: CharClass, q: nat)
    requires MatchAt(s, q, core, cls)
    requires forall p :: 0 <= p < q ==> !MatchAt(s, p, core, cls)
    ensures Capture(s, core, cls) == Some(s[q + |core|..RunEnd(s, q + |core|, cls)])
  {
    var r := MatchFrom(s, core, cls, 0);
    assert r.Some?;
    assert !(r.value < q);
    assert !(q < r.value);
  }

  /** A string without the first letter of the fixed part has no match. */
  lemma NoMatchWithoutFirstLetter(s: string, core: string, cls: CharClass)
    requires core != [] && core[0] !in s
    ensures Capture(s, core, cls).None?
  {
    forall q: nat
      ensures !MatchAt(s, q, core, cls)
    {
      if q + |core| < |s| {
        assert s[q] in s;
        assert s[q..q + |core|][0] == s[q];
      }
    }
  }
}
