/** String helpers with the semantics of the Python str methods the
    repository uses, restricted to ASCII character classes. */
module Text {

  // ---------------------------------------------------------------------
  // Character classes
  // ---------------------------------------------------------------------

  /** str.isspace on ASCII: space, \t \n \v \f \r and the separators 0x1c-0x1f.
      This is also what the regular-expression class \s matches. */
  predicate IsSpace(c: char) {
    c == ' ' || ('\t' <= c <= '\r') || ('\U{1C}' <= c <= '\U{1F}')
  }

  /** The characters a strip removes: whitespace (no argument) or every
      character of the argument string. */
  datatype Chars = Whitespace | Only(chars: string)

  predicate In(c: char, cs: Chars) {
    match cs
    case Whitespace => IsSpace(c)
    case Only(chars) => c in chars
  }

  predicate IsUpper(c: char) {
    'A' <= c <= 'Z'
  }

  predicate IsDigit(c: char) {
    '0' <= c <= '9'
  }

  /** The regular-expression class \w on ASCII: letters, digits and '_'. */
  predicate IsWordChar(c: char) {
    ('a' <= c <= 'z') || IsUpper(c) || IsDigit(c) || c == '_'
  }

  function LowerChar(c: char): (r: char)
    ensures !IsUpper(r)
    ensures IsSpace(r) <==> IsSpace(c)
    ensures IsWordChar(r) <==> IsWordChar(c)
  {
    if IsUpper(c) then (c as int + 32) as char else c
  }

  /** str.lower() on ASCII letters. */
  function Lower(s: string): (r: string)
    ensures |r| == |s|
    ensures forall i :: 0 <= i < |s| ==> r[i] == LowerChar(s[i])
  {
    seq(|s|, i requires 0 <= i < |s| => LowerChar(s[i]))
  }

  lemma LowerHasNoUpper(s: string)
    ensures forall c :: c in Lower(s) ==> !IsUpper(c)
  {
  }

  lemma LowerOfLowerCase(s: string)
    requires forall c :: c in s ==> !IsUpper(c)
    ensures Lower(s) == s
  {
  }

  /** Lower-casing twice is lower-casing once. */
  lemma LowerIdempotent(s: string)
    ensures Lower(Lower(s)) == Lower(s)
  {
    LowerHasNoUpper(s);
    LowerOfLowerCase(Lower(s));
  }

  // ---------------------------------------------------------------------
  // Prefixes, suffixes, substrings
  // ---------------------------------------------------------------------

  predicate StartsWith(s: string, prefix: string) {
    |prefix| <= |s| && s[..|prefix|] == prefix
  }

  predicate EndsWith(s: string, suffix: string) {
    |suffix| <= |s| && s[|s| - |suffix|..] == suffix
  }

  /** Python's `pat in s`. */
  predicate Contains(s: string, pat: string)
    decreases |s|
  {
    StartsWith(s, pat) || (s != [] && Contains(s[1..], pat))
  }

  /** An occurrence at a known position makes `pat in s` true. */
  lemma {:induction false} ContainsAt(s: string, pat: string, i: nat)
    requires i + |pat| <= |s| && s[i..i + |pat|] == pat
    ensures Contains(s, pat)
    decreases i
  {
    if i > 0 {
      assert s[1..][i - 1..i - 1 + |pat|] == s[i..i + |pat|];
      ContainsAt(s[1..], pat, i - 1);
    }
  }

  /** `pat in s` means there is an occurrence at some position. */
  lemma {:induction false} ContainsWitness(s: string, pat: string) returns (i: nat)
    requires Contains(s, pat)
    ensures i + |pat| <= |s| && s[i..i + |pat|] == pat
    decreases |s|
  {
    if StartsWith(s, pat) {
      i := 0;
    } else {
      var j := ContainsWitness(s[1..], pat);
      assert s[1..][j..j + |pat|] == s[j + 1..j + 1 + |pat|];
      i := j + 1;
    }
  }

  /** Every character of a substring occurs in the string. */
  lemma ContainsChars(s: string, pat: string)
    requires Contains(s, pat)
    ensures forall c :: c in pat ==> c in s
  {
    var i := ContainsWitness(s, pat);
    forall c | c in pat
      ensures c in s
    {
      var j :| 0 <= j < |pat| && pat[j] == c;
      assert s[i..i + |pat|][j] == s[i + j];
    }
  }

  /** A substring of a prefix is a substring of the whole. */
  lemma ContainsInPrefix(s: string, n: nat, pat: string)
    requires n <= |s| && Contains(s[..n], pat)
    ensures Contains(s, pat)
  {
    var i := ContainsWitness(s[..n], pat);
    assert s[..n][i..i + |pat|] == s[i..i + |pat|];
    ContainsAt(s, pat, i);
  }

  // ---------------------------------------------------------------------
  // Stripping
  // ---------------------------------------------------------------------

  /** Removes the leading characters that belong to `chars`. */
  function TrimStart(s: string, chars: Chars): (r: string)
    ensures |r| <= |s|
    ensures r == [] || !In(r[0], chars)
    decreases |s|
  {
    if s != [] && In(s[0], chars) then TrimStart(s[1..], chars) else s
  }

  /** TrimStart removes a prefix, and every character of that prefix is one
      it strips. */
  lemma {:induction false} TrimStartShape(s: string, chars: Chars)
    ensures var r := TrimStart(s, chars);
            r == s[|s| - |r|..] && forall i :: 0 <= i < |s| - |r| ==> In(s[i], chars)
    decreases |s|
  {
    if s != [] && In(s[0], chars) {
      TrimStartShape(s[1..], chars);
    }
  }

  /** Removes the trailing characters that belong to `chars`. */
  function TrimEnd(s: string, chars: Chars): (r: string)
    ensures |r| <= |s|
    ensures r == [] || !In(r[|r| - 1], chars)
    decreases |s|
  {
    if s != [] && In(s[|s| - 1], chars) then TrimEnd(s[..|s| - 1], chars) else s
  }

  /** TrimEnd removes a suffix, and every character of that suffix is one it
      strips. */
  lemma {:induction false} TrimEndShape(s: string, chars: Chars)
    ensures var r := TrimEnd(s, chars);
            r == s[..|r|] && forall i :: |r| <= i < |s| ==> In(s[i], chars)
    decreases |s|
  {
    if s != [] && In(s[|s| - 1], chars) {
      TrimEndShape(s[..|s| - 1], chars);
    }
  }

  /** str.strip(chars): both ends. */
  function StripBy(s: string, chars: Chars): (r: string)
    ensures r == [] || (!In(r[0], chars) && !In(r[|r| - 1], chars))
    ensures |r| <= |s|
  {
    TrimEndShape(TrimStart(s, chars), chars);
    TrimEnd(TrimStart(s, chars), chars)
  }

  /** What stripping keeps comes from the input, and it is empty exactly when
      every character is stripped. */
  lemma StripByShape(s: string, chars: Chars)
    ensures forall c :: c in StripBy(s, chars) ==> c in s
    ensures (forall c :: c in s ==> In(c, chars)) <==> StripBy(s, chars) == []
  {
    var t := TrimStart(s, chars);
    var r := TrimEnd(t, chars);
    TrimStartShape(s, chars);
    TrimEndShape(t, chars);
    assert forall c :: c in r ==> c in t;
    if r == [] {
      assert t == [];
    }
  }

  /** str.strip() with no argument: surrounding whitespace. */
  function Strip(s: string): (r: string)
    ensures r == [] || (!IsSpace(r[0]) && !IsSpace(r[|r| - 1]))
  {
    StripBy(s, Whitespace)
  }

  /** Strip keeps only characters of its input, and leaves nothing exactly
      when the input is all whitespace. */
  lemma StripShape(s: string)
    ensures forall c :: c in Strip(s) ==> c in s
    ensures (forall c :: c in s ==> IsSpace(c)) <==> Strip(s) == []
  {
    StripByShape(s, Whitespace);
  }

  /** Strip leaves a string without surrounding whitespace unchanged. */
  lemma StripUnchanged(s: string)
    requires s == [] || (!IsSpace(s[0]) && !IsSpace(s[|s| - 1]))
    ensures Strip(s) == s
  {
  }

  // ---------------------------------------------------------------------
  // Splitting and joining
  // ---------------------------------------------------------------------

  function FirstIndex(s: string, c: char): (i: nat)
    requires c in s
    ensures i < |s| && s[i] == c && c !in s[..i]
  {
    if s[0] == c then 0 else 1 + FirstIndex(s[1..], c)
  }

  /** parts[0] + sep + parts[1] + ... */
  function Join(parts: seq<string>, sep: string): string {
    if parts == [] then ""
    else if |parts| == 1 then parts[0]
    else parts[0] + sep + Join(parts[1..], sep)
  }

  /** str.split(sep) for a one-character separator. */
  function Split(s: string, sep: char): (parts: seq<string>)
    ensures |parts| >= 1
    ensures forall k :: 0 <= k < |parts| ==> sep !in parts[k]
    decreases |s|
  {
    if sep !in s then [s]
    else
      var i := FirstIndex(s, sep);
      [s[..i]] + Split(s[i + 1..], sep)
  }

  /** One step of Split: the text before the first separator, then the
      split of the rest. */
  lemma SplitUnfold(s: string, sep: char)
    requires sep in s
    ensures var i := FirstIndex(s, sep);
      Split(s, sep) == [s[..i]] + Split(s[i + 1..], sep)
  {
  }

  /** One step of Join. */
  lemma JoinCons(head: string, rest: seq<string>, sep: string)
    requires rest != []
    ensures Join([head] + rest, sep) == head + sep + Join(rest, sep)
  {
    assert ([head] + rest)[1..] == rest;
  }

  /** Joining the parts with the separator gives back the text. */
  lemma {:induction false} JoinOfSplit(s: string, sep: char)
    ensures Join(Split(s, sep), [sep]) == s
    decreases |s|
  {
    if sep in s {
      var i := FirstIndex(s, sep);
      SplitUnfold(s, sep);
      JoinOfSplit(s[i + 1..], sep);
      JoinCons(s[..i], Split(s[i + 1..], sep), [sep]);
    }
  }

  /** Splitting at the first separator: a separator-free head is split off. */
  lemma SplitAfter(head: string, sep: char, rest: string)
    requires sep !in head
    ensures Split(head + [sep] + rest, sep) == [head] + Split(rest, sep)
  {
    var s := head + [sep] + rest;
    assert s[|head|] == sep;
    assert s[..|head|] == head && s[|head| + 1..] == rest;
    assert forall k :: 0 <= k < |head| ==> s[k] == head[k];
    var i := FirstIndex(s, sep);
    assert i <= |head| by {
      assert forall k :: |head| < k ==> k < |s| ==> s[..k][|head|] == sep;
    }
  }

  /** `last` is a suffix of `s` that is the whole of `s` or comes right
      after a separator. */
  predicate EndsSegment(s: string, sep: char, last: string) {
    |last| <= |s| && last == s[|s| - |last|..] && (|last| == |s| || s[|s| - |last| - 1] == sep)
  }

  /** The last part is what follows the last separator. */
  lemma SplitLast(s: string, sep: char)
    ensures var parts := Split(s, sep); EndsSegment(s, sep, parts[|parts| - 1])
  {
    var parts := Split(s, sep);
    var last := parts[|parts| - 1];
    JoinOfSplit(s, sep);
    if |parts| == 1 {
      assert s == last;
    } else {
      var init := parts[..|parts| - 1];
      assert init + [last] == parts;
      JoinSnoc(init, last, [sep]);
      EndsAfter(Join(init, [sep]), sep, last);
    }
  }

  /** Joining one more part appends the separator and the part. */
  lemma {:induction false} JoinSnoc(init: seq<string>, x: string, sep: string)
    requires init != []
    ensures Join(init + [x], sep) == Join(init, sep) + sep + x
    decreases |init|
  {
    if |init| == 1 {
      assert (init + [x])[1..] == [x];
    } else {
      JoinSnoc(init[1..], x, sep);
      assert (init + [x])[1..] == init[1..] + [x];
    }
  }

  /** The text after the last added separator ends the whole text. */
  lemma EndsAfter(a: string, sep: char, last: string)
    ensures EndsSegment(a + [sep] + last, sep, last)
  {
    var s := a + [sep] + last;
    assert s[|s| - |last|..] == last;
    assert s[|s| - |last| - 1] == sep;
  }

  /** The last part of a split: the text after the last separator. */
  function LastPart(s: string, sep: char): (r: string)
    ensures sep !in r
    ensures |r| <= |s| && r == s[|s| - |r|..] && (|r| == |s| || s[|s| - |r| - 1] == sep)
  {
    SplitLast(s, sep);
    LastPartFree(s, sep);
    Split(s, sep)[|Split(s, sep)| - 1]
  }

  /** The last part of a split holds no separator. */
  lemma LastPartFree(s: string, sep: char)
    ensures var parts := Split(s, sep); sep !in parts[|parts| - 1]
  {
    var parts := Split(s, sep);
    assert parts[|parts| - 1] in parts;
  }

  /** Split undoes Join when no part holds the separator. */
  lemma {:induction false} SplitJoin(parts: seq<string>, sep: char)
    requires parts != []
    requires forall p :: p in parts ==> sep !in p
    ensures Split(Join(parts, [sep]), sep) == parts
  {
    if |parts| == 1 {
      assert Join(parts, [sep]) == parts[0];
    } else {
      SplitJoin(parts[1..], sep);
      assert parts[0] in parts;
      SplitAfter(parts[0], sep, Join(parts[1..], [sep]));
      assert [parts[0]] + parts[1..] == parts;
    }
  }

  /** The position where the first word of `s` ends (a space or the end). */
  function WordEnd(s: string): (n: nat)
    ensures n <= |s|
    ensures forall i :: 0 <= i < n ==> !IsSpace(s[i])
    ensures n == |s| || IsSpace(s[n])
  {
    if s == [] || IsSpace(s[0]) then 0 else 1 + WordEnd(s[1..])
  }

  /** str.split() with no argument: the maximal runs of non-whitespace. */
  function Words(s: string): (ws: seq<string>)
    decreases |s|
  {
    TrimStartShape(s, Whitespace);
    var t := TrimStart(s, Whitespace);
    if t == [] then []
    else
      var n := WordEnd(t);
      [t[..n]] + Words(t[n..])
  }

  /** The words are non-empty and free of whitespace, and a blank string
      has none. */
  lemma {:induction false} WordsShape(s: string)
    ensures forall w :: w in Words(s) ==> w != [] && forall c :: c in w ==> !IsSpace(c)
    ensures (forall c :: c in s ==> IsSpace(c)) ==> Words(s) == []
    decreases |s|
  {
    TrimStartShape(s, Whitespace);
    var t := TrimStart(s, Whitespace);
    if t != [] {
      var n := WordEnd(t);
      WordsShape(t[n..]);
      assert t[0] in s;
    }
  }

  // ---------------------------------------------------------------------
  // Decimal numerals
  // ---------------------------------------------------------------------

  function DigitChar(d: nat): (c: char)
    requires d < 10
    ensures IsDigit(c)
  {
    ('0' as int + d) as char
  }

  function DigitValue(c: char): (d: nat)
    requires IsDigit(c)
    ensures d < 10 && DigitChar(d) == c
  {
    c as int - '0' as int
  }

  predicate AllDigits(s: string) {
    forall c :: c in s ==> IsDigit(c)
  }

  /** str.isdigit() on ASCII: non-empty and all digits. */
  predicate IsDigits(s: string) {
    s != [] && AllDigits(s)
  }

  /** str(n) for a natural number. */
  function NatToString(n: nat): (r: string)
    ensures IsDigits(r)
    decreases n
  {
    if n < 10 then [DigitChar(n)] else NatToString(n / 10) + [DigitChar(n % 10)]
  }

  /** str(i) for any integer. */
  function IntToString(i: int): string {
    if i < 0 then "-" + NatToString(-i) else NatToString(i)
  }

  /** int(s) for a string of digits. */
  function DigitsValue(s: string): nat
    requires AllDigits(s)
  {
    if s == [] then 0 else DigitsValue(s[..|s| - 1]) * 10 + DigitValue(s[|s| - 1])
  }

  /** Reading back a numeral gives the number. */
  lemma {:induction false} DigitsValueOfNatToString(n: nat)
    ensures DigitsValue(NatToString(n)) == n
    decreases n
  {
    var r := NatToString(n);
    if n >= 10 {
      DigitsValueOfNatToString(n / 10);
      assert r[..|r| - 1] == NatToString(n / 10);
    }
  }

  /** Distinct numbers have distinct numerals. */
  lemma NatToStringInjective(m: nat, n: nat)
    requires NatToString(m) == NatToString(n)
    ensures m == n
  {
    DigitsValueOfNatToString(m);
    DigitsValueOfNatToString(n);
  }

  function Zeros(k: nat): (r: string)
    ensures |r| == k && forall c :: c in r ==> c == '0'
  {
    if k == 0 then "" else "0" + Zeros(k - 1)
  }

  /** Leading zeros do not change the value of a numeral. */
  lemma {:induction false} DigitsValueLeadingZeros(k: nat, s: string)
    requires AllDigits(s)
    ensures DigitsValue(Zeros(k) + s) == DigitsValue(s)
    decreases |s|
  {
    if s == [] {
      ZerosValue(k);
      assert Zeros(k) + s == Zeros(k);
    } else {
      var z := Zeros(k) + s;
      assert z[..|z| - 1] == Zeros(k) + s[..|s| - 1];
      DigitsValueLeadingZeros(k, s[..|s| - 1]);
    }
  }

  lemma {:induction false} ZerosValue(k: nat)
    ensures DigitsValue(Zeros(k)) == 0
  {
    if k > 0 {
      var z := Zeros(k);
      assert z[..k - 1] == Zeros(k - 1) by {
        assert z == Zeros(k - 1) + "0" by { ZerosSnoc(k - 1); }
      }
      ZerosValue(k - 1);
    }
  }

  lemma {:induction false} ZerosSnoc(k: nat)
    ensures Zeros(k + 1) == Zeros(k) + "0"
  {
    if k > 0 {
      ZerosSnoc(k - 1);
      assert Zeros(k + 1) == "0" + (Zeros(k - 1) + "0");
    }
  }

  /** f"{n:0<width>d}": the numeral of n padded with zeros to `width` digits. */
  function ZeroPadded(n: nat, width: nat): (r: string)
    ensures AllDigits(r) && DigitsValue(r) == n
    ensures |r| >= width
  {
    var s := NatToString(n);
    DigitsValueOfNatToString(n);
    DigitsValueLeadingZeros(if |s| >= width then 0 else width - |s|, s);
    assert Zeros(0) + s == s;
    if |s| >= width then s else Zeros(width - |s|) + s
  }

  /** Distinct numbers have distinct padded numerals. */
  lemma ZeroPaddedInjective(m: nat, n: nat, width: nat)
    requires ZeroPadded(m, width) == ZeroPadded(n, width)
    ensures m == n
  {
  }
}
