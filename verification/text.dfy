/**
 * The character-level pieces of the extractor's line handling: Python's
 * `str.strip()` and the two regular expressions that recognise a question
 * header (`^(\d+)\.\s*(.*)`) and an option line (`^([a-z])\)\s*(.*)`),
 * written out as character predicates.
 */
module Text {
  /** The characters for which Python's `str.isspace()` holds (and which `\s` matches). */
  predicate IsSpace(c: char) {
    c == ' ' || ('\t' <= c <= '\r') || ('\U{1c}' <= c <= '\U{1f}') ||
    c == '\U{85}' || c == '\U{a0}' || c == '\U{1680}' || ('\U{2000}' <= c <= '\U{200a}') ||
    c == '\U{2028}' || c == '\U{2029}' || c == '\U{202f}' || c == '\U{205f}' || c == '\U{3000}'
  }

  predicate AllSpace(s: string) {
    forall k :: 0 <= k < |s| ==> IsSpace(s[k])
  }

  /** No whitespace at either end. */
  predicate Trimmed(t: string) {
    t == [] || (!IsSpace(t[0]) && !IsSpace(t[|t| - 1]))
  }

  /** An ASCII decimal digit. */
  predicate IsDigit(c: char) { '0' <= c <= '9' }

  predicate AllDigits(s: string) {
    forall k :: 0 <= k < |s| ==> IsDigit(s[k])
  }

  /** A lower-case ASCII letter. */
  predicate IsLower(c: char) { 'a' <= c <= 'z' }

  /** The index of the first non-whitespace character of `s` at or after `k` (or `|s|`). */
  function SkipSpaces(s: string, k: nat): (i: nat)
    requires k <= |s|
    ensures k <= i <= |s|
    ensures forall m :: k <= m < i ==> IsSpace(s[m])
    ensures i < |s| ==> !IsSpace(s[i])
    decreases |s| - k
  {
    if k < |s| && IsSpace(s[k]) then SkipSpaces(s, k + 1) else k
  }

  /** The index just past the last non-whitespace character of `s[lo..k]` (or `lo`). */
  function SkipSpacesBack(s: string, lo: nat, k: nat): (j: nat)
    requires lo <= k <= |s|
    ensures lo <= j <= k
    ensures forall m :: j <= m < k ==> IsSpace(s[m])
    ensures j > lo ==> !IsSpace(s[j - 1])
    decreases k
  {
    if k > lo && IsSpace(s[k - 1]) then SkipSpacesBack(s, lo, k - 1) else k
  }

  /** `s` without its leading whitespace, as `\s*` consumes it. */
  function DropLeadingSpaces(s: string): (r: string)
    ensures r == [] || !IsSpace(r[0])
    ensures exists i :: 0 <= i <= |s| && r == s[i..] && AllSpace(s[..i])
  {
    var i := SkipSpaces(s, 0);
    assert AllSpace(s[..i]);
    s[i..]
  }

  /**
   * Python's `str.strip()`: the result is the slice of `s` left after
   * removing whitespace at both ends, and it neither starts nor ends with
   * whitespace.
   */
  function Strip(s: string): (r: string)
    ensures Trimmed(r)
    ensures exists i, j :: 0 <= i <= j <= |s| && r == s[i..j] && AllSpace(s[..i]) && AllSpace(s[j..])
  {
    var i := SkipSpaces(s, 0);
    var j := SkipSpacesBack(s, i, |s|);
    assert AllSpace(s[..i]);
    assert AllSpace(s[j..]);
    s[i..j]
  }

  /** Text without surrounding whitespace is left alone by `Strip`. */
  lemma {:induction false} StripTrimmed(s: string)
    requires Trimmed(s)
    ensures Strip(s) == s
  {
    if s != [] {
      assert SkipSpaces(s, 0) == 0;
      assert SkipSpacesBack(s, 0, |s|) == |s|;
    }
  }

  /** What the regular expression `.*` matches: everything up to the first line break. */
  function TakeLine(s: string): (r: string)
    ensures '\n' !in r
    ensures r <= s
    ensures |r| < |s| ==> s[|r|] == '\n'
  {
    if s == [] || s[0] == '\n' then []
    else [s[0]] + TakeLine(s[1..])
  }

  /** The number of ASCII digits `s` starts with. */
  function LeadingDigits(s: string): (n: nat)
    ensures n <= |s| && AllDigits(s[..n])
    ensures n < |s| ==> !IsDigit(s[n])
  {
    if s != [] && IsDigit(s[0]) then
      var n := 1 + LeadingDigits(s[1..]);
      assert forall k :: 1 <= k < n ==> s[..n][k] == s[1..][..n - 1][k - 1];
      n
    else 0
  }

  function DigitValue(c: char): nat
    requires IsDigit(c)
  {
    (c as int - '0' as int) as nat
  }

  /** Python's `int()` on a string of ASCII digits. */
  function ParseNat(s: string): nat
    requires AllDigits(s)
  {
    if s == [] then 0 else 10 * ParseNat(s[..|s| - 1]) + DigitValue(s[|s| - 1])
  }

  /** The decimal numeral of `n`, without leading zeros. */
  function Decimal(n: nat): (s: string)
    ensures |s| > 0 && AllDigits(s)
  {
    if n < 10 then [('0' as int + n) as char]
    else Decimal(n / 10) + [('0' as int + n % 10) as char]
  }

  /** Reading back a decimal numeral gives the number. */
  lemma {:induction false} ParseDecimal(n: nat)
    ensures ParseNat(Decimal(n)) == n
  {
    if n >= 10 {
      var s := Decimal(n);
      assert s[..|s| - 1] == Decimal(n / 10);
      ParseDecimal(n / 10);
    }
  }

  /** How the extractor reads one reconstructed line of text. */
  datatype LineKind =
    | HeaderLine(id: nat, text: string)   // "12. Question text"
    | OptionLine(key: char, text: string) // "b) Option text"
    | PlainLine                           // anything else: a continuation

  /** The text captured by `\s*(.*)` after a matched prefix, then stripped. */
  function CapturedText(rest: string): (r: string)
    ensures '\n' !in r
    ensures Trimmed(r)
  {
    var line := TakeLine(DropLeadingSpaces(rest));
    var r := Strip(line);
    assert forall c :: c in r ==> c in line;
    r
  }

  /** A run of digits at the start of `s` is no longer than the maximal one. */
  lemma {:induction false} DigitRunWithinLeading(s: string, n: nat)
    requires n <= |s| && AllDigits(s[..n])
    ensures n <= LeadingDigits(s)
  {
    if n > 0 {
      assert s[1..][..n - 1] == s[..n][1..];
      DigitRunWithinLeading(s[1..], n - 1);
    }
  }

  /** The maximal run of leading digits stops before the first non-digit. */
  lemma {:induction false} LeadingStopsAtNonDigit(s: string, n: nat)
    requires n < |s| && !IsDigit(s[n])
    ensures LeadingDigits(s) <= n
  {
    if n > 0 && IsDigit(s[0]) {
      LeadingStopsAtNonDigit(s[1..], n - 1);
    }
  }

  /** The header pattern matches exactly when the maximal run of leading digits is non-empty and followed by a full stop. */
  lemma HeaderPattern(s: string)
    ensures (exists n :: 0 < n < |s| && AllDigits(s[..n]) && s[n] == '.') <==>
            (0 < LeadingDigits(s) < |s| && s[LeadingDigits(s)] == '.')
  {
    forall n | 0 < n < |s| && AllDigits(s[..n]) && s[n] == '.' ensures n == LeadingDigits(s) {
      DigitRunWithinLeading(s, n);
      LeadingStopsAtNonDigit(s, n);
    }
  }

  /**
   * Classification of a line: the header pattern is tried first, then the
   * option pattern. A header is one or more digits followed by a full
   * stop; an option is one lower-case letter followed by a closing
   * parenthesis. The id is the value of the whole leading digit run; the
   * text is what `\s*(.*)` captures after the marker, stripped, so it has
   * no surrounding whitespace and no line break.
   */
  function Classify(s: string): (r: LineKind)
    ensures r.HeaderLine? <==> exists n :: 0 < n < |s| && AllDigits(s[..n]) && s[n] == '.'
    ensures r.OptionLine? <==> |s| >= 2 && IsLower(s[0]) && s[1] == ')'
    ensures r.HeaderLine? ==>
      && 0 < LeadingDigits(s) < |s| && s[LeadingDigits(s)] == '.'
      && r.id == ParseNat(s[..LeadingDigits(s)])
      && r.text == CapturedText(s[LeadingDigits(s) + 1..])
    ensures r.OptionLine? ==> |s| >= 2 && r.key == s[0] && r.text == CapturedText(s[2..])
    ensures !r.PlainLine? ==> '\n' !in r.text && Trimmed(r.text)
  {
    HeaderPattern(s);
    var n := LeadingDigits(s);
    if 0 < n < |s| && s[n] == '.' then
      HeaderLine(ParseNat(s[..n]), CapturedText(s[n + 1..]))
    else if |s| >= 2 && IsLower(s[0]) && s[1] == ')' then
      OptionLine(s[0], CapturedText(s[2..]))
    else
      PlainLine
  }

  lemma {:induction false} TakeLineWhole(t: string)
    requires '\n' !in t
    ensures TakeLine(t) == t
  {
    if t != [] {
      assert t == [t[0]] + t[1..];
      TakeLineWhole(t[1..]);
    }
  }

  /** After a single space, `\s*(.*)` captures a trimmed single-line text unchanged. */
  lemma CapturedAfterSpace(t: string)
    requires Trimmed(t) && '\n' !in t
    ensures CapturedText(" " + t) == t
  {
    assert SkipSpaces(" " + t, 1) == 1;
    assert DropLeadingSpaces(" " + t) == t;
    TakeLineWhole(t);
    StripTrimmed(t);
  }

  lemma LeadingDigitsOfNumeral(d: string, rest: string)
    requires |d| > 0 && AllDigits(d) && rest != [] && !IsDigit(rest[0])
    ensures LeadingDigits(d + rest) == |d| && (d + rest)[..|d|] == d
  {
    var s := d + rest;
    assert s[..|d|] == d;
    DigitRunWithinLeading(s, |d|);
    LeadingStopsAtNonDigit(s, |d|);
  }

  /** How `Classify` reads a line whose leading digits are followed by a full stop. */
  lemma ClassifyHeader(s: string, n: nat)
    requires 0 < n < |s| && LeadingDigits(s) == n && s[n] == '.'
    ensures Classify(s) == HeaderLine(ParseNat(s[..n]), CapturedText(s[n + 1..]))
  {
  }

  /** The pieces of a header line written as numeral, full stop, space, text. */
  lemma HeaderParts(d: string, t: string)
    requires |d| > 0 && AllDigits(d)
    ensures var s := d + ". " + t;
      LeadingDigits(s) == |d| && |d| < |s| && s[|d|] == '.' && s[..|d|] == d && s[|d| + 1..] == " " + t
  {
    var s := d + ". " + t;
    assert s == d + (". " + t);
    LeadingDigitsOfNumeral(d, ". " + t);
    assert s[|d| + 1..] == " " + t;
  }

  /** A numeral, a full stop, a space and a text make a line read back as a header with that number and text. */
  lemma HeaderLineOf(d: string, t: string)
    requires |d| > 0 && AllDigits(d) && Trimmed(t) && '\n' !in t
    ensures Classify(d + ". " + t) == HeaderLine(ParseNat(d), t)
  {
    HeaderParts(d, t);
    ClassifyHeader(d + ". " + t, |d|);
    CapturedAfterSpace(t);
  }

  /** Writing a question number, a full stop, a space and a text gives a line read back as that header. */
  lemma HeaderRoundTrip(n: nat, t: string)
    requires Trimmed(t) && '\n' !in t
    ensures Classify(Decimal(n) + ". " + t) == HeaderLine(n, t)
  {
    HeaderLineOf(Decimal(n), t);
    ParseDecimal(n);
  }

  /** Writing an option letter, a closing parenthesis, a space and a text gives a line read back as that option. */
  lemma OptionRoundTrip(c: char, t: string)
    requires IsLower(c) && Trimmed(t) && '\n' !in t
    ensures Classify([c, ')', ' '] + t) == OptionLine(c, t)
  {
    var s := [c, ')', ' '] + t;
    assert s[2..] == " " + t;
    CapturedAfterSpace(t);
  }
}
