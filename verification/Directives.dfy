/** The suppression directive language (pkg/healthwash/suppress.go, and the analyzer-side view in
    healthwash.go): parsing a comment line, printing a directive back, and the round trip. */
module Directives {
  import opened GoTypes

  const PREFIX := "samber-linter:allow"

  datatype Date = Date(year: nat, month: nat, day: nat)

  /** Rule is lower-cased; an empty reason makes the directive itself a finding. */
  datatype Directive = Directive(rule: string, reason: string, expires: Option<Date>)

  // ---------------------------------------------------------------- characters and trimming

  /** The regular expressions' white space. */
  predicate IsReSpace(c: char)
  {
    c == ' ' || c == '\t' || c == '\n' || c == '\r' || c == '\U{000C}'
  }

  /** Unicode white space, which trimming removes. */
  predicate IsSpace(c: char)
  {
    IsReSpace(c) || c == '\U{000B}' || c == '\U{0085}' || c == '\U{00A0}' || c == '\U{1680}' ||
    '\U{2000}' <= c <= '\U{200A}' || c == '\U{2028}' || c == '\U{2029}' || c == '\U{202F}' ||
    c == '\U{205F}' || c == '\U{3000}'
  }

  predicate IsBlank(c: char)
  {
    c == ' ' || c == '\t'
  }

  predicate IsTokenChar(c: char)
  {
    !IsReSpace(c)
  }

  predicate IsDigit(c: char)
  {
    '0' <= c <= '9'
  }

  ghost predicate All(s: string, p: char -> bool)
  {
    forall i | 0 <= i < |s| :: p(s[i])
  }

  function TrimLeft(s: string, p: char -> bool): (r: string)
    ensures r == "" || !p(r[0])
    ensures |r| <= |s| && r == s[|s| - |r|..]
    ensures forall i | 0 <= i < |s| - |r| :: p(s[i])
  {
    if s != "" && p(s[0]) then TrimLeft(s[1..], p) else s
  }

  function TrimRight(s: string, p: char -> bool): (r: string)
    ensures r == "" || !p(r[|r| - 1])
    ensures |r| <= |s| && r == s[..|r|]
    ensures forall i | |r| <= i < |s| :: p(s[i])
  {
    if s != "" && p(s[|s| - 1]) then TrimRight(s[..|s| - 1], p) else s
  }

  function TrimSpace(s: string): string
  {
    TrimRight(TrimLeft(s, IsSpace), IsSpace)
  }

  /** The longest prefix of s outside white space. */
  function TokenOf(s: string): (t: string)
    ensures t <= s && All(t, IsTokenChar)
    ensures |t| < |s| ==> IsReSpace(s[|t|])
  {
    if s == "" || IsReSpace(s[0]) then ""
    else
      var t := TokenOf(s[1..]);
      assert s == [s[0]] + s[1..];
      [s[0]] + t
  }

  function LowerChar(c: char): char
  {
    if 'A' <= c <= 'Z' then (c as int + 32) as char else c
  }

  function ToLower(s: string): (r: string)
    ensures |r| == |s| && forall i | 0 <= i < |s| :: r[i] == LowerChar(s[i])
  {
    if s == "" then "" else [LowerChar(s[0])] + ToLower(s[1..])
  }

  predicate Contains(s: string, sub: string)
  {
    sub <= s || (s != "" && Contains(s[1..], sub))
  }

  // ---------------------------------------------------------------- the character classes by code point

  /** \s of the regular expressions: tab, line feed, form feed, carriage return, space. */
  lemma ReSpaceByCode(c: char)
    ensures IsReSpace(c) <==> c as int in {9, 10, 12, 13, 32}
  {}

  /** The white space of the Unicode Character Database, property White_Space. */
  lemma SpaceByCode(c: char)
    ensures IsSpace(c) <==>
      (9 <= c as int <= 13 || 8192 <= c as int <= 8202 ||
       c as int in {32, 133, 160, 5760, 8232, 8233, 8239, 8287, 12288})
    ensures IsBlank(c) <==> c as int in {9, 32}
  {}

  const UPPERS := "ABCDEFGHIJKLMNOPQRSTUVWXYZ"
  const LOWERS := "abcdefghijklmnopqrstuvwxyz"

  /** Folding takes each capital to its small letter, and leaves everything else. */
  lemma LowerByAlphabet(c: char)
    ensures forall k | 0 <= k < 26 :: LowerChar(UPPERS[k]) == LOWERS[k]
    ensures c !in UPPERS ==> LowerChar(c) == c
  {
    if 'A' <= c <= 'Z' { assert UPPERS[c as int - 65] == c; }
  }

  // ---------------------------------------------------------------- dates

  predicate IsLeap(y: nat)
  {
    y % 4 == 0 && (y % 100 != 0 || y % 400 == 0)
  }

  function DaysIn(y: nat, m: nat): nat
  {
    if m == 2 then (if IsLeap(y) then 29 else 28)
    else if m in {4, 6, 9, 11} then 30
    else 31
  }

  predicate ValidDate(d: Date)
  {
    d.year <= 9999 && 1 <= d.month <= 12 && 1 <= d.day <= DaysIn(d.year, d.month)
  }

  function Digit(c: char): nat
    requires IsDigit(c)
  {
    c as int - '0' as int
  }

  function DigitChar(n: nat): (c: char)
    requires n < 10
    ensures IsDigit(c) && Digit(c) == n
  {
    (n + '0' as int) as char
  }

  /** \d{4}-\d{2}-\d{2} */
  predicate IsDateShape(s: string)
  {
    |s| == 10 && s[4] == '-' && s[7] == '-' &&
    IsDigit(s[0]) && IsDigit(s[1]) && IsDigit(s[2]) && IsDigit(s[3]) &&
    IsDigit(s[5]) && IsDigit(s[6]) && IsDigit(s[8]) && IsDigit(s[9])
  }

  /** A calendar date; a well-shaped impossible one is refused. */
  function ParseDate(s: string): (r: Option<Date>)
    requires IsDateShape(s)
    ensures r.Some? ==> ValidDate(r.value)
  {
    var d := Date(Digit(s[0]) * 1000 + Digit(s[1]) * 100 + Digit(s[2]) * 10 + Digit(s[3]),
                  Digit(s[5]) * 10 + Digit(s[6]), Digit(s[8]) * 10 + Digit(s[9]));
    if ValidDate(d) then Some(d) else None
  }

  function FormatDate(d: Date): (s: string)
    requires ValidDate(d)
    ensures IsDateShape(s)
  {
    [DigitChar(d.year / 1000), DigitChar(d.year / 100 % 10), DigitChar(d.year / 10 % 10), DigitChar(d.year % 10), '-',
     DigitChar(d.month / 10), DigitChar(d.month % 10), '-', DigitChar(d.day / 10), DigitChar(d.day % 10)]
  }

  lemma FourDigits(y: nat)
    requires y <= 9999
    ensures y == y / 1000 * 1000 + y / 100 % 10 * 100 + y / 10 % 10 * 10 + y % 10
  {
    var a := y / 10;
    var b := a / 10;
    assert y / 100 == b && y / 1000 == b / 10;
    assert y == 10 * a + y % 10 && a == 10 * b + a % 10 && b == 10 * (b / 10) + b % 10;
  }

  lemma DateRoundTrip(d: Date)
    requires ValidDate(d)
    ensures ParseDate(FormatDate(d)) == Some(d)
  {
    FourDigits(d.year);
  }

  /** The first of February is written year, month, day. */
  lemma DateAsWritten()
    ensures FormatDate(Date(2026, 2, 1)) == "2026-02-01"
    ensures IsDateShape("2026-02-01") && ParseDate("2026-02-01") == Some(Date(2026, 2, 1))
  {
    DateRoundTrip(Date(2026, 2, 1));
    assert FormatDate(Date(2026, 2, 1)) == "2026-02-01";
  }

  // ---------------------------------------------------------------- parsing

  /** ^//\s*samber-linter:allow\s+(\S)(\S*)\s*(.*)$ : the token and what follows it. The dot does not
      match a line break. */
  function MatchDirective(s: string): (r: Option<(string, string)>)
    ensures r.Some? ==> r.value.0 != "" && All(r.value.0, IsTokenChar) && NoLineBreak(r.value.1)
  {
    if !("//" <= s) then None
    else
      var a := TrimLeft(s[2..], IsReSpace);
      if !(PREFIX <= a) then None
      else
        var b := a[|PREFIX|..];
        var c := TrimLeft(b, IsReSpace);
        if |c| == |b| || c == "" then None
        else
          var token := TokenOf(c);
          var rest := TrimLeft(c[|token|..], IsReSpace);
          if '\n' in rest then None else Some((token, rest))
  }

  const UNTIL := "until"

  /** \s+until\s+$ : what precedes the clause. */
  function MatchUntilWord(u: string): (r: Option<string>)
    ensures r.Some? ==> r.value <= u && |r.value| < |u| && IsReSpace(u[|r.value|])
  {
    var v := TrimRight(u, IsReSpace);
    if |v| == |u| || |v| < 5 || v[|v| - 5..] != UNTIL then None
    else
      var w := v[..|v| - 5];
      var x := TrimRight(w, IsReSpace);
      if |x| == |w| then None
      else
        assert IsReSpace(w[|x|]);
        Some(x)
  }

  /** \s+until\s+(\d{4}-\d{2}-\d{2})\s*$ : what precedes the clause, and the date. */
  function MatchUntil(s: string): (r: Option<(string, string)>)
    ensures r.Some? ==> IsDateShape(r.value.1) && r.value.0 <= s && |r.value.0| < |s| && IsReSpace(s[|r.value.0|])
  {
    var t := TrimRight(s, IsReSpace);
    if |t| < 10 || !IsDateShape(t[|t| - 10..]) then None
    else
      match MatchUntilWord(t[..|t| - 10])
      case None => None
      case Some(before) => Some((before, t[|t| - 10..]))
  }

  /** One comment line. A directive that is missing its rule or reason still parses, so that it can be
      reported. */
  function ParseDirective(line: string): Option<Directive>
  {
    var trimmed := TrimRight(line, IsBlank);
    match MatchDirective(trimmed)
    case None =>
      if "//" <= TrimSpace(trimmed) && Contains(TrimSpace(trimmed), PREFIX) then Some(Directive("", "", None)) else None
    case Some((token, after)) => Some(WithText(ToLower(token), TrimSpace(after)))
  }

  /** Splits a valid deadline clause off the text. */
  function WithText(rule: string, rest: string): Directive
  {
    match MatchUntil(rest)
    case None => Directive(rule, rest, None)
    case Some((before, date)) =>
      match ParseDate(date)
      case None => Directive(rule, rest, None)
      case Some(d) => Directive(rule, TrimSpace(before), Some(d))
  }

  function Print(d: Directive): string
    requires d.expires.Some? ==> ValidDate(d.expires.value)
  {
    "//" + PREFIX + " " + d.rule +
    (if d.reason != "" then " " + d.reason else "") +
    (match d.expires case None => "" case Some(e) => " until " + FormatDate(e))
  }

  /** A point in time: a day and the time since its midnight. */
  datatype Instant = Instant(day: Date, sinceMidnight: nat)

  predicate Before(a: Date, b: Date)
  {
    a.year < b.year || (a.year == b.year && (a.month < b.month || (a.month == b.month && a.day < b.day)))
  }

  /** The deadline is the midnight that begins its day; expired is after it, not at it. */
  predicate Expired(d: Directive, now: Instant)
  {
    d.expires.Some? && (Before(d.expires.value, now.day) || (d.expires.value == now.day && now.sinceMidnight > 0))
  }

  /** The analyzer's view of a comment: malformed ones raise HW-0, expired ones no longer suppress. */
  datatype Parsed = Parsed(rule: string, reason: string, invalid: bool, expired: bool)

  function ParseDirectiveComment(text: string, now: Instant): Option<Parsed>
  {
    if !Contains(text, PREFIX) then None
    else
      match ParseDirective(text)
      case None => None
      case Some(d) => Some(Parsed(d.rule, d.reason, d.rule == "" || d.reason == "", Expired(d, now)))
  }

  // ---------------------------------------------------------------- the directives that exist

  ghost predicate NoLineBreak(s: string)
  {
    '\n' !in s
  }

  ghost predicate Trimmed(s: string)
  {
    s == "" || (!IsSpace(s[0]) && !IsSpace(s[|s| - 1]))
  }

  ghost predicate NoDeadlineIn(reason: string)
  {
    match MatchUntil(reason)
    case None => true
    case Some((_, date)) => ParseDate(date).None?
  }

  /** Exactly the results of parsing. */
  ghost predicate Canonical(d: Directive)
  {
    && All(d.rule, IsTokenChar) && ToLower(d.rule) == d.rule
    && NoLineBreak(d.reason) && Trimmed(d.reason)
    && (d.rule == "" ==> d.reason == "")
    && (match d.expires
        case None => NoDeadlineIn(d.reason)
        case Some(e) => ValidDate(e) && d.reason != "")
  }

  lemma TrimmedIsFixed(s: string)
    requires Trimmed(s)
    ensures TrimSpace(s) == s
  {}

  lemma TrimSpaceTrims(s: string)
    ensures Trimmed(TrimSpace(s))
    ensures NoLineBreak(s) ==> NoLineBreak(TrimSpace(s))
  {
    var l := TrimLeft(s, IsSpace);
    var r := TrimRight(l, IsSpace);
    if r != "" { assert r[0] == l[0]; }
  }

  /** Parsing yields canonical directives; in particular a parsed deadline comes with a rule and a
      reason. */
  lemma ParsedIsCanonical(line: string)
    requires ParseDirective(line).Some?
    ensures Canonical(ParseDirective(line).value)
  {
    var m := MatchDirective(TrimRight(line, IsBlank));
    if m.Some? {
      var (token, after) := m.value;
      TrimSpaceTrims(after);
      TokenIsRule(token);
      TextIsCanonical(ToLower(token), TrimSpace(after));
    } else {
      assert MatchUntil("").None?;
    }
  }

  lemma TextIsCanonical(rule: string, rest: string)
    requires rule != "" && All(rule, IsTokenChar) && ToLower(rule) == rule && NoLineBreak(rest) && Trimmed(rest)
    ensures Canonical(WithText(rule, rest))
  {
    var until := MatchUntil(rest);
    if until.Some? {
      var (before, date) := until.value;
      var d := ParseDate(date);
      if d.Some? {
        BeforeIsReason(rest, before);
        assert WithText(rule, rest) == Directive(rule, TrimSpace(before), d);
      } else {
        assert NoDeadlineIn(rest);
      }
    }
  }

  lemma BeforeIsReason(rest: string, before: string)
    requires Trimmed(rest) && NoLineBreak(rest) && before <= rest && |before| < |rest| && IsReSpace(rest[|before|])
    ensures NoLineBreak(TrimSpace(before)) && Trimmed(TrimSpace(before)) && TrimSpace(before) != ""
  {
    assert NoLineBreak(before);
    TrimSpaceTrims(before);
    KeepsFirst(rest, before);
  }

  lemma TokenIsRule(token: string)
    requires All(token, IsTokenChar)
    ensures All(ToLower(token), IsTokenChar) && ToLower(ToLower(token)) == ToLower(token)
  {}

  /** The text before a deadline clause keeps the first character, which is no white space. */
  lemma KeepsFirst(rest: string, before: string)
    requires Trimmed(rest) && before <= rest && |before| < |rest| && IsReSpace(rest[|before|])
    ensures before != "" && TrimSpace(before) != ""
  {
    assert before != "" && before[0] == rest[0];
    assert TrimLeft(before, IsSpace) == before;
    var r := TrimRight(before, IsSpace);
  }

  // ---------------------------------------------------------------- printing and parsing back

  lemma {:induction false} TrimLeftRun(a: string, b: string, p: char -> bool)
    requires All(a, p) && (b == "" || !p(b[0]))
    ensures TrimLeft(a + b, p) == b
  {
    if a == "" {
      assert a + b == b;
    } else {
      assert (a + b)[1..] == a[1..] + b;
      TrimLeftRun(a[1..], b, p);
    }
  }

  lemma {:induction false} TrimRightRun(a: string, b: string, p: char -> bool)
    requires All(b, p) && (a == "" || !p(a[|a| - 1]))
    ensures TrimRight(a + b, p) == a
  {
    if b == "" {
      assert a + b == a;
    } else {
      assert (a + b)[..|a + b| - 1] == a + b[..|b| - 1];
      TrimRightRun(a, b[..|b| - 1], p);
    }
  }

  lemma {:induction false} TokenRun(a: string, b: string)
    requires All(a, IsTokenChar) && (b == "" || IsReSpace(b[0]))
    ensures TokenOf(a + b) == a
  {
    if a == "" {
      assert a + b == b;
    } else {
      assert (a + b)[1..] == a[1..] + b;
      TokenRun(a[1..], b);
    }
  }

  function Line(rule: string, text: string): string
  {
    "//" + PREFIX + " " + rule + (if text == "" then "" else " " + text)
  }

  /** The canonical line splits into its token and its text. */
  lemma MatchesPrinted(rule: string, text: string)
    requires rule != "" && All(rule, IsTokenChar)
    requires NoLineBreak(text) && (text == "" || !IsReSpace(text[0]))
    ensures MatchDirective(Line(rule, text)) == Some((rule, text))
  {
    var gap := if text == "" then "" else " ";
    var c := rule + (gap + text);
    AfterGap(rule, gap, text);
    LineIs(rule, gap, text);
    AfterPrefix(Line(rule, text), " " + c);
    MatchAfter(Line(rule, text), " " + c, c, rule, text);
  }

  lemma LineIs(rule: string, gap: string, text: string)
    requires gap == if text == "" then "" else " "
    ensures Line(rule, text) == "//" + (PREFIX + (" " + (rule + (gap + text))))
  {}

  lemma AfterGap(rule: string, gap: string, text: string)
    requires rule != "" && All(rule, IsTokenChar) && (text == "" || !IsReSpace(text[0]))
    requires gap == if text == "" then "" else " "
    ensures var c := rule + (gap + text);
      && TrimLeft(" " + c, IsReSpace) == c && TokenOf(c) == rule
      && TrimLeft(c[|rule|..], IsReSpace) == text
  {
    var c := rule + (gap + text);
    TrimLeftRun(" ", c, IsReSpace);
    TokenRun(rule, gap + text);
    assert c[|rule|..] == gap + text;
    TrimLeftRun(gap, text, IsReSpace);
  }

  lemma MatchAfter(s: string, b: string, c: string, token: string, rest: string)
    requires "//" <= s && TrimLeft(s[2..], IsReSpace) == PREFIX + b && (PREFIX + b)[|PREFIX|..] == b
    requires TrimLeft(b, IsReSpace) == c && |c| < |b| && c != ""
    requires TokenOf(c) == token && |token| <= |c| && TrimLeft(c[|token|..], IsReSpace) == rest && NoLineBreak(rest)
    ensures MatchDirective(s) == Some((token, rest))
  {
    assert PREFIX <= PREFIX + b;
  }

  lemma AfterPrefix(s: string, b: string)
    requires s == "//" + (PREFIX + b)
    ensures "//" <= s && TrimLeft(s[2..], IsReSpace) == PREFIX + b
    ensures (PREFIX + b)[|PREFIX|..] == b
  {
    assert s[2..] == PREFIX + b;
    assert PREFIX[0] == 's';
  }

  lemma WordIsFound(w: string, w2: string)
    requires w != "" && IsReSpace(w[|w| - 1]) && All(w2, IsReSpace) && w2 != ""
    ensures MatchUntilWord(w + UNTIL + w2) == Some(TrimRight(w, IsReSpace))
  {
    var v := w + UNTIL;
    assert v[|v| - 1] == UNTIL[4] == 'l';
    TrimRightRun(v, w2, IsReSpace);
    assert v[|v| - 5..] == UNTIL && v[..|v| - 5] == w;
    assert |TrimRight(w, IsReSpace)| < |w|;
  }

  lemma ClauseIsFound(u: string, date: string, w3: string, before: string)
    requires IsDateShape(date) && All(w3, IsReSpace) && MatchUntilWord(u) == Some(before)
    ensures MatchUntil(u + date + w3) == Some((before, date))
  {
    var t := u + date;
    assert t[|t| - 1] == date[9];
    TrimRightRun(t, w3, IsReSpace);
    assert t[|t| - 10..] == date && t[..|t| - 10] == u;
  }

  /** A printed deadline clause is found again, whatever the reason ends with. */
  lemma MatchesPrintedUntil(reason: string, d: Date)
    requires reason != "" && !IsReSpace(reason[|reason| - 1]) && ValidDate(d)
    ensures MatchUntil(reason + " until " + FormatDate(d)) == Some((reason, FormatDate(d)))
  {
    var date := FormatDate(d);
    TrimRightRun(reason, " ", IsReSpace);
    WordIsFound(reason + " ", " ");
    UntilIsSpaced(reason);
    ClauseIsFound(reason + " until ", date, "", reason);
    assert reason + " until " + date + "" == reason + " until " + date;
  }

  lemma UntilIsSpaced(reason: string)
    ensures reason + " until " == reason + " " + UNTIL + " "
  {
    assert " until " == " " + (UNTIL + " ");
    assert reason + " " + UNTIL + " " == reason + (" " + (UNTIL + " "));
  }

  lemma PrintedTextParses(d: Directive)
    requires Canonical(d)
    ensures WithText(d.rule, PrintedText(d)) == d
  {
    if d.expires.Some? {
      var e := d.expires.value;
      MatchesPrintedUntil(d.reason, e);
      DateRoundTrip(e);
      TrimmedIsFixed(d.reason);
    }
  }

  lemma PrintedTextIsTrimmed(d: Directive)
    requires Canonical(d)
    ensures NoLineBreak(PrintedText(d)) && Trimmed(PrintedText(d))
  {
    if d.expires.Some? {
      var date := FormatDate(d.expires.value);
      var text := d.reason + " until " + date;
      assert NoLineBreak(" until ") && NoLineBreak(date);
      assert text[0] == d.reason[0] && text[|text| - 1] == date[9];
    }
  }

  function PrintedText(d: Directive): string
    requires d.expires.Some? ==> ValidDate(d.expires.value)
  {
    match d.expires
    case None => d.reason
    case Some(e) => d.reason + " until " + FormatDate(e)
  }

  lemma PrintIsLine(d: Directive)
    requires Canonical(d)
    ensures Print(d) == Line(d.rule, PrintedText(d))
  {}

  lemma LineIsTrimmed(rule: string, text: string)
    requires rule != "" && All(rule, IsTokenChar) && Trimmed(text)
    ensures TrimRight(Line(rule, text), IsBlank) == Line(rule, text)
  {
    var line := Line(rule, text);
    assert line[|line| - 1] == if text == "" then rule[|rule| - 1] else text[|text| - 1];
  }

  /** Parsing the printed form of a canonical directive gives the directive back. */
  lemma PrintParse(d: Directive)
    requires Canonical(d)
    ensures ParseDirective(Print(d)) == Some(d)
  {
    if d.rule == "" {
      BarePrefix();
      assert Print(d) == "//" + PREFIX + " ";
    } else {
      PrintIsLine(d);
      PrintedTextIsTrimmed(d);
      LineParses(d.rule, PrintedText(d));
      PrintedTextParses(d);
    }
  }

  lemma LineParses(rule: string, text: string)
    requires rule != "" && All(rule, IsTokenChar) && ToLower(rule) == rule
    requires NoLineBreak(text) && Trimmed(text)
    ensures ParseDirective(Line(rule, text)) == Some(WithText(rule, text))
  {
    LineIsTrimmed(rule, text);
    MatchesPrinted(rule, text);
    TrimmedIsFixed(text);
  }

  lemma BarePrefix()
    ensures ParseDirective("//" + PREFIX + " ") == Some(Directive("", "", None))
  {
    var bare := "//" + PREFIX;
    BareIsTrimmed(bare);
    BareDoesNotMatch(bare);
    BareContains(bare);
    MalformedParses(bare + " ", bare);
  }

  lemma BareIsTrimmed(bare: string)
    requires bare == "//" + PREFIX
    ensures Trimmed(bare) && TrimRight(bare + " ", IsBlank) == bare
  {
    assert bare[0] == '/' && bare[|bare| - 1] == PREFIX[|PREFIX| - 1] == 'w';
    TrimRightRun(bare, " ", IsBlank);
  }

  lemma {:induction false} ContainsWithin(before: string, sub: string, after: string)
    ensures Contains(before + (sub + after), sub)
  {
    var s := before + (sub + after);
    if before == "" {
      assert s == sub + after && sub <= s;
    } else {
      assert s[1..] == before[1..] + (sub + after);
      ContainsWithin(before[1..], sub, after);
    }
  }

  lemma {:induction false} ContainsSplits(s: string, sub: string) returns (before: string, after: string)
    requires Contains(s, sub)
    ensures s == before + (sub + after)
  {
    if sub <= s {
      before, after := "", s[|sub|..];
    } else {
      before, after := ContainsSplits(s[1..], sub);
      before := [s[0]] + before;
    }
  }

  lemma MatchedContains(trimmed: string)
    requires MatchDirective(trimmed).Some?
    ensures Contains(trimmed, PREFIX)
  {
    ReadOff(trimmed);
    var w0, w1, token, w2, rest :| ReadsDirective(trimmed, w0, w1, token, w2, rest);
    var text := w1 + (token + (w2 + rest));
    Regroup("//", w0, PREFIX + text);
    ContainsWithin("//" + w0, PREFIX, text);
  }

  lemma Regroup(a: string, b: string, c: string)
    ensures a + (b + c) == (a + b) + c
  {}

  /** What a part contains, the whole contains. */
  lemma PartContains(before: string, part: string, after: string, sub: string)
    requires Contains(part, sub)
    ensures Contains(before + (part + after), sub)
  {
    var x, y := ContainsSplits(part, sub);
    assert before + (part + after) == (before + x) + (sub + (y + after));
    ContainsWithin(before + x, sub, y + after);
  }

  lemma TrimLeftIsTail(s: string, p: char -> bool) returns (before: string)
    ensures s == before + TrimLeft(s, p)
  {
    before := s[..|s| - |TrimLeft(s, p)|];
  }

  lemma TrimRightIsHead(s: string, p: char -> bool) returns (after: string)
    ensures s == TrimRight(s, p) + after
  {
    after := s[|TrimRight(s, p)|..];
  }

  lemma TrimmedIsPart(s: string) returns (before: string, after: string)
    ensures s == before + (TrimSpace(s) + after)
  {
    before := TrimLeftIsTail(s, IsSpace);
    after := TrimRightIsHead(TrimLeft(s, IsSpace), IsSpace);
  }

  /** A line that parses contains the prefix. */
  lemma ParsedContains(line: string)
    requires ParseDirective(line).Some?
    ensures Contains(line, PREFIX)
  {
    var trimmed := TrimRight(line, IsBlank);
    if MatchDirective(trimmed).Some? {
      MatchedContains(trimmed);
    } else {
      var before, after := TrimmedIsPart(trimmed);
      PartContains(before, TrimSpace(trimmed), after, PREFIX);
    }
    var tail := TrimRightIsHead(line, IsBlank);
    PartContains("", trimmed, tail, PREFIX);
    assert "" + (trimmed + tail) == line;
  }

  lemma MalformedParses(line: string, trimmed: string)
    requires TrimRight(line, IsBlank) == trimmed && Trimmed(trimmed)
    requires MatchDirective(trimmed).None? && "//" <= trimmed && Contains(trimmed, PREFIX)
    ensures ParseDirective(line) == Some(Directive("", "", None))
  {
    TrimmedIsFixed(trimmed);
  }

  lemma BareDoesNotMatch(bare: string)
    requires bare == "//" + PREFIX
    ensures MatchDirective(bare).None?
  {
    var a := bare[2..];
    assert a == PREFIX && a[0] == 's';
    assert TrimLeft(a, IsReSpace) == a;
    assert a[|PREFIX|..] == "";
  }

  lemma BareContains(bare: string)
    requires bare == "//" + PREFIX
    ensures Contains(bare, PREFIX)
  {
    var b1 := bare[1..];
    var b2 := b1[1..];
    assert b2 == PREFIX;
    assert Contains(b2, PREFIX);
    assert Contains(b1, PREFIX);
  }

  /** The round trip, for every line: the printed form of what was parsed parses to the same rule,
      reason and deadline. */
  lemma ParsePrintParse(line: string)
    requires ParseDirective(line).Some?
    ensures var d := ParseDirective(line).value;
      (d.expires.Some? ==> ValidDate(d.expires.value)) && ParseDirective(Print(d)) == Some(d)
  {
    ParsedIsCanonical(line);
    PrintParse(ParseDirective(line).value);
  }

  /** The directives that exist are exactly the canonical ones. */
  lemma CanonicalIff(d: Directive)
    ensures Canonical(d) <==> exists line :: ParseDirective(line) == Some(d)
  {
    if Canonical(d) { PrintParse(d); }
    forall line | ParseDirective(line) == Some(d) ensures Canonical(d) { ParsedIsCanonical(line); }
  }

  /** Malformed and expired exclude each other, at any time. */
  lemma MalformedNeverExpired(text: string, now: Instant)
    ensures match ParseDirectiveComment(text, now)
            case None => true
            case Some(p) => !(p.invalid && p.expired)
  {
    if ParseDirective(text).Some? { ParsedIsCanonical(text); }
  }

  predicate NotAfter(a: Instant, b: Instant)
  {
    Before(a.day, b.day) || (a.day == b.day && a.sinceMidnight <= b.sinceMidnight)
  }

  // ---------------------------------------------------------------- the calendar

  /** The days before the year begins, in closed form: every fourth year has one more, but for three out of four
      centuries. */
  function DaysBeforeYear(y: nat): nat
  {
    365 * y + (y + 3) / 4 - (y + 99) / 100 + (y + 399) / 400
  }

  function DaysBeforeMonth(y: nat, m: nat): nat
  {
    if m <= 1 then 0 else DaysBeforeMonth(y, m - 1) + DaysIn(y, m - 1)
  }

  function DayNumber(d: Date): nat
  {
    DaysBeforeYear(d.year) + DaysBeforeMonth(d.year, d.month) + d.day
  }

  /** The nanoseconds of a day. */
  const DAY: nat := 86_400_000_000_000

  /** The moment as one number. */
  function Timeline(t: Instant): nat
  {
    DayNumber(t.day) * DAY + t.sinceMidnight
  }

  ghost predicate ValidInstant(t: Instant)
  {
    ValidDate(t.day) && t.sinceMidnight < DAY
  }

  /** The twelve months fill the year. */
  lemma MonthsFillYear(y: nat)
    ensures DaysBeforeYear(y) + DaysBeforeMonth(y, 13) == DaysBeforeYear(y + 1)
  {
    assert DaysBeforeMonth(y, 2) == 31;
    assert DaysBeforeMonth(y, 3) == 31 + DaysIn(y, 2);
    assert DaysBeforeMonth(y, 5) == DaysBeforeMonth(y, 3) + 61;
    assert DaysBeforeMonth(y, 7) == DaysBeforeMonth(y, 5) + 61;
    assert DaysBeforeMonth(y, 9) == DaysBeforeMonth(y, 7) + 62;
    assert DaysBeforeMonth(y, 11) == DaysBeforeMonth(y, 9) + 61;
    assert DaysBeforeMonth(y, 13) == DaysBeforeMonth(y, 11) + 61;
    LeapDay(y);
  }

  lemma LeapDay(y: nat)
    ensures DaysBeforeYear(y + 1) == DaysBeforeYear(y) + if IsLeap(y) then 366 else 365
  {
    Fourth(y);
    Hundredth(y);
    FourHundredth(y);
    CenturiesAreFourths(y);
  }

  lemma CenturiesAreFourths(y: nat)
    ensures y % 400 == 0 ==> y % 100 == 0
    ensures y % 100 == 0 ==> y % 4 == 0
  {
    if y % 400 == 0 { assert y == 100 * (4 * (y / 400)); }
    if y % 100 == 0 { assert y == 4 * (25 * (y / 100)); }
  }

  lemma Fourth(y: nat)
    ensures (y + 4) / 4 == (y + 3) / 4 + if y % 4 == 0 then 1 else 0
  {}

  lemma Hundredth(y: nat)
    ensures (y + 100) / 100 == (y + 99) / 100 + if y % 100 == 0 then 1 else 0
  {}

  lemma FourHundredth(y: nat)
    ensures (y + 400) / 400 == (y + 399) / 400 + if y % 400 == 0 then 1 else 0
  {}

  lemma {:induction false} MonthsAscend(y: nat, m: nat, n: nat)
    requires 1 <= m < n
    ensures DaysBeforeMonth(y, m) + DaysIn(y, m) <= DaysBeforeMonth(y, n)
  {
    if m + 1 < n { MonthsAscend(y, m, n - 1); }
  }

  lemma {:induction false} YearsAscend(y: nat, z: nat)
    requires y < z
    ensures DaysBeforeYear(y + 1) <= DaysBeforeYear(z)
  {
    if y + 1 < z {
      YearsAscend(y, z - 1);
      LeapDay(z - 1);
    }
  }

  lemma BeforeAscends(a: Date, b: Date)
    requires ValidDate(a) && ValidDate(b) && Before(a, b)
    ensures DayNumber(a) < DayNumber(b)
  {
    MonthsAscend(a.year, a.month, 13);
    if a.year < b.year {
      MonthsFillYear(a.year);
      YearsAscend(a.year, b.year);
    } else if a.month < b.month {
      MonthsAscend(a.year, a.month, b.month);
    }
  }

  /** Every day from the first of January of year 0 to the last of December of 9999 is a date. */
  lemma {:induction false} EveryDayIsADate(n: nat) returns (d: Date)
    requires 1 <= n <= DaysBeforeYear(10000)
    ensures ValidDate(d) && DayNumber(d) == n
  {
    if n == 1 {
      d := Date(0, 1, 1);
    } else {
      var before := EveryDayIsADate(n - 1);
      d := NextDay(before);
    }
  }

  lemma NextDay(d: Date) returns (next: Date)
    requires ValidDate(d) && DayNumber(d) < DaysBeforeYear(10000)
    ensures ValidDate(next) && DayNumber(next) == DayNumber(d) + 1
  {
    MonthsFillYear(d.year);
    if d.day < DaysIn(d.year, d.month) {
      next := d.(day := d.day + 1);
    } else if d.month < 12 {
      next := Date(d.year, d.month + 1, 1);
    } else {
      next := Date(d.year + 1, 1, 1);
    }
  }

  /** Dates are ordered as their days are counted. */
  lemma BeforeIff(a: Date, b: Date)
    requires ValidDate(a) && ValidDate(b)
    ensures Before(a, b) <==> DayNumber(a) < DayNumber(b)
    ensures a == b <==> DayNumber(a) == DayNumber(b)
  {
    if Before(a, b) { BeforeAscends(a, b); }
    if Before(b, a) { BeforeAscends(b, a); }
  }

  /** A directive has expired exactly when it has a deadline, and the moment lies past the midnight with which
      the deadline's day begins. */
  lemma ExpiredIff(d: Directive, now: Instant)
    requires ValidInstant(now) && (d.expires.Some? ==> ValidDate(d.expires.value))
    ensures Expired(d, now) <==> d.expires.Some? && Timeline(now) > Timeline(Instant(d.expires.value, 0))
  {
    if d.expires.Some? {
      BeforeIff(d.expires.value, now.day);
      BeforeIff(now.day, d.expires.value);
    }
  }

  lemma NotAfterIff(a: Instant, b: Instant)
    requires ValidInstant(a) && ValidInstant(b)
    ensures NotAfter(a, b) <==> Timeline(a) <= Timeline(b)
  {
    BeforeIff(a.day, b.day);
    BeforeIff(b.day, a.day);
  }

  /** Expired once, expired for ever. */
  lemma ExpiryStays(d: Directive, now: Instant, later: Instant)
    requires NotAfter(now, later) && Expired(d, now)
    ensures Expired(d, later)
  {}

  /** What is read and unexpired later was read the same before. */
  lemma ReadEarlier(text: string, now: Instant, later: Instant)
    requires NotAfter(now, later)
    requires ParseDirectiveComment(text, later).Some? && !ParseDirectiveComment(text, later).value.expired
    ensures ParseDirectiveComment(text, now) == ParseDirectiveComment(text, later)
  {
    var d := ParseDirective(text).value;
    if Expired(d, now) { ExpiryStays(d, now, later); }
  }

  // ---------------------------------------------------------------- the matchers against the expressions

  /** s reads: before, white space, "until", white space, a date shape, optional white space. */
  ghost predicate ReadsUntil(s: string, before: string, w1: string, w2: string, date: string, w3: string)
  {
    && s == before + w1 + "until" + w2 + date + w3
    && All(w1, IsReSpace) && w1 != "" && All(w2, IsReSpace) && w2 != "" && All(w3, IsReSpace)
    && IsDateShape(date)
  }

  /** The clause is found exactly when the text can be read that way, and in every such reading the date
      is the one found. */
  lemma UntilMatchesIff(s: string)
    ensures MatchUntil(s).Some? <==> exists before, w1, w2, date, w3 :: ReadsUntil(s, before, w1, w2, date, w3)
    ensures forall before, w1, w2, date, w3 | ReadsUntil(s, before, w1, w2, date, w3) ::
      MatchUntil(s).Some? && MatchUntil(s).value.1 == date
  {
    if MatchUntil(s).Some? { ReadOffUntil(s); }
    forall before, w1, w2, date, w3 | ReadsUntil(s, before, w1, w2, date, w3)
      ensures MatchUntil(s).Some? && MatchUntil(s).value.1 == date
    {
      UntilIsFound(s, before, w1, w2, date, w3);
    }
  }

  lemma ReadOffWord(u: string) returns (w1: string, w2: string)
    requires MatchUntilWord(u).Some?
    ensures u == MatchUntilWord(u).value + w1 + UNTIL + w2
    ensures All(w1, IsReSpace) && w1 != "" && All(w2, IsReSpace) && w2 != ""
  {
    var v := TrimRight(u, IsReSpace);
    var w := v[..|v| - 5];
    var x := TrimRight(w, IsReSpace);
    w1, w2 := w[|x|..], u[|v|..];
    assert w == x + w1;
    assert v == w + UNTIL;
    assert u == v + w2;
  }

  lemma ReadOffUntil(s: string)
    requires MatchUntil(s).Some?
    ensures exists before, w1, w2, date, w3 :: ReadsUntil(s, before, w1, w2, date, w3)
  {
    var t := TrimRight(s, IsReSpace);
    var u, date, w3 := t[..|t| - 10], t[|t| - 10..], s[|t|..];
    assert s == u + date + w3;
    var before := MatchUntilWord(u).value;
    var w1, w2 := ReadOffWord(u);
    assert ReadsUntil(s, before, w1, w2, date, w3);
  }

  lemma UntilIsFound(s: string, before: string, w1: string, w2: string, date: string, w3: string)
    requires ReadsUntil(s, before, w1, w2, date, w3)
    ensures MatchUntil(s).Some? && MatchUntil(s).value.1 == date
  {
    var w := before + w1;
    assert w[|w| - 1] == w1[|w1| - 1];
    WordIsFound(w, w2);
    ClauseIsFound(w + UNTIL + w2, date, w3, TrimRight(w, IsReSpace));
  }

  /** s reads: two slashes, optional white space, the prefix, white space, a token, optional white
      space, and text without a line break. */
  ghost predicate ReadsDirective(s: string, w0: string, w1: string, token: string, w2: string, rest: string)
  {
    && s == "//" + (w0 + ("samber-linter:allow" + (w1 + (token + (w2 + rest)))))
    && All(w0, IsReSpace) && All(w1, IsReSpace) && w1 != "" && All(w2, IsReSpace)
    && All(token, IsTokenChar) && token != "" && NoLineBreak(rest)
  }

  /** A line is matched exactly when it can be read that way. */
  lemma DirectiveMatchesIff(s: string)
    ensures MatchDirective(s).Some? <==> exists w0, w1, token, w2, rest :: ReadsDirective(s, w0, w1, token, w2, rest)
  {
    if MatchDirective(s).Some? { ReadOff(s); }
    forall w0, w1, token, w2, rest | ReadsDirective(s, w0, w1, token, w2, rest) ensures MatchDirective(s).Some? {
      DirectiveIsFound(s, w0, w1, token, w2, rest);
    }
  }

  /** The token is as long as it can be, and the text begins with no white space. */
  ghost predicate Greedy(token: string, w2: string, rest: string)
  {
    (w2 + rest == "" || IsReSpace((w2 + rest)[0])) && (rest == "" || !IsReSpace(rest[0]))
  }

  ghost predicate ReadsGreedily(s: string, w0: string, w1: string, token: string, w2: string, rest: string)
  {
    ReadsDirective(s, w0, w1, token, w2, rest) && Greedy(token, w2, rest)
  }

  /** What is matched are the token and the text of the reading in which each part takes what it can. */
  lemma DirectiveReads(s: string, token: string, rest: string)
    ensures MatchDirective(s) == Some((token, rest)) <==> exists w0, w1, w2 :: ReadsGreedily(s, w0, w1, token, w2, rest)
  {
    if MatchDirective(s) == Some((token, rest)) { ReadOffGreedily(s, token, rest); }
    forall w0, w1, w2 | ReadsGreedily(s, w0, w1, token, w2, rest) ensures MatchDirective(s) == Some((token, rest)) {
      GreedyIsFound(s, w0, w1, token, w2, rest);
    }
  }

  lemma ReadOffGreedily(s: string, token: string, rest: string)
    requires MatchDirective(s) == Some((token, rest))
    ensures exists w0, w1, w2 :: ReadsGreedily(s, w0, w1, token, w2, rest)
  {
    var a := TrimLeft(s[2..], IsReSpace);
    var b := a[|PREFIX|..];
    var c := TrimLeft(b, IsReSpace);
    MatchedParts(s, token, rest, a, b, c);
    var w2 := ReadOffGreedyText(c, token, rest);
    var w0 := Trimming(s[2..]);
    var w1 := Trimming(b);
    Reassemble(s, w0, a, b, w1, c);
    assert ReadsGreedily(s, w0, w1, token, w2, rest);
  }

  lemma ReadOffGreedyText(c: string, token: string, rest: string) returns (w2: string)
    requires token == TokenOf(c) && rest == TrimLeft(c[|token|..], IsReSpace)
    ensures c == token + (w2 + rest) && All(w2, IsReSpace) && Greedy(token, w2, rest)
  {
    var token', rest';
    token', w2, rest' := ReadOffText(c);
    assert c[|token|..] == w2 + rest;
  }

  lemma MatchedParts(s: string, token: string, rest: string, a: string, b: string, c: string)
    requires MatchDirective(s) == Some((token, rest)) && a == TrimLeft(s[2..], IsReSpace)
    requires PREFIX <= a ==> b == a[|PREFIX|..] && c == TrimLeft(b, IsReSpace)
    ensures "//" <= s && PREFIX <= a && |c| < |b| && c != "" && token == TokenOf(c)
    ensures rest == TrimLeft(c[|token|..], IsReSpace) && NoLineBreak(rest)
  {}

  lemma GreedyIsFound(s: string, w0: string, w1: string, token: string, w2: string, rest: string)
    requires ReadsGreedily(s, w0, w1, token, w2, rest)
    ensures MatchDirective(s) == Some((token, rest))
  {
    var c := token + (w2 + rest);
    var b := w1 + c;
    assert s[2..] == w0 + (PREFIX + b);
    assert (PREFIX + b)[0] == PREFIX[0] == 's';
    TrimLeftRun(w0, PREFIX + b, IsReSpace);
    assert (PREFIX + b)[|PREFIX|..] == b && PREFIX <= PREFIX + b;
    assert c[0] == token[0];
    TrimLeftRun(w1, c, IsReSpace);
    TokenRun(token, w2 + rest);
    assert c[|token|..] == w2 + rest;
    TrimLeftRun(w2, rest, IsReSpace);
    MatchAfter(s, b, c, token, rest);
  }

  lemma ReadOff(s: string)
    requires MatchDirective(s).Some?
    ensures exists w0, w1, token, w2, rest :: ReadsDirective(s, w0, w1, token, w2, rest)
  {
    var a := TrimLeft(s[2..], IsReSpace);
    var b := a[|PREFIX|..];
    var w0 := Trimming(s[2..]);
    var w1 := Trimming(b);
    var token, w2, rest := ReadOffText(TrimLeft(b, IsReSpace));
    Reassemble(s, w0, a, b, w1, token + (w2 + rest));
    assert ReadsDirective(s, w0, w1, token, w2, rest);
  }

  lemma Reassemble(s: string, w0: string, a: string, b: string, w1: string, c: string)
    requires "//" <= s && s[2..] == w0 + a && PREFIX <= a && b == a[|PREFIX|..] && b == w1 + c
    ensures s == "//" + (w0 + (PREFIX + (w1 + c)))
  {
    assert s == s[..2] + s[2..] && s[..2] == "//";
    assert a == a[..|PREFIX|] + b && a[..|PREFIX|] == PREFIX;
  }

  lemma Trimming(s: string) returns (w: string)
    ensures s == w + TrimLeft(s, IsReSpace) && All(w, IsReSpace)
  {
    w := s[..|s| - |TrimLeft(s, IsReSpace)|];
  }

  lemma ReadOffText(c: string) returns (token: string, w: string, rest: string)
    ensures c == token + (w + rest) && token == TokenOf(c) && All(w, IsReSpace)
    ensures rest == TrimLeft(c[|token|..], IsReSpace)
  {
    token := TokenOf(c);
    var tail := c[|token|..];
    assert c == token + tail;
    w := Trimming(tail);
    rest := TrimLeft(tail, IsReSpace);
  }

  lemma DirectiveIsFound(s: string, w0: string, w1: string, token: string, w2: string, rest: string)
    requires ReadsDirective(s, w0, w1, token, w2, rest)
    ensures MatchDirective(s).Some?
  {
    var c := token + (w2 + rest);
    var b := w1 + c;
    assert s[2..] == w0 + (PREFIX + b);
    assert (PREFIX + b)[0] == PREFIX[0] == 's';
    TrimLeftRun(w0, PREFIX + b, IsReSpace);
    assert (PREFIX + b)[|PREFIX|..] == b && PREFIX <= PREFIX + b;
    assert c[0] == token[0];
    TrimLeftRun(w1, c, IsReSpace);
    LeftoverHasNoLineBreak(token, w2, rest);
    var found := TokenOf(c);
    MatchAfter(s, b, c, found, TrimLeft(c[|found|..], IsReSpace));
  }

  lemma LeftoverHasNoLineBreak(token: string, w2: string, rest: string)
    requires All(token, IsTokenChar) && All(w2, IsReSpace) && NoLineBreak(rest)
    ensures var c := token + (w2 + rest); NoLineBreak(TrimLeft(c[|TokenOf(c)|..], IsReSpace))
  {
    var c := token + (w2 + rest);
    if w2 == "" {
      TokenCovers(token, rest);
      assert c == token + rest;
      var left := c[|TokenOf(c)|..];
      assert forall i | 0 <= i < |left| :: left[i] == rest[|TokenOf(c)| - |token| + i];
    } else {
      TokenRun(token, w2 + rest);
      var left := c[|token|..];
      assert left == w2 + rest;
      TrimsAtLeast(w2, rest);
    }
  }

  lemma {:induction false} TokenCovers(token: string, rest: string)
    requires All(token, IsTokenChar)
    ensures |TokenOf(token + rest)| >= |token|
  {
    if token != "" {
      assert (token + rest)[1..] == token[1..] + rest;
      TokenCovers(token[1..], rest);
    }
  }

  lemma {:induction false} TrimsAtLeast(w: string, rest: string)
    requires All(w, IsReSpace) && NoLineBreak(rest)
    ensures NoLineBreak(TrimLeft(w + rest, IsReSpace))
  {
    if w == "" {
      assert w + rest == rest;
    } else {
      assert (w + rest)[1..] == w[1..] + rest;
      TrimsAtLeast(w[1..], rest);
    }
  }
}
