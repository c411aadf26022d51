/** The parse guard of a datetime format: the normalized format is read a second time, by another
    token table and without regard to case, and turned into a regular expression. */
module DatetimeGuard {
  import opened DatetimeSql
  import opened DatetimeTokens
  import opened RegexEscape
  import opened SqlLiteral
  import opened Wrappers

  const GUARD_TOKENS: set<string> := {"HH24", "HH12", "HH", "AM", "MI", "SS", "MS", "YYYY", "YYY", "YY", "Y",
      "MM", "DD"}

  const OPTIONAL_TOKENS: set<string> := {"FM", "TM", "TH"}

  function GuardPattern(token: string): string {
    if token == "AM" then "[AaPp][Mm]"
    else if token == "MS" then "\\d{1,3}"
    else if token == "YYYY" then "\\d{4}"
    else if token == "YYY" then "\\d{3}"
    else if token == "Y" then "\\d"
    else "\\d{2}"
  }

  /** `toUpperCase` of one character. Beyond ASCII it follows the Unicode tables, which are a parameter:
      `upper` may map a character to several, as it does for the sharp s. */
  function UpperChar(upper: char -> string, c: char): string {
    if 'a' <= c <= 'z' then [(c as int - 32) as char]
    else if c as int < 128 then [c]
    else upper(c)
  }

  function ToUpperCase(upper: char -> string, s: string): string {
    if s == "" then "" else UpperChar(upper, s[0]) + ToUpperCase(upper, s[1..])
  }

  function Take(s: string, n: nat): string {
    if n <= |s| then s[..n] else s
  }

  function Drop(s: string, n: nat): string {
    if n <= |s| then s[n..] else ""
  }

  function CharPattern(c: char): string {
    if IsJsWhitespace(c) then "\\s" else EscapeRegexChar(c)
  }

  /** One turn of the guard loop: the pattern it appends and the number of characters it passes. */
  function GuardStep(upper: char -> string, s: string): (r: (string, nat))
    requires s != ""
    ensures r.1 >= 1
  {
    var upperRemaining := ToUpperCase(upper, s);
    match LongestPrefix(GUARD_TOKENS, upperRemaining, MAX_TOKEN_LENGTH)
    case Some(token) => (GuardPattern(token), |token|)
    case None =>
      if Take(upperRemaining, 2) in OPTIONAL_TOKENS then ("", 2) else (CharPattern(s[0]), 1)
  }

  function GuardBody(upper: char -> string, s: string): string
    decreases |s|
  {
    if s == "" then ""
    else
      var (pattern, width) := GuardStep(upper, s);
      pattern + GuardBody(upper, Drop(s, width))
  }

  function GuardRegex(upper: char -> string, formatExpr: Option<string>): Option<string> {
    match ParseSqlStringLiteral(NormalizeFormatExpression(formatExpr))
    case None => None
    case Some(literal) => Some("^" + GuardBody(upper, literal) + ".*$")
  }

  /** The guard loop. */
  method BuildDatetimeParseGuardRegex(upper: char -> string, formatExpr: Option<string>) returns (regex: Option<string>)
    ensures regex == GuardRegex(upper, formatExpr)
  {
    var literal := ParseSqlStringLiteral(NormalizeFormatExpression(formatExpr));
    if literal.None? {
      return None;
    }
    var pattern := GuardLoop(upper, literal.value);
    return Some(pattern + ".*$");
  }

  lemma GuardBodyAt(upper: char -> string, literal: string, i: nat, r: (string, nat))
    requires i < |literal| && r == GuardStep(upper, literal[i..])
    ensures GuardBody(upper, Drop(literal, i)) == r.0 + GuardBody(upper, Drop(literal, i + r.1))
  {
    assert Drop(literal[i..], r.1) == Drop(literal, i + r.1);
  }

  lemma GuardEnds(upper: char -> string, literal: string)
    ensures GuardBody(upper, Drop(literal, 0)) == GuardBody(upper, literal)
    ensures |literal| == 0 ==> GuardBody(upper, Drop(literal, 0)) == ""
  {
    hide GuardStep;
    assert literal[0..] == literal;
  }

  lemma GuardPastEnd(upper: char -> string, literal: string, i: nat)
    requires i >= |literal|
    ensures GuardBody(upper, Drop(literal, i)) == ""
  {
  }

  method GuardLoop(upper: char -> string, literal: string) returns (pattern: string)
    ensures pattern == "^" + GuardBody(upper, literal)
  {
    GuardEnds(upper, literal);
    hide *;
    pattern := "^";
    var i := 0;
    while i < |literal|
      invariant 0 <= i
      invariant i >= |literal| ==> GuardBody(upper, Drop(literal, i)) == ""
      invariant pattern + GuardBody(upper, Drop(literal, i)) == "^" + GuardBody(upper, literal)
    {
      var (piece, width) := GuardStep(upper, literal[i..]);
      GuardBodyAt(upper, literal, i, (piece, width));
      ConcatAssoc(pattern, piece, GuardBody(upper, Drop(literal, i + width)));
      pattern := pattern + piece;
      i := i + width;
      if i >= |literal| { GuardPastEnd(upper, literal, i); }
    }
  }
}
