/** SQL string literals: writing, reading, and the trimming JavaScript does before reading. */
module SqlLiteral {
  import opened Wrappers

  /** The characters `String.prototype.trim` and `/\s/` take for white space. */
  predicate IsJsWhitespace(c: char) {
    var n := c as int;
    || 9 <= n <= 13 || n == 32 || n == 0xA0 || n == 0x1680 || 0x2000 <= n <= 0x200A
    || n == 0x2028 || n == 0x2029 || n == 0x202F || n == 0x205F || n == 0x3000 || n == 0xFEFF
  }

  /** One by one: the white space and the line terminators of ECMAScript. */
  lemma WhitespaceExact(c: char)
    ensures IsJsWhitespace(c) <==>
            c as int in {
              0x09, 0x0A, 0x0B, 0x0C, 0x0D, 0x20, 0xA0, 0x1680,
              0x2000, 0x2001, 0x2002, 0x2003, 0x2004, 0x2005, 0x2006, 0x2007, 0x2008, 0x2009, 0x200A,
              0x2028, 0x2029, 0x202F, 0x205F, 0x3000, 0xFEFF}
  {
  }

  function TrimStart(s: string): string {
    if s != "" && IsJsWhitespace(s[0]) then TrimStart(s[1..]) else s
  }

  function TrimEnd(s: string): string {
    if s != "" && IsJsWhitespace(s[|s| - 1]) then TrimEnd(s[..|s| - 1]) else s
  }

  function Trim(s: string): string {
    TrimEnd(TrimStart(s))
  }

  predicate IsQuoted(s: string) {
    s != "" && s[0] == '\'' && s[|s| - 1] == '\''
  }

  /** `slice(1, -1)`. */
  function Inner(s: string): string {
    if |s| >= 2 then s[1..|s| - 1] else ""
  }

  function Quote(s: string): string {
    ['\''] + s + ['\'']
  }

  /** `replace(/'/g, "''")`. */
  function DoubleQuotes(s: string): string {
    if s == "" then "" else (if s[0] == '\'' then "''" else [s[0]]) + DoubleQuotes(s[1..])
  }

  /** `replace(/''/g, "'")`. */
  function UndoubleQuotes(s: string): string {
    if s == "" then ""
    else if |s| >= 2 && s[0] == '\'' && s[1] == '\'' then "'" + UndoubleQuotes(s[2..])
    else [s[0]] + UndoubleQuotes(s[1..])
  }

  function ToSqlStringLiteral(literal: string): string {
    Quote(DoubleQuotes(literal))
  }

  function ParseSqlStringLiteral(expr: string): Option<string> {
    var trimmed := Trim(expr);
    if !IsQuoted(trimmed) then None else Some(UndoubleQuotes(Inner(trimmed)))
  }

  lemma QuotedNeedsNoTrim(s: string)
    requires IsQuoted(s)
    ensures Trim(s) == s
  {
  }

  predicate IsBlank(s: string) {
    forall i :: 0 <= i < |s| ==> IsJsWhitespace(s[i])
  }

  /** Nothing to trim at either end. */
  predicate IsTrimmed(s: string) {
    s == "" || (!IsJsWhitespace(s[0]) && !IsJsWhitespace(s[|s| - 1]))
  }

  lemma {:induction false} TrimStartStrips(a: string, s: string)
    requires IsBlank(a) && (s == "" || !IsJsWhitespace(s[0]))
    ensures TrimStart(a + s) == s
  {
    if a == "" {
      assert a + s == s;
    } else {
      TrimStartStrips(a[1..], s);
      assert (a + s)[1..] == a[1..] + s;
    }
  }

  lemma {:induction false} TrimEndStrips(s: string, b: string)
    requires IsBlank(b) && (s == "" || !IsJsWhitespace(s[|s| - 1]))
    ensures TrimEnd(s + b) == s
  {
    if b == "" {
      assert s + b == s;
    } else {
      TrimEndStrips(s, b[..|b| - 1]);
      assert (s + b)[..|s + b| - 1] == s + b[..|b| - 1];
    }
  }

  /** Trimming takes the white space at both ends, and no more. */
  lemma TrimStrips(a: string, s: string, b: string)
    requires IsBlank(a) && IsBlank(b) && IsTrimmed(s)
    ensures Trim(a + s + b) == s
  {
    if s == "" {
      TrimStartStrips(a + s + b, "");
      assert (a + s + b) + "" == a + s + b;
    } else {
      assert a + s + b == a + (s + b);
      TrimStartStrips(a, s + b);
      TrimEndStrips(s, b);
    }
  }

  lemma {:induction false} TrimStartEnds(s: string)
    ensures TrimStart(s) == "" || !IsJsWhitespace(TrimStart(s)[0])
  {
    if s != "" && IsJsWhitespace(s[0]) { TrimStartEnds(s[1..]); }
  }

  lemma {:induction false} TrimEndEnds(s: string)
    ensures TrimEnd(s) == "" || (TrimEnd(s)[0] == s[0] && !IsJsWhitespace(TrimEnd(s)[|TrimEnd(s)| - 1]))
  {
    if s != "" && IsJsWhitespace(s[|s| - 1]) { TrimEndEnds(s[..|s| - 1]); }
  }

  lemma TrimAgain(s: string)
    ensures IsTrimmed(Trim(s)) && Trim(Trim(s)) == Trim(s)
  {
    TrimStartEnds(s);
    TrimEndEnds(TrimStart(s));
    TrimStrips("", Trim(s), "");
    assert "" + Trim(s) + "" == Trim(s);
  }

  lemma InnerOfQuote(s: string)
    ensures IsQuoted(Quote(s)) && Inner(Quote(s)) == s
  {
  }

  lemma {:induction false} UndoubleDouble(s: string)
    ensures UndoubleQuotes(DoubleQuotes(s)) == s
  {
    if s != "" {
      var rest := DoubleQuotes(s[1..]);
      UndoubleDouble(s[1..]);
      if s[0] == '\'' {
        assert ("''" + rest)[2..] == rest;
      } else {
        assert ([s[0]] + rest)[1..] == rest;
      }
    }
  }

  /** A written literal reads back as itself. */
  lemma LiteralRoundTrip(s: string)
    ensures ParseSqlStringLiteral(ToSqlStringLiteral(s)) == Some(s)
  {
    InnerOfQuote(DoubleQuotes(s));
    QuotedNeedsNoTrim(ToSqlStringLiteral(s));
    UndoubleDouble(s);
  }

  // ---------- how many quotes a string holds ----------

  function QuoteCount(s: string): nat {
    if s == "" then 0 else (if s[0] == '\'' then 1 else 0) + QuoteCount(s[1..])
  }

  predicate HasDoubledQuote(s: string) {
    |s| >= 2 && ((s[0] == '\'' && s[1] == '\'') || HasDoubledQuote(s[1..]))
  }

  lemma {:induction false} QuoteCountConcat(a: string, b: string)
    ensures QuoteCount(a + b) == QuoteCount(a) + QuoteCount(b)
  {
    if a == "" {
      assert a + b == b;
    } else {
      QuoteCountConcat(a[1..], b);
      assert (a + b)[1..] == a[1..] + b;
    }
  }

  /** Undoubling drops a quote exactly when there is a doubled one, and otherwise changes nothing. */
  lemma {:induction false} UndoubleCounts(s: string)
    ensures QuoteCount(UndoubleQuotes(s)) <= QuoteCount(s)
    ensures HasDoubledQuote(s) ==> QuoteCount(UndoubleQuotes(s)) < QuoteCount(s)
    ensures !HasDoubledQuote(s) ==> UndoubleQuotes(s) == s
    decreases |s|
  {
    if |s| >= 2 && s[0] == '\'' && s[1] == '\'' {
      UndoubleCounts(s[2..]);
      QuoteCountConcat("'", UndoubleQuotes(s[2..]));
      assert s[1..][1..] == s[2..];
    } else if s != "" {
      UndoubleCounts(s[1..]);
      QuoteCountConcat([s[0]], UndoubleQuotes(s[1..]));
      assert s == [s[0]] + s[1..];
    }
  }
}
