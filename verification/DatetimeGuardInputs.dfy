/** The guards of particular formats: two that reject every rendering, two with an unpadded month, and the
    default. */
module DatetimeGuardInputs {
  import opened DatetimeGuard
  import opened DatetimeGuardDigits
  import opened DatetimeGuardLexing
  import opened DatetimeGuardPieces
  import opened DatetimeGuardProof
  import opened DatetimeQuotes
  import opened DatetimeRendering
  import opened DatetimeSql
  import opened DatetimeTokens
  import opened LocalizedFormat
  import opened PostgresRegex
  import opened SqlLiteral
  import opened Strings
  import opened Wrappers

  lemma NoLocalizedToken(s: string)
    requires s != "" && 'L' !in s && 'l' !in s
    ensures ExpandLocalized(s) == s
  {
    forall token | token in LOCALIZED_TOKENS ensures token != "" && token[0] !in s {
      TokensStartWithL(token);
    }
    hide LocalizedExpansion;
    RenderCopies(LOCALIZED_TOKENS, false, s, "", LocalizedExpansion);
    assert s + "" == s;
  }

  predicate Alphanumeric(c: char) {
    IsAlpha(c) || IsDigit(c)
  }

  lemma SupportedAreAlphanumeric(token: string)
    requires token in SUPPORTED_TOKENS
    ensures token != "" && IsAlpha(token[0]) && forall i :: 0 <= i < |token| ==> Alphanumeric(token[i])
  {
  }

  lemma FoundIsNoLonger(token: string, rest: string, found: string)
    requires found <= token + rest && |found| >= |token| && forall i :: 0 <= i < |found| ==> Alphanumeric(found[i])
    requires rest == "" || !Alphanumeric(rest[0])
    ensures found == token
  {
    var s := token + rest;
    assert forall i :: 0 <= i < |found| ==> Alphanumeric(s[i]);
    assert |s| > |token| ==> !Alphanumeric(s[|token|]);
    assert s[..|token|] == token;
  }

  /** A token in front of a separator is found. */
  lemma ScanTokenBefore(prevIsAlpha: bool, token: string, rest: string)
    requires token in SUPPORTED_TOKENS && 2 <= |token| <= MAX_TOKEN_LENGTH
    requires rest == "" || !Alphanumeric(rest[0])
    ensures Scan(SUPPORTED_TOKENS, prevIsAlpha, token + rest)
         == [Token(token)] + Scan(SUPPORTED_TOKENS, IsAlpha(token[|token| - 1]), rest)
  {
    hide LongestPrefix, Scan;
    var s := token + rest;
    assert s[..|token|] == token && s[|token|..] == rest;
    LongestPrefixIsLongest(SUPPORTED_TOKENS, s, MAX_TOKEN_LENGTH, |token|);
    var found := LongestPrefix(SUPPORTED_TOKENS, s, MAX_TOKEN_LENGTH).value;
    SupportedAreAlphanumeric(found);
    FoundIsNoLonger(token, rest, found);
    ScanToken(SUPPORTED_TOKENS, prevIsAlpha, s, token);
  }

  lemma ScanSeparator(prevIsAlpha: bool, c: char, rest: string)
    requires !IsAlpha(c)
    ensures Scan(SUPPORTED_TOKENS, prevIsAlpha, [c] + rest) == [Literal(c)] + Scan(SUPPORTED_TOKENS, false, rest)
  {
    hide Scan;
    var s := [c] + rest;
    var token := TokenAt(SUPPORTED_TOKENS, prevIsAlpha, s);
    if token.Some? { SupportedAreAlphanumeric(token.value); }
    ScanChar(SUPPORTED_TOKENS, prevIsAlpha, s);
    assert s[1..] == rest;
  }

  lemma ItemsAreScanned(literal: string)
    requires ExpandLocalized(literal) == literal
    ensures FormatItems(literal) == Scan(SUPPORTED_TOKENS, false, literal)
  {
  }

  lemma NoDoubledQuote(s: string)
    requires '\'' !in s
    ensures !HasDoubledQuote(s)
  {
    if |s| >= 2 { NoDoubledQuote(s[1..]); }
  }

  // ---------- a letter that swallows a token ----------

  lemma NoSupportedTokenStartsWithT(token: string)
    requires token in SUPPORTED_TOKENS
    ensures token != "" && token[0] != 'T'
  {
  }

  lemma ScanT(rest: string)
    ensures Scan(SUPPORTED_TOKENS, false, ['T'] + rest) == [Literal('T')] + Scan(SUPPORTED_TOKENS, true, rest)
  {
    hide Scan;
    var s := ['T'] + rest;
    var token := TokenAt(SUPPORTED_TOKENS, false, s);
    if token.Some? { NoSupportedTokenStartsWithT(token.value); }
    ScanChar(SUPPORTED_TOKENS, false, s);
    assert s[1..] == rest;
  }

  lemma IsoSplits()
    ensures "THH" == ['T'] + ("HH" + "") && "HH" in SUPPORTED_TOKENS && MAX_TOKEN_LENGTH == 5
  {
  }

  /** The hours of ISO 8601, behind their letter `T`. */
  lemma IsoItems()
    ensures FormatItems("THH") == [Literal('T'), Token("HH")]
  {
    NoLocalizedToken("THH");
    hide *;
    IsoSplits();
    ItemsAreScanned("THH");
    ScanT("HH" + "");
    ScanTokenBefore(true, "HH", "");
    NothingToScan(SUPPORTED_TOKENS, IsAlpha("HH"[|"HH"| - 1]));
  }

  lemma IsoIsPadded(upper: char -> string, items: seq<Item>)
    requires items == [Literal('T'), Token("HH")]
    ensures PaddedFormat(upper, items) && TokenSwallowed(items)
  {
    assert "HH" in ALIASES;
    assert Swallows(items[0], items[1]);
  }

  lemma SwallowedDoesNotFit(raw: string)
    requires TokenSwallowed(FormatItems(raw)) && '\'' !in raw
    ensures !GuardFits(raw) && UndoubleQuotes(raw) == raw
  {
    NoDoubledQuote(raw);
    UndoubleCounts(raw);
  }

  /** The guard of that format rejects the rendering of every datetime. */
  lemma IsoHoursAreRejected(upper: char -> string, t: DateTime)
    ensures !GuardAccepts(upper, Some(Quote("THH")), RenderAt(FormatItems("THH"), t))
  {
    assert '\'' !in "THH";
    hide *;
    IsoItems();
    IsoIsPadded(upper, FormatItems("THH"));
    SwallowedDoesNotFit("THH");
    InnerOfQuote("THH");
    QuotedNeedsNoTrim(Quote("THH"));
    GuardCompleteness(upper, Quote("THH"), t, "");
  }

  // ---------- a quote ----------

  lemma QuotedDaySplits()
    ensures "DD''" == "DD" + (['\''] + (['\''] + "")) && "DD'" == "DD" + ['\'']
    ensures "DD" in SUPPORTED_TOKENS && MAX_TOKEN_LENGTH == 5 && !IsAlpha('\'') && !Alphanumeric('\'')
  {
  }

  lemma TokenAndQuotes(token: string, literal: string)
    requires token in SUPPORTED_TOKENS && 2 <= |token| <= MAX_TOKEN_LENGTH
    requires literal == token + (['\''] + (['\''] + "")) && ExpandLocalized(literal) == literal
    requires !IsAlpha('\'') && !Alphanumeric('\'')
    ensures FormatItems(literal) == [Token(token), Literal('\''), Literal('\'')]
  {
    hide *;
    ItemsAreScanned(literal);
    ScanTokenBefore(false, token, ['\''] + (['\''] + ""));
    ScanSeparator(IsAlpha(token[|token| - 1]), '\'', ['\''] + "");
    ScanSeparator(false, '\'', "");
    NothingToScan(SUPPORTED_TOKENS, false);
  }

  lemma QuotedDayCharacters()
    ensures 'L' !in "DD''" && 'l' !in "DD''"
  {
  }

  lemma QuotedDayItems()
    ensures FormatItems("DD''") == [Token("DD"), Literal('\''), Literal('\'')]
  {
    hide *;
    QuotedDayCharacters();
    NoLocalizedToken("DD''");
    QuotedDaySplits();
    TokenAndQuotes("DD", "DD''");
  }

  lemma {:induction false} DoubledAtEnd(s: string)
    ensures HasDoubledQuote(s + "''")
  {
    if s == "" {
      assert s + "''" == "''";
    } else {
      DoubledAtEnd(s[1..]);
      assert (s + "''")[1..] == s[1..] + "''";
    }
  }

  lemma {:induction false} DoublePrefix(s: string)
    requires '\'' !in s
    ensures DoubleQuotes(s + "'") == s + "''"
  {
    if s == "" {
      assert s + "'" == "'" && s + "''" == "''";
      assert DoubleQuotes("'") == "''" + DoubleQuotes("");
    } else {
      DoublePrefix(s[1..]);
      assert (s + "'")[1..] == s[1..] + "'" && s == [s[0]] + s[1..];
      assert s + "''" == [s[0]] + (s[1..] + "''");
    }
  }

  lemma QuotedDayQuotes()
    ensures HasDoubledQuote("DD''") && DoubleQuotes("DD'") == "DD''" && UndoubleQuotes("DD''") == "DD'"
  {
    assert '\'' !in "DD" && "DD''" == "DD" + "''" && "DD'" == "DD" + "'";
    hide *;
    DoubledAtEnd("DD");
    DoublePrefix("DD");
    UndoubleDouble("DD'");
  }

  lemma QuotedDayIsPadded(upper: char -> string, items: seq<Item>)
    requires items == [Token("DD"), Literal('\''), Literal('\'')]
    ensures PaddedFormat(upper, items)
  {
    assert "DD" in TEMPLATES;
  }

  lemma DoubledDoesNotFit(raw: string)
    requires HasDoubledQuote(raw)
    ensures !GuardFits(raw)
  {
  }

  /** A format with a quote, written in its expression as SQL has it: the guard rejects the rendering of every
      datetime. */
  lemma DoubledQuoteIsRejected(upper: char -> string, t: DateTime)
    ensures Quote("DD''") == ToSqlStringLiteral("DD'")
    ensures ResolveFormatLiteral(Some(Quote("DD''"))) == Some("DD'")
    ensures !GuardAccepts(upper, Some(Quote("DD''")), RenderAt(FormatItems("DD'"), t))
  {
    QuotedDayQuotes();
    assert Quote("DD''") == ToSqlStringLiteral("DD'");
    hide *;
    QuotedDayItems();
    QuotedDayIsPadded(upper, FormatItems("DD''"));
    DoubledDoesNotFit("DD''");
    InnerOfQuote("DD''");
    QuotedNeedsNoTrim(Quote("DD''"));
    GuardCompleteness(upper, Quote("DD''"), t, "");
  }

  // ---------- an unpadded month ----------

  /** No supported token longer than `token` starts `s`. */
  predicate LongestIn(token: string, s: string) {
    && token in SUPPORTED_TOKENS && 2 <= |token| <= MAX_TOKEN_LENGTH && token <= s
    && forall k :: |token| < k <= MAX_TOKEN_LENGTH && k <= |s| ==> s[..k] !in SUPPORTED_TOKENS
  }

  lemma ScanLongest(prevIsAlpha: bool, s: string, token: string)
    requires token != "" && |token| <= |s| && LongestIn(token, s)
    ensures Scan(SUPPORTED_TOKENS, prevIsAlpha, s)
         == [Token(token)] + Scan(SUPPORTED_TOKENS, IsAlpha(token[|token| - 1]), s[|token|..])
  {
    hide LongestPrefix, Scan;
    assert s[..|token|] == token;
    LongestPrefixIsLongest(SUPPORTED_TOKENS, s, MAX_TOKEN_LENGTH, |token|);
    var found := LongestPrefix(SUPPORTED_TOKENS, s, MAX_TOKEN_LENGTH).value;
    assert found == s[..|found|];
    ScanToken(SUPPORTED_TOKENS, prevIsAlpha, s, token);
  }

  lemma ScanSingle(token: string)
    requires token in SUPPORTED_TOKENS && |token| == 1
    ensures Scan(SUPPORTED_TOKENS, false, token) == [Token(token)]
  {
    hide LongestPrefix, Scan;
    assert token[..1] == token;
    LongestPrefixIsLongest(SUPPORTED_TOKENS, token, MAX_TOKEN_LENGTH, 1);
    assert LongestPrefix(SUPPORTED_TOKENS, token, MAX_TOKEN_LENGTH).value == token;
    ScanToken(SUPPORTED_TOKENS, false, token, token);
    NothingToScan(SUPPORTED_TOKENS, IsAlpha(token[0]));
  }

  lemma UnpaddedMonthItems()
    ensures FormatItems("M") == [Token("M")]
  {
    NoLocalizedToken("M");
    assert "M" in SUPPORTED_TOKENS && |"M"| == 1;
    hide *;
    ItemsAreScanned("M");
    ScanSingle("M");
  }

  lemma TokensSwallowNothing(items: seq<Item>)
    requires forall i :: 0 <= i < |items| ==> items[i].Token?
    ensures !TokenSwallowed(items)
  {
    if |items| >= 2 { TokensSwallowNothing(items[1..]); }
  }

  lemma ClockTokensFit(upper: char -> string, raw: string, items: seq<Item>)
    requires FormatItems(raw) == items && forall i :: 0 <= i < |items| ==> items[i].Token? && Numeric(items[i].name)
    requires '\'' !in raw
    ensures ClockFormat(upper, FormatItems(raw)) && NoDigitLiterals(FormatItems(raw)) && GuardFits(raw)
    ensures UndoubleQuotes(raw) == raw
  {
    TokensSwallowNothing(items);
    hide Numeric, UndoubleQuotes, FormatItems, TokenSwallowed;
    NoDoubledQuote(raw);
    UndoubleCounts(raw);
  }

  lemma MonthDigits(t: DateTime)
    ensures EnoughDigits([Token("M")], t, 0) <==> t.month >= 10
  {
    assert [Token("M")][1..] == [];
    assert MinWidth("M") == 2;
  }

  /** The guard of a month without leading zero accepts the renderings of the last three months only. */
  lemma UnpaddedMonthNeedsTwoDigits(upper: char -> string, t: DateTime)
    ensures GuardAccepts(upper, Some(Quote("M")), RenderAt(FormatItems("M"), t)) <==> t.month >= 10
  {
    assert '\'' !in "M" && Numeric("M");
    hide *;
    UnpaddedMonthItems();
    ClockTokensFit(upper, "M", [Token("M")]);
    MonthDigits(t);
    InnerOfQuote("M");
    QuotedNeedsNoTrim(Quote("M"));
    GuardExact(upper, Quote("M"), t, "");
  }

  lemma LendingSplits()
    ensures "SSSHH24M"[3..] == "HH24M" && "HH24M"[4..] == "M"
    ensures "SSS" <= "SSSHH24M" && "HH24" <= "HH24M" && {"SSS", "HH24", "M"} <= SUPPORTED_TOKENS
    ensures |"SSS"| == 3 && |"HH24"| == 4 && |"M"| == 1 && MAX_TOKEN_LENGTH == 5
    ensures !IsAlpha("HH24"[|"HH24"| - 1])
  {
  }

  lemma MillisecondsAreLongest()
    ensures LongestIn("SSS", "SSSHH24M")
  {
    assert "SSSHH24M"[..4] == "SSSH" && "SSSHH24M"[..5] == "SSSHH";
  }

  lemma HoursAreLongest()
    ensures LongestIn("HH24", "HH24M")
  {
    assert "HH24M"[..5] == "HH24M";
  }

  lemma AdjacentTokens(a: string, b: string, c: string, literal: string, rest: string)
    requires ExpandLocalized(literal) == literal
    requires a != "" && |a| <= |literal| && LongestIn(a, literal) && literal[|a|..] == rest
    requires b != "" && |b| <= |rest| && LongestIn(b, rest) && rest[|b|..] == c && !IsAlpha(b[|b| - 1])
    requires c in SUPPORTED_TOKENS && |c| == 1
    ensures FormatItems(literal) == [Token(a), Token(b), Token(c)]
  {
    hide *;
    ItemsAreScanned(literal);
    ScanLongest(false, literal, a);
    ScanLongest(IsAlpha(a[|a| - 1]), rest, b);
    ScanSingle(c);
  }

  lemma LendingItems()
    ensures FormatItems("SSSHH24M") == [Token("SSS"), Token("HH24"), Token("M")]
  {
    NoLocalizedToken("SSSHH24M");
    LendingSplits();
    MillisecondsAreLongest();
    HoursAreLongest();
    hide *;
    AdjacentTokens("SSS", "HH24", "M", "SSSHH24M", "HH24M");
  }

  lemma AcceptsWhenEnough(upper: char -> string, raw: string, items: seq<Item>, t: DateTime)
    requires FormatItems(raw) == items && forall i :: 0 <= i < |items| ==> items[i].Token? && Numeric(items[i].name)
    requires '\'' !in raw && EnoughDigits(items, t, 0)
    ensures GuardAccepts(upper, Some(Quote(raw)), RenderAt(FormatItems(raw), t))
  {
    hide *;
    ClockTokensFit(upper, raw, items);
    FitsWhenEnough(raw, t);
    InnerOfQuote(raw);
    QuotedNeedsNoTrim(Quote(raw));
    GuardExact(upper, Quote(raw), t, "");
  }

  lemma FitsWhenEnough(raw: string, t: DateTime)
    requires GuardFits(raw) && EnoughDigits(FormatItems(raw), t, 0)
    ensures RenderingFits(raw, t)
  {
  }

  lemma LendingHasEnough(items: seq<Item>, t: DateTime)
    requires items == [Token("SSS"), Token("HH24"), Token("M")]
    ensures forall i :: 0 <= i < |items| ==> items[i].Token? && Numeric(items[i].name)
    ensures EnoughDigits(items, t, 0)
  {
    MillisecondItems();
    hide *;
    EnoughWithMilliseconds(t);
  }

  lemma LendingHoldsNoQuote()
    ensures '\'' !in "SSSHH24M"
  {
  }

  /** With milliseconds in front of it, such a month is accepted throughout the year. */
  lemma MillisecondsLendDigits(upper: char -> string, t: DateTime)
    ensures GuardAccepts(upper, Some(Quote("SSSHH24M")), RenderAt(FormatItems("SSSHH24M"), t))
  {
    hide *;
    LendingItems();
    LendingHoldsNoQuote();
    LendingHasEnough(FormatItems("SSSHH24M"), t);
    AcceptsWhenEnough(upper, "SSSHH24M", FormatItems("SSSHH24M"), t);
  }

  // ---------- a letter that is taken for a token ----------

  lemma YearLetterItems()
    ensures FormatItems("Y") == [Literal('Y')] && NormalizeLiteral("Y") == "Y"
  {
    NoLocalizedToken("Y");
    var token := TokenAt(SUPPORTED_TOKENS, false, "Y");
    if token.Some? {
      NoSupportedTokenIsY(token.value);
    }
    ScanChar(SUPPORTED_TOKENS, false, "Y");
    NothingToScan(SUPPORTED_TOKENS, IsAlpha('Y'));
    assert "Y"[1..] == "";
    assert Render([Literal('Y')], ToPostgres) == ['Y'] + Render([], ToPostgres);
  }

  lemma NoSupportedTokenIsY(token: string)
    requires token in SUPPORTED_TOKENS && |token| == 1
    ensures token != "Y"
  {
  }

  lemma YearLetterPieces(upper: char -> string)
    ensures GuardPieces(upper, "Y") == [Once(Digit)]
  {
    var s := "Y";
    assert ToUpperCase(upper, s[1..]) == "" && ToUpperCase(upper, s) == "Y";
    assert s[..1] == "Y";
    LongestPrefixIsLongest(GUARD_TOKENS, s, MAX_TOKEN_LENGTH, 1);
    assert LongestPrefix(GUARD_TOKENS, s, MAX_TOKEN_LENGTH) == Some("Y");
    assert Drop(s, 1) == "";
  }

  /** A lone `Y` is a literal to the first lexer and a digit to the second: the guard rejects what is written. */
  lemma YearLetterIsRejected(upper: char -> string)
    ensures FormatItems("Y") == [Literal('Y')] && !GuardAccepts(upper, Some(Quote("Y")), "Y")
  {
    YearLetterItems();
    YearLetterPieces(upper);
    InnerOfQuote("Y");
    QuotedNeedsNoTrim(Quote("Y"));
    AcceptsAsked(upper, Quote("Y"), "Y");
    assert Asked(upper, "Y") == [Once(Digit)] + GUARD_END;
    hide *;
    MatchOnce(Digit, GUARD_END, "Y");
    NoDigitY();
  }

  lemma NoDigitY()
    ensures !AtomAccepts(Digit, "Y"[0])
  {
  }

  // ---------- the default format ----------

  lemma ScanPair(prevIsAlpha: bool, token: string, c: char, rest: string)
    requires token in SUPPORTED_TOKENS && 2 <= |token| <= MAX_TOKEN_LENGTH && !Alphanumeric(c)
    ensures Scan(SUPPORTED_TOKENS, prevIsAlpha, token + ([c] + rest))
         == [Token(token), Literal(c)] + Scan(SUPPORTED_TOKENS, false, rest)
  {
    hide Scan;
    ScanTokenBefore(prevIsAlpha, token, [c] + rest);
    ScanSeparator(IsAlpha(token[|token| - 1]), c, rest);
  }

  lemma DefaultSplits()
    ensures DEFAULT_FORMAT == "YYYY" + (['-'] + ("MM" + (['-'] + ("DD" + ""))))
  {
    var tail := ['-'] + ("DD" + "");
    assert tail == "-DD";
    assert "MM" + tail == "MM-DD";
    assert ['-'] + "MM-DD" == "-MM-DD";
    assert DEFAULT_FORMAT == "YYYY" + "-MM-DD";
  }

  lemma DefaultTokens()
    ensures "YYYY" in SUPPORTED_TOKENS && "MM" in SUPPORTED_TOKENS && "DD" in SUPPORTED_TOKENS
    ensures MAX_TOKEN_LENGTH == 5 && !Alphanumeric('-')
  {
  }

  lemma DefaultCharacters()
    ensures 'L' !in DEFAULT_FORMAT && 'l' !in DEFAULT_FORMAT && '\'' !in DEFAULT_FORMAT && DEFAULT_FORMAT != ""
  {
  }

  lemma ThreeTokens(a: string, b: string, c: string, separator: char, literal: string)
    requires a in SUPPORTED_TOKENS && b in SUPPORTED_TOKENS && c in SUPPORTED_TOKENS
    requires 2 <= |a| <= MAX_TOKEN_LENGTH && 2 <= |b| <= MAX_TOKEN_LENGTH && 2 <= |c| <= MAX_TOKEN_LENGTH
    requires !Alphanumeric(separator) && ExpandLocalized(literal) == literal
    requires literal == a + ([separator] + (b + ([separator] + (c + ""))))
    ensures FormatItems(literal) == [Token(a), Literal(separator), Token(b), Literal(separator), Token(c)]
  {
    hide *;
    ItemsAreScanned(literal);
    ScanPair(false, a, separator, b + ([separator] + (c + "")));
    ScanPair(false, b, separator, c + "");
    ScanTokenBefore(false, c, "");
    NothingToScan(SUPPORTED_TOKENS, IsAlpha(c[|c| - 1]));
  }

  lemma DefaultItems()
    ensures FormatItems(DEFAULT_FORMAT) == [Token("YYYY"), Literal('-'), Token("MM"), Literal('-'), Token("DD")]
  {
    hide *;
    DefaultCharacters();
    NoLocalizedToken(DEFAULT_FORMAT);
    DefaultSplits();
    DefaultTokens();
    ThreeTokens("YYYY", "MM", "DD", '-', DEFAULT_FORMAT);
  }

  lemma OwnTemplates()
    ensures "YYYY" in TEMPLATES && "MM" in TEMPLATES && "DD" in TEMPLATES
  {
  }

  /** TEMPLATES written as they are, between separators, with no letter in front of them. */
  ghost predicate Dashed(items: seq<Item>) {
    forall i :: 0 <= i < |items| ==>
      match items[i] case Token(name) => name in TEMPLATES case Literal(c) => c == '-'
  }

  lemma DefaultIsDashed()
    ensures Dashed(FormatItems(DEFAULT_FORMAT))
  {
    OwnTemplates();
    DefaultItems();
    hide FormatItems;
  }

  lemma {:induction false} DashesSwallowNothing(items: seq<Item>)
    requires Dashed(items)
    ensures !TokenSwallowed(items)
  {
    if |items| >= 2 {
      DashesSwallowNothing(items[1..]);
      assert items[0].Literal? ==> items[0].c == '-';
    }
  }

  lemma DashedIsPadded(upper: char -> string, items: seq<Item>)
    requires Dashed(items)
    ensures PaddedFormat(upper, items)
  {
    hide Unpadded;
    forall i | 0 <= i < |items|
      ensures match items[i] case Token(name) => name in PADDED_TOKENS case Literal(c) => Separator(upper, c)
    {
    }
  }

  lemma {:induction false} DashedTexts(items: seq<Item>)
    requires Dashed(items)
    ensures Render(items, ToPostgres) == Render(items, name => name)
  {
    if items != [] {
      hide ToPostgres;
      DashedTexts(items[1..]);
      if items[0].Token? { TemplateIsOwn(items[0].name); }
    }
  }

  /** Such a format is its own template, and its guard fits. */
  lemma DashedFits(literal: string)
    requires Dashed(FormatItems(literal)) && ExpandLocalized(literal) == literal && '\'' !in literal
    ensures GuardFits(literal) && UndoubleQuotes(literal) == literal && NormalizeLiteral(literal) == literal
  {
    DashesSwallowNothing(FormatItems(literal));
    DashedTexts(FormatItems(literal));
    ScanSpellsInput(SUPPORTED_TOKENS, false, literal);
    NoDoubledQuote(literal);
    UndoubleCounts(literal);
    hide Render, Scan, ExpandLocalized;
  }

  lemma DefaultFits()
    ensures GuardFits(DEFAULT_FORMAT) && UndoubleQuotes(DEFAULT_FORMAT) == DEFAULT_FORMAT
    ensures NormalizeLiteral(DEFAULT_FORMAT) == DEFAULT_FORMAT && DoubleQuotes(DEFAULT_FORMAT) == DEFAULT_FORMAT
  {
    hide *;
    DefaultCharacters();
    NoLocalizedToken(DEFAULT_FORMAT);
    DefaultIsDashed();
    DashedFits(DEFAULT_FORMAT);
    PlainDoubles(DEFAULT_FORMAT);
  }

  lemma PlainDoubles(s: string)
    requires '\'' !in s
    ensures DoubleQuotes(s) == s
  {
    if s != "" { PlainDoubles(s[1..]); }
  }

  lemma NormalizedDefault(expr: Option<string>)
    requires expr.None? || Trim(expr.value) == ""
    ensures ResolveFormatLiteral(expr) == Some(DEFAULT_FORMAT)
    ensures NormalizeFormatExpression(expr) == Quote(DEFAULT_FORMAT)
  {
    hide FormatItems, NormalizeLiteral, Trim;
  }

  lemma NormalizedLiteral(literal: string)
    ensures NormalizeFormatExpression(Some(Quote(literal))) == Quote(DoubleQuotes(NormalizeLiteral(literal)))
  {
    InnerOfQuote(literal);
    QuotedNeedsNoTrim(Quote(literal));
    hide NormalizeLiteral, Trim;
    assert Quote(literal) != "";
  }

  lemma SameNormal(upper: char -> string, a: Option<string>, b: Option<string>, text: string)
    requires NormalizeFormatExpression(a) == NormalizeFormatExpression(b)
    ensures GuardAccepts(upper, a, text) == GuardAccepts(upper, b, text)
  {
  }

  /** An absent or blank expression stands for the default format, whose guard accepts every rendering. */
  lemma DefaultGuardAccepts(upper: char -> string, expr: Option<string>, t: DateTime, trailing: string)
    requires expr.None? || Trim(expr.value) == ""
    ensures ResolveFormatLiteral(expr) == Some(DEFAULT_FORMAT)
    ensures GuardAccepts(upper, expr, RenderAt(FormatItems(DEFAULT_FORMAT), t) + trailing)
  {
    hide *;
    var quoted, text := Quote(DEFAULT_FORMAT), RenderAt(FormatItems(DEFAULT_FORMAT), t) + trailing;
    NormalizedDefault(expr);
    NormalizedLiteral(DEFAULT_FORMAT);
    DefaultFits();
    SameNormal(upper, expr, Some(quoted), text);
    DefaultIsDashed();
    DashedIsPadded(upper, FormatItems(DEFAULT_FORMAT));
    InnerOfQuote(DEFAULT_FORMAT);
    QuotedNeedsNoTrim(quoted);
    GuardCompleteness(upper, quoted, t, trailing);
  }
}
