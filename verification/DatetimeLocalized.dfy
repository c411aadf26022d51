/** What the localized tokens stand for, and the guards of the times of day among them. */
module DatetimeLocalized {
  import opened DatetimeGuard
  import opened DatetimeGuardDigits
  import opened DatetimeGuardInputs
  import opened DatetimeGuardLexing
  import opened DatetimeGuardProof
  import opened DatetimeQuotes
  import opened DatetimeRendering
  import opened DatetimeSql
  import opened DatetimeTokens
  import opened LocalizedFormat
  import opened SqlLiteral
  import opened Strings
  import opened Wrappers

  // ---------- scanning ----------

  predicate Ends(rest: string) {
    rest == "" || !Alphanumeric(rest[0])
  }

  /** A one-letter token that no letter touches is found. */
  lemma ScanSingleBefore(token: string, rest: string)
    requires token in SUPPORTED_TOKENS && |token| == 1 && Ends(rest)
    ensures Scan(SUPPORTED_TOKENS, false, token + rest)
         == [Token(token)] + Scan(SUPPORTED_TOKENS, IsAlpha(token[0]), rest)
  {
    hide LongestPrefix, Scan;
    var s := token + rest;
    assert s[..1] == token && s[1..] == rest;
    LongestPrefixIsLongest(SUPPORTED_TOKENS, s, MAX_TOKEN_LENGTH, 1);
    var found := LongestPrefix(SUPPORTED_TOKENS, s, MAX_TOKEN_LENGTH).value;
    SupportedAreAlphanumeric(found);
    FoundIsNoLonger(token, rest, found);
    ScanToken(SUPPORTED_TOKENS, false, s, token);
  }

  /** A token of any length where no letter stands in front of it. */
  lemma ScanNext(token: string, rest: string)
    requires token in SUPPORTED_TOKENS && 1 <= |token| <= MAX_TOKEN_LENGTH && Ends(rest)
    ensures Scan(SUPPORTED_TOKENS, false, token + rest)
         == [Token(token)] + Scan(SUPPORTED_TOKENS, IsAlpha(token[|token| - 1]), rest)
  {
    if |token| == 1 { ScanSingleBefore(token, rest); } else { ScanTokenBefore(false, token, rest); }
  }

  lemma SeparatorEnds(c: char, rest: string)
    requires !Alphanumeric(c)
    ensures Ends([c] + rest) && !IsAlpha(c)
  {
  }

  /** A token and the character behind it. */
  lemma ScanBoth(token: string, c: char, rest: string)
    requires token in SUPPORTED_TOKENS && 1 <= |token| <= MAX_TOKEN_LENGTH && !Alphanumeric(c)
    ensures Scan(SUPPORTED_TOKENS, false, token + ([c] + rest))
         == [Token(token), Literal(c)] + Scan(SUPPORTED_TOKENS, false, rest)
  {
    hide *;
    var text := [c] + rest;
    SeparatorEnds(c, rest);
    ScanNext(token, text);
    ScanSeparator(IsAlpha(token[|token| - 1]), c, rest);
    TwoItems(Token(token), Literal(c), Scan(SUPPORTED_TOKENS, false, rest));
  }

  lemma TwoItems(a: Item, b: Item, rest: seq<Item>)
    ensures [a] + ([b] + rest) == [a, b] + rest
  {
  }

  /** A localized token by itself is expanded. */
  lemma ExpandWhole(token: string)
    requires token in LOCALIZED_TOKENS
    ensures ExpandLocalized(token) == LocalizedExpansion(token)
  {
    LocalizedWidth(token);
    hide LongestPrefix, LocalizedExpansion;
    assert token[..|token|] == token;
    LongestPrefixIsLongest(LOCALIZED_TOKENS, token, MAX_TOKEN_LENGTH, |token|);
    assert LongestPrefix(LOCALIZED_TOKENS, token, MAX_TOKEN_LENGTH).value == token;
    ExpandStep(false, token);
    assert token[|token|..] == "";
    assert LocalizedExpansion(token) + "" == LocalizedExpansion(token);
  }

  lemma LocalizedWidth(token: string)
    requires token in LOCALIZED_TOKENS
    ensures 1 <= |token| <= MAX_TOKEN_LENGTH
  {
  }

  /** A token that can stand between separators. */
  predicate Stands(token: string) {
    token in SUPPORTED_TOKENS && 1 <= |token| <= MAX_TOKEN_LENGTH
  }

  predicate Parts(c: char) {
    !Alphanumeric(c)
  }

  /** The items of a localized token are those of its expansion. */
  lemma ItemsOfExpansion(token: string, expansion: string)
    requires token in LOCALIZED_TOKENS && LocalizedExpansion(token) == expansion
    ensures FormatItems(token) == Scan(SUPPORTED_TOKENS, false, expansion)
  {
    ExpandWhole(token);
    hide Scan, LocalizedExpansion, ExpandLocalized;
  }

  /** What is scanned of a text: items, and then those of the rest. */
  ghost predicate Scans(text: string, items: seq<Item>, rest: string) {
    Scan(SUPPORTED_TOKENS, false, text) == items + Scan(SUPPORTED_TOKENS, false, rest)
  }

  lemma ScansToken(token: string, c: char, rest: string)
    requires Stands(token) && Parts(c)
    ensures Scans(token + ([c] + rest), [Token(token), Literal(c)], rest)
  {
    hide Scan;
    ScanBoth(token, c, rest);
  }

  lemma ScansChar(c: char, rest: string)
    requires Parts(c)
    ensures Scans([c] + rest, [Literal(c)], rest)
  {
    hide Scan;
    ScanSeparator(false, c, rest);
  }

  lemma ScansLast(token: string)
    requires Stands(token)
    ensures Scan(SUPPORTED_TOKENS, false, token) == [Token(token)]
  {
    hide Scan;
    ScanNext(token, "");
    NothingToScan(SUPPORTED_TOKENS, IsAlpha(token[|token| - 1]));
    assert token + "" == token;
  }

  lemma ScansOn(text: string, items: seq<Item>, rest: string, more: seq<Item>, end: string)
    requires Scans(text, items, rest) && Scans(rest, more, end)
    ensures Scans(text, items + more, end)
  {
    hide Scan;
    ConcatAssoc(items, more, Scan(SUPPORTED_TOKENS, false, end));
  }

  // ---------- dates and times by their parts ----------

  /** Three tokens and the two characters between them. */
  function Three(a: string, x: char, b: string, y: char, c: string): string {
    a + ([x] + (b + ([y] + c)))
  }

  lemma ScansThree(a: string, x: char, b: string, y: char, c: string)
    requires Stands(a) && Stands(b) && Stands(c) && Parts(x) && Parts(y)
    ensures Scan(SUPPORTED_TOKENS, false, Three(a, x, b, y, c))
         == [Token(a), Literal(x), Token(b), Literal(y), Token(c)]
  {
    hide Scan, Stands, Parts;
    ScansToken(a, x, b + ([y] + c));
    ScansToken(b, y, c);
    ScansLast(c);
  }

  /** Four tokens and the characters between them. */
  lemma ScansFour(a: string, x: char, b: string, y: char, c: string, z: char, d: string)
    requires Stands(a) && Stands(b) && Stands(c) && Stands(d) && Parts(x) && Parts(y) && Parts(z)
    ensures Scan(SUPPORTED_TOKENS, false, a + ([x] + Three(b, y, c, z, d)))
         == [Token(a), Literal(x), Token(b), Literal(y), Token(c), Literal(z), Token(d)]
  {
    hide Scan, Stands, Parts, Three;
    ScansToken(a, x, Three(b, y, c, z, d));
    ScansThree(b, y, c, z, d);
  }

  /** A day and a year as in `D, YYYY`, alone or with more behind a space. */
  lemma ScansDate(day: string, comma: char, space: char, year: string, rest: string)
    requires Stands(day) && Stands(year) && Parts(comma) && Parts(space)
    ensures Scan(SUPPORTED_TOKENS, false, day + ([comma] + ([space] + year)))
         == [Token(day), Literal(comma), Literal(space), Token(year)]
    ensures Scan(SUPPORTED_TOKENS, false, day + ([comma] + ([space] + (year + ([space] + rest)))))
         == [Token(day), Literal(comma), Literal(space), Token(year), Literal(space)]
            + Scan(SUPPORTED_TOKENS, false, rest)
  {
    hide Scan, Stands, Parts;
    ScansToken(day, comma, [space] + year);
    ScansChar(space, year);
    ScansLast(year);
    ScansToken(day, comma, [space] + (year + ([space] + rest)));
    ScansChar(space, year + ([space] + rest));
    ScansToken(year, space, rest);
  }

  // ---------- the localized tokens ----------

  const TIME_ITEMS: seq<Item> := [Token("h"), Literal(':'), Token("mm"), Literal(' '), Token("A")]
  const DATE_ITEMS: seq<Item> := [Token("D"), Literal(','), Literal(' '), Token("YYYY")]

  lemma ClockTokens()
    ensures Stands("h") && Stands("mm") && Stands("ss") && Stands("A")
    ensures Parts(':') && Parts(' ')
  {
  }

  lemma DateTokens()
    ensures Stands("MM") && Stands("DD") && Stands("YYYY") && Stands("M") && Stands("D")
    ensures Parts('/') && Parts(',') && Parts(' ')
  {
  }

  lemma NameTokens()
    ensures Stands("MMMM") && Stands("MMM") && Stands("dddd") && Stands("ddd")
    ensures Parts(',') && Parts(' ')
  {
  }

  lemma ShortTimeText()
    ensures LocalizedExpansion("LT") == Three("h", ':', "mm", ' ', "A")
    ensures LocalizedExpansion("LTS") == "h" + ([':'] + Three("mm", ':', "ss", ' ', "A"))
    ensures {"LT", "LTS"} <= LOCALIZED_TOKENS
  {
    assert Three("h", ':', "mm", ' ', "A") == "h:mm A";
    assert Three("mm", ':', "ss", ' ', "A") == "mm:ss A";
  }

  lemma InTable(token: string, tokens: set<string>)
    requires token in tokens && tokens <= LOCALIZED_TOKENS
    ensures token in LOCALIZED_TOKENS
  {
  }

  lemma ItemsOfThree(token: string, a: string, x: char, b: string, y: char, c: string)
    requires token in LOCALIZED_TOKENS && LocalizedExpansion(token) == Three(a, x, b, y, c)
    requires Stands(a) && Stands(b) && Stands(c) && Parts(x) && Parts(y)
    ensures FormatItems(token) == [Token(a), Literal(x), Token(b), Literal(y), Token(c)]
  {
    hide *;
    ItemsOfExpansion(token, Three(a, x, b, y, c));
    ScansThree(a, x, b, y, c);
  }

  lemma ItemsOfFour(token: string, a: string, x: char, b: string, y: char, c: string, z: char, d: string)
    requires token in LOCALIZED_TOKENS && LocalizedExpansion(token) == a + ([x] + Three(b, y, c, z, d))
    requires Stands(a) && Stands(b) && Stands(c) && Stands(d) && Parts(x) && Parts(y) && Parts(z)
    ensures FormatItems(token)
         == [Token(a), Literal(x), Token(b), Literal(y), Token(c), Literal(z), Token(d)]
  {
    hide *;
    ItemsOfExpansion(token, a + ([x] + Three(b, y, c, z, d)));
    ScansFour(a, x, b, y, c, z, d);
  }

  /** Times of day, without seconds and with them. */
  lemma TimesStandFor()
    ensures FormatItems("LT") == [Token("h"), Literal(':'), Token("mm"), Literal(' '), Token("A")]
    ensures FormatItems("LTS") ==
            [Token("h"), Literal(':'), Token("mm"), Literal(':'), Token("ss"), Literal(' '), Token("A")]
  {
    hide *;
    ShortTimeText();
    ClockTokens();
    assert "LT" in {"LT", "LTS"} && "LTS" in {"LT", "LTS"};
    InTable("LT", {"LT", "LTS"});
    InTable("LTS", {"LT", "LTS"});
    ItemsOfThree("LT", "h", ':', "mm", ' ', "A");
    ItemsOfFour("LTS", "h", ':', "mm", ':', "ss", ' ', "A");
  }

  lemma NumericDateText()
    ensures LocalizedExpansion("L") == Three("MM", '/', "DD", '/', "YYYY")
    ensures LocalizedExpansion("l") == Three("M", '/', "D", '/', "YYYY")
    ensures {"L", "l"} <= LOCALIZED_TOKENS
  {
    assert Three("MM", '/', "DD", '/', "YYYY") == "MM/DD/YYYY";
    assert Three("M", '/', "D", '/', "YYYY") == "M/D/YYYY";
  }

  /** Dates in numbers, with leading zeros and without. */
  lemma NumericDatesStandFor()
    ensures FormatItems("L") == [Token("MM"), Literal('/'), Token("DD"), Literal('/'), Token("YYYY")]
    ensures FormatItems("l") == [Token("M"), Literal('/'), Token("D"), Literal('/'), Token("YYYY")]
  {
    hide *;
    NumericDateText();
    DateTokens();
    assert "L" in {"L", "l"} && "l" in {"L", "l"};
    InTable("L", {"L", "l"});
    InTable("l", {"L", "l"});
    ItemsOfThree("L", "MM", '/', "DD", '/', "YYYY");
    ItemsOfThree("l", "M", '/', "D", '/', "YYYY");
  }

  /** A month, a day and a year. */
  function DateText(month: string, day: string, comma: char, space: char, year: string): string {
    month + ([space] + (day + ([comma] + ([space] + year))))
  }

  function DateItems(month: string, day: string, comma: char, space: char, year: string): seq<Item> {
    [Token(month), Literal(space), Token(day), Literal(comma), Literal(space), Token(year)]
  }

  lemma ItemsOfDate(token: string, month: string, day: string, comma: char, space: char, year: string)
    requires token in LOCALIZED_TOKENS && LocalizedExpansion(token) == DateText(month, day, comma, space, year)
    requires Stands(month) && Stands(day) && Stands(year) && Parts(comma) && Parts(space)
    ensures FormatItems(token) == DateItems(month, day, comma, space, year)
  {
    hide FormatItems, LocalizedExpansion, Stands, Parts, Scan;
    var date := day + ([comma] + ([space] + year));
    ItemsOfExpansion(token, month + ([space] + date));
    ScansToken(month, space, date);
    ScansDate(day, comma, space, year, "");
  }

  /** The same with more behind it. */
  function DateTimeText(month: string, day: string, comma: char, space: char, year: string, rest: string): string {
    month + ([space] + (day + ([comma] + ([space] + (year + ([space] + rest))))))
  }

  lemma ScansDateTime(month: string, day: string, comma: char, space: char, year: string, rest: string)
    requires Stands(month) && Stands(day) && Stands(year) && Parts(comma) && Parts(space)
    ensures Scan(SUPPORTED_TOKENS, false, DateTimeText(month, day, comma, space, year, rest))
         == DateItems(month, day, comma, space, year) + [Literal(space)] + Scan(SUPPORTED_TOKENS, false, rest)
  {
    hide Stands, Parts, Scan;
    ScansToken(month, space, day + ([comma] + ([space] + (year + ([space] + rest)))));
    ScansDate(day, comma, space, year, rest);
  }

  lemma ItemsOfDateTime(token: string, month: string, day: string, comma: char, space: char, year: string, time: string,
      items: seq<Item>)
    requires token in LOCALIZED_TOKENS
    requires LocalizedExpansion(token) == DateTimeText(month, day, comma, space, year, time)
    requires Stands(month) && Stands(day) && Stands(year) && Parts(comma) && Parts(space)
    requires Scan(SUPPORTED_TOKENS, false, time) == items
    ensures FormatItems(token) == DateItems(month, day, comma, space, year) + [Literal(space)] + items
  {
    hide *;
    ItemsOfExpansion(token, DateTimeText(month, day, comma, space, year, time));
    ScansDateTime(month, day, comma, space, year, time);
  }

  /** The same with the name of a day in front of it. */
  lemma ItemsOfWeekday(token: string, weekday: string, comma: char, space: char, rest: string, other: string)
    requires token in LOCALIZED_TOKENS && other in LOCALIZED_TOKENS && LocalizedExpansion(other) == rest
    requires LocalizedExpansion(token) == weekday + ([comma] + ([space] + rest))
    requires Stands(weekday) && Parts(comma) && Parts(space)
    ensures FormatItems(token) == [Token(weekday), Literal(comma), Literal(space)] + FormatItems(other)
  {
    hide FormatItems, LocalizedExpansion, Stands, Parts, Scan;
    ItemsOfExpansion(other, rest);
    ItemsOfExpansion(token, weekday + ([comma] + ([space] + rest)));
    ScansToken(weekday, comma, [space] + rest);
    ScansChar(space, rest);
  }

  lemma DateTextOf()
    ensures LocalizedExpansion("LL") == DateText("MMMM", "D", ',', ' ', "YYYY")
    ensures LocalizedExpansion("ll") == DateText("MMM", "D", ',', ' ', "YYYY")
    ensures {"LL", "ll"} <= LOCALIZED_TOKENS
  {
    assert DateText("MMMM", "D", ',', ' ', "YYYY") == "MMMM D, YYYY";
    assert DateText("MMM", "D", ',', ' ', "YYYY") == "MMM D, YYYY";
  }

  /** Dates with the month's name, in full and short. */
  lemma DatesStandFor()
    ensures FormatItems("LL") == DateItems("MMMM", "D", ',', ' ', "YYYY")
    ensures FormatItems("ll") == DateItems("MMM", "D", ',', ' ', "YYYY")
  {
    hide *;
    DateTextOf();
    DateTokens();
    NameTokens();
    assert "LL" in {"LL", "ll"} && "ll" in {"LL", "ll"};
    InTable("LL", {"LL", "ll"});
    InTable("ll", {"LL", "ll"});
    ItemsOfDate("LL", "MMMM", "D", ',', ' ', "YYYY");
    ItemsOfDate("ll", "MMM", "D", ',', ' ', "YYYY");
  }

  lemma LongTextOf()
    ensures LocalizedExpansion("LLL") == DateTimeText("MMMM", "D", ',', ' ', "YYYY", LocalizedExpansion("LT"))
    ensures "LLL" in LOCALIZED_TOKENS && "LT" in LOCALIZED_TOKENS
  {
    assert DateTimeText("MMMM", "D", ',', ' ', "YYYY", "h:mm A") == "MMMM D, YYYY h:mm A";
  }

  lemma ShortTextOf()
    ensures LocalizedExpansion("lll") == DateTimeText("MMM", "D", ',', ' ', "YYYY", LocalizedExpansion("LT"))
    ensures "lll" in LOCALIZED_TOKENS && "LT" in LOCALIZED_TOKENS
  {
    assert DateTimeText("MMM", "D", ',', ' ', "YYYY", "h:mm A") == "MMM D, YYYY h:mm A";
  }

  /** Such dates with the time of day. */
  lemma DateTimesStandFor()
    ensures FormatItems("LLL") == DateItems("MMMM", "D", ',', ' ', "YYYY") + [Literal(' ')] + FormatItems("LT")
    ensures FormatItems("lll") == DateItems("MMM", "D", ',', ' ', "YYYY") + [Literal(' ')] + FormatItems("LT")
  {
    hide *;
    LongTextOf();
    ShortTextOf();
    DateTokens();
    NameTokens();
    var time := LocalizedExpansion("LT");
    ItemsOfExpansion("LT", time);
    ItemsOfDateTime("LLL", "MMMM", "D", ',', ' ', "YYYY", time, FormatItems("LT"));
    ItemsOfDateTime("lll", "MMM", "D", ',', ' ', "YYYY", time, FormatItems("LT"));
  }

  lemma WeekdayTextOf()
    ensures LocalizedExpansion("LLLL") == "dddd" + ([','] + ([' '] + LocalizedExpansion("LLL")))
    ensures "LLLL" in LOCALIZED_TOKENS && "LLL" in LOCALIZED_TOKENS
  {
    assert "dddd" + ([','] + ([' '] + "MMMM D, YYYY h:mm A")) == "dddd, MMMM D, YYYY h:mm A";
  }

  lemma ShortWeekdayTextOf()
    ensures LocalizedExpansion("llll") == "ddd" + ([','] + ([' '] + LocalizedExpansion("lll")))
    ensures "llll" in LOCALIZED_TOKENS && "lll" in LOCALIZED_TOKENS
  {
    assert "ddd" + ([','] + ([' '] + "MMM D, YYYY h:mm A")) == "ddd, MMM D, YYYY h:mm A";
  }

  /** Such dates and times with the name of the day in front. */
  lemma WeekdaysStandFor()
    ensures FormatItems("LLLL") == [Token("dddd"), Literal(','), Literal(' ')] + FormatItems("LLL")
    ensures FormatItems("llll") == [Token("ddd"), Literal(','), Literal(' ')] + FormatItems("lll")
  {
    hide *;
    WeekdayTextOf();
    ShortWeekdayTextOf();
    NameTokens();
    ItemsOfWeekday("LLLL", "dddd", ',', ' ', LocalizedExpansion("LLL"), "LLL");
    ItemsOfWeekday("llll", "ddd", ',', ' ', LocalizedExpansion("lll"), "lll");
  }

  // ---------- guards of times of day ----------

  /** A time of day, its hour with a leading zero or without. */
  predicate TimeOfDay(items: seq<Item>, hour: string) {
    && (hour == "h" || hour == "hh")
    && items == [Token(hour), Literal(':'), Token("mm"), Literal(' '), Token("A")]
  }

  lemma {:induction false} NoMarkerLetter(items: seq<Item>)
    requires forall i :: 0 <= i < |items| && items[i].Literal? ==> items[i].c !in "TtFf"
    ensures !TokenSwallowed(items)
    decreases |items|
  {
    if |items| >= 2 { NoMarkerLetter(items[1..]); }
  }

  lemma TimeIsClock(upper: char -> string, items: seq<Item>, hour: string)
    requires TimeOfDay(items, hour)
    ensures ClockFormat(upper, items) && NoDigitLiterals(items) && !TokenSwallowed(items) && NoMilliseconds(items)
  {
    assert "mm" in ALIASES && "hh" in ALIASES;
    hide TokenSwallowed;
    NoMarkerLetter(items);
  }

  lemma TimeIsLong(items: seq<Item>, hour: string, t: DateTime)
    requires TimeOfDay(items, hour)
    ensures NoShortNumber(items, t) <==> hour == "hh" || t.hour % 12 == 0 || t.hour % 12 >= 10
  {
    assert items[0] == Token(hour) && TokenText(t, "h") == Plain(HalfDay(t.hour));
  }

  lemma TimeFits(upper: char -> string, raw: string, hour: string, t: DateTime)
    requires TimeOfDay(FormatItems(raw), hour) && '\'' !in raw
    ensures ClockFormat(upper, FormatItems(raw)) && NoDigitLiterals(FormatItems(raw)) && UndoubleQuotes(raw) == raw
    ensures RenderingFits(raw, t) <==> hour == "hh" || t.hour % 12 == 0 || t.hour % 12 >= 10
  {
    NoDoubledQuote(raw);
    UndoubleCounts(raw);
    assert RenderingFits(raw, t) <==> !TokenSwallowed(FormatItems(raw)) && EnoughDigits(FormatItems(raw), t, 0);
    hide *;
    TimeIsClock(upper, FormatItems(raw), hour);
    TimeIsLong(FormatItems(raw), hour, t);
    EnoughWithoutMilliseconds(upper, FormatItems(raw), t, 0);
  }

  /** The guard of a time of day accepts the rendering of every datetime when the hour has its leading zero, and
      otherwise those from ten to twelve on either half of the day. */
  lemma TimeGuard(upper: char -> string, raw: string, hour: string, t: DateTime, trailing: string)
    requires TimeOfDay(FormatItems(raw), hour) && '\'' !in raw
    ensures GuardAccepts(upper, Some(Quote(raw)), RenderAt(FormatItems(raw), t))
            <==> hour == "hh" || t.hour % 12 == 0 || t.hour % 12 >= 10
    ensures hour == "hh" ==> GuardAccepts(upper, Some(Quote(raw)), RenderAt(FormatItems(raw), t) + trailing)
  {
    hide *;
    TimeFits(upper, raw, hour, t);
    InnerOfQuote(raw);
    QuotedNeedsNoTrim(Quote(raw));
    GuardExact(upper, Quote(raw), t, trailing);
  }

  lemma LocalTimeIsTime(items: seq<Item>)
    requires items == [Token("h"), Literal(':'), Token("mm"), Literal(' '), Token("A")]
    ensures TimeOfDay(items, "h") && '\'' !in "LT" && "h" != "hh"
  {
  }

  /** So the guard of `LT` rejects the times between one and ten. */
  lemma LocalTimeGuard(upper: char -> string, t: DateTime)
    ensures GuardAccepts(upper, Some(Quote("LT")), RenderAt(FormatItems("LT"), t))
            <==> t.hour % 12 == 0 || t.hour % 12 >= 10
  {
    hide *;
    TimesStandFor();
    LocalTimeIsTime(FormatItems("LT"));
    TimeGuard(upper, "LT", "h", t, "");
  }

  lemma PaddedTimeText()
    ensures "hh:mm A" == Three("hh", ':', "mm", ' ', "A") && 'L' !in "hh:mm A" && 'l' !in "hh:mm A"
    ensures Stands("hh") && '\'' !in "hh:mm A" && "hh:mm A" != ""
  {
  }

  lemma PaddedTimeIsTime(items: seq<Item>)
    requires items == [Token("hh"), Literal(':'), Token("mm"), Literal(' '), Token("A")]
    ensures TimeOfDay(items, "hh")
  {
  }

  /** And the guard of a time with a leading zero accepts them all, before noon and after. */
  lemma PaddedTimeGuard(upper: char -> string, t: DateTime, trailing: string)
    ensures GuardAccepts(upper, Some(Quote("hh:mm A")), RenderAt(FormatItems("hh:mm A"), t) + trailing)
  {
    hide *;
    PaddedTimeText();
    ClockTokens();
    NoLocalizedToken("hh:mm A");
    ItemsAreScanned("hh:mm A");
    ScansThree("hh", ':', "mm", ' ', "A");
    PaddedTimeIsTime(FormatItems("hh:mm A"));
    TimeGuard(upper, "hh:mm A", "hh", t, trailing);
  }
}
