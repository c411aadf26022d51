/** The second lexer against the first: where it finds the tokens of a numeric format again, and where a
    letter in front of a token makes it lose them. */
module DatetimeGuardLexing {
  import opened DatetimeGuard
  import opened DatetimeGuardPieces
  import opened DatetimeSql
  import opened DatetimeTokens
  import opened LocalizedFormat
  import opened PostgresRegex
  import opened SqlLiteral
  import opened Strings
  import opened Wrappers

  // ---------- the formats ----------

  const TEMPLATES: set<string> := {"YYYY", "YY", "MM", "DD", "HH24", "HH12", "MI", "SS", "MS"}

  /** The spellings of dayjs for some of the templates. */
  const ALIASES: set<string> := {"HH", "hh", "mm", "ss", "SSS"}

  const PADDED_TOKENS: set<string> := TEMPLATES + ALIASES

  /** Numbers without leading zeros; their templates carry the prefix `FM`. */
  predicate Unpadded(token: string) {
    token == "M" || token == "D" || token == "H" || token == "h" || token == "m" || token == "s"
  }

  predicate Numeric(token: string) {
    token in PADDED_TOKENS || Unpadded(token)
  }

  /** The marker of the half of the day, in capitals or small letters. */
  predicate Meridiem(token: string) {
    token == "A" || token == "a"
  }

  /** The letters numeric templates are written with, and the `A` of the meridiem marker. */
  predicate TemplateLetter(c: char) {
    c == 'A' || c == 'D' || c == 'H' || c == 'I' || c == 'M' || c == 'S' || c == 'Y'
  }

  /** A literal character covered here: in ASCII anything but the letters of the templates, in either case;
      beyond, a character with no upper case that is no white space (ideographs, for one). */
  predicate Separator(upper: char -> string, c: char) {
    if c as int < 128 then !TemplateLetter(c) && ('a' <= c <= 'z' ==> !TemplateLetter((c as int - 32) as char))
    else upper(c) == [c] && !IsJsWhitespace(c)
  }

  /** Only numeric tokens, meridiem markers and separators. */
  predicate ClockFormat(upper: char -> string, items: seq<Item>) {
    forall i :: 0 <= i < |items| ==>
      match items[i]
      case Token(name) => Numeric(name) || Meridiem(name)
      case Literal(c) => Separator(upper, c)
  }

  /** Only padded numbers among them. */
  predicate PaddedFormat(upper: char -> string, items: seq<Item>) {
    && ClockFormat(upper, items)
    && forall i :: 0 <= i < |items| && items[i].Token? ==> items[i].name in PADDED_TOKENS || Meridiem(items[i].name)
  }

  /** `T` in front of hours, minutes, months or milliseconds, `F` in front of the latter three: with the
      first letter of the template it makes a marker, `TH`, `TM` or `FM`. */
  predicate Swallows(item: Item, next: Item) {
    && item.Literal? && next.Token? && ToPostgres(next.name) != ""
    && StartsMarker(item.c, ToPostgres(next.name)[0])
  }

  predicate StartsMarker(c: char, next: char) {
    || ((c == 'T' || c == 't') && (next == 'H' || next == 'M'))
    || ((c == 'F' || c == 'f') && next == 'M')
  }

  predicate TokenSwallowed(items: seq<Item>) {
    |items| >= 2 && (Swallows(items[0], items[1]) || TokenSwallowed(items[1..]))
  }

  lemma ClockTail(upper: char -> string, items: seq<Item>)
    requires items != [] && ClockFormat(upper, items)
    ensures ClockFormat(upper, items[1..])
    ensures match items[0]
            case Token(name) => Numeric(name) || Meridiem(name)
            case Literal(c) => Separator(upper, c)
  {
  }

  lemma FirstOfFormat(items: seq<Item>)
    requires items != []
    ensures Render(items, ToPostgres) ==
            (match items[0] case Token(name) => ToPostgres(name) case Literal(c) => [c])
            + Render(items[1..], ToPostgres)
  {
  }

  // ---------- templates and upper case ----------

  /** The template of a token, without the prefix and in capitals. */
  function Template(token: string): string {
    if Meridiem(token) then "AM"
    else if |token| == 1 && |ToPostgres(token)| >= 2 then ToPostgres(token)[2..]
    else ToPostgres(token)
  }

  lemma MeridiemTemplate(token: string)
    requires Meridiem(token)
    ensures ToPostgres(token) == "AM" || ToPostgres(token) == "am"
    ensures !Numeric(token) && token != "YY" && token != "YYYY"
  {
  }

  lemma TemplateIsOwn(token: string)
    requires token in TEMPLATES
    ensures |token| >= 2 && ToPostgres(token) == token
  {
  }

  lemma AliasTemplate(token: string)
    requires token in ALIASES
    ensures |token| >= 2 && ToPostgres(token) in {"HH24", "HH12", "MI", "SS", "MS"}
    ensures token != "YY" && token != "YYYY"
  {
  }

  lemma PaddedTemplate(token: string)
    requires token in PADDED_TOKENS
    ensures |token| >= 2 && ToPostgres(token) in TEMPLATES
    ensures (ToPostgres(token) == "YY" <==> token == "YY") && (ToPostgres(token) == "YYYY" <==> token == "YYYY")
  {
    hide ToPostgres;
    if token in TEMPLATES { TemplateIsOwn(token); } else { AliasTemplate(token); }
  }

  lemma UnpaddedTemplate(token: string)
    requires Unpadded(token)
    ensures Template(token) in {"MM", "DD", "HH24", "HH12", "MI", "SS"}
    ensures ToPostgres(token) == "FM" + Template(token)
  {
  }

  lemma TemplateOf(token: string)
    requires Numeric(token)
    ensures Template(token) in TEMPLATES && (Template(token) == "YY" ==> token == "YY")
    ensures ToPostgres(token) == (if Unpadded(token) then "FM" else "") + Template(token)
    ensures ToPostgres(token) != ""
    ensures ToPostgres(token)[0] == if Unpadded(token) then 'F' else Template(token)[0]
    ensures ToPostgres(token)[0] == 'Y' ==> token == "YYYY" || token == "YY"
  {
    if Unpadded(token) {
      UnpaddedTemplate(token);
    } else {
      PaddedTemplate(token);
      assert Template(token) == ToPostgres(token);
      hide Template, ToPostgres;
      TemplateChars(Template(token));
    }
  }

  lemma TemplateChars(template: string)
    requires template in TEMPLATES
    ensures forall i :: 0 <= i < |template| ==> 'A' <= template[i] <= 'Z' || IsDigit(template[i])
    ensures 2 <= |template| && (template[0] == 'Y' <==> template == "YYYY" || template == "YY")
  {
  }

  lemma {:induction false} UpperConcat(upper: char -> string, a: string, b: string)
    ensures ToUpperCase(upper, a + b) == ToUpperCase(upper, a) + ToUpperCase(upper, b)
  {
    if a == "" {
      assert a + b == b;
    } else {
      UpperConcat(upper, a[1..], b);
      assert (a + b)[1..] == a[1..] + b;
      ConcatAssoc(UpperChar(upper, a[0]), ToUpperCase(upper, a[1..]), ToUpperCase(upper, b));
    }
  }

  lemma {:induction false} UpperFixed(upper: char -> string, s: string)
    requires forall i :: 0 <= i < |s| ==> UpperChar(upper, s[i]) == [s[i]]
    ensures ToUpperCase(upper, s) == s
  {
    if s != "" {
      UpperFixed(upper, s[1..]);
    }
  }

  lemma UpperOfSeparator(upper: char -> string, c: char)
    requires Separator(upper, c)
    ensures
      var up := UpperChar(upper, c);
      && |up| == 1 && !TemplateLetter(up[0])
      && (up[0] == 'T' <==> c == 'T' || c == 't') && (up[0] == 'F' <==> c == 'F' || c == 'f')
  {
  }

  lemma UpperOfChar(upper: char -> string, c: char, rest: string)
    requires |UpperChar(upper, c)| == 1
    ensures ToUpperCase(upper, [c] + rest) == UpperChar(upper, c) + ToUpperCase(upper, rest)
  {
    UpperConcat(upper, [c], rest);
    assert ToUpperCase(upper, [c]) == UpperChar(upper, c) + "";
  }

  lemma CapitalStaysFirst(upper: char -> string, text: string, rest: string)
    requires text != "" && 'A' <= text[0] <= 'Z'
    ensures var up := ToUpperCase(upper, text + rest); up != "" && up[0] == text[0]
  {
    UpperOfChar(upper, text[0], text[1..] + rest);
    assert text + rest == [text[0]] + (text[1..] + rest);
  }

  lemma TwoLetters(template: string)
    requires template in TEMPLATES
    ensures |template| >= 2 && template == [template[0], template[1]] + template[2..]
    ensures template[0] == 'M' ==> |template| == 2 && (template[1] == 'M' || template[1] == 'I' || template[1] == 'S')
    ensures template[0] == 'S' ==> |template| == 2 && template[1] == 'S'
    ensures template[0] == 'H' ==> template[1] == 'H' && |template| > 2 && IsDigit(template[2])
    ensures template[0] == 'Y' || template[0] == 'M' || template[0] == 'D' || template[0] == 'H' || template[0] == 'S'
  {
  }

  lemma StartsWithCapital(token: string)
    requires Numeric(token)
    ensures ToPostgres(token) != "" && 'A' <= ToPostgres(token)[0] <= 'Z'
  {
    TemplateOf(token);
    hide ToPostgres, Template;
    TemplateChars(Template(token));
    assert |Template(token)| >= 2;
    assert 'A' <= Template(token)[0] <= 'Z' || IsDigit(Template(token)[0]);
    TwoLetters(Template(token));
  }

  lemma UpperOfTwo(upper: char -> string, a: char, b: char)
    ensures ToUpperCase(upper, [a, b]) == UpperChar(upper, a) + UpperChar(upper, b)
  {
    assert [a, b][1..] == [b] && [b][1..] == "";
    assert ToUpperCase(upper, [b]) == UpperChar(upper, b) + "";
  }

  lemma MeridiemChars(name: string)
    requires Meridiem(name)
    ensures
      var text := ToPostgres(name);
      && |text| == 2 && text == [text[0], text[1]]
      && (text[0] == 'A' || text[0] == 'a') && (text[1] == 'M' || text[1] == 'm')
  {
    MeridiemTemplate(name);
    hide ToPostgres, Numeric;
  }

  lemma UpperOfMarker(upper: char -> string, a: char, m: char)
    requires (a == 'A' || a == 'a') && (m == 'M' || m == 'm')
    ensures UpperChar(upper, a) + UpperChar(upper, m) == "AM"
  {
  }

  lemma UpperOfMeridiem(upper: char -> string, name: string, rest: string)
    requires Meridiem(name)
    ensures |ToPostgres(name)| == 2
    ensures ToUpperCase(upper, ToPostgres(name) + rest) == "AM" + ToUpperCase(upper, rest)
  {
    hide *;
    MeridiemChars(name);
    var text := ToPostgres(name);
    UpperConcat(upper, text, rest);
    UpperOfTwo(upper, text[0], text[1]);
    UpperOfMarker(upper, text[0], text[1]);
  }

  /** The first character of the text still to come, in upper case. */
  lemma UpperOfRest(upper: char -> string, items: seq<Item>)
    requires ClockFormat(upper, items) && items != []
    ensures
      var up := ToUpperCase(upper, Render(items, ToPostgres));
      up != "" &&
      match items[0]
      case Token(name) =>
        ToPostgres(name) != "" && if Meridiem(name) then up[0] == 'A' else up[0] == ToPostgres(name)[0]
      case Literal(c) => !TemplateLetter(up[0])
  {
    FirstOfFormat(items);
    ClockTail(upper, items);
    hide ToUpperCase, Render, ClockFormat, ToPostgres, Template, Numeric;
    var tail := Render(items[1..], ToPostgres);
    match items[0]
    case Token(name) =>
      if Meridiem(name) {
        UpperOfMeridiem(upper, name, tail);
      } else {
        StartsWithCapital(name);
        CapitalStaysFirst(upper, ToPostgres(name), tail);
      }
    case Literal(c) =>
      UpperOfSeparator(upper, c);
      UpperOfChar(upper, c, tail);
  }

  lemma UpperOfTemplate(upper: char -> string, template: string, rest: string)
    requires template in TEMPLATES
    ensures ToUpperCase(upper, template + rest) == template + ToUpperCase(upper, rest)
  {
    TemplateChars(template);
    UpperFixed(upper, template);
    UpperConcat(upper, template, rest);
  }

  // ---------- what one turn of the second lexer finds ----------

  /** In upper case, the text after what is lexed does not begin with `c`. */
  predicate NotNext(upper: char -> string, rest: string, c: char) {
    var up := ToUpperCase(upper, rest);
    up == "" || up[0] != c
  }

  lemma LongerGuardToken(template: string, token: string)
    requires template in TEMPLATES && token in GUARD_TOKENS
    requires template < token
    ensures template == "YY" && token[2] == 'Y'
  {
    assert token[0] == template[0];
  }

  /** The second lexer finds each template again, provided a two-digit year is not followed by `Y`. */
  lemma TemplateIsRead(template: string, rest: string)
    requires template in TEMPLATES
    requires template == "YY" ==> rest == "" || rest[0] != 'Y'
    ensures LongestPrefix(GUARD_TOKENS, template + rest, MAX_TOKEN_LENGTH) == Some(template)
  {
    var u := template + rest;
    assert u[..|template|] == template;
    LongestPrefixIsLongest(GUARD_TOKENS, u, MAX_TOKEN_LENGTH, |template|);
    var token := LongestPrefix(GUARD_TOKENS, u, MAX_TOKEN_LENGTH).value;
    assert token == u[..|token|];
    if |token| == |template| {
      assert token == template;
    } else {
      assert template < token;
      LongerGuardToken(template, token);
    }
  }

  /** Every padded template is found again, a two-digit year if no `Y` follows. */
  lemma LexTemplate(upper: char -> string, template: string, rest: string)
    requires template in TEMPLATES
    requires template == "YY" ==> NotNext(upper, rest, 'Y')
    ensures GuardPieces(upper, template + rest) == TokenPieces(template) + GuardPieces(upper, rest)
  {
    hide TokenPieces;
    var s := template + rest;
    UpperOfTemplate(upper, template, rest);
    TemplateIsRead(template, ToUpperCase(upper, rest));
    assert Drop(s, |template|) == rest;
    assert StepPieces(upper, s) == TokenPieces(template);
  }

  /** So is the meridiem marker, whatever follows. */
  lemma LexMeridiem(upper: char -> string, name: string, rest: string)
    requires Meridiem(name)
    ensures GuardPieces(upper, ToPostgres(name) + rest) == TokenPieces("AM") + GuardPieces(upper, rest)
  {
    hide TokenPieces;
    var s := ToPostgres(name) + rest;
    UpperOfMeridiem(upper, name, rest);
    MeridiemIsRead(ToUpperCase(upper, rest));
    assert Drop(s, 2) == rest;
    assert StepPieces(upper, s) == TokenPieces("AM");
  }

  lemma MeridiemIsRead(rest: string)
    ensures LongestPrefix(GUARD_TOKENS, "AM" + rest, MAX_TOKEN_LENGTH) == Some("AM")
  {
    var u := "AM" + rest;
    assert u[..2] == "AM";
    LongestPrefixIsLongest(GUARD_TOKENS, u, MAX_TOKEN_LENGTH, 2);
    var token := LongestPrefix(GUARD_TOKENS, u, MAX_TOKEN_LENGTH).value;
    assert token[0] == 'A';
    OnlyMeridiemStartsWithA(token);
  }

  lemma OnlyMeridiemStartsWithA(token: string)
    requires token in GUARD_TOKENS && token != "" && token[0] == 'A'
    ensures token == "AM"
  {
  }

  lemma GuardTokenShape(token: string)
    requires token in GUARD_TOKENS
    ensures token != "" && token[0] in "ADHMSY"
    ensures |token| == 1 ==> token == "Y"
    ensures |token| >= 2 ==>
              && (token[0] == 'H' ==> token[1] == 'H')
              && (token[0] == 'M' ==> token[1] in "MIS")
              && (token[0] == 'S' ==> token[1] == 'S')
  {
  }

  /** No guard token starts an upper-case text. */
  predicate StartsNoToken(up: string) {
    && up != "" && up[0] != 'A' && up[0] != 'D' && up[0] != 'Y'
    && (up[0] == 'H' && |up| > 1 ==> up[1] != 'H')
    && (up[0] == 'M' && |up| > 1 ==> up[1] != 'M' && up[1] != 'I' && up[1] != 'S')
    && (up[0] == 'S' && |up| > 1 ==> up[1] != 'S')
  }

  lemma NoGuardToken(up: string)
    requires StartsNoToken(up)
    ensures LongestPrefix(GUARD_TOKENS, up, MAX_TOKEN_LENGTH).None?
  {
    var token := LongestPrefix(GUARD_TOKENS, up, MAX_TOKEN_LENGTH);
    if token.Some? { GuardTokenShape(token.value); }
  }

  lemma NoMarker(up: string)
    requires up != "" && (|up| > 1 ==> !StartsMarker(up[0], up[1]))
    ensures Take(up, 2) !in OPTIONAL_TOKENS
  {
    var two := Take(up, 2);
    assert |two| == 2 ==> two[0] == up[0] && two[1] == up[1];
  }

  /** A character no guard token and no marker starts with is taken as it is. */
  lemma LexChar(upper: char -> string, c: char, rest: string)
    requires var up := ToUpperCase(upper, [c] + rest);
             StartsNoToken(up) && (|up| > 1 ==> !StartsMarker(up[0], up[1]))
    ensures GuardPieces(upper, [c] + rest) == [CharPiece(c)] + GuardPieces(upper, rest)
  {
    var s, up := [c] + rest, ToUpperCase(upper, [c] + rest);
    NoGuardToken(up);
    NoMarker(up);
    assert Drop(s, 1) == rest;
    hide ToUpperCase, LongestPrefix;
    assert StepPieces(upper, s) == [CharPiece(c)];
  }

  /** A marker is skipped. */
  lemma LexMarker(upper: char -> string, c: char, d: char, rest: string)
    requires StartsMarker(c, d)
    ensures GuardPieces(upper, [c, d] + rest) == GuardPieces(upper, rest)
  {
    var s, up := [c, d] + rest, ToUpperCase(upper, [c, d] + rest);
    assert s == [c] + ([d] + rest);
    UpperOfChar(upper, c, [d] + rest);
    UpperOfChar(upper, d, rest);
    NoGuardToken(up);
    assert Take(up, 2) == UpperChar(upper, c) + UpperChar(upper, d);
    assert Take(up, 2) == "TH" || Take(up, 2) == "TM" || Take(up, 2) == "FM";
    assert Drop(s, 2) == rest;
    NothingAhead(GuardPieces(upper, rest));
    hide ToUpperCase, LongestPrefix;
    assert StepPieces(upper, s) == [];
  }

  // ---------- years ----------

  predicate IsYear(item: Item) {
    item == Token("YYYY") || item == Token("YY")
  }

  /** No year token follows a two-digit year directly. */
  predicate YearsApart(items: seq<Item>) {
    forall i :: 0 <= i < |items| - 1 && items[i] == Token("YY") ==> !IsYear(items[i + 1])
  }

  lemma YearsApartCons(item: Item, rest: seq<Item>)
    requires YearsApart(rest)
    requires item == Token("YY") && rest != [] ==> !IsYear(rest[0])
    ensures YearsApart([item] + rest)
  {
    var items := [item] + rest;
    forall i | 0 <= i < |items| - 1 && items[i] == Token("YY") ensures !IsYear(items[i + 1]) {
      if i > 0 { assert items[i] == rest[i - 1] && items[i + 1] == rest[i]; }
    }
  }

  /** A two-digit year is only taken where a four-digit one does not fit. */
  lemma ShortYearIsGreedy(prevIsAlpha: bool, s: string)
    requires TokenAt(SUPPORTED_TOKENS, prevIsAlpha, s) == Some("YY")
    ensures !("YY" <= s[2..])
  {
    if "YY" <= s[2..] {
      assert s[..4] == "YYYY";
      LongestPrefixIsLongest(SUPPORTED_TOKENS, s, MAX_TOKEN_LENGTH, 4);
    }
  }

  lemma YearItemStartsWithYY(prevIsAlpha: bool, s: string)
    requires Scan(SUPPORTED_TOKENS, prevIsAlpha, s) != [] && IsYear(Scan(SUPPORTED_TOKENS, prevIsAlpha, s)[0])
    ensures "YY" <= s
  {
  }

  /** The first lexer, being greedy, never emits a year right after a two-digit year. */
  lemma {:induction false} ScanKeepsYearsApart(prevIsAlpha: bool, s: string)
    ensures YearsApart(Scan(SUPPORTED_TOKENS, prevIsAlpha, s))
    decreases |s|
  {
    if s != "" {
      hide TokenAt, YearsApart;
      match TokenAt(SUPPORTED_TOKENS, prevIsAlpha, s)
      case Some(token) =>
        var nowAlpha, rest := IsAlpha(token[|token| - 1]), s[|token|..];
        ScanKeepsYearsApart(nowAlpha, rest);
        if token == "YY" {
          ShortYearIsGreedy(prevIsAlpha, s);
          if Scan(SUPPORTED_TOKENS, nowAlpha, rest) != [] && IsYear(Scan(SUPPORTED_TOKENS, nowAlpha, rest)[0]) {
            YearItemStartsWithYY(nowAlpha, rest);
          }
        }
        YearsApartCons(Token(token), Scan(SUPPORTED_TOKENS, nowAlpha, rest));
      case None =>
        ScanKeepsYearsApart(IsAlpha(s[0]), s[1..]);
        YearsApartCons(Literal(s[0]), Scan(SUPPORTED_TOKENS, IsAlpha(s[0]), s[1..]));
    } else {
      assert Scan(SUPPORTED_TOKENS, prevIsAlpha, s) == [];
    }
  }

  lemma YearsApartTail(items: seq<Item>)
    requires items != [] && YearsApart(items)
    ensures YearsApart(items[1..])
  {
    forall i | 0 <= i < |items[1..]| - 1 && items[1..][i] == Token("YY") ensures !IsYear(items[1..][i + 1]) {
      assert items[1..][i] == items[i + 1] && items[1..][i + 1] == items[i + 2];
    }
  }

  /** What follows a two-digit year in the normalized text is no `Y`. */
  lemma AfterShortYear(upper: char -> string, items: seq<Item>)
    requires ClockFormat(upper, items) && YearsApart(items)
    requires items != [] && items[0] == Token("YY")
    ensures NotNext(upper, Render(items[1..], ToPostgres), 'Y')
  {
    if |items| > 1 {
      ClockTail(upper, items);
      UpperOfRest(upper, items[1..]);
      if items[1].Token? && !Meridiem(items[1].name) { TemplateOf(items[1].name); }
    }
  }

  // ---------- the second lexer recovers the items ----------

  function ItemPiece(item: Item): seq<Piece> {
    match item
    case Token(name) => TokenPieces(Template(name))
    case Literal(c) => [CharPiece(c)]
  }

  function ItemPieces(items: seq<Item>): seq<Piece> {
    if items == [] then [] else ItemPiece(items[0]) + ItemPieces(items[1..])
  }

  lemma SeparatorIsLexed(upper: char -> string, c: char, items: seq<Item>)
    requires Separator(upper, c) && ClockFormat(upper, items)
    requires items != [] ==> !Swallows(Literal(c), items[0])
    ensures var rest := Render(items, ToPostgres);
            GuardPieces(upper, [c] + rest) == [CharPiece(c)] + GuardPieces(upper, rest)
  {
    hide GuardPieces, ToUpperCase, ClockFormat, Render;
    var rest := Render(items, ToPostgres);
    UpperOfSeparator(upper, c);
    UpperOfChar(upper, c, rest);
    if items != [] {
      UpperOfRest(upper, items);
      ClockTail(upper, items);
    } else {
      NothingIsUpper(upper, items);
    }
    LexChar(upper, c, rest);
  }

  lemma NothingIsUpper(upper: char -> string, items: seq<Item>)
    requires items == []
    ensures ToUpperCase(upper, Render(items, ToPostgres)) == ""
  {
  }

  /** The prefix `FM` is a marker, and skipped. */
  lemma PrefixIsSkipped(upper: char -> string, rest: string)
    ensures GuardPieces(upper, "FM" + rest) == GuardPieces(upper, rest)
  {
    LexMarker(upper, 'F', 'M', rest);
    assert "FM" == ['F', 'M'];
  }

  lemma TokenIsLexed(upper: char -> string, items: seq<Item>, name: string)
    requires items != [] && ClockFormat(upper, items) && YearsApart(items) && items[0] == Token(name)
    ensures GuardPieces(upper, ToPostgres(name) + Render(items[1..], ToPostgres))
         == TokenPieces(Template(name)) + GuardPieces(upper, Render(items[1..], ToPostgres))
  {
    hide *;
    var template, rest := Template(name), Render(items[1..], ToPostgres);
    ClockTail(upper, items);
    if Meridiem(name) {
      MeridiemIsAM(name);
      LexMeridiem(upper, name, rest);
    } else {
      TemplateOf(name);
      if name == "YY" { AfterShortYear(upper, items); }
      LexTemplate(upper, template, rest);
      if Unpadded(name) {
        PrefixIsSkipped(upper, template + rest);
        ConcatAssoc("FM", template, rest);
      } else {
        NothingAhead(template);
      }
    }
  }

  lemma MeridiemIsAM(name: string)
    requires Meridiem(name)
    ensures Template(name) == "AM"
  {
  }

  lemma PieceOfItem(item: Item)
    ensures ItemPiece(item) ==
            match item case Token(name) => TokenPieces(Template(name)) case Literal(c) => [CharPiece(c)]
  {
  }

  /** Unless its marker swallows the next token, the first item is lexed as what it is. */
  lemma FirstItemIsLexed(upper: char -> string, items: seq<Item>)
    requires items != [] && ClockFormat(upper, items) && YearsApart(items)
    requires |items| >= 2 ==> !Swallows(items[0], items[1])
    ensures GuardPieces(upper, Render(items, ToPostgres))
         == ItemPiece(items[0]) + GuardPieces(upper, Render(items[1..], ToPostgres))
  {
    hide *;
    FirstOfFormat(items);
    PieceOfItem(items[0]);
    match items[0]
    case Token(name) =>
      TokenIsLexed(upper, items, name);
    case Literal(c) =>
      ClockTail(upper, items);
      SeparatorIsLexed(upper, c, items[1..]);
  }

  lemma {:induction false} ItemsAreLexed(upper: char -> string, items: seq<Item>)
    requires ClockFormat(upper, items) && YearsApart(items) && !TokenSwallowed(items)
    ensures GuardPieces(upper, Render(items, ToPostgres)) == ItemPieces(items)
  {
    if items != [] {
      ClockTail(upper, items);
      YearsApartTail(items);
      ItemsAreLexed(upper, items[1..]);
      FirstItemIsLexed(upper, items);
    }
  }
}
