/** Datetimes, what PostgreSQL writes for them, and how the pieces of a guard take it. */
module DatetimeRendering {
  import opened DatetimeGuardLetters
  import opened DatetimeGuardLexing
  import opened DatetimeGuardPieces
  import opened DatetimeQuotes
  import opened DatetimeSql
  import opened DatetimeTokens
  import opened PostgresRegex
  import opened SqlLiteral
  import opened Strings
  import opened Wrappers

  // ---------- datetimes ----------

  datatype DateTimeFields = DateTimeFields(
    year: nat, month: nat, day: nat, hour: nat, minute: nat, second: nat, millisecond: nat)

  predicate InRange(t: DateTimeFields) {
    && 1 <= t.year <= 9999 && 1 <= t.month <= 12 && 1 <= t.day <= 31
    && t.hour < 24 && t.minute < 60 && t.second < 60 && t.millisecond < 1000
  }

  type DateTime = t: DateTimeFields | InRange(t) witness DateTimeFields(1, 1, 1, 0, 0, 0, 0)

  /** The last `width` decimal digits of `n`, zero-padded. */
  function Padded(n: nat, width: nat): (r: string)
    ensures |r| == width
    ensures forall i :: 0 <= i < width ==> IsDigit(r[i])
  {
    if width == 0 then "" else Padded(n / 10, width - 1) + [('0' as int + n % 10) as char]
  }

  /** A number below 100 without leading zeros. */
  function Plain(n: nat): (r: string)
    ensures 1 <= |r| <= 2
    ensures forall i :: 0 <= i < |r| ==> IsDigit(r[i])
  {
    if n < 10 then Padded(n, 1) else Padded(n, 2)
  }

  function HalfDay(hour: nat): nat {
    if hour % 12 == 0 then 12 else hour % 12
  }

  function PlainText(t: DateTime, token: string): string {
    if token == "M" then Plain(t.month)
    else if token == "D" then Plain(t.day)
    else if token == "H" then Plain(t.hour)
    else if token == "h" then Plain(HalfDay(t.hour))
    else if token == "m" then Plain(t.minute)
    else Plain(t.second)
  }

  function HalfDayText(hour: nat): string {
    if hour < 12 then "AM" else "PM"
  }

  function HalfDaySmallText(hour: nat): string {
    if hour < 12 then "am" else "pm"
  }

  /** What PostgreSQL writes for a token of a clock format. */
  function TokenText(t: DateTime, token: string): string {
    if Unpadded(token) then PlainText(t, token)
    else if token == "A" then HalfDayText(t.hour)
    else if token == "a" then HalfDaySmallText(t.hour)
    else if token == "YYYY" then Padded(t.year, 4)
    else if token == "YY" then Padded(t.year % 100, 2)
    else if token == "MM" then Padded(t.month, 2)
    else if token == "DD" then Padded(t.day, 2)
    else if token == "HH" || token == "HH24" then Padded(t.hour, 2)
    else if token == "hh" || token == "HH12" then Padded(HalfDay(t.hour), 2)
    else if token == "mm" || token == "MI" then Padded(t.minute, 2)
    else if token == "ss" || token == "SS" then Padded(t.second, 2)
    else if token == "SSS" || token == "MS" then Padded(t.millisecond, 3)
    else ""
  }

  /** What PostgreSQL writes for a template. */
  function TemplateText(t: DateTime, template: string): string {
    if template == "FMMM" then Plain(t.month)
    else if template == "FMDD" then Plain(t.day)
    else if template == "FMHH24" then Plain(t.hour)
    else if template == "FMHH12" then Plain(HalfDay(t.hour))
    else if template == "FMMI" then Plain(t.minute)
    else if template == "FMSS" then Plain(t.second)
    else if template == "AM" then HalfDayText(t.hour)
    else if template == "am" then HalfDaySmallText(t.hour)
    else if template == "YYYY" then Padded(t.year, 4)
    else if template == "YY" then Padded(t.year % 100, 2)
    else if template == "MM" then Padded(t.month, 2)
    else if template == "DD" then Padded(t.day, 2)
    else if template == "HH24" then Padded(t.hour, 2)
    else if template == "HH12" then Padded(HalfDay(t.hour), 2)
    else if template == "MI" then Padded(t.minute, 2)
    else if template == "SS" then Padded(t.second, 2)
    else if template == "MS" then Padded(t.millisecond, 3)
    else template
  }

  /** The template a token of a clock format is normalized to writes what its SQL writes. */
  lemma TemplateWritesToken(t: DateTime, token: string)
    requires Numeric(token) || Meridiem(token)
    ensures TemplateText(t, ToPostgres(token)) == TokenText(t, token)
  {
    if Unpadded(token) {
      UnpaddedTemplateText(t, token);
    } else if token in TEMPLATES {
      OwnTemplateText(t, token);
    } else {
      OtherTemplateText(t, token);
    }
  }

  lemma UnpaddedTemplateText(t: DateTime, token: string)
    requires Unpadded(token)
    ensures TemplateText(t, ToPostgres(token)) == TokenText(t, token)
  {
    hide Padded, Plain;
  }

  lemma OwnTemplateText(t: DateTime, token: string)
    requires token in TEMPLATES
    ensures TemplateText(t, ToPostgres(token)) == TokenText(t, token)
  {
    TemplateIsOwn(token);
    hide Padded, Plain, ToPostgres;
  }

  lemma HourTemplates()
    ensures ToPostgres("HH") == "HH24" && ToPostgres("hh") == "HH12"
  {
  }

  lemma MinuteTemplates()
    ensures ToPostgres("mm") == "MI" && ToPostgres("ss") == "SS"
  {
  }

  lemma MillisecondTemplate()
    ensures ToPostgres("SSS") == "MS"
  {
  }

  lemma MeridiemTemplates()
    ensures ToPostgres("A") == "AM" && ToPostgres("a") == "am"
  {
  }

  lemma OtherTemplateText(t: DateTime, token: string)
    requires token in ALIASES || Meridiem(token)
    ensures TemplateText(t, ToPostgres(token)) == TokenText(t, token)
  {
    HourTemplates();
    MinuteTemplates();
    MillisecondTemplate();
    MeridiemTemplates();
    hide Padded, Plain, ToPostgres, HalfDayText, HalfDaySmallText;
  }

  function RenderAt(items: seq<Item>, t: DateTime): string {
    Render(items, token => TokenText(t, token))
  }

  lemma RenderAtFirst(items: seq<Item>, t: DateTime)
    requires items != []
    ensures RenderAt(items, t) ==
            (match items[0] case Token(name) => TokenText(t, name) case Literal(c) => [c]) + RenderAt(items[1..], t)
  {
  }

  // ---------- widths ----------

  predicate IsMillisecond(token: string) {
    token == "SSS" || token == "MS"
  }

  /** The digits a token's piece asks for, at least and at most. */
  function MinWidth(token: string): nat {
    if token == "YYYY" then 4 else if IsMillisecond(token) then 1 else 2
  }

  function MaxWidth(token: string): nat {
    if token == "YYYY" then 4 else if IsMillisecond(token) then 3 else 2
  }

  predicate Digits(s: string) {
    forall i :: 0 <= i < |s| ==> IsDigit(s[i])
  }

  /** A padded number fills its piece, an unpadded one has one or two digits. */
  lemma TextWidth(t: DateTime, token: string)
    requires Numeric(token)
    ensures
      var text := TokenText(t, token);
      && Digits(text) && 1 <= |text| <= MaxWidth(token)
      && (!Unpadded(token) ==> |text| == MaxWidth(token))
  {
    if !Unpadded(token) {
      hide Unpadded;
      if token in TEMPLATES { OwnWidth(t, token); } else { AliasWidth(t, token); }
    }
  }

  lemma OwnWidth(t: DateTime, token: string)
    requires token in TEMPLATES
    ensures !Unpadded(token) && Digits(TokenText(t, token)) && |TokenText(t, token)| == MaxWidth(token) >= 1
  {
  }

  lemma AliasWidth(t: DateTime, token: string)
    requires token in ALIASES
    ensures !Unpadded(token) && Digits(TokenText(t, token)) && |TokenText(t, token)| == MaxWidth(token) >= 1
  {
  }

  /** A token's piece is one repetition of a digit. */
  lemma PieceOfToken(token: string)
    requires Numeric(token)
    ensures ItemPiece(Token(token)) == [Rep(Digit, MinWidth(token), Some(MaxWidth(token)))]
  {
    hide ToPostgres;
    if Unpadded(token) {
      UnpaddedTemplate(token);
    } else if token in TEMPLATES {
      TemplateIsOwn(token);
    } else {
      AliasPiece(token);
    }
  }

  lemma AliasPiece(token: string)
    requires token in ALIASES
    ensures TokenPieces(Template(token)) == [Rep(Digit, MinWidth(token), Some(MaxWidth(token)))]
  {
  }

  // ---------- matching ----------

  lemma {:induction false} MatchDigits(min: nat, max: nat, width: nat, rest: seq<Piece>, t: string)
    requires min <= width <= max && width <= |t|
    requires forall i :: 0 <= i < width ==> IsDigit(t[i])
    requires MatchHere(rest, t[width..])
    ensures MatchRep(Digit, min, Some(max), rest, t)
    decreases width
  {
    if width == 0 {
      assert t[0..] == t;
    } else {
      assert t[1..][width - 1..] == t[width..];
      MatchDigits(if min == 0 then 0 else min - 1, max - 1, width - 1, rest, t[1..]);
    }
  }

  lemma {:induction false} MatchAnyTail(t: string)
    ensures MatchHere(GUARD_END, t)
  {
    var pieces := GUARD_END;
    assert pieces[1..] == [End];
    if t == "" {
      assert MatchHere([End], t);
    } else {
      MatchAnyTail(t[1..]);
      assert MatchRep(Any, 0, None, [End], t[1..]);
    }
  }

  /** The two ways a repetition matches: it is done, or it takes one more character. */
  lemma MatchRepStep(atom: Atom, min: nat, max: Option<nat>, rest: seq<Piece>, t: string)
    ensures
      var fewer := if min == 0 then 0 else min - 1;
      var less := if max.Some? && max.value > 0 then Some(max.value - 1) else max;
      MatchRep(atom, min, max, rest, t)
      <==> (min == 0 && MatchHere(rest, t))
           || (max != Some(0) && t != "" && AtomAccepts(atom, t[0]) && MatchRep(atom, fewer, less, rest, t[1..]))
  {
    hide MatchHere, AtomAccepts;
  }

  /** A repetition leaves a suffix to the pieces after it. */
  lemma {:induction false} RepLeavesSuffix(atom: Atom, min: nat, max: Option<nat>, rest: seq<Piece>, t: string)
    returns (i: nat)
    requires MatchRep(atom, min, max, rest, t)
    ensures min <= i <= |t| && MatchHere(rest, t[i..])
    ensures max.Some? && min <= max.value ==> i <= max.value
    ensures forall k :: 0 <= k < i ==> AtomAccepts(atom, t[k])
    decreases |t|
  {
    hide *;
    MatchRepStep(atom, min, max, rest, t);
    if min == 0 && MatchHere(rest, t) {
      i := 0;
      assert t[0..] == t;
    } else {
      var fewer := if min == 0 then 0 else min - 1;
      var less := if max.Some? && max.value > 0 then Some(max.value - 1) else max;
      var j := RepLeavesSuffix(atom, fewer, less, rest, t[1..]);
      i := j + 1;
      assert t[1..][j..] == t[i..];
      forall k | 0 <= k < i ensures AtomAccepts(atom, t[k]) {
        if k > 0 { assert t[k] == t[1..][k - 1]; }
      }
    }
  }

  lemma MatchRepFirst(piece: Piece, rest: seq<Piece>, t: string)
    requires piece.Rep?
    ensures MatchHere([piece] + rest, t) <==> MatchRep(piece.atom, piece.min, piece.max, rest, t)
  {
    assert ([piece] + rest)[1..] == rest;
  }

  lemma ItemPiecesFirst(items: seq<Item>)
    requires items != []
    ensures ItemPieces(items) == ItemPiece(items[0]) + ItemPieces(items[1..])
  {
  }

  /** A separator's piece takes the separator, and takes nothing that it does not write. */
  lemma MatchSeparator(upper: char -> string, c: char, rest: seq<Piece>, tail: string)
    requires Separator(upper, c)
    ensures MatchHere(ItemPiece(Literal(c)) + rest, [c] + tail) <==> MatchHere(rest, tail)
  {
    assert ([c] + tail)[1..] == tail;
    MatchOnce(if IsJsWhitespace(c) then Space else Char(c), rest, [c] + tail);
  }

  lemma MeridiemText(t: DateTime, token: string)
    requires Meridiem(token)
    ensures var text := TokenText(t, token);
            |text| == 2 && text[0] in "AaPp" && text[1] in "Mm" && text[0] !in "HIMSm"
  {
  }

  lemma PieceOfMeridiem(token: string)
    requires Meridiem(token)
    ensures ItemPiece(Token(token)) == [Once(OneOf("AaPp")), Once(OneOf("Mm"))]
  {
  }

  /** A meridiem marker's pieces take two characters, one out of each list. */
  lemma MatchMeridiem(token: string, rest: seq<Piece>, t: string)
    requires Meridiem(token)
    ensures MatchHere(ItemPiece(Token(token)) + rest, t)
            <==> |t| >= 2 && t[0] in "AaPp" && t[1] in "Mm" && MatchHere(rest, t[2..])
  {
    PieceOfMeridiem(token);
    hide MatchHere, ItemPiece;
    var second := [Once(OneOf("Mm"))] + rest;
    assert ItemPiece(Token(token)) + rest == [Once(OneOf("AaPp"))] + second;
    MatchOnce(OneOf("AaPp"), second, t);
    if t != "" {
      MatchOnce(OneOf("Mm"), rest, t[1..]);
      assert |t| >= 2 ==> t[1..][1..] == t[2..];
    }
  }

  // ---------- quotes ----------

  lemma TextHoldsNoQuote(t: DateTime, name: string)
    requires Numeric(name) || Meridiem(name)
    ensures '\'' !in TokenText(t, name)
  {
    hide TokenText, Numeric;
    if Meridiem(name) {
      MeridiemText(t, name);
    } else {
      TextWidth(t, name);
    }
  }

  lemma {:induction false} RenderingQuotes(upper: char -> string, items: seq<Item>, t: DateTime)
    requires ClockFormat(upper, items)
    ensures QuoteCount(RenderAt(items, t)) == QuoteItems(items)
  {
    if items != [] {
      hide RenderAt, TokenText, ClockFormat, Numeric;
      ClockTail(upper, items);
      RenderAtFirst(items, t);
      RenderingQuotes(upper, items[1..], t);
      match items[0]
      case Token(name) =>
        TextHoldsNoQuote(t, name);
        NoQuotes(TokenText(t, name));
        QuoteCountConcat(TokenText(t, name), RenderAt(items[1..], t));
      case Literal(c) =>
        QuoteCountConcat([c], RenderAt(items[1..], t));
    }
  }

  /** A text the items' pieces accept holds every quote the format holds. */
  lemma {:induction false} AcceptedTextHoldsQuotes(upper: char -> string, items: seq<Item>, rest: seq<Piece>, t: string)
    requires ClockFormat(upper, items)
    requires MatchHere(ItemPieces(items) + rest, t)
    ensures QuoteItems(items) <= QuoteCount(t)
    decreases items
  {
    if items != [] {
      hide ClockFormat, QuoteCount, ItemPiece, Numeric;
      var pieces := ItemPieces(items[1..]) + rest;
      ClockTail(upper, items);
      ItemPiecesFirst(items);
      ConcatAssoc(ItemPiece(items[0]), ItemPieces(items[1..]), rest);
      var i := PieceLeavesSuffix(upper, items[0], pieces, t);
      AcceptedTextHoldsQuotes(upper, items[1..], rest, t[i..]);
      QuoteCountConcat(t[..i], t[i..]);
      assert t == t[..i] + t[i..];
    }
  }

  lemma PieceLeavesSuffix(upper: char -> string, item: Item, rest: seq<Piece>, t: string) returns (i: nat)
    requires match item case Token(name) => Numeric(name) || Meridiem(name) case Literal(c) => Separator(upper, c)
    requires MatchHere(ItemPiece(item) + rest, t)
    ensures i <= |t| && MatchHere(rest, t[i..]) && QuoteCount(t[..i]) >= if item == Literal('\'') then 1 else 0
  {
    match item
    case Token(name) =>
      hide ItemPiece, Numeric;
      if Meridiem(name) {
        MatchMeridiem(name, rest, t);
        i := 2;
      } else {
        PieceOfToken(name);
        var piece := Rep(Digit, MinWidth(name), Some(MaxWidth(name)));
        MatchRepFirst(piece, rest, t);
        i := RepLeavesSuffix(piece.atom, piece.min, piece.max, rest, t);
      }
    case Literal(c) =>
      assert ItemPiece(item) + rest == [CharPiece(c)] + rest;
      MatchOnce(if IsJsWhitespace(c) then Space else Char(c), rest, t);
      i := 1;
      assert t[..1] == [t[0]];
  }

  // ---------- letters ----------

  predicate IsCounted(c: char) {
    c in "HIMSm"
  }

  /** The letters `H`, `I`, `M`, `S` of a text, and the small `m`. */
  function LetterCount(s: string): nat {
    if s == "" then 0 else (if IsCounted(s[0]) then 1 else 0) + LetterCount(s[1..])
  }

  lemma {:induction false} LetterCountConcat(a: string, b: string)
    ensures LetterCount(a + b) == LetterCount(a) + LetterCount(b)
  {
    if a == "" {
      assert a + b == b;
    } else {
      LetterCountConcat(a[1..], b);
      assert (a + b)[1..] == a[1..] + b;
    }
  }

  lemma {:induction false} NothingCounted(s: string)
    requires forall i :: 0 <= i < |s| ==> !IsCounted(s[i])
    ensures LetterCount(s) == 0
  {
    if s != "" { NothingCounted(s[1..]); }
  }

  lemma OneLetter(s: string)
    requires |s| == 1 && IsCounted(s[0])
    ensures LetterCount(s) == 1
  {
    assert s[1..] == "";
  }

  /** A text accepted by pieces holds the letters they ask for. */
  lemma {:induction false} AcceptedTextHoldsLetters(pieces: seq<Piece>, t: string)
    requires MatchHere(pieces, t)
    ensures AskedLetters(pieces) <= LetterCount(t)
    decreases |pieces|
  {
    if pieces != [] {
      var rest := pieces[1..];
      if pieces[0].End? {
        AcceptedTextHoldsLetters(rest, t);
      } else {
        hide LetterCount;
        var i := RepLeavesSuffix(pieces[0].atom, pieces[0].min, pieces[0].max, rest, t);
        AcceptedTextHoldsLetters(rest, t[i..]);
        LetterCountConcat(t[..i], t[i..]);
        assert t == t[..i] + t[i..];
        if LettersOf(pieces[0]) == 1 {
          assert i == 1 && AtomAccepts(pieces[0].atom, t[0]);
          OneLetter(t[..i]);
        }
      }
    }
  }

  lemma TextLetters(t: DateTime, name: string)
    requires Numeric(name) || Meridiem(name)
    ensures LetterCount(TokenText(t, name)) == if Meridiem(name) then 1 else 0
  {
    var text := TokenText(t, name);
    hide TokenText, Numeric;
    if Meridiem(name) {
      MeridiemText(t, name);
      assert text == [text[0]] + [text[1]];
      LetterCountConcat([text[0]], [text[1]]);
      OneLetter([text[1]]);
      NothingCounted([text[0]]);
    } else {
      TextWidth(t, name);
      NothingCounted(text);
    }
  }

  /** A rendering holds one such letter for each meridiem marker. */
  lemma {:induction false} RenderingLetters(upper: char -> string, items: seq<Item>, t: DateTime)
    requires ClockFormat(upper, items)
    ensures LetterCount(RenderAt(items, t)) == Meridiems(items)
  {
    if items != [] {
      ClockTail(upper, items);
      RenderAtFirst(items, t);
      RenderingLetters(upper, items[1..], t);
      hide TokenText, ClockFormat, RenderAt, Numeric, LetterCount;
      match items[0]
      case Token(name) =>
        TextLetters(t, name);
        LetterCountConcat(TokenText(t, name), RenderAt(items[1..], t));
      case Literal(c) =>
        NothingCounted([c]);
        LetterCountConcat([c], RenderAt(items[1..], t));
    } else {
      assert RenderAt(items, t) == "";
    }
  }
}
