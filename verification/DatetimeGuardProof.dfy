/** The main results on the parse guard: which formats' renderings it lets through. */
module DatetimeGuardProof {
  import opened DatetimeGuard
  import opened DatetimeGuardLetters
  import opened DatetimeGuardLexing
  import opened DatetimeGuardPieces
  import opened DatetimeQuotes
  import opened DatetimeRendering
  import opened DatetimeSql
  import opened DatetimeTokens
  import opened LocalizedFormat
  import opened PostgresRegex
  import opened RegexEscape
  import opened SqlLiteral
  import opened Strings
  import opened Wrappers

  // ---------- what a guard asks for ----------

  /** The guard of a clock format asks for the items, or for too many letters. */
  lemma GuardOfClock(upper: char -> string, raw: string)
    requires ClockFormat(upper, FormatItems(raw))
    ensures
      var items, pieces := FormatItems(raw), GuardPieces(upper, NormalizeLiteral(raw));
      if TokenSwallowed(items) then AskedLetters(pieces) > Meridiems(items) else pieces == ItemPieces(items)
  {
    var items := FormatItems(raw);
    ScanKeepsYearsApart(false, ExpandLocalized(raw));
    assert YearsApart(items) && NormalizeLiteral(raw) == Render(items, ToPostgres);
    hide *;
    if TokenSwallowed(items) { SwallowedTokenAsks(upper, items); } else { ItemsAreLexed(upper, items); }
  }

  /** The condition under which a guard fits its format: no quote is doubled between the quotes of the
      expression, and no letter makes a marker with the token behind it. */
  predicate GuardFits(raw: string) {
    !HasDoubledQuote(raw) && !TokenSwallowed(FormatItems(raw))
  }

  /** What the guard of a quoted expression asks for. */
  function Asked(upper: char -> string, raw: string): seq<Piece> {
    GuardPieces(upper, NormalizeLiteral(raw)) + GUARD_END
  }

  /** What a datetime is written as in the format of a quoted expression. */
  function Rendering(raw: string, t: DateTime): string {
    RenderAt(FormatItems(UndoubleQuotes(raw)), t)
  }

  lemma FittingGuard(upper: char -> string, raw: string, t: DateTime)
    requires ClockFormat(upper, FormatItems(raw)) && GuardFits(raw)
    ensures Asked(upper, raw) == ItemPieces(FormatItems(raw)) + GUARD_END
    ensures Rendering(raw, t) == RenderAt(FormatItems(raw), t)
  {
    UndoubleCounts(raw);
    GuardOfClock(upper, raw);
    hide FormatItems, GuardPieces, NormalizeLiteral, ClockFormat, UndoubleQuotes;
  }

  /** Undoubling quotes leaves a clock format one. */
  lemma UndoubledIsClock(upper: char -> string, raw: string)
    requires ClockFormat(upper, FormatItems(raw))
    ensures ClockFormat(upper, FormatItems(UndoubleQuotes(raw)))
  {
    hide FormatItems, UndoubleQuotes;
    FormatItemsUndoubled(raw);
    var items, undoubled := FormatItems(raw), UndoubleItems(FormatItems(raw));
    forall i | 0 <= i < |undoubled|
      ensures match undoubled[i]
              case Token(name) => Numeric(name) || Meridiem(name)
              case Literal(c) => Separator(upper, c)
    {
      assert undoubled[i] in items;
    }
  }

  lemma {:induction false} UndoubledKeepsMeridiems(items: seq<Item>)
    ensures Meridiems(UndoubleItems(items)) == Meridiems(items)
    decreases |items|
  {
    if |items| >= 2 && IsQuote(items[0]) && IsQuote(items[1]) {
      UndoubledKeepsMeridiems(items[2..]);
      assert items[1..][1..] == items[2..];
      assert ([items[0]] + UndoubleItems(items[2..]))[1..] == UndoubleItems(items[2..]);
    } else if items != [] {
      UndoubledKeepsMeridiems(items[1..]);
      assert ([items[0]] + UndoubleItems(items[1..]))[1..] == UndoubleItems(items[1..]);
    }
  }

  lemma UnfittingGuardRejects(upper: char -> string, raw: string, t: DateTime)
    requires ClockFormat(upper, FormatItems(raw)) && !GuardFits(raw)
    ensures !MatchHere(Asked(upper, raw), Rendering(raw, t))
  {
    assert HasDoubledQuote(raw) || TokenSwallowed(FormatItems(raw));
    var items, pieces := FormatItems(raw), GuardPieces(upper, NormalizeLiteral(raw));
    var undoubled := FormatItems(UndoubleQuotes(raw));
    assert Asked(upper, raw) == pieces + GUARD_END && Rendering(raw, t) == RenderAt(undoubled, t);
    hide *;
    UndoubledIsClock(upper, raw);
    GuardOfClock(upper, raw);
    if MatchHere(pieces + GUARD_END, RenderAt(undoubled, t)) {
      if TokenSwallowed(items) {
        AskedConcat(pieces, GUARD_END);
        AcceptedTextHoldsLetters(pieces + GUARD_END, RenderAt(undoubled, t));
        RenderingLetters(upper, undoubled, t);
        FormatItemsUndoubled(raw);
        UndoubledKeepsMeridiems(items);
      } else {
        AcceptedTextHoldsQuotes(upper, items, GUARD_END, RenderAt(undoubled, t));
        RenderingQuotes(upper, undoubled, t);
        FormatItemsKeepQuotes(raw);
        FormatItemsKeepQuotes(UndoubleQuotes(raw));
        UndoubleCounts(raw);
      }
    }
  }

  lemma ResolvesToUndoubled(expr: string)
    requires IsQuoted(Trim(expr))
    ensures ResolveFormatLiteral(Some(expr)) == Some(UndoubleQuotes(Inner(Trim(expr))))
  {
    QuotedNeedsNoTrim(Trim(expr));
  }

  /** The guard of an expression, if it has one, accepts the text. */
  ghost predicate GuardAccepts(upper: char -> string, expr: Option<string>, text: string) {
    && GuardRegex(upper, expr).Some?
    && Read(GuardRegex(upper, expr).value).Some?
    && Accepts(Read(GuardRegex(upper, expr).value).value, text)
  }

  lemma AcceptsAsked(upper: char -> string, expr: string, text: string)
    requires IsQuoted(Trim(expr))
    ensures GuardRegex(upper, Some(expr)).Some? && Read(GuardRegex(upper, Some(expr)).value).Some?
    ensures GuardAccepts(upper, Some(expr), text) <==> MatchHere(Asked(upper, Inner(Trim(expr))), text)
  {
    GuardReads(upper, expr);
    hide GuardRegex, GuardPieces, NormalizeLiteral, MatchHere, Read;
  }

  // ---------- padded formats ----------

  lemma PaddedParts(upper: char -> string, items: seq<Item>)
    requires items != [] && PaddedFormat(upper, items)
    ensures PaddedFormat(upper, items[1..])
    ensures match items[0]
            case Token(name) => name in PADDED_TOKENS || Meridiem(name)
            case Literal(c) => Separator(upper, c)
  {
  }

  lemma PaddedIsFull(t: DateTime, token: string)
    requires token in PADDED_TOKENS
    ensures Numeric(token) && !Unpadded(token)
  {
    if token in TEMPLATES { OwnWidth(t, token); } else { AliasWidth(t, token); }
  }

  /** One token's piece takes the token's text. */
  lemma MatchTokenText(t: DateTime, token: string, rest: seq<Piece>, tail: string)
    requires token in PADDED_TOKENS || Meridiem(token)
    requires MatchHere(rest, tail)
    ensures MatchHere(ItemPiece(Token(token)) + rest, TokenText(t, token) + tail)
  {
    if Meridiem(token) {
      MeridiemText(t, token);
      MatchMeridiem(token, rest, TokenText(t, token) + tail);
      hide TokenText, ItemPiece, MatchHere;
      assert (TokenText(t, token) + tail)[2..] == tail;
      return;
    }
    PaddedIsFull(t, token);
    hide TokenText, ItemPiece, MatchHere, Unpadded, Numeric;
    var text := TokenText(t, token);
    TextWidth(t, token);
    PieceOfToken(token);
    assert (text + tail)[|text|..] == tail;
    MatchDigits(MinWidth(token), MaxWidth(token), |text|, rest, text + tail);
    MatchRepFirst(Rep(Digit, MinWidth(token), Some(MaxWidth(token))), rest, text + tail);
  }

  lemma {:induction false} MatchRendering(upper: char -> string, items: seq<Item>, t: DateTime, rest: seq<Piece>,
                                          tail: string)
    requires PaddedFormat(upper, items)
    requires MatchHere(rest, tail)
    ensures MatchHere(ItemPieces(items) + rest, RenderAt(items, t) + tail)
  {
    if items == [] {
      NothingAhead(rest);
      NothingAhead(tail);
    } else {
      hide *;
      PaddedParts(upper, items);
      MatchRendering(upper, items[1..], t, rest, tail);
      ItemPiecesFirst(items);
      RenderAtFirst(items, t);
      ConcatAssoc(ItemPiece(items[0]), ItemPieces(items[1..]), rest);
      var pieces, after := ItemPieces(items[1..]) + rest, RenderAt(items[1..], t);
      match items[0]
      case Token(name) =>
        MatchTokenText(t, name, pieces, after + tail);
        ConcatAssoc(TokenText(t, name), after, tail);
      case Literal(c) =>
        MatchSeparator(upper, c, pieces, after + tail);
        ConcatAssoc([c], after, tail);
    }
  }

  /** Guard completeness. For a format of padded numeric tokens, meridiem markers and separators, the guard
      accepts every rendering of every datetime, whatever characters trail it, exactly when it fits the format.
      With a doubled quote or a swallowed token it accepts no rendering at all: the format writes the quote once
      and the guard asks for it twice, or the guard asks for more letters than the format writes. */
  lemma GuardCompleteness(upper: char -> string, expr: string, t: DateTime, trailing: string)
    requires IsQuoted(Trim(expr))
    requires PaddedFormat(upper, FormatItems(Inner(Trim(expr))))
    ensures ResolveFormatLiteral(Some(expr)) == Some(UndoubleQuotes(Inner(Trim(expr))))
    ensures GuardRegex(upper, Some(expr)).Some? && Read(GuardRegex(upper, Some(expr)).value).Some?
    ensures
      var rendering := RenderAt(FormatItems(UndoubleQuotes(Inner(Trim(expr)))), t);
      && (GuardFits(Inner(Trim(expr))) ==> GuardAccepts(upper, Some(expr), rendering + trailing))
      && (!GuardFits(Inner(Trim(expr))) ==> !GuardAccepts(upper, Some(expr), rendering))
  {
    var raw := Inner(Trim(expr));
    assert Rendering(raw, t) == RenderAt(FormatItems(UndoubleQuotes(raw)), t);
    assert ClockFormat(upper, FormatItems(raw));
    hide *;
    ResolvesToUndoubled(expr);
    AcceptsAsked(upper, expr, Rendering(raw, t));
    AcceptsAsked(upper, expr, Rendering(raw, t) + trailing);
    if GuardFits(raw) {
      FittingGuard(upper, raw, t);
      MatchAnyTail(trailing);
      MatchRendering(upper, FormatItems(raw), t, GUARD_END, trailing);
    } else {
      UnfittingGuardRejects(upper, raw, t);
    }
  }
}
