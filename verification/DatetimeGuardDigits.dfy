/** Guards of formats with unpadded numbers: the guard asks two digits of each, so it depends on the datetime
    whether it lets the rendering through. */
module DatetimeGuardDigits {
  import opened DatetimeGuard
  import opened DatetimeGuardLexing
  import opened DatetimeGuardPieces
  import opened DatetimeGuardProof
  import opened DatetimeQuotes
  import opened DatetimeRendering
  import opened DatetimeSql
  import opened DatetimeTokens
  import opened PostgresRegex
  import opened SqlLiteral
  import opened Strings
  import opened Wrappers

  predicate NoDigitLiterals(items: seq<Item>) {
    forall i :: 0 <= i < |items| && items[i].Literal? ==> !IsDigit(items[i].c)
  }

  /** The item ends a run of digits: a separator or a meridiem marker. */
  predicate EndsRun(item: Item) {
    item.Literal? || Meridiem(item.name)
  }

  /** In every run of numeric tokens there are as many digits as the guard asks for; `spare` counts those of the
      run so far. */
  predicate EnoughDigits(items: seq<Item>, t: DateTime, spare: int) {
    if items == [] then spare >= 0
    else if EndsRun(items[0]) then spare >= 0 && EnoughDigits(items[1..], t, 0)
    else EnoughDigits(items[1..], t, spare + |TokenText(t, items[0].name)| - MinWidth(items[0].name))
  }

  // ---------- runs of digits ----------

  /** The digits up to the first separator or marker. */
  function FirstRun(items: seq<Item>, t: DateTime): string {
    if items == [] || EndsRun(items[0]) then "" else TokenText(t, items[0].name) + FirstRun(items[1..], t)
  }

  lemma FormatParts(upper: char -> string, items: seq<Item>)
    requires items != [] && ClockFormat(upper, items) && NoDigitLiterals(items)
    ensures ClockFormat(upper, items[1..]) && NoDigitLiterals(items[1..])
    ensures match items[0]
            case Token(name) => Numeric(name) || Meridiem(name)
            case Literal(c) => Separator(upper, c) && !IsDigit(c)
  {
  }

  lemma {:induction false} RunLeads(upper: char -> string, items: seq<Item>, t: DateTime) returns (after: string)
    requires ClockFormat(upper, items) && NoDigitLiterals(items)
    ensures RenderAt(items, t) == FirstRun(items, t) + after && Digits(FirstRun(items, t))
    ensures after == "" || !IsDigit(after[0])
  {
    if items == [] {
      after := "";
    } else {
      FormatParts(upper, items);
      RenderAtFirst(items, t);
      if !EndsRun(items[0]) {
        hide TokenText, RenderAt, Numeric, ClockFormat, NoDigitLiterals;
        after := RunLeads(upper, items[1..], t);
        TextWidth(t, items[0].name);
        ConcatAssoc(TokenText(t, items[0].name), FirstRun(items[1..], t), after);
      } else {
        after := RenderAt(items, t);
        if items[0].Token? { MeridiemText(t, items[0].name); }
        NothingAhead(after);
      }
    }
  }

  /** A repetition of digits leaves any suffix that is within its bounds and behind digits. */
  lemma MatchRepDigits(min: nat, max: nat, rest: seq<Piece>, t: string)
    requires min <= max
    ensures MatchHere([Rep(Digit, min, Some(max))] + rest, t)
            <==> exists i :: min <= i <= max && i <= |t| && Digits(t[..i]) && MatchHere(rest, t[i..])
  {
    hide MatchHere;
    MatchRepFirst(Rep(Digit, min, Some(max)), rest, t);
    if MatchRep(Digit, min, Some(max), rest, t) {
      var i := RepLeavesSuffix(Digit, min, Some(max), rest, t);
      assert Digits(t[..i]);
    }
    if i :| min <= i <= max && i <= |t| && Digits(t[..i]) && MatchHere(rest, t[i..]) {
      assert forall k :: 0 <= k < i ==> t[k] == t[..i][k];
      MatchDigits(min, max, i, rest, t);
    }
  }

  // ---------- what is left of a run ----------

  /** The pieces match what is left of a text when between `low` and `high` of its leading digits are gone. */
  ghost predicate MatchLeaving(pieces: seq<Piece>, text: string, run: nat, low: nat, high: nat) {
    exists j :: low <= j <= high && j <= run && j <= |text| && MatchHere(pieces, text[j..])
  }

  /** The text has `run` leading digits. */
  predicate Leads(text: string, run: nat) {
    run <= |text| && Digits(text[..run]) && (|text| > run ==> !IsDigit(text[run]))
  }

  /** A repetition of digits moves the bounds on. */
  lemma RepMoves(min: nat, max: nat, rest: seq<Piece>, text: string, run: nat, low: nat, high: nat)
    requires Leads(text, run) && min <= max && low <= high
    ensures MatchLeaving([Rep(Digit, min, Some(max))] + rest, text, run, low, high)
            <==> MatchLeaving(rest, text, run, low + min, high + max)
  {
    hide MatchHere;
    var pieces := [Rep(Digit, min, Some(max))] + rest;
    if j :| low <= j <= high && j <= run && j <= |text| && MatchHere(pieces, text[j..]) {
      MatchRepDigits(min, max, rest, text[j..]);
      var i :| min <= i <= max && i <= |text[j..]| && Digits(text[j..][..i]) && MatchHere(rest, text[j..][i..]);
      DigitsEnd(text, run, j, i);
      assert text[j..][i..] == text[j + i..];
    }
    if k :| low + min <= k <= high + max && k <= run && k <= |text| && MatchHere(rest, text[k..]) {
      var i := if k - high > min then k - high else min;
      var j := k - i;
      DigitsWithin(text, run, j, i);
      assert text[j..][i..] == text[k..];
      MatchRepDigits(min, max, rest, text[j..]);
    }
  }

  lemma DigitsEnd(text: string, run: nat, j: nat, i: nat)
    requires Leads(text, run) && j <= run && j + i <= |text| && Digits(text[j..][..i])
    ensures j + i <= run
  {
    assert forall k :: j <= k < j + i ==> text[k] == text[j..][..i][k - j];
  }

  lemma DigitsWithin(text: string, run: nat, j: nat, i: nat)
    requires Leads(text, run) && j + i <= run
    ensures Digits(text[j..][..i])
  {
    assert forall k :: 0 <= k < i ==> text[j..][..i][k] == text[..run][j + k];
  }

  /** What an item that ends a run writes. */
  function EndText(item: Item, t: DateTime): string
    requires EndsRun(item)
  {
    match item case Token(name) => TokenText(t, name) case Literal(c) => [c]
  }

  /** Its pieces take what it writes, and no digit. */
  lemma EndMatches(upper: char -> string, item: Item, t: DateTime, rest: seq<Piece>, after: string)
    requires EndsRun(item) && (item.Literal? ==> Separator(upper, item.c) && !IsDigit(item.c))
    ensures MatchHere(ItemPiece(item) + rest, EndText(item, t) + after) <==> MatchHere(rest, after)
    ensures EndText(item, t) != "" && !IsDigit(EndText(item, t)[0])
  {
    match item
    case Literal(c) =>
      MatchSeparator(upper, c, rest, after);
    case Token(name) =>
      MeridiemText(t, name);
      MatchMeridiem(name, rest, TokenText(t, name) + after);
      hide TokenText, MatchHere, ItemPiece;
      assert (TokenText(t, name) + after)[2..] == after;
  }

  lemma EndTakesNoDigit(upper: char -> string, item: Item, rest: seq<Piece>, text: string)
    requires EndsRun(item) && (item.Literal? ==> Separator(upper, item.c) && !IsDigit(item.c))
    requires text != "" && IsDigit(text[0])
    ensures !MatchHere(ItemPiece(item) + rest, text)
  {
    match item
    case Literal(c) =>
      assert ItemPiece(item) == [CharPiece(c)];
      MatchOnce(if IsJsWhitespace(c) then Space else Char(c), rest, text);
    case Token(name) =>
      MatchMeridiem(name, rest, text);
  }

  /** The end of a run only matches when all digits in front of it are gone. */
  lemma SeparatorMoves(upper: char -> string, item: Item, t: DateTime, rest: seq<Piece>, digits: string,
      after: string, low: nat, high: nat)
    requires EndsRun(item) && (item.Literal? ==> Separator(upper, item.c) && !IsDigit(item.c))
    requires Digits(digits) && |digits| <= high
    ensures MatchLeaving(ItemPiece(item) + rest, digits + (EndText(item, t) + after), |digits|, low, high)
            <==> low <= |digits| && MatchHere(rest, after)
  {
    hide MatchHere, ItemPiece, TokenText, EndText, Separator;
    var text := digits + (EndText(item, t) + after);
    assert text[|digits|..] == EndText(item, t) + after;
    EndMatches(upper, item, t, rest, after);
    forall j | 0 <= j < |digits| ensures !MatchHere(ItemPiece(item) + rest, text[j..]) {
      assert IsDigit(digits[j]) && text[j..][0] == digits[j];
      EndTakesNoDigit(upper, item, rest, text[j..]);
    }
  }

  lemma EndMoves(digits: string, low: nat, high: nat)
    requires |digits| <= high
    ensures MatchLeaving(GUARD_END, digits, |digits|, low, high) <==> low <= |digits|
  {
    MatchAnyTail(digits[|digits|..]);
    hide MatchHere;
  }

  // ---------- the whole format ----------

  lemma RunOfText(upper: char -> string, items: seq<Item>, t: DateTime, digits: string)
    requires ClockFormat(upper, items) && NoDigitLiterals(items) && Digits(digits)
    ensures Leads(digits + RenderAt(items, t), |digits| + |FirstRun(items, t)|)
  {
    hide ClockFormat, NoDigitLiterals, RenderAt, FirstRun;
    var after := RunLeads(upper, items, t);
    var run := digits + FirstRun(items, t);
    DigitsConcat(digits, FirstRun(items, t));
    ConcatAssoc(digits, FirstRun(items, t), after);
    assert (run + after)[..|run|] == run;
  }

  lemma DigitsConcat(a: string, b: string)
    requires Digits(a) && Digits(b)
    ensures Digits(a + b)
  {
  }

  lemma NoDigits()
    ensures Digits("")
  {
  }

  /** The guard's pieces for `items` match a rendering behind `digits`, between `low` and `high` of which are
      gone. */
  ghost predicate Matches(items: seq<Item>, t: DateTime, digits: string, low: nat, high: nat) {
    MatchLeaving(ItemPieces(items) + GUARD_END, digits + RenderAt(items, t), |digits| + |FirstRun(items, t)|, low, high)
  }

  lemma TokenFirst(items: seq<Item>, t: DateTime, spare: int)
    requires items != [] && !EndsRun(items[0])
    ensures
      var name := items[0].name;
      && items[0] == Token(name)
      && FirstRun(items, t) == TokenText(t, name) + FirstRun(items[1..], t)
      && EnoughDigits(items, t, spare) == EnoughDigits(items[1..], t, spare + |TokenText(t, name)| - MinWidth(name))
  {
    hide TokenText, MinWidth;
  }

  lemma EndFirst(items: seq<Item>, t: DateTime, spare: int)
    requires items != [] && EndsRun(items[0])
    ensures FirstRun(items, t) == ""
    ensures EnoughDigits(items, t, spare) <==> spare >= 0 && EnoughDigits(items[1..], t, 0)
  {
  }

  lemma WidthsAreOrdered(token: string)
    ensures MinWidth(token) <= MaxWidth(token)
  {
  }

  lemma PiecesOfFirst(items: seq<Item>, first: seq<Piece>)
    requires items != [] && ItemPiece(items[0]) == first
    ensures ItemPieces(items) + GUARD_END == first + (ItemPieces(items[1..]) + GUARD_END)
  {
    hide *;
    ItemPiecesFirst(items);
    ConcatAssoc(first, ItemPieces(items[1..]), GUARD_END);
  }

  lemma TextOfFirst(items: seq<Item>, t: DateTime, digits: string)
    requires items != []
    ensures
      var first := match items[0] case Token(name) => TokenText(t, name) case Literal(c) => [c];
      && digits + RenderAt(items, t) == (digits + first) + RenderAt(items[1..], t)
      && digits + RenderAt(items, t) == digits + (first + RenderAt(items[1..], t))
  {
    hide *;
    RenderAtFirst(items, t);
    var first := match items[0] case Token(name) => TokenText(t, name) case Literal(c) => [c];
    ConcatAssoc(digits, first, RenderAt(items[1..], t));
  }

  lemma TokenMoves(upper: char -> string, items: seq<Item>, t: DateTime, digits: string, low: nat, high: nat)
    requires items != [] && ClockFormat(upper, items) && NoDigitLiterals(items) && !EndsRun(items[0])
    requires Digits(digits) && low <= high
    ensures
      var name := items[0].name;
      Matches(items, t, digits, low, high)
      <==> Matches(items[1..], t, digits + TokenText(t, name), low + MinWidth(name), high + MaxWidth(name))
  {
    hide MatchLeaving, TokenText, MinWidth, MaxWidth, ItemPieces, ItemPiece, RenderAt, FirstRun,
        ClockFormat, NoDigitLiterals, Digits, Leads, EnoughDigits;
    var name := items[0].name;
    TokenFirst(items, t, 0);
    FormatParts(upper, items);
    PieceOfToken(name);
    WidthsAreOrdered(name);
    PiecesOfFirst(items, [Rep(Digit, MinWidth(name), Some(MaxWidth(name)))]);
    TextOfFirst(items, t, digits);
    RunOfText(upper, items, t, digits);
    RepMoves(MinWidth(name), MaxWidth(name), ItemPieces(items[1..]) + GUARD_END, digits + RenderAt(items, t),
             |digits| + |FirstRun(items, t)|, low, high);
  }

  lemma EndMovesOn(upper: char -> string, items: seq<Item>, t: DateTime, digits: string, low: nat, high: nat)
    requires items != [] && ClockFormat(upper, items) && NoDigitLiterals(items) && EndsRun(items[0])
    requires Digits(digits) && |digits| <= high
    ensures Matches(items, t, digits, low, high) <==> low <= |digits| && Matches(items[1..], t, "", 0, 0)
  {
    hide MatchLeaving, MatchHere, ItemPieces, ItemPiece, RenderAt, FirstRun, ClockFormat, NoDigitLiterals,
        Digits, EnoughDigits, Separator, TokenText;
    var rest, pieces := RenderAt(items[1..], t), ItemPieces(items[1..]) + GUARD_END;
    EndFirst(items, t, 0);
    FormatParts(upper, items);
    PiecesOfFirst(items, ItemPiece(items[0]));
    TextOfFirst(items, t, digits);
    SeparatorMoves(upper, items[0], t, pieces, digits, rest, low, high);
    NothingAhead(rest);
    NothingGone(pieces, rest, |""| + |FirstRun(items[1..], t)|);
  }

  /** They do exactly when there are enough digits. */
  lemma {:induction false} DigitsDecide(upper: char -> string, items: seq<Item>, t: DateTime, digits: string,
                                        low: nat, high: nat)
    requires ClockFormat(upper, items) && NoDigitLiterals(items)
    requires Digits(digits) && |digits| <= high && low <= high
    ensures Matches(items, t, digits, low, high) <==> EnoughDigits(items, t, |digits| - low)
    decreases items
  {
    hide *;
    if items == [] {
      NothingDecides(t, digits, low, high);
    } else {
      FormatParts(upper, items);
      RunTokens(items[0]);
      if !EndsRun(items[0]) {
        var name := items[0].name;
        TextWidth(t, name);
        WidthsAreOrdered(name);
        TokenMoves(upper, items, t, digits, low, high);
        TokenFirst(items, t, |digits| - low);
        DigitsConcat(digits, TokenText(t, name));
        DigitsDecide(upper, items[1..], t, digits + TokenText(t, name), low + MinWidth(name), high + MaxWidth(name));
      } else {
        EndMovesOn(upper, items, t, digits, low, high);
        EndFirst(items, t, |digits| - low);
        NoDigits();
        DigitsDecide(upper, items[1..], t, "", 0, 0);
      }
    }
  }

  lemma RunTokens(item: Item)
    ensures !EndsRun(item) ==> item.Token? && item == Token(item.name) && !Meridiem(item.name)
  {
  }

  lemma NothingDecides(t: DateTime, digits: string, low: nat, high: nat)
    requires |digits| <= high
    ensures Matches([], t, digits, low, high) <==> EnoughDigits([], t, |digits| - low)
  {
    EndMoves(digits, low, high);
    assert digits + "" == digits && [] + GUARD_END == GUARD_END;
    hide MatchLeaving, MatchHere;
  }

  lemma NothingGone(pieces: seq<Piece>, text: string, run: nat)
    ensures MatchLeaving(pieces, text, run, 0, 0) <==> MatchHere(pieces, text)
  {
    assert text[0..] == text;
    hide MatchHere;
    assert MatchHere(pieces, text) ==> MatchHere(pieces, text[0..]);
  }

  // ---------- trailing characters ----------

  ghost predicate Repetitions(pieces: seq<Piece>) {
    forall i :: 0 <= i < |pieces| ==> pieces[i].Rep?
  }

  /** What a guard accepts it accepts with anything behind it. */
  lemma {:induction false} TrailingIsFree(pieces: seq<Piece>, t: string, trailing: string)
    requires Repetitions(pieces) && MatchHere(pieces + GUARD_END, t)
    ensures MatchHere(pieces + GUARD_END, t + trailing)
    decreases |t|, |pieces|, 0
  {
    if pieces == [] {
      MatchAnyTail(t + trailing);
      assert pieces + GUARD_END == GUARD_END;
    } else {
      var rest := pieces[1..];
      assert pieces + GUARD_END == [pieces[0]] + (rest + GUARD_END);
      MatchRepFirst(pieces[0], rest + GUARD_END, t);
      MatchRepFirst(pieces[0], rest + GUARD_END, t + trailing);
      TrailingBehindRep(pieces[0].atom, pieces[0].min, pieces[0].max, rest, t, trailing);
    }
  }

  lemma {:induction false} TrailingBehindRep(atom: Atom, min: nat, max: Option<nat>, rest: seq<Piece>, t: string,
                                             trailing: string)
    requires Repetitions(rest) && MatchRep(atom, min, max, rest + GUARD_END, t)
    ensures MatchRep(atom, min, max, rest + GUARD_END, t + trailing)
    decreases |t|, |rest|, 1
  {
    if min == 0 && MatchHere(rest + GUARD_END, t) {
      TrailingIsFree(rest, t, trailing);
    } else {
      var fewer := if min == 0 then 0 else min - 1;
      var less := if max.Some? && max.value > 0 then Some(max.value - 1) else max;
      assert (t + trailing)[1..] == t[1..] + trailing;
      TrailingBehindRep(atom, fewer, less, rest, t[1..], trailing);
    }
  }

  lemma EndPiecesAreRepetitions(item: Item)
    requires EndsRun(item)
    ensures Repetitions(ItemPiece(item))
  {
    if item.Token? { PieceOfMeridiem(item.name); }
  }

  lemma {:induction false} ItemPiecesAreRepetitions(upper: char -> string, items: seq<Item>)
    requires ClockFormat(upper, items)
    ensures Repetitions(ItemPieces(items))
  {
    if items != [] {
      hide ClockFormat, Numeric, ItemPieces, ItemPiece;
      ClockTail(upper, items);
      ItemPiecesFirst(items);
      ItemPiecesAreRepetitions(upper, items[1..]);
      if EndsRun(items[0]) { EndPiecesAreRepetitions(items[0]); } else { PieceOfToken(items[0].name); }
    }
  }

  // ---------- main results ----------

  lemma AllMatch(items: seq<Item>, t: DateTime)
    ensures Matches(items, t, "", 0, 0) <==> MatchHere(ItemPieces(items) + GUARD_END, RenderAt(items, t))
  {
    hide MatchLeaving, MatchHere, ItemPieces, RenderAt, FirstRun;
    NothingAhead(RenderAt(items, t));
    NothingGone(ItemPieces(items) + GUARD_END, RenderAt(items, t), |""| + |FirstRun(items, t)|);
  }

  lemma DigitsDecideAll(upper: char -> string, items: seq<Item>, t: DateTime, trailing: string)
    requires ClockFormat(upper, items) && NoDigitLiterals(items)
    ensures MatchHere(ItemPieces(items) + GUARD_END, RenderAt(items, t)) <==> EnoughDigits(items, t, 0)
    ensures EnoughDigits(items, t, 0) ==> MatchHere(ItemPieces(items) + GUARD_END, RenderAt(items, t) + trailing)
  {
    hide *;
    var pieces, rendering := ItemPieces(items), RenderAt(items, t);
    NoDigits();
    AllMatch(items, t);
    DigitsDecide(upper, items, t, "", 0, 0);
    ItemPiecesAreRepetitions(upper, items);
    if EnoughDigits(items, t, 0) { TrailingIsFree(pieces, rendering, trailing); }
  }

  /** The rendering fits: the guard fits the format, and every run of tokens has enough digits. */
  predicate RenderingFits(raw: string, t: DateTime) {
    GuardFits(raw) && EnoughDigits(FormatItems(raw), t, 0)
  }

  lemma AskedOfClock(upper: char -> string, raw: string, t: DateTime, trailing: string)
    requires ClockFormat(upper, FormatItems(raw)) && NoDigitLiterals(FormatItems(raw))
    ensures MatchHere(Asked(upper, raw), Rendering(raw, t)) <==> RenderingFits(raw, t)
    ensures RenderingFits(raw, t) ==> MatchHere(Asked(upper, raw), Rendering(raw, t) + trailing)
  {
    assert RenderingFits(raw, t) <==> GuardFits(raw) && EnoughDigits(FormatItems(raw), t, 0);
    hide *;
    if GuardFits(raw) {
      FittingGuard(upper, raw, t);
      DigitsDecideAll(upper, FormatItems(raw), t, trailing);
    } else {
      UnfittingGuardRejects(upper, raw, t);
    }
  }

  /** For a format of numeric tokens, padded or not, and separators other than digits, the guard accepts the
      rendering of a datetime exactly when it fits the format and every run of tokens has enough digits; with
      any trailing characters then, too. */
  lemma GuardExact(upper: char -> string, expr: string, t: DateTime, trailing: string)
    requires IsQuoted(Trim(expr))
    requires ClockFormat(upper, FormatItems(Inner(Trim(expr)))) && NoDigitLiterals(FormatItems(Inner(Trim(expr))))
    ensures
      var raw := Inner(Trim(expr));
      var rendering := RenderAt(FormatItems(UndoubleQuotes(raw)), t);
      && (GuardAccepts(upper, Some(expr), rendering) <==> RenderingFits(raw, t))
      && (RenderingFits(raw, t) ==> GuardAccepts(upper, Some(expr), rendering + trailing))
  {
    var raw := Inner(Trim(expr));
    assert Rendering(raw, t) == RenderAt(FormatItems(UndoubleQuotes(raw)), t);
    hide *;
    AcceptsAsked(upper, expr, Rendering(raw, t));
    AcceptsAsked(upper, expr, Rendering(raw, t) + trailing);
    AskedOfClock(upper, raw, t, trailing);
  }

  ghost predicate NoMilliseconds(items: seq<Item>) {
    forall i :: 0 <= i < |items| && items[i].Token? ==> !IsMillisecond(items[i].name)
  }

  /** No unpadded number has only one digit. */
  ghost predicate NoShortNumber(items: seq<Item>, t: DateTime) {
    forall i :: 0 <= i < |items| && items[i].Token? && Unpadded(items[i].name) ==> |TokenText(t, items[i].name)| == 2
  }

  lemma WidthWithoutMilliseconds(t: DateTime, token: string)
    requires Numeric(token) && !IsMillisecond(token)
    ensures |TokenText(t, token)| - MinWidth(token) ==
            if Unpadded(token) && |TokenText(t, token)| != 2 then -1 else 0
  {
    TextWidth(t, token);
    UnpaddedWidth(token);
    hide TokenText, Unpadded, MinWidth, MaxWidth;
  }

  /** Without milliseconds, there are enough digits exactly when no unpadded number has only one. */
  lemma {:induction false} EnoughWithoutMilliseconds(upper: char -> string, items: seq<Item>, t: DateTime, spare: int)
    requires ClockFormat(upper, items) && NoMilliseconds(items) && spare <= 0
    ensures EnoughDigits(items, t, spare) <==> spare == 0 && NoShortNumber(items, t)
    decreases items
  {
    hide *;
    if items == [] {
      NoItems(t, spare);
      NoneShort(t);
    } else {
      ClockTail(upper, items);
      NoShortParts(items, t);
      RunTokens(items[0]);
      if EndsRun(items[0]) {
        EndIsNotShort(items[0]);
        EndFirst(items, t, spare);
        EnoughWithoutMilliseconds(upper, items[1..], t, 0);
      } else {
        var name := items[0].name;
        TokenFirst(items, t, spare);
        WidthWithoutMilliseconds(t, name);
        EnoughWithoutMilliseconds(upper, items[1..], t, spare + |TokenText(t, name)| - MinWidth(name));
      }
    }
  }

  lemma EndIsNotShort(item: Item)
    requires EndsRun(item)
    ensures !(item.Token? && Unpadded(item.name))
  {
  }

  lemma UnpaddedWidth(token: string)
    ensures Unpadded(token) ==> MinWidth(token) == MaxWidth(token) == 2
    ensures !IsMillisecond(token) ==> MinWidth(token) == MaxWidth(token)
  {
  }

  lemma NoShortParts(items: seq<Item>, t: DateTime)
    requires items != []
    ensures NoShortNumber(items, t) <==>
            NoShortNumber(items[1..], t)
            && (items[0].Token? && Unpadded(items[0].name) ==> |TokenText(t, items[0].name)| == 2)
    ensures NoMilliseconds(items) ==> NoMilliseconds(items[1..]) && (items[0].Token? ==> !IsMillisecond(items[0].name))
  {
    hide TokenText, Unpadded;
    assert items == [items[0]] + items[1..];
    assert forall i :: 0 < i < |items| ==> items[i] == items[1..][i - 1];
  }

  /** With milliseconds in the same run, a number of one digit can go unnoticed: the milliseconds' piece is
      content with fewer digits than they have. */
  lemma EnoughWithMilliseconds(t: DateTime)
    ensures EnoughDigits([Token("SSS"), Token("HH24"), Token("M")], t, 0)
  {
    MillisecondItems();
    var a, b, c := "SSS", "HH24", "M";
    TextWidth(t, a);
    TextWidth(t, b);
    TextWidth(t, c);
    hide Numeric, TokenText, Unpadded;
    ThreeTokensEnough(a, b, c, t);
  }

  lemma MillisecondItems()
    ensures Numeric("SSS") && Numeric("HH24") && Numeric("M") && !Unpadded("SSS") && !Unpadded("HH24")
    ensures MinWidth("SSS") == 1 && MaxWidth("SSS") == 3
    ensures MinWidth("HH24") == MaxWidth("HH24") == 2 && MinWidth("M") == 2
  {
    assert "SSS" in ALIASES && "HH24" in TEMPLATES;
  }

  lemma ThreeTokensEnough(a: string, b: string, c: string, t: DateTime)
    requires |TokenText(t, a)| + |TokenText(t, b)| + |TokenText(t, c)| >= MinWidth(a) + MinWidth(b) + MinWidth(c)
    requires !Meridiem(a) && !Meridiem(b) && !Meridiem(c)
    ensures EnoughDigits([Token(a), Token(b), Token(c)], t, 0)
  {
    assert !EndsRun(Token(a)) && !EndsRun(Token(b)) && !EndsRun(Token(c));
    hide *;
    var items := [Token(a), Token(b), Token(c)];
    assert items[1..] == [Token(b), Token(c)] && items[1..][1..] == [Token(c)] && items[1..][1..][1..] == [];
    var spareA := |TokenText(t, a)| - MinWidth(a);
    var spareB := spareA + |TokenText(t, b)| - MinWidth(b);
    var spareC := spareB + |TokenText(t, c)| - MinWidth(c);
    TokenFirst(items, t, 0);
    TokenFirst(items[1..], t, spareA);
    TokenFirst(items[1..][1..], t, spareB);
    NoItems(t, spareC);
  }

  lemma NoneShort(t: DateTime)
    ensures NoShortNumber([], t)
  {
  }

  lemma NoItems(t: DateTime, spare: int)
    ensures EnoughDigits([], t, spare) <==> spare >= 0
  {
  }
}
