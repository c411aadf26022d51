/** The guard as a regular expression: whatever the format, its pattern can be read, and as the pieces the
    second lexer means. */
module DatetimeGuardPieces {
  import opened DatetimeGuard
  import opened DatetimeSql
  import opened DatetimeTokens
  import opened PostgresRegex
  import opened RegexEscape
  import opened SqlLiteral
  import opened Strings
  import opened Wrappers

  /** `.*$`, the end of every guard. */
  const GUARD_END: seq<Piece> := [Rep(Any, 0, None), End]

  /** What a guard token accepts. */
  function TokenPieces(token: string): seq<Piece> {
    if token == "AM" then [Once(OneOf("AaPp")), Once(OneOf("Mm"))]
    else if token == "MS" then [Rep(Digit, 1, Some(3))]
    else if token == "YYYY" then [Rep(Digit, 4, Some(4))]
    else if token == "YYY" then [Rep(Digit, 3, Some(3))]
    else if token == "Y" then [Once(Digit)]
    else [Rep(Digit, 2, Some(2))]
  }

  function CharPiece(c: char): Piece {
    Once(if IsJsWhitespace(c) then Space else Char(c))
  }

  /** What one turn of the guard loop asks for. */
  function StepPieces(upper: char -> string, s: string): seq<Piece>
    requires s != ""
  {
    var upperRemaining := ToUpperCase(upper, s);
    match LongestPrefix(GUARD_TOKENS, upperRemaining, MAX_TOKEN_LENGTH)
    case Some(token) => TokenPieces(token)
    case None => if Take(upperRemaining, 2) in OPTIONAL_TOKENS then [] else [CharPiece(s[0])]
  }

  /** What the guard of a normalized format asks for. */
  function GuardPieces(upper: char -> string, s: string): seq<Piece>
    decreases |s|
  {
    if s == "" then [] else StepPieces(upper, s) + GuardPieces(upper, Drop(s, GuardStep(upper, s).1))
  }

  /** The two shapes of repetition the token patterns use. */
  lemma ReadExactDigits(width: char, after: string)
    requires IsDigit(width)
    ensures
      var s := ['\\', 'd', '{', width, '}'] + after;
      && ReadAtom(s) == Some((Digit, s[2..]))
      && ReadQuantifier(s[2..]) == Some((width as int - '0' as int, Some(width as int - '0' as int), after))
  {
    var s := ['\\', 'd', '{', width, '}'] + after;
    var n := width as int - '0' as int;
    var t := s[2..][1..];
    assert t[0] == width && t[1..] == ['}'] + after && t[1..][1..] == after;
    assert ReadNat(t, 0) == ReadNat(t[1..], n) == (n, t[1..]);
  }

  lemma ReadMillisecondDigits(after: string)
    ensures
      var s := "\\d{1,3}" + after;
      && ReadAtom(s) == Some((Digit, s[2..]))
      && ReadQuantifier(s[2..]) == Some((1, Some(3), after))
  {
    var s := "\\d{1,3}" + after;
    var t := s[2..][1..];
    assert t[0] == '1' && t[1..] == ",3}" + after;
    assert ReadNat(t, 0) == ReadNat(t[1..], 1) == (1, t[1..]);
    var u := t[1..][1..];
    assert u[0] == '3' && u[1..] == "}" + after && u[1..][1..] == after;
    assert ReadNat(u, 0) == ReadNat(u[1..], 3) == (3, u[1..]);
  }

  lemma ReadBracketAtom(members: string, after: string)
    requires members != "" && forall c :: c in members ==> c !in "]^-[\\"
    ensures ReadAtom("[" + members + "]" + after) == Some((OneOf(members), after))
  {
    var s := "[" + members + "]" + after;
    assert s[1..] == members + "]" + after;
    assert "" + members == members;
    ReadBracketOf(members, after, "");
  }

  lemma {:induction false} ReadBracketOf(members: string, after: string, read: string)
    requires read + members != "" && forall c :: c in members ==> c !in "]^-[\\"
    ensures ReadBracket(members + "]" + after, read) == Some((OneOf(read + members), after))
    decreases |members|
  {
    var s := members + "]" + after;
    if members == "" {
      assert s[1..] == after && read + members == read;
    } else {
      var rest := members[1..] + "]" + after;
      ReadBracketOf(members[1..], after, read + [members[0]]);
      assert s[0] == members[0] && s[1..] == rest;
      assert s[0] !in "]^-[\\" && s[0] != ']';
      assert ReadBracket(s, read) == ReadBracket(rest, read + [members[0]]);
      assert (read + [members[0]]) + members[1..] == read + members;
    }
  }

  lemma ReadMeridiem(after: string, pieces: seq<Piece>)
    requires NoQuantifier(after) && ReadPieces(after) == Some(pieces)
    ensures ReadPieces("[AaPp][Mm]" + after) == Some(TokenPieces("AM") + pieces)
  {
    hide ReadPieces, ReadAtom, ReadBracket;
    var second := "[" + "Mm" + "]" + after;
    ReadBracketAtom("Mm", after);
    ReadBracketAtom("AaPp", second);
    assert "[AaPp][Mm]" + after == "[" + "AaPp" + "]" + second;
    ReadPiece(second, OneOf("Mm"), after, 1, Some(1), after, pieces);
    ReadPiece("[AaPp][Mm]" + after, OneOf("AaPp"), second, 1, Some(1), second, [Once(OneOf("Mm"))] + pieces);
    assert TokenPieces("AM") + pieces == [Once(OneOf("AaPp"))] + ([Once(OneOf("Mm"))] + pieces);
  }

  lemma ReadTokenPattern(token: string, after: string, pieces: seq<Piece>)
    requires token in GUARD_TOKENS
    requires NoQuantifier(after) && ReadPieces(after) == Some(pieces)
    ensures NoQuantifier(GuardPattern(token) + after)
    ensures ReadPieces(GuardPattern(token) + after) == Some(TokenPieces(token) + pieces)
  {
    var s := GuardPattern(token) + after;
    if token == "AM" {
      ReadMeridiem(after, pieces);
    } else if token == "Y" {
      assert s[2..] == after;
      ReadPiece(s, Digit, after, 1, Some(1), after, pieces);
    } else if token == "MS" {
      ReadMillisecondDigits(after);
      ReadPiece(s, Digit, s[2..], 1, Some(3), after, pieces);
    } else if token == "YYYY" {
      ReadExactDigits('4', after);
      ReadPiece(s, Digit, s[2..], 4, Some(4), after, pieces);
    } else if token == "YYY" {
      ReadExactDigits('3', after);
      ReadPiece(s, Digit, s[2..], 3, Some(3), after, pieces);
    } else {
      ReadExactDigits('2', after);
      ReadPiece(s, Digit, s[2..], 2, Some(2), after, pieces);
    }
  }

  lemma ReadCharPattern(c: char, after: string, pieces: seq<Piece>)
    requires NoQuantifier(after) && ReadPieces(after) == Some(pieces)
    ensures NoQuantifier(CharPattern(c) + after)
    ensures ReadPieces(CharPattern(c) + after) == Some([CharPiece(c)] + pieces)
  {
    if IsJsWhitespace(c) {
      var s := "\\s" + after;
      assert s[2..] == after;
      ReadPiece(s, Space, after, 1, Some(1), after, pieces);
    } else {
      ReadEscapedChar(c, after, pieces);
    }
  }

  lemma ReadStep(upper: char -> string, s: string, after: string, pieces: seq<Piece>)
    requires s != "" && NoQuantifier(after) && ReadPieces(after) == Some(pieces)
    ensures NoQuantifier(GuardStep(upper, s).0 + after)
    ensures ReadPieces(GuardStep(upper, s).0 + after) == Some(StepPieces(upper, s) + pieces)
  {
    hide ReadPieces, GuardPattern, TokenPieces, CharPattern, CharPiece, LongestPrefix, ToUpperCase;
    var upperRemaining := ToUpperCase(upper, s);
    match LongestPrefix(GUARD_TOKENS, upperRemaining, MAX_TOKEN_LENGTH)
    case Some(token) => ReadTokenPattern(token, after, pieces);
    case None =>
      if Take(upperRemaining, 2) in OPTIONAL_TOKENS {
        NothingAhead(after);
        NothingAhead(pieces);
      } else {
        ReadCharPattern(s[0], after, pieces);
      }
  }

  lemma GuardFirst(upper: char -> string, s: string)
    requires s != ""
    ensures
      var (pattern, width) := GuardStep(upper, s);
      && GuardBody(upper, s) == pattern + GuardBody(upper, Drop(s, width))
      && GuardPieces(upper, s) == StepPieces(upper, s) + GuardPieces(upper, Drop(s, width))
      && |Drop(s, width)| < |s|
  {
  }

  /** Every guard is a readable pattern, and reads as the pieces its lexer means. */
  lemma {:induction false} GuardBodyReads(upper: char -> string, s: string, after: string, pieces: seq<Piece>)
    requires NoQuantifier(after) && ReadPieces(after) == Some(pieces)
    ensures NoQuantifier(GuardBody(upper, s) + after)
    ensures ReadPieces(GuardBody(upper, s) + after) == Some(GuardPieces(upper, s) + pieces)
    decreases |s|
  {
    if s == "" {
      assert GuardBody(upper, s) == "" && GuardPieces(upper, s) == [];
      hide *;
      NothingAhead(after);
      NothingAhead(pieces);
    } else {
      hide *;
      GuardFirst(upper, s);
      var (pattern, width) := GuardStep(upper, s);
      var rest := Drop(s, width);
      GuardBodyReads(upper, rest, after, pieces);
      ReadStep(upper, s, GuardBody(upper, rest) + after, GuardPieces(upper, rest) + pieces);
      ConcatAssoc(pattern, GuardBody(upper, rest), after);
      ConcatAssoc(StepPieces(upper, s), GuardPieces(upper, rest), pieces);
    }
  }

  /** Writing the normalized format as a literal and reading it again changes nothing. */
  lemma GuardOfQuoted(upper: char -> string, expr: string)
    requires IsQuoted(Trim(expr))
    ensures GuardRegex(upper, Some(expr)) == Some("^" + GuardBody(upper, NormalizeLiteral(Inner(Trim(expr)))) + ".*$")
  {
    var normalized := NormalizeLiteral(Inner(Trim(expr)));
    assert Trim(expr) != "";
    LiteralRoundTrip(normalized);
    assert NormalizeFormatExpression(Some(expr)) == ToSqlStringLiteral(normalized);
  }

  lemma ReadGuardEnd()
    ensures NoQuantifier(".*$") && ReadPieces(".*$") == Some(GUARD_END)
  {
    assert [Rep(Any, 0, None)] + [End] == GUARD_END;
    ReadPiece(".*$", Any, "*$", 0, None, "$", [End]);
  }

  lemma ReadAnchored(body: string, pieces: seq<Piece>)
    requires ReadPieces(body) == Some(pieces)
    ensures Read("^" + body) == Some(Regex(true, pieces))
  {
    assert ("^" + body)[1..] == body;
  }

  /** The guard of any quoted format expression, read as a regular expression. */
  lemma GuardReads(upper: char -> string, expr: string)
    requires IsQuoted(Trim(expr))
    ensures GuardRegex(upper, Some(expr)).Some?
    ensures Read(GuardRegex(upper, Some(expr)).value)
         == Some(Regex(true, GuardPieces(upper, NormalizeLiteral(Inner(Trim(expr)))) + GUARD_END))
  {
    hide *;
    var normalized := NormalizeLiteral(Inner(Trim(expr)));
    var body := GuardBody(upper, normalized);
    GuardOfQuoted(upper, expr);
    ReadGuardEnd();
    GuardBodyReads(upper, normalized, ".*$", GUARD_END);
    ReadAnchored(body + ".*$", GuardPieces(upper, normalized) + GUARD_END);
    ConcatAssoc("^", body, ".*$");
  }
}
