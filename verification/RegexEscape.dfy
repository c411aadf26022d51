/** The regular-expression escapers of the backend, proved exact against the decoders PostgreSQL
    applies to their output: the regex reader of module `PostgresRegex`, and for JSON path
    expressions the string-literal reader in front of it (PostgreSQL 16 manual, section 8.14.7). */
module RegexEscape {
  import opened Wrappers
  import opened PostgresRegex
  import opened Strings

  const REGEX_SPECIALS: string := ".*+?^${}()|[]\\"

  function EscapeRegexChar(c: char): string {
    if c in REGEX_SPECIALS then ['\\', c] else [c]
  }

  function EscapePostgresRegex(input: string): string {
    if input == "" then "" else EscapeRegexChar(input[0]) + EscapePostgresRegex(input[1..])
  }

  function EscapeJsonbChar(c: char): string {
    if c == '\\' then "\\\\\\\\"
    else if c == '"' then "\\\""
    else if c in REGEX_SPECIALS then ['\\', '\\', c]
    else [c]
  }

  function EscapeJsonbRegex(input: string): string {
    if input == "" then "" else EscapeJsonbChar(input[0]) + EscapeJsonbRegex(input[1..])
  }

  /** What lies between the quotes of a JSON path string literal, decoded. A bare quote would end the
      literal early, so it is an error here; the `\x` and `\u` code escapes are not read. */
  function DecodeJsonPathLiteral(s: string): Option<string> {
    if s == "" then Some("")
    else if s[0] == '"' then None
    else if s[0] != '\\' then Prepend(s[0], DecodeJsonPathLiteral(s[1..]))
    else if |s| == 1 || s[1] == 'x' || s[1] == 'u' then None
    else Prepend(JsonPathEscape(s[1]), DecodeJsonPathLiteral(s[2..]))
  }

  function Prepend(c: char, rest: Option<string>): Option<string> {
    match rest
    case None => None
    case Some(s) => Some([c] + s)
  }

  function JsonPathEscape(c: char): char {
    match c
    case 'b' => 8 as char
    case 'f' => 12 as char
    case 'n' => '\n'
    case 'r' => '\r'
    case 't' => '\t'
    case 'v' => 11 as char
    case _ => c
  }

  function LiteralPieces(s: string): (r: seq<Piece>)
    ensures |r| == |s|
    ensures forall i :: 0 <= i < |s| ==> r[i] == Once(Char(s[i]))
  {
    if s == "" then [] else [Once(Char(s[0]))] + LiteralPieces(s[1..])
  }

  lemma EscapedStartsClean(s: string, after: string)
    requires NoQuantifier(after)
    ensures NoQuantifier(EscapePostgresRegex(s) + after)
  {
    if s == "" {
      assert EscapePostgresRegex(s) + after == after;
    } else {
      var e := EscapePostgresRegex(s) + after;
      assert e[0] == EscapeRegexChar(s[0])[0];
    }
  }

  /** One escaped character is read back as that one literal character. */
  lemma ReadEscapedChar(c: char, after: string, pieces: seq<Piece>)
    requires NoQuantifier(after)
    requires ReadPieces(after) == Some(pieces)
    ensures ReadPieces(EscapeRegexChar(c) + after) == Some([Once(Char(c))] + pieces)
  {
    var s := EscapeRegexChar(c) + after;
    if c in REGEX_SPECIALS {
      assert s[0] == '\\' && s[1] == c && s[2..] == after;
      assert !IsAlpha(c) && !IsDigit(c);
    } else {
      assert s[0] == c && s[1..] == after;
      assert c !in "^$()|*+?{" && c != '.' && c != '[' && c != '\\';
    }
    ReadPiece(s, Char(c), after, 1, Some(1), after, pieces);
  }

  /** Reading an escaped string back, whatever unquantified pattern follows it. */
  lemma {:induction false} ReadEscaped(s: string, after: string, pieces: seq<Piece>)
    requires NoQuantifier(after)
    requires ReadPieces(after) == Some(pieces)
    ensures ReadPieces(EscapePostgresRegex(s) + after) == Some(LiteralPieces(s) + pieces)
  {
    if s == "" {
      assert EscapePostgresRegex(s) + after == after;
      assert LiteralPieces(s) + pieces == pieces;
    } else {
      var tail := EscapePostgresRegex(s[1..]) + after;
      ReadEscaped(s[1..], after, pieces);
      EscapedStartsClean(s[1..], after);
      ReadEscapedChar(s[0], tail, LiteralPieces(s[1..]) + pieces);
      assert EscapePostgresRegex(s) + after == EscapeRegexChar(s[0]) + tail;
      assert LiteralPieces(s) + pieces == [Once(Char(s[0]))] + (LiteralPieces(s[1..]) + pieces);
    }
  }

  lemma {:induction false} MatchLiteral(s: string, rest: seq<Piece>, t: string)
    ensures MatchHere(LiteralPieces(s) + rest, t) <==> s <= t && MatchHere(rest, t[|s|..])
  {
    if s == "" {
      assert LiteralPieces(s) + rest == rest && t[0..] == t;
    } else {
      assert LiteralPieces(s) + rest == [Once(Char(s[0]))] + (LiteralPieces(s[1..]) + rest);
      MatchOnce(Char(s[0]), LiteralPieces(s[1..]) + rest, t);
      if t != "" && t[0] == s[0] {
        MatchLiteral(s[1..], rest, t[1..]);
        assert s <= t <==> s[1..] <= t[1..] by {
          assert s == [s[0]] + s[1..] && t == [t[0]] + t[1..];
        }
        if s <= t {
          assert t[1..][|s| - 1..] == t[|s|..];
        }
      }
    }
  }

  /** `escapePostgresRegex(s)` finds exactly the texts that contain `s`. */
  lemma EscapedSearchExact(s: string, t: string)
    ensures Read(EscapePostgresRegex(s)).Some?
    ensures Accepts(Read(EscapePostgresRegex(s)).value, t) <==> Contains(t, s)
  {
    var e, pieces := EscapePostgresRegex(s), LiteralPieces(s);
    ReadEscaped(s, "", []);
    assert e + "" == e && pieces + [] == pieces;
    assert e == "" || e[0] != '^' by {
      if s != "" { assert e[0] == EscapeRegexChar(s[0])[0]; }
    }
    assert Read(e) == Some(Regex(false, pieces));
    forall i | 0 <= i <= |t| ensures MatchHere(pieces, t[i..]) <==> s <= t[i..] {
      MatchLiteral(s, [], t[i..]);
      assert MatchHere([], t[i..]);
    }
  }

  /** Between anchors, `escapePostgresRegex(s)` accepts exactly `s`. */
  lemma EscapedAnchoredExact(s: string, t: string)
    ensures Read("^" + EscapePostgresRegex(s) + "$").Some?
    ensures Accepts(Read("^" + EscapePostgresRegex(s) + "$").value, t) <==> t == s
  {
    var e, pieces := EscapePostgresRegex(s), LiteralPieces(s) + [End];
    ReadEscaped(s, "$", [End]);
    assert ("^" + e + "$")[1..] == e + "$";
    assert Read("^" + e + "$") == Some(Regex(true, pieces));
    MatchLiteral(s, [End], t);
    if s <= t {
      assert MatchHere([End], t[|s|..]) <==> t[|s|..] == "";
    }
  }

  lemma DecodePair(c: char, rest: string)
    requires c == '\\' || c == '"'
    ensures DecodeJsonPathLiteral(['\\', c] + rest) == Prepend(c, DecodeJsonPathLiteral(rest))
  {
    assert (['\\', c] + rest)[2..] == rest;
  }

  lemma DecodePlain(c: char, rest: string)
    requires c != '\\' && c != '"'
    ensures DecodeJsonPathLiteral([c] + rest) == Prepend(c, DecodeJsonPathLiteral(rest))
  {
    assert ([c] + rest)[1..] == rest;
  }

  lemma DecodeSpecial(c: char, rest: string, d: string)
    requires c in REGEX_SPECIALS && c != '\\'
    requires DecodeJsonPathLiteral(rest) == Some(d)
    ensures DecodeJsonPathLiteral(['\\', '\\', c] + rest) == Some(['\\', c] + d)
  {
    DecodePair('\\', [c] + rest);
    DecodePlain(c, rest);
    assert ['\\', '\\', c] + rest == ['\\', '\\'] + ([c] + rest);
    assert ['\\'] + ([c] + d) == ['\\', c] + d;
  }

  lemma DecodeBackslash(rest: string, d: string)
    requires DecodeJsonPathLiteral(rest) == Some(d)
    ensures DecodeJsonPathLiteral("\\\\\\\\" + rest) == Some("\\\\" + d)
  {
    DecodePair('\\', "\\\\" + rest);
    DecodePair('\\', rest);
    assert "\\\\\\\\" + rest == "\\\\" + ("\\\\" + rest);
    assert "\\" + ("\\" + d) == "\\\\" + d;
  }

  /** Decoding the JSON path layer of `escapeJsonbRegex` leaves the regex-layer escape. */
  lemma {:induction false} JsonPathLayer(s: string)
    ensures DecodeJsonPathLiteral(EscapeJsonbRegex(s)) == Some(EscapePostgresRegex(s))
  {
    if s != "" {
      var c, rest, d := s[0], EscapeJsonbRegex(s[1..]), EscapePostgresRegex(s[1..]);
      JsonPathLayer(s[1..]);
      if c == '\\' {
        DecodeBackslash(rest, d);
      } else if c == '"' {
        DecodePair(c, rest);
      } else if c in REGEX_SPECIALS {
        DecodeSpecial(c, rest, d);
      } else {
        DecodePlain(c, rest);
      }
    }
  }

  /** Through both layers, `like_regex "..."` finds exactly the texts that contain `s`. */
  lemma JsonbRegexEscapeExact(s: string, t: string)
    ensures DecodeJsonPathLiteral(EscapeJsonbRegex(s)).Some?
    ensures
      var pattern := DecodeJsonPathLiteral(EscapeJsonbRegex(s)).value;
      && Read(pattern).Some?
      && (Accepts(Read(pattern).value, t) <==> Contains(t, s))
      && Read("^" + pattern + "$").Some?
      && (Accepts(Read("^" + pattern + "$").value, t) <==> t == s)
  {
    JsonPathLayer(s);
    EscapedSearchExact(s, t);
    EscapedAnchoredExact(s, t);
  }
}
