/** The part of PostgreSQL's advanced regular expressions that this repository's patterns stay
    inside (PostgreSQL manual, section 9.7.3): plain characters, escaped punctuation, `\d`, `\s`,
    `.`, bracket lists without ranges, the quantifiers `*`, `+`, `?`, `{n}` and `{m,n}`, and the two
    anchors. Groups, alternation and the other escapes make a pattern unreadable here (`None`). */
module PostgresRegex {
  import opened Strings
  import opened Wrappers

  datatype Atom = Char(c: char) | Any | Digit | Space | OneOf(members: string)

  /** `Rep` repeats an atom between `min` and `max` times, `max == None` meaning without bound;
      `End` is the `$` anchor. */
  datatype Piece = Rep(atom: Atom, min: nat, max: Option<nat>) | End

  datatype Regex = Regex(anchored: bool, pieces: seq<Piece>)

  function Once(atom: Atom): Piece {
    Rep(atom, 1, Some(1))
  }

  /** The ASCII members of `[[:space:]]`, which is what `\s` abbreviates. */
  predicate IsAsciiSpace(c: char) {
    c == ' ' || '\t' <= c <= '\r'
  }

  predicate IsQuantifier(c: char) {
    c == '*' || c == '+' || c == '?' || c == '{'
  }

  /** A quantifier cannot start what follows. */
  predicate NoQuantifier(s: string) {
    s == "" || !IsQuantifier(s[0])
  }

  predicate AtomAccepts(atom: Atom, c: char) {
    match atom
    case Char(d) => c == d
    case Any => true
    case Digit => IsDigit(c)
    case Space => IsAsciiSpace(c)
    case OneOf(members) => c in members
  }

  // ---------- reading a pattern ----------

  function ReadNat(s: string, acc: nat): (nat, string) {
    if s != "" && IsDigit(s[0]) then ReadNat(s[1..], 10 * acc + (s[0] as int - '0' as int)) else (acc, s)
  }

  lemma {:induction false} ReadNatShrinks(s: string, acc: nat)
    ensures |ReadNat(s, acc).1| <= |s|
  {
    if s != "" && IsDigit(s[0]) {
      ReadNatShrinks(s[1..], 10 * acc + (s[0] as int - '0' as int));
    }
  }

  /** The bounds written after an atom, and what follows them. */
  function ReadQuantifier(s: string): (r: Option<(nat, Option<nat>, string)>)
    ensures r.Some? ==> |r.value.2| <= |s|
  {
    if s == "" then Some((1, Some(1), s))
    else if s[0] == '*' then Some((0, None, s[1..]))
    else if s[0] == '+' then Some((1, None, s[1..]))
    else if s[0] == '?' then Some((0, Some(1), s[1..]))
    else if s[0] != '{' then Some((1, Some(1), s))
    else if |s| == 1 || !IsDigit(s[1]) then None
    else
      ReadNatShrinks(s[1..], 0);
      var (low, rest) := ReadNat(s[1..], 0);
      if rest != "" && rest[0] == '}' then Some((low, Some(low), rest[1..]))
      else if |rest| >= 2 && rest[0] == ',' && IsDigit(rest[1]) then
        ReadNatShrinks(rest[1..], 0);
        var (high, tail) := ReadNat(rest[1..], 0);
        if tail != "" && tail[0] == '}' && low <= high then Some((low, Some(high), tail[1..])) else None
      else None
  }

  /** A bracket list without ranges, classes or complement. */
  function ReadBracket(s: string, members: string): (r: Option<(Atom, string)>)
    ensures r.Some? ==> |r.value.1| <= |s|
  {
    if s == "" then None
    else if s[0] == ']' && members != "" then Some((OneOf(members), s[1..]))
    else if s[0] in "]^-[\\" then None
    else ReadBracket(s[1..], members + [s[0]])
  }

  function ReadAtom(s: string): (r: Option<(Atom, string)>)
    requires s != ""
    ensures r.Some? ==> |r.value.1| < |s|
  {
    if s[0] == '\\' then
      if |s| == 1 then None
      else if s[1] == 'd' then Some((Digit, s[2..]))
      else if s[1] == 's' then Some((Space, s[2..]))
      else if IsAlpha(s[1]) || IsDigit(s[1]) then None
      else Some((Char(s[1]), s[2..]))
    else if s[0] == '.' then Some((Any, s[1..]))
    else if s[0] == '[' then ReadBracket(s[1..], "")
    else if s[0] in "^$()|*+?{" then None
    else Some((Char(s[0]), s[1..]))
  }

  function ReadPieces(s: string): Option<seq<Piece>>
    decreases |s|
  {
    if s == "" then Some([])
    else if s == "$" then Some([End])
    else
      match ReadAtom(s)
      case None => None
      case Some((atom, rest)) =>
        match ReadQuantifier(rest)
        case None => None
        case Some((low, high, tail)) =>
          match ReadPieces(tail)
          case None => None
          case Some(pieces) => Some([Rep(atom, low, high)] + pieces)
  }

  function Read(pattern: string): Option<Regex> {
    var anchored := pattern != "" && pattern[0] == '^';
    match ReadPieces(if anchored then pattern[1..] else pattern)
    case None => None
    case Some(pieces) => Some(Regex(anchored, pieces))
  }

  // ---------- what a pattern accepts ----------

  /** `pieces` match a beginning of `t`. */
  predicate MatchHere(pieces: seq<Piece>, t: string)
    decreases |t|, |pieces|, 0
  {
    if pieces == [] then true
    else if pieces[0].End? then t == "" && MatchHere(pieces[1..], t)
    else MatchRep(pieces[0].atom, pieces[0].min, pieces[0].max, pieces[1..], t)
  }

  predicate MatchRep(atom: Atom, min: nat, max: Option<nat>, rest: seq<Piece>, t: string)
    decreases |t|, |rest|, 1
  {
    || (min == 0 && MatchHere(rest, t))
    || (max != Some(0) && t != "" && AtomAccepts(atom, t[0])
        && MatchRep(atom, if min == 0 then 0 else min - 1,
                    if max.Some? && max.value > 0 then Some(max.value - 1) else max, rest, t[1..]))
  }

  ghost predicate Accepts(r: Regex, t: string) {
    if r.anchored then MatchHere(r.pieces, t)
    else exists i :: 0 <= i <= |t| && MatchHere(r.pieces, t[i..])
  }

  lemma ReadPiece(s: string, atom: Atom, rest: string, low: nat, high: Option<nat>, tail: string, pieces: seq<Piece>)
    requires s != "" && s != "$"
    requires ReadAtom(s) == Some((atom, rest))
    requires ReadQuantifier(rest) == Some((low, high, tail))
    requires ReadPieces(tail) == Some(pieces)
    ensures ReadPieces(s) == Some([Rep(atom, low, high)] + pieces)
  {
  }

  lemma MatchOnce(atom: Atom, rest: seq<Piece>, t: string)
    ensures MatchHere([Once(atom)] + rest, t) <==> t != "" && AtomAccepts(atom, t[0]) && MatchHere(rest, t[1..])
  {
    var pieces := [Once(atom)] + rest;
    assert pieces[1..] == rest;
    if t != "" && AtomAccepts(atom, t[0]) {
      assert MatchRep(atom, 0, Some(0), rest, t[1..]) == MatchHere(rest, t[1..]);
    }
  }
}
