/** What the guard of a clock format asks for when a marker has swallowed a token: more letters than there are
    in any rendering. */
module DatetimeGuardLetters {
  import opened DatetimeGuard
  import opened DatetimeGuardLexing
  import opened DatetimeGuardPieces
  import opened DatetimeSql
  import opened DatetimeTokens
  import opened PostgresRegex
  import opened Strings
  import opened Wrappers

  // ---------- counting letters ----------

  /** The piece asks for one of the letters `H`, `I`, `M`, `S`, or for the `M` of a meridiem marker. */
  function LettersOf(piece: Piece): nat {
    if piece.Rep? && piece.min == 1 && piece.max == Some(1)
       && ((piece.atom.Char? && piece.atom.c in "HIMS") || piece.atom == OneOf("Mm")) then 1 else 0
  }

  function AskedLetters(pieces: seq<Piece>): nat {
    if pieces == [] then 0 else LettersOf(pieces[0]) + AskedLetters(pieces[1..])
  }

  lemma {:induction false} AskedConcat(a: seq<Piece>, b: seq<Piece>)
    ensures AskedLetters(a + b) == AskedLetters(a) + AskedLetters(b)
  {
    if a == [] {
      assert a + b == b;
    } else {
      AskedConcat(a[1..], b);
      assert (a + b)[1..] == a[1..] + b;
    }
  }

  /** The meridiem markers among the items. */
  function Meridiems(items: seq<Item>): nat {
    if items == [] then 0
    else (if items[0].Token? && Meridiem(items[0].name) then 1 else 0) + Meridiems(items[1..])
  }

  lemma MeridiemAsks()
    ensures AskedLetters(TokenPieces("AM")) == 1
  {
    var pieces := TokenPieces("AM");
    assert pieces[1..] == [Once(OneOf("Mm"))] && pieces[1..][1..] == [];
    assert LettersOf(pieces[0]) == 0 by { assert "AaPp"[0] != "Mm"[0]; }
  }

  lemma LetterAsks(letter: char)
    requires letter in "HIMS"
    ensures AskedLetters([CharPiece(letter)]) == 1
  {
    assert [CharPiece(letter)][1..] == [];
  }

  // ---------- letters left over ----------

  /** A letter that makes no guard token with what follows is asked for. */
  lemma LetterLeftOver(upper: char -> string, letter: char, rest: string)
    requires letter in "HIMS"
    requires letter == 'H' ==> NotNext(upper, rest, 'H')
    requires letter == 'M' ==> NotNext(upper, rest, 'M') && NotNext(upper, rest, 'I') && NotNext(upper, rest, 'S')
    requires letter == 'S' ==> NotNext(upper, rest, 'S')
    ensures AskedLetters(GuardPieces(upper, [letter] + rest)) == 1 + AskedLetters(GuardPieces(upper, rest))
  {
    hide GuardPieces, ToUpperCase, AskedLetters;
    assert UpperChar(upper, letter) == [letter];
    UpperOfChar(upper, letter, rest);
    LexChar(upper, letter, rest);
    LetterAsks(letter);
    AskedConcat([CharPiece(letter)], GuardPieces(upper, rest));
  }

  lemma DigitAsksNothing(digit: char)
    requires IsDigit(digit)
    ensures AskedLetters([CharPiece(digit)]) == 0
  {
    assert [CharPiece(digit)][1..] == [];
  }

  lemma UpperOfDigit(upper: char -> string, digit: char, rest: string)
    requires IsDigit(digit)
    ensures ToUpperCase(upper, [digit] + rest) == [digit] + ToUpperCase(upper, rest)
  {
    UpperOfChar(upper, digit, rest);
  }

  lemma DigitStartsNothing(digit: char, rest: string)
    requires IsDigit(digit)
    ensures var up := [digit] + rest; StartsNoToken(up) && (|up| > 1 ==> !StartsMarker(up[0], up[1]))
  {
  }

  lemma DigitIsNext(upper: char -> string, digit: char, rest: string)
    requires IsDigit(digit)
    ensures NotNext(upper, [digit] + rest, 'H')
  {
    UpperOfDigit(upper, digit, rest);
    hide ToUpperCase;
  }

  lemma DigitIsTaken(upper: char -> string, digit: char, rest: string)
    requires IsDigit(digit)
    ensures AskedLetters(GuardPieces(upper, [digit] + rest)) == AskedLetters(GuardPieces(upper, rest))
  {
    hide *;
    UpperOfDigit(upper, digit, rest);
    DigitStartsNothing(digit, ToUpperCase(upper, rest));
    LexChar(upper, digit, rest);
    DigitAsksNothing(digit);
    AskedConcat([CharPiece(digit)], GuardPieces(upper, rest));
  }

  /** The letter `letter` and the first one of a template make a guard token. */
  predicate Pairs(letter: char, template: string)
    requires template != ""
  {
    (letter == 'M' && (template[0] == 'M' || template[0] == 'S')) || (letter == 'S' && template[0] == 'S')
  }

  lemma LexPair(upper: char -> string, letter: char, next: char, rest: string)
    requires (letter == 'M' && (next == 'M' || next == 'S')) || (letter == 'S' && next == 'S')
    ensures GuardPieces(upper, [letter, next] + rest) == TokenPieces([letter, next]) + GuardPieces(upper, rest)
  {
    hide GuardPieces, TokenPieces;
    assert [letter, next] == "MM" || [letter, next] == "MS" || [letter, next] == "SS";
    LexTemplate(upper, [letter, next], rest);
  }

  lemma LeftOverPairs(upper: char -> string, letter: char, template: string, rest: string)
    requires (letter == 'M' || letter == 'S') && template in TEMPLATES && Pairs(letter, template)
    ensures |template| == 2 && (template[1] == 'M' || template[1] == 'I' || template[1] == 'S')
    ensures GuardPieces(upper, [letter] + (template + rest))
         == TokenPieces([letter, template[0]]) + GuardPieces(upper, [template[1]] + rest)
  {
    TwoLetters(template);
    assert template[0] == 'M' || template[0] == 'S';
    assert (letter == 'M' && (template[0] == 'M' || template[0] == 'S')) || (letter == 'S' && template[0] == 'S');
    assert |template| == 2 && template == [template[0], template[1]];
    hide *;
    LexPair(upper, letter, template[0], [template[1]] + rest);
    PairUp(letter, template[0], template[1], rest);
  }

  lemma PairUp(a: char, b: char, c: char, rest: string)
    ensures [a] + ([b, c] + rest) == [a, b] + ([c] + rest)
  {
  }

  lemma LeftOverIsAsked(upper: char -> string, letter: char, text: string)
    requires letter == 'M' || letter == 'S'
    requires NotNext(upper, text, 'I') && NotNext(upper, text, 'S') && (letter == 'M' ==> NotNext(upper, text, 'M'))
    ensures AskedLetters(GuardPieces(upper, [letter] + text)) == 1 + AskedLetters(GuardPieces(upper, text))
  {
    hide ToUpperCase, GuardPieces, AskedLetters;
    LetterLeftOver(upper, letter, text);
  }

  /** A letter left over from a template pairs up with the templates after it, until it is asked for. */
  lemma {:induction false} LeftOver(upper: char -> string, letter: char, items: seq<Item>)
    requires letter == 'M' || letter == 'S' || letter == 'I'
    requires ClockFormat(upper, items) && YearsApart(items)
    ensures AskedLetters(GuardPieces(upper, [letter] + Render(items, ToPostgres))) >= 1 + Meridiems(items)
    decreases items, 2
  {
    var text := Render(items, ToPostgres);
    if letter == 'I' {
      Asks(upper, items);
      hide *;
      LetterLeftOver(upper, letter, text);
    } else if items == [] {
      NothingIsUpper(upper, items);
      hide GuardPieces, AskedLetters;
      LetterLeftOver(upper, letter, text);
    } else if items[0].Literal? {
      Asks(upper, items);
      UpperOfRest(upper, items);
      hide GuardPieces, AskedLetters, ToUpperCase, Render, ClockFormat, Meridiems;
      LetterLeftOver(upper, letter, text);
    } else {
      LeftOverBeforeToken(upper, letter, items);
    }
  }

  /** In front of a token, the letter pairs up with it or is asked for. */
  lemma {:induction false} LeftOverBeforeToken(upper: char -> string, letter: char, items: seq<Item>)
    requires letter == 'M' || letter == 'S'
    requires ClockFormat(upper, items) && YearsApart(items) && items != [] && items[0].Token?
    ensures AskedLetters(GuardPieces(upper, [letter] + Render(items, ToPostgres))) >= 1 + Meridiems(items)
    decreases items, 1
  {
    var name := items[0].name;
    ClockTail(upper, items);
    YearsApartTail(items);
    if !Meridiem(name) && !Unpadded(name) && PairsUp(letter, Template(name)) {
      PairLeavesLetter(upper, letter, items);
      LeftOver(upper, Template(name)[1], items[1..]);
      assert Meridiems(items) == Meridiems(items[1..]);
    } else {
      Asks(upper, items);
      NoPair(upper, letter, items);
      hide *;
      LeftOverIsAsked(upper, letter, Render(items, ToPostgres));
    }
  }

  predicate PairsUp(letter: char, template: string) {
    template != "" && Pairs(letter, template)
  }

  lemma PairLeavesLetter(upper: char -> string, letter: char, items: seq<Item>)
    requires letter == 'M' || letter == 'S'
    requires items != [] && items[0].Token? && Numeric(items[0].name) && !Unpadded(items[0].name)
    requires PairsUp(letter, Template(items[0].name))
    ensures |Template(items[0].name)| == 2
    ensures var next := Template(items[0].name)[1]; next == 'M' || next == 'I' || next == 'S'
    ensures AskedLetters(GuardPieces(upper, [letter] + Render(items, ToPostgres)))
         >= AskedLetters(GuardPieces(upper, [Template(items[0].name)[1]] + Render(items[1..], ToPostgres)))
  {
    var name, rest := items[0].name, Render(items[1..], ToPostgres);
    var template := Template(name);
    TemplateOf(name);
    hide GuardPieces, AskedLetters, ToUpperCase, Render, ToPostgres, TokenPieces, Template, Numeric;
    FirstOfFormat(items);
    NothingAhead(template);
    LeftOverPairs(upper, letter, template, rest);
    AskedConcat(TokenPieces([letter, template[0]]), GuardPieces(upper, [template[1]] + rest));
  }

  /** What follows makes no guard token with the letter. */
  lemma NoPair(upper: char -> string, letter: char, items: seq<Item>)
    requires letter == 'M' || letter == 'S'
    requires ClockFormat(upper, items) && items != [] && items[0].Token?
    requires !Meridiem(items[0].name) && !Unpadded(items[0].name) ==> !PairsUp(letter, Template(items[0].name))
    ensures
      var text := Render(items, ToPostgres);
      NotNext(upper, text, 'I') && NotNext(upper, text, 'S') && (letter == 'M' ==> NotNext(upper, text, 'M'))
  {
    var name := items[0].name;
    ClockTail(upper, items);
    UpperOfRest(upper, items);
    if !Meridiem(name) {
      TemplateOf(name);
      hide ToPostgres, Template, ToUpperCase, Render, Numeric, ClockFormat;
      TwoLetters(Template(name));
    }
  }

  lemma SwallowedAsks(upper: char -> string, c: char, template: string, items: seq<Item>)
    requires template in TEMPLATES && ClockFormat(upper, items) && YearsApart(items)
    requires StartsMarker(c, template[0])
    ensures AskedLetters(GuardPieces(upper, [c] + (template + Render(items, ToPostgres)))) >= 1 + Meridiems(items)
    decreases items, 3
  {
    hide GuardPieces, AskedLetters, ToUpperCase, Render, ClockFormat, Meridiems;
    var rest := Render(items, ToPostgres);
    TwoLetters(template);
    LexMarker(upper, c, template[0], template[1..] + rest);
    assert [c] + (template + rest) == [c, template[0]] + (template[1..] + rest);
    if template[0] == 'H' {
      HoursHaveDigits(template);
      var a, b := template[2], template[3];
      assert template[1..] + rest == ['H'] + ([a] + ([b] + rest));
      DigitIsTaken(upper, b, rest);
      DigitIsTaken(upper, a, [b] + rest);
      DigitIsNext(upper, a, [b] + rest);
      LetterLeftOver(upper, 'H', [a] + ([b] + rest));
      Asks(upper, items);
    } else {
      assert template[1..] + rest == [template[1]] + rest;
      LeftOver(upper, template[1], items);
    }
  }

  lemma HoursHaveDigits(template: string)
    requires template in TEMPLATES && template[0] == 'H'
    ensures |template| == 4 && template[1] == 'H' && IsDigit(template[2]) && IsDigit(template[3])
  {
  }

  /** The prefix of an unpadded token makes no marker with the letter before it, and neither does a meridiem
      marker. */
  lemma SwallowedName(c: char, name: string)
    requires Numeric(name) || Meridiem(name)
    requires ToPostgres(name) != "" && StartsMarker(c, ToPostgres(name)[0])
    ensures ToPostgres(name) == Template(name) && Template(name) in TEMPLATES && !Meridiem(name)
  {
    if Meridiem(name) {
      MeridiemTemplate(name);
    } else {
      TemplateOf(name);
      hide ToPostgres, Template;
      NothingAhead(Template(name));
    }
  }

  // ---------- main result ----------

  /** The guard asks for a letter of every meridiem marker, and once a marker has swallowed the beginning of a
      token, for one more. */
  lemma {:induction false} Asks(upper: char -> string, items: seq<Item>)
    requires ClockFormat(upper, items) && YearsApart(items)
    ensures AskedLetters(GuardPieces(upper, Render(items, ToPostgres)))
         >= Meridiems(items) + if TokenSwallowed(items) then 1 else 0
    decreases items, 0
  {
    if items != [] {
      ClockTail(upper, items);
      YearsApartTail(items);
      if |items| >= 2 && Swallows(items[0], items[1]) {
        SwallowedFirst(upper, items);
        assert items[1..][1..] == items[2..];
        ClockTail(upper, items[1..]);
        YearsApartTail(items[1..]);
        SwallowedName(items[0].c, items[1].name);
        assert Meridiems(items) == Meridiems(items[1..]) == Meridiems(items[2..]);
        hide *;
        SwallowedAsks(upper, items[0].c, Template(items[1].name), items[2..]);
      } else {
        Asks(upper, items[1..]);
        FirstItemAsks(upper, items);
      }
    }
  }

  lemma SwallowedFirst(upper: char -> string, items: seq<Item>)
    requires |items| >= 2 && Swallows(items[0], items[1]) && (Numeric(items[1].name) || Meridiem(items[1].name))
    ensures Template(items[1].name) in TEMPLATES && StartsMarker(items[0].c, Template(items[1].name)[0])
    ensures Render(items, ToPostgres) == [items[0].c] + (Template(items[1].name) + Render(items[2..], ToPostgres))
  {
    FirstOfFormat(items);
    FirstOfFormat(items[1..]);
    SwallowedName(items[0].c, items[1].name);
    assert items[1..][1..] == items[2..];
  }

  lemma ItemAsks(item: Item)
    ensures AskedLetters(ItemPiece(item)) >= Meridiems([item])
  {
    PieceOfItem(item);
    MeridiemAsks();
    assert [item][1..] == [];
    hide AskedLetters, TokenPieces;
    if item.Token? && Meridiem(item.name) { MeridiemIsAM(item.name); }
  }

  lemma MeridiemsFirst(items: seq<Item>)
    requires items != []
    ensures Meridiems(items) == Meridiems([items[0]]) + Meridiems(items[1..])
  {
    assert [items[0]][1..] == [];
  }

  lemma FirstItemAsks(upper: char -> string, items: seq<Item>)
    requires items != [] && ClockFormat(upper, items) && YearsApart(items)
    requires |items| >= 2 ==> !Swallows(items[0], items[1])
    ensures
      var rest := GuardPieces(upper, Render(items[1..], ToPostgres));
      AskedLetters(GuardPieces(upper, Render(items, ToPostgres)))
      >= AskedLetters(rest) + Meridiems(items) - Meridiems(items[1..])
  {
    hide *;
    FirstItemIsLexed(upper, items);
    ItemAsks(items[0]);
    MeridiemsFirst(items);
    AskedConcat(ItemPiece(items[0]), GuardPieces(upper, Render(items[1..], ToPostgres)));
  }

  /** Once a marker has swallowed the beginning of a token, the guard asks for more letters than there are
      meridiem markers to write them. */
  lemma SwallowedTokenAsks(upper: char -> string, items: seq<Item>)
    requires ClockFormat(upper, items) && YearsApart(items) && TokenSwallowed(items)
    ensures AskedLetters(GuardPieces(upper, Render(items, ToPostgres))) > Meridiems(items)
  {
    Asks(upper, items);
  }
}
