/** Expansion of the localized tokens (`L`, `LT`, `ll`, ...) of a datetime format. */
module LocalizedFormat {
  import opened DatetimeTokens
  import opened Strings
  import opened Wrappers

  function Expand(prevIsAlpha: bool, s: string): string {
    Render(Scan(LOCALIZED_TOKENS, prevIsAlpha, s), LocalizedExpansion)
  }

  /** The expansion of a whole format. */
  function ExpandLocalized(literal: string): string {
    Expand(false, literal)
  }

  /** The expanding loop. */
  method ExpandLocalizedDatetimeFormat(literal: string) returns (result: string)
    ensures result == ExpandLocalized(literal)
  {
    result := ReplaceTokens(LOCALIZED_TOKENS, LocalizedExpansion, literal);
  }

  predicate StartsToken(c: char) {
    c == 'L' || c == 'l'
  }

  /** What an expansion looks like. */
  predicate ExpansionLike(e: string) {
    && e != "" && (forall i :: 0 <= i < |e| ==> !StartsToken(e[i]))
    && e[0] in "Mhd" && IsAlpha(e[|e| - 1])
  }

  lemma DateShape(token: string)
    requires token in {"L", "LL", "l", "ll"}
    ensures ExpansionLike(LocalizedExpansion(token))
  {
  }

  lemma TimeShape(token: string)
    requires token in {"LT", "LTS"}
    ensures ExpansionLike(LocalizedExpansion(token))
  {
  }

  lemma DateTimeShape()
    ensures ExpansionLike(LocalizedExpansion("LLL"))
  {
  }

  lemma WeekdayShape()
    ensures ExpansionLike(LocalizedExpansion("LLLL"))
  {
  }

  lemma ShortDateTimeShape()
    ensures ExpansionLike(LocalizedExpansion("lll"))
  {
  }

  lemma ShortWeekdayShape()
    ensures ExpansionLike(LocalizedExpansion("llll"))
  {
  }

  /** Every localized token starts with an `L` of either case and ends with a letter. Its expansion
      holds neither `L`, starts with `M`, `h` or `d`, and ends with a letter. */
  lemma ExpansionShape(token: string)
    requires token in LOCALIZED_TOKENS
    ensures token != "" && StartsToken(token[0]) && IsAlpha(token[|token| - 1])
    ensures ExpansionLike(LocalizedExpansion(token))
  {
    hide LocalizedExpansion, ExpansionLike;
    if token in {"L", "LL", "l", "ll"} {
      DateShape(token);
    } else if token in {"LT", "LTS"} {
      TimeShape(token);
    } else {
      DateTimeShape();
      WeekdayShape();
      ShortDateTimeShape();
      ShortWeekdayShape();
    }
  }

  lemma TokensStartWithL(token: string)
    requires token in LOCALIZED_TOKENS
    ensures token != "" && StartsToken(token[0])
  {
  }

  /** The expansion starts as its input does, or with the first letter of an expansion. */
  lemma ExpandFirst(prevIsAlpha: bool, s: string)
    ensures
      var e := Expand(prevIsAlpha, s);
      && (e == "" <==> s == "")
      && (s != "" ==> e[0] == s[0] || (StartsToken(s[0]) && e[0] in "Mhd"))
  {
    if s != "" {
      RenderScanStep(LOCALIZED_TOKENS, prevIsAlpha, s, LocalizedExpansion);
      match TokenAt(LOCALIZED_TOKENS, prevIsAlpha, s)
      case Some(token) => ExpansionShape(token);
      case None =>
    }
  }

  /** An `L` that no longer token starts with and that a letter touches. */
  predicate LoneL(prevIsAlpha: bool, s: string)
    requires s != ""
  {
    && (|s| > 1 ==> s[1] != s[0] && !(s[0] == 'L' && s[1] == 'T'))
    && (prevIsAlpha || (|s| > 1 && IsAlpha(s[1])))
  }

  lemma NoTokenIsLone(prevIsAlpha: bool, s: string)
    requires s != "" && StartsToken(s[0])
    requires TokenAt(LOCALIZED_TOKENS, prevIsAlpha, s).None?
    ensures LoneL(prevIsAlpha, s)
  {
    assert s[..1] == "L" || s[..1] == "l";
    LongestPrefixIsLongest(LOCALIZED_TOKENS, s, MAX_TOKEN_LENGTH, 1);
    if |s| > 1 && (s[1] == s[0] || (s[0] == 'L' && s[1] == 'T')) {
      assert s[..2] == "LL" || s[..2] == "LT" || s[..2] == "ll";
      LongestPrefixIsLongest(LOCALIZED_TOKENS, s, MAX_TOKEN_LENGTH, 2);
    }
  }

  lemma LongTokenStart(token: string)
    requires token in LOCALIZED_TOKENS && |token| > 1
    ensures token[1] == token[0] || (token[0] == 'L' && token[1] == 'T')
  {
  }

  lemma LoneIsNoToken(prevIsAlpha: bool, s: string)
    requires s != "" && LoneL(prevIsAlpha, s)
    ensures TokenAt(LOCALIZED_TOKENS, prevIsAlpha, s).None?
  {
    var token := TokenAt(LOCALIZED_TOKENS, prevIsAlpha, s);
    if token.Some? && |token.value| > 1 {
      LongTokenStart(token.value);
    }
  }

  /** A character that was taken as it is, is taken as it is again. */
  lemma LeftAloneAgain(prevIsAlpha: bool, s: string)
    requires s != "" && TokenAt(LOCALIZED_TOKENS, prevIsAlpha, s).None?
    ensures TokenAt(LOCALIZED_TOKENS, prevIsAlpha, [s[0]] + Expand(IsAlpha(s[0]), s[1..])).None?
  {
    var out := [s[0]] + Expand(IsAlpha(s[0]), s[1..]);
    ExpandFirst(IsAlpha(s[0]), s[1..]);
    if StartsToken(s[0]) {
      NoTokenIsLone(prevIsAlpha, s);
      LoneIsNoToken(prevIsAlpha, out);
    } else {
      var token := TokenAt(LOCALIZED_TOKENS, prevIsAlpha, out);
      if token.Some? { TokensStartWithL(token.value); }
    }
  }

  lemma {:induction false} ExpandAgain(prevIsAlpha: bool, s: string)
    ensures Expand(prevIsAlpha, Expand(prevIsAlpha, s)) == Expand(prevIsAlpha, s)
    decreases |s|
  {
    if s == "" {
      assert Expand(prevIsAlpha, s) == "";
    } else {
      ExpandStep(prevIsAlpha, s);
      hide *;
      match TokenAt(LOCALIZED_TOKENS, prevIsAlpha, s)
      case Some(token) =>
        ExpansionShape(token);
        var rest := s[|token|..];
        ExpansionIsCopied(prevIsAlpha, token, Expand(true, rest));
        ExpandAgain(true, rest);
      case None =>
        var tail := Expand(IsAlpha(s[0]), s[1..]);
        LeftAloneAgain(prevIsAlpha, s);
        ExpandStep(prevIsAlpha, [s[0]] + tail);
        ExpandAgain(IsAlpha(s[0]), s[1..]);
        assert ([s[0]] + tail)[1..] == tail;
    }
  }

  lemma ExpandStep(prevIsAlpha: bool, s: string)
    requires s != ""
    ensures Expand(prevIsAlpha, s) ==
            match TokenAt(LOCALIZED_TOKENS, prevIsAlpha, s)
            case Some(token) => LocalizedExpansion(token) + Expand(IsAlpha(token[|token| - 1]), s[|token|..])
            case None => [s[0]] + Expand(IsAlpha(s[0]), s[1..])
  {
    RenderScanStep(LOCALIZED_TOKENS, prevIsAlpha, s, LocalizedExpansion);
    hide Render, Scan, TokenAt, LocalizedExpansion;
  }

  lemma ExpansionIsCopied(prevIsAlpha: bool, token: string, rest: string)
    requires token in LOCALIZED_TOKENS
    ensures Expand(prevIsAlpha, LocalizedExpansion(token) + rest) == LocalizedExpansion(token) + Expand(true, rest)
  {
    ExpansionShape(token);
    hide Render, Scan, LocalizedExpansion, IsAlpha;
    forall t | t in LOCALIZED_TOKENS ensures t != "" && t[0] !in LocalizedExpansion(token) {
      TokensStartWithL(t);
    }
    RenderCopies(LOCALIZED_TOKENS, prevIsAlpha, LocalizedExpansion(token), rest, LocalizedExpansion);
  }

  /** Expanding an expanded format changes nothing, for every string. */
  lemma ExpandIdempotent(literal: string)
    ensures ExpandLocalized(ExpandLocalized(literal)) == ExpandLocalized(literal)
  {
    ExpandAgain(false, literal);
  }
}
