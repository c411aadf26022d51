/** Quotes in datetime formats: no token holds one, so both passes keep their number, and undoubling them
    before a format is scanned is undoubling them among its items. */
module DatetimeQuotes {
  import opened DatetimeSql
  import opened DatetimeTokens
  import opened LocalizedFormat
  import opened SqlLiteral
  import opened Strings
  import opened Wrappers

  function QuoteItems(items: seq<Item>): nat {
    if items == [] then 0 else (if items[0] == Literal('\'') then 1 else 0) + QuoteItems(items[1..])
  }

  ghost predicate QuoteFree(tokens: set<string>, text: string -> string) {
    forall token :: token in tokens ==> QuoteCount(text(token)) == 0
  }

  /** A pass whose texts hold no quote keeps the number of quotes. */
  lemma {:induction false} ScanKeepsQuotes(tokens: set<string>, prevIsAlpha: bool, s: string, text: string -> string)
    requires QuoteFree(tokens, text)
    ensures QuoteCount(Render(Scan(tokens, prevIsAlpha, s), text)) == QuoteItems(Scan(tokens, prevIsAlpha, s))
    decreases |s|
  {
    if s != "" {
      var items := Scan(tokens, prevIsAlpha, s);
      match TokenAt(tokens, prevIsAlpha, s)
      case Some(token) =>
        ScanKeepsQuotes(tokens, IsAlpha(token[|token| - 1]), s[|token|..], text);
        assert items[1..] == Scan(tokens, IsAlpha(token[|token| - 1]), s[|token|..]);
        QuoteCountConcat(text(token), Render(items[1..], text));
      case None =>
        ScanKeepsQuotes(tokens, IsAlpha(s[0]), s[1..], text);
        assert items[1..] == Scan(tokens, IsAlpha(s[0]), s[1..]);
        QuoteCountConcat([s[0]], Render(items[1..], text));
    }
  }

  lemma {:induction false} NoQuotes(s: string)
    requires '\'' !in s
    ensures QuoteCount(s) == 0
  {
    if s != "" { NoQuotes(s[1..]); }
  }

  lemma LocalizedHoldNoQuote(token: string)
    requires token in LOCALIZED_TOKENS
    ensures '\'' !in token
  {
  }

  lemma ExpansionsHoldNoQuote(token: string)
    ensures '\'' !in LocalizedExpansion(token)
  {
  }

  lemma SupportedHoldNoQuote(token: string)
    requires token in SUPPORTED_TOKENS
    ensures '\'' !in token
  {
  }

  lemma TablesAreQuoteFree()
    ensures QuoteFree(LOCALIZED_TOKENS, name => name) && QuoteFree(SUPPORTED_TOKENS, name => name)
    ensures QuoteFree(LOCALIZED_TOKENS, LocalizedExpansion)
  {
    hide LocalizedExpansion;
    forall token | token in LOCALIZED_TOKENS
      ensures QuoteCount(token) == 0 && QuoteCount(LocalizedExpansion(token)) == 0
    {
      LocalizedHoldNoQuote(token);
      ExpansionsHoldNoQuote(token);
      NoQuotes(token);
      NoQuotes(LocalizedExpansion(token));
    }
    forall token | token in SUPPORTED_TOKENS ensures QuoteCount(token) == 0 {
      SupportedHoldNoQuote(token);
      NoQuotes(token);
    }
  }

  /** The items of a format hold as many quotes as the format. */
  lemma FormatItemsKeepQuotes(literal: string)
    ensures QuoteItems(FormatItems(literal)) == QuoteCount(literal)
  {
    TablesAreQuoteFree();
    var expanded := ExpandLocalized(literal);
    ScanKeepsQuotes(LOCALIZED_TOKENS, false, literal, name => name);
    ScanSpellsInput(LOCALIZED_TOKENS, false, literal);
    ScanKeepsQuotes(LOCALIZED_TOKENS, false, literal, LocalizedExpansion);
    ScanKeepsQuotes(SUPPORTED_TOKENS, false, expanded, name => name);
    ScanSpellsInput(SUPPORTED_TOKENS, false, expanded);
  }

  // ---------- undoubled quotes ----------

  predicate IsQuote(item: Item) {
    item == Literal('\'')
  }

  /** Each doubled quote among the items written once. */
  function UndoubleItems(items: seq<Item>): (undoubled: seq<Item>)
    ensures forall item :: item in undoubled ==> item in items
  {
    if items == [] then []
    else if |items| >= 2 && IsQuote(items[0]) && IsQuote(items[1]) then [items[0]] + UndoubleItems(items[2..])
    else [items[0]] + UndoubleItems(items[1..])
  }

  lemma UndoubleChar(c: char, rest: string)
    requires c != '\''
    ensures UndoubleQuotes([c] + rest) == [c] + UndoubleQuotes(rest)
  {
    assert ([c] + rest)[1..] == rest;
  }

  lemma UndoublePair(rest: string)
    ensures UndoubleQuotes("''" + rest) == "'" + UndoubleQuotes(rest)
  {
    assert ("''" + rest)[2..] == rest;
  }

  lemma UndoubleLone(rest: string)
    requires rest == "" || rest[0] != '\''
    ensures UndoubleQuotes("'" + rest) == "'" + UndoubleQuotes(rest)
  {
    assert ("'" + rest)[1..] == rest;
  }

  /** Undoubling goes on behind a text without quotes. */
  lemma {:induction false} UndoublePrefix(p: string, rest: string)
    requires '\'' !in p
    ensures UndoubleQuotes(p + rest) == p + UndoubleQuotes(rest)
  {
    hide UndoubleQuotes;
    if p == "" {
      assert p + rest == rest;
    } else {
      assert p == [p[0]] + p[1..];
      UndoublePrefix(p[1..], rest);
      UndoubleChar(p[0], p[1..] + rest);
      ConcatAssoc([p[0]], p[1..], rest);
      ConcatAssoc([p[0]], p[1..], UndoubleQuotes(rest));
    }
  }

  lemma {:induction false} UndoubledStarts(p: string, s: string)
    requires '\'' !in p && p <= UndoubleQuotes(s)
    ensures p <= s
  {
    if p != "" {
      assert p[0] in p && p[0] == UndoubleQuotes(s)[0];
      assert UndoubleQuotes(s) == [s[0]] + UndoubleQuotes(s[1..]);
      assert p[1..] <= UndoubleQuotes(s)[1..];
      UndoubledStarts(p[1..], s[1..]);
      assert p == [p[0]] + p[1..] && s == [s[0]] + s[1..];
    }
  }

  ghost predicate HoldNoQuote(tokens: set<string>) {
    forall token :: token in tokens ==> '\'' !in token
  }

  lemma {:induction false} LongestPrefixUndoubled(tokens: set<string>, s: string, n: nat)
    requires HoldNoQuote(tokens)
    ensures LongestPrefix(tokens, UndoubleQuotes(s), n) == LongestPrefix(tokens, s, n)
  {
    if n > 0 {
      LongestPrefixUndoubled(tokens, s, n - 1);
      var u := UndoubleQuotes(s);
      if n <= |s| && s[..n] in tokens {
        UndoublePrefix(s[..n], s[n..]);
        assert s == s[..n] + s[n..];
        assert u[..n] == s[..n];
      }
      if n <= |u| && u[..n] in tokens {
        UndoubledStarts(u[..n], s);
        assert s[..n] == u[..n];
      }
    }
  }

  lemma SecondUndoubled(s: string)
    requires s != "" && s[0] != '\''
    ensures
      var u := UndoubleQuotes(s);
      u != "" && ((|s| > 1 && IsAlpha(s[1])) <==> (|u| > 1 && IsAlpha(u[1])))
  {
    if |s| > 1 && s[1] == '\'' {
      assert UndoubleQuotes(s[1..])[0] == '\'';
    }
  }

  lemma TokenAtUndoubled(tokens: set<string>, prevIsAlpha: bool, s: string)
    requires HoldNoQuote(tokens)
    ensures TokenAt(tokens, prevIsAlpha, UndoubleQuotes(s)) == TokenAt(tokens, prevIsAlpha, s)
  {
    hide LongestPrefix;
    LongestPrefixUndoubled(tokens, s, MAX_TOKEN_LENGTH);
    var token := LongestPrefix(tokens, s, MAX_TOKEN_LENGTH);
    if token.Some? {
      assert s[0] == token.value[0] && token.value[0] in token.value;
      SecondUndoubled(s);
    }
  }

  lemma QuoteIsLiteral(tokens: set<string>, prevIsAlpha: bool, s: string)
    requires HoldNoQuote(tokens) && s != ""
    ensures
      var items := Scan(tokens, prevIsAlpha, s);
      && items != [] && (IsQuote(items[0]) <==> s[0] == '\'')
      && (s[0] == '\'' ==> items == [Literal('\'')] + Scan(tokens, false, s[1..]))
  {
    var token := TokenAt(tokens, prevIsAlpha, s);
    if token.Some? { assert s[0] == token.value[0] && token.value[0] in token.value; }
  }

  lemma ScanToken(tokens: set<string>, prevIsAlpha: bool, s: string, token: string)
    requires TokenAt(tokens, prevIsAlpha, s) == Some(token)
    ensures Scan(tokens, prevIsAlpha, s) == [Token(token)] + Scan(tokens, IsAlpha(token[|token| - 1]), s[|token|..])
  {
  }

  lemma ScanChar(tokens: set<string>, prevIsAlpha: bool, s: string)
    requires s != "" && TokenAt(tokens, prevIsAlpha, s).None?
    ensures Scan(tokens, prevIsAlpha, s) == [Literal(s[0])] + Scan(tokens, IsAlpha(s[0]), s[1..])
  {
  }

  lemma UndoubleFirst(item: Item, rest: seq<Item>)
    requires !IsQuote(item)
    ensures UndoubleItems([item] + rest) == [item] + UndoubleItems(rest)
  {
    assert ([item] + rest)[1..] == rest;
  }

  /** Scanning an undoubled text gives the items undoubled. */
  lemma {:induction false} ScanUndoubled(tokens: set<string>, prevIsAlpha: bool, s: string)
    requires HoldNoQuote(tokens)
    ensures Scan(tokens, prevIsAlpha, UndoubleQuotes(s)) == UndoubleItems(Scan(tokens, prevIsAlpha, s))
    decreases |s|
  {
    if s == "" {
      assert Scan(tokens, prevIsAlpha, s) == [];
    } else {
      hide TokenAt, Scan, UndoubleItems, UndoubleQuotes;
      if s[0] == '\'' {
        QuoteFirst(tokens, prevIsAlpha, s);
        ScanUndoubled(tokens, false, if |s| > 1 && s[1] == '\'' then s[2..] else s[1..]);
      } else {
        TokenAtUndoubled(tokens, prevIsAlpha, s);
        match TokenAt(tokens, prevIsAlpha, s)
        case Some(token) =>
          TokenFirst(tokens, prevIsAlpha, s, token);
          ScanUndoubled(tokens, IsAlpha(token[|token| - 1]), s[|token|..]);
        case None =>
          CharFirst(tokens, prevIsAlpha, s);
          ScanUndoubled(tokens, IsAlpha(s[0]), s[1..]);
      }
    }
  }

  lemma TokenFirst(tokens: set<string>, prevIsAlpha: bool, s: string, token: string)
    requires HoldNoQuote(tokens) && TokenAt(tokens, prevIsAlpha, s) == Some(token)
    ensures
      var nowAlpha, rest := IsAlpha(token[|token| - 1]), s[|token|..];
      && UndoubleItems(Scan(tokens, prevIsAlpha, s)) == [Token(token)] + UndoubleItems(Scan(tokens, nowAlpha, rest))
      && Scan(tokens, prevIsAlpha, UndoubleQuotes(s)) == [Token(token)] + Scan(tokens, nowAlpha, UndoubleQuotes(rest))
  {
    hide TokenAt, Scan, UndoubleItems, UndoubleQuotes;
    var rest := s[|token|..];
    TokenAtUndoubled(tokens, prevIsAlpha, s);
    ScanToken(tokens, prevIsAlpha, s, token);
    ScanToken(tokens, prevIsAlpha, UndoubleQuotes(s), token);
    UndoubleFirst(Token(token), Scan(tokens, IsAlpha(token[|token| - 1]), rest));
    UndoublePrefix(token, rest);
    assert s == token + rest;
    assert (token + UndoubleQuotes(rest))[|token|..] == UndoubleQuotes(rest);
  }

  lemma CharFirst(tokens: set<string>, prevIsAlpha: bool, s: string)
    requires HoldNoQuote(tokens) && s != "" && s[0] != '\'' && TokenAt(tokens, prevIsAlpha, s).None?
    ensures
      var nowAlpha, rest := IsAlpha(s[0]), s[1..];
      && UndoubleItems(Scan(tokens, prevIsAlpha, s)) == [Literal(s[0])] + UndoubleItems(Scan(tokens, nowAlpha, rest))
      && Scan(tokens, prevIsAlpha, UndoubleQuotes(s)) == [Literal(s[0])] + Scan(tokens, nowAlpha, UndoubleQuotes(rest))
  {
    hide TokenAt, Scan, UndoubleItems, UndoubleQuotes;
    var rest := s[1..];
    TokenAtUndoubled(tokens, prevIsAlpha, s);
    UndoubleChar(s[0], rest);
    assert s == [s[0]] + rest;
    ScanChar(tokens, prevIsAlpha, s);
    ScanChar(tokens, prevIsAlpha, UndoubleQuotes(s));
    UndoubleFirst(Literal(s[0]), Scan(tokens, IsAlpha(s[0]), rest));
    assert ([s[0]] + UndoubleQuotes(rest))[1..] == UndoubleQuotes(rest);
  }

  lemma UndoubleItemsCons(items: seq<Item>)
    requires items != []
    ensures
      var pair := |items| >= 2 && IsQuote(items[0]) && IsQuote(items[1]);
      UndoubleItems(items) == [items[0]] + UndoubleItems(if pair then items[2..] else items[1..])
  {
  }

  lemma QuoteFirst(tokens: set<string>, prevIsAlpha: bool, s: string)
    requires HoldNoQuote(tokens) && s != "" && s[0] == '\''
    ensures
      var rest := if |s| > 1 && s[1] == '\'' then s[2..] else s[1..];
      && UndoubleItems(Scan(tokens, prevIsAlpha, s)) == [Literal('\'')] + UndoubleItems(Scan(tokens, false, rest))
      && Scan(tokens, prevIsAlpha, UndoubleQuotes(s)) == [Literal('\'')] + Scan(tokens, false, UndoubleQuotes(rest))
  {
    hide Scan, UndoubleItems, UndoubleQuotes, TokenAt, HoldNoQuote;
    var items := Scan(tokens, prevIsAlpha, s);
    QuoteIsLiteral(tokens, prevIsAlpha, s);
    UndoubleItemsCons(items);
    assert items[1..] == Scan(tokens, false, s[1..]);
    if |s| > 1 && s[1] == '\'' {
      var rest := s[2..];
      QuoteIsLiteral(tokens, false, s[1..]);
      assert s[1..][1..] == rest && s == "''" + rest;
      assert items[2..] == Scan(tokens, false, rest) && IsQuote(items[1]);
      UndoublePair(rest);
      QuoteThen(tokens, prevIsAlpha, UndoubleQuotes(rest));
    } else {
      var rest := s[1..];
      assert s == "'" + rest;
      if rest == "" { NothingToScan(tokens, false); } else { QuoteIsLiteral(tokens, false, rest); }
      UndoubleLone(rest);
      QuoteThen(tokens, prevIsAlpha, UndoubleQuotes(rest));
    }
  }

  lemma QuoteThen(tokens: set<string>, prevIsAlpha: bool, rest: string)
    requires HoldNoQuote(tokens)
    ensures Scan(tokens, prevIsAlpha, "'" + rest) == [Literal('\'')] + Scan(tokens, false, rest)
  {
    QuoteIsLiteral(tokens, prevIsAlpha, "'" + rest);
    assert ("'" + rest)[1..] == rest;
  }

  lemma NothingToScan(tokens: set<string>, prevIsAlpha: bool)
    ensures Scan(tokens, prevIsAlpha, "") == []
  {
  }

  /** The tokens among the items stand for texts that hold no quote and are not empty. */
  ghost predicate Solid(items: seq<Item>, text: string -> string) {
    forall i :: 0 <= i < |items| && items[i].Token? ==> text(items[i].name) != "" && '\'' !in text(items[i].name)
  }

  lemma SolidParts(items: seq<Item>, text: string -> string)
    requires items != [] && Solid(items, text)
    ensures Solid(items[1..], text)
    ensures items[0].Token? ==> text(items[0].name) != "" && '\'' !in text(items[0].name)
  {
  }

  lemma NoQuoteAhead(items: seq<Item>, text: string -> string)
    requires Solid(items, text) && (items == [] || !IsQuote(items[0]))
    ensures var rest := Render(items, text); rest == "" || rest[0] != '\''
  {
    if items != [] {
      SolidParts(items, text);
      if items[0].Token? {
        assert Render(items, text)[0] == text(items[0].name)[0];
      }
    }
  }

  lemma RenderCons(items: seq<Item>, text: string -> string)
    requires items != []
    ensures Render(items, text) == ItemText(items[0], text) + Render(items[1..], text)
    ensures IsQuote(items[0]) ==> ItemText(items[0], text) == "'"
  {
  }

  /** Undoubling the items of a text is undoubling the text, if the tokens stand for solid texts. */
  lemma {:induction false} RenderUndoubled(items: seq<Item>, text: string -> string)
    requires Solid(items, text)
    ensures Render(UndoubleItems(items), text) == UndoubleQuotes(Render(items, text))
    decreases |items|
  {
    if items != [] {
      hide Render, UndoubleItems, UndoubleQuotes, Solid, ItemText;
      SolidParts(items, text);
      RenderCons(items, text);
      UndoubleItemsCons(items);
      if |items| >= 2 && IsQuote(items[0]) && IsQuote(items[1]) {
        SolidParts(items[1..], text);
        assert items[1..][1..] == items[2..];
        RenderCons(items[1..], text);
        RenderUndoubled(items[2..], text);
        RenderFirst(items[0], UndoubleItems(items[2..]), text);
        ConcatAssoc("'", "'", Render(items[2..], text));
        assert "'" + "'" == "''";
        UndoublePair(Render(items[2..], text));
      } else {
        RenderUndoubled(items[1..], text);
        RenderFirst(items[0], UndoubleItems(items[1..]), text);
        if IsQuote(items[0]) {
          NoQuoteAhead(items[1..], text);
          UndoubleLone(Render(items[1..], text));
        } else {
          OwnTextHoldsNoQuote(items[0], text);
          UndoublePrefix(ItemText(items[0], text), Render(items[1..], text));
        }
      }
    }
  }

  lemma OwnTextHoldsNoQuote(item: Item, text: string -> string)
    requires !IsQuote(item) && (item.Token? ==> '\'' !in text(item.name))
    ensures '\'' !in ItemText(item, text)
  {
  }

  lemma {:induction false} ScanFindsTokens(tokens: set<string>, prevIsAlpha: bool, s: string)
    ensures forall item :: item in Scan(tokens, prevIsAlpha, s) && item.Token? ==> item.name in tokens
    decreases |s|
  {
    if s != "" {
      match TokenAt(tokens, prevIsAlpha, s)
      case Some(token) =>
        var rest := Scan(tokens, IsAlpha(token[|token| - 1]), s[|token|..]);
        ScanFindsTokens(tokens, IsAlpha(token[|token| - 1]), s[|token|..]);
        assert Scan(tokens, prevIsAlpha, s) == [Token(token)] + rest;
      case None =>
        ScanFindsTokens(tokens, IsAlpha(s[0]), s[1..]);
        assert Scan(tokens, prevIsAlpha, s) == [Literal(s[0])] + Scan(tokens, IsAlpha(s[0]), s[1..]);
    }
  }

  /** The items of a format with its quotes undoubled are its items with their quotes undoubled. */
  lemma FormatItemsUndoubled(literal: string)
    ensures FormatItems(UndoubleQuotes(literal)) == UndoubleItems(FormatItems(literal))
  {
    var items := Scan(LOCALIZED_TOKENS, false, literal);
    forall token | token in LOCALIZED_TOKENS
      ensures '\'' !in token && LocalizedExpansion(token) != "" && '\'' !in LocalizedExpansion(token)
    {
      LocalizedHoldNoQuote(token);
      ExpansionsHoldNoQuote(token);
      ExpansionShape(token);
    }
    forall token | token in SUPPORTED_TOKENS ensures '\'' !in token {
      SupportedHoldNoQuote(token);
    }
    ScanFindsTokens(LOCALIZED_TOKENS, false, literal);
    hide Scan, Render, UndoubleQuotes, UndoubleItems, LocalizedExpansion;
    ScanUndoubled(LOCALIZED_TOKENS, false, literal);
    RenderUndoubled(items, LocalizedExpansion);
    ScanUndoubled(SUPPORTED_TOKENS, false, ExpandLocalized(literal));
  }
}
