/** The token tables of the datetime format compiler and the scanner both of its passes share. */
module DatetimeTokens {
  import opened Strings
  import opened Wrappers

  /** What a scan emits: a recognized token or a character taken as it is. */
  datatype Item = Token(name: string) | Literal(c: char)

  const LOCALIZED_TOKENS: set<string> := {"LT", "LTS", "L", "LL", "LLL", "LLLL", "l", "ll", "lll", "llll"}

  function LocalizedExpansion(token: string): string {
    if token == "LT" then "h:mm A"
    else if token == "LTS" then "h:mm:ss A"
    else if token == "L" then "MM/DD/YYYY"
    else if token == "LL" then "MMMM D, YYYY"
    else if token == "LLL" then "MMMM D, YYYY h:mm A"
    else if token == "LLLL" then "dddd, MMMM D, YYYY h:mm A"
    else if token == "l" then "M/D/YYYY"
    else if token == "ll" then "MMM D, YYYY"
    else if token == "lll" then "MMM D, YYYY h:mm A"
    else "ddd, MMM D, YYYY h:mm A"
  }

  const SUPPORTED_TOKENS: set<string> := {
    "HH24", "HH12", "MI", "MS", "SS", "Month", "MONTH", "month", "Day", "DAY", "day", "YYYY", "MMMM",
    "dddd", "ddd", "dd", "d", "MMM", "YY", "MM", "M", "DD", "D", "HH", "H", "hh", "h", "mm", "m", "ss",
    "s", "SSS", "ZZ", "Z", "A", "a"
  }

  /** The PostgreSQL template a supported token is normalized to. */
  function ToPostgres(token: string): string {
    if token == "Month" || token == "MMMM" then "FMMonth"
    else if token == "MONTH" then "FMMONTH"
    else if token == "month" then "FMmonth"
    else if token == "Day" || token == "dddd" then "FMDay"
    else if token == "DAY" then "FMDAY"
    else if token == "day" then "FMday"
    else if token == "ddd" || token == "dd" then "FMDy"
    else if token == "d" then "D"
    else if token == "MMM" then "FMMon"
    else if token == "M" then "FMMM"
    else if token == "D" then "FMDD"
    else if token == "HH" then "HH24"
    else if token == "H" then "FMHH24"
    else if token == "hh" then "HH12"
    else if token == "h" then "FMHH12"
    else if token == "mm" then "MI"
    else if token == "m" then "FMMI"
    else if token == "ss" then "SS"
    else if token == "s" then "FMSS"
    else if token == "SSS" then "MS"
    else if token == "Z" || token == "ZZ" then "OF"
    else if token == "A" then "AM"
    else if token == "a" then "am"
    else token
  }

  const MAX_TOKEN_LENGTH: nat := 5

  /** The candidates are tried in order of decreasing length and the first one that `s` starts with is
      taken, which is to say the longest. */
  function LongestPrefix(tokens: set<string>, s: string, n: nat): (r: Option<string>)
    ensures r.Some? ==> r.value in tokens && r.value <= s && 1 <= |r.value| <= n
  {
    if n == 0 then None
    else if n <= |s| && s[..n] in tokens then Some(s[..n])
    else LongestPrefix(tokens, s, n - 1)
  }

  lemma {:induction false} LongestPrefixIsLongest(tokens: set<string>, s: string, n: nat, k: nat)
    requires 1 <= k <= n && k <= |s| && s[..k] in tokens
    ensures LongestPrefix(tokens, s, n).Some? && k <= |LongestPrefix(tokens, s, n).value|
  {
    if k < n { LongestPrefixIsLongest(tokens, s, n - 1, k); }
  }

  /** The token that starts `s`, if any. A one-letter token counts only when no letter touches it. */
  function TokenAt(tokens: set<string>, prevIsAlpha: bool, s: string): (r: Option<string>)
    ensures r.Some? ==> r.value in tokens && r.value <= s && r.value != ""
  {
    match LongestPrefix(tokens, s, MAX_TOKEN_LENGTH)
    case None => None
    case Some(token) =>
      if |token| == 1 && (prevIsAlpha || (|s| > 1 && IsAlpha(s[1]))) then None else Some(token)
  }

  /** The items of `s`, where `prevIsAlpha` tells whether a letter stands in front of `s`. */
  function Scan(tokens: set<string>, prevIsAlpha: bool, s: string): seq<Item>
    decreases |s|
  {
    if s == "" then []
    else
      match TokenAt(tokens, prevIsAlpha, s)
      case Some(token) => [Token(token)] + Scan(tokens, IsAlpha(token[|token| - 1]), s[|token|..])
      case None => [Literal(s[0])] + Scan(tokens, IsAlpha(s[0]), s[1..])
  }

  function ItemText(item: Item, text: string -> string): string {
    match item case Token(name) => text(name) case Literal(c) => [c]
  }

  /** A string put together item by item, each token through `text`. */
  function Render(items: seq<Item>, text: string -> string): string {
    if items == [] then "" else ItemText(items[0], text) + Render(items[1..], text)
  }

  /** The string the items spell. */
  function Spelling(items: seq<Item>): string {
    Render(items, name => name)
  }

  lemma SpellingStep(tokens: set<string>, prevIsAlpha: bool, s: string)
    requires s != ""
    ensures Spelling(Scan(tokens, prevIsAlpha, s)) ==
            match TokenAt(tokens, prevIsAlpha, s)
            case Some(token) => token + Spelling(Scan(tokens, IsAlpha(token[|token| - 1]), s[|token|..]))
            case None => [s[0]] + Spelling(Scan(tokens, IsAlpha(s[0]), s[1..]))
  {
    hide Render, Scan, TokenAt, IsAlpha;
    RenderScanStep(tokens, prevIsAlpha, s, name => name);
  }

  lemma PrefixSplits(p: string, s: string)
    requires p <= s
    ensures s == p + s[|p|..]
  {
  }

  /** Scanning loses, adds and moves nothing: the items spell the scanned string. */
  lemma {:induction false} ScanSpellsInput(tokens: set<string>, prevIsAlpha: bool, s: string)
    ensures Spelling(Scan(tokens, prevIsAlpha, s)) == s
    decreases |s|
  {
    if s == "" {
      assert Scan(tokens, prevIsAlpha, s) == [];
    } else {
      SpellingStep(tokens, prevIsAlpha, s);
      hide *;
      match TokenAt(tokens, prevIsAlpha, s)
      case Some(token) =>
        ScanSpellsInput(tokens, IsAlpha(token[|token| - 1]), s[|token|..]);
        PrefixSplits(token, s);
      case None =>
        ScanSpellsInput(tokens, IsAlpha(s[0]), s[1..]);
        PrefixSplits([s[0]], s);
    }
  }

  predicate AlphaBefore(literal: string, i: nat)
    requires i <= |literal|
  {
    i > 0 && IsAlpha(literal[i - 1])
  }

  /** The token found at index `i` of a literal. */
  function TokenAtIndex(tokens: set<string>, literal: string, i: nat): Option<string>
    requires i <= |literal|
  {
    TokenAt(tokens, AlphaBefore(literal, i), literal[i..])
  }

  /** The items from index `i` of a literal on. */
  function ScanFrom(tokens: set<string>, literal: string, i: nat): seq<Item>
    requires i <= |literal|
  {
    Scan(tokens, AlphaBefore(literal, i), literal[i..])
  }

  lemma ScanFromEnds(tokens: set<string>, literal: string)
    ensures ScanFrom(tokens, literal, 0) == Scan(tokens, false, literal)
    ensures ScanFrom(tokens, literal, |literal|) == []
  {
    assert literal[0..] == literal;
  }

  lemma ConcatAssoc<T>(a: seq<T>, b: seq<T>, c: seq<T>)
    ensures (a + b) + c == a + (b + c)
  {
  }

  lemma NothingAhead<T>(a: seq<T>)
    ensures [] + a == a
  {
  }

  function ItemAt(tokens: set<string>, literal: string, i: nat): Item
    requires i < |literal|
  {
    match TokenAtIndex(tokens, literal, i)
    case Some(token) => Token(token)
    case None => Literal(literal[i])
  }

  function Width(item: Item): nat {
    match item case Token(name) => |name| case Literal(_) => 1
  }

  lemma NextItem(tokens: set<string>, literal: string, i: nat)
    requires i < |literal|
    ensures
      var item := ItemAt(tokens, literal, i);
      && 1 <= Width(item) && i + Width(item) <= |literal|
      && ScanFrom(tokens, literal, i) == [item] + ScanFrom(tokens, literal, i + Width(item))
  {
    var s := literal[i..];
    match TokenAtIndex(tokens, literal, i)
    case Some(token) =>
      assert s[|token|..] == literal[i + |token|..];
      assert token[|token| - 1] == s[|token| - 1];
    case None =>
      assert s[1..] == literal[i + 1..];
  }

  /** The scanning loop: `i` moves past a token or a character at a time. */
  method ScanFormat(tokens: set<string>, literal: string) returns (items: seq<Item>)
    ensures items == Scan(tokens, false, literal)
  {
    hide *;
    ScanFromEnds(tokens, literal);
    items := [];
    var i := 0;
    while i < |literal|
      invariant 0 <= i <= |literal|
      invariant items + ScanFrom(tokens, literal, i) == Scan(tokens, false, literal)
    {
      NextItem(tokens, literal, i);
      var item := ItemAt(tokens, literal, i);
      ConcatAssoc(items, [item], ScanFrom(tokens, literal, i + Width(item)));
      items := items + [item];
      i := i + Width(item);
    }
  }

  lemma RenderFirst(item: Item, rest: seq<Item>, text: string -> string)
    ensures Render([item] + rest, text) == ItemText(item, text) + Render(rest, text)
  {
    assert ([item] + rest)[1..] == rest;
  }

  lemma RenderScanStep(tokens: set<string>, prevIsAlpha: bool, s: string, text: string -> string)
    requires s != ""
    ensures Render(Scan(tokens, prevIsAlpha, s), text) ==
            match TokenAt(tokens, prevIsAlpha, s)
            case Some(token) => text(token) + Render(Scan(tokens, IsAlpha(token[|token| - 1]), s[|token|..]), text)
            case None => [s[0]] + Render(Scan(tokens, IsAlpha(s[0]), s[1..]), text)
  {
    match TokenAt(tokens, prevIsAlpha, s)
    case Some(token) => RenderFirst(Token(token), Scan(tokens, IsAlpha(token[|token| - 1]), s[|token|..]), text);
    case None => RenderFirst(Literal(s[0]), Scan(tokens, IsAlpha(s[0]), s[1..]), text);
  }

  /** What a pass still has to append from index `i` on. */
  function RenderFrom(tokens: set<string>, text: string -> string, literal: string, i: nat): string
    requires i <= |literal|
  {
    Render(ScanFrom(tokens, literal, i), text)
  }

  lemma AppendNext(tokens: set<string>, text: string -> string, literal: string, i: nat, result: string)
    requires i < |literal|
    ensures
      var item := ItemAt(tokens, literal, i);
      && 1 <= Width(item) && i + Width(item) <= |literal|
      && result + RenderFrom(tokens, text, literal, i)
         == (result + ItemText(item, text)) + RenderFrom(tokens, text, literal, i + Width(item))
  {
    NextItem(tokens, literal, i);
    var item := ItemAt(tokens, literal, i);
    RenderFirst(item, ScanFrom(tokens, literal, i + Width(item)), text);
    hide ItemAt, ScanFrom, Render, Width, ItemText;
    ConcatAssoc(result, ItemText(item, text), RenderFrom(tokens, text, literal, i + Width(item)));
  }

  lemma RenderFromEnds(tokens: set<string>, text: string -> string, literal: string)
    ensures RenderFrom(tokens, text, literal, 0) == Render(Scan(tokens, false, literal), text)
    ensures RenderFrom(tokens, text, literal, |literal|) == ""
  {
    ScanFromEnds(tokens, literal);
    hide Scan, ScanFrom;
  }

  /** The loop of a pass that appends one text per item. */
  method ReplaceTokens(tokens: set<string>, text: string -> string, literal: string) returns (result: string)
    ensures result == Render(Scan(tokens, false, literal), text)
  {
    hide *;
    RenderFromEnds(tokens, text, literal);
    result := "";
    var i := 0;
    while i < |literal|
      invariant 0 <= i <= |literal|
      invariant result + RenderFrom(tokens, text, literal, i) == Render(Scan(tokens, false, literal), text)
    {
      AppendNext(tokens, text, literal, i, result);
      var item := ItemAt(tokens, literal, i);
      result := result + ItemText(item, text);
      i := i + Width(item);
    }
  }

  lemma RenderCopiesOne(tokens: set<string>, prevIsAlpha: bool, s: string, text: string -> string)
    requires s != "" && forall token :: token in tokens && token != "" ==> token[0] != s[0]
    ensures Render(Scan(tokens, prevIsAlpha, s), text) == [s[0]] + Render(Scan(tokens, IsAlpha(s[0]), s[1..]), text)
  {
    RenderScanStep(tokens, prevIsAlpha, s, text);
  }

  /** A stretch in which no token starts is copied. */
  lemma {:induction false} RenderCopies(tokens: set<string>, prevIsAlpha: bool, x: string, y: string,
      text: string -> string)
    requires x != "" && forall token :: token in tokens && token != "" ==> token[0] !in x
    ensures Render(Scan(tokens, prevIsAlpha, x + y), text) == x + Render(Scan(tokens, IsAlpha(x[|x| - 1]), y), text)
    decreases |x|
  {
    hide Render, Scan, IsAlpha;
    var s := x + y;
    assert s[0] in x;
    RenderCopiesOne(tokens, prevIsAlpha, s, text);
    if |x| == 1 {
      assert s[1..] == y && x == [s[0]];
    } else {
      var z := x[1..];
      assert s[1..] == z + y && x == [s[0]] + z;
      assert forall token :: token in tokens && token != "" ==> token[0] !in z;
      RenderCopies(tokens, IsAlpha(x[0]), z, y, text);
      ConcatAssoc([s[0]], z, Render(Scan(tokens, IsAlpha(x[|x| - 1]), y), text));
    }
  }
}
