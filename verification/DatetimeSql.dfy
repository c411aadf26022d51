/** Compilation of a datetime format to SQL: a buffer collects literal characters and is flushed as a
    string literal in front of every token. */
module DatetimeSql {
  import opened DatetimeTokens
  import opened LocalizedFormat
  import opened SqlLiteral
  import opened Wrappers

  const DEFAULT_FORMAT: string := "YYYY-MM-DD"

  /** One operand of the `||` chain: the SQL of a token, kept abstract, or a string literal. */
  datatype SqlPart = TokenSql(token: string) | LiteralSql(expr: string)

  /** `ToChar` formats through a column holding the format, `Chain` through the compiled operands. */
  datatype FormatSql = ToChar(formatExpr: string) | Chain(parts: seq<SqlPart>)

  /** The items of a format after localized expansion. */
  function FormatItems(literal: string): seq<Item> {
    Scan(SUPPORTED_TOKENS, false, ExpandLocalized(literal))
  }

  function Flush(buffer: string): seq<SqlPart> {
    if buffer == "" then [] else [LiteralSql(ToSqlStringLiteral(buffer))]
  }

  /** The operands of the items still to come, behind a literal buffer. */
  function Operands(items: seq<Item>, buffer: string): seq<SqlPart> {
    if items == [] then Flush(buffer)
    else
      match items[0]
      case Token(name) => Flush(buffer) + [TokenSql(name)] + Operands(items[1..], "")
      case Literal(c) => Operands(items[1..], buffer + [c])
  }

  /** The compiled chain of a format literal; an empty chain is written as the empty string literal. */
  function CompiledChain(formatLiteral: string): seq<SqlPart> {
    var parts := Operands(FormatItems(formatLiteral), "");
    if parts == [] then [LiteralSql("''")] else parts
  }

  lemma TokenOperand(items: seq<Item>, i: nat, sqlParts: seq<SqlPart>, buffer: string)
    requires i < |items| && items[i].Token?
    ensures sqlParts + Operands(items[i..], buffer)
         == (sqlParts + Flush(buffer) + [TokenSql(items[i].name)]) + Operands(items[i + 1..], "")
  {
    assert items[i..][1..] == items[i + 1..];
    assert Operands(items[i..], buffer) == Flush(buffer) + [TokenSql(items[i].name)] + Operands(items[i + 1..], "");
    hide *;
    ConcatAssoc(sqlParts, Flush(buffer), [TokenSql(items[i].name)]);
    ConcatAssoc(sqlParts, Flush(buffer) + [TokenSql(items[i].name)], Operands(items[i + 1..], ""));
  }

  lemma LiteralOperand(items: seq<Item>, i: nat, buffer: string)
    requires i < |items| && items[i].Literal?
    ensures Operands(items[i..], buffer) == Operands(items[i + 1..], buffer + [items[i].c])
  {
    assert items[i..][1..] == items[i + 1..];
  }

  /** The compiling loop over the items, with its buffer. */
  method CompileItems(items: seq<Item>) returns (sqlParts: seq<SqlPart>)
    ensures sqlParts == Operands(items, "")
  {
    sqlParts := [];
    var literalBuffer := "";
    assert items[0..] == items;
    for i := 0 to |items|
      invariant sqlParts + Operands(items[i..], literalBuffer) == Operands(items, "")
    {
      hide *;
      match items[i] {
        case Token(name) =>
          TokenOperand(items, i, sqlParts, literalBuffer);
          sqlParts := sqlParts + Flush(literalBuffer) + [TokenSql(name)];
          literalBuffer := "";
        case Literal(c) =>
          LiteralOperand(items, i, literalBuffer);
          literalBuffer := literalBuffer + [c];
      }
    }
    sqlParts := sqlParts + Flush(literalBuffer);
  }

  method BuildDatetimeFormatSqlFromLiteral(formatLiteral: string) returns (sqlParts: seq<SqlPart>)
    ensures sqlParts == CompiledChain(formatLiteral)
  {
    hide ExpandLocalized, Scan, Operands;
    var expanded := ExpandLocalizedDatetimeFormat(formatLiteral);
    var items := ScanFormat(SUPPORTED_TOKENS, expanded);
    sqlParts := CompileItems(items);
    if sqlParts == [] {
      sqlParts := [LiteralSql("''")];
    }
  }

  function ResolveFormatLiteral(formatExpr: Option<string>): Option<string> {
    match formatExpr
    case None => Some(DEFAULT_FORMAT)
    case Some(expr) => if Trim(expr) == "" then Some(DEFAULT_FORMAT) else ParseSqlStringLiteral(Trim(expr))
  }

  function NormalizeLiteral(literal: string): string {
    Render(FormatItems(literal), ToPostgres)
  }

  method NormalizeDatetimeFormatLiteral(literal: string) returns (result: string)
    ensures result == NormalizeLiteral(literal)
  {
    var expanded := ExpandLocalizedDatetimeFormat(literal);
    result := ReplaceTokens(SUPPORTED_TOKENS, ToPostgres, expanded);
  }

  /** The format expression handed to `TO_CHAR`, and read back by the parse guard. The text between the
      quotes is normalized as it stands, its doubled quotes included. */
  function NormalizeFormatExpression(formatExpr: Option<string>): string {
    match formatExpr
    case None => Quote(DEFAULT_FORMAT)
    case Some(expr) =>
      var trimmed := Trim(expr);
      if trimmed == "" then Quote(DEFAULT_FORMAT)
      else if !IsQuoted(trimmed) then expr
      else Quote(DoubleQuotes(NormalizeLiteral(Inner(trimmed))))
  }

  function EffectiveFormat(formatLiteral: string): string {
    if formatLiteral == "" then DEFAULT_FORMAT else formatLiteral
  }

  /** An expression that is no literal is handed on as it is. */
  lemma ColumnIsKept(expr: string)
    requires Trim(expr) != "" && !IsQuoted(Trim(expr))
    ensures ResolveFormatLiteral(Some(expr)).None? && NormalizeFormatExpression(Some(expr)) == expr
  {
    TrimAgain(expr);
    hide Trim;
  }

  method BuildDatetimeFormatSql(formatExpr: Option<string>) returns (sql: FormatSql)
    ensures match ResolveFormatLiteral(formatExpr)
            case None => sql == ToChar(NormalizeFormatExpression(formatExpr))
            case Some(literal) => sql == Chain(CompiledChain(if literal == "" then DEFAULT_FORMAT else literal))
    ensures formatExpr.Some? && Trim(formatExpr.value) != "" && !IsQuoted(Trim(formatExpr.value)) ==>
              sql == ToChar(formatExpr.value)
  {
    if formatExpr.Some? && Trim(formatExpr.value) != "" && !IsQuoted(Trim(formatExpr.value)) {
      ColumnIsKept(formatExpr.value);
    }
    hide ResolveFormatLiteral, NormalizeFormatExpression, CompiledChain, Trim, IsQuoted;
    match ResolveFormatLiteral(formatExpr) {
      case None =>
        sql := ToChar(NormalizeFormatExpression(formatExpr));
      case Some(literal) =>
        var parts := BuildDatetimeFormatSqlFromLiteral(EffectiveFormat(literal));
        sql := Chain(parts);
    }
  }

  // ---------- what the chain evaluates to ----------

  function PartValue(part: SqlPart, tokenValue: string -> string): string {
    match part
    case TokenSql(name) => tokenValue(name)
    case LiteralSql(expr) => match ParseSqlStringLiteral(expr) case Some(s) => s case None => ""
  }

  /** The value of a chain, given the value of every token's SQL; a literal operand is read by the SQL
      reader. */
  function ChainValue(parts: seq<SqlPart>, tokenValue: string -> string): string {
    if parts == [] then "" else PartValue(parts[0], tokenValue) + ChainValue(parts[1..], tokenValue)
  }

  lemma ChainValueFirst(part: SqlPart, rest: seq<SqlPart>, tokenValue: string -> string)
    ensures ChainValue([part] + rest, tokenValue) == PartValue(part, tokenValue) + ChainValue(rest, tokenValue)
  {
    assert ([part] + rest)[1..] == rest;
  }

  lemma FlushValue(buffer: string, rest: seq<SqlPart>, tokenValue: string -> string)
    ensures ChainValue(Flush(buffer) + rest, tokenValue) == buffer + ChainValue(rest, tokenValue)
  {
    if buffer == "" {
      assert Flush(buffer) + rest == rest;
    } else {
      LiteralRoundTrip(buffer);
      hide ToSqlStringLiteral, ParseSqlStringLiteral;
      ChainValueFirst(LiteralSql(ToSqlStringLiteral(buffer)), rest, tokenValue);
    }
  }

  /** The buffer loses, doubles and reorders nothing. */
  lemma {:induction false} OperandsKeepMeaning(items: seq<Item>, buffer: string, tokenValue: string -> string)
    ensures ChainValue(Operands(items, buffer), tokenValue) == buffer + Render(items, tokenValue)
    decreases items
  {
    if items == [] {
      FlushValue(buffer, [], tokenValue);
      assert Flush(buffer) + [] == Flush(buffer);
    } else {
      var rest := items[1..];
      assert Render(items, tokenValue) == ItemText(items[0], tokenValue) + Render(rest, tokenValue);
      match items[0]
      case Token(name) =>
        assert Operands(items, buffer) == Flush(buffer) + [TokenSql(name)] + Operands(rest, "");
        assert PartValue(TokenSql(name), tokenValue) == ItemText(items[0], tokenValue);
        hide *;
        ConcatAssoc(Flush(buffer), [TokenSql(name)], Operands(rest, ""));
        FlushValue(buffer, [TokenSql(name)] + Operands(rest, ""), tokenValue);
        ChainValueFirst(TokenSql(name), Operands(rest, ""), tokenValue);
        OperandsKeepMeaning(rest, "", tokenValue);
        NothingAhead(Render(rest, tokenValue));
      case Literal(c) =>
        assert Operands(items, buffer) == Operands(rest, buffer + [c]);
        assert ItemText(items[0], tokenValue) == [c];
        hide *;
        OperandsKeepMeaning(rest, buffer + [c], tokenValue);
        ConcatAssoc(buffer, [c], Render(rest, tokenValue));
    }
  }

  /** Compilation preserves meaning: the chain evaluates to the format rendered item by item. */
  lemma CompiledChainMeaning(formatLiteral: string, tokenValue: string -> string)
    ensures ChainValue(CompiledChain(formatLiteral), tokenValue) == Render(FormatItems(formatLiteral), tokenValue)
  {
    var parts := Operands(FormatItems(formatLiteral), "");
    OperandsKeepMeaning(FormatItems(formatLiteral), "", tokenValue);
    if parts == [] {
      LiteralRoundTrip("");
      assert ToSqlStringLiteral("") == "''";
    }
  }

  /** From the format expression a user's literal is written as, to the text: quoting, resolving,
      expanding, scanning and compiling together render the format, or the default when it is empty. */
  lemma FormatSqlMeaning(literal: string, tokenValue: string -> string)
    ensures ResolveFormatLiteral(Some(ToSqlStringLiteral(literal))) == Some(literal)
    ensures ChainValue(CompiledChain(EffectiveFormat(literal)), tokenValue)
         == Render(FormatItems(EffectiveFormat(literal)), tokenValue)
    ensures Render(FormatItems(literal), name => name) == ExpandLocalized(literal)
  {
    InnerOfQuote(DoubleQuotes(literal));
    QuotedNeedsNoTrim(ToSqlStringLiteral(literal));
    LiteralRoundTrip(literal);
    CompiledChainMeaning(EffectiveFormat(literal), tokenValue);
    ScanSpellsInput(SUPPORTED_TOKENS, false, ExpandLocalized(literal));
  }
}
