/** The two tables of the format tokens: the SQL a token is compiled to, and the template it is normalized to. */
module DatetimeTemplates {
  import opened DatetimeTokens

  /** The SQL of a token over a datetime and an offset: `TO_CHAR` with a template, its first characters, its
      lower case, the number of the weekday, or the offset as it is or without its colon. */
  datatype Builder =
    | ToChar(template: string)
    | FirstOf(template: string, count: nat)
    | LowerOf(template: string)
    | WeekdayNumber
    | Offset(colon: bool)

  /** `DATETIME_FORMAT_SQL_BUILDERS`. */
  function BuilderOf(token: string): Builder {
    if token == "Month" || token == "MMMM" then ToChar("FMMonth")
    else if token == "MONTH" then ToChar("FMMONTH")
    else if token == "month" then ToChar("FMmonth")
    else if token == "Day" || token == "dddd" then ToChar("FMDay")
    else if token == "DAY" then ToChar("FMDAY")
    else if token == "day" then ToChar("FMday")
    else if token == "ddd" then ToChar("FMDy")
    else if token == "dd" then FirstOf("FMDy", 2)
    else if token == "d" then WeekdayNumber
    else if token == "MMM" then ToChar("FMMon")
    else if token == "M" then ToChar("FMMM")
    else if token == "D" then ToChar("FMDD")
    else if token == "HH" then ToChar("HH24")
    else if token == "H" then ToChar("FMHH24")
    else if token == "hh" then ToChar("HH12")
    else if token == "h" then ToChar("FMHH12")
    else if token == "mm" then ToChar("MI")
    else if token == "m" then ToChar("FMMI")
    else if token == "ss" then ToChar("SS")
    else if token == "s" then ToChar("FMSS")
    else if token == "SSS" then ToChar("MS")
    else if token == "ZZ" then Offset(false)
    else if token == "Z" then Offset(true)
    else if token == "A" then ToChar("AM")
    else if token == "a" then LowerOf("AM")
    else ToChar(token)
  }

  /** What is written of a datetime, in one way or another. */
  datatype Field = Year | Month | Day | Weekday | Hour | HalfDayHour | Minute | Second | Millisecond | HalfDay | Zone

  function FieldOf(template: string): Field {
    if template == "YYYY" || template == "YY" then Year
    else if template in {"MM", "FMMM", "FMMon", "FMMonth", "FMMONTH", "FMmonth"} then Month
    else if template in {"DD", "FMDD"} then Day
    else if template in {"D", "FMDy", "FMDay", "FMDAY", "FMday"} then Weekday
    else if template in {"HH24", "FMHH24"} then Hour
    else if template in {"HH12", "FMHH12"} then HalfDayHour
    else if template in {"MI", "FMMI"} then Minute
    else if template in {"SS", "FMSS"} then Second
    else if template == "MS" then Millisecond
    else if template in {"AM", "am"} then HalfDay
    else Zone
  }

  function FieldWritten(builder: Builder): Field {
    match builder
    case ToChar(template) => FieldOf(template)
    case FirstOf(template, _) => FieldOf(template)
    case LowerOf(template) => FieldOf(template)
    case WeekdayNumber => Weekday
    case Offset(_) => Zone
  }

  const HOUR_TOKENS: set<string> := {"HH24", "HH12", "HH", "H", "hh", "h"}

  const MINUTE_TOKENS: set<string> := {"MI", "MS", "SS", "mm", "m", "ss", "s", "SSS"}

  const DATE_TOKENS: set<string> := {"YYYY", "YY", "MM", "M", "DD", "D"}

  const NAME_TOKENS: set<string> := {"Month", "MONTH", "month", "Day", "DAY", "day", "MMMM", "MMM", "dddd", "ddd"}

  /** The tokens whose SQL does more than one template can. */
  const SPECIAL_TOKENS: set<string> := {"dd", "d", "a", "Z", "ZZ"}

  /** Every token that is supported has its SQL, and the other way round. */
  lemma SupportedTokens(token: string)
    ensures token in SUPPORTED_TOKENS <==>
            || token in HOUR_TOKENS || token in MINUTE_TOKENS || token in DATE_TOKENS || token in NAME_TOKENS
            || token in SPECIAL_TOKENS || token == "A"
  {
  }

  ghost predicate Agree(token: string) {
    && (BuilderOf(token) == ToChar(ToPostgres(token)) <==> token !in SPECIAL_TOKENS)
    && FieldOf(ToPostgres(token)) == FieldWritten(BuilderOf(token))
  }

  lemma HourTokensAgree(token: string)
    requires token in HOUR_TOKENS
    ensures Agree(token)
  {
  }

  lemma MinuteTokensAgree(token: string)
    requires token in MINUTE_TOKENS
    ensures Agree(token)
  {
  }

  lemma DateTokensAgree(token: string)
    requires token in DATE_TOKENS
    ensures Agree(token)
  {
  }

  lemma NameTokensAgree(token: string)
    requires token in NAME_TOKENS
    ensures Agree(token)
  {
  }

  lemma SpecialTokensAgree(token: string)
    requires token in SPECIAL_TOKENS || token == "A"
    ensures Agree(token)
  {
  }

  /** The two tables write the same field for every token, and agree on the template exactly but for the tokens
      whose SQL does more than a template can. */
  lemma TablesAgree(token: string)
    requires token in SUPPORTED_TOKENS
    ensures BuilderOf(token) == ToChar(ToPostgres(token)) <==> token !in SPECIAL_TOKENS
    ensures FieldOf(ToPostgres(token)) == FieldWritten(BuilderOf(token))
  {
    SupportedTokens(token);
    hide BuilderOf, ToPostgres, FieldOf, FieldWritten;
    if token in HOUR_TOKENS {
      HourTokensAgree(token);
    } else if token in MINUTE_TOKENS {
      MinuteTokensAgree(token);
    } else if token in DATE_TOKENS {
      DateTokensAgree(token);
    } else if token in NAME_TOKENS {
      NameTokensAgree(token);
    } else {
      SpecialTokensAgree(token);
    }
  }
}
