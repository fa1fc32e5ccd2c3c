/**
 Builders for NocoDB `where` expressions, the grammar `andFilters` checks them
 against, and a parser for that grammar.

 A clause is kept with its literal value tokens, so that printing and parsing
 are exact inverses on every expression of the grammar, not only on the ones
 the builders produce.
 */
module Filter {
  import opened Wrappers
  import opened Text

  /** A value as callers pass it; `NotFinite` stands for NaN and the infinities. */
  datatype FilterValue = Text(text: string) | Number(n: int) | NotFinite | Flag(b: bool)

  /** One literal of an expression. */
  datatype Token = Quoted(text: string) | Numeric(literal: string)

  datatype Operator = Eq | In

  datatype Clause =
    | Compare(field: string, op: Operator, values: seq<Token>)
    | Checked(field: string)
    | NotChecked(field: string)

  // ── Lexical classes of the patterns ───────────────────────────────────────

  predicate IsFieldChar(c: char) {
    'A' <= c <= 'Z' || 'a' <= c <= 'z' || '0' <= c <= '9' || c == '_' || c == '-'
  }

  predicate IsQuotable(c: char) {
    c != '"'
  }

  predicate IsNumericChar(c: char) {
    IsDigit(c) || c == '-' || c == '.'
  }

  predicate All(s: string, p: char -> bool) {
    forall i :: 0 <= i < |s| ==> p(s[i])
  }

  predicate IsField(s: string) {
    s != "" && All(s, IsFieldChar)
  }

  /** `\d+(?:\.\d+)?` */
  predicate IsUnsigned(u: string) {
    var k := Span(u, IsDigit);
    k > 0 && (u[k..] == "" || (u[k] == '.' && u[k + 1..] != "" && All(u[k + 1..], IsDigit)))
  }

  /** `-?\d+(?:\.\d+)?` */
  predicate IsNumber(s: string) {
    IsUnsigned(if s != "" && s[0] == '-' then s[1..] else s)
  }

  predicate IsToken(t: Token) {
    match t
    case Quoted(text) => All(text, IsQuotable)
    case Numeric(literal) => IsNumber(literal)
  }

  predicate IsClause(c: Clause) {
    && IsField(c.field)
    && (c.Compare? ==> c.values != [] && forall i :: 0 <= i < |c.values| ==> IsToken(c.values[i]))
  }

  // ── Builders ──────────────────────────────────────────────────────────────

  /** A value wrapped in quotes, or refused: empty, with a quote, or with a control character. */
  function NormalizeText(value: string): Result<string> {
    var normalized := Trim(value);
    if normalized == "" || '"' in normalized || (exists c :: c in normalized && IsControl(c)) then
      Err(BadRequest)
    else
      Ok(normalized)
  }

  function FormatValue(value: FilterValue): Result<Token> {
    match value
    case Number(n) => Ok(Numeric(Decimal(n)))
    case NotFinite => Err(BadRequest)
    case Flag(_) => Err(BadRequest)
    case Text(text) =>
      match NormalizeText(text)
      case Err(e) => Err(e)
      case Ok(t) => Ok(Quoted(t))
  }

  function SanitizeField(field: string): Result<string> {
    if !IsField(field) then Err(BadRequest) else Ok(if field == "id" then "Id" else field)
  }

  function FormatValues(values: seq<FilterValue>): Result<seq<Token>> {
    if values == [] then Ok([]) else
      match FormatValue(values[0])
      case Err(e) => Err(e)
      case Ok(t) =>
        match FormatValues(values[1..])
        case Err(e) => Err(e)
        case Ok(ts) => Ok([t] + ts)
  }

  /** The clause a builder call denotes. */
  function CheckedClause(field: string, ticked: bool): Result<Clause> {
    match SanitizeField(field)
    case Err(e) => Err(e)
    case Ok(f) => Ok(if ticked then Checked(f) else NotChecked(f))
  }

  function EqClause(field: string, value: FilterValue): Result<Clause> {
    if value.Flag? then CheckedClause(field, value.b) else
      match SanitizeField(field)
      case Err(e) => Err(e)
      case Ok(f) =>
        match FormatValue(value)
        case Err(e) => Err(e)
        case Ok(t) => Ok(Compare(f, Eq, [t]))
  }

  function InClause(field: string, values: seq<FilterValue>): Result<Clause> {
    if values == [] then Err(BadRequest) else
      match SanitizeField(field)
      case Err(e) => Err(e)
      case Ok(f) =>
        match FormatValues(values)
        case Err(e) => Err(e)
        case Ok(ts) => Ok(Compare(f, In, ts))
  }

  function PrintToken(t: Token): string {
    match t
    case Quoted(text) => "\"" + text + "\""
    case Numeric(literal) => literal
  }

  /** `values.map(format).join(',')` */
  function PrintTokens(ts: seq<Token>): string
    requires ts != []
  {
    if |ts| == 1 then PrintToken(ts[0]) else PrintToken(ts[0]) + "," + PrintTokens(ts[1..])
  }

  function PrintOperator(op: Operator): string {
    match op
    case Eq => "eq"
    case In => "in"
  }

  function PrintBody(c: Clause): string
    requires IsClause(c)
  {
    match c
    case Compare(_, op, values) => PrintOperator(op) + "," + PrintTokens(values)
    case Checked(_) => "checked"
    case NotChecked(_) => "notchecked"
  }

  function Print(c: Clause): string
    requires IsClause(c)
  {
    "(" + c.field + "," + PrintBody(c) + ")"
  }

  function PrintResult(c: Result<Clause>): Result<string>
    requires c.Ok? ==> IsClause(c.value)
  {
    match c
    case Err(e) => Err(e)
    case Ok(clause) => Ok(Print(clause))
  }

  function FilterEq(field: string, value: FilterValue): Result<string> {
    BuildersAreClauses(field, value, []);
    PrintResult(EqClause(field, value))
  }

  function FilterIn(field: string, values: seq<FilterValue>): Result<string> {
    BuildersAreClauses(field, NotFinite, values);
    PrintResult(InClause(field, values))
  }

  function FilterChecked(field: string): Result<string> {
    PrintResult(CheckedClause(field, true))
  }

  function FilterNotChecked(field: string): Result<string> {
    PrintResult(CheckedClause(field, false))
  }

  function Join(filters: seq<string>): string {
    if filters == [] then "" else
    if |filters| == 1 then filters[0] else filters[0] + "~and" + Join(filters[1..])
  }

  /** Joins expressions with `~and`, refusing anything that is not one whole clause. */
  function AndFilters(filters: seq<string>): Result<string> {
    if forall i :: 0 <= i < |filters| ==> IsExpression(filters[i]) then Ok(Join(filters)) else Err(BadRequest)
  }

  // ── The grammar ───────────────────────────────────────────────────────────

  /**
   What the pattern of `andFilters` accepts, read as a decomposition of the
   string: a parenthesised field, and either an operator with a comma
   separated list of literals or one of the two checkbox operators.
   */
  ghost predicate MatchesPattern(s: string) {
    exists field, body :: IsFramed(s, field, body) && MatchesBody(body)
  }

  predicate IsFramed(s: string, field: string, body: string) {
    IsField(field) && s == "(" + field + "," + body + ")"
  }

  ghost predicate MatchesBody(body: string) {
    body == "checked" || body == "notchecked" || exists op, literals :: IsComparison(body, op, literals)
  }

  predicate IsComparison(body: string, op: Operator, literals: seq<string>) {
    literals != [] && (forall i :: 0 <= i < |literals| ==> IsLiteral(literals[i]))
    && body == PrintOperator(op) + "," + Commas(literals)
  }

  /** `"[^"]*"` or a number. */
  predicate IsLiteral(s: string) {
    IsNumber(s) || (|s| >= 2 && s[0] == '"' == s[|s| - 1] && All(s[1..|s| - 1], IsQuotable))
  }

  function Commas(literals: seq<string>): string
    requires literals != []
  {
    if |literals| == 1 then literals[0] else literals[0] + "," + Commas(literals[1..])
  }

  /** The same test as a scanner decides it: the whole string is one clause. */
  predicate IsExpression(s: string) {
    var r := ParseClause(s);
    r.Some? && r.value.1 == ""
  }

  // ── Parser ────────────────────────────────────────────────────────────────

  /** Length of the longest prefix whose characters satisfy p. */
  function Span(s: string, p: char -> bool): (k: nat)
    ensures k <= |s| && All(s[..k], p)
    ensures k < |s| ==> !p(s[k])
  {
    if s != "" && p(s[0]) then
      var k := 1 + Span(s[1..], p);
      assert forall i :: 0 < i < k ==> s[..k][i] == s[1..][..k - 1][i - 1];
      k
    else 0
  }

  function ParseToken(s: string): (r: Option<(Token, string)>) {
    if s != "" && s[0] == '"' then
      var k := Span(s[1..], IsQuotable);
      if k < |s[1..]| then Some((Quoted(s[1..][..k]), s[1..][k + 1..])) else None
    else
      var k := Span(s, IsNumericChar);
      if IsNumber(s[..k]) then Some((Numeric(s[..k]), s[k..])) else None
  }

  lemma ParseTokenSound(s: string)
    ensures var r := ParseToken(s);
            r.Some? ==> IsToken(r.value.0) && s == PrintToken(r.value.0) + r.value.1 && |r.value.1| < |s|
  {
    if ParseToken(s).Some? {
      if s[0] == '"' {
        var k := Span(s[1..], IsQuotable);
        assert s[1..][k] == '"';
        assert s == "\"" + s[1..][..k] + "\"" + s[1..][k + 1..];
      } else {
        var k := Span(s, IsNumericChar);
        assert s == s[..k] + s[k..];
        assert k > 0;
      }
    }
  }

  function ParseTokens(s: string): (r: Option<(seq<Token>, string)>)
    decreases |s|
  {
    ParseTokenSound(s);
    match ParseToken(s)
    case None => None
    case Some((t, rest)) =>
      if rest != "" && rest[0] == ',' then
        match ParseTokens(rest[1..])
        case None => None
        case Some((ts, rest')) => Some(([t] + ts, rest'))
      else
        Some(([t], rest))
  }

  /** The text behind a prefix. */
  function Strip(prefix: string, s: string): (r: Option<string>)
    ensures r.Some? ==> s == prefix + r.value
  {
    if prefix <= s then Some(s[|prefix|..]) else None
  }

  function ParseBody(field: string, s: string): Option<(Clause, string)> {
    if Strip("eq,", s).Some? then ParseComparison(field, Eq, Strip("eq,", s).value)
    else if Strip("in,", s).Some? then ParseComparison(field, In, Strip("in,", s).value)
    else if Strip("checked", s).Some? then Some((Checked(field), Strip("checked", s).value))
    else if Strip("notchecked", s).Some? then Some((NotChecked(field), Strip("notchecked", s).value))
    else None
  }

  function ParseComparison(field: string, op: Operator, s: string): Option<(Clause, string)> {
    match ParseTokens(s)
    case None => None
    case Some((ts, rest)) => Some((Compare(field, op, ts), rest))
  }

  /** One clause at the start of s, and the text behind it. */
  function ParseClause(s: string): (r: Option<(Clause, string)>) {
    if !("(" <= s) then None else
      var k := Span(s[1..], IsFieldChar);
      var field, rest := s[1..][..k], s[1..][k..];
      if k == 0 || !("," <= rest) then None else
        match ParseBody(field, rest[1..])
        case None => None
        case Some((c, rest')) => if ")" <= rest' then Some((c, rest'[1..])) else None
  }

  function ParseList(s: string): (r: Option<seq<Clause>>)
    decreases |s|
  {
    ParseClauseSound(s);
    match ParseClause(s)
    case None => None
    case Some((c, rest)) =>
      if rest == "" then Some([c])
      else if "~and" <= rest then
        match ParseList(rest[4..])
        case None => None
        case Some(cs) => Some([c] + cs)
      else None
  }

  /** The clauses of a whole `where` expression; the empty expression has none. */
  function ParseWhere(s: string): Option<seq<Clause>> {
    if s == "" then Some([]) else ParseList(s)
  }

  function PrintAll(cs: seq<Clause>): string
    requires forall i :: 0 <= i < |cs| ==> IsClause(cs[i])
  {
    if cs == [] then "" else
    if |cs| == 1 then Print(cs[0]) else Print(cs[0]) + "~and" + PrintAll(cs[1..])
  }

  // ── Parsing is sound: what is parsed prints back to the text ──────────────

  lemma {:induction false} ParseTokensSound(s: string)
    ensures var r := ParseTokens(s);
            r.Some? ==> r.value.0 != [] && (forall i :: 0 <= i < |r.value.0| ==> IsToken(r.value.0[i]))
                        && s == PrintTokens(r.value.0) + r.value.1
    decreases |s|
  {
    ParseTokenSound(s);
    if ParseTokens(s).Some? {
      var (t, rest) := ParseToken(s).value;
      if rest != "" && rest[0] == ',' {
        ParseTokensSound(rest[1..]);
        var (ts, rest') := ParseTokens(rest[1..]).value;
        TokensText(t, rest, ts, rest');
      }
    }
  }

  lemma TokensText(t: Token, rest: string, ts: seq<Token>, rest': string)
    requires "," <= rest && ts != [] && rest[1..] == PrintTokens(ts) + rest'
    ensures PrintToken(t) + rest == PrintTokens([t] + ts) + rest'
  {
    PrintTokensCons(t, ts);
    assert rest == "," + rest[1..];
    Regroup(PrintToken(t), ",", PrintTokens(ts), rest');
  }

  lemma PrintTokensCons(t: Token, ts: seq<Token>)
    requires ts != []
    ensures PrintTokens([t] + ts) == PrintToken(t) + "," + PrintTokens(ts)
  {
    assert ([t] + ts)[1..] == ts;
  }

  lemma Regroup(a: string, b: string, c: string, d: string)
    ensures a + (b + (c + d)) == a + b + c + d
  {
  }

  lemma ParseClauseSound(s: string)
    ensures var r := ParseClause(s);
            r.Some? ==> IsClause(r.value.0) && s == Print(r.value.0) + r.value.1 && |r.value.1| < |s|
  {
    if ParseClause(s).Some? {
      var k := Span(s[1..], IsFieldChar);
      var field, rest := s[1..][..k], s[1..][k..];
      ParseBodySound(field, rest[1..]);
      var (c, rest') := ParseBody(field, rest[1..]).value;
      ClauseText(s, k, c, rest');
    }
  }

  lemma ClauseText(s: string, k: nat, c: Clause, rest: string)
    requires "(" <= s && k <= |s[1..]| && "," <= s[1..][k..] && ")" <= rest
    requires IsClause(c) && c.field == s[1..][..k] && s[1..][k..][1..] == PrintBody(c) + rest
    ensures s == Print(c) + rest[1..] && |rest[1..]| < |s|
  {
    var body, tail := PrintBody(c), rest[1..];
    assert rest == ")" + tail;
    assert s[1..][k..] == "," + (body + (")" + tail));
    assert s == "(" + (c.field + ("," + (body + (")" + tail))));
    Unwrap(c.field, body, tail);
  }

  lemma Unwrap(field: string, body: string, rest: string)
    ensures "(" + (field + ("," + (body + (")" + rest)))) == "(" + field + "," + body + ")" + rest
  {
    Regroup(field, ",", body, ")" + rest);
  }

  lemma ParseBodySound(field: string, s: string)
    requires IsField(field)
    ensures var r := ParseBody(field, s);
            r.Some? ==> r.value.0.field == field && IsClause(r.value.0) && s == PrintBody(r.value.0) + r.value.1
  {
    if Strip("eq,", s).Some? {
      ParseComparisonSound(field, Eq, Strip("eq,", s).value);
    } else if Strip("in,", s).Some? {
      ParseComparisonSound(field, In, Strip("in,", s).value);
    }
  }

  lemma ParseComparisonSound(field: string, op: Operator, s: string)
    requires IsField(field)
    ensures var r := ParseComparison(field, op, s);
            r.Some? ==> r.value.0.field == field && IsClause(r.value.0)
                        && PrintOperator(op) + "," + s == PrintBody(r.value.0) + r.value.1
  {
    ParseTokensSound(s);
    if ParseTokens(s).Some? {
      var (ts, rest) := ParseTokens(s).value;
      Regroup("", PrintOperator(op) + ",", PrintTokens(ts), rest);
      assert "" + (PrintOperator(op) + "," + s) == PrintOperator(op) + "," + s;
    }
  }

  lemma BuildersAreClauses(field: string, value: FilterValue, values: seq<FilterValue>)
    ensures EqClause(field, value).Ok? ==> IsClause(EqClause(field, value).value)
    ensures InClause(field, values).Ok? ==> IsClause(InClause(field, values).value)
  {
    FormattedIsToken(value);
    FormattedAreTokens(values);
  }

  lemma FormattedIsToken(value: FilterValue)
    ensures FormatValue(value).Ok? ==> IsToken(FormatValue(value).value)
  {
    if value.Number? {
      DecimalIsNumber(value.n);
    }
  }

  lemma {:induction false} FormattedAreTokens(values: seq<FilterValue>)
    ensures var r := FormatValues(values);
            r.Ok? ==> |r.value| == |values| && forall i :: 0 <= i < |values| ==> IsToken(r.value[i])
  {
    if values != [] {
      FormattedIsToken(values[0]);
      FormattedAreTokens(values[1..]);
    }
  }

  lemma {:induction false} SpanAll(a: string, b: string, p: char -> bool)
    requires All(a, p) && (b == "" || !p(b[0]))
    ensures Span(a + b, p) == |a|
  {
    if a == "" {
      assert a + b == b;
    } else {
      assert (a + b)[1..] == a[1..] + b;
      SpanAll(a[1..], b, p);
    }
  }

  lemma DecimalIsNumber(n: int)
    ensures IsNumber(Decimal(n))
  {
    var d := Digits(if n < 0 then -n else n);
    assert forall i :: 0 <= i < |d| ==> d[i] in d;
    SpanAll(d, "", IsDigit);
    assert d + "" == d;
    if n < 0 {
      assert Decimal(n)[1..] == d;
    } else {
      assert d[0] in d;
    }
  }
}
