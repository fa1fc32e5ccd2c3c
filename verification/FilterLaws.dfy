/**
 Printing and parsing `where` expressions undo each other, and what that means
 for the builders: nothing inside a value can change the clauses.
 */
module FilterLaws {
  import opened Wrappers
  import opened Text
  import opened Filter

  // ── Parsing what was printed ──────────────────────────────────────────────

  lemma NumberIsNumeric(s: string)
    requires IsNumber(s)
    ensures s != "" && All(s, IsNumericChar)
  {
    var u := if s[0] == '-' then s[1..] else s;
    var k := Span(u, IsDigit);
    assert forall i :: 0 <= i < k ==> u[i] == u[..k][i];
    assert forall i :: k < i < |u| ==> u[i] == u[k + 1..][i - k - 1];
    assert forall i :: 0 <= i < |u| ==> IsNumericChar(u[i]);
    assert s[0] == '-' ==> forall i :: 0 < i < |s| ==> s[i] == u[i - 1];
  }

  lemma ParseTokenPrint(t: Token, rest: string)
    requires IsToken(t)
    requires rest == "" || !IsNumericChar(rest[0])
    ensures ParseToken(PrintToken(t) + rest) == Some((t, rest))
  {
    var s := PrintToken(t) + rest;
    match t
    case Quoted(text) =>
      assert s[1..] == text + ("\"" + rest);
      SpanAll(text, "\"" + rest, IsQuotable);
    case Numeric(literal) =>
      NumberIsNumeric(literal);
      assert IsNumericChar(literal[0]);
      SpanAll(literal, rest, IsNumericChar);
  }

  lemma {:induction false} ParseTokensPrint(ts: seq<Token>, rest: string)
    requires ts != [] && forall i :: 0 <= i < |ts| ==> IsToken(ts[i])
    requires ")" <= rest
    ensures ParseTokens(PrintTokens(ts) + rest) == Some((ts, rest))
  {
    if |ts| == 1 {
      ParseTokenPrint(ts[0], rest);
      assert ts == [ts[0]];
    } else {
      ParseTokensPrint(ts[1..], rest);
      PrintTokensCons(ts[0], ts[1..]);
      assert ts == [ts[0]] + ts[1..];
      ParseMoreTokens(ts[0], ts[1..], PrintTokens(ts[1..]) + rest, rest);
      Regroup(PrintToken(ts[0]), ",", PrintTokens(ts[1..]), rest);
    }
  }

  lemma ParseMoreTokens(t: Token, ts: seq<Token>, s: string, rest: string)
    requires IsToken(t) && ParseTokens(s) == Some((ts, rest))
    ensures ParseTokens(PrintToken(t) + ("," + s)) == Some(([t] + ts, rest))
  {
    ParseTokenPrint(t, "," + s);
    assert ("," + s)[1..] == s;
  }

  lemma StripPrinted(word: string, rest: string)
    ensures Strip(word, word + rest) == Some(rest)
  {
    assert word <= word + rest && (word + rest)[|word|..] == rest;
  }

  lemma StripOther(prefix: string, word: string, rest: string)
    requires prefix != "" && word != "" && prefix[0] != word[0]
    ensures Strip(prefix, word + rest) == None
  {
    assert (word + rest)[0] == word[0];
  }

  lemma ParseComparePrint(field: string, op: Operator, ts: seq<Token>, s: string, rest: string)
    requires ParseTokens(s) == Some((ts, rest))
    ensures ParseBody(field, PrintOperator(op) + "," + s) == Some((Compare(field, op, ts), rest))
  {
    match op
    case Eq => StripPrinted("eq,", s);
    case In => StripPrinted("in,", s); StripOther("eq,", "in,", s);
  }

  lemma ParseCheckedPrint(field: string, rest: string)
    ensures ParseBody(field, "checked" + rest) == Some((Checked(field), rest))
  {
    StripPrinted("checked", rest);
    StripOther("eq,", "checked", rest);
    StripOther("in,", "checked", rest);
  }

  lemma ParseNotCheckedPrint(field: string, rest: string)
    ensures ParseBody(field, "notchecked" + rest) == Some((NotChecked(field), rest))
  {
    StripPrinted("notchecked", rest);
    StripOther("eq,", "notchecked", rest);
    StripOther("in,", "notchecked", rest);
    StripOther("checked", "notchecked", rest);
  }

  lemma ParseBodyPrint(c: Clause, rest: string)
    requires IsClause(c) && ")" <= rest
    ensures ParseBody(c.field, PrintBody(c) + rest) == Some((c, rest))
  {
    match c
    case Compare(field, op, values) =>
      ParseTokensPrint(values, rest);
      ParseComparePrint(field, op, values, PrintTokens(values) + rest, rest);
      Regroup(PrintOperator(op), ",", PrintTokens(values), rest);
      Regroup("", PrintOperator(op) + ",", PrintTokens(values), rest);
      assert PrintOperator(op) + "," + (PrintTokens(values) + rest) == PrintBody(c) + rest;
    case Checked(field) =>
      ParseCheckedPrint(field, rest);
    case NotChecked(field) =>
      ParseNotCheckedPrint(field, rest);
  }

  /** A printed clause parses to itself whatever follows it. */
  lemma ParseClausePrint(c: Clause, rest: string)
    requires IsClause(c)
    ensures ParseClause(Print(c) + rest) == Some((c, rest))
  {
    var s := Print(c) + rest;
    var body := PrintBody(c) + (")" + rest);
    Unwrap(c.field, PrintBody(c), rest);
    assert s[1..] == c.field + ("," + body);
    SpanAll(c.field, "," + body, IsFieldChar);
    assert ("," + body)[1..] == body;
    ParseBodyPrint(c, ")" + rest);
  }

  ghost predicate AreClauses(cs: seq<Clause>) {
    forall i :: 0 <= i < |cs| ==> IsClause(cs[i])
  }

  lemma {:induction false} PrintAllIsJoin(cs: seq<Clause>, fs: seq<string>)
    requires AreClauses(cs) && |fs| == |cs| && forall i :: 0 <= i < |cs| ==> fs[i] == Print(cs[i])
    ensures PrintAll(cs) == Join(fs)
  {
    if |cs| > 1 {
      PrintAllIsJoin(cs[1..], fs[1..]);
    }
  }

  lemma PrintAllCons(c: Clause, cs: seq<Clause>)
    requires IsClause(c) && cs != [] && AreClauses(cs)
    ensures AreClauses([c] + cs) && PrintAll([c] + cs) == Print(c) + ("~and" + PrintAll(cs))
  {
    assert ([c] + cs)[1..] == cs;
    Associate(Print(c), "~and", PrintAll(cs));
  }

  lemma Associate(a: string, b: string, c: string)
    ensures a + (b + c) == a + b + c
  {
  }

  lemma PrintAllOne(c: Clause)
    requires IsClause(c)
    ensures PrintAll([c]) == Print(c) == Print(c) + ""
  {
  }

  lemma ParseMoreClauses(c: Clause, cs: seq<Clause>, s: string)
    requires IsClause(c) && ParseList(s) == Some(cs)
    ensures ParseList(Print(c) + ("~and" + s)) == Some([c] + cs)
  {
    ParseClausePrint(c, "~and" + s);
    assert ("~and" + s)[4..] == s;
  }

  lemma {:induction false} ParseListPrint(cs: seq<Clause>)
    requires cs != [] && AreClauses(cs)
    ensures ParseList(PrintAll(cs)) == Some(cs)
  {
    var c, rest := cs[0], cs[1..];
    assert cs == [c] + rest;
    if rest == [] {
      assert cs == [c];
      ParseClausePrint(c, "");
      PrintAllOne(c);
    } else {
      PrintAllCons(c, rest);
      ParseListPrint(rest);
      ParseMoreClauses(c, rest, PrintAll(rest));
    }
  }

  /** Every list of clauses is recovered from its printed form, clause by clause. */
  lemma PrintThenParse(cs: seq<Clause>)
    requires AreClauses(cs)
    ensures ParseWhere(PrintAll(cs)) == Some(cs)
  {
    if cs != [] {
      ParseListPrint(cs);
    }
  }

  lemma {:induction false} ParseListSound(s: string)
    ensures var r := ParseList(s); r.Some? ==> r.value != [] && AreClauses(r.value) && PrintAll(r.value) == s
    decreases |s|
  {
    if ParseList(s).Some? {
      ParseClauseSound(s);
      var (c, rest) := ParseClause(s).value;
      if rest == "" {
        PrintAllOne(c);
      } else {
        ParseListSound(rest[4..]);
        PrintAllCons(c, ParseList(rest[4..]).value);
        assert rest == "~and" + rest[4..];
      }
    }
  }

  /** Every expression the parser accepts is the printed form of what it returns. */
  lemma ParseThenPrint(s: string)
    ensures var r := ParseWhere(s); r.Some? ==> AreClauses(r.value) && PrintAll(r.value) == s
  {
    ParseListSound(s);
  }

  function TokenOfLiteral(s: string): (t: Token)
    requires IsLiteral(s)
    ensures IsToken(t) && PrintToken(t) == s
  {
    if IsNumber(s) then Numeric(s) else Quoted(s[1..|s| - 1])
  }

  lemma {:induction false} TokensOfLiterals(literals: seq<string>) returns (ts: seq<Token>)
    requires literals != [] && forall i :: 0 <= i < |literals| ==> IsLiteral(literals[i])
    ensures ts != [] && (forall i :: 0 <= i < |ts| ==> IsToken(ts[i])) && PrintTokens(ts) == Commas(literals)
  {
    var t := TokenOfLiteral(literals[0]);
    if |literals| == 1 {
      ts := [t];
    } else {
      var rest := TokensOfLiterals(literals[1..]);
      PrintTokensCons(t, rest);
      ts := [t] + rest;
    }
  }

  lemma {:induction false} LiteralsOfTokens(ts: seq<Token>) returns (literals: seq<string>)
    requires ts != [] && forall i :: 0 <= i < |ts| ==> IsToken(ts[i])
    ensures literals != [] && (forall i :: 0 <= i < |literals| ==> IsLiteral(literals[i]))
    ensures PrintTokens(ts) == Commas(literals)
  {
    var s := PrintToken(ts[0]);
    assert ts[0].Quoted? ==> s[1..|s| - 1] == ts[0].text;
    assert IsLiteral(s);
    if |ts| == 1 {
      literals := [s];
    } else {
      var rest := LiteralsOfTokens(ts[1..]);
      literals := [s] + rest;
      assert literals[1..] == rest;
    }
  }

  /** A string matches the pattern exactly when it is a printed clause. */
  lemma PatternIsPrinted(s: string)
    ensures MatchesPattern(s) <==> exists c :: IsClause(c) && Print(c) == s
  {
    if MatchesPattern(s) {
      var field, body :| IsFramed(s, field, body) && MatchesBody(body);
      var c;
      if body == "checked" {
        c := Checked(field);
      } else if body == "notchecked" {
        c := NotChecked(field);
      } else {
        var op, literals :| IsComparison(body, op, literals);
        var ts := TokensOfLiterals(literals);
        c := Compare(field, op, ts);
      }
      assert IsClause(c) && PrintBody(c) == body;
    }
    if c :| IsClause(c) && Print(c) == s {
      assert IsFramed(s, c.field, PrintBody(c));
      if c.Compare? {
        var literals := LiteralsOfTokens(c.values);
        assert IsComparison(PrintBody(c), c.op, literals);
      }
      assert MatchesBody(PrintBody(c));
    }
  }

  /** The scanner decides exactly the pattern. */
  lemma ExpressionIsPattern(s: string)
    ensures IsExpression(s) <==> MatchesPattern(s)
  {
    PatternIsPrinted(s);
    if IsExpression(s) {
      ParseClauseSound(s);
      var c := ParseClause(s).value.0;
      assert Print(c) + "" == Print(c);
      assert IsClause(c) && Print(c) == s;
    }
    if c :| IsClause(c) && Print(c) == s {
      ParseClausePrint(c, "");
      assert Print(c) + "" == s;
    }
  }

  /** The clause behind an accepted expression. */
  function ClauseOf(s: string): (c: Clause)
    requires IsExpression(s)
    ensures IsClause(c) && Print(c) == s
  {
    ParseClauseSound(s);
    var c := ParseClause(s).value.0;
    assert Print(c) + "" == Print(c);
    c
  }

  /**
   `andFilters` accepts a list exactly when every element is one whole clause;
   the joined text then parses to exactly one clause per element, in order.
   */
  lemma AndFiltersParses(filters: seq<string>)
    ensures AndFilters(filters).Ok? <==> forall i :: 0 <= i < |filters| ==> MatchesPattern(filters[i])
    ensures AndFilters(filters).Ok? ==>
              var r := ParseWhere(AndFilters(filters).value);
              r.Some? && |r.value| == |filters|
              && forall i :: 0 <= i < |filters| ==> IsClause(r.value[i]) && Print(r.value[i]) == filters[i]
  {
    forall i | 0 <= i < |filters| {
      ExpressionIsPattern(filters[i]);
    }
    if AndFilters(filters).Ok? {
      var cs := seq(|filters|, i requires 0 <= i < |filters| => ClauseOf(filters[i]));
      PrintAllIsJoin(cs, filters);
      PrintThenParse(cs);
    }
  }

  // ── The builders ──────────────────────────────────────────────────────────

  datatype Call =
    | CallEq(field: string, value: FilterValue)
    | CallIn(inField: string, values: seq<FilterValue>)
    | CallChecked(checkedField: string)
    | CallNotChecked(notCheckedField: string)

  function Build(call: Call): Result<string> {
    match call
    case CallEq(field, value) => FilterEq(field, value)
    case CallIn(field, values) => FilterIn(field, values)
    case CallChecked(field) => FilterChecked(field)
    case CallNotChecked(field) => FilterNotChecked(field)
  }

  /** A literal stands for a value: the text without outer white space, or the same number. */
  predicate Denotes(t: Token, v: FilterValue) {
    match v
    case Text(text) => t == Quoted(Trim(text))
    case Number(n) => t.Numeric? && DecimalValue(t.literal) == Some(n)
    case NotFinite => false
    case Flag(_) => false
  }

  function FieldTitle(field: string): string {
    if field == "id" then "Id" else field
  }

  /** A clause says what the call asked for. */
  predicate Means(c: Clause, call: Call) {
    match call
    case CallEq(field, Flag(b)) => c == (if b then Checked(FieldTitle(field)) else NotChecked(FieldTitle(field)))
    case CallEq(field, value) =>
      c.Compare? && c.field == FieldTitle(field) && c.op == Eq && |c.values| == 1 && Denotes(c.values[0], value)
    case CallIn(field, values) =>
      c.Compare? && c.field == FieldTitle(field) && c.op == In && |c.values| == |values|
      && forall i :: 0 <= i < |values| ==> Denotes(c.values[i], values[i])
    case CallChecked(field) => c == Checked(FieldTitle(field))
    case CallNotChecked(field) => c == NotChecked(FieldTitle(field))
  }

  lemma FormatDenotes(v: FilterValue)
    ensures FormatValue(v).Ok? ==> Denotes(FormatValue(v).value, v)
  {
    if v.Number? {
      DecimalRoundTrip(v.n);
    }
  }

  lemma {:induction false} FormatsDenote(vs: seq<FilterValue>)
    ensures var r := FormatValues(vs);
            r.Ok? ==> |r.value| == |vs| && forall i :: 0 <= i < |vs| ==> Denotes(r.value[i], vs[i])
  {
    if vs != [] {
      FormatDenotes(vs[0]);
      FormatsDenote(vs[1..]);
    }
  }

  lemma PrintedMeans(c: Clause, call: Call)
    requires IsClause(c) && Means(c, call)
    ensures IsExpression(Print(c)) && Means(ClauseOf(Print(c)), call)
  {
    ParseClausePrint(c, "");
    assert Print(c) + "" == Print(c);
  }

  /** A successful builder call prints one clause that says what the call asked for. */
  lemma BuildMeans(call: Call)
    ensures Build(call).Ok? ==>
              IsExpression(Build(call).value) && Means(ClauseOf(Build(call).value), call)
  {
    if Build(call).Ok? {
      match call
      case CallEq(field, value) =>
        BuildersAreClauses(field, value, []);
        FormatDenotes(value);
        PrintedMeans(EqClause(field, value).value, call);
      case CallIn(field, values) =>
        BuildersAreClauses(field, NotFinite, values);
        FormatsDenote(values);
        PrintedMeans(InClause(field, values).value, call);
      case CallChecked(f) => PrintedMeans(CheckedClause(f, true).value, call);
      case CallNotChecked(f) => PrintedMeans(CheckedClause(f, false).value, call);
    }
  }

  /**
   Any list of successful builder calls is accepted by `andFilters` and comes
   back from the parser as one clause per call with the meaning of that call,
   whatever characters the values hold.
   */
  lemma BuiltFiltersRoundTrip(calls: seq<Call>, filters: seq<string>)
    requires |filters| == |calls|
    requires forall i :: 0 <= i < |calls| ==> Build(calls[i]) == Ok(filters[i])
    ensures AndFilters(filters).Ok?
    ensures var r := ParseWhere(AndFilters(filters).value);
            r.Some? && |r.value| == |calls| && forall i :: 0 <= i < |calls| ==> Means(r.value[i], calls[i])
  {
    forall i | 0 <= i < |calls| ensures IsExpression(filters[i]) {
      BuildMeans(calls[i]);
    }
    AndFiltersParses(filters);
    var cs := ParseWhere(AndFilters(filters).value).value;
    forall i | 0 <= i < |calls| ensures Means(cs[i], calls[i]) {
      BuildMeans(calls[i]);
      ParseClausePrint(cs[i], "");
      assert Print(cs[i]) + "" == filters[i];
    }
  }

  /** Different clause lists never print to the same expression. */
  lemma PrintInjective(cs: seq<Clause>, ds: seq<Clause>)
    requires AreClauses(cs) && AreClauses(ds) && PrintAll(cs) == PrintAll(ds)
    ensures cs == ds
  {
    PrintThenParse(cs);
    PrintThenParse(ds);
  }

  // ── Meaning of an expression on a record ──────────────────────────────────

  datatype Cell = TextCell(text: string) | NumberCell(n: int) | FlagCell(b: bool) | EmptyCell

  type Record = map<string, Cell>

  function CellOf(row: Record, field: string): Cell {
    if field in row then row[field] else EmptyCell
  }

  predicate Matches(t: Token, cell: Cell) {
    match t
    case Quoted(text) => cell == TextCell(text)
    case Numeric(literal) => cell.NumberCell? && DecimalValue(literal) == Some(cell.n)
  }

  predicate Holds(c: Clause, row: Record) {
    match c
    case Compare(field, _, values) => exists i :: 0 <= i < |values| && Matches(values[i], CellOf(row, field))
    case Checked(field) => CellOf(row, field) == FlagCell(true)
    case NotChecked(field) => CellOf(row, field) != FlagCell(true)
  }

  /** Whether a record is selected by an expression. */
  predicate Selects(where: string, row: Record) {
    match ParseWhere(where)
    case None => false
    case Some(cs) => forall i :: 0 <= i < |cs| ==> Holds(cs[i], row)
  }

  lemma SelectsClause(c: Clause, row: Record)
    requires IsClause(c)
    ensures ParseWhere(Print(c)) == Some([c])
    ensures Selects(Print(c), row) <==> Holds(c, row)
  {
    ParseClausePrint(c, "");
    assert Print(c) + "" == Print(c);
    assert ParseList(Print(c)) == Some([c]);
    assert [c][0] == c;
  }

  /** A joined expression selects the records that all its parts select. */
  lemma AndIsConjunction(filters: seq<string>, row: Record)
    requires AndFilters(filters).Ok?
    ensures Selects(AndFilters(filters).value, row) <==> forall i :: 0 <= i < |filters| ==> Selects(filters[i], row)
  {
    AndFiltersParses(filters);
    var cs := ParseWhere(AndFilters(filters).value).value;
    forall i | 0 <= i < |filters| ensures Selects(filters[i], row) <==> Holds(cs[i], row) {
      SelectsClause(cs[i], row);
    }
  }

  /** What one built `eq` filter selects. */
  lemma EqSelects(field: string, value: FilterValue, row: Record)
    requires FilterEq(field, value).Ok? && !value.Flag?
    ensures var cell := CellOf(row, FieldTitle(field));
            Selects(FilterEq(field, value).value, row) <==>
            match value
            case Text(text) => cell == TextCell(Trim(text))
            case Number(n) => cell == NumberCell(n)
            case NotFinite => false
            case Flag(_) => false
  {
    BuildMeans(CallEq(field, value));
    var c := ClauseOf(FilterEq(field, value).value);
    SelectsClause(c, row);
    HoldsSingle(c, row);
  }

  lemma HoldsSingle(c: Clause, row: Record)
    requires c.Compare? && |c.values| == 1
    ensures Holds(c, row) <==> Matches(c.values[0], CellOf(row, c.field))
  {
  }

  function Numbers(ids: seq<int>): (vs: seq<FilterValue>)
    ensures |vs| == |ids| && forall i :: 0 <= i < |ids| ==> vs[i] == Number(ids[i])
  {
    seq(|ids|, i requires 0 <= i < |ids| => Number(ids[i]))
  }

  /** What a built `in` filter over numbers selects: the records whose cell is one of them. */
  lemma InSelects(field: string, ids: seq<int>, row: Record)
    requires ids != [] && IsField(field)
    ensures FilterIn(field, Numbers(ids)).Ok?
    ensures Selects(FilterIn(field, Numbers(ids)).value, row) <==>
            exists i :: 0 <= i < |ids| && CellOf(row, FieldTitle(field)) == NumberCell(ids[i])
  {
    NumbersFormat(Numbers(ids));
    BuildMeans(CallIn(field, Numbers(ids)));
    var c := ClauseOf(FilterIn(field, Numbers(ids)).value);
    SelectsClause(c, row);
    MatchesOneOf(c, ids, CellOf(row, c.field));
    assert Holds(c, row) <==> exists i :: 0 <= i < |c.values| && Matches(c.values[i], CellOf(row, c.field));
  }

  lemma MatchesOneOf(c: Clause, ids: seq<int>, cell: Cell)
    requires c.Compare? && |c.values| == |ids|
    requires forall i :: 0 <= i < |ids| ==> Denotes(c.values[i], Number(ids[i]))
    ensures (exists i :: 0 <= i < |ids| && Matches(c.values[i], cell)) <==>
            exists i :: 0 <= i < |ids| && cell == NumberCell(ids[i])
  {
    forall i | 0 <= i < |ids| ensures Matches(c.values[i], cell) <==> cell == NumberCell(ids[i]) {
      assert Denotes(c.values[i], Number(ids[i]));
    }
    if i :| 0 <= i < |ids| && cell == NumberCell(ids[i]) {
      assert Matches(c.values[i], cell);
    }
  }

  lemma {:induction false} NumbersFormat(vs: seq<FilterValue>)
    requires forall i :: 0 <= i < |vs| ==> vs[i].Number?
    ensures FormatValues(vs).Ok?
  {
    if vs != [] {
      NumbersFormat(vs[1..]);
    }
  }

  // ── Names that must be safe inside a quoted value ─────────────────────────

  /** A class of letters and digits that holds no white space, quote or control character. */
  ghost predicate IsAlphabet(alnum: char -> bool) {
    forall c :: alnum(c) ==> !IsSpace(c) && !IsControl(c) && c != '"'
  }

  /** The rule for logical table names, for any class of letters and digits. */
  predicate IsValidTableName(name: string, alnum: char -> bool) {
    var outer := (c: char) => alnum(c) || c == '_' || c == '-';
    && 1 <= |name| <= 255
    && outer(name[0]) && outer(name[|name| - 1])
    && forall i :: 0 <= i < |name| ==> outer(name[i]) || name[i] == ' '
  }

  /** `^[a-zA-Z0-9_-]+(?: [a-zA-Z0-9_-]+)*$` */
  predicate IsRoleName(name: string) {
    var k := Span(name, IsFieldChar);
    k > 0 && (k == |name| || (name[k] == ' ' && IsRoleName(name[k + 1..])))
  }

  lemma SafeNameIsQuoted(field: string, name: string)
    requires IsField(field) && name != "" && Trimmed(name)
    requires forall c :: c in name ==> c != '"' && !IsControl(c)
    ensures NormalizeText(name) == Ok(name)
    ensures EqClause(field, Text(name)) == Ok(Compare(FieldTitle(field), Eq, [Quoted(name)]))
  {
    TrimIsTrimmed(name);
  }

  /** Every valid table name is accepted by `filterEq` and selects exactly the rows that hold it. */
  lemma TableNamesAreSafe(field: string, name: string, alnum: char -> bool, row: Record)
    requires IsField(field) && IsAlphabet(alnum) && IsValidTableName(name, alnum)
    ensures FilterEq(field, Text(name)).Ok?
    ensures ParseWhere(FilterEq(field, Text(name)).value) == Some([Compare(FieldTitle(field), Eq, [Quoted(name)])])
    ensures Selects(FilterEq(field, Text(name)).value, row) <==> CellOf(row, FieldTitle(field)) == TextCell(name)
  {
    SafeNameIsQuoted(field, name);
    EqParses(field, name);
    TrimIsTrimmed(name);
    EqSelects(field, Text(name), row);
  }

  lemma EqParses(field: string, name: string)
    requires EqClause(field, Text(name)) == Ok(Compare(FieldTitle(field), Eq, [Quoted(name)]))
    ensures FilterEq(field, Text(name)).Ok?
    ensures ParseWhere(FilterEq(field, Text(name)).value) == Some([Compare(FieldTitle(field), Eq, [Quoted(name)])])
  {
    var c := EqClause(field, Text(name)).value;
    BuildersAreClauses(field, Text(name), []);
    ParseClausePrint(c, "");
    assert Print(c) + "" == FilterEq(field, Text(name)).value;
  }

  lemma {:induction false} RoleNameChars(name: string)
    requires IsRoleName(name)
    ensures IsFieldChar(name[0]) && IsFieldChar(name[|name| - 1])
    ensures forall i :: 0 <= i < |name| ==> IsFieldChar(name[i]) || name[i] == ' '
  {
    var k := Span(name, IsFieldChar);
    assert forall i :: 0 <= i < k ==> name[i] == name[..k][i];
    if k < |name| {
      RoleNameChars(name[k + 1..]);
      assert forall i :: k < i < |name| ==> name[i] == name[k + 1..][i - k - 1];
    }
  }

  lemma FieldCharIsSafe(c: char)
    ensures IsFieldChar(c) ==> !IsSpace(c)
    ensures IsFieldChar(c) || c == ' ' ==> c != '"' && !IsControl(c)
  {
  }

  /** Every role name the service accepts is looked up unchanged. */
  lemma RoleNamesAreSafe(name: string)
    requires IsRoleName(name)
    ensures NormalizeText(name) == Ok(name)
    ensures FilterEq("role_name", Text(name)).Ok?
    ensures ParseWhere(FilterEq("role_name", Text(name)).value) == Some([Compare("role_name", Eq, [Quoted(name)])])
  {
    RoleNameChars(name);
    FieldCharIsSafe(name[0]);
    FieldCharIsSafe(name[|name| - 1]);
    forall c | c in name ensures c != '"' && !IsControl(c) {
      var i :| 0 <= i < |name| && name[i] == c;
      FieldCharIsSafe(c);
    }
    assert All("role_name", IsFieldChar);
    SafeNameIsQuoted("role_name", name);
    EqParses("role_name", name);
  }
}
