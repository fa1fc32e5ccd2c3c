/**
 The character classes and names of the filters, written out as the patterns of
 the source read, and what the builders accept and refuse.
 */
module Lexicon {
  import opened Wrappers
  import opened Text
  import opened Filter
  import opened FilterLaws

  // ── White space ───────────────────────────────────────────────────────────

  /** The code points of white space and line terminators. */
  predicate IsSpaceCode(n: int) {
    n in {9, 10, 11, 12, 13, 32, 0xA0, 0x1680, 0x2028, 0x2029, 0x202F, 0x205F, 0x3000, 0xFEFF}
        || 0x2000 <= n <= 0x200A
  }

  lemma SpaceCodes(c: char)
    ensures IsSpace(c) <==> IsSpaceCode(c as int)
  {
  }

  predicate AreSpaces(s: string) {
    forall i :: 0 <= i < |s| ==> IsSpaceCode(s[i] as int)
  }

  lemma SpacesAre(s: string)
    requires forall i :: 0 <= i < |s| ==> IsSpace(s[i])
    ensures AreSpaces(s)
  {
    forall i | 0 <= i < |s| ensures IsSpaceCode(s[i] as int) {
      SpaceCodes(s[i]);
    }
  }

  lemma EndsAreNoSpaces(s: string)
    requires Trimmed(s) && s != ""
    ensures !IsSpaceCode(s[0] as int) && !IsSpaceCode(s[|s| - 1] as int)
  {
    SpaceCodes(s[0]);
    SpaceCodes(s[|s| - 1]);
  }

  lemma TrimStartDrops(s: string) returns (before: string)
    ensures s == before + TrimStart(s) && AreSpaces(before)
  {
    var k := TrimStartShape(s);
    before := s[..k];
    SpacesAre(before);
  }

  lemma TrimEndDrops(s: string) returns (after: string)
    ensures s == TrimEnd(s) + after && AreSpaces(after)
  {
    var k := TrimEndShape(s);
    after := s[k..];
    SpacesAre(after);
  }

  /** Trimming drops white space at both ends, as much as there is, and nothing else. */
  lemma TrimDrops(s: string) returns (before: string, after: string)
    ensures s == before + (Trim(s) + after) && AreSpaces(before) && AreSpaces(after)
    ensures Trim(s) != "" ==> !IsSpaceCode(Trim(s)[0] as int) && !IsSpaceCode(Trim(s)[|Trim(s)| - 1] as int)
  {
    before := TrimStartDrops(s);
    after := TrimEndDrops(TrimStart(s));
    TrimIsTrimmed(s);
    if Trim(s) != "" {
      EndsAreNoSpaces(Trim(s));
    }
  }

  // ── Values and fields ─────────────────────────────────────────────────────

  /** A text is quoted trimmed, and refused exactly if that is empty, or holds a quote or a control character. */
  lemma TextIsRefusedIff(value: string)
    ensures NormalizeText(value)
            == if Trim(value) != "" && forall c :: c in Trim(value) ==> c != '"' && c as int >= 32 && c as int != 127
               then Ok(Trim(value)) else Err(BadRequest)
  {
    if c :| c in Trim(value) && IsControl(c) {
      assert c as int < 32 || c as int == 127;
    }
    if c :| c in Trim(value) && (c as int < 32 || c as int == 127) {
      assert IsControl(c);
    }
  }

  predicate IsFieldCode(n: int) {
    65 <= n <= 90 || 97 <= n <= 122 || 48 <= n <= 57 || n == 95 || n == 45
  }

  /** A field is taken exactly if it is not empty and holds letters, digits, `_` and `-` only; `id` becomes `Id`. */
  lemma FieldIsRefusedIff(field: string)
    ensures SanitizeField(field)
            == if field != "" && forall i :: 0 <= i < |field| ==> IsFieldCode(field[i] as int)
               then Ok(if field == "id" then "Id" else field) else Err(BadRequest)
  {
    forall i | 0 <= i < |field| ensures IsFieldChar(field[i]) <==> IsFieldCode(field[i] as int) {
    }
  }

  predicate AreDigits(s: string) {
    s != "" && forall i :: 0 <= i < |s| ==> 48 <= s[i] as int <= 57
  }

  /** Digits, and a point with more digits if there is a fraction. */
  predicate IsSplit(u: string, whole: string, fraction: Option<string>) {
    && u == whole + (if fraction.Some? then "." + fraction.value else "")
    && AreDigits(whole) && (fraction.Some? ==> AreDigits(fraction.value))
  }

  lemma DigitsAre(s: string)
    ensures AreDigits(s) <==> s != "" && All(s, IsDigit)
  {
  }

  lemma SplitIsUnsigned(u: string, whole: string, fraction: Option<string>)
    requires IsSplit(u, whole, fraction)
    ensures IsUnsigned(u)
  {
    var rest := if fraction.Some? then "." + fraction.value else "";
    DigitsAre(whole);
    SpanAll(whole, rest, IsDigit);
    assert u[|whole|..] == rest;
    if fraction.Some? {
      DigitsAre(fraction.value);
      assert rest[1..] == fraction.value && u[|whole| + 1..] == fraction.value;
    }
  }

  lemma UnsignedIsSplit(u: string) returns (whole: string, fraction: Option<string>)
    requires IsUnsigned(u)
    ensures IsSplit(u, whole, fraction)
  {
    var k := Span(u, IsDigit);
    whole := u[..k];
    DigitsAre(whole);
    if u[k..] == "" {
      fraction := None;
      assert u == whole + "";
    } else {
      fraction := Some(u[k + 1..]);
      DigitsAre(u[k + 1..]);
      assert u == whole + ("." + u[k + 1..]);
    }
  }

  /** `-?\d+(?:\.\d+)?` */
  predicate IsSignedSplit(s: string, u: string, whole: string, fraction: Option<string>) {
    (s == u || s == "-" + u) && IsSplit(u, whole, fraction)
  }

  lemma NumberIsPattern(s: string)
    ensures IsNumber(s) <==> exists u, whole, fraction :: IsSignedSplit(s, u, whole, fraction)
  {
    if IsNumber(s) {
      var u := if s != "" && s[0] == '-' then s[1..] else s;
      var whole, fraction := UnsignedIsSplit(u);
      assert s == u || s == "-" + u;
      assert IsSignedSplit(s, u, whole, fraction);
    }
    if u, whole, fraction :| IsSignedSplit(s, u, whole, fraction) {
      SplitIsUnsigned(u, whole, fraction);
      assert u[0] == whole[0] && u[0] != '-';
      if s == "-" + u { assert s[1..] == u; }
    }
  }

  // ── Names ─────────────────────────────────────────────────────────────────

  /** Words of letters, digits, `_` and `-`, one space between each two. */
  predicate IsSpacedName(name: string) {
    && name != "" && name[0] != ' ' && name[|name| - 1] != ' '
    && (forall i :: 0 <= i < |name| ==> IsFieldCode(name[i] as int) || name[i] == ' ')
    && (forall i :: 0 <= i < |name| - 1 ==> name[i] != ' ' || name[i + 1] != ' ')
  }

  lemma {:induction false} RoleNameIs(name: string)
    ensures IsRoleName(name) <==> IsSpacedName(name)
  {
    var k := Span(name, IsFieldChar);
    assert forall i :: 0 <= i < k ==> name[i] == name[..k][i] && IsFieldChar(name[i]);
    if 0 < k < |name| {
      var rest := name[k + 1..];
      RoleNameIs(rest);
      assert forall i :: k < i < |name| ==> name[i] == rest[i - k - 1];
      if IsSpacedName(name) {
        assert name[k] == ' ' && rest != "";
        forall i | 0 <= i < |rest| - 1 ensures rest[i] != ' ' || rest[i + 1] != ' ' {
          assert name[k + 1 + i] == rest[i] && name[k + 1 + i + 1] == rest[i + 1];
        }
      }
      if name[k] == ' ' && IsSpacedName(rest) {
        forall i | 0 <= i < |name| - 1 ensures name[i] != ' ' || name[i + 1] != ' ' {
          if i > k { assert rest[i - k - 1] != ' ' || rest[i - k] != ' '; }
        }
      }
    }
  }

  /** A letter, digit, `_` or `-`; or two of them and up to 253 characters between, which may also be spaces. */
  predicate IsTablePattern(name: string, alnum: char -> bool) {
    var outer := (c: char) => alnum(c) || c == '_' || c == '-';
    if |name| < 2 then |name| == 1 && outer(name[0])
    else
      var middle := name[1..|name| - 1];
      && outer(name[0]) && outer(name[|name| - 1]) && |middle| <= 253
      && forall i :: 0 <= i < |middle| ==> outer(middle[i]) || middle[i] == ' '
  }

  lemma TableNameIs(name: string, alnum: char -> bool)
    ensures IsValidTableName(name, alnum) <==> IsTablePattern(name, alnum)
  {
    if IsTablePattern(name, alnum) && |name| >= 2 {
      forall i | 0 < i < |name| - 1 ensures alnum(name[i]) || name[i] == '_' || name[i] == '-' || name[i] == ' ' {
        assert name[i] == name[1..|name| - 1][i - 1];
      }
    }
  }

  // ── The builders ──────────────────────────────────────────────────────────

  predicate IsFormattable(v: FilterValue) {
    match v
    case Text(text) => NormalizeText(text).Ok?
    case Number(_) => true
    case NotFinite => false
    case Flag(_) => false
  }

  lemma {:induction false} FormatsIff(vs: seq<FilterValue>)
    ensures FormatValues(vs).Ok? <==> forall i :: 0 <= i < |vs| ==> IsFormattable(vs[i])
    ensures FormatValues(vs).Err? ==> FormatValues(vs) == Err(BadRequest)
  {
    if vs != [] {
      FormatsIff(vs[1..]);
      assert forall i :: 1 <= i < |vs| ==> vs[i] == vs[1..][i - 1];
    }
  }

  /** A builder refuses exactly a field or a value that cannot be written, a flag in a list, and an empty list. */
  lemma BuildSucceedsIff(call: Call)
    ensures Build(call).Ok? <==>
              match call
              case CallEq(field, value) => SanitizeField(field).Ok? && (value.Flag? || IsFormattable(value))
              case CallIn(field, values) =>
                SanitizeField(field).Ok? && values != [] && forall i :: 0 <= i < |values| ==> IsFormattable(values[i])
              case CallChecked(field) => SanitizeField(field).Ok?
              case CallNotChecked(field) => SanitizeField(field).Ok?
    ensures Build(call).Err? ==> Build(call) == Err(BadRequest)
  {
    if call.CallIn? {
      FormatsIff(call.values);
    }
  }

  /** The check box filters select the ticked records, and all others. */
  lemma CheckedSelects(field: string, row: Record)
    requires FilterChecked(field).Ok? && FilterNotChecked(field).Ok?
    ensures Selects(FilterChecked(field).value, row) <==> CellOf(row, FieldTitle(field)) == FlagCell(true)
    ensures Selects(FilterNotChecked(field).value, row) <==> CellOf(row, FieldTitle(field)) != FlagCell(true)
    ensures forall b :: FilterEq(field, Flag(b)) == if b then FilterChecked(field) else FilterNotChecked(field)
  {
    BuildMeans(CallChecked(field));
    BuildMeans(CallNotChecked(field));
    var yes, no := ClauseOf(FilterChecked(field).value), ClauseOf(FilterNotChecked(field).value);
    SelectsClause(yes, row);
    SelectsClause(no, row);
  }

  /** A conjunction is refused as a bad request. */
  lemma AndIsRefused(filters: seq<string>)
    ensures AndFilters(filters).Err? ==> AndFilters(filters) == Err(BadRequest)
    ensures AndFilters([]) == Ok("")
  {
  }
}
