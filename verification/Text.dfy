/**
 Strings as JavaScript sees them: `trim`, control characters and the plain
 decimal rendering of integers.
 */
module Text {
  import opened Wrappers

  /** White space and line terminators removed by `String.prototype.trim`. */
  predicate IsSpace(c: char) {
    '\t' <= c <= '\r' || c == ' ' || c == '\U{00A0}' || c == '\U{1680}' || '\U{2000}' <= c <= '\U{200A}'
    || c == '\U{2028}' || c == '\U{2029}' || c == '\U{202F}' || c == '\U{205F}' || c == '\U{3000}' || c == '\U{FEFF}'
  }

  /** A character `hasControlCharacter` refuses. */
  predicate IsControl(c: char) {
    c as int < 32 || c as int == 127
  }

  function TrimStart(s: string): string {
    if s != "" && IsSpace(s[0]) then TrimStart(s[1..]) else s
  }

  function TrimEnd(s: string): string {
    if s != "" && IsSpace(s[|s| - 1]) then TrimEnd(s[..|s| - 1]) else s
  }

  function Trim(s: string): string {
    TrimEnd(TrimStart(s))
  }

  predicate Trimmed(s: string) {
    s == "" || (!IsSpace(s[0]) && !IsSpace(s[|s| - 1]))
  }

  /** Trimming the start drops exactly a blank prefix of k characters. */
  lemma {:induction false} TrimStartShape(s: string) returns (k: nat)
    ensures k <= |s| && TrimStart(s) == s[k..]
    ensures forall i :: 0 <= i < k ==> IsSpace(s[i])
    ensures TrimStart(s) == "" || !IsSpace(TrimStart(s)[0])
  {
    if s != "" && IsSpace(s[0]) {
      var j := TrimStartShape(s[1..]);
      k := j + 1;
      assert forall i :: 0 < i < k ==> s[i] == s[1..][i - 1];
    } else {
      k := 0;
    }
  }

  /** Trimming the end drops exactly the blank suffix behind the first k characters. */
  lemma {:induction false} TrimEndShape(s: string) returns (k: nat)
    ensures k <= |s| && TrimEnd(s) == s[..k]
    ensures forall i :: k <= i < |s| ==> IsSpace(s[i])
    ensures TrimEnd(s) == "" || !IsSpace(TrimEnd(s)[|TrimEnd(s)| - 1])
  {
    if s != "" && IsSpace(s[|s| - 1]) {
      var t := s[..|s| - 1];
      k := TrimEndShape(t);
      assert t[..k] == s[..k];
    } else {
      k := |s|;
    }
  }

  lemma TrimIsTrimmed(s: string)
    ensures Trimmed(Trim(s))
    ensures Trimmed(s) ==> Trim(s) == s
    ensures forall c :: c in Trim(s) ==> c in s
  {
    var t := TrimStart(s);
    var j := TrimStartShape(s);
    var k := TrimEndShape(t);
    if Trim(s) != "" {
      assert Trim(s)[0] == t[0];
    }
  }

  /** A name trims to itself exactly when it has no outer white space. */
  lemma TrimIdentity(s: string)
    ensures Trim(s) == s <==> Trimmed(s)
  {
    TrimIsTrimmed(s);
  }

  // ── Integers in plain decimal ─────────────────────────────────────────────

  predicate IsDigit(c: char) {
    '0' <= c <= '9'
  }

  function Digits(n: nat): (s: string)
    ensures s != "" && forall c :: c in s ==> IsDigit(c)
  {
    var last := [('0' as int + n % 10) as char];
    if n < 10 then last else Digits(n / 10) + last
  }

  /** `String(n)` of an integer small enough to be printed without exponent. */
  function Decimal(n: int): string {
    if n < 0 then "-" + Digits(-n) else Digits(n)
  }

  function DigitsValue(s: string): nat
    requires forall c :: c in s ==> IsDigit(c)
  {
    if s == "" then 0
    else
      assert s[|s| - 1] in s && IsDigit(s[|s| - 1]);
      DigitsValue(s[..|s| - 1]) * 10 + (s[|s| - 1] as int - '0' as int)
  }

  /** The integer a plain decimal text denotes. */
  function DecimalValue(s: string): Option<int> {
    if s != "" && s[0] == '-' then
      if s[1..] != "" && (forall c :: c in s[1..] ==> IsDigit(c)) then Some(0 - DigitsValue(s[1..])) else None
    else
      if s != "" && (forall c :: c in s ==> IsDigit(c)) then Some(DigitsValue(s)) else None
  }

  lemma {:induction false} DigitsRoundTrip(n: nat)
    ensures DigitsValue(Digits(n)) == n
  {
    var s := Digits(n);
    if n < 10 {
      assert s[..0] == "";
    } else {
      DigitsRoundTrip(n / 10);
      assert s[..|s| - 1] == Digits(n / 10);
    }
  }

  lemma DecimalRoundTrip(n: int)
    ensures DecimalValue(Decimal(n)) == Some(n)
  {
    if n < 0 {
      DigitsRoundTrip(-n);
      assert Decimal(n)[1..] == Digits(-n);
    } else {
      DigitsRoundTrip(n);
      assert Decimal(n)[0] in Digits(n);
    }
  }
}
