/**
 * The three absence types (1 tardiness, 2 justified absence, 3 unjustified absence), their
 * display labels, and the number/string comparisons the views make against a `<select>` value.
 */
module AbsenceTypes {
  import opened Wrappers
  import opened Strings

  const Tardiness := 1
  const Justified := 2
  const Unjustified := 3

  predicate IsKnownType(kind: int)
  {
    kind == Tardiness || kind == Justified || kind == Unjustified
  }

  /** `getAbsenceTypeLabel`: a `switch` with strict matching on 1, 2, 3. */
  function TypeLabel(kind: int): (text: string)
    ensures text == "Desconocido" <==> !IsKnownType(kind)
  {
    if kind == Tardiness then "Tardanza"
    else if kind == Justified then "Ausencia justificada"
    else if kind == Unjustified then "Ausencia injustificada"
    else "Desconocido"
  }

  /** The type a label names; the inverse of `TypeLabel` on the known types. */
  function TypeOfLabel(text: string): (kind: Option<int>)
    ensures kind.Some? ==> IsKnownType(kind.value)
  {
    if text == "Tardanza" then Some(Tardiness)
    else if text == "Ausencia justificada" then Some(Justified)
    else if text == "Ausencia injustificada" then Some(Unjustified)
    else None
  }

  lemma LabelRoundTrip(kind: int)
    ensures IsKnownType(kind) <==> TypeOfLabel(TypeLabel(kind)) == Some(kind)
  {
  }

  lemma LabelOfLabelled(text: string)
    ensures TypeOfLabel(text).Some? ==> TypeLabel(TypeOfLabel(text).value) == text
  {
  }

  /** Distinct known types have distinct labels. */
  lemma LabelsDistinct(a: int, b: int)
    requires IsKnownType(a) && IsKnownType(b) && a != b
    ensures TypeLabel(a) != TypeLabel(b)
  {
    LabelRoundTrip(a);
    LabelRoundTrip(b);
  }

  predicate IsDigit(c: char)
  {
    '0' <= c <= '9'
  }

  predicate AllDigits(s: string)
  {
    forall k :: 0 <= k < |s| ==> IsDigit(s[k])
  }

  /** The value of a run of decimal digits, read left to right. */
  function DecimalValue(s: string): nat
    requires AllDigits(s)
    decreases |s|
  {
    if s == [] then 0 else DecimalValue(s[..|s| - 1]) * 10 + (s[|s| - 1] as int - '0' as int)
  }

  /** The length of the run of digits `s` starts with. */
  function LeadingDigits(s: string): (n: nat)
    ensures n <= |s| && AllDigits(s[..n])
    ensures n < |s| ==> !IsDigit(s[n])
  {
    if s == [] || !IsDigit(s[0]) then 0
    else
      var k := LeadingDigits(s[1..]);
      assert s[..k + 1] == [s[0]] + s[1..][..k];
      k + 1
  }

  /**
   * `parseInt(s)` for unsigned decimal text: the value of the leading run of digits, `None`
   * standing for `NaN` when there is none.
   */
  function ParseInt(s: string): (r: Option<nat>)
    ensures r.None? <==> (s == [] || !IsDigit(s[0]))
    ensures AllDigits(s) && s != [] ==> r == Some(DecimalValue(s))
  {
    var n := LeadingDigits(s);
    assert s[..|s|] == s;
    if n == 0 then None else Some(DecimalValue(s[..n]))
  }

  /**
   * `Number(s)` for unsigned decimal text: blanks around the digits are ignored, blank text is 0,
   * anything else is `NaN` (`None`).
   */
  function ToNumber(s: string): (r: Option<nat>)
    ensures Trim(s) == [] ==> r == Some(0)
    ensures r.Some? && Trim(s) != [] ==> AllDigits(Trim(s))
  {
    var t := Trim(s);
    if t == [] then Some(0)
    else if AllDigits(t) then Some(DecimalValue(t))
    else None
  }

  /** `n == s` for a number `n` and a string `s`: the string is converted to a number; `NaN` equals nothing. */
  predicate LooseEquals(n: int, s: string)
  {
    ToNumber(s) == Some(n)
  }

  /** A one-digit option value, the form the type selects use, equals exactly its own digit. */
  lemma LooseEqualsDigit(n: int, d: char)
    requires IsDigit(d)
    ensures LooseEquals(n, [d]) <==> n == d as int - '0' as int
  {
    assert IsTrimmed([d]);
    TrimTrimmed([d]);
    assert [d][..0] == [];
    assert AllDigits([d]);
    assert DecimalValue([d]) == d as int - '0' as int;
  }

  /** On plain digit text, `parseInt` and `Number` agree, so `parseInt(v) == v` holds for such a value. */
  lemma ParseIntAgreesWithNumber(s: string)
    requires s != [] && AllDigits(s)
    ensures ParseInt(s) == ToNumber(s)
  {
    assert forall k :: 0 <= k < |s| ==> !IsSpace(s[k]);
    assert IsTrimmed(s);
    TrimTrimmed(s);
  }
}
