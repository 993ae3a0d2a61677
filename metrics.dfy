/**
 * Counting absences by type and the integer percentages shown next to the counts. Only the
 * types 1, 2 and 3 have a bucket; an absence of any other type is counted by nothing here.
 */
module Metrics {
  import opened Records
  import opened Seqs
  import opened AbsenceTypes

  function HasType(t: int): Absence -> bool
  {
    (a: Absence) => a.kind == t
  }

  function KnownType(): Absence -> bool
  {
    (a: Absence) => IsKnownType(a.kind)
  }

  datatype TypeCounts = TypeCounts(tardiness: nat, justified: nat, unjustified: nat)

  /** The three buckets of a sequence of absences: how many have type 1, 2 and 3. */
  function CountsOf(s: seq<Absence>): TypeCounts
  {
    TypeCounts(Count(s, HasType(Tardiness)), Count(s, HasType(Justified)), Count(s, HasType(Unjustified)))
  }

  /** One step of the `switch (absence.type)` that increments a bucket. */
  function Bump(c: TypeCounts, kind: int): (r: TypeCounts)
    ensures r.tardiness + r.justified + r.unjustified ==
            c.tardiness + c.justified + c.unjustified + (if IsKnownType(kind) then 1 else 0)
  {
    if kind == Tardiness then c.(tardiness := c.tardiness + 1)
    else if kind == Justified then c.(justified := c.justified + 1)
    else if kind == Unjustified then c.(unjustified := c.unjustified + 1)
    else c
  }

  /** Counting one more absence is one more step of the `switch`. */
  lemma CountsOfSnoc(s: seq<Absence>, a: Absence)
    ensures CountsOf(s + [a]) == Bump(CountsOf(s), a.kind)
  {
    CountSnoc(s, a, HasType(Tardiness));
    CountSnoc(s, a, HasType(Justified));
    CountSnoc(s, a, HasType(Unjustified));
  }

  /** An absence of an unknown type leaves every bucket as it was. */
  lemma CountsIgnoreUnknown(s: seq<Absence>, a: Absence)
    requires !IsKnownType(a.kind)
    ensures CountsOf(s + [a]) == CountsOf(s)
  {
    CountsOfSnoc(s, a);
  }

  /** The buckets add up to the number of absences of a known type, so to at most all of them. */
  lemma CountsBound(s: seq<Absence>)
    ensures CountsOf(s).tardiness + CountsOf(s).justified + CountsOf(s).unjustified == Count(s, KnownType())
    ensures Count(s, KnownType()) <= |s|
  {
    CountsSum(s);
  }

  lemma {:induction false} CountsSum(s: seq<Absence>)
    ensures CountsOf(s).tardiness + CountsOf(s).justified + CountsOf(s).unjustified == Count(s, KnownType())
    decreases |s|
  {
    if s != [] {
      CountsSum(s[1..]);
    }
  }

  /**
   * `Math.round(part / total * 100)` with a zero-total guard, in exact arithmetic:
   * the nearest integer to `100 * part / total`, halves rounded up.
   */
  function CalculatePercentage(part: nat, total: nat): (r: nat)
    ensures total == 0 ==> r == 0
    ensures total > 0 ==> 2 * total * r <= 200 * part + total < 2 * total * r + 2 * total
  {
    if total == 0 then 0 else (200 * part + total) / (2 * total)
  }

  /** The rounding bounds pin the result down: no other integer meets them. */
  lemma PercentageUnique(part: nat, total: nat, r: int)
    requires total > 0
    requires 2 * total * r <= 200 * part + total < 2 * total * r + 2 * total
    ensures r == CalculatePercentage(part, total)
  {
    var p := CalculatePercentage(part, total);
    if r < p {
      assert 2 * total * (r + 1) <= 2 * total * p by { MulMono(2 * total, r + 1, p); }
    } else if r > p {
      assert 2 * total * (p + 1) <= 2 * total * r by { MulMono(2 * total, p + 1, r); }
    }
  }

  lemma MulMono(k: nat, a: int, b: int)
    requires a <= b
    ensures k * a <= k * b
  {
  }

  /** A part of the total is between 0 and 100 percent. */
  lemma PercentageRange(part: nat, total: nat)
    requires part <= total
    ensures 0 <= CalculatePercentage(part, total) <= 100
  {
    if total > 0 {
      var r := CalculatePercentage(part, total);
      if r > 100 {
        MulMono(2 * total, 101, r);
        assert false;
      }
    }
  }

  lemma PercentageExamples()
    ensures CalculatePercentage(1, 3) == 33 && CalculatePercentage(2, 3) == 67
    ensures CalculatePercentage(1, 8) == 13 && CalculatePercentage(3, 3) == 100
    ensures CalculatePercentage(5, 0) == 0
  {
  }
}
