/**
 * The JavaScript string operations the source uses: `trim`, `toLowerCase`, `includes`,
 * `replace` with a string pattern, `split` on one character and `join`.
 */
module Strings {
  import opened Wrappers

  /** ECMAScript WhiteSpace and LineTerminator code points: what `trim` strips and `\s` matches. */
  predicate IsSpace(c: char)
  {
    c == '\t' || c == '\n' || c == '\U{B}' || c == '\U{C}' || c == '\r' || c == ' ' ||
    c == '\U{A0}' || c == '\U{1680}' || ('\U{2000}' <= c <= '\U{200A}') ||
    c == '\U{2028}' || c == '\U{2029}' || c == '\U{202F}' || c == '\U{205F}' ||
    c == '\U{3000}' || c == '\U{FEFF}'
  }

  /** `s` is already trimmed: it neither starts nor ends with white space. */
  predicate IsTrimmed(s: string)
  {
    s == [] || (!IsSpace(s[0]) && !IsSpace(s[|s| - 1]))
  }

  function TrimStart(s: string): (r: string)
    ensures |r| <= |s| && r == s[|s| - |r|..]
    ensures forall k :: 0 <= k < |s| - |r| ==> IsSpace(s[k])
    ensures r == [] || !IsSpace(r[0])
  {
    if s != [] && IsSpace(s[0]) then TrimStart(s[1..]) else s
  }

  function TrimEnd(s: string): (r: string)
    ensures |r| <= |s| && r == s[..|r|]
    ensures forall k :: |r| <= k < |s| ==> IsSpace(s[k])
    ensures r == [] || !IsSpace(r[|r| - 1])
  {
    if s != [] && IsSpace(s[|s| - 1]) then TrimEnd(s[..|s| - 1]) else s
  }

  /**
   * `String.prototype.trim`: the infix of `s` that is left once the white space at both
   * ends is removed; it neither starts nor ends with white space.
   */
  function Trim(s: string): (r: string)
    ensures IsTrimmed(r)
    ensures OccursAt(s, r, |s| - |TrimStart(s)|)
    ensures forall k :: 0 <= k < |s| - |TrimStart(s)| ==> IsSpace(s[k])
    ensures forall k :: |s| - |TrimStart(s)| + |r| <= k < |s| ==> IsSpace(s[k])
  {
    var a := TrimStart(s);
    var r := TrimEnd(a);
    TrimParts(s, a, r);
    r
  }

  lemma TrimParts(s: string, a: string, r: string)
    requires a == TrimStart(s) && r == TrimEnd(a)
    ensures IsTrimmed(r)
    ensures OccursAt(s, r, |s| - |a|)
    ensures forall k :: |s| - |a| + |r| <= k < |s| ==> IsSpace(s[k])
  {
    if r != [] {
      assert r[0] == a[0];
    }
    SuffixPrefix(s, a, r);
  }

  /** `r` is a prefix of `a`, itself a suffix of `s`: where `r` sits in `s` and what follows it. */
  lemma SuffixPrefix(s: string, a: string, r: string)
    requires |a| <= |s| && a == s[|s| - |a|..] && |r| <= |a| && r == a[..|r|]
    requires forall k :: |r| <= k < |a| ==> IsSpace(a[k])
    ensures OccursAt(s, r, |s| - |a|)
    ensures forall k :: |s| - |a| + |r| <= k < |s| ==> IsSpace(s[k])
  {
    var i := |s| - |a|;
    forall k | i + |r| <= k < |s| ensures IsSpace(s[k]) {
      assert s[k] == a[k - i];
    }
  }

  /** Trimming what is already trimmed changes nothing. */
  lemma TrimTrimmed(s: string)
    requires IsTrimmed(s)
    ensures Trim(s) == s
  {
  }

  /** Leading white space in front of a trimmed text is removed. */
  lemma {:induction false} TrimLeadingSpace(w: string, t: string)
    requires forall k :: 0 <= k < |w| ==> IsSpace(w[k])
    requires IsTrimmed(t)
    ensures Trim(w + t) == t
    decreases |w|
  {
    if w == [] {
      assert w + t == t;
    } else {
      assert (w + t)[1..] == w[1..] + t;
      TrimLeadingSpace(w[1..], t);
    }
  }

  /** ASCII case mapping of `toLowerCase` (letters outside A-Z are left as they are). */
  function LowerChar(c: char): char
  {
    if 'A' <= c <= 'Z' then (c as int + 32) as char else c
  }

  function ToLower(s: string): (r: string)
    ensures |r| == |s| && forall k :: 0 <= k < |s| ==> r[k] == LowerChar(s[k])
  {
    if s == [] then [] else [LowerChar(s[0])] + ToLower(s[1..])
  }

  /** `pat` occurs in `s` at index `i`. */
  predicate OccursAt(s: string, pat: string, i: int)
  {
    0 <= i && i + |pat| <= |s| && s[i..i + |pat|] == pat
  }

  /** The first index at or after `from` where `pat` occurs. */
  function IndexOfFrom(s: string, pat: string, from: nat): (r: Option<nat>)
    ensures r.Some? ==> from <= r.value && OccursAt(s, pat, r.value)
    ensures r.Some? ==> forall j :: from <= j < r.value ==> !OccursAt(s, pat, j)
    ensures r.None? ==> forall j :: from <= j ==> !OccursAt(s, pat, j)
    decreases |s| - from
  {
    if from + |pat| > |s| then None
    else if s[from..from + |pat|] == pat then Some(from)
    else IndexOfFrom(s, pat, from + 1)
  }

  /** `String.prototype.indexOf`, with `None` for -1. */
  function IndexOf(s: string, pat: string): (r: Option<nat>)
    ensures r.Some? ==> OccursAt(s, pat, r.value) && forall j :: 0 <= j < r.value ==> !OccursAt(s, pat, j)
    ensures r.None? ==> forall j :: !OccursAt(s, pat, j)
  {
    IndexOfFrom(s, pat, 0)
  }

  /** `String.prototype.includes`. */
  predicate Contains(s: string, pat: string)
  {
    IndexOf(s, pat).Some?
  }

  lemma ContainsEmpty(s: string)
    ensures Contains(s, "")
  {
    assert OccursAt(s, "", 0);
  }

  lemma ContainsAt(s: string, pat: string, i: nat)
    requires OccursAt(s, pat, i)
    ensures Contains(s, pat)
  {
  }

  /** `String.prototype.replace(pat, rep)` with a string pattern: only the first occurrence. */
  function ReplaceFirst(s: string, pat: string, rep: string): string
  {
    match IndexOf(s, pat)
    case None => s
    case Some(i) => s[..i] + rep + s[i + |pat|..]
  }

  lemma ReplaceFirstAbsent(s: string, pat: string, rep: string)
    requires !Contains(s, pat)
    ensures ReplaceFirst(s, pat, rep) == s
  {
  }

  lemma ReplaceFirstAtStart(pat: string, x: string, rep: string)
    ensures ReplaceFirst(pat + x, pat, rep) == rep + x
  {
    assert OccursAt(pat + x, pat, 0);
    assert (pat + x)[|pat|..] == x;
  }

  /** The index of the first `c` in `s`, or `|s|` when there is none. */
  function IndexOfChar(s: string, c: char): (i: nat)
    ensures i <= |s| && c !in s[..i]
    ensures i < |s| ==> s[i] == c
  {
    if s == [] then 0
    else if s[0] == c then 0
    else
      var k := IndexOfChar(s[1..], c);
      assert s[..k + 1] == [s[0]] + s[1..][..k];
      k + 1
  }

  /** `Array.prototype.join(sep)`. */
  function Join(parts: seq<string>, sep: string): string
  {
    if |parts| == 0 then ""
    else if |parts| == 1 then parts[0]
    else parts[0] + sep + Join(parts[1..], sep)
  }

  /** `String.prototype.split(c)` on a one-character separator; joining the parts gives `s` back. */
  function Split(s: string, c: char): (parts: seq<string>)
    ensures |parts| >= 1
    ensures forall k :: 0 <= k < |parts| ==> c !in parts[k]
    ensures Join(parts, [c]) == s
    decreases |s|
  {
    var i := IndexOfChar(s, c);
    if i == |s| then
      assert s[..i] == s;
      [s]
    else
      var rest := Split(s[i + 1..], c);
      assert s == s[..i] + [c] + s[i + 1..];
      [s[..i]] + rest
  }

  /** The first part of a split is the text before the first separator. */
  lemma SplitHead(s: string, c: char)
    ensures Split(s, c)[0] == s[..IndexOfChar(s, c)]
  {
  }

  /** The index of the first `c` is fixed by what comes before it. */
  lemma IndexOfCharIs(s: string, c: char, i: nat)
    requires i <= |s| && c !in s[..i] && (i < |s| ==> s[i] == c)
    ensures IndexOfChar(s, c) == i
  {
  }

  lemma SplitNoSeparator(s: string, c: char)
    requires c !in s
    ensures Split(s, c) == [s]
  {
    assert s[..|s|] == s;
    IndexOfCharIs(s, c, |s|);
  }

  /** Splitting around a separator splits each side. */
  lemma {:induction false} SplitConcat(a: string, b: string, c: char)
    ensures Split(a + [c] + b, c) == Split(a, c) + Split(b, c)
    decreases |a|
  {
    var s := a + [c] + b;
    var i := IndexOfChar(a, c);
    assert s[..i] == a[..i];
    if i == |a| {
      assert a[..|a|] == a;
      IndexOfCharIs(s, c, |a|);
      assert s[|a| + 1..] == b;
    } else {
      IndexOfCharIs(s, c, i);
      assert s[i + 1..] == a[i + 1..] + [c] + b;
      SplitConcat(a[i + 1..], b, c);
    }
  }

  /** `includes` holds exactly when the pattern occurs somewhere. */
  lemma ContainsIffOccurs(s: string, pat: string)
    ensures Contains(s, pat) <==> exists k :: OccursAt(s, pat, k)
  {
    if exists k :: OccursAt(s, pat, k) {
      var k :| OccursAt(s, pat, k);
      ContainsAt(s, pat, k);
    }
  }

  lemma {:induction false} ToLowerIdempotent(s: string)
    ensures ToLower(ToLower(s)) == ToLower(s)
  {
    var once := ToLower(s);
    forall k | 0 <= k < |s| ensures ToLower(once)[k] == once[k] {
      assert LowerChar(LowerChar(s[k])) == LowerChar(s[k]);
    }
  }
}
