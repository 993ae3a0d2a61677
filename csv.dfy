/**
 * The CSV export's field escaping: every value is wrapped in double quotes and each quote inside
 * is doubled, as in section 2 (rules 5 to 7) of RFC 4180; a missing value becomes `""`.
 */
module Csv {
  import opened Wrappers
  import opened Strings

  /** `value.replace(/"/g, '""')`. */
  function DoubleQuotes(s: string): (r: string)
    ensures |r| >= |s|
  {
    if s == [] then [] else (if s[0] == '"' then "\"\"" else [s[0]]) + DoubleQuotes(s[1..])
  }

  /** `escapeCSV`: `None` stands for `null` and `undefined`. */
  function EscapeCsv(v: Option<string>): (r: string)
    ensures |r| >= 2 && r[0] == '"' && r[|r| - 1] == '"'
  {
    match v
    case None => "\"\""
    case Some(s) => "\"" + DoubleQuotes(s) + "\""
  }

  /**
   * Reads the inside of a quoted field up to its closing quote, undoubling `""`: the field's
   * text and what follows the closing quote, or `None` when no closing quote comes.
   */
  function ReadQuotedBody(s: string): (r: Option<(string, string)>)
    ensures r.Some? ==> |r.value.1| < |s|
    decreases |s|
  {
    if s == [] then None
    else if s[0] == '"' then
      if |s| >= 2 && s[1] == '"' then
        match ReadQuotedBody(s[2..])
        case None => None
        case Some((f, rest)) => Some(("\"" + f, rest))
      else Some(("", s[1..]))
    else
      match ReadQuotedBody(s[1..])
      case None => None
      case Some((f, rest)) => Some(([s[0]] + f, rest))
  }

  /** Reads a comma-separated line of quoted fields. */
  function ParseRow(s: string): (r: Option<seq<string>>)
    ensures r.Some? ==> |r.value| >= 1
    decreases |s|
  {
    if s == [] || s[0] != '"' then None
    else
      match ReadQuotedBody(s[1..])
      case None => None
      case Some((f, rest)) =>
        if rest == [] then Some([f])
        else if rest[0] != ',' then None
        else
          match ParseRow(rest[1..])
          case None => None
          case Some(fs) => Some([f] + fs)
  }

  /** The reader undoes the escaping: the text comes back and reading stops at the closing quote. */
  lemma {:induction false} ReadDoubled(s: string, rest: string)
    requires rest == [] || rest[0] != '"'
    ensures ReadQuotedBody(DoubleQuotes(s) + "\"" + rest) == Some((s, rest))
    decreases |s|
  {
    if s == [] {
      assert DoubleQuotes(s) + "\"" + rest == ['"'] + rest;
    } else {
      ReadDoubled(s[1..], rest);
      if s[0] == '"' {
        ReadDoubledQuote(s, rest);
      } else {
        ReadDoubledPlain(s, rest);
      }
    }
  }

  /** A leading quote is written twice and read back as one. */
  lemma ReadDoubledQuote(s: string, rest: string)
    requires s != [] && s[0] == '"'
    requires ReadQuotedBody(DoubleQuotes(s[1..]) + "\"" + rest) == Some((s[1..], rest))
    ensures ReadQuotedBody(DoubleQuotes(s) + "\"" + rest) == Some((s, rest))
  {
    var tail := DoubleQuotes(s[1..]) + "\"" + rest;
    var t := DoubleQuotes(s) + "\"" + rest;
    assert t == "\"\"" + tail;
    assert t[2..] == tail;
    assert "\"" + s[1..] == s;
  }

  /** Any other leading character is written and read back as it is. */
  lemma ReadDoubledPlain(s: string, rest: string)
    requires s != [] && s[0] != '"'
    requires ReadQuotedBody(DoubleQuotes(s[1..]) + "\"" + rest) == Some((s[1..], rest))
    ensures ReadQuotedBody(DoubleQuotes(s) + "\"" + rest) == Some((s, rest))
  {
    var tail := DoubleQuotes(s[1..]) + "\"" + rest;
    var t := DoubleQuotes(s) + "\"" + rest;
    assert t == [s[0]] + tail;
    assert t[1..] == tail;
    assert [s[0]] + s[1..] == s;
  }

  /** Each value escaped, in order. */
  function EscapeAll(values: seq<string>): (r: seq<string>)
    ensures |r| == |values|
    ensures forall i :: 0 <= i < |values| ==> r[i] == EscapeCsv(Some(values[i]))
  {
    if values == [] then [] else [EscapeCsv(Some(values[0]))] + EscapeAll(values[1..])
  }

  /** One exported line: the escaped values joined by commas. */
  function CsvLine(values: seq<string>): string
  {
    Join(EscapeAll(values), ",")
  }

  lemma CsvLineCons(values: seq<string>)
    requires |values| >= 1
    ensures |values| == 1 ==> CsvLine(values) == EscapeCsv(Some(values[0]))
    ensures |values| >= 2 ==> CsvLine(values) == EscapeCsv(Some(values[0])) + "," + CsvLine(values[1..])
  {
  }

  /** Reading a quoted field, then a comma or the end of the line. */
  lemma ParseRowEscaped(v: string, more: string)
    ensures ParseRow(EscapeCsv(Some(v))) == Some([v])
    ensures ParseRow(EscapeCsv(Some(v)) + "," + more) ==
              match ParseRow(more)
              case None => None
              case Some(fs) => Some([v] + fs)
  {
    var one := EscapeCsv(Some(v));
    ReadDoubled(v, "");
    assert one[1..] == DoubleQuotes(v) + "\"" + "";
    var line := one + "," + more;
    ReadDoubled(v, "," + more);
    assert line[1..] == DoubleQuotes(v) + "\"" + ("," + more);
    assert ("," + more)[1..] == more;
  }

  /** Reading an exported line gives back exactly the values it was built from, however many quotes or commas they hold. */
  lemma {:induction false} CsvLineRoundTrip(values: seq<string>)
    requires |values| >= 1
    ensures ParseRow(CsvLine(values)) == Some(values)
    decreases |values|
  {
    CsvLineCons(values);
    if |values| == 1 {
      ParseRowEscaped(values[0], "");
      assert [values[0]] == values;
    } else {
      CsvLineRoundTrip(values[1..]);
      ParseRowEscaped(values[0], CsvLine(values[1..]));
      assert [values[0]] + values[1..] == values;
    }
  }
}
