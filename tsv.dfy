/**
 * Tab-separated text as Python's `csv.writer(buffer, delimiter="\t")` writes
 * it into an in-memory text buffer: the default dialect, minimal quoting with
 * `"` doubled inside quoted fields, and `\r\n` after every row.
 */
module Tsv {
  import opened Strings

  /** A cell handed to `writerow`: a string, an integer, or a price held as integer cents. */
  datatype Field = Text(s: string) | Int(n: int) | Cents(c: nat)

  type Row = seq<Field>

  /** Digits after the decimal point in Python's shortest `repr` of a float with at most two of them. */
  function FractionDigits(f: nat): (d: string)
    requires f < 100
    ensures 1 <= |d| <= 2
    ensures forall i :: 0 <= i < |d| ==> IsDigit(d[i])
  {
    if f % 10 == 0 then [DigitChar(f / 10)] else [DigitChar(f / 10), DigitChar(f % 10)]
  }

  /** `repr` of the float `c / 100`: `21.99`, `21.9`, `22.0`. */
  function PriceString(c: nat): (p: string)
    ensures forall i :: 0 <= i < |p| ==> IsDigit(p[i]) || p[i] == '.'
  {
    var whole, frac := NatToString(c / 100), FractionDigits(c % 100);
    assert '.' !in whole && '.' !in frac;
    whole + "." + frac
  }

  function FractionValue(d: string): nat
  {
    if |d| == 1 then 10 * DigitValue(d[0])
    else if |d| == 2 then 10 * DigitValue(d[0]) + DigitValue(d[1])
    else 0
  }

  /** Reads a price written by `PriceString` back into cents. */
  function ParsePrice(s: string): nat
  {
    var parts := SplitOn(s, ".");
    if |parts| == 2 then 100 * ParseNat(parts[0]) + FractionValue(parts[1]) else 0
  }

  lemma PriceRoundTrip(c: nat)
    ensures ParsePrice(PriceString(c)) == c
  {
    var whole, frac := NatToString(c / 100), FractionDigits(c % 100);
    assert PriceString(c) == JoinOn([whole, frac], ".");
    SplitOnJoin([whole, frac], ".");
    ParseNatToString(c / 100);
  }

  /** A price is digits around one point: never quoted. */
  lemma PriceClean(c: nat)
    ensures Clean(PriceString(c))
  {
  }

  /** An integer is an optional minus sign and digits: never quoted. */
  lemma IntClean(n: int)
    ensures Clean(IntToString(n))
  {
    var s := IntToString(n);
    forall i | 0 <= i < |s| ensures !Special(s[i]) {
      assert IsDigit(s[i]) || s[i] == '-';
    }
  }

  /**
   * The text `csv.writer` produces for one cell before quoting: `str` of the
   * value. A string is kept as it is; an integer or a price is never one
   * that needs quoting.
   */
  function Render(f: Field): (s: string)
    ensures f.Text? ==> s == f.s
    ensures !f.Text? ==> Clean(s)
  {
    match f
    case Text(s) => s
    case Int(n) => IntClean(n); IntToString(n)
    case Cents(c) => PriceClean(c); PriceString(c)
  }

  /** Integers and prices read back from their cells as the values they were written from. */
  lemma RenderRoundTrip(f: Field)
    ensures f.Int? ==> ParseInt(Render(f)) == f.n
    ensures f.Cents? ==> ParsePrice(Render(f)) == f.c
  {
    match f
    case Text(_) =>
    case Int(n) => IntToStringRoundTrip(n);
    case Cents(c) => PriceRoundTrip(c);
  }

  /** The characters that make minimal quoting wrap a field: delimiter, quote, CR, LF. */
  predicate Special(c: char)
  {
    c == '\t' || c == '"' || c == '\r' || c == '\n'
  }

  predicate Clean(s: string)
  {
    forall i :: 0 <= i < |s| ==> !Special(s[i])
  }

  lemma CleanConcat(a: string, b: string)
    requires Clean(a) && Clean(b)
    ensures Clean(a + b)
  {
    forall i | 0 <= i < |a + b| ensures !Special((a + b)[i]) {
      if i >= |a| {
        assert (a + b)[i] == b[i - |a|];
      }
    }
  }

  lemma CleanRemoveChar(s: string, c: char)
    requires Clean(s)
    ensures Clean(RemoveChar(s, c))
  {
    var r := RemoveChar(s, c);
    forall i | 0 <= i < |r| ensures !Special(r[i]) {
      assert r[i] in multiset(r);
      assert r[i] in multiset(s);
    }
  }

  /** Every `"` written twice, as the default dialect does inside a quoted field. */
  function DoubleQuotes(s: string): string
  {
    if s == [] then [] else (if s[0] == '"' then "\"\"" else [s[0]]) + DoubleQuotes(s[1..])
  }

  /** Doubling adds one character per `"`. */
  lemma {:induction false} DoubleQuotesLength(s: string)
    ensures |DoubleQuotes(s)| == |s| + multiset(s)['"']
  {
    if s != [] {
      DoubleQuotesLength(s[1..]);
      assert s == [s[0]] + s[1..];
      assert multiset(s) == multiset([s[0]]) + multiset(s[1..]);
    }
  }

  /** Reads a doubled `""` back as one `"`. */
  function Undouble(t: string): string
    decreases |t|
  {
    if |t| >= 2 && t[0] == '"' && t[1] == '"' then "\"" + Undouble(t[2..])
    else if t == [] then []
    else [t[0]] + Undouble(t[1..])
  }

  lemma {:induction false} UndoubleDouble(s: string)
    ensures Undouble(DoubleQuotes(s)) == s
  {
    if s != [] {
      var d := DoubleQuotes(s[1..]);
      UndoubleDouble(s[1..]);
      if s[0] == '"' {
        assert DoubleQuotes(s) == "\"\"" + d;
        assert ("\"\"" + d)[2..] == d;
      } else {
        assert DoubleQuotes(s) == [s[0]] + d;
        assert ([s[0]] + d)[1..] == d;
      }
      assert [s[0]] + s[1..] == s;
    }
  }

  /** Minimal quoting of one rendered field. */
  function QuoteField(s: string): (q: string)
    ensures Clean(s) ==> q == s
    ensures !Clean(s) ==> |q| >= 2 && q[0] == '"' && q[|q| - 1] == '"'
  {
    if Clean(s) then s else "\"" + DoubleQuotes(s) + "\""
  }

  /**
   * A quoted field is two characters longer than the field plus one per
   * `"` in it: every `"` is written twice, as `QuoteRoundTrip` then fixes.
   */
  lemma QuotedLength(s: string)
    requires !Clean(s)
    ensures |QuoteField(s)| == |s| + 2 + multiset(s)['"']
  {
    DoubleQuotesLength(s);
  }

  function UnquoteField(q: string): string
  {
    if |q| >= 2 && q[0] == '"' && q[|q| - 1] == '"' then Undouble(q[1..|q| - 1]) else q
  }

  /** A reader that strips the quotes recovers every field exactly. */
  lemma QuoteRoundTrip(s: string)
    ensures UnquoteField(QuoteField(s)) == s
  {
    if Clean(s) {
      assert |s| >= 2 ==> !Special(s[0]);
    } else {
      var q := QuoteField(s);
      assert q[1..|q| - 1] == DoubleQuotes(s);
      UndoubleDouble(s);
    }
  }

  function Rendered(row: Row): (fields: seq<string>)
    ensures |fields| == |row|
  {
    seq(|row|, i requires 0 <= i < |row| => Render(row[i]))
  }

  /**
   * One `writerow` call: fields quoted where needed, joined by tabs, then
   * `\r\n`. A row whose only field renders empty is written as `""`, so that
   * it is not read back as an empty row.
   */
  function FormatRow(row: Row): (line: string)
    ensures |line| >= 2 && line[|line| - 2..] == "\r\n"
  {
    var body :=
      if |row| == 1 && Render(row[0]) == "" then "\"\""
      else JoinOn(seq(|row|, i requires 0 <= i < |row| => QuoteField(Render(row[i]))), "\t");
    body + "\r\n"
  }

  /** The buffer's contents after writing `rows` in order: empty for no rows, otherwise ending in `\r\n`. */
  function Serialize(rows: seq<Row>): (text: string)
    ensures text == [] <==> rows == []
    ensures rows != [] ==> |text| >= 2 && text[|text| - 2..] == "\r\n"
  {
    if rows == [] then "" else FormatRow(rows[0]) + Serialize(rows[1..])
  }

  /** A row whose only cell renders empty is written as a quoted empty field. */
  lemma LoneEmptyCell(f: Field)
    requires Render(f) == ""
    ensures FormatRow([f]) == "\"\"\r\n"
  {
  }

  /**
   * The line-and-tab reader sees that row as one cell holding the two
   * quotes, which is why the read-back lemmas leave it out.
   */
  lemma LoneEmptyCellReadBack()
    ensures ReadFeed(Serialize([[Text("")]])) == [["\"\""]]
  {
    var rows: seq<Row> := [[Text("")]];
    LoneEmptyCell(Text(""));
    assert rows[1..] == [];
    assert Serialize(rows) == "\"\"" + "\r\n" + "";
    ReadQuotedLine();
  }

  lemma ReadQuotedLine()
    ensures ReadFeed("\"\"" + "\r\n" + "") == [["\"\""]]
  {
    var cell := "\"\"";
    SplitOnFirst(cell, "\r\n", "");
    SplitOnAvoiding("", "\r\n");
    SplitOnAvoiding(cell, "\t");
  }

  /** A row with no cells is written as a bare line end. */
  lemma EmptyRowFormat()
    ensures FormatRow([]) == "\r\n"
  {
  }

  lemma {:induction false} SerializeAppend(rows: seq<Row>, row: Row)
    ensures Serialize(rows + [row]) == Serialize(rows) + FormatRow(row)
  {
    if rows == [] {
      assert [] + [row] == [row];
      assert [row][1..] == [];
    } else {
      assert (rows + [row])[1..] == rows[1..] + [row];
      SerializeAppend(rows[1..], row);
    }
  }

  /** Python's `io.StringIO` wrapped in a tab-delimited `csv.writer`. */
  class TsvWriter {
    var text: string
    ghost var rows: seq<Row>

    ghost predicate Valid()
      reads this
    {
      text == Serialize(rows)
    }

    constructor ()
      ensures Valid() && rows == [] && text == ""
    {
      text := "";
      rows := [];
    }

    method WriteRow(row: Row)
      requires Valid()
      modifies this
      ensures Valid()
      ensures rows == old(rows) + [row]
      ensures text == old(text) + FormatRow(row)
    {
      SerializeAppend(rows, row);
      text := text + FormatRow(row);
      rows := rows + [row];
    }

    /** `getvalue()`: everything written so far. */
    function GetValue(): (s: string)
      reads this
      requires Valid()
      ensures s == Serialize(rows)
    {
      text
    }
  }

  /**
   * A row the writer leaves unquoted: it has a field that renders non-empty
   * or more than one field, and no rendered field holds a tab, `"`, CR or LF.
   */
  predicate Unquoted(row: Row)
  {
    (|row| >= 2 || (|row| == 1 && Render(row[0]) != "")) &&
    forall i :: 0 <= i < |row| ==> Clean(Render(row[i]))
  }

  /** An unquoted row is its rendered fields joined by tabs, then `\r\n`. */
  lemma PlainRowFormat(row: Row)
    requires Unquoted(row)
    ensures FormatRow(row) == JoinOn(Rendered(row), "\t") + "\r\n"
  {
    var quoted := seq(|row|, i requires 0 <= i < |row| => QuoteField(Render(row[i])));
    assert quoted == Rendered(row);
  }

  /** Splitting on `\r\n` and then on tabs, ignoring what follows the last `\r\n`. */
  function ReadFeed(text: string): seq<seq<string>>
  {
    var lines := SplitOn(text, "\r\n");
    seq(|lines| - 1, i requires 0 <= i < |lines| - 1 => SplitOn(lines[i], "\t"))
  }

  function Lines(rows: seq<Row>): (lines: seq<string>)
    ensures |lines| == |rows|
  {
    seq(|rows|, i requires 0 <= i < |rows| => JoinOn(Rendered(rows[i]), "\t"))
  }

  lemma {:induction false} SerializeAsLines(rows: seq<Row>)
    requires forall k :: 0 <= k < |rows| ==> Unquoted(rows[k])
    ensures Serialize(rows) == JoinOn(Lines(rows) + [""], "\r\n")
  {
    if rows == [] {
      assert Lines(rows) + [""] == [""];
    } else {
      PlainRowFormat(rows[0]);
      SerializeAsLines(rows[1..]);
      var all := Lines(rows) + [""];
      var rest := Lines(rows[1..]) + [""];
      assert |all| >= 2;
      assert all[0] == JoinOn(Rendered(rows[0]), "\t");
      assert all[1..] == rest by {
        assert forall k :: 0 <= k < |rows| - 1 ==> Lines(rows[1..])[k] == Lines(rows)[k + 1];
      }
      assert Serialize(rows) == FormatRow(rows[0]) + Serialize(rows[1..]);
      assert JoinOn(all, "\r\n") == all[0] + "\r\n" + JoinOn(rest, "\r\n");
    }
  }

  lemma CleanAvoids(s: string)
    requires Clean(s)
    ensures Avoids(s, "\t") && Avoids(s, "\r\n")
  {
    forall i | 0 <= i < |s| ensures s[i] !in "\t" && s[i] !in "\r\n" {
      assert !Special(s[i]);
    }
  }

  lemma LineAvoidsTerminator(row: Row)
    requires Unquoted(row)
    ensures Avoids(JoinOn(Rendered(row), "\t"), "\r\n")
  {
    var fields := Rendered(row);
    forall j | 0 <= j < |fields| ensures Avoids(fields[j], "\r\n") {
      CleanAvoids(fields[j]);
    }
    JoinOnAvoids(fields, "\t", "\r\n");
  }

  lemma LineSplits(row: Row)
    requires Unquoted(row)
    ensures SplitOn(JoinOn(Rendered(row), "\t"), "\t") == Rendered(row)
  {
    var fields := Rendered(row);
    forall j | 0 <= j < |fields| ensures Avoids(fields[j], "\t") {
      CleanAvoids(fields[j]);
    }
    SplitOnJoin(fields, "\t");
  }

  lemma ReadLines(text: string, rows: seq<Row>)
    requires forall k :: 0 <= k < |rows| ==> Unquoted(rows[k])
    requires SplitOn(text, "\r\n") == Lines(rows) + [""]
    ensures ReadFeed(text) == seq(|rows|, k requires 0 <= k < |rows| => Rendered(rows[k]))
  {
    forall k | 0 <= k < |rows| ensures SplitOn(Lines(rows)[k], "\t") == Rendered(rows[k]) {
      LineSplits(rows[k]);
    }
  }

  /** Reading the written text back recovers every row's rendered fields, in order. */
  lemma ReadSerialized(rows: seq<Row>)
    requires forall k :: 0 <= k < |rows| ==> Unquoted(rows[k])
    ensures ReadFeed(Serialize(rows)) == seq(|rows|, k requires 0 <= k < |rows| => Rendered(rows[k]))
  {
    var all := Lines(rows) + [""];
    forall k | 0 <= k < |all| ensures Avoids(all[k], "\r\n") {
      if k < |rows| {
        LineAvoidsTerminator(rows[k]);
      }
    }
    SerializeAsLines(rows);
    SplitOnJoin(all, "\r\n");
    ReadLines(Serialize(rows), rows);
  }
}
