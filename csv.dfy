/** The rows `csv.writer` produces in its default dialect ("excel": comma delimiter,
    `"` as quote character with quotes doubled, minimal quoting, `\r\n` line terminator),
    for the rows `DictWriter` writes here: rows with no field or with a single field. */
module Csv {

  const LineTerminator: string := "\r\n"

  /** Characters that force a field to be quoted: the delimiter, the quote character
      and the line-terminator characters. */
  predicate IsSpecial(c: char) {
    c == ',' || c == '"' || c == '\r' || c == '\n'
  }

  predicate NeedsQuoting(field: string) {
    exists i :: 0 <= i < |field| && IsSpecial(field[i])
  }

  /** Every `"` written twice. */
  function DoubleQuotes(s: string): (r: string)
    ensures |r| >= |s|
  {
    if s == [] then []
    else (if s[0] == '"' then "\"\"" else [s[0]]) + DoubleQuotes(s[1..])
  }

  /** One field as minimal quoting writes it: unchanged unless it holds a special
      character, and then between quotes with its own quotes doubled. */
  function Field(s: string): (r: string)
    ensures !NeedsQuoting(s) ==> r == s
    ensures NeedsQuoting(s) ==> |r| >= |s| + 2 && r[0] == '"' == r[|r| - 1]
  {
    if NeedsQuoting(s) then "\"" + DoubleQuotes(s) + "\"" else s
  }

  /** `writer.writerow([])`: a row without fields is the terminator alone. */
  const EmptyRow: string := LineTerminator

  /** `writer.writerow([value])`. A single empty field is written as `""` so that the
      row does not read back as an empty one. */
  function SingleFieldRow(value: string): string {
    (if value == "" then "\"\"" else Field(value)) + LineTerminator
  }

  /** The field is written as it is, unquoted. */
  predicate IsPlain(s: string) {
    s != "" && !NeedsQuoting(s)
  }

  /** Text made of the given lines, each ended by the terminator. */
  function Lines(lines: seq<string>): (r: string)
    ensures |r| >= 2 * |lines|
  {
    if lines == [] then "" else lines[0] + LineTerminator + Lines(lines[1..])
  }

  lemma {:induction false} LinesAppend(lines: seq<string>, last: string)
    ensures Lines(lines + [last]) == Lines(lines) + last + LineTerminator
  {
    if lines != [] {
      assert (lines + [last])[1..] == lines[1..] + [last];
      LinesAppend(lines[1..], last);
    }
  }

  /** The rows written by one `writerow` call per value, each value a single field. */
  function RowsText(values: seq<string>): string {
    if values == [] then ""
    else RowsText(values[..|values| - 1]) + SingleFieldRow(values[|values| - 1])
  }

  /** Writing one more row appends that row to the text. */
  lemma RowsTextStep(values: seq<string>, i: nat)
    requires i < |values|
    ensures RowsText(values[..i + 1]) == RowsText(values[..i]) + SingleFieldRow(values[i])
  {
    assert values[..i + 1][..i] == values[..i];
  }

  /** Values that need no quoting come out as plain lines. */
  lemma {:induction false} PlainRows(values: seq<string>)
    requires forall x :: x in values ==> IsPlain(x)
    ensures RowsText(values) == Lines(values)
  {
    if values != [] {
      var n := |values| - 1;
      PlainRows(values[..n]);
      LinesAppend(values[..n], values[n]);
      assert values[n] in values;
      assert values[..n] + [values[n]] == values;
    }
  }
}
