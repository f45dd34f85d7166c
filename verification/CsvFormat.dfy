/** The text of CSV records as section 2 of RFC 4180 describes it: fields are bare or quoted, separated
    by commas; a record ends with a line break or with the text. */
module CsvFormat {

  predicate Special(c: char) {
    c == ',' || c == '"' || c == '\r' || c == '\n'
  }

  predicate StartsWith(s: string, c: char) {
    s != "" && s[0] == c
  }

  predicate Plain(s: string) {
    forall i :: 0 <= i < |s| ==> !Special(s[i])
  }

  function Doubled(s: string): string {
    if s == "" then "" else (if s[0] == '"' then "\"\"" else [s[0]]) + Doubled(s[1..])
  }

  function Quoted(s: string): string {
    "\"" + Doubled(s) + "\""
  }

  /** The text stands for the field: bare when the field needs no quotes, or quoted. */
  predicate Rendered(field: string, text: string) {
    (Plain(field) && text == field) || text == Quoted(field)
  }

  ghost predicate AllRendered(fields: seq<string>, texts: seq<string>) {
    |fields| == |texts| && forall i :: 0 <= i < |fields| ==> Rendered(fields[i], texts[i])
  }

  /** Every text followed by a comma. */
  function Prefix(texts: seq<string>): string {
    if texts == [] then "" else Prefix(texts[..|texts| - 1]) + texts[|texts| - 1] + ","
  }

  function Join(texts: seq<string>): string {
    if texts == [] then "" else Prefix(texts[..|texts| - 1]) + texts[|texts| - 1]
  }

  /** A line break, or the end of the text. A carriage return takes a line feed after it along. */
  predicate EndsRecord(eol: string, rest: string) {
    eol == "\n" || eol == "\r\n" || (eol == "\r" && !StartsWith(rest, '\n')) || (eol == "" && rest == "")
  }

  /** The text is one record with these fields, followed by the rest. */
  ghost predicate IsRecord(text: string, fields: seq<string>, rest: string) {
    exists texts, eol :: IsRecordAs(text, fields, rest, texts, eol)
  }

  ghost predicate IsRecordAs(text: string, fields: seq<string>, rest: string, texts: seq<string>, eol: string) {
    text != "" && fields != [] && AllRendered(fields, texts) && EndsRecord(eol, rest) && text == Join(texts) + (eol + rest)
  }

  lemma JoinTwo(texts: seq<string>)
    requires |texts| == 2
    ensures Join(texts) == texts[0] + "," + texts[1]
  {
    var first := texts[..1];
    assert Prefix(first[..0]) + first[0] + "," == first[0] + ",";
    assert Prefix(first) == first[0] + ",";
  }

  /** Moving one character from the text to what has been read of it. */
  lemma Shift(a: string, v: string)
    requires v != ""
    ensures a + [v[0]] + v[1..] == a + v
  {
  }

  lemma Nothing(tail: string, a: string)
    ensures Doubled("") + tail == tail && a + "" == a
  {
  }

  /** The first characters of a quoted field's inside. */
  lemma DoubledHead(v: string, tail: string)
    requires v != ""
    ensures Doubled(v) + tail == (if v[0] == '"' then "\"\"" else [v[0]]) + (Doubled(v[1..]) + tail)
  {
  }

  lemma {:induction false} DoubledConcat(a: string, b: string)
    ensures Doubled(a + b) == Doubled(a) + Doubled(b)
  {
    if a == "" {
      assert a + b == b;
    } else {
      assert (a + b)[1..] == a[1..] + b;
      DoubledConcat(a[1..], b);
    }
  }
}
