/** readRecord and the field writer of the rank command. */
module CsvRecords {
  import opened Outcomes
  import opened CsvFormat

  datatype State = Start | Text | InQuotes | AfterQuote

  datatype Fault = TextAfterQuote | QuoteInsideField | UnterminatedQuote

  datatype Read = Record(fields: seq<string>, rest: string) | EndOfInput | Malformed(fault: Fault)

  /** What readRecord makes of the rest of the input. */
  function Scan(rest: string, state: State, value: string, fields: seq<string>, read: bool): Read
    decreases |rest|
  {
    if rest == "" then
      if state.InQuotes? then Malformed(UnterminatedQuote)
      else if !read then EndOfInput
      else Record(fields + [value], "")
    else
      var c, tail := rest[0], rest[1..];
      if state.InQuotes? then
        if c == '"' then Scan(tail, AfterQuote, value, fields, true)
        else Scan(tail, InQuotes, value + [c], fields, true)
      else if state.AfterQuote? && c == '"' then Scan(tail, InQuotes, value + "\"", fields, true)
      else if c == ',' then Scan(tail, Start, "", fields + [value], true)
      else if c == '\n' then Record(fields + [value], tail)
      else if c == '\r' then Record(fields + [value], if StartsWith(tail, '\n') then tail[1..] else tail)
      else if state.AfterQuote? then Malformed(TextAfterQuote)
      else if c == '"' then
        if state.Start? then Scan(tail, InQuotes, value, fields, true) else Malformed(QuoteInsideField)
      else Scan(tail, Text, value + [c], fields, true)
  }

  function ReadFrom(text: string): Read {
    Scan(text, Start, "", [], false)
  }

  /** An input stream: characters are taken from the front. */
  class Stream {
    var rest: string

    constructor (text: string)
      ensures rest == text
    {
      rest := text;
    }

    method Get() returns (ok: bool, c: char)
      modifies this
      ensures ok <==> old(rest) != ""
      ensures ok ==> c == old(rest)[0] && rest == old(rest)[1..]
      ensures !ok ==> rest == old(rest)
    {
      ok, c := rest != "", ' ';
      if ok { c, rest := rest[0], rest[1..]; }
    }
  }

  /** readRecord: the next record is taken off the stream; after a fault the stream is in the middle. */
  method ReadRecord(input: Stream) returns (r: Read)
    modifies input
    ensures r == ReadFrom(old(input.rest))
    ensures r.Record? ==> input.rest == r.rest
    ensures r.EndOfInput? ==> input.rest == ""
  {
    var state, value, fields, read := Start, "", [], false;
    while true
      invariant Scan(input.rest, state, value, fields, read) == ReadFrom(old(input.rest))
      decreases |input.rest|
    {
      var ok, c := input.Get();
      if !ok { break; }
      read := true;
      if state == InQuotes {
        if c == '"' { state := AfterQuote; } else { value := value + [c]; }
        continue;
      }
      if state == AfterQuote && c == '"' {
        value := value + "\"";
        state := InQuotes;
        continue;
      }
      if c == ',' || c == '\n' || c == '\r' {
        fields := fields + [value];
        value := "";
        state := Start;
        if c == ',' { continue; }
        if c == '\r' && StartsWith(input.rest, '\n') {
          var _, _ := input.Get();
        }
        return Record(fields, input.rest);
      }
      if state == AfterQuote { return Malformed(TextAfterQuote); }
      if c == '"' {
        if state != Start { return Malformed(QuoteInsideField); }
        state := InQuotes;
      } else {
        value := value + [c];
        state := Text;
      }
    }
    if state == InQuotes { return Malformed(UnterminatedQuote); }
    if !read { return EndOfInput; }
    return Record(fields + [value], "");
  }

  // ---- The reader accepts every record ---------------------------------------------------

  lemma {:induction false} PlainScan(t: string, tail: string, state: State, value: string, fields: seq<string>,
                                     read: bool)
    requires Plain(t) && (state.Start? || state.Text?)
    ensures Scan(t + tail, state, value, fields, read) ==
            Scan(tail, if t == "" then state else Text, value + t, fields, read || t != "")
  {
    if t == "" {
      assert t + tail == tail && value + t == value;
    } else {
      assert (t + tail)[0] == t[0] && (t + tail)[1..] == t[1..] + tail;
      assert !Special(t[0]);
      PlainScan(t[1..], tail, Text, value + [t[0]], fields, true);
      Shift(value, t);
    }
  }

  lemma QuotedScanStep(c: char, more: string, value: string, fields: seq<string>)
    ensures Scan((if c == '"' then "\"\"" else [c]) + more, InQuotes, value, fields, true) ==
            Scan(more, InQuotes, value + [c], fields, true)
  {
    if c == '"' {
      var second := "\"" + more;
      assert ("\"\"" + more)[1..] == second && second[1..] == more;
      assert Scan(second, AfterQuote, value, fields, true) == Scan(more, InQuotes, value + "\"", fields, true);
    } else {
      assert ([c] + more)[1..] == more;
    }
  }

  lemma {:induction false} QuotedScan(v: string, tail: string, value: string, fields: seq<string>)
    ensures Scan(Doubled(v) + tail, InQuotes, value, fields, true) == Scan(tail, InQuotes, value + v, fields, true)
  {
    hide Scan, Doubled;
    if v == "" {
      Nothing(tail, value);
    } else {
      var more := Doubled(v[1..]) + tail;
      DoubledHead(v, tail);
      QuotedScanStep(v[0], more, value, fields);
      QuotedScan(v[1..], tail, value + [v[0]], fields);
      Shift(value, v);
    }
  }

  /** A field's text leads to a state that is not inside quotes, with the field as its value. */
  lemma FieldScan(field: string, text: string, tail: string, fields: seq<string>, read: bool)
      returns (state: State)
    requires Rendered(field, text)
    ensures !state.InQuotes?
    ensures Scan(text + tail, Start, "", fields, read) == Scan(tail, state, field, fields, read || text != "")
  {
    if Plain(field) && text == field {
      PlainScan(text, tail, Start, "", fields, read);
      state := if text == "" then Start else Text;
      assert "" + text == field;
    } else {
      var closing := "\"" + tail;
      assert (text + tail)[1..] == Doubled(field) + closing;
      QuotedScan(field, closing, "", fields);
      assert closing[1..] == tail && "" + field == field;
      state := AfterQuote;
    }
  }

  lemma {:induction false} PrefixScan(texts: seq<string>, fields: seq<string>, tail: string)
    requires AllRendered(fields, texts)
    ensures ReadFrom(Prefix(texts) + tail) == Scan(tail, Start, "", fields, texts != [])
  {
    if texts == [] {
      assert Prefix(texts) + tail == tail;
    } else {
      var n := |texts| - 1;
      var comma := "," + tail;
      assert Prefix(texts) + tail == Prefix(texts[..n]) + (texts[n] + comma);
      PrefixScan(texts[..n], fields[..n], texts[n] + comma);
      var state := FieldScan(fields[n], texts[n], comma, fields[..n], texts[..n] != []);
      assert comma[1..] == tail && fields[..n] + [fields[n]] == fields;
    }
  }

  lemma EndScan(eol: string, rest: string, state: State, value: string, fields: seq<string>, read: bool)
    requires EndsRecord(eol, rest) && !state.InQuotes? && (read || eol + rest != "")
    ensures Scan(eol + rest, state, value, fields, read) == Record(fields + [value], rest)
  {
    var tail := eol + rest;
    if eol == "\r\n" {
      assert tail[1..] == "\n" + rest && tail[1..][1..] == rest;
    } else if eol != "" {
      assert tail[1..] == rest;
    }
  }

  /** Whatever way a record is written, the reader returns its fields. */
  lemma ReadsEveryRecord(text: string, fields: seq<string>, rest: string)
    requires IsRecord(text, fields, rest)
    ensures ReadFrom(text) == Record(fields, rest)
  {
    hide Scan, EndsRecord, Rendered, Prefix;
    var texts, eol :| IsRecordAs(text, fields, rest, texts, eol);
    var n := |texts| - 1;
    var tail := eol + rest;
    var start, last, read := texts[..n], texts[n], texts[..n] != [];
    assert text == Prefix(start) + (last + tail);
    PrefixScan(start, fields[..n], last + tail);
    var state := FieldScan(fields[n], last, tail, fields[..n], read);
    assert read || last != "" || tail != "" by {
      if !read { assert Prefix(start) == "" by { EmptyPrefix(); } }
    }
    EndScan(eol, rest, state, fields[n], fields[..n], read || last != "");
    assert fields[..n] + [fields[n]] == fields;
  }

  lemma EmptyPrefix()
    ensures Prefix([]) == ""
  {
  }

  // ---- The reader accepts nothing else ---------------------------------------------------

  /** The text of the field read so far. */
  function Current(state: State, value: string): string {
    match state
    case Start => ""
    case Text => value
    case InQuotes => "\"" + Doubled(value)
    case AfterQuote => Quoted(value)
  }

  predicate StateOk(state: State, value: string) {
    (state.Start? ==> value == "") && (state.Text? ==> Plain(value))
  }

  lemma EndField(consumed: string, texts: seq<string>, fields: seq<string>, state: State, value: string)
    requires AllRendered(fields, texts) && StateOk(state, value) && !state.InQuotes?
    requires consumed == Prefix(texts) + Current(state, value)
    ensures AllRendered(fields + [value], texts + [Current(state, value)])
    ensures consumed == Join(texts + [Current(state, value)])
    ensures consumed + "," == Prefix(texts + [Current(state, value)])
  {
    assert (texts + [Current(state, value)])[..|texts|] == texts;
    assert Rendered(value, Current(state, value));
  }

  lemma RecordEnds(consumed: string, texts: seq<string>, fields: seq<string>, state: State, value: string,
                   eol: string, rest: string)
    requires AllRendered(fields, texts) && StateOk(state, value) && !state.InQuotes?
    requires consumed == Prefix(texts) + Current(state, value)
    requires EndsRecord(eol, rest) && consumed + eol != ""
    ensures IsRecord(consumed + (eol + rest), fields + [value], rest)
  {
    hide EndsRecord, Prefix, Rendered, Current;
    EndField(consumed, texts, fields, state, value);
    var all := texts + [Current(state, value)];
    assert IsRecordAs(consumed + (eol + rest), fields + [value], rest, all, eol);
  }

  /** One more character inside a quoted field. */
  lemma QuotedStep(value: string, c: char)
    ensures c != '"' ==> Current(InQuotes, value + [c]) == Current(InQuotes, value) + [c]
    ensures Current(AfterQuote, value) == Current(InQuotes, value) + "\""
    ensures Current(InQuotes, value + "\"") == Current(AfterQuote, value) + "\""
  {
    DoubledConcat(value, [c]);
    DoubledConcat(value, "\"");
    assert Doubled([c]) == if c == '"' then "\"\"" else [c];
  }

  /** If the text read so far is whole fields and a part of one, then a record that the reader returns is
      what the whole text holds. */
  lemma {:induction false} ScanSound(consumed: string, rest: string, texts: seq<string>, fields: seq<string>,
                                     state: State, value: string, read: bool)
    requires AllRendered(fields, texts) && StateOk(state, value) && (read <==> consumed != "")
    requires consumed == Prefix(texts) + Current(state, value)
    ensures var r := Scan(rest, state, value, fields, read); r.Record? ==> IsRecord(consumed + rest, r.fields, r.rest)
    decreases |rest|
  {
    hide IsRecord, EndsRecord, Prefix, Rendered, Current, Quoted, Doubled, AllRendered;
    if rest == "" {
      if !state.InQuotes? && read {
        EndOfText();
        RecordEnds(consumed, texts, fields, state, value, "", "");
        assert consumed + ("" + "") == consumed + rest;
      }
    } else {
      var c, tail := rest[0], rest[1..];
      var more := consumed + [c];
      assert consumed + rest == more + tail;
      if state.InQuotes? || (state.AfterQuote? && c == '"') {
        QuotedStep(value, c);
        if state.InQuotes? && c == '"' {
          ScanSound(more, tail, texts, fields, AfterQuote, value, true);
        } else {
          ScanSound(more, tail, texts, fields, InQuotes, value + [c], true);
        }
      } else if c == ',' {
        EndField(consumed, texts, fields, state, value);
        EmptyStart(texts + [Current(state, value)]);
        ScanSound(more, tail, texts + [Current(state, value)], fields + [value], Start, "", true);
      } else if c == '\n' || c == '\r' {
        var eol := LineBreak(c, tail);
        var next := if c == '\r' && StartsWith(tail, '\n') then tail[1..] else tail;
        assert rest == [c] + tail == eol + next;
        RecordEnds(consumed, texts, fields, state, value, eol, next);
      } else if state.AfterQuote? || (c == '"' && !state.Start?) {
      } else {
        FirstStep(state, value, c);
        if c == '"' {
          ScanSound(more, tail, texts, fields, InQuotes, value, true);
        } else {
          ScanSound(more, tail, texts, fields, Text, value + [c], true);
        }
      }
    }
  }

  lemma EndOfText()
    ensures EndsRecord("", "")
  {
  }

  lemma EmptyStart(texts: seq<string>)
    ensures Prefix(texts) == Prefix(texts) + Current(Start, "")
  {
  }

  lemma LineBreak(c: char, tail: string) returns (eol: string)
    requires c == '\n' || c == '\r'
    ensures var rest := if c == '\r' && StartsWith(tail, '\n') then tail[1..] else tail;
            EndsRecord(eol, rest) && eol != "" && [c] + tail == eol + rest
  {
    eol := if c == '\r' && StartsWith(tail, '\n') then "\r\n" else [c];
  }

  lemma FirstStep(state: State, value: string, c: char)
    requires StateOk(state, value) && (state.Start? || state.Text?)
    ensures state.Start? ==> Current(InQuotes, value) == Current(state, value) + "\""
    ensures !Special(c) ==> StateOk(Text, value + [c]) && Current(Text, value + [c]) == Current(state, value) + [c]
  {
  }

  /** The reader returns a record exactly when the text starts with one, and then that one: its fields and the
      rest are determined by the text. */
  lemma ReadsExactlyTheRecords(text: string, fields: seq<string>, rest: string)
    ensures ReadFrom(text) == Record(fields, rest) <==> IsRecord(text, fields, rest)
    ensures ReadFrom(text) == EndOfInput <==> text == ""
  {
    if IsRecord(text, fields, rest) {
      ReadsEveryRecord(text, fields, rest);
    }
    assert Prefix([]) + Current(Start, "") == "";
    ScanSound("", text, [], [], Start, "", false);
    assert "" + text == text;
    if text != "" { ScanIsNoEnd(text, Start, "", [], false); }
  }

  lemma {:induction false} ScanIsNoEnd(rest: string, state: State, value: string, fields: seq<string>, read: bool)
    requires read || rest != ""
    ensures Scan(rest, state, value, fields, read) != EndOfInput
    decreases |rest|
  {
    if rest != "" {
      var c, tail := rest[0], rest[1..];
      ScanIsNoEnd(tail, AfterQuote, value, fields, true);
      ScanIsNoEnd(tail, InQuotes, value, fields, true);
      ScanIsNoEnd(tail, InQuotes, value + [c], fields, true);
      ScanIsNoEnd(tail, InQuotes, value + "\"", fields, true);
      ScanIsNoEnd(tail, Start, "", fields + [value], true);
      ScanIsNoEnd(tail, Text, value + [c], fields, true);
    }
  }

  // ---- Writing and reading back ----------------------------------------------------------

  /** The text that the writer gives a field: quoted only where it must be. */
  function FieldText(field: string): string {
    if Plain(field) then field else Quoted(field)
  }

  /** csv: a field, quoted if it holds a comma, a quote or a line break. */
  method WriteField(text: string) returns (r: string)
    ensures r == FieldText(text) && Rendered(text, r)
  {
    if Plain(text) { return text; }
    r := "\"";
    for i := 0 to |text|
      invariant r == "\"" + Doubled(text[..i])
    {
      assert text[..i + 1] == text[..i] + [text[i]];
      DoubledConcat(text[..i], [text[i]]);
      if text[i] == '"' { r := r + "\""; }
      r := r + [text[i]];
    }
    assert text[..|text|] == text;
    r := r + "\"";
  }

  function FieldTexts(fields: seq<string>): seq<string> {
    seq(|fields|, i requires 0 <= i < |fields| => FieldText(fields[i]))
  }

  function WriteAll(records: seq<seq<string>>): string {
    if records == [] then "" else Join(FieldTexts(records[0])) + ("\n" + WriteAll(records[1..]))
  }

  /** Calling readRecord until it reports the end of the input. */
  function ReadAll(text: string): Result<seq<seq<string>>>
    decreases |text|
  {
    match ReadFrom(text)
    case EndOfInput => Ok([])
    case Malformed(_) => InvalidArgument
    case Record(fields, rest) =>
      ScanShrinks(text, Start, "", [], false);
      After([fields], ReadAll(rest))
  }

  /** The records read first, and then what the rest of the input gives. */
  function After(first: seq<seq<string>>, more: Result<seq<seq<string>>>): Result<seq<seq<string>>> {
    match more
    case InvalidArgument => InvalidArgument
    case Ok(records) => Ok(first + records)
  }

  lemma AfterAfter(a: seq<seq<string>>, b: seq<seq<string>>, more: Result<seq<seq<string>>>)
    ensures After(a, After(b, more)) == After(a + b, more)
    ensures After([], more) == more
  {
    if more.Ok? {
      assert a + (b + more.value) == (a + b) + more.value;
      assert [] + more.value == more.value;
    }
  }

  lemma {:induction false} ScanShrinks(rest: string, state: State, value: string, fields: seq<string>, read: bool)
    ensures var r := Scan(rest, state, value, fields, read); r.Record? ==> |r.rest| <= |rest| && (!read ==> |r.rest| < |rest|)
    decreases |rest|
  {
    if rest != "" {
      var c, tail := rest[0], rest[1..];
      ScanShrinks(tail, AfterQuote, value, fields, true);
      ScanShrinks(tail, InQuotes, value, fields, true);
      ScanShrinks(tail, InQuotes, value + [c], fields, true);
      ScanShrinks(tail, InQuotes, value + "\"", fields, true);
      ScanShrinks(tail, Start, "", fields + [value], true);
      ScanShrinks(tail, Text, value + [c], fields, true);
    }
  }

  method ReadRecords(input: Stream) returns (r: Result<seq<seq<string>>>)
    modifies input
    ensures r == ReadAll(old(input.rest))
  {
    var records: seq<seq<string>> := [];
    ghost var text := input.rest;
    AfterAfter([], [], ReadAll(text));
    while true
      invariant ReadAll(text) == After(records, ReadAll(input.rest))
      decreases |input.rest|
    {
      ScanShrinks(input.rest, Start, "", [], false);
      var next := ReadRecord(input);
      match next
      case EndOfInput =>
        assert records + [] == records;
        return Ok(records);
      case Malformed(_) => return InvalidArgument;
      case Record(fields, _) =>
        AfterAfter(records, [fields], ReadAll(input.rest));
        records := records + [fields];
    }
  }

  /** What comes back for a record: a record without fields is written as an empty line, which is a
      record with one empty field. */
  function ReadBack(record: seq<string>): seq<string> {
    if record == [] then [""] else record
  }

  function ReadBackAll(records: seq<seq<string>>): seq<seq<string>> {
    if records == [] then [] else [ReadBack(records[0])] + ReadBackAll(records[1..])
  }

  lemma WrittenIsRecord(record: seq<string>, rest: string)
    ensures IsRecord(Join(FieldTexts(record)) + ("\n" + rest), ReadBack(record), rest)
  {
    var text := Join(FieldTexts(record)) + ("\n" + rest);
    if record == [] {
      assert Join([""]) == "";
      assert IsRecordAs(text, [""], rest, [""], "\n");
    } else {
      assert IsRecordAs(text, record, rest, FieldTexts(record), "\n");
    }
  }

  lemma {:induction false} WrittenIsReadBack(records: seq<seq<string>>)
    ensures ReadAll(WriteAll(records)) == Ok(ReadBackAll(records))
  {
    if records != [] {
      var rest := WriteAll(records[1..]);
      WrittenIsRecord(records[0], rest);
      ReadsEveryRecord(WriteAll(records), ReadBack(records[0]), rest);
      WrittenIsReadBack(records[1..]);
    }
  }

  lemma {:induction false} ReadBackAllAt(records: seq<seq<string>>, i: nat)
    requires i < |records|
    ensures |ReadBackAll(records)| == |records| && ReadBackAll(records)[i] == ReadBack(records[i])
  {
    ReadBackLength(records);
    if i > 0 { ReadBackAllAt(records[1..], i - 1); }
  }

  lemma {:induction false} ReadBackLength(records: seq<seq<string>>)
    ensures |ReadBackAll(records)| == |records|
  {
    if records != [] { ReadBackLength(records[1..]); }
  }

  /** Records of any strings at all come back as they were written, exactly when none of them is without
      fields. */
  lemma RoundTrip(records: seq<seq<string>>)
    ensures ReadAll(WriteAll(records)) == Ok(records) <==> forall i :: 0 <= i < |records| ==> records[i] != []
  {
    WrittenIsReadBack(records);
    ReadBackLength(records);
    forall i | 0 <= i < |records|
      ensures ReadBackAll(records)[i] == ReadBack(records[i])
    {
      ReadBackAllAt(records, i);
    }
    if forall i :: 0 <= i < |records| ==> records[i] != [] {
      assert ReadBackAll(records) == records;
    }
  }
}
