/** splitCsvLine, and the rows that writePprCsv writes. */
module SeedRows {
  import opened CsvFormat
  import opened CsvRecords

  function SplitFrom(rest: string, inQuotes: bool, cur: string, out: seq<string>): seq<string>
    decreases |rest|
  {
    if rest == "" then out + [cur]
    else
      var c, tail := rest[0], rest[1..];
      if inQuotes then
        if c == '"' then
          if StartsWith(tail, '"') then SplitFrom(tail[1..], true, cur + "\"", out) else SplitFrom(tail, false, cur, out)
        else SplitFrom(tail, true, cur + [c], out)
      else if c == '"' then SplitFrom(tail, true, cur, out)
      else if c == ',' then SplitFrom(tail, false, "", out + [cur])
      else if c == '\r' then SplitFrom(tail, false, cur, out)
      else SplitFrom(tail, false, cur + [c], out)
  }

  function Split(line: string): seq<string> {
    SplitFrom(line, false, "", [])
  }

  method SplitCsvLine(line: string) returns (out: seq<string>)
    ensures out == Split(line)
  {
    out := [];
    var cur, inQuotes := "", false;
    var i := 0;
    while i < |line|
      invariant i <= |line|
      invariant SplitFrom(line[i..], inQuotes, cur, out) == Split(line)
    {
      var c := line[i];
      assert line[i..][0] == c && line[i..][1..] == line[i + 1..];
      if inQuotes {
        if c == '"' {
          if i + 1 < |line| && line[i + 1] == '"' {
            assert line[i + 1..][1..] == line[i + 2..];
            cur := cur + "\"";
            i := i + 1;
          } else {
            inQuotes := false;
          }
        } else {
          cur := cur + [c];
        }
      } else if c == '"' {
        inQuotes := true;
      } else if c == ',' {
        out := out + [cur];
        cur := "";
      } else if c != '\r' {
        cur := cur + [c];
      }
      i := i + 1;
    }
    out := out + [cur];
  }

  lemma {:induction false} PlainSplit(t: string, tail: string, cur: string, out: seq<string>)
    requires Plain(t)
    ensures SplitFrom(t + tail, false, cur, out) == SplitFrom(tail, false, cur + t, out)
  {
    if t == "" {
      assert t + tail == tail && cur + t == cur;
    } else {
      assert (t + tail)[0] == t[0] && (t + tail)[1..] == t[1..] + tail;
      assert !Special(t[0]);
      PlainSplit(t[1..], tail, cur + [t[0]], out);
      Shift(cur, t);
    }
  }

  lemma QuotedSplitStep(c: char, more: string, cur: string, out: seq<string>)
    ensures SplitFrom((if c == '"' then "\"\"" else [c]) + more, true, cur, out) ==
            SplitFrom(more, true, cur + [c], out)
  {
    if c == '"' {
      var second := "\"" + more;
      assert ("\"\"" + more)[1..] == second && second[1..] == more;
    } else {
      assert ([c] + more)[1..] == more;
    }
  }

  lemma {:induction false} QuotedSplit(v: string, tail: string, cur: string, out: seq<string>)
    ensures SplitFrom(Doubled(v) + tail, true, cur, out) == SplitFrom(tail, true, cur + v, out)
  {
    hide SplitFrom, Doubled;
    if v == "" {
      Nothing(tail, cur);
    } else {
      var more := Doubled(v[1..]) + tail;
      DoubledHead(v, tail);
      QuotedSplitStep(v[0], more, cur, out);
      QuotedSplit(v[1..], tail, cur + [v[0]], out);
      Shift(cur, v);
    }
  }

  lemma FieldSplit(field: string, text: string, tail: string, out: seq<string>)
    requires Rendered(field, text) && !StartsWith(tail, '"')
    ensures SplitFrom(text + tail, false, "", out) == SplitFrom(tail, false, field, out)
  {
    if Plain(field) && text == field {
      PlainSplit(text, tail, "", out);
      assert "" + text == field;
    } else {
      var closing := "\"" + tail;
      assert (text + tail)[1..] == Doubled(field) + closing;
      QuotedSplit(field, closing, "", out);
      assert closing[1..] == tail && "" + field == field;
    }
  }

  lemma {:induction false} PrefixSplit(texts: seq<string>, fields: seq<string>, tail: string)
    requires AllRendered(fields, texts)
    ensures Split(Prefix(texts) + tail) == SplitFrom(tail, false, "", fields)
  {
    if texts == [] {
      assert Prefix(texts) + tail == tail;
    } else {
      var n := |texts| - 1;
      var comma := "," + tail;
      assert Prefix(texts) + tail == Prefix(texts[..n]) + (texts[n] + comma);
      PrefixSplit(texts[..n], fields[..n], texts[n] + comma);
      FieldSplit(fields[n], texts[n], comma, fields[..n]);
      assert comma[1..] == tail && fields[..n] + [fields[n]] == fields;
    }
  }

  /** On a line that holds one record, however it is written, the splitter returns the fields of the record, with
      or without a carriage return at the end. */
  lemma SplitsEveryRecord(fields: seq<string>, texts: seq<string>, eol: string)
    requires fields != [] && AllRendered(fields, texts) && (eol == "" || eol == "\r")
    ensures Split(Join(texts) + eol) == fields
  {
    var n := |texts| - 1;
    assert Join(texts) + eol == Prefix(texts[..n]) + (texts[n] + eol);
    PrefixSplit(texts[..n], fields[..n], texts[n] + eol);
    FieldSplit(fields[n], texts[n], eol, fields[..n]);
    assert fields[..n] + [fields[n]] == fields;
    if eol == "\r" { assert eol[1..] == ""; }
  }

  // ---- Rows of writePprCsv ---------------------------------------------------------------

  /** A row without its line feed; the number is printed without special characters. */
  function Row(fileId: string, number: string): string {
    FieldText(fileId) + "," + number
  }

  method WriteRow(fileId: string, number: string) returns (row: string)
    ensures row == Row(fileId, number) + "\n"
  {
    row := "";
    var needsQuotes := !Plain(fileId);
    if needsQuotes {
      row := row + "\"";
      for i := 0 to |fileId|
        invariant row == "\"" + Doubled(fileId[..i])
      {
        assert fileId[..i + 1] == fileId[..i] + [fileId[i]];
        DoubledConcat(fileId[..i], [fileId[i]]);
        if fileId[i] == '"' { row := row + "\""; }
        row := row + [fileId[i]];
      }
      assert fileId[..|fileId|] == fileId;
      row := row + "\"";
    } else {
      row := row + fileId;
    }
    row := row + "," + number + "\n";
  }

  /** Given the whole row, the splitter recovers any file id. */
  lemma RowRoundTrip(fileId: string, number: string)
    requires Plain(number)
    ensures Split(Row(fileId, number)) == [fileId, number]
  {
    var texts := [FieldText(fileId), number];
    JoinTwo(texts);
    assert Join(texts) + "" == Row(fileId, number);
    SplitsEveryRecord([fileId, number], texts, "");
  }

  /** What std::getline hands over: the text before the first line feed. */
  function FirstLine(text: string): string {
    if text == "" || text[0] == '\n' then "" else [text[0]] + FirstLine(text[1..])
  }

  lemma {:induction false} FirstLineOf(a: string, b: string)
    requires '\n' !in a
    ensures FirstLine(a + ("\n" + b)) == a
  {
    if a == "" {
      assert a + ("\n" + b) == "\n" + b;
    } else {
      assert (a + ("\n" + b))[1..] == a[1..] + ("\n" + b);
      FirstLineOf(a[1..], b);
    }
  }

  lemma {:induction false} DoubledKeepsLines(v: string)
    requires '\n' !in v
    ensures '\n' !in Doubled(v)
  {
    if v != "" { DoubledKeepsLines(v[1..]); }
  }

  lemma {:induction false} FirstBreak(v: string) returns (i: nat)
    requires '\n' in v
    ensures i < |v| && v[i] == '\n' && '\n' !in v[..i]
  {
    if v[0] == '\n' {
      i := 0;
    } else {
      var j := FirstBreak(v[1..]);
      assert v[..j + 1] == [v[0]] + v[1..][..j];
      i := j + 1;
    }
  }

  /** A reader that takes the file line by line recovers the file id of a row exactly when the id holds no line
      feed: otherwise the row is cut inside its quotes and has one field. */
  lemma LineRoundTrip(fileId: string, number: string, more: string)
    requires Plain(number)
    ensures Split(FirstLine(Row(fileId, number) + ("\n" + more))) == [fileId, number] <==> '\n' !in fileId
  {
    var row := Row(fileId, number);
    if '\n' !in fileId {
      DoubledKeepsLines(fileId);
      assert '\n' !in row;
      FirstLineOf(row, more);
      RowRoundTrip(fileId, number);
    } else {
      var i := FirstBreak(fileId);
      var pre, post := fileId[..i], fileId[i + 1..];
      assert fileId == pre + ("\n" + post);
      assert Special(fileId[i]);
      DoubledConcat(pre, "\n" + post);
      var cut := "\"" + Doubled(pre);
      var after := Doubled(post) + ("\"," + number + "\n" + more);
      CutRow(pre, post, number, more);
      DoubledKeepsLines(pre);
      assert '\n' !in cut;
      FirstLineOf(cut, after);
      CutSplit(pre);
    }
  }

  lemma CutRow(pre: string, post: string, number: string, more: string)
    ensures Row(pre + ("\n" + post), number) + ("\n" + more) ==
            "\"" + Doubled(pre) + ("\n" + (Doubled(post) + ("\"," + number + "\n" + more)))
  {
    var id := pre + ("\n" + post);
    assert Special(id[|pre|]);
    DoubledConcat(pre, "\n" + post);
    assert ("\n" + post)[1..] == post;
    var a, b, tail := Doubled(pre), Doubled(post), number + ("\n" + more);
    assert Doubled(id) == a + ("\n" + b);
    hide Doubled;
    Regroup(a, b, number, more);
  }

  lemma Regroup(a: string, b: string, number: string, more: string)
    ensures ("\"" + (a + ("\n" + b)) + "\"") + "," + number + ("\n" + more) ==
            "\"" + a + ("\n" + (b + ("\"," + number + "\n" + more)))
  {
    assert "\"" + (a + ("\n" + b)) + "\"" == ("\"" + a) + ("\n" + (b + "\""));
  }

  lemma CutSplit(pre: string)
    ensures Split("\"" + Doubled(pre)) == [pre]
  {
    var cut := "\"" + Doubled(pre);
    assert cut[1..] == Doubled(pre) + "";
    QuotedSplit(pre, "", "", []);
    assert "" + pre == pre;
  }
}
