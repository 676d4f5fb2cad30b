/** The CSV export of a circle's activity, and a reference reader for section 2 of RFC 4180. */
module Csv {
  import opened Prelude

  // ----- Fields -----

  /** Leading characters a spreadsheet may take for a formula, with their full-width forms. */
  predicate Trigger(c: char) {
    c in "=+-@\t\r\U{FF1D}\U{FF0B}\U{FF0D}\U{FF20}"
  }

  function Neutralize(v: string): string {
    if v != "" && Trigger(v[0]) then "'" + v else v
  }

  predicate Special(c: char) {
    c == '"' || c == ',' || c == '\r' || c == '\n'
  }

  predicate NeedsQuotes(s: string) {
    s != "" && (Special(s[0]) || NeedsQuotes(s[1..]))
  }

  /** Every quote doubled. */
  function Doubled(s: string): string {
    if s == "" then "" else (if s[0] == '"' then "\"\"" else [s[0]]) + Doubled(s[1..])
  }

  function Escape(v: string): string {
    var text := Neutralize(v);
    if NeedsQuotes(text) then "\"" + Doubled(text) + "\"" else text
  }

  function Line(fields: seq<string>): string
    requires fields != []
  {
    if |fields| == 1 then Escape(fields[0]) else Escape(fields[0]) + "," + Line(fields[1..])
  }

  predicate Tabular(records: seq<seq<string>>) {
    forall i :: 0 <= i < |records| ==> records[i] != []
  }

  /** Every record on a line of its own, each line ended by CRLF. */
  function Lines(records: seq<seq<string>>): string
    requires Tabular(records)
  {
    if records == [] then "" else Line(records[0]) + "\r\n" + Lines(records[1..])
  }

  function NeutralizeAll(fields: seq<string>): (r: seq<string>)
    ensures |r| == |fields| && forall i :: 0 <= i < |r| ==> r[i] == Neutralize(fields[i])
  {
    if fields == [] then [] else [Neutralize(fields[0])] + NeutralizeAll(fields[1..])
  }

  function NeutralizeRecords(records: seq<seq<string>>): (r: seq<seq<string>>)
    ensures |r| == |records| && forall i :: 0 <= i < |r| ==> r[i] == NeutralizeAll(records[i])
  {
    if records == [] then [] else [NeutralizeAll(records[0])] + NeutralizeRecords(records[1..])
  }

  // ----- The reference reader -----

  /** The longest prefix without comma, quote, CR or LF. */
  function TextRun(s: string): (n: nat)
    ensures n <= |s|
  {
    if s == "" || Special(s[0]) then 0 else 1 + TextRun(s[1..])
  }

  /** The inside of a quoted field, up to its closing quote. */
  function ReadQuoted(s: string): (r: Option<(string, string)>)
    ensures r.Some? ==> |r.value.1| < |s|
    decreases |s|
  {
    if s == "" then None
    else if s[0] != '"' then
      match ReadQuoted(s[1..])
      case None => None
      case Some((v, rest)) => Some(([s[0]] + v, rest))
    else if |s| > 1 && s[1] == '"' then
      match ReadQuoted(s[2..])
      case None => None
      case Some((v, rest)) => Some((['"'] + v, rest))
    else Some(("", s[1..]))
  }

  function ReadField(s: string): (r: Option<(string, string)>)
    ensures r.Some? ==> |r.value.1| <= |s|
  {
    if s != "" && s[0] == '"' then ReadQuoted(s[1..])
    else Some((s[..TextRun(s)], s[TextRun(s)..]))
  }

  /** Fields separated by commas, up to a line break or the end. */
  function ReadRecord(s: string): (r: Option<(seq<string>, string)>)
    ensures r.Some? && s != "" ==> |r.value.1| < |s|
    ensures r.Some? ==> |r.value.1| <= |s|
    decreases |s|
  {
    match ReadField(s)
    case None => None
    case Some((v, rest)) =>
      if rest == "" then Some(([v], ""))
      else if rest[0] == ',' then (
        match ReadRecord(rest[1..])
        case None => None
        case Some((vs, end)) => Some(([v] + vs, end)))
      else if |rest| > 1 && rest[0] == '\r' && rest[1] == '\n' then Some(([v], rest[2..]))
      else None
  }

  function ReadDocument(s: string): Option<seq<seq<string>>>
    decreases |s|
  {
    if s == "" then Some([])
    else
      match ReadRecord(s)
      case None => None
      case Some((record, rest)) =>
        match ReadDocument(rest)
        case None => None
        case Some(records) => Some([record] + records)
  }

  // ----- Reading back what was written -----

  predicate EndsField(rest: string) {
    rest == "" || rest[0] == ',' || rest[0] == '\r'
  }

  lemma {:induction false} TextRunOf(text: string, rest: string)
    requires !NeedsQuotes(text) && EndsField(rest)
    ensures TextRun(text + rest) == |text|
  {
    if text == "" {
      assert text + rest == rest;
    } else {
      assert (text + rest)[1..] == text[1..] + rest;
      TextRunOf(text[1..], rest);
    }
  }

  lemma {:induction false} ReadDoubled(text: string, rest: string)
    requires EndsField(rest)
    ensures ReadQuoted(Doubled(text) + "\"" + rest) == Some((text, rest))
  {
    var s := Doubled(text) + "\"" + rest;
    if text == "" {
      assert s == "\"" + rest;
      assert s[1..] == rest;
    } else {
      ReadDoubled(text[1..], rest);
      var tail := Doubled(text[1..]) + "\"" + rest;
      assert [text[0]] + text[1..] == text;
      if text[0] == '"' {
        assert s == "\"\"" + tail;
        assert s[2..] == tail;
      } else {
        assert s == [text[0]] + tail;
        assert s[1..] == tail;
      }
    }
  }

  lemma {:induction false} ReadUnquoted(text: string, rest: string)
    requires !NeedsQuotes(text) && EndsField(rest)
    ensures ReadField(text + rest) == Some((text, rest))
  {
    TextRunOf(text, rest);
    assert (text + rest)[..|text|] == text && (text + rest)[|text|..] == rest;
  }

  lemma {:induction false} ReadOpened(inner: string, text: string, rest: string)
    requires ReadQuoted(inner) == Some((text, rest))
    ensures ReadField("\"" + inner) == Some((text, rest))
  {
    assert ("\"" + inner)[1..] == inner;
  }

  lemma {:induction false} Prepended(a: string, b: string, c: string, d: string)
    ensures a + b + c + d == a + (b + c + d)
  {
  }

  lemma {:induction false} ReadQuotedText(text: string, rest: string)
    requires EndsField(rest)
    ensures ReadField("\"" + Doubled(text) + "\"" + rest) == Some((text, rest))
  {
    ReadDoubled(text, rest);
    ReadOpened(Doubled(text) + "\"" + rest, text, rest);
    Prepended("\"", Doubled(text), "\"", rest);
  }

  /** A written field reads back as its neutralised value, whatever follows it. */
  lemma {:induction false} ReadEscaped(v: string, rest: string)
    requires EndsField(rest)
    ensures ReadField(Escape(v) + rest) == Some((Neutralize(v), rest))
  {
    if NeedsQuotes(Neutralize(v)) {
      ReadQuotedText(Neutralize(v), rest);
    } else {
      ReadUnquoted(Neutralize(v), rest);
    }
  }

  lemma {:induction false} Regroup(a: string, b: string, c: string, d: string, e: string)
    ensures (a + b + c) + d + e == a + (b + (c + d + e))
  {
  }

  lemma {:induction false} LineSplits(fields: seq<string>, rest: string)
    requires |fields| > 1
    ensures Line(fields) + "\r\n" + rest == Escape(fields[0]) + ("," + (Line(fields[1..]) + "\r\n" + rest))
  {
    Regroup(Escape(fields[0]), ",", Line(fields[1..]), "\r\n", rest);
  }

  lemma {:induction false} ReadSingle(fields: seq<string>, rest: string)
    requires |fields| == 1
    ensures ReadRecord(Line(fields) + "\r\n" + rest) == Some((NeutralizeAll(fields), rest))
  {
    ReadEscaped(fields[0], "\r\n" + rest);
    assert Line(fields) + "\r\n" + rest == Escape(fields[0]) + ("\r\n" + rest);
    assert NeutralizeAll(fields) == [Neutralize(fields[0])];
  }

  lemma {:induction false} ReadLine(fields: seq<string>, rest: string)
    requires fields != []
    ensures ReadRecord(Line(fields) + "\r\n" + rest) == Some((NeutralizeAll(fields), rest))
  {
    if |fields| == 1 {
      ReadSingle(fields, rest);
    } else {
      var tail := Line(fields[1..]) + "\r\n" + rest;
      ReadLine(fields[1..], rest);
      LineSplits(fields, rest);
      ReadEscaped(fields[0], "," + tail);
    }
  }

  /** The document reads back as the neutralised records. */
  lemma {:induction false} ReadLines(records: seq<seq<string>>)
    requires Tabular(records)
    ensures ReadDocument(Lines(records)) == Some(NeutralizeRecords(records))
  {
    if records != [] {
      ReadLine(records[0], Lines(records[1..]));
      ReadLines(records[1..]);
    }
  }

  lemma {:induction false} NeutralizedIsInert(v: string)
    ensures Neutralize(v) != "" ==> !Trigger(Neutralize(v)[0])
    ensures Neutralize(v) == v || Neutralize(v) == "'" + v
  {
  }

  /** A field no spreadsheet would take for a formula. */
  predicate Inert(v: string) {
    v == "" || !Trigger(v[0])
  }

  lemma {:induction false} KeptExactly(v: string)
    ensures Neutralize(v) == v <==> Inert(v)
  {
    if !Inert(v) {
      assert |Neutralize(v)| == |v| + 1;
    }
  }

  lemma {:induction false} ApostropheCancels(v: string, w: string)
    ensures "'" + v == "'" + w <==> v == w
  {
    assert ("'" + v)[1..] == v && ("'" + w)[1..] == w;
  }

  /**
   * Two different values read the same exactly when one is a value at risk and the other is that value behind
   * an apostrophe of its own.
   */
  lemma {:induction false} NeutralizeCollidesExactly(v: string, w: string)
    ensures Neutralize(v) == Neutralize(w)
       <==> v == w || (!Inert(v) && w == "'" + v) || (!Inert(w) && v == "'" + w)
  {
    ApostropheCancels(v, w);
  }

  /** So neutralising is not injective. */
  lemma {:induction false} NeutralizeCollides()
    ensures Neutralize("=x") == Neutralize("'=x")
  {
  }
}
