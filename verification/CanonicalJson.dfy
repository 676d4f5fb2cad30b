/** Canonical JSON text: object keys sorted, undefined members dropped, no white space. */
module CanonicalJson {
  import opened Prelude
  import opened Lex
  import opened Sorting
  import opened Digits

  /** A JavaScript value of the JSON kinds; numbers are kept as their text. */
  datatype Json =
    | Null | Bool(b: bool) | Number(text: string) | Str(s: string)
    | Array(items: seq<Item>)
    | Object(members: seq<Member>)

  datatype Item = Undefined | Defined(value: Json)

  datatype Member = Member(key: string, item: Item)

  /** The same with undefined members dropped and entries sorted; a hole is an undefined array item. */
  datatype Norm =
    | NNull | NBool(b: bool) | NNumber(text: string) | NStr(s: string) | Hole
    | NArray(items: seq<Norm>)
    | NObject(entries: seq<Entry>)

  datatype Entry = Entry(key: string, value: Norm)

  function EntryLe(a: Entry, b: Entry): bool {
    StringLe(a.key, b.key)
  }

  function Normal(v: Json): Norm
    decreases v
  {
    match v
    case Null => NNull
    case Bool(b) => NBool(b)
    case Number(text) => NNumber(text)
    case Str(s) => NStr(s)
    case Array(items) => NArray(NormalItems(items))
    case Object(members) => NObject(Sort(EntryLe, NormalEntries(members)))
  }

  function NormalItems(items: seq<Item>): (r: seq<Norm>)
    ensures |r| == |items|
    decreases items
  {
    if items == [] then []
    else
      var last := items[|items| - 1];
      assert items decreases to last;
      NormalItems(items[..|items| - 1]) + [if last.Undefined? then Hole else Normal(last.value)]
  }

  function NormalEntries(members: seq<Member>): seq<Entry>
    decreases members
  {
    if members == [] then []
    else
      var last := members[|members| - 1];
      NormalEntries(members[..|members| - 1]) + if last.item.Undefined? then [] else [Entry(last.key, Normal(last.item.value))]
  }

  // ----- Text -----

  function HexDigit(d: nat): char
    requires d < 16
  {
    if d < 10 then '0' + d as char else 'a' + (d - 10) as char
  }

  function EscapeChar(c: char): string {
    match c
    case '"' => "\\\""
    case '\\' => "\\\\"
    case '\n' => "\\n"
    case '\r' => "\\r"
    case '\t' => "\\t"
    case '\U{8}' => "\\b"
    case '\U{c}' => "\\f"
    case _ => if c < ' ' then "\\u00" + [HexDigit(c as nat / 16), HexDigit(c as nat % 16)] else [c]
  }

  function EscapeAll(s: string): string {
    if s == "" then "" else EscapeChar(s[0]) + EscapeAll(s[1..])
  }

  function Quote(s: string): string {
    "\"" + EscapeAll(s) + "\""
  }

  function Print(n: Norm): string {
    match n
    case NNull => "null"
    case NBool(b) => if b then "true" else "false"
    case NNumber(text) => text
    case NStr(s) => Quote(s)
    case Hole => ""
    case NArray(items) => "[" + PrintItems(items) + "]"
    case NObject(entries) => "{" + PrintEntries(entries) + "}"
  }

  function PrintItems(items: seq<Norm>): string {
    if items == [] then ""
    else if |items| == 1 then Print(items[0])
    else Print(items[0]) + "," + PrintItems(items[1..])
  }

  function PrintEntry(e: Entry): string {
    Quote(e.key) + ":" + Print(e.value)
  }

  function PrintEntries(entries: seq<Entry>): string {
    if entries == [] then ""
    else if |entries| == 1 then PrintEntry(entries[0])
    else PrintEntry(entries[0]) + "," + PrintEntries(entries[1..])
  }

  function Canonical(v: Json): string {
    Print(Normal(v))
  }

  // ----- A reader for that text -----

  predicate NumberChar(c: char) {
    IsDigit(c) || c in "+-.eE"
  }

  function NumberRun(s: string): (n: nat)
    ensures n <= |s|
  {
    if s == "" || !NumberChar(s[0]) then 0 else 1 + NumberRun(s[1..])
  }

  function Unhex(c: char): Option<nat> {
    if '0' <= c <= '9' then Some((c - '0') as nat) else if 'a' <= c <= 'f' then Some(10 + (c - 'a') as nat) else None
  }

  /** One character of a quoted text, and how many characters spell it. */
  function ReadChar(s: string): (r: Option<(char, nat)>)
    ensures r.Some? ==> 0 < r.value.1 <= |s|
  {
    if s == "" || s[0] == '"' then None
    else if s[0] != '\\' then Some((s[0], 1))
    else if |s| == 1 then None
    else
      match s[1]
      case '"' => Some(('"', 2))
      case '\\' => Some(('\\', 2))
      case 'n' => Some(('\n', 2))
      case 'r' => Some(('\r', 2))
      case 't' => Some(('\t', 2))
      case 'b' => Some(('\U{8}', 2))
      case 'f' => Some(('\U{c}', 2))
      case 'u' =>
        if |s| >= 6 && s[2..4] == "00" && Unhex(s[4]).Some? && Unhex(s[5]).Some? then
          Some(((16 * Unhex(s[4]).value + Unhex(s[5]).value) as char, 6))
        else None
      case _ => None
  }

  function ReadChars(s: string): (r: Option<(string, string)>)
    ensures r.Some? ==> |r.value.1| < |s|
    decreases |s|
  {
    if s != "" && s[0] == '"' then Some(("", s[1..]))
    else
      match ReadChar(s)
      case None => None
      case Some((c, n)) =>
        match ReadChars(s[n..])
        case None => None
        case Some((text, rest)) => Some(([c] + text, rest))
  }

  function ReadWord(s: string, word: string, n: Norm): (r: Option<(Norm, string)>)
    requires word != ""
    ensures r.Some? ==> |r.value.1| < |s|
  {
    if word <= s then Some((n, s[|word|..])) else None
  }

  function ReadValue(s: string): (r: Option<(Norm, string)>)
    ensures r.Some? ==> |r.value.1| < |s|
    decreases |s|, 0
  {
    if s == "" then None
    else
      match s[0]
      case 'n' => ReadWord(s, "null", NNull)
      case 't' => ReadWord(s, "true", NBool(true))
      case 'f' => ReadWord(s, "false", NBool(false))
      case '"' => (
        match ReadChars(s[1..])
        case None => None
        case Some((text, rest)) => Some((NStr(text), rest)))
      case '[' =>
        if |s| > 1 && s[1] == ']' then Some((NArray([]), s[2..]))
        else (
          match ReadItems(s[1..])
          case None => None
          case Some((items, rest)) => Some((NArray(items), rest)))
      case '{' =>
        if |s| > 1 && s[1] == '}' then Some((NObject([]), s[2..]))
        else (
          match ReadEntries(s[1..])
          case None => None
          case Some((entries, rest)) => Some((NObject(entries), rest)))
      case _ =>
        if NumberRun(s) > 0 then Some((NNumber(s[..NumberRun(s)]), s[NumberRun(s)..])) else None
  }

  /** An array item; nothing before the comma or bracket is a hole. */
  function ReadItem(s: string): (r: Option<(Norm, string)>)
    ensures r.Some? ==> |r.value.1| <= |s|
    decreases |s|, 1
  {
    if s != "" && (s[0] == ',' || s[0] == ']') then Some((Hole, s)) else ReadValue(s)
  }

  function ReadItems(s: string): (r: Option<(seq<Norm>, string)>)
    ensures r.Some? ==> |r.value.1| < |s|
    decreases |s|, 2
  {
    match ReadItem(s)
    case None => None
    case Some((n, rest)) =>
      if rest != "" && rest[0] == ']' then Some(([n], rest[1..]))
      else if rest != "" && rest[0] == ',' then (
        match ReadItems(rest[1..])
        case None => None
        case Some((ns, end)) => Some(([n] + ns, end)))
      else None
  }

  function ReadEntry(s: string): (r: Option<(Entry, string)>)
    ensures r.Some? ==> |r.value.1| < |s|
    decreases |s|, 1
  {
    if s == "" || s[0] != '"' then None
    else
      match ReadChars(s[1..])
      case None => None
      case Some((key, rest)) =>
        if rest == "" || rest[0] != ':' then None
        else
          match ReadValue(rest[1..])
          case None => None
          case Some((n, end)) => Some((Entry(key, n), end))
  }

  function ReadEntries(s: string): (r: Option<(seq<Entry>, string)>)
    ensures r.Some? ==> |r.value.1| < |s|
    decreases |s|, 2
  {
    match ReadEntry(s)
    case None => None
    case Some((e, rest)) =>
      if rest != "" && rest[0] == '}' then Some(([e], rest[1..]))
      else if rest != "" && rest[0] == ',' then (
        match ReadEntries(rest[1..])
        case None => None
        case Some((es, end)) => Some(([e] + es, end)))
      else None
  }

  // ----- The text determines the normal form -----

  predicate IsNumber(text: string) {
    text != "" && NumberRun(text) == |text|
  }

  /** No array is exactly `[undefined]`, and number texts are number tokens. */
  predicate Legible(n: Norm) {
    match n
    case NNumber(text) => IsNumber(text)
    case NArray(items) => items != [Hole] && forall i :: 0 <= i < |items| ==> Legible(items[i])
    case NObject(entries) => forall i :: 0 <= i < |entries| ==> Legible(entries[i].value) && !entries[i].value.Hole?
    case _ => true
  }

  predicate Ends(rest: string) {
    rest == "" || rest[0] in ",]}"
  }

  lemma {:induction false} HexReads(d: nat)
    requires d < 16
    ensures Unhex(HexDigit(d)) == Some(d)
  {
  }

  /** Quotes, backslashes and the five controls with a letter take two characters, other controls six, the rest one. */
  lemma {:induction false} EscapeLength(c: char)
    ensures |EscapeChar(c)| == if c in "\"\\\n\r\t\U{8}\U{c}" then 2 else if c < '\U{20}' then 6 else 1
  {
  }

  /** Number texts: any non-empty run of the characters that decimal and exponent notation use. */
  lemma {:induction false} IsNumberExactly(text: string)
    ensures IsNumber(text) <==> text != "" && forall i :: 0 <= i < |text| ==> '0' <= text[i] <= '9' || text[i] in "+-.eE"
  {
    NumberRunExactly(text);
  }

  lemma {:induction false} NumberRunExactly(text: string)
    ensures NumberRun(text) == |text| <==> forall i :: 0 <= i < |text| ==> '0' <= text[i] <= '9' || text[i] in "+-.eE"
  {
    if text != "" {
      NumberRunExactly(text[1..]);
      assert forall i :: 1 <= i < |text| ==> text[1..][i - 1] == text[i];
    }
  }

  lemma {:induction false} ReadEscapedChar(c: char, tail: string)
    ensures ReadChar(EscapeChar(c) + tail) == Some((c, |EscapeChar(c)|))
    ensures EscapeChar(c) != "" && EscapeChar(c)[0] != '"'
  {
    if c < ' ' {
      ReadControlChar(c, tail);
    } else {
      ReadGraphicChar(c, tail);
    }
  }

  lemma {:induction false} ReadControlChar(c: char, tail: string)
    requires c < ' '
    ensures ReadChar(EscapeChar(c) + tail) == Some((c, |EscapeChar(c)|))
    ensures EscapeChar(c) != "" && EscapeChar(c)[0] != '"'
  {
    HexReads(c as nat / 16);
    HexReads(c as nat % 16);
    var s := EscapeChar(c) + tail;
    if |EscapeChar(c)| == 6 {
      assert s[2..4] == "00";
      assert s[4] == HexDigit(c as nat / 16) && s[5] == HexDigit(c as nat % 16);
    }
  }

  lemma {:induction false} ReadGraphicChar(c: char, tail: string)
    requires c >= ' '
    ensures ReadChar(EscapeChar(c) + tail) == Some((c, |EscapeChar(c)|))
    ensures EscapeChar(c) != "" && EscapeChar(c)[0] != '"'
  {
  }

  lemma {:induction false} ReadNextChar(c: char, tail: string, text: string, rest: string)
    requires ReadChars(tail) == Some((text, rest))
    ensures ReadChars(EscapeChar(c) + tail) == Some(([c] + text, rest))
  {
    ReadEscapedChar(c, tail);
    assert (EscapeChar(c) + tail)[|EscapeChar(c)|..] == tail;
  }

  lemma {:induction false} Shifted(a: string, b: string, c: string, d: string)
    ensures (a + b) + c + d == a + (b + c + d)
  {
  }

  lemma {:induction false} ReadEscaped(text: string, rest: string)
    ensures ReadChars(EscapeAll(text) + "\"" + rest) == Some((text, rest))
  {
    if text == "" {
      assert EscapeAll(text) + "\"" + rest == "\"" + rest;
      assert ("\"" + rest)[1..] == rest;
    } else {
      var tail := EscapeAll(text[1..]) + "\"" + rest;
      ReadEscaped(text[1..], rest);
      Shifted(EscapeChar(text[0]), EscapeAll(text[1..]), "\"", rest);
      ReadNextChar(text[0], tail, text[1..], rest);
      assert text == [text[0]] + text[1..];
    }
  }

  lemma {:induction false} NumberRunOf(text: string, rest: string)
    requires NumberRun(text) == |text| && Ends(rest)
    ensures NumberRun(text + rest) == |text|
  {
    if text == "" {
      assert text + rest == rest;
    } else {
      assert (text + rest)[1..] == text[1..] + rest;
      NumberRunOf(text[1..], rest);
    }
  }

  lemma {:induction false} ReadPrintedWord(word: string, n: Norm, rest: string)
    requires word != ""
    ensures ReadWord(word + rest, word, n) == Some((n, rest))
  {
    assert (word + rest)[|word|..] == rest;
  }

  lemma {:induction false} ReadPrintedNumber(text: string, rest: string)
    requires IsNumber(text) && Ends(rest)
    ensures ReadValue(text + rest) == Some((NNumber(text), rest))
  {
    NumberRunOf(text, rest);
    assert NumberChar((text + rest)[0]);
    assert (text + rest)[..|text|] == text && (text + rest)[|text|..] == rest;
  }

  lemma {:induction false} ReadPrintedString(text: string, rest: string)
    ensures ReadValue(Quote(text) + rest) == Some((NStr(text), rest))
  {
    ReadEscaped(text, rest);
    ReadQuoted(EscapeAll(text) + "\"" + rest, text, rest);
    Enclosed("\"", EscapeAll(text), "\"", rest);
  }

  lemma {:induction false} Enclosed(a: string, b: string, c: string, d: string)
    ensures (a + b + c) + d == a + (b + c + d)
  {
  }

  lemma {:induction false} ReadQuoted(inner: string, text: string, rest: string)
    requires ReadChars(inner) == Some((text, rest))
    ensures ReadValue("\"" + inner) == Some((NStr(text), rest))
  {
    assert ("\"" + inner)[1..] == inner;
  }

  lemma {:induction false} ReadEmpty(rest: string)
    ensures ReadValue("[]" + rest) == Some((NArray([]), rest))
    ensures ReadValue("{}" + rest) == Some((NObject([]), rest))
  {
    assert ("[]" + rest)[2..] == rest && ("{}" + rest)[2..] == rest;
  }

  lemma {:induction false} ReadNextEntry(s: string, e: Entry, tail: string, es: seq<Entry>, end: string)
    requires ReadEntry(s) == Some((e, "," + tail)) && ReadEntries(tail) == Some((es, end))
    ensures ReadEntries(s) == Some(([e] + es, end))
  {
    assert ("," + tail)[1..] == tail;
  }

  lemma {:induction false} ReadKeyAndValue(key: string, after: string, n: Norm, end: string)
    requires ReadValue(after) == Some((n, end))
    ensures ReadEntry(Quote(key) + ":" + after) == Some((Entry(key, n), end))
  {
    ReadEscaped(key, ":" + after);
    Keyed("\"", EscapeAll(key), "\"", ":", after);
    ReadOpened(EscapeAll(key) + "\"" + (":" + after), key, after, n, end);
  }

  lemma {:induction false} Keyed(a: string, b: string, c: string, d: string, e: string)
    ensures (a + b + c) + d + e == a + (b + c + (d + e))
  {
  }

  lemma {:induction false} ReadOpened(inner: string, key: string, after: string, n: Norm, end: string)
    requires ReadChars(inner) == Some((key, ":" + after)) && ReadValue(after) == Some((n, end))
    ensures ReadEntry("\"" + inner) == Some((Entry(key, n), end))
  {
    assert ("\"" + inner)[1..] == inner && (":" + after)[1..] == after;
  }

  ghost predicate LegibleItems(items: seq<Norm>) {
    forall i :: 0 <= i < |items| ==> Legible(items[i])
  }

  ghost predicate LegibleEntries(entries: seq<Entry>) {
    forall i :: 0 <= i < |entries| ==> Legible(entries[i].value) && !entries[i].value.Hole?
  }

  /** A printed value reads back as itself, whatever follows it. */
  lemma {:induction false} ReadPrinted(n: Norm, rest: string)
    requires Legible(n) && !n.Hole? && Ends(rest)
    ensures ReadValue(Print(n) + rest) == Some((n, rest))
    decreases n, 1
  {
    match n
    case NNull => ReadPrintedWord("null", n, rest);
    case NBool(b) => ReadPrintedWord(if b then "true" else "false", n, rest);
    case NNumber(text) => ReadPrintedNumber(text, rest);
    case NStr(s) => ReadPrintedString(s, rest);
    case NArray(items) => ReadPrintedArray(n, rest);
    case NObject(entries) => ReadPrintedObject(n, rest);
  }

  lemma {:induction false} ReadPrintedArray(n: Norm, rest: string)
    requires Legible(n) && n.NArray? && Ends(rest)
    ensures ReadValue(Print(n) + rest) == Some((n, rest))
    decreases n, 0
  {
    if n.items == [] {
      ReadEmpty(rest);
      assert Print(n) == "[]";
    } else {
      ReadPrintedItems(n.items, rest);
      assert Print(n) + rest == "[" + (PrintItems(n.items) + ("]" + rest));
    }
  }

  lemma {:induction false} ReadPrintedObject(n: Norm, rest: string)
    requires Legible(n) && n.NObject? && Ends(rest)
    ensures ReadValue(Print(n) + rest) == Some((n, rest))
    decreases n, 0
  {
    if n.entries == [] {
      ReadEmpty(rest);
      assert Print(n) == "{}";
    } else {
      ReadPrintedEntries(n.entries, rest);
      ObjectText(n.entries, rest);
    }
  }

  lemma {:induction false} ObjectText(entries: seq<Entry>, rest: string)
    ensures Print(NObject(entries)) + rest == "{" + (PrintEntries(entries) + ("}" + rest))
  {
  }

  lemma {:induction false} ReadPrintedItem(n: Norm, rest: string)
    requires Legible(n) && rest != "" && (rest[0] == ',' || rest[0] == ']')
    ensures ReadItem(Print(n) + rest) == Some((n, rest))
    decreases n, 2
  {
    if n.Hole? {
      assert Print(n) + rest == rest;
    } else {
      ReadPrinted(n, rest);
    }
  }

  lemma {:induction false} Regroup(a: string, b: string, c: string, d: string)
    ensures (a + b + c) + d == a + (b + (c + d))
  {
  }

  lemma {:induction false} ItemsSplit(items: seq<Norm>, rest: string)
    requires |items| > 1
    ensures PrintItems(items) + ("]" + rest) == Print(items[0]) + ("," + (PrintItems(items[1..]) + ("]" + rest)))
  {
    Regroup(Print(items[0]), ",", PrintItems(items[1..]), "]" + rest);
  }

  lemma {:induction false} ReadPrintedItems(items: seq<Norm>, rest: string)
    requires items != [] && LegibleItems(items)
    ensures ReadItems(PrintItems(items) + ("]" + rest)) == Some((items, rest))
    decreases items, 0
  {
    var s := PrintItems(items) + ("]" + rest);
    if |items| == 1 {
      ReadPrintedItem(items[0], "]" + rest);
      ReadLastItem(s, items[0], rest);
      assert items == [items[0]];
    } else {
      var tail := PrintItems(items[1..]) + ("]" + rest);
      ReadPrintedItems(items[1..], rest);
      ReadPrintedItem(items[0], "," + tail);
      ItemsSplit(items, rest);
      ReadNextItem(s, items[0], tail, items[1..], rest);
      assert [items[0]] + items[1..] == items;
    }
  }

  lemma {:induction false} ReadLastItem(s: string, n: Norm, rest: string)
    requires ReadItem(s) == Some((n, "]" + rest))
    ensures ReadItems(s) == Some(([n], rest))
  {
    assert ("]" + rest)[1..] == rest;
  }

  lemma {:induction false} ReadNextItem(s: string, n: Norm, tail: string, ns: seq<Norm>, end: string)
    requires ReadItem(s) == Some((n, "," + tail)) && ReadItems(tail) == Some((ns, end))
    ensures ReadItems(s) == Some(([n] + ns, end))
  {
    assert ("," + tail)[1..] == tail;
  }

  lemma {:induction false} Followed(a: string, b: string, c: string, d: string)
    ensures (a + b + c) + d == a + b + (c + d)
  {
  }

  lemma {:induction false} ReadPrintedEntry(e: Entry, rest: string)
    requires Legible(e.value) && !e.value.Hole? && Ends(rest)
    ensures ReadEntry(PrintEntry(e) + rest) == Some((e, rest))
    decreases e, 2
  {
    ReadPrinted(e.value, rest);
    ReadKeyAndValue(e.key, Print(e.value) + rest, e.value, rest);
    Followed(Quote(e.key), ":", Print(e.value), rest);
  }

  lemma {:induction false} EntriesSplit(entries: seq<Entry>, rest: string)
    requires |entries| > 1
    ensures PrintEntries(entries) + ("}" + rest)
         == PrintEntry(entries[0]) + ("," + (PrintEntries(entries[1..]) + ("}" + rest)))
  {
    Regroup(PrintEntry(entries[0]), ",", PrintEntries(entries[1..]), "}" + rest);
  }

  lemma {:induction false} ReadPrintedEntries(entries: seq<Entry>, rest: string)
    requires entries != [] && LegibleEntries(entries)
    ensures ReadEntries(PrintEntries(entries) + ("}" + rest)) == Some((entries, rest))
    decreases entries, 0
  {
    if |entries| == 1 {
      ReadPrintedEntry(entries[0], "}" + rest);
      ReadLastEntry(PrintEntries(entries) + ("}" + rest), entries[0], rest);
      assert entries == [entries[0]];
    } else {
      ReadPrintedEntries(entries[1..], rest);
      ReadPrintedEntry(entries[0], "," + (PrintEntries(entries[1..]) + ("}" + rest)));
      ReadFirstEntry(entries, PrintEntries(entries[1..]) + ("}" + rest), rest);
    }
  }

  lemma {:induction false} ReadFirstEntry(entries: seq<Entry>, tail: string, rest: string)
    requires |entries| > 1 && tail == PrintEntries(entries[1..]) + ("}" + rest)
    requires ReadEntry(PrintEntry(entries[0]) + ("," + tail)) == Some((entries[0], "," + tail))
    requires ReadEntries(tail) == Some((entries[1..], rest))
    ensures ReadEntries(PrintEntries(entries) + ("}" + rest)) == Some((entries, rest))
  {
    EntriesSplit(entries, rest);
    ReadNextEntry(PrintEntries(entries) + ("}" + rest), entries[0], tail, entries[1..], rest);
    assert [entries[0]] + entries[1..] == entries;
  }

  lemma {:induction false} ReadLastEntry(s: string, e: Entry, rest: string)
    requires ReadEntry(s) == Some((e, "}" + rest))
    ensures ReadEntries(s) == Some(([e], rest))
  {
    assert ("}" + rest)[1..] == rest;
  }

  // ----- The normal form captures equality of trees -----

  /** Object keys are unique and number texts are numbers. */
  ghost predicate Proper(v: Json)
    decreases v
  {
    match v
    case Number(text) => IsNumber(text)
    case Array(items) => forall i :: 0 <= i < |items| && items[i].Defined? ==> ProperItem(items, i)
    case Object(members) =>
      && UniqueKeys(members)
      && forall i :: 0 <= i < |members| && members[i].item.Defined? ==> ProperMember(members, i)
    case _ => true
  }

  ghost predicate ProperItem(items: seq<Item>, i: nat)
    requires i < |items| && items[i].Defined?
    decreases items, 0
  {
    assert items decreases to items[i];
    Proper(items[i].value)
  }

  ghost predicate ProperMember(members: seq<Member>, i: nat)
    requires i < |members| && members[i].item.Defined?
    decreases members, 0
  {
    assert members decreases to members[i];
    Proper(members[i].item.value)
  }

  /** No array is exactly `[undefined]`. */
  ghost predicate NoneLone(v: Json)
    decreases v
  {
    match v
    case Array(items) =>
      items != [Undefined] && forall i :: 0 <= i < |items| && items[i].Defined? ==> NoneLoneItem(items, i)
    case Object(members) => forall i :: 0 <= i < |members| && members[i].item.Defined? ==> NoneLoneMember(members, i)
    case _ => true
  }

  ghost predicate NoneLoneItem(items: seq<Item>, i: nat)
    requires i < |items| && items[i].Defined?
    decreases items, 0
  {
    assert items decreases to items[i];
    NoneLone(items[i].value)
  }

  ghost predicate NoneLoneMember(members: seq<Member>, i: nat)
    requires i < |members| && members[i].item.Defined?
    decreases members, 0
  {
    assert members decreases to members[i];
    NoneLone(members[i].item.value)
  }

  ghost predicate UniqueKeys(members: seq<Member>) {
    forall i, j :: 0 <= i < j < |members| ==> members[i].key != members[j].key
  }

  /** Equality of JSON trees up to key order and undefined members. */
  ghost predicate Same(a: Json, b: Json)
    decreases a
  {
    match (a, b)
    case (Array(xs), Array(ys)) => |xs| == |ys| && forall i :: 0 <= i < |xs| ==> SameItem(xs, i, ys[i])
    case (Object(ms), Object(ns)) =>
      && (forall i :: 0 <= i < |ms| && ms[i].item.Defined? ==> Matched(ms, i, ns))
      && (forall j :: 0 <= j < |ns| && ns[j].item.Defined? ==> HasKey(ms, ns[j].key))
    case (Array(_), _) => false
    case (Object(_), _) => false
    case _ => a == b
  }

  ghost predicate SameItem(xs: seq<Item>, i: nat, y: Item)
    requires i < |xs|
    decreases xs, 0
  {
    assert xs decreases to xs[i];
    if xs[i].Defined? then y.Defined? && Same(xs[i].value, y.value) else y.Undefined?
  }

  /** Some defined member of the other object has the same key and the same value. */
  ghost predicate Matched(ms: seq<Member>, i: nat, ns: seq<Member>)
    requires i < |ms| && ms[i].item.Defined?
    decreases ms, 0
  {
    assert ms decreases to ms[i];
    exists j :: 0 <= j < |ns| && ns[j].key == ms[i].key && ns[j].item.Defined? && Same(ms[i].item.value, ns[j].item.value)
  }

  ghost predicate HasKey(ms: seq<Member>, key: string) {
    exists i :: 0 <= i < |ms| && ms[i].key == key && ms[i].item.Defined?
  }

  lemma {:induction false} ItemAt(items: seq<Item>, i: nat)
    requires i < |items|
    ensures NormalItems(items)[i] == if items[i].Undefined? then Hole else Normal(items[i].value)
  {
    if i < |items| - 1 {
      ItemAt(items[..|items| - 1], i);
    }
  }

  ghost predicate EntryOf(members: seq<Member>, e: Entry) {
    exists i :: 0 <= i < |members| && members[i].item.Defined? && e == Entry(members[i].key, Normal(members[i].item.value))
  }

  lemma {:induction false} EntryFrom(members: seq<Member>, e: Entry)
    ensures e in NormalEntries(members) <==> EntryOf(members, e)
  {
    if members != [] {
      var init := members[..|members| - 1];
      EntryFrom(init, e);
      if EntryOf(init, e) {
        var i :| 0 <= i < |init| && init[i].item.Defined? && e == Entry(init[i].key, Normal(init[i].item.value));
        assert members[i] == init[i];
      }
      if EntryOf(members, e) {
        var i :| 0 <= i < |members| && members[i].item.Defined? && e == Entry(members[i].key, Normal(members[i].item.value));
        assert i < |init| ==> init[i] == members[i];
      }
    }
  }

  /** Entries keep the keys of distinct members, so keys do not repeat. */
  ghost predicate UniqueEntries(entries: seq<Entry>) {
    forall i, j :: 0 <= i < j < |entries| ==> entries[i].key != entries[j].key
  }

  lemma {:induction false} EntriesUnique(members: seq<Member>)
    requires UniqueKeys(members)
    ensures UniqueEntries(NormalEntries(members))
  {
    if members != [] {
      var n := |members| - 1;
      var init := members[..n];
      EntriesUnique(init);
      forall i | 0 <= i < |NormalEntries(init)| ensures NormalEntries(init)[i].key != members[n].key {
        var e := NormalEntries(init)[i];
        EntryFrom(init, e);
        var k :| 0 <= k < |init| && init[k].item.Defined? && e == Entry(init[k].key, Normal(init[k].item.value));
        assert members[k] == init[k];
      }
    }
  }

  lemma {:induction false} DistinctMultiset(s: seq<Entry>, e: Entry)
    requires UniqueEntries(s)
    ensures multiset(s)[e] == if e in s then 1 else 0
  {
    if s != [] {
      var init, last := s[..|s| - 1], s[|s| - 1];
      DistinctMultiset(init, e);
      assert s == init + [last];
      assert last !in init;
    }
  }

  lemma {:induction false} SameEntries(a: seq<Entry>, b: seq<Entry>)
    requires UniqueEntries(a) && UniqueEntries(b) && forall e :: e in a <==> e in b
    ensures Sort(EntryLe, a) == Sort(EntryLe, b)
  {
    forall e ensures multiset(a)[e] == multiset(b)[e] {
      DistinctMultiset(a, e);
      DistinctMultiset(b, e);
    }
    assert multiset(a) == multiset(b);
    EntriesOrdered(a);
    SortCanonical(EntryLe, a, b);
  }

  lemma {:induction false} EntriesOrdered(a: seq<Entry>)
    requires UniqueEntries(a)
    ensures TotalOn(EntryLe, a) && AntisymmetricOn(EntryLe, a)
  {
    StringOrder();
    forall d, e | d in a && e in a && EntryLe(d, e) && EntryLe(e, d) ensures d == e {
      assert d.key == e.key;
    }
  }

  lemma {:induction false} SortedHas(a: seq<Entry>, e: Entry)
    ensures e in Sort(EntryLe, a) <==> e in a
  {
    SortPermutes(EntryLe, a);
    assert e in multiset(Sort(EntryLe, a)) <==> e in multiset(a);
  }

  /** Trees that are the same have the same normal form. */
  lemma {:induction false} SameHaveSameNormal(a: Json, b: Json)
    requires Proper(a) && Proper(b) && Same(a, b)
    ensures Normal(a) == Normal(b)
    decreases a, 2
  {
    if a.Array? {
      forall i | 0 <= i < |a.items| ensures NormalItems(a.items)[i] == NormalItems(b.items)[i] {
        ItemAt(a.items, i);
        ItemAt(b.items, i);
        assert SameItem(a.items, i, b.items[i]);
        if a.items[i].Defined? {
          assert ProperItem(a.items, i) && ProperItem(b.items, i);
          SameHaveSameNormal(a.items[i].value, b.items[i].value);
        }
      }
    } else if a.Object? {
      forall e ensures e in NormalEntries(a.members) <==> e in NormalEntries(b.members) {
        EntryFrom(a.members, e);
        EntryFrom(b.members, e);
        SameObjectsShareEntries(a, b, e);
      }
      EntriesUnique(a.members);
      EntriesUnique(b.members);
      SameEntries(NormalEntries(a.members), NormalEntries(b.members));
    }
  }

  lemma {:induction false} SameObjectsShareEntries(a: Json, b: Json, e: Entry)
    requires Proper(a) && Proper(b) && a.Object? && b.Object? && Same(a, b)
    ensures EntryOf(a.members, e) <==> EntryOf(b.members, e)
    decreases a, 1
  {
    var ms, ns := a.members, b.members;
    if EntryOf(ms, e) {
      var i :| 0 <= i < |ms| && ms[i].item.Defined? && e == Entry(ms[i].key, Normal(ms[i].item.value));
      var j := MatchOf(a, b, i);
    }
    if EntryOf(ns, e) {
      var j :| 0 <= j < |ns| && ns[j].item.Defined? && e == Entry(ns[j].key, Normal(ns[j].item.value));
      assert HasKey(ms, ns[j].key);
      var i :| 0 <= i < |ms| && ms[i].key == ns[j].key && ms[i].item.Defined?;
      var k := MatchOf(a, b, i);
      assert k == j;
    }
  }

  lemma {:induction false} MatchOf(a: Json, b: Json, i: nat) returns (j: nat)
    requires Proper(a) && Proper(b) && a.Object? && b.Object? && Same(a, b)
    requires i < |a.members| && a.members[i].item.Defined?
    ensures j < |b.members| && b.members[j].key == a.members[i].key && b.members[j].item.Defined?
    ensures Normal(a.members[i].item.value) == Normal(b.members[j].item.value)
    decreases a, 0
  {
    var ms, ns := a.members, b.members;
    assert Matched(ms, i, ns) && ProperMember(ms, i);
    j :| 0 <= j < |ns| && ns[j].key == ms[i].key && ns[j].item.Defined? && Same(ms[i].item.value, ns[j].item.value);
    assert ProperMember(ns, j);
    SameHaveSameNormal(ms[i].item.value, ns[j].item.value);
  }

  /** And conversely. */
  lemma {:induction false} SameNormalMeansSame(a: Json, b: Json)
    requires Normal(a) == Normal(b)
    ensures Same(a, b)
    decreases a
  {
    if a.Array? {
      forall i | 0 <= i < |a.items| ensures SameItem(a.items, i, b.items[i]) {
        ItemAt(a.items, i);
        ItemAt(b.items, i);
        if a.items[i].Defined? {
          NormalNoHole(a.items[i].value);
          SameNormalMeansSame(a.items[i].value, b.items[i].value);
        } else if b.items[i].Defined? {
          NormalNoHole(b.items[i].value);
        }
      }
    } else if a.Object? {
      var ms, ns := a.members, b.members;
      forall i | 0 <= i < |ms| && ms[i].item.Defined? ensures Matched(ms, i, ns) {
        var j := EntryShared(ms, i, ns);
        SameNormalMeansSame(ms[i].item.value, ns[j].item.value);
      }
      forall j | 0 <= j < |ns| && ns[j].item.Defined? ensures HasKey(ms, ns[j].key) {
        var i := EntryShared(ns, j, ms);
      }
    }
  }

  lemma {:induction false} EntryShared(ms: seq<Member>, i: nat, ns: seq<Member>) returns (j: nat)
    requires i < |ms| && ms[i].item.Defined?
    requires Sort(EntryLe, NormalEntries(ms)) == Sort(EntryLe, NormalEntries(ns))
    ensures j < |ns| && ns[j].item.Defined? && ns[j].key == ms[i].key
    ensures Normal(ns[j].item.value) == Normal(ms[i].item.value)
  {
    var e := Entry(ms[i].key, Normal(ms[i].item.value));
    EntryFrom(ms, e);
    SortedHas(NormalEntries(ms), e);
    SortedHas(NormalEntries(ns), e);
    EntryFrom(ns, e);
    j :| 0 <= j < |ns| && ns[j].item.Defined? && e == Entry(ns[j].key, Normal(ns[j].item.value));
  }

  lemma {:induction false} NormalNoHole(v: Json)
    ensures !Normal(v).Hole?
  {
  }

  lemma {:induction false} ProperLegible(v: Json)
    requires Proper(v) && NoneLone(v)
    ensures Legible(Normal(v))
    decreases v
  {
    if v.Array? {
      var norm := NormalItems(v.items);
      forall i | 0 <= i < |norm| ensures Legible(norm[i]) {
        ItemAt(v.items, i);
        if v.items[i].Defined? {
          assert ProperItem(v.items, i) && NoneLoneItem(v.items, i);
          ProperLegible(v.items[i].value);
        }
      }
      if norm == [Hole] {
        ItemAt(v.items, 0);
        if v.items[0].Defined? {
          NormalNoHole(v.items[0].value);
        }
      }
    } else if v.Object? {
      var entries := Sort(EntryLe, NormalEntries(v.members));
      forall k | 0 <= k < |entries| ensures Legible(entries[k].value) && !entries[k].value.Hole? {
        var e := entries[k];
        SortedHas(NormalEntries(v.members), e);
        EntryFrom(v.members, e);
        var i :| 0 <= i < |v.members| && v.members[i].item.Defined? && e == Entry(v.members[i].key, Normal(v.members[i].item.value));
        assert ProperMember(v.members, i) && NoneLoneMember(v.members, i);
        ProperLegible(v.members[i].item.value);
        NormalNoHole(v.members[i].item.value);
      }
    }
  }

  /** Canonical and injective: two trees have the same text exactly when they are the same tree. */
  lemma {:induction false} CanonicalExactly(a: Json, b: Json)
    requires Proper(a) && Proper(b) && NoneLone(a) && NoneLone(b)
    ensures Canonical(a) == Canonical(b) <==> Same(a, b)
  {
    if Same(a, b) {
      SameHaveSameNormal(a, b);
    }
    if Canonical(a) == Canonical(b) {
      ProperLegible(a);
      ProperLegible(b);
      NormalNoHole(a);
      NormalNoHole(b);
      ReadPrinted(Normal(a), "");
      ReadPrinted(Normal(b), "");
      assert Print(Normal(a)) + "" == Print(Normal(b)) + "";
      SameNormalMeansSame(a, b);
    }
  }

  // ----- Arrays of one undefined item -----

  /** Every array that is exactly `[undefined]` emptied. */
  function Drop(v: Json): Json
    decreases v
  {
    match v
    case Array(items) => Array(if items == [Undefined] then [] else DropItems(items))
    case Object(members) => Object(DropMembers(members))
    case _ => v
  }

  function DropItems(items: seq<Item>): (r: seq<Item>)
    ensures |r| == |items|
    decreases items
  {
    if items == [] then []
    else
      var last := items[|items| - 1];
      assert items decreases to last;
      DropItems(items[..|items| - 1]) + [if last.Undefined? then Undefined else Defined(Drop(last.value))]
  }

  function DropMembers(members: seq<Member>): (r: seq<Member>)
    ensures |r| == |members|
    decreases members
  {
    if members == [] then []
    else
      var last := members[|members| - 1];
      DropMembers(members[..|members| - 1])
      + [Member(last.key, if last.item.Undefined? then Undefined else Defined(Drop(last.item.value)))]
  }

  lemma {:induction false} DropItemAt(items: seq<Item>, i: nat)
    requires i < |items|
    ensures DropItems(items)[i] == if items[i].Undefined? then Undefined else Defined(Drop(items[i].value))
  {
    if i < |items| - 1 {
      DropItemAt(items[..|items| - 1], i);
    }
  }

  lemma {:induction false} DropMemberAt(members: seq<Member>, i: nat)
    requires i < |members|
    ensures DropMembers(members)[i]
         == Member(members[i].key, if members[i].item.Undefined? then Undefined else Defined(Drop(members[i].item.value)))
  {
    if i < |members| - 1 {
      DropMemberAt(members[..|members| - 1], i);
    }
  }

  lemma {:induction false} DropProper(v: Json)
    requires Proper(v)
    ensures Proper(Drop(v)) && NoneLone(Drop(v))
    decreases v
  {
    match v
    case Array(items) => DropItemsProper(v);
    case Object(members) => DropMembersProper(v);
    case _ =>
  }

  lemma {:induction false} DropItemsProper(v: Json)
    requires Proper(v) && v.Array?
    ensures Proper(Drop(v)) && NoneLone(Drop(v))
    decreases v, 0
  {
    if v.items != [Undefined] {
      var dropped := DropItems(v.items);
      forall i | 0 <= i < |dropped| && dropped[i].Defined? ensures ProperItem(dropped, i) && NoneLoneItem(dropped, i) {
        DropItemAt(v.items, i);
        assert ProperItem(v.items, i);
        DropProper(v.items[i].value);
      }
      if dropped == [Undefined] {
        DropItemAt(v.items, 0);
      }
    }
  }

  lemma {:induction false} DropMembersProper(v: Json)
    requires Proper(v) && v.Object?
    ensures Proper(Drop(v)) && NoneLone(Drop(v))
    decreases v, 0
  {
    var dropped := DropMembers(v.members);
    forall i | 0 <= i < |dropped| && dropped[i].item.Defined? ensures ProperMember(dropped, i) && NoneLoneMember(dropped, i) {
      DropMemberAt(v.members, i);
      assert ProperMember(v.members, i);
      DropProper(v.members[i].item.value);
    }
    forall i, j | 0 <= i < j < |dropped| ensures dropped[i].key != dropped[j].key {
      DropMemberAt(v.members, i);
      DropMemberAt(v.members, j);
    }
  }

  /** Entries with the same keys and the same texts. */
  ghost predicate Alike(xs: seq<Entry>, ys: seq<Entry>) {
    && |xs| == |ys|
    && forall i :: 0 <= i < |xs| ==> xs[i].key == ys[i].key && Print(xs[i].value) == Print(ys[i].value)
  }

  lemma {:induction false} InsertAlike(xs: seq<Entry>, ys: seq<Entry>, x: Entry, y: Entry)
    requires Alike(xs, ys) && Alike([x], [y])
    ensures Alike(Insert(EntryLe, xs, x), Insert(EntryLe, ys, y))
  {
    assert [x][0] == x && [y][0] == y;
    if xs != [] && !EntryLe(xs[|xs| - 1], x) {
      InsertAlike(xs[..|xs| - 1], ys[..|ys| - 1], x, y);
    }
  }

  lemma {:induction false} SortAlike(xs: seq<Entry>, ys: seq<Entry>)
    requires Alike(xs, ys)
    ensures Alike(Sort(EntryLe, xs), Sort(EntryLe, ys))
  {
    if xs != [] {
      var n := |xs| - 1;
      SortAlike(xs[..n], ys[..n]);
      InsertAlike(Sort(EntryLe, xs[..n]), Sort(EntryLe, ys[..n]), xs[n], ys[n]);
    }
  }

  lemma {:induction false} AlikePrint(xs: seq<Entry>, ys: seq<Entry>)
    requires Alike(xs, ys)
    ensures PrintEntries(xs) == PrintEntries(ys)
  {
    if |xs| > 1 {
      AlikePrint(xs[1..], ys[1..]);
    }
  }

  lemma {:induction false} ItemsPrint(xs: seq<Norm>, ys: seq<Norm>)
    requires |xs| == |ys| && forall i :: 0 <= i < |xs| ==> Print(xs[i]) == Print(ys[i])
    ensures PrintItems(xs) == PrintItems(ys)
  {
    if |xs| > 1 {
      ItemsPrint(xs[1..], ys[1..]);
    }
  }

  /** Emptying the arrays of one undefined item does not show in the text. */
  lemma {:induction false} DropKeepsText(v: Json)
    ensures Canonical(Drop(v)) == Canonical(v)
    decreases v
  {
    match v
    case Array(items) => DropKeepsArray(items);
    case Object(members) =>
      DropKeepsEntries(members);
      SortAlike(NormalEntries(DropMembers(members)), NormalEntries(members));
      AlikePrint(Sort(EntryLe, NormalEntries(DropMembers(members))), Sort(EntryLe, NormalEntries(members)));
    case _ =>
  }

  lemma {:induction false} DropKeepsArray(items: seq<Item>)
    ensures Canonical(Drop(Array(items))) == Canonical(Array(items))
    decreases items
  {
    if items == [Undefined] {
      ItemAt(items, 0);
      assert NormalItems(items) == [Hole];
      assert PrintItems([Hole]) == "" == PrintItems([]);
    } else {
      var dropped := DropItems(items);
      forall i | 0 <= i < |items| ensures Print(NormalItems(dropped)[i]) == Print(NormalItems(items)[i]) {
        ItemAt(items, i);
        ItemAt(dropped, i);
        DropItemAt(items, i);
        if items[i].Defined? {
          assert items decreases to items[i];
          DropKeepsText(items[i].value);
        }
      }
      ItemsPrint(NormalItems(dropped), NormalItems(items));
    }
  }

  lemma {:induction false} DropKeepsEntries(members: seq<Member>)
    ensures Alike(NormalEntries(DropMembers(members)), NormalEntries(members))
    decreases members
  {
    if members != [] {
      var n := |members| - 1;
      DropKeepsEntries(members[..n]);
      assert DropMembers(members)[..n] == DropMembers(members[..n]);
      if members[n].item.Defined? {
        DropKeepsText(members[n].item.value);
      }
    }
  }

  /**
   * The exact condition for all trees: the text is the same exactly when the trees are, once every array of one
   * undefined item is taken for the empty array.
   */
  lemma {:induction false} CanonicalUpToLone(a: Json, b: Json)
    requires Proper(a) && Proper(b)
    ensures Canonical(a) == Canonical(b) <==> Same(Drop(a), Drop(b))
  {
    DropProper(a);
    DropProper(b);
    DropKeepsText(a);
    DropKeepsText(b);
    CanonicalExactly(Drop(a), Drop(b));
  }

  /** So the text collides on them. */
  lemma {:induction false} LoneUndefinedCollides()
    ensures Canonical(Array([Undefined])) == Canonical(Array([])) && !Same(Array([Undefined]), Array([]))
  {
    ItemAt([Undefined], 0);
    assert NormalItems([Undefined]) == [Hole];
  }

  // ----- Writing a manifest and reading it again -----

  /** What is written: members in their own order, undefined ones left out, undefined array items as null. */
  function Plain(v: Json): Norm
    decreases v
  {
    match v
    case Null => NNull
    case Bool(b) => NBool(b)
    case Number(text) => NNumber(text)
    case Str(s) => NStr(s)
    case Array(items) => NArray(PlainItems(items))
    case Object(members) => NObject(PlainEntries(members))
  }

  function PlainItems(items: seq<Item>): (r: seq<Norm>)
    ensures |r| == |items|
    decreases items
  {
    if items == [] then []
    else
      var last := items[|items| - 1];
      assert items decreases to last;
      PlainItems(items[..|items| - 1]) + [if last.Undefined? then NNull else Plain(last.value)]
  }

  function PlainEntries(members: seq<Member>): seq<Entry>
    decreases members
  {
    if members == [] then []
    else
      var last := members[|members| - 1];
      PlainEntries(members[..|members| - 1]) + if last.item.Undefined? then [] else [Entry(last.key, Plain(last.item.value))]
  }

  function Written(v: Json): string {
    Print(Plain(v))
  }

  /** The tree a value read from text stands for. */
  function Parsed(n: Norm): Json
    decreases n
  {
    match n
    case NNull => Null
    case NBool(b) => Bool(b)
    case NNumber(text) => Number(text)
    case NStr(s) => Str(s)
    case Hole => Null
    case NArray(items) => Array(ParsedItems(items))
    case NObject(entries) => Object(ParsedMembers(entries))
  }

  function ParsedItems(items: seq<Norm>): (r: seq<Item>)
    ensures |r| == |items|
    decreases items
  {
    if items == [] then []
    else
      var last := items[|items| - 1];
      ParsedItems(items[..|items| - 1]) + [if last.Hole? then Undefined else Defined(Parsed(last))]
  }

  function ParsedMembers(entries: seq<Entry>): (r: seq<Member>)
    ensures |r| == |entries|
    decreases entries
  {
    if entries == [] then []
    else
      var last := entries[|entries| - 1];
      ParsedMembers(entries[..|entries| - 1]) + [Member(last.key, Defined(Parsed(last.value)))]
  }

  /** A text that holds one value and nothing after it. */
  function Parse(text: string): Option<Json> {
    match ReadValue(text)
    case Some((n, rest)) => if rest == "" then Some(Parsed(n)) else None
    case None => None
  }

  function Reread(v: Json): Json {
    Parsed(Plain(v))
  }

  lemma {:induction false} PlainNoHole(v: Json)
    ensures !Plain(v).Hole?
  {
  }

  lemma {:induction false} PlainItemAt(items: seq<Item>, i: nat)
    requires i < |items|
    ensures PlainItems(items)[i] == if items[i].Undefined? then NNull else Plain(items[i].value)
    ensures ParsedItems(PlainItems(items))[i] == Defined(if items[i].Undefined? then Null else Reread(items[i].value))
  {
    var n := |items| - 1;
    assert PlainItems(items)[..n] == PlainItems(items[..n]);
    if i < n {
      PlainItemAt(items[..n], i);
    } else if items[n].Defined? {
      PlainNoHole(items[n].value);
    }
  }

  /** Where an entry of the written object comes from. */
  lemma {:induction false} PlainEntryAt(members: seq<Member>, k: nat) returns (i: nat)
    requires k < |PlainEntries(members)|
    ensures i < |members| && members[i].item.Defined?
    ensures PlainEntries(members)[k] == Entry(members[i].key, Plain(members[i].item.value))
    ensures ParsedMembers(PlainEntries(members))[k] == Member(members[i].key, Defined(Reread(members[i].item.value)))
  {
    var n := |members| - 1;
    var init := PlainEntries(members[..n]);
    if k < |init| {
      i := PlainEntryAt(members[..n], k);
      ParsedPrefix(PlainEntries(members), |init|);
      assert PlainEntries(members)[..|init|] == init;
    } else {
      i := n;
      ParsedAt(PlainEntries(members), k);
    }
  }

  lemma {:induction false} ParsedAt(entries: seq<Entry>, k: nat)
    requires k < |entries|
    ensures ParsedMembers(entries)[k] == Member(entries[k].key, Defined(Parsed(entries[k].value)))
  {
    if k < |entries| - 1 {
      ParsedAt(entries[..|entries| - 1], k);
    }
  }

  lemma {:induction false} ParsedPrefix(entries: seq<Entry>, n: nat)
    requires n <= |entries|
    ensures ParsedMembers(entries)[..n] == ParsedMembers(entries[..n])
  {
    forall k | 0 <= k < n ensures ParsedMembers(entries)[k] == ParsedMembers(entries[..n])[k] {
      ParsedAt(entries, k);
      ParsedAt(entries[..n], k);
    }
  }

  lemma {:induction false} PlainUnique(members: seq<Member>)
    requires UniqueKeys(members)
    ensures UniqueEntries(PlainEntries(members))
  {
    if members != [] {
      var n := |members| - 1;
      var init := PlainEntries(members[..n]);
      PlainUnique(members[..n]);
      forall k | 0 <= k < |init| ensures init[k].key != members[n].key {
        var i := PlainEntryAt(members[..n], k);
      }
    }
  }

  lemma {:induction false} PlainLegible(v: Json)
    requires Proper(v)
    ensures Legible(Plain(v))
    decreases v
  {
    if v.Array? {
      var norm := PlainItems(v.items);
      forall i | 0 <= i < |norm| ensures Legible(norm[i]) && !norm[i].Hole? {
        PlainItemAt(v.items, i);
        if v.items[i].Defined? {
          assert ProperItem(v.items, i);
          PlainLegible(v.items[i].value);
          PlainNoHole(v.items[i].value);
        }
      }
      assert |norm| == 1 ==> norm[0] != Hole;
    } else if v.Object? {
      var entries := PlainEntries(v.members);
      forall k | 0 <= k < |entries| ensures Legible(entries[k].value) && !entries[k].value.Hole? {
        var i := PlainEntryAt(v.members, k);
        assert ProperMember(v.members, i);
        PlainLegible(v.members[i].item.value);
        PlainNoHole(v.members[i].item.value);
      }
    }
  }

  /** What was written reads back. */
  lemma {:induction false} ParseWritten(v: Json)
    requires Proper(v)
    ensures Parse(Written(v)) == Some(Reread(v))
  {
    PlainLegible(v);
    PlainNoHole(v);
    ReadPrinted(Plain(v), "");
    assert Print(Plain(v)) + "" == Written(v);
  }

  lemma {:induction false} RereadProper(v: Json)
    requires Proper(v)
    ensures Proper(Reread(v))
    decreases v
  {
    if v.Array? {
      var items := ParsedItems(PlainItems(v.items));
      forall i | 0 <= i < |items| && items[i].Defined? ensures ProperItem(items, i) {
        PlainItemAt(v.items, i);
        if v.items[i].Defined? {
          assert ProperItem(v.items, i);
          RereadProper(v.items[i].value);
        }
      }
    } else if v.Object? {
      var members := ParsedMembers(PlainEntries(v.members));
      forall k | 0 <= k < |members| && members[k].item.Defined? ensures ProperMember(members, k) {
        var i := PlainEntryAt(v.members, k);
        assert ProperMember(v.members, i);
        RereadProper(v.members[i].item.value);
      }
      PlainUnique(v.members);
      forall i, j | 0 <= i < j < |members| ensures members[i].key != members[j].key {
        ParsedAt(PlainEntries(v.members), i);
        ParsedAt(PlainEntries(v.members), j);
      }
    }
  }

  /** No array holds an undefined item. */
  ghost predicate Solid(v: Json)
    decreases v
  {
    match v
    case Array(items) => forall i :: 0 <= i < |items| ==> SolidItem(items, i)
    case Object(members) => forall i :: 0 <= i < |members| && members[i].item.Defined? ==> SolidMember(members, i)
    case _ => true
  }

  ghost predicate SolidItem(items: seq<Item>, i: nat)
    requires i < |items|
    decreases items, 0
  {
    assert items decreases to items[i];
    items[i].Defined? && Solid(items[i].value)
  }

  ghost predicate SolidMember(members: seq<Member>, i: nat)
    requires i < |members| && members[i].item.Defined?
    decreases members, 0
  {
    assert members decreases to members[i];
    Solid(members[i].item.value)
  }

  lemma {:induction false} SolidSurvives(v: Json)
    requires Solid(v)
    ensures Normal(Reread(v)) == Normal(v)
    decreases v, 1
  {
    if v.Array? {
      forall i | 0 <= i < |v.items| ensures v.items[i].Defined? && Solid(v.items[i].value) {
        assert SolidItem(v.items, i);
      }
      ItemsSurvive(v.items);
    } else if v.Object? {
      forall i | 0 <= i < |v.members| && v.members[i].item.Defined? ensures Solid(v.members[i].item.value) {
        assert SolidMember(v.members, i);
      }
      MembersSurvive(v.members);
    }
  }

  lemma {:induction false} ItemsSurvive(items: seq<Item>)
    requires forall i :: 0 <= i < |items| ==> items[i].Defined? && Solid(items[i].value)
    ensures NormalItems(ParsedItems(PlainItems(items))) == NormalItems(items)
    decreases items, 0
  {
    var read := ParsedItems(PlainItems(items));
    forall i | 0 <= i < |items| ensures NormalItems(read)[i] == NormalItems(items)[i] {
      PlainItemAt(items, i);
      ItemAt(read, i);
      ItemAt(items, i);
      assert items decreases to items[i];
      SolidSurvives(items[i].value);
    }
  }

  lemma {:induction false} MembersSurvive(members: seq<Member>)
    requires forall i :: 0 <= i < |members| && members[i].item.Defined? ==> Solid(members[i].item.value)
    ensures NormalEntries(ParsedMembers(PlainEntries(members))) == NormalEntries(members)
    decreases members, 0
  {
    if members != [] {
      var n := |members| - 1;
      MembersSurvive(members[..n]);
      if members[n].item.Defined? {
        SolidSurvives(members[n].item.value);
        ParsedSnoc(PlainEntries(members[..n]), Entry(members[n].key, Plain(members[n].item.value)));
      } else {
        assert PlainEntries(members) == PlainEntries(members[..n]);
      }
    }
  }

  lemma {:induction false} ParsedSnoc(entries: seq<Entry>, e: Entry)
    ensures NormalEntries(ParsedMembers(entries + [e]))
         == NormalEntries(ParsedMembers(entries)) + [Entry(e.key, Normal(Parsed(e.value)))]
  {
    var all := ParsedMembers(entries + [e]);
    assert (entries + [e])[..|entries|] == entries;
    assert all == ParsedMembers(entries) + [Member(e.key, Defined(Parsed(e.value)))];
    assert all[..|all| - 1] == ParsedMembers(entries);
  }

  /** Only solid trees survive: a null read back in place of an undefined item shows. */
  lemma {:induction false} SurvivorsSolid(v: Json)
    requires Proper(v) && Same(Drop(v), Drop(Reread(v)))
    ensures Solid(v)
    decreases v
  {
    match v
    case Array(items) => ItemsSolid(v);
    case Object(members) => MembersSolid(v);
    case _ =>
  }

  lemma {:induction false} RereadLength(v: Json)
    requires v.Array? && Same(Drop(v), Drop(Reread(v)))
    ensures v.items != [Undefined] && Drop(v) == Array(DropItems(v.items))
    ensures Drop(Reread(v)) == Array(DropItems(ParsedItems(PlainItems(v.items))))
  {
    assert Reread(v) == Array(ParsedItems(PlainItems(v.items)));
    RereadNotLone(v.items);
  }

  /** Reading gives no undefined item back. */
  lemma {:induction false} RereadNotLone(items: seq<Item>)
    ensures ParsedItems(PlainItems(items)) != [Undefined]
  {
    if items != [] {
      PlainItemAt(items, 0);
    }
  }

  lemma {:induction false} ItemsSolid(v: Json)
    requires Proper(v) && v.Array? && Same(Drop(v), Drop(Reread(v)))
    ensures Solid(v)
    decreases v, 0
  {
    var items, read := v.items, ParsedItems(PlainItems(v.items));
    RereadLength(v);
    forall i | 0 <= i < |items| ensures SolidItem(items, i) {
      PlainItemAt(items, i);
      assert SameItem(DropItems(items), i, DropItems(read)[i]);
      DropItemAt(items, i);
      DropItemAt(read, i);
      assert ProperItem(items, i);
      SurvivorsSolid(items[i].value);
    }
  }

  lemma {:induction false} MembersSolid(v: Json)
    requires Proper(v) && v.Object? && Same(Drop(v), Drop(Reread(v)))
    ensures Solid(v)
    decreases v, 0
  {
    var members, read := v.members, ParsedMembers(PlainEntries(v.members));
    forall i | 0 <= i < |members| && members[i].item.Defined? ensures SolidMember(members, i) {
      DropMemberAt(members, i);
      assert Matched(DropMembers(members), i, DropMembers(read));
      var k :| 0 <= k < |DropMembers(read)| && DropMembers(read)[k].key == members[i].key
               && DropMembers(read)[k].item.Defined?
               && Same(Drop(members[i].item.value), DropMembers(read)[k].item.value);
      DropMemberAt(read, k);
      var j := PlainEntryAt(members, k);
      assert j == i;
      assert ProperMember(members, i);
      SurvivorsSolid(members[i].item.value);
    }
  }

  /**
   * A tree that is written as text and parsed again has the integrity payload it had before, exactly when no
   * array of it holds an undefined item.
   */
  lemma {:induction false} PayloadSurvives(v: Json)
    requires Proper(v)
    ensures Parse(Written(v)).Some?
    ensures Canonical(Parse(Written(v)).value) == Canonical(v) <==> Solid(v)
  {
    ParseWritten(v);
    if Solid(v) {
      SolidSurvives(v);
    } else if Canonical(Reread(v)) == Canonical(v) {
      RereadProper(v);
      CanonicalUpToLone(v, Reread(v));
      SurvivorsSolid(v);
    }
  }
}
