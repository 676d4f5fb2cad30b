/** Exporting a circle's activity as CSV. */
module CsvExport {
  import opened Prelude
  import opened Digits
  import opened Lex
  import opened Sorting
  import opened Csv
  import Money

  // ----- Rows and their order -----

  datatype Row =
    | Member(address: string, payoutOrder: nat, joinOrder: Option<nat>, defaults: nat, amount: string)
    | Contribution(address: string, round: nat, amount: string, ledger: nat, txHash: string)
    | Default(address: string, round: nat, amount: string, ledger: nat, txHash: string)
    | Payout(address: string, round: nat, amount: string, exceptional: Option<bool>, ledger: nat, txHash: string)

  type MemberRow = r: Row | r.Member? witness Member("", 0, None, 0, "0")
  type ContributionRow = r: Row | r.Contribution? witness Contribution("", 0, "0", 0, "")
  type DefaultRow = r: Row | r.Default? witness Default("", 0, "0", 0, "")
  type PayoutRow = r: Row | r.Payout? witness Payout("", 0, "0", None, 0, "")

  datatype Activity = Activity(
    network: string, circleAddress: string, members: seq<MemberRow>, contributions: seq<ContributionRow>,
    defaults: seq<DefaultRow>, payouts: seq<PayoutRow>)

  /** One sort key: numbers compare as numbers, texts by code unit. */
  datatype Part = Num(n: nat) | Str(s: string)

  function PartLe(a: Part, b: Part): bool {
    match (a, b)
    case (Num(m), Num(n)) => m <= n
    case (Str(s), Str(t)) => StringLe(s, t)
    case (Num(_), Str(_)) => true
    case (Str(_), Num(_)) => false
  }

  function SortKeys(r: Row): seq<Part> {
    match r
    case Member(address, payoutOrder, _, _, _) => [Num(payoutOrder), Str(address)]
    case Contribution(address, round, _, ledger, txHash) => [Num(round), Num(ledger), Str(address), Str(txHash)]
    case Default(address, round, _, ledger, txHash) => [Num(round), Num(ledger), Str(address), Str(txHash)]
    case Payout(_, round, _, _, ledger, txHash) => [Num(round), Num(ledger), Str(txHash)]
  }

  function RowLe(a: Row, b: Row): bool {
    LexLe(PartLe, SortKeys(a), SortKeys(b))
  }

  lemma {:induction false} PartOrder()
    ensures TotalOrder<Part>(PartLe)
  {
    StringOrder();
  }

  lemma {:induction false} RowsTotal(rows: seq<Row>)
    ensures TotalOn(RowLe, rows)
  {
    PartOrder();
    forall a, b | a in rows && b in rows ensures RowLe(a, b) || RowLe(b, a) {
      LexTotal(PartLe, SortKeys(a), SortKeys(b));
    }
    forall a, b, c | a in rows && b in rows && c in rows && RowLe(a, b) && RowLe(b, c) ensures RowLe(a, c) {
      LexTransitive(PartLe, SortKeys(a), SortKeys(b), SortKeys(c));
    }
  }

  /** The order within one kind of rows, column by column. */
  predicate InOrder(a: Row, b: Row) {
    match (a, b)
    case (Member(x, m, _, _, _), Member(y, n, _, _, _)) => m < n || (m == n && StringLe(x, y))
    case (Contribution(_, _, _, _, _), Contribution(_, _, _, _, _)) => EntryInOrder(a, b, true)
    case (Default(_, _, _, _, _), Default(_, _, _, _, _)) => EntryInOrder(a, b, true)
    case (Payout(_, _, _, _, _, _), Payout(_, _, _, _, _, _)) => EntryInOrder(a, b, false)
    case _ => true
  }

  /** By round, then ledger, then (except for payouts) address, then transaction. */
  predicate EntryInOrder(a: Row, b: Row, byAddress: bool)
    requires !a.Member? && !b.Member?
  {
    || a.round < b.round
    || (a.round == b.round &&
          (|| a.ledger < b.ledger
           || (a.ledger == b.ledger &&
                 if byAddress && a.address != b.address then StringLe(a.address, b.address)
                 else StringLe(a.txHash, b.txHash))))
  }

  lemma {:induction false} RowLeInOrder(a: Row, b: Row)
    requires RowLe(a, b)
    ensures InOrder(a, b)
  {
    var s, t := SortKeys(a), SortKeys(b);
    LexLeExactly(PartLe, s, t);
    StringOrder();
    if !(s <= t) {
      var k: nat :| DecidedAt(PartLe, s, t, k);
      assert k == 0 || k == 1 || k == 2 || k == 3;
      assert (k > 0 ==> s[0] == t[0]) && (k > 1 ==> s[1] == t[1]) && (k > 2 ==> s[2] == t[2]);
    } else if |s| == |t| {
      assert s == t && s[0] == t[0] && s[1] == t[1];
      assert |s| > 2 ==> s[2] == t[2];
      assert |s| > 3 ==> s[3] == t[3];
    }
  }

  /** Each exported group is in that order. */
  lemma {:induction false} GroupInOrder(rows: seq<Row>)
    ensures var out := Sort(RowLe, rows);
            && multiset(out) == multiset(rows)
            && forall i, j :: 0 <= i < j < |out| ==> InOrder(out[i], out[j])
  {
    RowsTotal(rows);
    SortSorts(RowLe, rows);
    SortPermutes(RowLe, rows);
    var out := Sort(RowLe, rows);
    forall i, j | 0 <= i < j < |out| ensures InOrder(out[i], out[j]) {
      RowLeInOrder(out[i], out[j]);
    }
  }

  /** Rows with the same sort keys are the same row. */
  ghost predicate KeyedRows(rows: seq<Row>) {
    forall a, b :: a in rows && b in rows && SortKeys(a) == SortKeys(b) ==> a == b
  }

  lemma {:induction false} KeyedAntisymmetric(rows: seq<Row>)
    requires KeyedRows(rows)
    ensures AntisymmetricOn(RowLe, rows)
  {
    PartOrder();
    forall a, b | a in rows && b in rows && RowLe(a, b) && RowLe(b, a) ensures a == b {
      LexAntisymmetric(PartLe, SortKeys(a), SortKeys(b));
    }
  }

  lemma {:induction false} SortedTheSame(rows: seq<Row>, other: seq<Row>)
    requires multiset(rows) == multiset(other) && KeyedRows(rows)
    ensures Sort(RowLe, rows) == Sort(RowLe, other)
  {
    RowsTotal(rows);
    KeyedAntisymmetric(rows);
    SortCanonical(RowLe, rows, other);
  }

  // ----- Amounts and fields -----

  /** The integer a NUMERIC text denotes, if it is one. */
  function ParseInteger(text: string): Option<int> {
    var t := Money.Trim(text);
    var negative := t != "" && t[0] == '-';
    var digits := if negative then t[1..] else t;
    if digits == "" || !AllDigits(digits) then None
    else
      var magnitude: int := Val(digits);
      Some(if negative then -magnitude else magnitude)
  }

  function IntegerText(i: int): string {
    if i < 0 then "-" + Dec(-i) else Dec(i)
  }

  function UsdcText(i: int): string {
    if i < 0 then "-" + Money.ExactUsdc(-i) else Money.ExactUsdc(i)
  }

  const COLUMNS := 13
  const AMOUNT_STROOPS := 8
  const AMOUNT_USDC := 9

  const HEADER: seq<string> := ["network", "circle_address", "record_type", "round_index", "member_address",
    "payout_order", "join_order", "defaults_count", "amount_stroops", "amount_usdc", "exceptional", "ledger", "tx_hash"]

  function JoinText(joinOrder: Option<nat>): string {
    if joinOrder.Some? then Dec(joinOrder.value) else ""
  }

  /** The columns of a row, given the texts of its two amount columns. */
  function CellsOf(network: string, circle: string, r: Row, stroops: string, usdc: string): (f: seq<string>)
    ensures |f| == COLUMNS && f[AMOUNT_STROOPS] == stroops && f[AMOUNT_USDC] == usdc
    ensures f[0] == network && f[1] == circle
  {
    match r
    case Member(address, payoutOrder, joinOrder, defaults, _) =>
      [network, circle, "member", "", address, Dec(payoutOrder), JoinText(joinOrder), Dec(defaults), stroops, usdc,
       "", "", ""]
    case Contribution(address, round, _, ledger, txHash) =>
      [network, circle, "contribution", Dec(round), address, "", "", "", stroops, usdc, "", Dec(ledger), txHash]
    case Default(address, round, _, ledger, txHash) =>
      [network, circle, "default", Dec(round), address, "", "", "", stroops, usdc, "", Dec(ledger), txHash]
    case Payout(address, round, _, exceptional, ledger, txHash) =>
      [network, circle, "payout", Dec(round), address, "", "", "", stroops, usdc,
       if exceptional == Some(true) then "true" else "false", Dec(ledger), txHash]
  }

  function FieldsOf(network: string, circle: string, r: Row, amount: int): (f: seq<string>)
    ensures |f| == COLUMNS && f[AMOUNT_STROOPS] == IntegerText(amount) && f[AMOUNT_USDC] == UsdcText(amount)
  {
    CellsOf(network, circle, r, IntegerText(amount), UsdcText(amount))
  }

  /** How a row is rendered: its fields, unless its amount is no integer. */
  type Renderer = Row -> Option<seq<string>>

  function RecordOf(network: string, circle: string, r: Row): Option<seq<string>> {
    match ParseInteger(r.amount)
    case None => None
    case Some(amount) => Some(FieldsOf(network, circle, r, amount))
  }

  function RendererOf(network: string, circle: string): (render: Renderer)
    ensures Shaped(render)
    ensures forall r :: render(r) == RecordOf(network, circle, r)
  {
    r => RecordOf(network, circle, r)
  }

  ghost predicate Shaped(render: Renderer) {
    forall r :: render(r).Some? ==> |render(r).value| == COLUMNS
  }

  /** One record per row, in order; a row that cannot be rendered spoils all. */
  function RecordsOf(render: Renderer, rows: seq<Row>): Option<seq<seq<string>>> {
    if rows == [] then Some([])
    else
      match (RecordsOf(render, rows[..|rows| - 1]), render(rows[|rows| - 1]))
      case (Some(init), Some(last)) => Some(init + [last])
      case _ => None
  }

  lemma {:induction false} RecordsShape(render: Renderer, rows: seq<Row>)
    requires Shaped(render) && RecordsOf(render, rows).Some?
    ensures var records := RecordsOf(render, rows).value; |records| == |rows| && AllRecords(records)
  {
    if rows != [] {
      RecordsShape(render, rows[..|rows| - 1]);
    }
  }

  /** The record at each place is the record of the row at that place. */
  lemma {:induction false} RecordAt(render: Renderer, rows: seq<Row>, i: nat)
    requires RecordsOf(render, rows).Some? && i < |rows|
    ensures |RecordsOf(render, rows).value| == |rows|
    ensures render(rows[i]) == Some(RecordsOf(render, rows).value[i])
  {
    var n := |rows| - 1;
    if i < n {
      RecordAt(render, rows[..n], i);
    } else if n > 0 {
      RecordAt(render, rows[..n], 0);
    }
  }

  /** The rows before sorting, by kind, in output order. */
  function Groups(a: Activity): (g: seq<seq<Row>>)
    ensures |g| == 4
  {
    [a.members, a.contributions, a.defaults, a.payouts]
  }

  /** All rows of the groups, each group sorted. */
  function Arranged(groups: seq<seq<Row>>): seq<Row> {
    if groups == [] then [] else Arranged(groups[..|groups| - 1]) + Sort(RowLe, groups[|groups| - 1])
  }

  function RowCount(groups: seq<seq<Row>>): nat {
    if groups == [] then 0 else RowCount(groups[..|groups| - 1]) + |groups[|groups| - 1]|
  }

  const BOM: string := "\U{FEFF}"

  datatype Export = TooLarge | BadAmount | Document(text: string)

  predicate AllRecords(records: seq<seq<string>>) {
    forall i :: 0 <= i < |records| ==> |records[i]| == COLUMNS
  }

  function DocumentText(records: seq<seq<string>>): string
    requires AllRecords(records)
  {
    BOM + Lines([HEADER] + records)
  }

  function ExportOf(render: Renderer, groups: seq<seq<Row>>, maxRows: nat): Export
    requires Shaped(render)
  {
    if RowCount(groups) > maxRows then TooLarge
    else
      match RecordsOf(render, Arranged(groups))
      case None => BadAmount
      case Some(records) =>
        RecordsShape(render, Arranged(groups));
        Document(DocumentText(records))
  }

  // ----- The export itself -----

  function Join(parts: seq<string>, separator: string): string {
    if parts == [] then "" else if |parts| == 1 then parts[0] else parts[0] + separator + Join(parts[1..], separator)
  }

  function LineTexts(records: seq<seq<string>>): (lines: seq<string>)
    requires Tabular(records)
    ensures |lines| == |records|
  {
    if records == [] then [] else LineTexts(records[..|records| - 1]) + [Line(records[|records| - 1])]
  }

  lemma {:induction false} LineTextsFront(records: seq<seq<string>>)
    requires Tabular(records) && records != []
    ensures LineTexts(records) == [Line(records[0])] + LineTexts(records[1..])
  {
    if |records| > 1 {
      var init := records[..|records| - 1];
      LineTextsFront(init);
      assert records[1..][..|records| - 2] == init[1..];
    }
  }

  lemma {:induction false} JoinedLines(records: seq<seq<string>>)
    requires Tabular(records) && records != []
    ensures Join(LineTexts(records), "\r\n") + "\r\n" == Lines(records)
  {
    LineTextsFront(records);
    if |records| > 1 {
      JoinedLines(records[1..]);
      assert LineTexts(records)[1..] == LineTexts(records[1..]);
    } else {
      assert LineTexts(records) == [Line(records[0])];
    }
  }

  /** Append one record per row, or stop at an amount that is no integer. */
  method PushRows(render: Renderer, records: seq<seq<string>>, rows: seq<Row>, ghost before: seq<Row>)
    returns (r: Option<seq<seq<string>>>)
    requires Shaped(render) && AllRecords(records) && RecordsOf(render, before) == Some(records)
    ensures r == RecordsOf(render, before + rows)
    ensures r.Some? ==> AllRecords(r.value)
  {
    var out := records;
    assert before + rows[..0] == before;
    for i := 0 to |rows|
      invariant AllRecords(out) && RecordsOf(render, before + rows[..i]) == Some(out)
    {
      ghost var upTo := before + rows[..i + 1];
      assert upTo[..|upTo| - 1] == before + rows[..i] && upTo[|upTo| - 1] == rows[i];
      var record := render(rows[i]);
      if record.None? {
        assert before + rows == upTo + rows[i + 1..];
        SpoiledStays(render, upTo, rows[i + 1..]);
        return None;
      }
      out := out + [record.value];
    }
    assert rows[..|rows|] == rows;
    return Some(out);
  }

  lemma {:induction false} SpoiledStays(render: Renderer, a: seq<Row>, b: seq<Row>)
    requires RecordsOf(render, a).None?
    ensures RecordsOf(render, a + b).None?
  {
    if b == [] {
      assert a + b == a;
    } else {
      assert (a + b)[..|a + b| - 1] == a + b[..|b| - 1];
      SpoiledStays(render, a, b[..|b| - 1]);
    }
  }

  lemma {:induction false} SpoiledNext(render: Renderer, groups: seq<seq<Row>>, i: nat)
    requires i < |groups| && RecordsOf(render, Arranged(groups[..i])).None?
    ensures RecordsOf(render, Arranged(groups[..i + 1])).None?
  {
    assert groups[..i + 1][..i] == groups[..i];
    SpoiledStays(render, Arranged(groups[..i]), Sort(RowLe, groups[i]));
  }

  lemma {:induction false} SpoiledGroup(render: Renderer, groups: seq<seq<Row>>, i: nat)
    requires i <= |groups| && RecordsOf(render, Arranged(groups[..i])).None?
    ensures RecordsOf(render, Arranged(groups)).None?
    decreases |groups| - i
  {
    if i < |groups| {
      SpoiledNext(render, groups, i);
      SpoiledGroup(render, groups, i + 1);
    } else {
      assert groups[..i] == groups;
    }
  }

  /** Some row's amount is not an integer. */
  ghost predicate Unreadable(a: Activity) {
    exists r: Row :: (r in a.members || r in a.contributions || r in a.defaults || r in a.payouts)
      && ParseInteger(r.amount).None?
  }

  lemma {:induction false} SpoiledExactly(render: Renderer, rows: seq<Row>)
    ensures RecordsOf(render, rows).None? <==> exists r :: r in rows && render(r).None?
  {
    if rows != [] {
      SpoiledExactly(render, rows[..|rows| - 1]);
      assert rows == rows[..|rows| - 1] + [rows[|rows| - 1]];
    }
  }

  lemma {:induction false} ArrangedHas(groups: seq<seq<Row>>, r: Row)
    ensures r in Arranged(groups) <==> exists i :: 0 <= i < |groups| && r in groups[i]
  {
    if groups != [] {
      var n := |groups| - 1;
      ArrangedHas(groups[..n], r);
      SortPermutes(RowLe, groups[n]);
      assert r in Sort(RowLe, groups[n]) <==> r in multiset(Sort(RowLe, groups[n]));
      assert r in groups[n] <==> r in multiset(groups[n]);
      assert forall i :: 0 <= i < n ==> groups[..n][i] == groups[i];
    }
  }

  lemma {:induction false} ArrangedRows(a: Activity, r: Row)
    ensures r in Arranged(Groups(a)) <==> r in a.members || r in a.contributions || r in a.defaults || r in a.payouts
  {
    ArrangedHas(Groups(a), r);
    assert Groups(a)[0] == a.members && Groups(a)[1] == a.contributions && Groups(a)[2] == a.defaults && Groups(a)[3] == a.payouts;
  }

  lemma {:induction false} RefusedExactly(a: Activity)
    ensures RecordsOf(RendererOf(a.network, a.circleAddress), Arranged(Groups(a))).None? <==> Unreadable(a)
  {
    var render, rows := RendererOf(a.network, a.circleAddress), Arranged(Groups(a));
    SpoiledExactly(render, rows);
    if r :| r in rows && render(r).None? {
      ArrangedRows(a, r);
      assert ParseInteger(r.amount).None?;
    }
    if Unreadable(a) {
      var r: Row :| (r in a.members || r in a.contributions || r in a.defaults || r in a.payouts) && ParseInteger(r.amount).None?;
      ArrangedRows(a, r);
      assert render(r).None?;
    }
  }

  lemma {:induction false} RowCountOf(a: Activity)
    ensures RowCount(Groups(a)) == |a.members| + |a.contributions| + |a.defaults| + |a.payouts|
  {
    var none: seq<seq<Row>> := [];
    RowCountSnoc(none, a.members);
    RowCountSnoc(none + [a.members], a.contributions);
    RowCountSnoc(none + [a.members] + [a.contributions], a.defaults);
    RowCountSnoc(none + [a.members] + [a.contributions] + [a.defaults], a.payouts);
    assert Groups(a) == none + [a.members] + [a.contributions] + [a.defaults] + [a.payouts];
  }

  lemma {:induction false} RowCountSnoc(groups: seq<seq<Row>>, rows: seq<Row>)
    ensures RowCount(groups + [rows]) == RowCount(groups) + |rows|
  {
    assert (groups + [rows])[..|groups|] == groups;
  }

  /** The export is the document of the arranged rows, unless there are too many rows or an amount is no integer. */
  method BuildCircleActivityCsv(a: Activity, maxRows: nat) returns (e: Export)
    ensures e == ExportOf(RendererOf(a.network, a.circleAddress), Groups(a), maxRows)
    ensures e.TooLarge? <==> |a.members| + |a.contributions| + |a.defaults| + |a.payouts| > maxRows
    ensures e.BadAmount? <==> !e.TooLarge? && Unreadable(a)
  {
    RowCountOf(a);
    RefusedExactly(a);
    var groups, render := Groups(a), RendererOf(a.network, a.circleAddress);
    if RowCount(groups) > maxRows {
      return TooLarge;
    }
    var records := CollectRecords(render, groups);
    if records.None? {
      return BadAmount;
    }
    var text := Render([HEADER] + records.value);
    return Document(text);
  }

  method CollectRecords(render: Renderer, groups: seq<seq<Row>>) returns (r: Option<seq<seq<string>>>)
    requires Shaped(render)
    ensures r == RecordsOf(render, Arranged(groups))
    ensures r.Some? ==> AllRecords(r.value)
  {
    var records: seq<seq<string>> := [];
    for i := 0 to |groups|
      invariant AllRecords(records)
      invariant RecordsOf(render, Arranged(groups[..i])) == Some(records)
    {
      assert groups[..i + 1][..i] == groups[..i];
      var pushed := PushRows(render, records, Sort(RowLe, groups[i]), Arranged(groups[..i]));
      if pushed.None? {
        SpoiledGroup(render, groups, i + 1);
        return None;
      }
      records := pushed.value;
    }
    assert groups[..|groups|] == groups;
    return Some(records);
  }

  method Render(records: seq<seq<string>>) returns (text: string)
    requires Tabular(records) && records != []
    ensures text == BOM + Lines(records)
  {
    var lines := [];
    for i := 0 to |records|
      invariant lines == LineTexts(records[..i])
    {
      assert records[..i + 1][..i] == records[..i];
      lines := lines + [Line(records[i])];
    }
    assert records[..|records|] == records;
    JoinedLines(records);
    text := BOM + (Join(lines, "\r\n") + "\r\n");
  }

  // ----- What the document says -----

  lemma {:induction false} ArrangedCount(groups: seq<seq<Row>>)
    ensures |Arranged(groups)| == RowCount(groups)
  {
    if groups != [] {
      ArrangedCount(groups[..|groups| - 1]);
      SortPermutes(RowLe, groups[|groups| - 1]);
      SameSize(Sort(RowLe, groups[|groups| - 1]), groups[|groups| - 1]);
    }
  }

  /**
   * Read back by the rules of RFC 4180, the document holds the header and one 13-field record per row, in
   * output order, with every field neutralised.
   */
  lemma {:induction false} ExportReadsBack(render: Renderer, groups: seq<seq<Row>>, maxRows: nat)
    returns (records: seq<seq<string>>)
    requires Shaped(render) && ExportOf(render, groups, maxRows).Document?
    ensures RecordsOf(render, Arranged(groups)) == Some(records)
    ensures |records| == RowCount(groups) && AllRecords(records)
    ensures BOM <= ExportOf(render, groups, maxRows).text
    ensures ReadDocument(ExportOf(render, groups, maxRows).text[|BOM|..])
         == Some(NeutralizeRecords([HEADER] + records))
  {
    records := RecordsOf(render, Arranged(groups)).value;
    ArrangedCount(groups);
    RecordsShape(render, Arranged(groups));
    DocumentReads(records);
  }

  lemma {:induction false} DocumentReads(records: seq<seq<string>>)
    requires AllRecords(records)
    ensures BOM <= DocumentText(records)
    ensures ReadDocument(DocumentText(records)[|BOM|..]) == Some(NeutralizeRecords([HEADER] + records))
  {
    var lines := Lines([HEADER] + records);
    assert (BOM + lines)[|BOM|..] == lines;
    ReadLines([HEADER] + records);
  }

  /** The amounts of a non-negative row survive neutralising: both columns convert back to the amount. */
  lemma {:induction false} AmountSurvives(network: string, circle: string, r: Row, amount: nat, longest: nat)
    requires ParseInteger(r.amount) == Some(amount)
    ensures var read := NeutralizeAll(FieldsOf(network, circle, r, amount));
            |read| == COLUMNS && Money.UsdcToStroops(read[AMOUNT_USDC], longest) == Some(amount)
            && ParseInteger(read[AMOUNT_STROOPS]) == Some(amount)
  {
    AmountTexts(amount, longest);
  }

  lemma {:induction false} AmountTexts(amount: nat, longest: nat)
    ensures Money.UsdcToStroops(Neutralize(UsdcText(amount)), longest) == Some(amount)
    ensures ParseInteger(Neutralize(IntegerText(amount))) == Some(amount)
  {
    DigitsAreInert(Money.ExactUsdc(amount));
    DigitsAreInert(Dec(amount));
    Money.ExactRoundTrip(amount, longest);
    IntegerParses(amount);
  }

  lemma {:induction false} DigitsAreInert(v: string)
    requires v != "" && IsDigit(v[0])
    ensures Neutralize(v) == v
  {
  }

  lemma {:induction false} IntegerParses(amount: nat)
    ensures ParseInteger(Dec(amount)) == Some(amount)
  {
    Money.TrimKeeps(Dec(amount));
    DecVal(amount);
  }

  // ----- Recovering the rows -----

  function ReadNat(s: string): Option<nat> {
    match ParseInteger(s)
    case Some(i) => if i >= 0 then Some(i) else None
    case None => None
  }

  function ReadOptionalNat(s: string): Option<Option<nat>> {
    if s == "" then Some(None)
    else
      match ReadNat(s)
      case Some(n) => Some(Some(n))
      case None => None
  }

  /** The row a record's columns describe. */
  function Decode(f: seq<string>): Option<Row>
    requires |f| == COLUMNS
  {
    if f[2] == "member" then
      match (ReadNat(f[5]), ReadOptionalNat(f[6]), ReadNat(f[7]))
      case (Some(payoutOrder), Some(joinOrder), Some(defaults)) => Some(Member(f[4], payoutOrder, joinOrder, defaults, f[8]))
      case _ => None
    else
      match (ReadNat(f[3]), ReadNat(f[11]))
      case (Some(round), Some(ledger)) =>
        if f[2] == "contribution" then Some(Contribution(f[4], round, f[8], ledger, f[12]))
        else if f[2] == "default" then Some(Default(f[4], round, f[8], ledger, f[12]))
        else if f[2] == "payout" then Some(Payout(f[4], round, f[8], Some(f[10] == "true"), ledger, f[12]))
        else None
      case _ => None
  }

  /** A row with the given amount text, and an absent exceptional flag read as false. */
  function Described(r: Row, text: string): Row {
    match r
    case Member(address, payoutOrder, joinOrder, defaults, _) => Member(address, payoutOrder, joinOrder, defaults, text)
    case Contribution(address, round, _, ledger, txHash) => Contribution(address, round, text, ledger, txHash)
    case Default(address, round, _, ledger, txHash) => Default(address, round, text, ledger, txHash)
    case Payout(address, round, _, exceptional, ledger, txHash) =>
      Payout(address, round, text, Some(exceptional == Some(true)), ledger, txHash)
  }

  /** A row with its amount in canonical form. */
  function Canonical(r: Row, amount: int): Row {
    Described(r, IntegerText(amount))
  }

  lemma {:induction false} ReadsNat(n: nat)
    ensures ReadNat(Dec(n)) == Some(n) && ReadOptionalNat(Dec(n)) == Some(Some(n))
  {
    IntegerParses(n);
  }

  lemma {:induction false} MemberDecodes(f: seq<string>, m: Row)
    requires |f| == COLUMNS && f[2] == "member" && m.Member? && f[4] == m.address && f[8] == m.amount
    requires ReadNat(f[5]) == Some(m.payoutOrder) && ReadOptionalNat(f[6]) == Some(m.joinOrder)
    requires ReadNat(f[7]) == Some(m.defaults)
    ensures Decode(f) == Some(m)
  {
  }

  lemma {:induction false} EventDecodes(f: seq<string>, kind: string, n: nat, l: nat)
    requires |f| == COLUMNS && f[2] == kind && kind != "member" && ReadNat(f[3]) == Some(n) && ReadNat(f[11]) == Some(l)
    ensures kind == "contribution" ==> Decode(f) == Some(Contribution(f[4], n, f[8], l, f[12]))
    ensures kind == "default" ==> Decode(f) == Some(Default(f[4], n, f[8], l, f[12]))
    ensures kind == "payout" ==> Decode(f) == Some(Payout(f[4], n, f[8], Some(f[10] == "true"), l, f[12]))
  {
  }

  /** Which column holds what. */
  lemma {:induction false} MemberColumns(network: string, circle: string, r: Row, stroops: string, usdc: string)
    requires r.Member?
    ensures var f := CellsOf(network, circle, r, stroops, usdc);
            && f[2] == "member" && f[4] == r.address && f[5] == Dec(r.payoutOrder) && f[6] == JoinText(r.joinOrder)
            && f[7] == Dec(r.defaults)
  {
  }

  lemma {:induction false} EventColumns(network: string, circle: string, r: Row, stroops: string, usdc: string)
    requires !r.Member?
    ensures var f := CellsOf(network, circle, r, stroops, usdc);
            && f[2] == KindOf(r) && f[3] == Dec(r.round) && f[4] == r.address && f[10] == FlagOf(r)
            && f[11] == Dec(r.ledger) && f[12] == r.txHash
  {
  }

  lemma {:induction false} MemberRecovered(network: string, circle: string, r: Row, stroops: string, usdc: string)
    requires r.Member?
    ensures Decode(CellsOf(network, circle, r, stroops, usdc)) == Some(Described(r, stroops))
  {
    ReadsNat(r.payoutOrder);
    ReadsNat(r.defaults);
    if r.joinOrder.Some? {
      ReadsNat(r.joinOrder.value);
    }
    MemberColumns(network, circle, r, stroops, usdc);
    MemberDecodes(CellsOf(network, circle, r, stroops, usdc), Described(r, stroops));
  }

  lemma {:induction false} EventRecovered(network: string, circle: string, r: Row, stroops: string, usdc: string)
    requires !r.Member?
    ensures Decode(CellsOf(network, circle, r, stroops, usdc)) == Some(Described(r, stroops))
  {
    ReadsNat(r.round);
    ReadsNat(r.ledger);
    EventColumns(network, circle, r, stroops, usdc);
    EventDecodes(CellsOf(network, circle, r, stroops, usdc), KindOf(r), r.round, r.ledger);
  }

  function FlagOf(r: Row): string {
    if !r.Payout? then "" else if r.exceptional == Some(true) then "true" else "false"
  }

  lemma {:induction false} CellsRecovered(network: string, circle: string, r: Row, stroops: string, usdc: string)
    ensures Decode(CellsOf(network, circle, r, stroops, usdc)) == Some(Described(r, stroops))
  {
    if r.Member? {
      MemberRecovered(network, circle, r, stroops, usdc);
    } else {
      EventRecovered(network, circle, r, stroops, usdc);
    }
  }

  function KindOf(r: Row): string {
    match r
    case Member(_, _, _, _, _) => "member"
    case Contribution(_, _, _, _, _) => "contribution"
    case Default(_, _, _, _, _) => "default"
    case Payout(_, _, _, _, _, _) => "payout"
  }

  /** No column is lost or misplaced: a record describes the very row it was made from. */
  lemma {:induction false} RowRecovered(network: string, circle: string, r: Row, amount: int)
    requires RecordOf(network, circle, r) == Some(FieldsOf(network, circle, r, amount))
    ensures Decode(FieldsOf(network, circle, r, amount)) == Some(Canonical(r, amount))
    ensures FieldsOf(network, circle, r, amount)[..2] == [network, circle]
  {
    CellsRecovered(network, circle, r, IntegerText(amount), UsdcText(amount));
  }

  /** A row's address and transaction hash, each behind an apostrophe if at risk. */
  function Neutral(r: Row): Row {
    match r
    case Member(address, payoutOrder, joinOrder, defaults, amount) =>
      Member(Neutralize(address), payoutOrder, joinOrder, defaults, amount)
    case Contribution(address, round, amount, ledger, txHash) =>
      Contribution(Neutralize(address), round, amount, ledger, Neutralize(txHash))
    case Default(address, round, amount, ledger, txHash) =>
      Default(Neutralize(address), round, amount, ledger, Neutralize(txHash))
    case Payout(address, round, amount, exceptional, ledger, txHash) =>
      Payout(Neutralize(address), round, amount, exceptional, ledger, Neutralize(txHash))
  }

  /** The row a reader of the file gets: every text the row was written with, behind an apostrophe if at risk. */
  function AsRead(r: Row, amount: int): Row {
    Described(Neutral(r), Neutralize(IntegerText(amount)))
  }

  lemma {:induction false} NumeralKept(n: nat)
    ensures Neutralize(Dec(n)) == Dec(n)
  {
    DigitsAreInert(Dec(n));
  }

  lemma {:induction false} KindKept(r: Row)
    ensures Neutralize(KindOf(r)) == KindOf(r) && Neutralize(FlagOf(r)) == FlagOf(r)
  {
  }

  lemma {:induction false} NeutralJoin(f: seq<string>, g: seq<string>)
    ensures NeutralizeAll(f + g) == NeutralizeAll(f) + NeutralizeAll(g)
  {
  }

  lemma {:induction false} NeutralFour(a: string, b: string, c: string, d: string)
    ensures NeutralizeAll([a, b, c, d]) == [Neutralize(a), Neutralize(b), Neutralize(c), Neutralize(d)]
  {
  }

  /** The columns of a record in three parts. */
  lemma {:induction false} Parts(a: string, b: string, c: string, d: string, e: string, f: string, g: string, h: string,
                                 i: string, j: string, k: string, l: string, m: string)
    ensures [a, b, c, d, e, f, g, h, i, j, k, l, m] == [a, b, c, d] + [e, f, g, h] + [i, j, k, l] + [m]
  {
  }

  lemma {:induction false} NeutralParts(a: string, b: string, c: string, d: string, e: string, f: string, g: string, h: string,
                                        i: string, j: string, k: string, l: string, m: string)
    ensures NeutralizeAll([a, b, c, d, e, f, g, h, i, j, k, l, m])
         == [Neutralize(a), Neutralize(b), Neutralize(c), Neutralize(d)]
          + [Neutralize(e), Neutralize(f), Neutralize(g), Neutralize(h)]
          + [Neutralize(i), Neutralize(j), Neutralize(k), Neutralize(l)] + [Neutralize(m)]
  {
    Parts(a, b, c, d, e, f, g, h, i, j, k, l, m);
    NeutralJoin([a, b, c, d] + [e, f, g, h] + [i, j, k, l], [m]);
    NeutralJoin([a, b, c, d] + [e, f, g, h], [i, j, k, l]);
    NeutralJoin([a, b, c, d], [e, f, g, h]);
    NeutralFour(a, b, c, d);
    NeutralFour(e, f, g, h);
    NeutralFour(i, j, k, l);
    assert NeutralizeAll([m]) == [Neutralize(m)];
  }

  lemma {:induction false} NeutralColumns(a: string, b: string, c: string, d: string, e: string, f: string, g: string, h: string,
                                        i: string, j: string, k: string, l: string, m: string)
    ensures NeutralizeAll([a, b, c, d, e, f, g, h, i, j, k, l, m])
         == [Neutralize(a), Neutralize(b), Neutralize(c), Neutralize(d), Neutralize(e), Neutralize(f), Neutralize(g),
             Neutralize(h), Neutralize(i), Neutralize(j), Neutralize(k), Neutralize(l), Neutralize(m)]
  {
    NeutralParts(a, b, c, d, e, f, g, h, i, j, k, l, m);
    Parts(Neutralize(a), Neutralize(b), Neutralize(c), Neutralize(d), Neutralize(e), Neutralize(f), Neutralize(g),
          Neutralize(h), Neutralize(i), Neutralize(j), Neutralize(k), Neutralize(l), Neutralize(m));
  }

  lemma {:induction false} JoinKept(joinOrder: Option<nat>)
    ensures Neutralize(JoinText(joinOrder)) == JoinText(joinOrder)
  {
    if joinOrder.Some? {
      NumeralKept(joinOrder.value);
    }
  }

  lemma {:induction false} NeutralMemberCells(network: string, circle: string, address: string, order: string, join: string,
                                              defaults: string, stroops: string, usdc: string)
    requires Neutralize(order) == order && Neutralize(join) == join && Neutralize(defaults) == defaults
    ensures NeutralizeAll([network, circle, "member", "", address, order, join, defaults, stroops, usdc, "", "", ""])
         == [Neutralize(network), Neutralize(circle), "member", "", Neutralize(address), order, join, defaults,
             Neutralize(stroops), Neutralize(usdc), "", "", ""]
  {
    NeutralColumns(network, circle, "member", "", address, order, join, defaults, stroops, usdc, "", "", "");
  }

  lemma {:induction false} NeutralMember(network: string, circle: string, r: Row, stroops: string, usdc: string)
    requires r.Member?
    ensures NeutralizeAll(CellsOf(network, circle, r, stroops, usdc))
         == CellsOf(Neutralize(network), Neutralize(circle), Neutral(r), Neutralize(stroops), Neutralize(usdc))
  {
    NumeralKept(r.payoutOrder);
    NumeralKept(r.defaults);
    JoinKept(r.joinOrder);
    NeutralMemberCells(network, circle, r.address, Dec(r.payoutOrder), JoinText(r.joinOrder), Dec(r.defaults), stroops, usdc);
  }

  lemma {:induction false} NeutralEvent(network: string, circle: string, r: Row, stroops: string, usdc: string)
    requires !r.Member?
    ensures NeutralizeAll(CellsOf(network, circle, r, stroops, usdc))
         == CellsOf(Neutralize(network), Neutralize(circle), Neutral(r), Neutralize(stroops), Neutralize(usdc))
  {
    NumeralKept(r.round);
    NumeralKept(r.ledger);
    KindKept(r);
    NeutralColumns(network, circle, KindOf(r), Dec(r.round), r.address, "", "", "", stroops, usdc, FlagOf(r),
                   Dec(r.ledger), r.txHash);
  }

  /** Neutralising the columns of a row gives the columns of its neutralised texts. */
  lemma {:induction false} NeutralCells(network: string, circle: string, r: Row, stroops: string, usdc: string)
    ensures NeutralizeAll(CellsOf(network, circle, r, stroops, usdc))
         == CellsOf(Neutralize(network), Neutralize(circle), Neutral(r), Neutralize(stroops), Neutralize(usdc))
  {
    if r.Member? {
      NeutralMember(network, circle, r, stroops, usdc);
    } else {
      NeutralEvent(network, circle, r, stroops, usdc);
    }
  }

  lemma {:induction false} RowAsRead(network: string, circle: string, r: Row, amount: int)
    ensures Decode(NeutralizeAll(FieldsOf(network, circle, r, amount))) == Some(AsRead(r, amount))
  {
    var stroops, usdc := IntegerText(amount), UsdcText(amount);
    NeutralCells(network, circle, r, stroops, usdc);
    CellsRecovered(Neutralize(network), Neutralize(circle), Neutral(r), Neutralize(stroops), Neutralize(usdc));
  }

  /** Nothing the row is written with is at risk. */
  predicate Safe(network: string, circle: string, r: Row, amount: int) {
    && amount >= 0 && Inert(network) && Inert(circle) && Inert(r.address)
    && (r.Member? || Inert(r.txHash))
  }

  lemma {:induction false} IntegerKeptExactly(amount: int)
    ensures Neutralize(IntegerText(amount)) == IntegerText(amount) <==> amount >= 0
  {
    KeptExactly(IntegerText(amount));
  }

  lemma {:induction false} UsdcKept(amount: nat)
    ensures Neutralize(UsdcText(amount)) == UsdcText(amount)
  {
    DigitsAreInert(Money.ExactUsdc(amount));
  }

  lemma {:induction false} RowKeptExactly(network: string, circle: string, r: Row, amount: int)
    ensures Safe(network, circle, r, amount)
       <==> Neutralize(network) == network && Neutralize(circle) == circle && AsRead(r, amount) == Canonical(r, amount)
  {
    KeptExactly(network);
    KeptExactly(circle);
    KeptExactly(r.address);
    IntegerKeptExactly(amount);
    if !r.Member? {
      KeptExactly(r.txHash);
    }
  }

  lemma {:induction false} NeutralSafe(network: string, circle: string, r: Row, amount: int)
    requires Safe(network, circle, r, amount)
    ensures Neutral(r) == r && Neutralize(network) == network && Neutralize(circle) == circle
  {
  }

  /** The writer leaves every field of a row alone exactly when nothing in it is at risk. */
  lemma {:induction false} FieldsKeptExactly(network: string, circle: string, r: Row, amount: int)
    ensures NeutralizeAll(FieldsOf(network, circle, r, amount)) == FieldsOf(network, circle, r, amount)
       <==> Safe(network, circle, r, amount)
  {
    var stroops, usdc := IntegerText(amount), UsdcText(amount);
    NeutralCells(network, circle, r, stroops, usdc);
    if Safe(network, circle, r, amount) {
      NeutralSafe(network, circle, r, amount);
      IntegerKeptExactly(amount);
      UsdcKept(amount);
    } else if NeutralizeAll(FieldsOf(network, circle, r, amount)) == FieldsOf(network, circle, r, amount) {
      RowKeptExactly(network, circle, r, amount);
      RowAsRead(network, circle, r, amount);
      CellsRecovered(network, circle, r, stroops, usdc);
    }
  }

  /**
   * What a reader of the file gets back, row by row in output order: the circle and the very row that was
   * exported exactly when nothing in it is at risk, and otherwise the same row with apostrophes in front of the
   * texts at risk.
   */
  lemma {:induction false} FileGivesRows(network: string, circle: string, groups: seq<seq<Row>>, maxRows: nat)
    returns (file: seq<seq<string>>)
    requires ExportOf(RendererOf(network, circle), groups, maxRows).Document?
    ensures BOM <= ExportOf(RendererOf(network, circle), groups, maxRows).text
    ensures ReadDocument(ExportOf(RendererOf(network, circle), groups, maxRows).text[|BOM|..]) == Some(file)
    ensures |file| == 1 + |Arranged(groups)| && |Arranged(groups)| == RowCount(groups)
    ensures forall i :: 0 <= i < |Arranged(groups)| ==> GivesRow(network, circle, Arranged(groups)[i], file[i + 1])
  {
    var render, rows := RendererOf(network, circle), Arranged(groups);
    var records := ExportReadsBack(render, groups, maxRows);
    ArrangedCount(groups);
    file := NeutralizeRecords([HEADER] + records);
    forall i | 0 <= i < |rows| ensures GivesRow(network, circle, rows[i], file[i + 1]) {
      RecordAt(render, rows, i);
      assert file[i + 1] == NeutralizeAll(records[i]);
      RecordGivesRow(network, circle, rows[i]);
    }
  }

  ghost predicate GivesRow(network: string, circle: string, r: Row, record: seq<string>) {
    && |record| == COLUMNS && ParseInteger(r.amount).Some?
    && var amount := ParseInteger(r.amount).value;
       && record[0] == Neutralize(network) && record[1] == Neutralize(circle)
       && Decode(record) == Some(AsRead(r, amount))
       && (Safe(network, circle, r, amount)
           <==> record[..2] == [network, circle] && Decode(record) == Some(Canonical(r, amount)))
  }

  lemma {:induction false} RecordGivesRow(network: string, circle: string, r: Row)
    requires RecordOf(network, circle, r).Some?
    ensures GivesRow(network, circle, r, NeutralizeAll(RecordOf(network, circle, r).value))
  {
    var amount := ParseInteger(r.amount).value;
    var fields := FieldsOf(network, circle, r, amount);
    RowAsRead(network, circle, r, amount);
    RowKeptExactly(network, circle, r, amount);
    LeadingCells(fields, NeutralizeAll(fields));
  }

  lemma {:induction false} LeadingCells(fields: seq<string>, record: seq<string>)
    requires |fields| == |record| == COLUMNS && record == NeutralizeAll(fields)
    ensures record[0] == Neutralize(fields[0]) && record[1] == Neutralize(fields[1])
    ensures record[..2] == [record[0], record[1]]
  {
  }

  ghost predicate SameRows(a: seq<seq<Row>>, b: seq<seq<Row>>) {
    |a| == |b| && forall k :: 0 <= k < |a| ==> multiset(a[k]) == multiset(b[k])
  }

  ghost predicate Keyed(groups: seq<seq<Row>>) {
    forall k :: 0 <= k < |groups| ==> KeyedRows(groups[k])
  }

  /** The order of the input rows does not show in the document. */
  lemma {:induction false} ArrangedIndependent(a: seq<seq<Row>>, b: seq<seq<Row>>)
    requires SameRows(a, b) && Keyed(a)
    ensures Arranged(a) == Arranged(b) && RowCount(a) == RowCount(b)
  {
    if a != [] {
      var n := |a| - 1;
      ArrangedIndependent(a[..n], b[..n]);
      SortedTheSame(a[n], b[n]);
      SameSize(a[n], b[n]);
    }
  }

  lemma {:induction false} OrderIndependent(render: Renderer, a: seq<seq<Row>>, b: seq<seq<Row>>, maxRows: nat)
    requires Shaped(render) && SameRows(a, b) && Keyed(a)
    ensures ExportOf(render, a, maxRows) == ExportOf(render, b, maxRows)
  {
    ArrangedIndependent(a, b);
  }
}
