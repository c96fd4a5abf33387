/**
 * The delivery dispatcher (send_email_with_QR.py): it resolves the
 * `unique_id`, `email` and `name` columns by header, creates the
 * `email_sent` column when it is missing, and walks the data rows of one
 * snapshot of the sheet in order. A row already marked "yes" is skipped and
 * counted; a row with its three cells present, a non-empty identifier and a
 * non-blank address is sent, and marked "yes" right after a successful send.
 *
 * The mail transport (`send_email_with_qr_and_pdf`) is an oracle:
 * `transport(k, m)` is whether the k-th send of the run, of message `m`,
 * succeeded.
 */
module Dispatcher {
  import opened Options
  import opened Text
  import opened Sheets
  import QrGenerator

  const EmailHeader := "email"
  const NameHeader := "name"
  const StatusHeader := "email_sent"
  const SentMark := "yes"
  const NamePlaceholder := "{name}"

  /** The default of `QR_CODES_DIR`, the directory the images are generated into. */
  const DefaultQrCodesDir := "qr_codes"

  /**
   * The environment-provided settings the run depends on; `template` is the
   * content of the template file, `None` when that file does not exist.
   */
  datatype Config = Config(qrCodesDir: string, pdfPath: string, template: Option<string>)

  /** `load_email_template(name)`. */
  function LoadEmailTemplate(template: Option<string>, name: string): string
  {
    match template
    case Some(text) => ReplaceAll(text, NamePlaceholder, name)
    case None =>
      "<html><body><h1>Hello " + name + "</h1><p>Please find your QR code attached.</p></body></html>"
  }

  /**
   * Without a template file the body is one fixed page, the same for every
   * recipient except that the name is inserted after the greeting's
   * "Hello ", so the name does appear in it.
   */
  lemma FallbackTemplate(name: string)
    ensures var page := LoadEmailTemplate(None, "");
      && |page| == 82
      && LoadEmailTemplate(None, name) == page[..22] + name + page[22..]
    ensures OccursAt(LoadEmailTemplate(None, name), name, 22)
  {
    var page := LoadEmailTemplate(None, "");
    var r := LoadEmailTemplate(None, name);
    assert r[22..22 + |name|] == name;
  }

  /** A template without the `{name}` placeholder is used as it is. */
  lemma TemplateWithoutPlaceholder(text: string, name: string)
    requires !Contains(text, NamePlaceholder)
    ensures LoadEmailTemplate(Some(text), name) == text
  {
    ReplaceAbsent(text, NamePlaceholder, name);
  }

  /**
   * The name goes where the placeholder was: in a template whose first
   * `{name}` follows `a`, the body is `a` as written, then the name, then
   * the rest of the template with its own placeholders replaced.
   * (`FirstOccurrence` shows every template holding `{name}` splits so.)
   */
  lemma TemplatePlacesName(a: string, b: string, name: string)
    requires !Contains(a + NamePlaceholder[..|NamePlaceholder| - 1], NamePlaceholder)
    ensures LoadEmailTemplate(Some(a + NamePlaceholder + b), name) == a + name + LoadEmailTemplate(Some(b), name)
  {
    ReplaceFirst(a, NamePlaceholder, name, b);
  }

  /**
   * Counting only: the body differs in length from the template by one
   * name-for-placeholder swap per each of the `k` placeholders, and with
   * `k = 0` the template is unchanged. `TemplatePlacesName` says where the
   * names go.
   */
  lemma TemplateSubstitutesEveryPlaceholder(text: string, name: string)
    ensures var k := Occurrences(text, NamePlaceholder);
      |LoadEmailTemplate(Some(text), name)| + k * |NamePlaceholder| == |text| + k * |name|
    ensures Occurrences(text, NamePlaceholder) == 0 ==> LoadEmailTemplate(Some(text), name) == text
  {
    ReplaceLength(text, NamePlaceholder, name);
    OccurrencesZeroIff(text, NamePlaceholder);
    if Occurrences(text, NamePlaceholder) == 0 {
      ReplaceAbsent(text, NamePlaceholder, name);
    }
  }

  /** The 0-based positions of the three required columns. */
  datatype Columns = Columns(uniqueId: nat, email: nat, name: nat)

  datatype Resolution = Resolved(cols: Columns) | Missing(header: string)

  /**
   * The required columns, each at its first header; checked in the order
   * `unique_id`, `email`, `name`, the first one absent being reported.
   */
  function ResolveColumns(headers: seq<string>): (r: Resolution)
    ensures r.Resolved? <==> UniqueIdHeader in headers && EmailHeader in headers && NameHeader in headers
    ensures r.Missing? ==> r.header !in headers
    ensures r.Missing? ==> r.header == (if UniqueIdHeader !in headers then UniqueIdHeader
                                        else if EmailHeader !in headers then EmailHeader else NameHeader)
    ensures r.Resolved? ==>
      && r.cols.uniqueId < |headers| && headers[r.cols.uniqueId] == UniqueIdHeader
      && UniqueIdHeader !in headers[..r.cols.uniqueId]
      && r.cols.email < |headers| && headers[r.cols.email] == EmailHeader
      && EmailHeader !in headers[..r.cols.email]
      && r.cols.name < |headers| && headers[r.cols.name] == NameHeader
      && NameHeader !in headers[..r.cols.name]
  {
    if UniqueIdHeader !in headers then Missing(UniqueIdHeader)
    else if EmailHeader !in headers then Missing(EmailHeader)
    else if NameHeader !in headers then Missing(NameHeader)
    else Resolved(Columns(IndexOf(headers, UniqueIdHeader), IndexOf(headers, EmailHeader), IndexOf(headers, NameHeader)))
  }

  /**
   * The 1-based column of the delivery marker: the first `email_sent`
   * header, or the column just past the last header when there is none.
   */
  function StatusColumn(headers: seq<string>): (col: nat)
    ensures col >= 1
    ensures StatusHeader in headers ==>
      col <= |headers| && headers[col - 1] == StatusHeader && StatusHeader !in headers[..col - 1]
    ensures StatusHeader !in headers ==> col == |headers| + 1
  {
    if StatusHeader in headers then IndexOf(headers, StatusHeader) + 1 else |headers| + 1
  }

  /** The table once the `email_sent` header is in place. */
  function WithStatusHeader(t: Table): Table
    requires t != []
  {
    if StatusHeader in t[0] then t else SetCell(t, 1, |t[0]| + 1, StatusHeader)
  }

  /** The header write of a run: one, to row 1 just past the headers, when `email_sent` is missing. */
  function StatusHeaderWrites(headers: seq<string>): seq<Write>
  {
    if StatusHeader in headers then [] else [CellWrite(1, |headers| + 1, StatusHeader)]
  }

  /** The delivery status of a row: its marker cell stripped and lower-cased, empty when the row is too short. */
  function Status(row: Row, statusCol: nat): string
    requires statusCol >= 1
  {
    if statusCol - 1 < |row| then Lower(Strip(row[statusCol - 1])) else ""
  }

  /** A row counts as delivered exactly when its marker cell reads "yes" in any case, blanks around it aside. */
  lemma StatusIsSentIff(row: Row, statusCol: nat)
    requires statusCol >= 1
    ensures Status(row, statusCol) == SentMark <==>
      statusCol - 1 < |row| &&
      var s := Strip(row[statusCol - 1]); |s| == 3 && s[0] in "yY" && s[1] in "eE" && s[2] in "sS"
  {
    if statusCol - 1 < |row| {
      LowerIsYesIff(Strip(row[statusCol - 1]));
    }
  }

  /** The marker the dispatcher writes reads back as delivered. */
  lemma SentMarkReadsAsSent()
    ensures Lower(Strip(SentMark)) == SentMark
  {
    assert !IsSpace('y') && !IsSpace('s');
    assert TrimStart(SentMark) == SentMark;
    assert TrimEnd(SentMark) == SentMark;
    LowerIsYesIff(SentMark);
  }

  /** What `send_email_with_qr_and_pdf` sends: recipient, templated body, the QR image found at its path (if any), the PDF. */
  datatype Message = Message(
    recipient: string,
    name: string,
    body: string,
    qrPath: string,
    qrImage: Option<string>,
    pdfPath: string)

  /** The message for one row; `images` is the QR file store at the time of the run. */
  function Compose(cfg: Config, images: map<string, string>, recipient: string, name: string, uniqueId: string): Message
  {
    var qrPath := QrGenerator.QrPath(cfg.qrCodesDir, uniqueId);
    Message(recipient, name, LoadEmailTemplate(cfg.template, name), qrPath,
            if qrPath in images then Some(images[qrPath]) else None, cfg.pdfPath)
  }

  datatype Disposition = AlreadySent | Incomplete | Ready(message: Message)

  /** What the dispatcher does with one data row. */
  function Classify(row: Row, cols: Columns, statusCol: nat, cfg: Config, images: map<string, string>): Disposition
    requires statusCol >= 1
  {
    if Status(row, statusCol) == SentMark then AlreadySent
    else if cols.uniqueId < |row| && cols.email < |row| && cols.name < |row|
         && row[cols.uniqueId] != "" && Strip(row[cols.email]) != ""
    then Ready(Compose(cfg, images, Strip(row[cols.email]), row[cols.name], row[cols.uniqueId]))
    else Incomplete
  }

  /**
   * A row is sent exactly when it is not marked delivered, its three
   * required cells exist, its identifier is non-empty and its address has a
   * non-blank character; the name may be empty. The message goes to the
   * stripped address, greets the name as written and attaches the image
   * named after the identifier.
   */
  lemma ReadyIff(row: Row, cols: Columns, statusCol: nat, cfg: Config, images: map<string, string>)
    requires statusCol >= 1
    ensures Classify(row, cols, statusCol, cfg, images).Ready? <==>
      && Status(row, statusCol) != SentMark
      && cols.uniqueId < |row| && cols.email < |row| && cols.name < |row|
      && row[cols.uniqueId] != ""
      && !AllSpace(row[cols.email])
    ensures Classify(row, cols, statusCol, cfg, images).Ready? ==>
      var m := Classify(row, cols, statusCol, cfg, images).message;
      && m.recipient == Strip(row[cols.email]) && m.name == row[cols.name]
      && m.qrPath == QrGenerator.PathJoin(cfg.qrCodesDir, QrGenerator.QrFileName(row[cols.uniqueId]))
      && m.body == LoadEmailTemplate(cfg.template, row[cols.name])
  {
    if cols.email < |row| {
      StripEmptyIff(row[cols.email]);
    }
  }

  /** One send attempt of a run: the row (0-based), the message and whether the transport succeeded. */
  datatype Attempt = Attempt(row: nat, message: Message, delivered: bool)

  /** The dispatcher's decision for every row, under one resolution of the columns. */
  function Classifier(cols: Columns, statusCol: nat, cfg: Config, images: map<string, string>): Row -> Disposition
    requires statusCol >= 1
  {
    row => Classify(row, cols, statusCol, cfg, images)
  }

  /** Applying the classifier is classifying. */
  lemma ClassifierApplies(cols: Columns, statusCol: nat, cfg: Config, images: map<string, string>, row: Row)
    requires statusCol >= 1
    ensures Classifier(cols, statusCol, cfg, images)(row) == Classify(row, cols, statusCol, cfg, images)
  {
  }

  /**
   * The send attempts among data rows 1 .. n-1, in table order, given each
   * row's disposition; the k-th attempt's outcome is the transport's answer
   * to the k-th send.
   */
  function Plan(t: Table, n: nat, classify: Row -> Disposition, transport: (nat, Message) -> bool): seq<Attempt>
    requires n <= |t|
  {
    if n <= 1 then []
    else
      var prev := Plan(t, n - 1, classify, transport);
      var d := classify(t[n - 1]);
      if d.Ready? then prev + [Attempt(n - 1, d.message, transport(|prev|, d.message))] else prev
  }

  /**
   * Only ready rows among 1 .. n-1 are attempted, each with its own message,
   * in increasing row order, and the k-th attempt's outcome is the
   * transport's answer to the k-th send.
   */
  predicate SoundAttempts(t: Table, n: nat, classify: Row -> Disposition, transport: (nat, Message) -> bool,
                          p: seq<Attempt>)
  {
    AttemptRows(p, n) && AttemptMessages(t, classify, p) && AttemptOutcomes(transport, p)
  }

  /** The attempted rows are data rows before `n`, in increasing order. */
  predicate AttemptRows(p: seq<Attempt>, n: nat)
  {
    && (forall k :: 0 <= k < |p| ==> 1 <= p[k].row < n)
    && (forall a, b :: 0 <= a < b < |p| ==> p[a].row < p[b].row)
  }

  /** Each attempt sends the message of its row, which is ready. */
  predicate AttemptMessages(t: Table, classify: Row -> Disposition, p: seq<Attempt>)
  {
    forall k :: 0 <= k < |p| ==> p[k].row < |t| && classify(t[p[k].row]) == Ready(p[k].message)
  }

  /** The k-th attempt's outcome is the transport's answer to the k-th send. */
  predicate AttemptOutcomes(transport: (nat, Message) -> bool, p: seq<Attempt>)
  {
    forall k :: 0 <= k < |p| ==> p[k].delivered == transport(k, p[k].message)
  }

  lemma PlanSound(t: Table, n: nat, classify: Row -> Disposition, transport: (nat, Message) -> bool)
    requires n <= |t|
    ensures SoundAttempts(t, n, classify, transport, Plan(t, n, classify, transport))
  {
    PlanRows(t, n, classify, transport);
    PlanMessages(t, n, classify, transport);
    PlanOutcomes(t, n, classify, transport);
  }

  lemma {:induction false} PlanRows(t: Table, n: nat, classify: Row -> Disposition, transport: (nat, Message) -> bool)
    requires n <= |t|
    ensures AttemptRows(Plan(t, n, classify, transport), n)
  {
    if n > 1 {
      PlanRows(t, n - 1, classify, transport);
      var prev := Plan(t, n - 1, classify, transport);
      var d := classify(t[n - 1]);
      if d.Ready? {
        var p := prev + [Attempt(n - 1, d.message, transport(|prev|, d.message))];
        assert Plan(t, n, classify, transport) == p;
        assert forall k :: 0 <= k < |prev| ==> p[k] == prev[k];
      }
    }
  }

  lemma {:induction false} PlanMessages(t: Table, n: nat, classify: Row -> Disposition, transport: (nat, Message) -> bool)
    requires n <= |t|
    ensures AttemptMessages(t, classify, Plan(t, n, classify, transport))
  {
    if n > 1 {
      PlanMessages(t, n - 1, classify, transport);
      var prev := Plan(t, n - 1, classify, transport);
      var d := classify(t[n - 1]);
      if d.Ready? {
        var p := prev + [Attempt(n - 1, d.message, transport(|prev|, d.message))];
        assert Plan(t, n, classify, transport) == p;
        assert forall k :: 0 <= k < |prev| ==> p[k] == prev[k];
      }
    }
  }

  lemma {:induction false} PlanOutcomes(t: Table, n: nat, classify: Row -> Disposition, transport: (nat, Message) -> bool)
    requires n <= |t|
    ensures AttemptOutcomes(transport, Plan(t, n, classify, transport))
  {
    if n > 1 {
      PlanOutcomes(t, n - 1, classify, transport);
      var prev := Plan(t, n - 1, classify, transport);
      var d := classify(t[n - 1]);
      if d.Ready? {
        var p := prev + [Attempt(n - 1, d.message, transport(|prev|, d.message))];
        assert Plan(t, n, classify, transport) == p;
        assert forall k :: 0 <= k < |prev| ==> p[k] == prev[k];
      }
    }
  }

  /** Looking at one more row adds its attempt exactly when it is ready. */
  lemma PlanStep(t: Table, n: nat, classify: Row -> Disposition, transport: (nat, Message) -> bool)
    requires 1 <= n < |t|
    ensures var prev := Plan(t, n, classify, transport);
      var d := classify(t[n]);
      Plan(t, n + 1, classify, transport) ==
        if d.Ready? then prev + [Attempt(n, d.message, transport(|prev|, d.message))] else prev
  {
  }

  /** Every data row that is ready is attempted. */
  lemma {:induction false} PlanAttemptsEveryReadyRow(t: Table, n: nat, classify: Row -> Disposition,
                                                     transport: (nat, Message) -> bool, r: nat)
    requires n <= |t| && 1 <= r < n
    requires classify(t[r]).Ready?
    ensures exists k :: 0 <= k < |Plan(t, n, classify, transport)| && Plan(t, n, classify, transport)[k].row == r
  {
    var prev := Plan(t, n - 1, classify, transport);
    if r < n - 1 {
      PlanAttemptsEveryReadyRow(t, n - 1, classify, transport, r);
      var k :| 0 <= k < |prev| && prev[k].row == r;
      assert Plan(t, n, classify, transport)[k] == prev[k];
    } else {
      assert Plan(t, n, classify, transport)[|prev|].row == r;
    }
  }

  /** A row marked delivered in the snapshot is never sent again. */
  lemma AlreadySentNeverAttempted(t: Table, n: nat, cols: Columns, statusCol: nat, cfg: Config,
                                  images: map<string, string>, transport: (nat, Message) -> bool, r: nat)
    requires n <= |t| && statusCol >= 1 && r < |t|
    requires Status(t[r], statusCol) == SentMark
    ensures forall k :: 0 <= k < |Plan(t, n, Classifier(cols, statusCol, cfg, images), transport)| ==>
      Plan(t, n, Classifier(cols, statusCol, cfg, images), transport)[k].row != r
  {
    PlanSound(t, n, Classifier(cols, statusCol, cfg, images), transport);
  }

  /** How many of data rows 1 .. n-1 are skipped as already delivered. */
  function Skipped(t: Table, n: nat, statusCol: nat): nat
    requires n <= |t| && statusCol >= 1
  {
    if n <= 1 then 0
    else Skipped(t, n - 1, statusCol) + (if Status(t[n - 1], statusCol) == SentMark then 1 else 0)
  }

  /** Looking at one more row counts it exactly when it reads as delivered. */
  lemma SkippedStep(t: Table, n: nat, statusCol: nat)
    requires 1 <= n < |t| && statusCol >= 1
    ensures Skipped(t, n + 1, statusCol) == Skipped(t, n, statusCol) + if Status(t[n], statusCol) == SentMark then 1 else 0
  {
  }

  /** Row `r` of the table reads as delivered. */
  predicate RowDelivered(t: Table, r: nat, statusCol: nat)
    requires r < |t| && statusCol >= 1
  {
    Status(t[r], statusCol) == SentMark
  }

  /** The data rows before `n` that read as delivered. */
  ghost function DeliveredBefore(t: Table, n: nat, statusCol: nat): set<nat>
    requires n <= |t| && statusCol >= 1
  {
    set r: nat | 1 <= r < n && RowDelivered(t, r, statusCol)
  }

  /** The same rows, gathered one row at a time as `skipped_count` meets them. */
  ghost function DeliveredUpTo(t: Table, n: nat, statusCol: nat): set<nat>
    requires n <= |t| && statusCol >= 1
  {
    if n <= 1 then {}
    else DeliveredUpTo(t, n - 1, statusCol) + if RowDelivered(t, n - 1, statusCol) then {n - 1} else {}
  }

  /** `skipped_count` counts exactly the data rows that read as delivered, each once. */
  lemma SkippedCounts(t: Table, n: nat, statusCol: nat)
    requires n <= |t| && statusCol >= 1
    ensures Skipped(t, n, statusCol) == |DeliveredBefore(t, n, statusCol)|
  {
    SkippedCountsGathered(t, n, statusCol);
    forall r: nat
      ensures r in DeliveredUpTo(t, n, statusCol) <==> r in DeliveredBefore(t, n, statusCol)
    {
      GatheredMember(t, n, statusCol, r);
    }
    assert DeliveredUpTo(t, n, statusCol) == DeliveredBefore(t, n, statusCol);
  }

  /** Each row met adds one to the count exactly when it is gathered, and it was not gathered before. */
  lemma {:induction false} SkippedCountsGathered(t: Table, n: nat, statusCol: nat)
    requires n <= |t| && statusCol >= 1
    ensures Skipped(t, n, statusCol) == |DeliveredUpTo(t, n, statusCol)|
    ensures forall r :: r in DeliveredUpTo(t, n, statusCol) ==> 1 <= r < n
  {
    if n > 1 {
      SkippedCountsGathered(t, n - 1, statusCol);
    }
  }

  /** A row is gathered exactly when it is a data row before `n` that reads as delivered. */
  lemma {:induction false} GatheredMember(t: Table, n: nat, statusCol: nat, r: nat)
    requires n <= |t| && statusCol >= 1
    ensures r in DeliveredUpTo(t, n, statusCol) <==> 1 <= r < n && RowDelivered(t, r, statusCol)
  {
    if n > 1 {
      GatheredMember(t, n - 1, statusCol, r);
      var last := RowDelivered(t, n - 1, statusCol);
      assert DeliveredUpTo(t, n, statusCol) == DeliveredUpTo(t, n - 1, statusCol) + if last then {n - 1} else {};
      if r == n - 1 {
        assert r !in DeliveredUpTo(t, n - 1, statusCol);
      }
    }
  }

  /** The rows whose send succeeded, in the order of the attempts. */
  function DeliveredRows(p: seq<Attempt>): seq<nat>
  {
    if p == [] then []
    else DeliveredRows(p[..|p| - 1]) + (if p[|p| - 1].delivered then [p[|p| - 1].row] else [])
  }

  /** The delivered rows are exactly the rows of the successful attempts. */
  lemma DeliveredRowsIff(p: seq<Attempt>, r: nat)
    ensures r in DeliveredRows(p) <==> exists k :: 0 <= k < |p| && p[k].delivered && p[k].row == r
  {
    if r in DeliveredRows(p) {
      DeliveredRowsSound(p, r);
    }
    if exists k :: 0 <= k < |p| && p[k].delivered && p[k].row == r {
      var k :| 0 <= k < |p| && p[k].delivered && p[k].row == r;
      DeliveredRowsComplete(p, k);
    }
  }

  /** Every delivered row comes from a successful attempt. */
  lemma {:induction false} DeliveredRowsSound(p: seq<Attempt>, r: nat)
    requires r in DeliveredRows(p)
    ensures exists k :: 0 <= k < |p| && p[k].delivered && p[k].row == r
  {
    var last := |p| - 1;
    var prev := p[..last];
    assert DeliveredRows(p) == DeliveredRows(prev) + if p[last].delivered then [p[last].row] else [];
    if r in DeliveredRows(prev) {
      DeliveredRowsSound(prev, r);
      var k :| 0 <= k < last && prev[k].delivered && prev[k].row == r;
      assert p[k] == prev[k];
    } else {
      assert p[last].delivered && p[last].row == r;
    }
  }

  /** Every successful attempt's row is among the delivered rows. */
  lemma {:induction false} DeliveredRowsComplete(p: seq<Attempt>, k: nat)
    requires k < |p| && p[k].delivered
    ensures p[k].row in DeliveredRows(p)
  {
    var last := |p| - 1;
    var prev := p[..last];
    assert DeliveredRows(p) == DeliveredRows(prev) + if p[last].delivered then [p[last].row] else [];
    if k < last {
      assert prev[k] == p[k];
      DeliveredRowsComplete(prev, k);
    }
  }

  /** One more attempt adds its row to the delivered rows exactly when it succeeded. */
  lemma DeliveredRowsAppend(p: seq<Attempt>, a: Attempt)
    ensures DeliveredRows(p + [a]) == DeliveredRows(p) + if a.delivered then [a.row] else []
  {
    assert (p + [a])[..|p|] == p;
  }

  /** The table after marking each of `rows` (0-based) "yes" in the marker column, in turn. */
  function MarkRows(t: Table, rows: seq<nat>, statusCol: nat): Table
    requires statusCol >= 1
  {
    if rows == [] then t
    else SetCell(MarkRows(t, rows[..|rows| - 1], statusCol), rows[|rows| - 1] + 1, statusCol, SentMark)
  }

  /** The `update_cell` requests that mark `rows`, one per row. */
  function MarkWrites(rows: seq<nat>, statusCol: nat): (w: seq<Write>)
    ensures |w| == |rows|
  {
    if rows == [] then []
    else MarkWrites(rows[..|rows| - 1], statusCol) + [CellWrite(rows[|rows| - 1] + 1, statusCol, SentMark)]
  }

  /** Marking one more row sends one more `update_cell` request, after the others. */
  lemma MarkWritesAppend(logBefore: seq<Write>, rows: seq<nat>, r: nat, statusCol: nat)
    ensures logBefore + MarkWrites(rows, statusCol) + [CellWrite(r + 1, statusCol, SentMark)]
         == logBefore + MarkWrites(rows + [r], statusCol)
  {
    assert (rows + [r])[..|rows|] == rows;
  }

  /** Marking one more row is one more `update_cell`. */
  lemma MarkRowsAppend(t: Table, rows: seq<nat>, r: nat, statusCol: nat)
    requires statusCol >= 1
    ensures MarkRows(t, rows + [r], statusCol) == SetCell(MarkRows(t, rows, statusCol), r + 1, statusCol, SentMark)
    ensures MarkWrites(rows + [r], statusCol) == MarkWrites(rows, statusCol) + [CellWrite(r + 1, statusCol, SentMark)]
  {
    assert (rows + [r])[..|rows|] == rows;
  }

  /** Marking keeps the number of rows, and every row not marked keeps its cells exactly, the header row included. */
  lemma {:induction false} MarkRowsKeepsOtherRows(t: Table, rows: seq<nat>, statusCol: nat)
    requires statusCol >= 1
    requires forall k :: 0 <= k < |rows| ==> 1 <= rows[k] < |t|
    ensures |MarkRows(t, rows, statusCol)| == |t|
    ensures forall i :: 0 <= i < |t| && i !in rows ==> MarkRows(t, rows, statusCol)[i] == t[i]
  {
    if rows != [] {
      var last := |rows| - 1;
      MarkRowsKeepsOtherRows(t, rows[..last], statusCol);
      forall i | 0 <= i < |t| && i !in rows
        ensures MarkRows(t, rows, statusCol)[i] == t[i]
      {
        assert i !in rows[..last];
      }
    }
  }

  /** Marking sets the marker cell of every marked row to "yes" and leaves every other cell as it was. */
  lemma {:induction false} MarkRowsCells(t: Table, rows: seq<nat>, statusCol: nat)
    requires statusCol >= 1
    ensures forall i: nat, j: nat ::
              Cell(MarkRows(t, rows, statusCol), i, j) == if j == statusCol - 1 && i in rows then SentMark else Cell(t, i, j)
  {
    if rows != [] {
      var last := |rows| - 1;
      MarkRowsCells(t, rows[..last], statusCol);
      assert forall i :: i in rows <==> i in rows[..last] || i == rows[last];
    }
  }

  /** After marking, each marked row reads as delivered. */
  lemma MarkedRowsReadAsSent(t: Table, rows: seq<nat>, statusCol: nat, i: nat)
    requires statusCol >= 1 && i in rows
    requires forall k :: 0 <= k < |rows| ==> 1 <= rows[k] < |t|
    ensures i < |MarkRows(t, rows, statusCol)|
    ensures Status(MarkRows(t, rows, statusCol)[i], statusCol) == SentMark
  {
    MarkRowsCells(t, rows, statusCol);
    MarkRowsKeepsOtherRows(t, rows, statusCol);
    SentMarkReadsAsSent();
    var m := MarkRows(t, rows, statusCol);
    assert Cell(m, i, statusCol - 1) == SentMark;
  }

  /**
   * The state of a run after the data rows before `n`: its send attempts,
   * the rows whose "yes" mark went through, and whether it has stopped.
   * The mark of the k-th successful send is request `base + k` of the
   * session; the first mark request that fails raises, which ends the run
   * with that row mailed but left unmarked.
   */
  datatype RunState = RunState(attempts: seq<Attempt>, marked: seq<nat>, halted: bool)

  /** The row loop of `send_emails_with_qr_codes` over rows 1 .. n-1, mark failures included. */
  function Run(t: Table, n: nat, classify: Row -> Disposition, transport: (nat, Message) -> bool,
               accept: nat -> bool, base: nat): RunState
    requires n <= |t|
  {
    if n <= 1 then RunState([], [], false)
    else
      var s := Run(t, n - 1, classify, transport, accept, base);
      var d := classify(t[n - 1]);
      if s.halted || !d.Ready? then s
      else
        var a := Attempt(n - 1, d.message, transport(|s.attempts|, d.message));
        if !a.delivered then RunState(s.attempts + [a], s.marked, false)
        else if accept(base + |s.marked|) then RunState(s.attempts + [a], s.marked + [n - 1], false)
        else RunState(s.attempts + [a], s.marked, true)
  }

  /**
   * A run stops exactly when one of the mark requests the plan calls for
   * fails; until then its attempts are the plan's and its marked rows are
   * exactly the rows of the successful sends.
   */
  lemma {:induction false} RunFollowsPlan(t: Table, n: nat, classify: Row -> Disposition,
                                          transport: (nat, Message) -> bool, accept: nat -> bool, base: nat)
    requires n <= |t|
    ensures Run(t, n, classify, transport, accept, base).halted <==>
      !Accepted(accept, base, |DeliveredRows(Plan(t, n, classify, transport))|)
    ensures !Run(t, n, classify, transport, accept, base).halted ==>
      && Run(t, n, classify, transport, accept, base).attempts == Plan(t, n, classify, transport)
      && Run(t, n, classify, transport, accept, base).marked == DeliveredRows(Plan(t, n, classify, transport))
  {
    if n > 1 {
      RunFollowsPlan(t, n - 1, classify, transport, accept, base);
      PlanStep(t, n - 1, classify, transport);
      var prev := Plan(t, n - 1, classify, transport);
      var d := classify(t[n - 1]);
      if d.Ready? {
        DeliveredRowsAppend(prev, Attempt(n - 1, d.message, transport(|prev|, d.message)));
      }
    }
  }

  /** Once a run has stopped, later rows change nothing. */
  lemma {:induction false} RunStaysHalted(t: Table, m: nat, n: nat, classify: Row -> Disposition,
                                          transport: (nat, Message) -> bool, accept: nat -> bool, base: nat)
    requires m <= n <= |t|
    requires Run(t, m, classify, transport, accept, base).halted
    ensures Run(t, n, classify, transport, accept, base) == Run(t, m, classify, transport, accept, base)
    decreases n
  {
    if n > m {
      RunStaysHalted(t, m, n - 1, classify, transport, accept, base);
    }
  }

  /**
   * A run that stopped did so right after a send that succeeded and whose
   * mark request failed: its attempts are the plan's up to that row, every
   * earlier successful send is marked, and that row is not.
   */
  lemma {:induction false} RunStopsAtFailedMark(t: Table, n: nat, classify: Row -> Disposition,
                                                transport: (nat, Message) -> bool, accept: nat -> bool, base: nat)
    requires n <= |t|
    requires Run(t, n, classify, transport, accept, base).halted
    ensures Run(t, n, classify, transport, accept, base).attempts != []
    ensures var s := Run(t, n, classify, transport, accept, base);
      var last := s.attempts[|s.attempts| - 1];
      && last.delivered && 1 <= last.row < n
      && s.attempts == Plan(t, last.row + 1, classify, transport)
      && s.marked == DeliveredRows(s.attempts[..|s.attempts| - 1])
      && !accept(base + |s.marked|)
      && last.row !in s.marked
  {
    assert n > 1;
    var m := n - 1;
    var s1 := Run(t, m, classify, transport, accept, base);
    if s1.halted {
      RunStopsAtFailedMark(t, m, classify, transport, accept, base);
      RunStaysHalted(t, m, n, classify, transport, accept, base);
    } else {
      RunStopsHere(t, n, classify, transport, accept, base);
    }
  }

  /** A run that stops at row `n - 1` without having stopped before: the case that ends the induction above. */
  lemma RunStopsHere(t: Table, n: nat, classify: Row -> Disposition,
                     transport: (nat, Message) -> bool, accept: nat -> bool, base: nat)
    requires 1 < n <= |t|
    requires !Run(t, n - 1, classify, transport, accept, base).halted
    requires Run(t, n, classify, transport, accept, base).halted
    ensures Run(t, n, classify, transport, accept, base).attempts != []
    ensures var s := Run(t, n, classify, transport, accept, base);
      var last := s.attempts[|s.attempts| - 1];
      && last.delivered && last.row == n - 1
      && s.attempts == Plan(t, last.row + 1, classify, transport)
      && s.marked == DeliveredRows(s.attempts[..|s.attempts| - 1])
      && !accept(base + |s.marked|)
      && last.row !in s.marked
  {
    var m := n - 1;
    RunHaltsAt(t, n, classify, transport, accept, base);
    RunMarksDelivered(t, m, classify, transport, accept, base);
    PlanBeforeRow(t, m, classify, transport);
    var prev := Plan(t, m, classify, transport);
    var a := Attempt(m, classify(t[m]).message, true);
    assert Plan(t, m + 1, classify, transport) == prev + [a];
    StoppedAttempts(prev, a);
  }

  /** Unfolding `Run` at the row where it stops: a ready row whose send went through and whose mark failed. */
  lemma RunHaltsAt(t: Table, n: nat, classify: Row -> Disposition, transport: (nat, Message) -> bool,
                   accept: nat -> bool, base: nat)
    requires 1 < n <= |t|
    requires !Run(t, n - 1, classify, transport, accept, base).halted
    requires Run(t, n, classify, transport, accept, base).halted
    ensures var s1 := Run(t, n - 1, classify, transport, accept, base);
      var d := classify(t[n - 1]);
      && d.Ready? && transport(|s1.attempts|, d.message) && !accept(base + |s1.marked|)
      && Run(t, n, classify, transport, accept, base) == RunState(s1.attempts + [Attempt(n - 1, d.message, true)], s1.marked, true)
  {
  }

  /** The attempts of a run that stopped: the earlier ones, then the send whose mark failed. */
  lemma StoppedAttempts(prev: seq<Attempt>, a: Attempt)
    ensures (prev + [a])[|prev + [a]| - 1] == a
    ensures (prev + [a])[..|prev + [a]| - 1] == prev
  {
    assert (prev + [a])[..|prev|] == prev;
  }

  /** Row `m` is not among the delivered rows of the plan over the rows before it. */
  lemma PlanBeforeRow(t: Table, m: nat, classify: Row -> Disposition, transport: (nat, Message) -> bool)
    requires m <= |t|
    ensures m !in DeliveredRows(Plan(t, m, classify, transport))
  {
    PlanRows(t, m, classify, transport);
    DeliveredRowsIff(Plan(t, m, classify, transport), m);
  }

  /**
   * Whether or not a run stopped, its attempts are sound (ready rows only,
   * in order, each with the transport's answer), and its marked rows are
   * exactly the rows of its successful sends, except the one whose mark
   * request failed.
   */
  lemma RunSound(t: Table, n: nat, classify: Row -> Disposition, transport: (nat, Message) -> bool,
                 accept: nat -> bool, base: nat)
    requires n <= |t|
    ensures var s := Run(t, n, classify, transport, accept, base);
      SoundAttempts(t, n, classify, transport, s.attempts)
    ensures var s := Run(t, n, classify, transport, accept, base);
      forall r :: r in s.marked <==>
        exists k :: 0 <= k < |s.attempts| && s.attempts[k].delivered && s.attempts[k].row == r
                    && !(s.halted && k == |s.attempts| - 1)
  {
    if Run(t, n, classify, transport, accept, base).halted {
      StoppedRunAttempts(t, n, classify, transport, accept, base);
      StoppedRunMarked(t, n, classify, transport, accept, base);
    } else {
      RunFollowsPlan(t, n, classify, transport, accept, base);
      PlanSound(t, n, classify, transport);
      var s := Run(t, n, classify, transport, accept, base);
      forall r
        ensures r in s.marked <==> exists k :: 0 <= k < |s.attempts| && s.attempts[k].delivered && s.attempts[k].row == r
      {
        DeliveredRowsIff(s.attempts, r);
      }
    }
  }

  /** For a run that stopped: its attempts are those of the plan up to the row where it stopped, hence sound. */
  lemma StoppedRunAttempts(t: Table, n: nat, classify: Row -> Disposition, transport: (nat, Message) -> bool,
                           accept: nat -> bool, base: nat)
    requires n <= |t|
    requires Run(t, n, classify, transport, accept, base).halted
    ensures SoundAttempts(t, n, classify, transport, Run(t, n, classify, transport, accept, base).attempts)
  {
    var s := Run(t, n, classify, transport, accept, base);
    RunStopsAtFailedMark(t, n, classify, transport, accept, base);
    var stop := s.attempts[|s.attempts| - 1].row + 1;
    assert stop <= n && s.attempts == Plan(t, stop, classify, transport);
    PlanSound(t, stop, classify, transport);
    assert SoundAttempts(t, stop, classify, transport, s.attempts);
    SoundAttemptsWiden(t, stop, n, classify, transport, s.attempts);
  }

  /** For a run that stopped: every successful send but the last is marked. */
  lemma StoppedRunMarked(t: Table, n: nat, classify: Row -> Disposition, transport: (nat, Message) -> bool,
                         accept: nat -> bool, base: nat)
    requires n <= |t|
    requires Run(t, n, classify, transport, accept, base).halted
    ensures var s := Run(t, n, classify, transport, accept, base);
      forall r :: r in s.marked <==>
        exists k :: 0 <= k < |s.attempts| - 1 && s.attempts[k].delivered && s.attempts[k].row == r
  {
    var s := Run(t, n, classify, transport, accept, base);
    RunStopsAtFailedMark(t, n, classify, transport, accept, base);
    DeliveredExceptLast(s.attempts, s.attempts[..|s.attempts| - 1]);
  }

  /** Sound attempts over the rows before `m` are sound over the rows before any later `n`. */
  lemma SoundAttemptsWiden(t: Table, m: nat, n: nat, classify: Row -> Disposition, transport: (nat, Message) -> bool,
                           p: seq<Attempt>)
    requires m <= n
    requires SoundAttempts(t, m, classify, transport, p)
    ensures SoundAttempts(t, n, classify, transport, p)
  {
  }

  /** The delivered rows of all attempts but the last are the rows of the successful attempts before it. */
  lemma DeliveredExceptLast(p: seq<Attempt>, prefix: seq<Attempt>)
    requires p != [] && prefix == p[..|p| - 1]
    ensures forall r :: r in DeliveredRows(prefix) <==>
      exists k :: 0 <= k < |p| - 1 && p[k].delivered && p[k].row == r
  {
    var last := |p| - 1;
    forall r
      ensures r in DeliveredRows(prefix) <==> exists k :: 0 <= k < last && p[k].delivered && p[k].row == r
    {
      DeliveredRowsIff(prefix, r);
      if r in DeliveredRows(prefix) {
        var k :| 0 <= k < last && prefix[k].delivered && prefix[k].row == r;
        assert p[k] == prefix[k];
      }
      if exists k :: 0 <= k < last && p[k].delivered && p[k].row == r {
        var k :| 0 <= k < last && p[k].delivered && p[k].row == r;
        assert prefix[k] == p[k];
      }
    }
  }

  datatype DispatchOutcome =
    | SheetEmpty                        // "Sheet is empty!"
    | ColumnMissing(header: string)     // "Error: '<header>' column not found!"
    | WriteFailed                       // a write request raised: "Error: <message>", no summary
    | Finished(sent: nat, skipped: nat)

  /**
   * The state of the row loop after the rows before `n`: the attempts so
   * far, the counters, and the sheet as it started (`marked`, with its log
   * `logBefore`) marked for exactly the rows whose mark went through, its
   * log holding a mark request for every successful send.
   */
  ghost predicate Progress(t: Table, n: nat, classify: Row -> Disposition, transport: (nat, Message) -> bool,
                           accept: nat -> bool, statusCol: nat, marked: Table, logBefore: seq<Write>,
                           attempts: seq<Attempt>, sentCount: nat, skippedCount: nat, cells: Table, log: seq<Write>)
    requires n <= |t| && statusCol >= 1
  {
    var s := Run(t, n, classify, transport, accept, |logBefore|);
    && attempts == s.attempts
    && sentCount == |s.marked|
    && skippedCount == Skipped(t, n, statusCol)
    && cells == MarkRows(marked, s.marked, statusCol)
    && log == logBefore + MarkWrites(DeliveredRows(s.attempts), statusCol)
  }

  /**
   * Handling row `n` as `HandleRow` does carries the loop state from `n` to
   * `n + 1`, and the run stops there exactly when the row's mark request
   * failed.
   */
  lemma DispatchStep(t: Table, n: nat, classify: Row -> Disposition, transport: (nat, Message) -> bool,
                     accept: nat -> bool, statusCol: nat, marked: Table, logBefore: seq<Write>,
                     attempts: seq<Attempt>, sentCount: nat, skippedCount: nat, cells: Table, log: seq<Write>,
                     skipped: bool, attempt: Option<Attempt>, writeOk: bool,
                     attempts': seq<Attempt>, sentCount': nat, skippedCount': nat, cells': Table, log': seq<Write>)
    requires 1 <= n < |t| && statusCol >= 1
    requires Progress(t, n, classify, transport, accept, statusCol, marked, logBefore,
                      attempts, sentCount, skippedCount, cells, log)
    requires !Run(t, n, classify, transport, accept, |logBefore|).halted
    requires skipped <==> Status(t[n], statusCol) == SentMark
    requires var d := classify(t[n]);
      attempt == if d.Ready? then Some(Attempt(n, d.message, transport(|attempts|, d.message))) else None
    requires writeOk == (!(attempt.Some? && attempt.value.delivered) || accept(|log|))
    requires attempt.Some? && attempt.value.delivered ==>
      && cells' == (if writeOk then SetCell(cells, n + 1, statusCol, SentMark) else cells)
      && log' == log + [CellWrite(n + 1, statusCol, SentMark)]
    requires !(attempt.Some? && attempt.value.delivered) ==> cells' == cells && log' == log
    requires skippedCount' == if skipped then skippedCount + 1 else skippedCount
    requires attempts' == if attempt.Some? then attempts + [attempt.value] else attempts
    requires sentCount' == if attempt.Some? && attempt.value.delivered && writeOk then sentCount + 1 else sentCount
    ensures Progress(t, n + 1, classify, transport, accept, statusCol, marked, logBefore,
                     attempts', sentCount', skippedCount', cells', log')
    ensures Run(t, n + 1, classify, transport, accept, |logBefore|).halted <==> !writeOk
  {
    SkippedStep(t, n, statusCol);
    var d := classify(t[n]);
    if !d.Ready? {
      StepWithoutSend(t, n, classify, transport, accept, statusCol, marked, logBefore,
                      attempts, sentCount, skippedCount, cells, log, skippedCount');
    } else if !attempt.value.delivered {
      StepFailedSend(t, n, classify, transport, accept, statusCol, marked, logBefore,
                     attempts, sentCount, skippedCount, cells, log, skippedCount');
    } else {
      StepDelivered(t, n, classify, transport, accept, statusCol, marked, logBefore,
                    attempts, sentCount, skippedCount, cells, log, skippedCount');
    }
  }

  /** A row that is not ready leaves everything but the skip count as it was. */
  lemma StepWithoutSend(t: Table, n: nat, classify: Row -> Disposition, transport: (nat, Message) -> bool,
                        accept: nat -> bool, statusCol: nat, marked: Table, logBefore: seq<Write>,
                        attempts: seq<Attempt>, sentCount: nat, skippedCount: nat, cells: Table, log: seq<Write>,
                        skippedCount': nat)
    requires 1 <= n < |t| && statusCol >= 1
    requires Progress(t, n, classify, transport, accept, statusCol, marked, logBefore,
                      attempts, sentCount, skippedCount, cells, log)
    requires !Run(t, n, classify, transport, accept, |logBefore|).halted
    requires !classify(t[n]).Ready?
    requires skippedCount' == Skipped(t, n + 1, statusCol)
    ensures Progress(t, n + 1, classify, transport, accept, statusCol, marked, logBefore,
                     attempts, sentCount, skippedCount', cells, log)
    ensures !Run(t, n + 1, classify, transport, accept, |logBefore|).halted
  {
    RunStep(t, n, classify, transport, accept, |logBefore|);
  }

  /** A send that failed is recorded, and nothing is written. */
  lemma StepFailedSend(t: Table, n: nat, classify: Row -> Disposition, transport: (nat, Message) -> bool,
                       accept: nat -> bool, statusCol: nat, marked: Table, logBefore: seq<Write>,
                       attempts: seq<Attempt>, sentCount: nat, skippedCount: nat, cells: Table, log: seq<Write>,
                       skippedCount': nat)
    requires 1 <= n < |t| && statusCol >= 1
    requires Progress(t, n, classify, transport, accept, statusCol, marked, logBefore,
                      attempts, sentCount, skippedCount, cells, log)
    requires !Run(t, n, classify, transport, accept, |logBefore|).halted
    requires classify(t[n]).Ready? && !transport(|attempts|, classify(t[n]).message)
    requires skippedCount' == Skipped(t, n + 1, statusCol)
    ensures var d := classify(t[n]);
      Progress(t, n + 1, classify, transport, accept, statusCol, marked, logBefore,
               attempts + [Attempt(n, d.message, false)], sentCount, skippedCount', cells, log)
    ensures !Run(t, n + 1, classify, transport, accept, |logBefore|).halted
  {
    var d := classify(t[n]);
    var a := Attempt(n, d.message, false);
    RunStep(t, n, classify, transport, accept, |logBefore|);
    DeliveredRowsAppend(attempts, a);
    assert DeliveredRows(attempts + [a]) == DeliveredRows(attempts) + [];
    assert DeliveredRows(attempts + [a]) == DeliveredRows(attempts);
  }

  /**
   * A send that went through is recorded and its mark is requested; the
   * mark lands, and the count goes up, exactly when that request succeeds,
   * and otherwise the run stops there.
   */
  lemma StepDelivered(t: Table, n: nat, classify: Row -> Disposition, transport: (nat, Message) -> bool,
                      accept: nat -> bool, statusCol: nat, marked: Table, logBefore: seq<Write>,
                      attempts: seq<Attempt>, sentCount: nat, skippedCount: nat, cells: Table, log: seq<Write>,
                      skippedCount': nat)
    requires 1 <= n < |t| && statusCol >= 1
    requires Progress(t, n, classify, transport, accept, statusCol, marked, logBefore,
                      attempts, sentCount, skippedCount, cells, log)
    requires !Run(t, n, classify, transport, accept, |logBefore|).halted
    requires classify(t[n]).Ready? && transport(|attempts|, classify(t[n]).message)
    requires skippedCount' == Skipped(t, n + 1, statusCol)
    ensures var d := classify(t[n]);
      var ok := accept(|log|);
      Progress(t, n + 1, classify, transport, accept, statusCol, marked, logBefore,
               attempts + [Attempt(n, d.message, true)],
               if ok then sentCount + 1 else sentCount, skippedCount',
               if ok then SetCell(cells, n + 1, statusCol, SentMark) else cells,
               log + [CellWrite(n + 1, statusCol, SentMark)])
    ensures Run(t, n + 1, classify, transport, accept, |logBefore|).halted <==> !accept(|log|)
  {
    var base := |logBefore|;
    var s := Run(t, n, classify, transport, accept, base);
    var d := classify(t[n]);
    var a := Attempt(n, d.message, true);
    RunMarksDelivered(t, n, classify, transport, accept, base);
    assert |log| == base + |s.marked|;
    RunStepDelivered(t, n, classify, transport, accept, base, |log|);
    var delivered := DeliveredRows(attempts);
    DeliveredRowsAppend(attempts, a);
    var s' := Run(t, n + 1, classify, transport, accept, base);
    assert s'.attempts == attempts + [a];
    MarkWritesAppend(logBefore, delivered, n, statusCol);
    if accept(|log|) {
      MarkRowsAppend(marked, delivered, n, statusCol);
      assert s'.marked == s.marked + [n];
      assert SetCell(cells, n + 1, statusCol, SentMark) == MarkRows(marked, s'.marked, statusCol);
    } else {
      assert s'.marked == s.marked;
    }
  }

  /** What `Run` does with a ready row whose send went through. */
  lemma RunStepDelivered(t: Table, n: nat, classify: Row -> Disposition, transport: (nat, Message) -> bool,
                         accept: nat -> bool, base: nat, request: nat)
    requires 1 <= n < |t|
    requires !Run(t, n, classify, transport, accept, base).halted
    requires var s := Run(t, n, classify, transport, accept, base);
      classify(t[n]).Ready? && transport(|s.attempts|, classify(t[n]).message)
    requires request == base + |Run(t, n, classify, transport, accept, base).marked|
    ensures var s := Run(t, n, classify, transport, accept, base);
      var a := Attempt(n, classify(t[n]).message, true);
      var ok := accept(request);
      Run(t, n + 1, classify, transport, accept, base) ==
        RunState(s.attempts + [a], if ok then s.marked + [n] else s.marked, !ok)
  {
  }

  /** A run that has not stopped has made the plan's attempts and marked exactly the rows of its successful sends. */
  lemma RunMarksDelivered(t: Table, n: nat, classify: Row -> Disposition, transport: (nat, Message) -> bool,
                          accept: nat -> bool, base: nat)
    requires n <= |t|
    requires !Run(t, n, classify, transport, accept, base).halted
    ensures Run(t, n, classify, transport, accept, base).attempts == Plan(t, n, classify, transport)
    ensures Run(t, n, classify, transport, accept, base).marked ==
      DeliveredRows(Run(t, n, classify, transport, accept, base).attempts)
  {
    RunFollowsPlan(t, n, classify, transport, accept, base);
  }

  /** Looking at row `n` of a run that has not stopped: what `Run` does with one more row. */
  lemma RunStep(t: Table, n: nat, classify: Row -> Disposition, transport: (nat, Message) -> bool,
                accept: nat -> bool, base: nat)
    requires 1 <= n < |t|
    requires !Run(t, n, classify, transport, accept, base).halted
    ensures var s := Run(t, n, classify, transport, accept, base);
      var d := classify(t[n]);
      Run(t, n + 1, classify, transport, accept, base) ==
        if !d.Ready? then s
        else
          var a := Attempt(n, d.message, transport(|s.attempts|, d.message));
          if !a.delivered then RunState(s.attempts + [a], s.marked, false)
          else if accept(base + |s.marked|) then RunState(s.attempts + [a], s.marked + [n], false)
          else RunState(s.attempts + [a], s.marked, true)
  {
  }

  /**
   * The row loop of `send_emails_with_qr_codes` over the snapshot `allValues`
   * (taken before the header write), proved against `Run`: after each row
   * the sheet is the one it started as, marked for the rows whose mark went
   * through, and the log has grown by one mark request per successful send;
   * the loop ends early, reporting `completed` false, at the first failed
   * mark request. `sentCount` counts the marked rows, as the source counts
   * a send only once its mark is written.
   */
  method DispatchRows(sheet: Sheet, allValues: Table, cols: Columns, emailSentCol: nat, cfg: Config,
                      images: map<string, string>, transport: (nat, Message) -> bool)
    returns (completed: bool, sentCount: nat, skippedCount: nat, attempts: seq<Attempt>)
    requires allValues != [] && emailSentCol >= 1
    modifies sheet
    ensures var s := Run(allValues, |allValues|, Classifier(cols, emailSentCol, cfg, images), transport,
                         sheet.accept, |old(sheet.log)|);
      && completed == !s.halted
      && attempts == s.attempts
      && sentCount == |s.marked|
      && (completed ==> skippedCount == Skipped(allValues, |allValues|, emailSentCol))
      && sheet.cells == MarkRows(old(sheet.cells), s.marked, emailSentCol)
      && sheet.log == old(sheet.log) + MarkWrites(DeliveredRows(s.attempts), emailSentCol)
  {
    ghost var classify := Classifier(cols, emailSentCol, cfg, images);
    ghost var marked := sheet.cells;
    ghost var logBefore := sheet.log;
    sentCount, skippedCount := 0, 0;
    attempts := [];
    assert sheet.log == logBefore + MarkWrites([], emailSentCol);
    for rowIdx := 1 to |allValues|
      invariant Progress(allValues, rowIdx, classify, transport, sheet.accept, emailSentCol, marked, logBefore,
                         attempts, sentCount, skippedCount, sheet.cells, sheet.log)
      invariant !Run(allValues, rowIdx, classify, transport, sheet.accept, |logBefore|).halted
    {
      ghost var attempts0, sentCount0, skippedCount0 := attempts, sentCount, skippedCount;
      ghost var cells0, log0 := sheet.cells, sheet.log;
      var skipped, attempt, writeOk := HandleRow(sheet, rowIdx, allValues[rowIdx], cols, emailSentCol, cfg, images,
                                                 transport, |attempts|);
      if skipped {
        skippedCount := skippedCount + 1;
      }
      if attempt.Some? {
        attempts := attempts + [attempt.value];
        if attempt.value.delivered && writeOk {
          sentCount := sentCount + 1;
        }
      }
      DispatchStep(allValues, rowIdx, classify, transport, sheet.accept, emailSentCol, marked, logBefore,
                   attempts0, sentCount0, skippedCount0, cells0, log0, skipped, attempt, writeOk,
                   attempts, sentCount, skippedCount, sheet.cells, sheet.log);
      if !writeOk {
        RunStaysHalted(allValues, rowIdx + 1, |allValues|, classify, transport, sheet.accept, |logBefore|);
        return false, sentCount, skippedCount, attempts;
      }
    }
    completed := true;
  }

  /**
   * The body of the row loop of `send_emails_with_qr_codes` for data row
   * `rowIdx` (0-based), whose send, if any, is the k-th of the run: a row
   * already marked is reported as skipped; a ready row is sent and, when
   * the send succeeds, its "yes" mark is requested at once; `writeOk` is
   * false exactly when that request failed, which leaves the row unmarked.
   */
  method HandleRow(sheet: Sheet, rowIdx: nat, rowData: Row, cols: Columns, emailSentCol: nat, cfg: Config,
                   images: map<string, string>, transport: (nat, Message) -> bool, k: nat)
    returns (skipped: bool, attempt: Option<Attempt>, writeOk: bool)
    requires emailSentCol >= 1
    modifies sheet
    ensures skipped <==> Status(rowData, emailSentCol) == SentMark
    ensures var d := Classifier(cols, emailSentCol, cfg, images)(rowData);
      attempt == if d.Ready? then Some(Attempt(rowIdx, d.message, transport(k, d.message))) else None
    ensures writeOk == (!(attempt.Some? && attempt.value.delivered) || sheet.accept(|old(sheet.log)|))
    ensures attempt.Some? && attempt.value.delivered ==>
      && sheet.cells == (if writeOk then SetCell(old(sheet.cells), rowIdx + 1, emailSentCol, SentMark) else old(sheet.cells))
      && sheet.log == old(sheet.log) + [CellWrite(rowIdx + 1, emailSentCol, SentMark)]
    ensures !(attempt.Some? && attempt.value.delivered) ==>
      sheet.cells == old(sheet.cells) && sheet.log == old(sheet.log)
  {
    ClassifierApplies(cols, emailSentCol, cfg, images, rowData);
    skipped, attempt, writeOk := false, None, true;
    var emailSentStatus := "";
    if emailSentCol - 1 < |rowData| {
      emailSentStatus := Lower(Strip(rowData[emailSentCol - 1]));
    }
    if emailSentStatus == SentMark {
      skipped := true;
    } else if cols.uniqueId < |rowData| && cols.email < |rowData| && cols.name < |rowData| {
      var uniqueId := rowData[cols.uniqueId];
      var recipientEmail := Strip(rowData[cols.email]);
      var name := rowData[cols.name];
      if uniqueId != "" && recipientEmail != "" {
        var message := Compose(cfg, images, recipientEmail, name, uniqueId);
        var ok := transport(k, message);
        attempt := Some(Attempt(rowIdx, message, ok));
        if ok {
          writeOk := sheet.UpdateCell(rowIdx + 1, emailSentCol, SentMark);
        }
      }
    }
  }

  /**
   * `send_emails_with_qr_codes`. An empty sheet, or one missing a required
   * header, is left untouched and nothing is sent. A failed `email_sent`
   * header request ends the run before any send. Otherwise the run is
   * `Run` over the snapshot: the sends are its attempts, the sheet receives
   * the header write and then one "yes" request per successful send, to
   * that row only, issued before the next row is looked at, and the run
   * either finishes with `sent` counting the marked rows and `skipped` the
   * rows already marked, or ends at the first failed mark request.
   */
  method SendEmailsWithQrCodes(sheet: Sheet, cfg: Config, images: map<string, string>,
                               transport: (nat, Message) -> bool)
    returns (outcome: DispatchOutcome, attempts: seq<Attempt>)
    modifies sheet
    ensures old(sheet.cells) == [] ==>
      outcome == SheetEmpty && attempts == [] && sheet.cells == old(sheet.cells) && sheet.log == old(sheet.log)
    ensures old(sheet.cells) != [] && ResolveColumns(old(sheet.cells)[0]).Missing? ==>
      && outcome == ColumnMissing(ResolveColumns(old(sheet.cells)[0]).header)
      && attempts == [] && sheet.cells == old(sheet.cells) && sheet.log == old(sheet.log)
    ensures old(sheet.cells) != [] && ResolveColumns(old(sheet.cells)[0]).Resolved?
            && !Accepted(sheet.accept, |old(sheet.log)|, |StatusHeaderWrites(old(sheet.cells)[0])|) ==>
      && outcome == WriteFailed && attempts == [] && sheet.cells == old(sheet.cells)
      && sheet.log == old(sheet.log) + StatusHeaderWrites(old(sheet.cells)[0])
    ensures old(sheet.cells) != [] && ResolveColumns(old(sheet.cells)[0]).Resolved?
            && Accepted(sheet.accept, |old(sheet.log)|, |StatusHeaderWrites(old(sheet.cells)[0])|) ==>
      var t := old(sheet.cells);
      var cols := ResolveColumns(t[0]).cols;
      var sc := StatusColumn(t[0]);
      var s := Run(t, |t|, Classifier(cols, sc, cfg, images), transport,
                   sheet.accept, |old(sheet.log) + StatusHeaderWrites(t[0])|);
      && attempts == s.attempts
      && outcome == (if s.halted then WriteFailed else Finished(|s.marked|, Skipped(t, |t|, sc)))
      && sheet.cells == MarkRows(WithStatusHeader(t), s.marked, sc)
      && sheet.log == old(sheet.log) + StatusHeaderWrites(t[0]) + MarkWrites(DeliveredRows(s.attempts), sc)
  {
    var allValues := sheet.cells;
    if allValues == [] {
      return SheetEmpty, [];
    }
    var headers := allValues[0];
    var resolution := ResolveColumns(headers);
    if resolution.Missing? {
      return ColumnMissing(resolution.header), [];
    }
    var cols := resolution.cols;

    outcome, attempts := DispatchResolved(sheet, allValues, cols, cfg, images, transport);
  }

  /**
   * The part of `send_emails_with_qr_codes` after the columns resolved: the
   * `email_sent` header request, then the row loop over the snapshot.
   */
  method DispatchResolved(sheet: Sheet, allValues: Table, cols: Columns, cfg: Config, images: map<string, string>,
                          transport: (nat, Message) -> bool)
    returns (outcome: DispatchOutcome, attempts: seq<Attempt>)
    requires sheet.cells == allValues && allValues != [] && ResolveColumns(allValues[0]) == Resolved(cols)
    modifies sheet
    ensures !Accepted(sheet.accept, |old(sheet.log)|, |StatusHeaderWrites(allValues[0])|) ==>
      && outcome == WriteFailed && attempts == [] && sheet.cells == allValues
      && sheet.log == old(sheet.log) + StatusHeaderWrites(allValues[0])
    ensures Accepted(sheet.accept, |old(sheet.log)|, |StatusHeaderWrites(allValues[0])|) ==>
      var sc := StatusColumn(allValues[0]);
      var s := Run(allValues, |allValues|, Classifier(cols, sc, cfg, images), transport,
                   sheet.accept, |old(sheet.log) + StatusHeaderWrites(allValues[0])|);
      && attempts == s.attempts
      && outcome == (if s.halted then WriteFailed else Finished(|s.marked|, Skipped(allValues, |allValues|, sc)))
      && sheet.cells == MarkRows(WithStatusHeader(allValues), s.marked, sc)
      && sheet.log == old(sheet.log) + StatusHeaderWrites(allValues[0]) + MarkWrites(DeliveredRows(s.attempts), sc)
  {
    var emailSentCol, headerOk := EnsureStatusHeader(sheet);
    if !headerOk {
      return WriteFailed, [];
    }
    var completed, sentCount, skippedCount;
    completed, sentCount, skippedCount, attempts := DispatchRows(sheet, allValues, cols, emailSentCol, cfg, images, transport);
    outcome := if completed then Finished(sentCount, skippedCount) else WriteFailed;
  }

  /**
   * The `email_sent` column of `send_emails_with_qr_codes`: its 1-based
   * position, after requesting the header just past the last one when it is
   * missing; `ok` is false when that request failed.
   */
  method EnsureStatusHeader(sheet: Sheet) returns (emailSentCol: nat, ok: bool)
    requires sheet.cells != []
    modifies sheet
    ensures emailSentCol == StatusColumn(old(sheet.cells)[0])
    ensures ok == Accepted(sheet.accept, |old(sheet.log)|, |StatusHeaderWrites(old(sheet.cells)[0])|)
    ensures sheet.cells == if ok then WithStatusHeader(old(sheet.cells)) else old(sheet.cells)
    ensures sheet.log == old(sheet.log) + StatusHeaderWrites(old(sheet.cells)[0])
  {
    var headers := sheet.cells[0];
    if StatusHeader !in headers {
      emailSentCol := |headers| + 1;
      ok := sheet.UpdateCell(1, emailSentCol, StatusHeader);
    } else {
      emailSentCol := IndexOf(headers, StatusHeader) + 1;
      ok := true;
    }
  }

  /**
   * Adding the `email_sent` header moves no required column and puts the
   * marker column exactly where the run writes the marks; the data rows
   * are untouched.
   */
  lemma StatusHeaderKeepsColumns(t: Table)
    requires t != []
    ensures |WithStatusHeader(t)| == |t| && WithStatusHeader(t)[1..] == t[1..]
    ensures StatusHeader in WithStatusHeader(t)[0]
    ensures ResolveColumns(WithStatusHeader(t)[0]) == ResolveColumns(t[0])
    ensures StatusColumn(WithStatusHeader(t)[0]) == StatusColumn(t[0])
  {
    if StatusHeader !in t[0] {
      AppendHeader(t, StatusHeader);
      var h := WithStatusHeader(t)[0];
      assert h == t[0] + [StatusHeader];
      assert forall x :: x != StatusHeader ==> (x in h <==> x in t[0]);
      if UniqueIdHeader in t[0] { IndexOfAppend(t[0], StatusHeader, UniqueIdHeader); }
      if EmailHeader in t[0] { IndexOfAppend(t[0], StatusHeader, EmailHeader); }
      if NameHeader in t[0] { IndexOfAppend(t[0], StatusHeader, NameHeader); }
      IndexOfAppend(t[0], StatusHeader, StatusHeader);
    }
  }

  /**
   * The sheet a run leaves when it stops after the rows before `n` (`n =
   * |t|` for a completed run; the marks are written as the run goes), or
   * when a mark request fails: the columns resolve as before, every row
   * whose mark went through is a data row before `n` that reads as
   * delivered, and every other data row is exactly as it was, including a
   * row that was mailed but whose mark failed.
   */
  lemma InterruptedRunState(t: Table, n: nat, cfg: Config, images: map<string, string>,
                            transport: (nat, Message) -> bool, accept: nat -> bool, base: nat)
    requires t != [] && 1 <= n <= |t| && ResolveColumns(t[0]).Resolved?
    ensures var cols := ResolveColumns(t[0]).cols;
      var sc := StatusColumn(t[0]);
      var s := Run(t, n, Classifier(cols, sc, cfg, images), transport, accept, base);
      var after := MarkRows(WithStatusHeader(t), s.marked, sc);
      && |after| == |t|
      && ResolveColumns(after[0]) == ResolveColumns(t[0])
      && StatusColumn(after[0]) == sc
      && (forall r :: r in s.marked ==> 1 <= r < n && Status(after[r], sc) == SentMark)
      && (forall r :: 1 <= r < |t| && r !in s.marked ==> after[r] == t[r])
  {
    var cols := ResolveColumns(t[0]).cols;
    var sc := StatusColumn(t[0]);
    var classify := Classifier(cols, sc, cfg, images);
    MarkedRowsInRange(t, n, classify, transport, accept, base);
    MarkedTable(t, Run(t, n, classify, transport, accept, base).marked, n);
  }

  /** The rows a run marks are data rows before the one it stopped at. */
  lemma MarkedRowsInRange(t: Table, n: nat, classify: Row -> Disposition, transport: (nat, Message) -> bool,
                          accept: nat -> bool, base: nat)
    requires n <= |t|
    ensures forall r :: r in Run(t, n, classify, transport, accept, base).marked ==> 1 <= r < n
  {
    RunSound(t, n, classify, transport, accept, base);
  }

  /**
   * Marking data rows before `n` on the table with its marker header keeps
   * the columns resolving as before, makes each marked row read as
   * delivered and leaves every other data row as it was.
   */
  lemma MarkedTable(t: Table, rows: seq<nat>, n: nat)
    requires t != [] && n <= |t| && ResolveColumns(t[0]).Resolved?
    requires forall r :: r in rows ==> 1 <= r < n
    ensures var sc := StatusColumn(t[0]);
      var after := MarkRows(WithStatusHeader(t), rows, sc);
      && |after| == |t|
      && ResolveColumns(after[0]) == ResolveColumns(t[0])
      && StatusColumn(after[0]) == sc
      && (forall r :: r in rows ==> Status(after[r], sc) == SentMark)
      && (forall r :: 1 <= r < |t| && r !in rows ==> after[r] == t[r])
  {
    var sc := StatusColumn(t[0]);
    var marked := WithStatusHeader(t);
    StatusHeaderKeepsColumns(t);
    forall i | 0 <= i < |rows|
      ensures 1 <= rows[i] < n
    {
      assert rows[i] in rows;
    }
    MarkRowsKeepsOtherRows(marked, rows, sc);
    var after := MarkRows(marked, rows, sc);
    assert 0 !in rows;
    assert after[0] == marked[0];
    forall r | r in rows
      ensures Status(after[r], sc) == SentMark
    {
      MarkedRowsReadAsSent(marked, rows, sc, r);
    }
    forall r | 1 <= r < |t| && r !in rows
      ensures after[r] == t[r]
    {
      assert marked[1..][r - 1] == t[1..][r - 1];
    }
  }

  /**
   * At most one delivery per marked row across runs: on the sheet a run
   * leaves, however it ended, a later run, whatever its settings, images,
   * transport and write outcomes, sends none of the rows whose mark went
   * through. (`InterruptedRunState` shows the later run resolves the same
   * columns.)
   */
  lemma RerunSkipsDelivered(t: Table, n: nat, cfg: Config, images: map<string, string>,
                            transport: (nat, Message) -> bool, accept: nat -> bool, base: nat,
                            cfg2: Config, images2: map<string, string>,
                            transport2: (nat, Message) -> bool, accept2: nat -> bool, base2: nat)
    requires t != [] && 1 <= n <= |t| && ResolveColumns(t[0]).Resolved?
    ensures var cols := ResolveColumns(t[0]).cols;
      var sc := StatusColumn(t[0]);
      var s := Run(t, n, Classifier(cols, sc, cfg, images), transport, accept, base);
      var after := MarkRows(WithStatusHeader(t), s.marked, sc);
      var s2 := Run(after, |after|, Classifier(cols, sc, cfg2, images2), transport2, accept2, base2);
      forall r, k2 :: r in s.marked && 0 <= k2 < |s2.attempts| ==> s2.attempts[k2].row != r
  {
    var cols := ResolveColumns(t[0]).cols;
    var sc := StatusColumn(t[0]);
    var s := Run(t, n, Classifier(cols, sc, cfg, images), transport, accept, base);
    var after := MarkRows(WithStatusHeader(t), s.marked, sc);
    InterruptedRunState(t, n, cfg, images, transport, accept, base);
    var classify2 := Classifier(cols, sc, cfg2, images2);
    var s2 := Run(after, |after|, classify2, transport2, accept2, base2);
    RunSound(after, |after|, classify2, transport2, accept2, base2);
    forall r, k2 | r in s.marked && 0 <= k2 < |s2.attempts|
      ensures s2.attempts[k2].row != r
    {
      ClassifierApplies(cols, sc, cfg2, images2, after[r]);
    }
  }

  /** Row `r` is present in both tables and reads the same in both. */
  predicate SameRow(a: Table, b: Table, r: nat)
  {
    r < |a| && r < |b| && a[r] == b[r]
  }

  /**
   * A row whose send succeeded but whose mark request failed is mailed
   * again: on the sheet the stopped run leaves, that row is unmarked and
   * unchanged, so a later run, whatever its settings and images, plans to
   * send it again, and does send it unless one of its own mark requests
   * fails first.
   */
  lemma FailedMarkIsResent(t: Table, n: nat, cfg: Config, images: map<string, string>,
                           transport: (nat, Message) -> bool, accept: nat -> bool, base: nat,
                           cfg2: Config, images2: map<string, string>,
                           transport2: (nat, Message) -> bool, accept2: nat -> bool, base2: nat)
    requires t != [] && 1 <= n <= |t| && ResolveColumns(t[0]).Resolved?
    requires Run(t, n, Classifier(ResolveColumns(t[0]).cols, StatusColumn(t[0]), cfg, images),
                 transport, accept, base).halted
    ensures Run(t, n, Classifier(ResolveColumns(t[0]).cols, StatusColumn(t[0]), cfg, images),
                transport, accept, base).attempts != []
    ensures var cols := ResolveColumns(t[0]).cols;
      var sc := StatusColumn(t[0]);
      var s := Run(t, n, Classifier(cols, sc, cfg, images), transport, accept, base);
      var r := s.attempts[|s.attempts| - 1].row;
      var after := MarkRows(WithStatusHeader(t), s.marked, sc);
      var classify2 := Classifier(cols, sc, cfg2, images2);
      var p2 := Plan(after, |after|, classify2, transport2);
      var s2 := Run(after, |after|, classify2, transport2, accept2, base2);
      && s.attempts[|s.attempts| - 1].delivered
      && |after| == |t| && 1 <= r < |t| && r !in s.marked && SameRow(after, t, r)
      && (exists k :: 0 <= k < |p2| && p2[k].row == r)
      && (!s2.halted ==> exists k :: 0 <= k < |s2.attempts| && s2.attempts[k].row == r)
      && (s2.halted ==> s2.attempts != [] && (r <= s2.attempts[|s2.attempts| - 1].row ==>
            exists k :: 0 <= k < |s2.attempts| && s2.attempts[k].row == r))
  {
    var cols := ResolveColumns(t[0]).cols;
    var sc := StatusColumn(t[0]);
    var s := Run(t, n, Classifier(cols, sc, cfg, images), transport, accept, base);
    var classify := Classifier(cols, sc, cfg, images);
    var classify2 := Classifier(cols, sc, cfg2, images2);
    InterruptedRunState(t, n, cfg, images, transport, accept, base);
    forall row
      ensures classify(row).Ready? ==> classify2(row).Ready?
    {
      ReadinessIgnoresSettings(row, cols, sc, cfg, images, cfg2, images2);
    }
    StoppedRowSentAgain(t, n, classify, transport, accept, base, MarkRows(WithStatusHeader(t), s.marked, sc),
                        classify2, transport2, accept2, base2);
  }

  /**
   * The row a stopped run ends at, left as it was on the sheet a later run
   * reads, is planned again by a classifier that accepts whatever the first
   * one did, and sent unless the later run stops before reaching it.
   */
  lemma StoppedRowSentAgain(t: Table, n: nat, classify: Row -> Disposition, transport: (nat, Message) -> bool,
                            accept: nat -> bool, base: nat, after: Table, classify2: Row -> Disposition,
                            transport2: (nat, Message) -> bool, accept2: nat -> bool, base2: nat)
    requires n <= |t| && Run(t, n, classify, transport, accept, base).halted
    requires |after| == |t|
    requires forall r :: 1 <= r < |t| && r !in Run(t, n, classify, transport, accept, base).marked ==> after[r] == t[r]
    requires forall row :: classify(row).Ready? ==> classify2(row).Ready?
    ensures Run(t, n, classify, transport, accept, base).attempts != []
    ensures var s := Run(t, n, classify, transport, accept, base);
      var r := s.attempts[|s.attempts| - 1].row;
      var p2 := Plan(after, |after|, classify2, transport2);
      var s2 := Run(after, |after|, classify2, transport2, accept2, base2);
      && s.attempts[|s.attempts| - 1].delivered
      && 1 <= r < |t| && r !in s.marked && SameRow(after, t, r)
      && (exists k :: 0 <= k < |p2| && p2[k].row == r)
      && (!s2.halted ==> exists k :: 0 <= k < |s2.attempts| && s2.attempts[k].row == r)
      && (s2.halted ==> s2.attempts != [] && (r <= s2.attempts[|s2.attempts| - 1].row ==>
            exists k :: 0 <= k < |s2.attempts| && s2.attempts[k].row == r))
  {
    var s := Run(t, n, classify, transport, accept, base);
    RunStopsAtFailedMark(t, n, classify, transport, accept, base);
    RunSound(t, n, classify, transport, accept, base);
    var r := s.attempts[|s.attempts| - 1].row;
    assert classify(t[r]).Ready?;
    LaterRunSendsRow(after, classify2, transport2, accept2, base2, r);
  }

  /** Whether a row is ready depends on the sheet only, not on the settings or the images. */
  lemma ReadinessIgnoresSettings(row: Row, cols: Columns, sc: nat, cfg: Config, images: map<string, string>,
                                 cfg2: Config, images2: map<string, string>)
    requires sc >= 1
    ensures Classifier(cols, sc, cfg, images)(row).Ready? == Classifier(cols, sc, cfg2, images2)(row).Ready?
  {
    ClassifierApplies(cols, sc, cfg, images, row);
    ClassifierApplies(cols, sc, cfg2, images2, row);
    ReadyIff(row, cols, sc, cfg, images);
    ReadyIff(row, cols, sc, cfg2, images2);
  }

  /**
   * A ready data row is planned, and a run sends it unless the run stops at
   * a failed mark before reaching it.
   */
  lemma LaterRunSendsRow(t: Table, classify: Row -> Disposition, transport: (nat, Message) -> bool,
                         accept: nat -> bool, base: nat, r: nat)
    requires 1 <= r < |t| && classify(t[r]).Ready?
    ensures var p := Plan(t, |t|, classify, transport);
      var s := Run(t, |t|, classify, transport, accept, base);
      && (exists k :: 0 <= k < |p| && p[k].row == r)
      && (!s.halted ==> exists k :: 0 <= k < |s.attempts| && s.attempts[k].row == r)
      && (s.halted ==> s.attempts != [] && (r <= s.attempts[|s.attempts| - 1].row ==>
            exists k :: 0 <= k < |s.attempts| && s.attempts[k].row == r))
  {
    PlanAttemptsEveryReadyRow(t, |t|, classify, transport, r);
    RunFollowsPlan(t, |t|, classify, transport, accept, base);
    if Run(t, |t|, classify, transport, accept, base).halted {
      StoppedRunReachesRow(t, classify, transport, accept, base, r);
    }
  }

  /** A run that stops at a failed mark has sent every ready row up to the row it stopped at. */
  lemma StoppedRunReachesRow(t: Table, classify: Row -> Disposition, transport: (nat, Message) -> bool,
                             accept: nat -> bool, base: nat, r: nat)
    requires 1 <= r < |t| && classify(t[r]).Ready?
    requires Run(t, |t|, classify, transport, accept, base).halted
    ensures var s := Run(t, |t|, classify, transport, accept, base);
      s.attempts != [] &&
      (r <= s.attempts[|s.attempts| - 1].row ==> exists k :: 0 <= k < |s.attempts| && s.attempts[k].row == r)
  {
    var s := Run(t, |t|, classify, transport, accept, base);
    RunStopsAtFailedMark(t, |t|, classify, transport, accept, base);
    var last := s.attempts[|s.attempts| - 1];
    if r <= last.row {
      var p := Plan(t, last.row + 1, classify, transport);
      assert s.attempts == p;
      PlanAttemptsEveryReadyRow(t, last.row + 1, classify, transport, r);
      var k :| 0 <= k < |p| && p[k].row == r;
      assert s.attempts[k].row == r;
    }
  }

  /** The image files `generate_qr_codes_from_sheet` leaves after a run over `t` on a store holding `files`. */
  function GeneratedImages(files: map<string, string>, t: Table): map<string, string>
    requires t != [] && UniqueIdHeader in t[0]
  {
    var col := IndexOf(t[0], UniqueIdHeader);
    QrGenerator.SaveAll(files, QrGenerator.IdsOf(t, QrGenerator.IdRows(t, |t|, col), col))
  }

  /**
   * An identifier that no later row's identifier shares its first eight
   * characters with keeps its own image: the generated file at its path
   * encodes the full identifier.
   */
  lemma GeneratedImageOf(t: Table, files: map<string, string>, r: nat)
    requires t != [] && UniqueIdHeader in t[0]
    requires 1 <= r < |t| && QrGenerator.HasId(t[r], IndexOf(t[0], UniqueIdHeader))
    requires var col := IndexOf(t[0], UniqueIdHeader);
      forall r2 :: r < r2 < |t| && QrGenerator.HasId(t[r2], col) ==>
        QrGenerator.QrFileName(t[r2][col]) != QrGenerator.QrFileName(t[r][col])
    ensures var id := t[r][IndexOf(t[0], UniqueIdHeader)];
      var images := GeneratedImages(files, t);
      QrGenerator.QrPath(QrGenerator.OutputDir, id) in images && images[QrGenerator.QrPath(QrGenerator.OutputDir, id)] == id
  {
    var col := IndexOf(t[0], UniqueIdHeader);
    var rows := QrGenerator.IdRows(t, |t|, col);
    var ids := QrGenerator.IdsOf(t, rows, col);
    QrGenerator.IdRowsComplete(t, |t|, col, r);
    var i :| 0 <= i < |rows| && rows[i] == r;
    forall j | i < j < |ids|
      ensures QrGenerator.QrFileName(ids[j]) != QrGenerator.QrFileName(ids[i])
    {
      assert rows[i] < rows[j];
    }
    QrGenerator.LastWriteWins(files, ids, i);
  }

  /** A ready row's message names the image of the row's identifier and carries what the store holds there. */
  lemma ReadyAttachment(row: Row, cols: Columns, statusCol: nat, cfg: Config, images: map<string, string>)
    requires statusCol >= 1
    requires Classify(row, cols, statusCol, cfg, images).Ready?
    ensures cols.uniqueId < |row| && row[cols.uniqueId] != ""
    ensures var m := Classify(row, cols, statusCol, cfg, images).message;
      var path := QrGenerator.QrPath(cfg.qrCodesDir, row[cols.uniqueId]);
      m.qrPath == path && m.qrImage == if path in images then Some(images[path]) else None
  {
  }

  /**
   * With the images generated from the same table into the default
   * directory, a ready row's message attaches the image of its own
   * identifier, provided no later row's identifier shares its first eight
   * characters (such a later image would have overwritten it).
   */
  lemma AttachmentIsOwnImage(t: Table, statusCol: nat, cfg: Config, files: map<string, string>, r: nat)
    requires t != [] && ResolveColumns(t[0]).Resolved? && statusCol >= 1
    requires cfg.qrCodesDir == DefaultQrCodesDir
    requires 1 <= r < |t|
    requires Classify(t[r], ResolveColumns(t[0]).cols, statusCol, cfg, GeneratedImages(files, t)).Ready?
    requires var col := ResolveColumns(t[0]).cols.uniqueId;
      forall r2 :: r < r2 < |t| && QrGenerator.HasId(t[r2], col) ==>
        QrGenerator.QrFileName(t[r2][col]) != QrGenerator.QrFileName(t[r][col])
    ensures var cols := ResolveColumns(t[0]).cols;
      var m := Classify(t[r], cols, statusCol, cfg, GeneratedImages(files, t)).message;
      m.qrPath == QrGenerator.QrPath(QrGenerator.OutputDir, t[r][cols.uniqueId]) && m.qrImage == Some(t[r][cols.uniqueId])
  {
    var cols := ResolveColumns(t[0]).cols;
    assert cols.uniqueId == IndexOf(t[0], UniqueIdHeader);
    ReadyAttachment(t[r], cols, statusCol, cfg, GeneratedImages(files, t));
    GeneratedImageOf(t, files, r);
  }
}
