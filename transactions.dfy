/** Transaction extraction for one account: the posted transactions come from
    a CSV download, the pending ones from the account's page, filtered to the
    requested (inclusive) date range. */
module Transactions {
  import opened Js
  import opened JsString
  import opened Settlement
  import opened Model

  /** The CSV download request, a form POST. */
  function DownloadRequest(accountId: string, options: TransactionOptions): Request {
    Request(Post, BaseUrl + "download",
      [FormField("account_id", Some(accountId)),
       FormField("start_date", Some(options.startDate)),
       FormField("end_date", Some(options.endDate))])
  }

  /** The account page request, which lists the pending transactions. */
  function DetailRequest(accountId: string): Request {
    Request(Get, BaseUrl + "accounts/" + accountId, [])
  }

  /** The account id read from the ephemeral reference: its text when it is
      present and non-empty, otherwise the empty text. */
  function AccountIdOf(rawEphemeral: Option<string>): (id: string)
    ensures id == "" <==> rawEphemeral.None? || rawEphemeral.value == ""
    ensures id != "" ==> rawEphemeral == Some(id)
  {
    if rawEphemeral.Some? && rawEphemeral.value != "" then rawEphemeral.value else ""
  }

  /** `new Date(cell)`; a missing cell is `new Date(undefined)`, an Invalid Date. */
  function DateOf(host: Host, cell: Option<string>): JsDate {
    if cell.Some? then host.parseDate(cell.value) else InvalidDate
  }

  /** `Number(cell)`; a missing cell is `Number(undefined)`, NaN. */
  function NumberOf(host: Host, cell: Option<string>): JsNumber {
    if cell.Some? then host.toNumber(cell.value) else NaN
  }

  /** What one CSV row yields: skipped (its date cell is the text "None"), a
      thrown error (`toISOString` of an Invalid Date), or a posted transaction
      and whether every required field is truthy. */
  datatype PostedParse = SkipRow | RowFault | PostedRow(transaction: Transaction, complete: bool)

  /** The per-row work of the CSV loop. */
  function ParsePosted(host: Host, row: seq<string>): PostedParse {
    if At(row, 1) == Some("None") then SkipRow
    else
      var date := DateOf(host, At(row, 1));
      if date.InvalidDate? then RowFault
      else
        var formattedDate := Split(host.isoString(date.time), 'T')[0];
        var amount := NumberOf(host, At(row, 2));
        var description := At(row, 3);
        var complete := formattedDate != "" && !amount.Falsy() && description.Some? && description.value != "";
        PostedRow(Transaction(formattedDate, amount, description.GetOr(""), false), complete)
  }

  /** Every row, parsed. */
  function ParseAllPosted(host: Host, rows: seq<seq<string>>): seq<PostedParse> {
    seq(|rows|, k requires 0 <= k < |rows| => ParsePosted(host, rows[k]))
  }

  /** The rows after the header row. */
  function CsvBody(table: seq<seq<string>>): (body: seq<seq<string>>)
    ensures |table| >= 1 ==> body == table[1..]
    ensures |table| == 0 ==> body == []
  {
    if |table| == 0 then [] else table[1..]
  }

  /** The result of the CSV pass: aborted by a row that throws, or the posted
      transactions and whether no row had a falsy field. */
  datatype CsvPass = Aborted | Posted(data: seq<Transaction>, complete: bool)

  /** The CSV pass over parsed rows, in order. It aborts exactly when some row
      throws; otherwise it keeps one unpending transaction per row not skipped,
      in order, and is complete exactly when each of those rows is. */
  function PostedPass(parsed: seq<PostedParse>): (r: CsvPass)
    ensures r.Aborted? <==> exists k :: 0 <= k < |parsed| && parsed[k].RowFault?
    ensures r.Posted? ==> (r.complete <==> forall k :: 0 <= k < |parsed| && parsed[k].PostedRow? ==> parsed[k].complete)
    ensures r.Posted? ==> forall t :: t in r.data <==> exists k :: 0 <= k < |parsed| && parsed[k].PostedRow? && parsed[k].transaction == t
    decreases |parsed|
  {
    if parsed == [] then Posted([], true)
    else
      var init := parsed[..|parsed| - 1];
      var last := parsed[|parsed| - 1];
      assert forall k :: 0 <= k < |init| ==> init[k] == parsed[k];
      match PostedPass(init)
      case Aborted => Aborted
      case Posted(data, complete) =>
        match last
        case SkipRow => Posted(data, complete)
        case RowFault => Aborted
        case PostedRow(t, ok) => Posted(data + [t], complete && ok)
  }

  /** The CSV pass over two runs of rows, neither of which throws, is the pass
      over the first followed by the pass over the second: the posted
      transactions keep the order of their rows. */
  lemma {:induction false} PostedPassAppend(a: seq<PostedParse>, b: seq<PostedParse>)
    requires PostedPass(a).Posted? && PostedPass(b).Posted?
    ensures PostedPass(a + b) ==
      Posted(PostedPass(a).data + PostedPass(b).data, PostedPass(a).complete && PostedPass(b).complete)
    decreases |b|
  {
    if b == [] {
      assert a + b == a;
    } else {
      var init := b[..|b| - 1];
      assert (a + b)[..|a + b| - 1] == a + init;
      assert (a + b)[|a + b| - 1] == b[|b| - 1];
      assert forall k :: 0 <= k < |init| ==> init[k] == b[k];
      PostedPassAppend(a, init);
    }
  }

  /** A single posted row yields exactly its transaction; with
      `PostedPassAppend` this fixes the result as one transaction per posted
      row, in CSV order. */
  lemma PostedPassSingle(t: Transaction, ok: bool)
    ensures PostedPass([PostedRow(t, ok)]) == Posted([t], ok)
  {
    assert [PostedRow(t, ok)][..0] == [];
  }

  /** The CSV pass over a download's rows never yields a pending transaction. */
  lemma PostedNeverPending(host: Host, rows: seq<seq<string>>)
    ensures var r := PostedPass(ParseAllPosted(host, rows));
      r.Posted? ==> forall t :: t in r.data ==> !t.pending
  {
  }

  /** The CSV download's contribution: a status other than 200 rejects (no
      posted transactions, and the step goes on); otherwise the rows after the
      header, where a CSV parser that throws aborts the step. */
  function CsvStep(host: Host, response: Response): CsvPass {
    if response.status != 200 then Posted([], false)
    else
      match host.parseCsv(response.body)
      case None => Aborted
      case Some(table) => PostedPass(ParseAllPosted(host, CsvBody(table)))
  }

  /** The header row of the download is never parsed: the CSV pass over a
      table is the pass over the rows after its first, whatever that first row
      holds (even a date cell that would throw). */
  lemma HeaderRowIgnored(host: Host, header: seq<string>, rows: seq<seq<string>>)
    ensures PostedPass(ParseAllPosted(host, CsvBody([header] + rows))) == PostedPass(ParseAllPosted(host, rows))
  {
    assert ([header] + rows)[1..] == rows;
  }

  /** A row whose date cell is "None" is dropped without any other effect. */
  lemma {:induction false} SkippedRowIgnored(a: seq<PostedParse>, b: seq<PostedParse>)
    ensures PostedPass(a + [SkipRow] + b) == PostedPass(a + b)
    decreases |b|
  {
    if b == [] {
      assert (a + [SkipRow] + b)[..|a|] == a;
      assert a + b == a;
    } else {
      var b' := b[..|b| - 1];
      SkippedRowIgnored(a, b');
      assert (a + [SkipRow] + b)[..|a + [SkipRow] + b| - 1] == a + [SkipRow] + b';
      assert (a + b)[..|a + b| - 1] == a + b';
    }
  }

  /** Skipping happens exactly for rows whose date cell is the text "None". */
  lemma SkipRowsExactly(host: Host, row: seq<string>)
    ensures ParsePosted(host, row).SkipRow? <==> |row| >= 2 && row[1] == "None"
    ensures ParsePosted(host, row).RowFault? <==>
      (|row| < 2 || (row[1] != "None" && host.parseDate(row[1]).InvalidDate?))
  {
  }

  /** A complete posted row has all four cells, its date is the ISO date part
      of the parsed date, its amount is non-zero and its description is non-empty. */
  lemma PostedRowFields(host: Host, row: seq<string>)
    requires ParsePosted(host, row).PostedRow? && ParsePosted(host, row).complete
    ensures |row| >= 4 && row[1] != "None" && host.parseDate(row[1]).ValidDate?
    ensures var t := ParsePosted(host, row).transaction;
      && t.date == Split(host.isoString(host.parseDate(row[1]).time), 'T')[0] != ""
      && t.amount == host.toNumber(row[2]) && !t.amount.Falsy()
      && t.description == row[3] != ""
      && !t.pending
  {
  }

  /** Whether a date lies in the range `[start, end]`, with JavaScript's
      comparison of dates (an Invalid Date is in no range). */
  predicate InRange(date: JsDate, start: JsDate, end: JsDate) {
    AtOrAfter(date, start) && AtOrAfter(end, date)
  }

  /** A pending transaction built from a row of the account page. */
  function PendingTransaction(host: Host, row: PendingRow): Transaction {
    Transaction(row.date, host.toNumber(row.amount), row.description, true)
  }

  /** The pending rows kept, in page order. */
  function KeptPending(host: Host, rows: seq<PendingRow>, start: JsDate, end: JsDate): seq<Transaction>
    decreases |rows|
  {
    if rows == [] then []
    else
      var last := rows[|rows| - 1];
      KeptPending(host, rows[..|rows| - 1], start, end)
        + (if InRange(host.parseDate(last.date), start, end) then [PendingTransaction(host, last)] else [])
  }

  /** Filtering two runs of pending rows is filtering each in turn: the kept
      transactions keep page order. */
  lemma {:induction false} KeptPendingAppend(host: Host, a: seq<PendingRow>, b: seq<PendingRow>, start: JsDate, end: JsDate)
    ensures KeptPending(host, a + b, start, end) == KeptPending(host, a, start, end) + KeptPending(host, b, start, end)
    decreases |b|
  {
    if b == [] {
      assert a + b == a;
    } else {
      var init := b[..|b| - 1];
      assert (a + b)[..|a + b| - 1] == a + init;
      assert (a + b)[|a + b| - 1] == b[|b| - 1];
      KeptPendingAppend(host, a, init, start, end);
    }
  }

  /** A pending transaction is kept exactly when its row's date, the start and
      the end are all valid and start <= date <= end (both bounds inclusive);
      every kept transaction is pending. */
  lemma {:induction false} KeptPendingMembers(host: Host, rows: seq<PendingRow>, start: JsDate, end: JsDate)
    ensures forall t :: t in KeptPending(host, rows, start, end) <==>
      exists k :: 0 <= k < |rows| && t == PendingTransaction(host, rows[k])
        && host.parseDate(rows[k].date).ValidDate? && start.ValidDate? && end.ValidDate?
        && start.time <= host.parseDate(rows[k].date).time <= end.time
    ensures forall t :: t in KeptPending(host, rows, start, end) ==> t.pending
    ensures |KeptPending(host, rows, start, end)| <= |rows|
    decreases |rows|
  {
    if rows != [] {
      var init := rows[..|rows| - 1];
      KeptPendingMembers(host, init, start, end);
      assert forall k :: 0 <= k < |init| ==> init[k] == rows[k];
    }
  }

  /** `extractTransactions` as a value: the requests sent and the settled
      result, given the account's ephemeral reference before the call. The
      download is always requested; only a row that throws stops the step
      before the account page is requested. */
  function TransactionsRun(host: Host, transport: Transport, rawEphemeral: Option<string>, options: TransactionOptions)
    : (r: Run<seq<Transaction>>)
    ensures !r.outcome.Unsettled?
    ensures r.outcome.Rejected? ==> r.outcome.error == InstitutionRequestError
  {
    var startDate := host.parseDate(options.startDate);
    var endDate := host.parseDate(options.endDate);
    var accountId := AccountIdOf(rawEphemeral);
    var download := DownloadRequest(accountId, options);
    match CsvStep(host, transport(download))
    case Aborted => Run(Rejected(InstitutionRequestError), [download])
    case Posted(posted, complete) =>
      var detail := DetailRequest(accountId);
      var page := transport(detail);
      if After(startDate, endDate) || accountId == "" || !complete || page.status != 200 then
        Run(Rejected(InstitutionRequestError), [download, detail])
      else
        Run(Resolved(posted + KeptPending(host, host.pendingRows(page.body), startDate, endDate)), [download, detail])
  }

  /** A start date after the end date, or an account without an ephemeral id,
      rejects the step, yet the download is still requested (with an empty
      `account_id` in the second case), and the account page too unless a CSV
      row throws. */
  lemma RejectedChecksStillRequest(host: Host, transport: Transport, rawEphemeral: Option<string>, options: TransactionOptions)
    requires After(host.parseDate(options.startDate), host.parseDate(options.endDate))
      || AccountIdOf(rawEphemeral) == ""
    ensures TransactionsRun(host, transport, rawEphemeral, options).outcome == Rejected(InstitutionRequestError)
    ensures var sent := TransactionsRun(host, transport, rawEphemeral, options).sent;
      |sent| >= 1 && sent[0] == DownloadRequest(AccountIdOf(rawEphemeral), options)
      && sent[0].form[0] == FormField("account_id", Some(AccountIdOf(rawEphemeral)))
    ensures var id := AccountIdOf(rawEphemeral);
      var sent := TransactionsRun(host, transport, rawEphemeral, options).sent;
      var csv := CsvStep(host, transport(DownloadRequest(id, options)));
      && (csv.Aborted? ==> sent == [DownloadRequest(id, options)])
      && (csv.Posted? ==> sent == [DownloadRequest(id, options), DetailRequest(id)])
  {
  }

  /** A status other than 200 on either page rejects the step; a failed
      download still goes on to request the account page. */
  lemma StatusChecks(host: Host, transport: Transport, rawEphemeral: Option<string>, options: TransactionOptions)
    ensures var id := AccountIdOf(rawEphemeral);
      transport(DownloadRequest(id, options)).status != 200 ==>
        TransactionsRun(host, transport, rawEphemeral, options)
          == Run(Rejected(InstitutionRequestError), [DownloadRequest(id, options), DetailRequest(id)])
    ensures var id := AccountIdOf(rawEphemeral);
      transport(DetailRequest(id)).status != 200 ==>
        TransactionsRun(host, transport, rawEphemeral, options).outcome == Rejected(InstitutionRequestError)
  {
  }

  /** The step resolves exactly when the range is not reversed, the account
      has an id, the download succeeds with every row complete and the account
      page answers 200; the result is then the posted transactions, in CSV
      order, followed by the pending ones in range, in page order. */
  lemma ResolvedTransactions(host: Host, transport: Transport, rawEphemeral: Option<string>, options: TransactionOptions)
    ensures var id := AccountIdOf(rawEphemeral);
      var csv := CsvStep(host, transport(DownloadRequest(id, options)));
      var page := transport(DetailRequest(id));
      var startDate := host.parseDate(options.startDate);
      var endDate := host.parseDate(options.endDate);
      var r := TransactionsRun(host, transport, rawEphemeral, options);
      && (r.outcome.Resolved? <==>
            !After(startDate, endDate) && id != "" && csv.Posted? && csv.complete && page.status == 200)
      && (r.outcome.Resolved? ==>
            && r.sent == [DownloadRequest(id, options), DetailRequest(id)]
            && r.outcome.value == csv.data + KeptPending(host, host.pendingRows(page.body), startDate, endDate))
  {
  }

  /** The download half of `extractTransactions`: on a 200 the rows after the
      header are read in order, a row with a falsy field rejects the promise
      and the loop goes on, and a row that throws (or a CSV parser that throws)
      ends the step; any other status rejects. `aborted` says whether the step
      ended here; `data` holds the posted transactions pushed so far. */
  method ReadDownload(host: Host, csvResponse: Response, settled: Outcome<seq<Transaction>>)
    returns (settledOut: Outcome<seq<Transaction>>, data: seq<Transaction>, aborted: bool)
    ensures var csv := CsvStep(host, csvResponse);
      && (aborted <==> csv.Aborted?)
      && (!aborted ==> data == csv.data)
      && settledOut == if aborted || !csv.complete then Settle(settled, Rejected(InstitutionRequestError)) else settled
  {
    settledOut := settled;
    data := [];
    aborted := false;
    if csvResponse.status == 200 {
      var parsedCsv := host.parseCsv(csvResponse.body);
      if parsedCsv.None? {
        settledOut := Settle(settledOut, Rejected(InstitutionRequestError));
        aborted := true;
        return;
      }
      var rows := parsedCsv.value;
      ghost var parsed := ParseAllPosted(host, CsvBody(rows));
      ghost var complete := true;
      var i := 1;
      while i < |rows|
        invariant 1 <= i <= |parsed| + 1
        invariant PostedPass(parsed[..i - 1]) == Posted(data, complete)
        invariant settledOut == if complete then settled else Settle(settled, Rejected(InstitutionRequestError))
      {
        var row := ParsePosted(host, rows[i]);
        assert row == parsed[i - 1];
        assert parsed[..i][..i - 1] == parsed[..i - 1];
        if row.RowFault? {
          settledOut := Settle(settledOut, Rejected(InstitutionRequestError));
          aborted := true;
          assert PostedPass(parsed).Aborted? by {
            assert parsed[i - 1].RowFault?;
          }
          return;
        }
        if row.PostedRow? {
          if !row.complete {
            settledOut := Settle(settledOut, Rejected(InstitutionRequestError));
          }
          data := data + [row.transaction];
          complete := complete && row.complete;
        }
        i := i + 1;
      }
      assert parsed[..i - 1] == parsed;
    } else {
      settledOut := Settle(settledOut, Rejected(InstitutionRequestError));
    }
  }

  /** The `.each` pass over the pending rows of the account page: each row
      becomes a pending transaction, appended to `data` when its date is in
      range. */
  method AppendPending(host: Host, data: seq<Transaction>, pending: seq<PendingRow>, startDate: JsDate, endDate: JsDate)
    returns (result: seq<Transaction>)
    ensures result == data + KeptPending(host, pending, startDate, endDate)
  {
    result := data;
    var j := 0;
    while j < |pending|
      invariant 0 <= j <= |pending|
      invariant result == data + KeptPending(host, pending[..j], startDate, endDate)
    {
      var row := pending[j];
      var t := Transaction(row.date, host.toNumber(row.amount), row.description, true);
      var transactionDate := host.parseDate(row.date);
      assert pending[..j + 1][..j] == pending[..j];
      if AtOrAfter(transactionDate, startDate) && AtOrAfter(endDate, transactionDate) {
        result := result + [t];
      }
      j := j + 1;
    }
    assert pending[..j] == pending;
  }

  /** `extractTransactions`: the ephemeral reference is read and then deleted
      from the account object, whatever happens next; the steps are those of
      the source, where a `reject` does not stop the code after it and only
      the first settlement counts. The result and the requests are those of
      `TransactionsRun`, and no other field of the account changes. */
  method ExtractTransactions(host: Host, transport: Transport, session: Session, account: Account, options: TransactionOptions)
    returns (outcome: Outcome<seq<Transaction>>, sent: seq<Request>)
    modifies account`rawEphemeral
    ensures account.rawEphemeral == None
    ensures account.Data() == old(account.Data()).(rawEphemeral := None)
    ensures Run(outcome, sent) == TransactionsRun(host, transport, old(account.rawEphemeral), options)
  {
    var startDate := host.parseDate(options.startDate);
    var endDate := host.parseDate(options.endDate);
    var settled: Outcome<seq<Transaction>> := Unsettled;
    if After(startDate, endDate) {
      settled := Settle(settled, Rejected(InstitutionRequestError));
    }
    var data: seq<Transaction>;
    var accountId :=
      if account.rawEphemeral.Some? && account.rawEphemeral.value != "" then account.rawEphemeral.value else "";
    assert accountId == AccountIdOf(old(account.rawEphemeral));
    account.rawEphemeral := None;
    if accountId == "" {
      settled := Settle(settled, Rejected(InstitutionRequestError));
    }

    var download := DownloadRequest(accountId, options);
    sent := [download];
    var aborted;
    settled, data, aborted := ReadDownload(host, transport(download), settled);
    if aborted {
      outcome := settled;
      return;
    }

    var detail := DetailRequest(accountId);
    sent := sent + [detail];
    var page := transport(detail);
    if page.status == 200 {
      data := AppendPending(host, data, host.pendingRows(page.body), startDate, endDate);
      settled := Settle(settled, Resolved(data));
    } else {
      settled := Settle(settled, Rejected(InstitutionRequestError));
    }
    outcome := settled;
  }
}
