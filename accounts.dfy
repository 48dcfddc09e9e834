/** Account discovery: the accounts page lists one `.accountrow` per account,
    from which the type, names, balance, mask and (for credit and depository
    accounts) the ephemeral account id are derived. */
module Accounts {
  import opened Js
  import opened JsString
  import opened Settlement
  import opened Model

  /** The accounts page request. */
  function AccountsRequest(): Request {
    Request(Get, BaseUrl + "accounts", [])
  }

  /** `parseBalance`: `parseFloat` of the text with its first `$` removed. */
  function ParseBalance(host: Host, balance: string): JsNumber {
    host.parseFloat(RemoveFirst(balance, '$'))
  }

  /** `parseBalance` strips only one dollar sign: the text given to
      `parseFloat` is the balance text with its first `$` cut out (so it has
      exactly one `$` fewer, by `RemoveFirstCount`), or the balance text
      itself when it has none. */
  lemma ParseBalanceInput(host: Host, balance: string)
    ensures '$' !in balance ==> ParseBalance(host, balance) == host.parseFloat(balance)
    ensures '$' in balance ==> var i := IndexOf(balance, '$');
      ParseBalance(host, balance) == host.parseFloat(balance[..i] + balance[i + 1..])
  {
  }

  /** `convertAccountType`: the fixed lookup table; `None` stands for the
      "unknown account type" error it throws. */
  function ConvertAccountType(officialName: string): (t: Option<AccountType>)
    ensures t == Some(Depository) <==> officialName in {"Personal Checking", "Business Savings"}
    ensures t == Some(Credit) <==> officialName == "Travel Rewards Mastercard"
    ensures t == Some(Loan) <==> officialName in {"Auto Navigator Loan", "10/1 Adjustable"}
    ensures t.None? <==> (officialName !in
      {"Personal Checking", "Business Savings", "Travel Rewards Mastercard", "Auto Navigator Loan", "10/1 Adjustable"})
  {
    match officialName
    case "Personal Checking" => Some(Depository)
    case "Business Savings" => Some(Depository)
    case "Travel Rewards Mastercard" => Some(Credit)
    case "Auto Navigator Loan" => Some(Loan)
    case "10/1 Adjustable" => Some(Loan)
    case _ => None
  }

  /** The mask: `accountNumber.substring(accountNumber.length - 4)`. */
  function Mask(accountNumber: string): string {
    Substring(accountNumber, |accountNumber| - 4, |accountNumber|)
  }

  /** The mask is the last four characters, or the whole account number when
      it is shorter than four (a negative `substring` start counts as 0). */
  lemma MaskIsLastFour(accountNumber: string)
    ensures |accountNumber| >= 4 ==> Mask(accountNumber) == accountNumber[|accountNumber| - 4..]
    ensures |accountNumber| < 4 ==> Mask(accountNumber) == accountNumber
    ensures |Mask(accountNumber)| == if |accountNumber| < 4 then |accountNumber| else 4
  {
  }

  /** What one row yields: a thrown error (`RowFault`: no `data-a-n`
      attribute, an unknown account type, or no link), or the account record
      and whether every required field is truthy. */
  datatype RowParse = RowFault | Row(account: AccountData, complete: bool)

  /** The per-row field derivation of `extractAccounts`. */
  function ParseRow(host: Host, row: AccountRow): RowParse {
    var availableBalance := ParseBalance(host, row.balance);
    if row.accountNumber.None? then RowFault
    else
      var mask := Mask(row.accountNumber.value);
      var kind := ConvertAccountType(row.officialName);
      if kind.None? || row.href.None? then RowFault
      else
        var accountId := At(Split(row.href.value, '/'), 1);
        var complete :=
          row.nickname != "" && row.officialName != "" && !availableBalance.Falsy()
          && mask != "" && accountId.Some? && accountId.value != "";
        var rawEphemeral := if HasTransactions(kind.value) then Some(accountId.GetOr("")) else None;
        Row(AccountData(kind.value, row.nickname, row.officialName, availableBalance, availableBalance, mask, rawEphemeral),
            complete)
  }

  /** A row that yields an account without any error. */
  predicate Good(p: RowParse) {
    p.Row? && p.complete
  }

  /** Every row of the page, parsed. */
  function ParseAll(host: Host, rows: seq<AccountRow>): seq<RowParse> {
    seq(|rows|, k requires 0 <= k < |rows| => ParseRow(host, rows[k]))
  }

  /** The parsed rows' outcome: resolved with one account per row, in order,
      when every row is good; otherwise rejected with InstitutionRequestError. */
  function Collect(parsed: seq<RowParse>): (r: Outcome<seq<AccountData>>)
    ensures !r.Unsettled?
    ensures r.Rejected? ==> r.error == InstitutionRequestError
    ensures r.Resolved? <==> forall k :: 0 <= k < |parsed| ==> Good(parsed[k])
    ensures r.Resolved? ==> (|r.value| == |parsed|
      && forall k :: 0 <= k < |parsed| ==> r.value[k] == parsed[k].account)
    decreases |parsed|
  {
    if parsed == [] then Resolved([])
    else
      var init := Collect(parsed[..|parsed| - 1]);
      var last := parsed[|parsed| - 1];
      assert forall k :: 0 <= k < |parsed| - 1 ==> parsed[..|parsed| - 1][k] == parsed[k];
      if init.Resolved? && Good(last) then Resolved(init.value + [last.account])
      else Rejected(InstitutionRequestError)
  }

  /** `extractAccounts` on the accounts page response: a status other than
      200 rejects with InstitutionRequestError; otherwise the page's rows. */
  function AccountsOutcome(host: Host, response: Response): Outcome<seq<AccountData>> {
    if response.status == 200 then Collect(ParseAll(host, host.accountRows(response.body)))
    else Rejected(InstitutionRequestError)
  }

  /** The accounts of a resolved discovery: one per row, in document order,
      each with a type from the table, the current balance equal to the
      available one, the mask cut from the row's account number, and an
      ephemeral id exactly when the type is credit or depository, taken from
      path segment 1 of the row's link, which every row, a loan's included,
      has and which is not empty. */
  lemma DiscoveredAccounts(host: Host, response: Response)
    requires AccountsOutcome(host, response).Resolved?
    ensures response.status == 200
    ensures var accounts := AccountsOutcome(host, response).value;
      var rows := host.accountRows(response.body);
      && |accounts| == |rows|
      && forall k :: 0 <= k < |rows| ==>
        && rows[k].accountNumber.Some? && rows[k].href.Some?
        && At(Split(rows[k].href.value, '/'), 1).Some? && At(Split(rows[k].href.value, '/'), 1).value != ""
        && ConvertAccountType(rows[k].officialName) == Some(accounts[k].kind)
        && accounts[k].nickname == rows[k].nickname != ""
        && accounts[k].officialName == rows[k].officialName != ""
        && accounts[k].currentBalance == accounts[k].availableBalance == ParseBalance(host, rows[k].balance)
        && !accounts[k].availableBalance.Falsy()
        && accounts[k].mask == Mask(rows[k].accountNumber.value) != ""
        && (accounts[k].rawEphemeral.Some? <==> HasTransactions(accounts[k].kind))
        && (accounts[k].rawEphemeral.Some? ==>
              At(Split(rows[k].href.value, '/'), 1) == accounts[k].rawEphemeral
              && accounts[k].rawEphemeral.value != "")
  {
    var rows := host.accountRows(response.body);
    var parsed := ParseAll(host, rows);
    forall k | 0 <= k < |rows|
      ensures ParseRow(host, rows[k]).Row? && ParseRow(host, rows[k]).complete
    {
      assert Good(parsed[k]);
    }
  }

  /** The ways discovery fails: a status other than 200, or a row that throws
      or has a falsy required field (a zero balance included). */
  lemma DiscoveryRejected(host: Host, response: Response)
    ensures AccountsOutcome(host, response) == Rejected(InstitutionRequestError) <==>
      response.status != 200 || exists k :: 0 <= k < |host.accountRows(response.body)| && !Good(ParseRow(host, host.accountRows(response.body)[k]))
    ensures !AccountsOutcome(host, response).Unsettled?
  {
    var rows := host.accountRows(response.body);
    var parsed := ParseAll(host, rows);
    assert forall k :: 0 <= k < |rows| ==> parsed[k] == ParseRow(host, rows[k]);
  }

  /** The abstract value of a list of account objects. */
  function DataOf(accounts: seq<Account>): (d: seq<AccountData>)
    reads set k | 0 <= k < |accounts| :: accounts[k]
    ensures |d| == |accounts| && forall k :: 0 <= k < |accounts| ==> d[k] == accounts[k].Data()
  {
    seq(|accounts|, k requires 0 <= k < |accounts| reads set j | 0 <= j < |accounts| :: accounts[j] =>
      accounts[k].Data())
  }

  /** The row loop of `extractAccounts` over the parsed rows: a falsy field
      rejects the promise but the loop goes on, so the later `resolve` is
      ignored; a row that throws ends the step. Its outcome is `Collect`'s. */
  method ReadRows(parsed: seq<RowParse>) returns (outcome: Outcome<seq<AccountData>>)
    ensures outcome == Collect(parsed)
  {
    var values: seq<AccountData> := [];
    var settled: Outcome<seq<AccountData>> := Unsettled;
    var i := 0;
    while i < |parsed|
      invariant 0 <= i <= |parsed| && |values| == i
      invariant forall k :: 0 <= k < i ==> parsed[k].Row? && values[k] == parsed[k].account
      invariant settled.Unsettled? <==> forall k :: 0 <= k < i ==> Good(parsed[k])
      invariant settled.Unsettled? || settled == Rejected(InstitutionRequestError)
    {
      var row := parsed[i];
      if row.RowFault? {
        assert !Good(parsed[i]);
        outcome := Settle(settled, Rejected(InstitutionRequestError));
        return;
      }
      if !row.complete {
        settled := Settle(settled, Rejected(InstitutionRequestError));
      }
      values := values + [row.account];
      i := i + 1;
    }
    if settled.Unsettled? {
      assert values == Collect(parsed).value;
    }
    outcome := Settle(settled, Resolved(values));
  }

  /** One new account object per value, in order. */
  method NewAccounts(values: seq<AccountData>) returns (accounts: seq<Account>)
    ensures DataOf(accounts) == values
    ensures forall k :: 0 <= k < |accounts| ==> fresh(accounts[k])
    ensures forall j, k :: 0 <= j < k < |accounts| ==> accounts[j] != accounts[k]
  {
    accounts := [];
    var i := 0;
    while i < |values|
      invariant 0 <= i <= |values| && |accounts| == i
      invariant forall k :: 0 <= k < i ==> fresh(accounts[k])
      invariant forall j, k :: 0 <= j < k < i ==> accounts[j] != accounts[k]
      invariant forall k :: 0 <= k < i ==> accounts[k].Data() == values[k]
    {
      var account := new Account(values[i]);
      accounts := accounts + [account];
      i := i + 1;
    }
  }

  /** `extractAccounts`: fetches the accounts page and, on a 200, builds one
      account object per row; the result is the same as `AccountsOutcome`.
      The objects are made once every row has been read: the objects of a
      discovery that throws part-way are never seen by anyone. */
  method ExtractAccounts(host: Host, transport: Transport)
    returns (outcome: Outcome<seq<Account>>, sent: seq<Request>)
    ensures sent == [AccountsRequest()]
    ensures var expected := AccountsOutcome(host, transport(AccountsRequest()));
      && outcome.Unsettled? == expected.Unsettled?
      && outcome.Rejected? == expected.Rejected?
      && (outcome.Rejected? ==> outcome.error == expected.error)
      && (outcome.Resolved? ==> DataOf(outcome.value) == expected.value)
    ensures outcome.Resolved? ==>
      && (forall k :: 0 <= k < |outcome.value| ==> fresh(outcome.value[k]))
      && (forall j, k :: 0 <= j < k < |outcome.value| ==> outcome.value[j] != outcome.value[k])
  {
    sent := [AccountsRequest()];
    var response := transport(AccountsRequest());
    if response.status != 200 {
      outcome := Rejected(InstitutionRequestError);
      return;
    }
    var read := ReadRows(ParseAll(host, host.accountRows(response.body)));
    match read
    case Resolved(values) =>
      var accounts := NewAccounts(values);
      outcome := Resolved(accounts);
    case Rejected(e) => outcome := Rejected(e);
    case Unsettled => outcome := Unsettled;
  }
}
