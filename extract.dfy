/** The orchestrator: runs login, account discovery, profile information and
    per-account transaction extraction in order, keys every account with a
    fresh index, and stops at the first error. */
module Extract {
  import opened Js
  import opened Settlement
  import opened Model
  import opened ProfileInfo
  import opened Accounts
  import opened Transactions
  import opened Login

  /** Which optional steps the extractor provides (`extractInfo != null`,
      `extractTransactions != null`). */
  datatype Capabilities = Capabilities(extractInfo: bool, extractTransactions: bool)

  /** The result bundle: the accounts map and the transactions map as their
      entries in insertion order, and the information (`None` when not
      attempted). `A` is the account: an object in the method, its field
      values in the specification. */
  datatype FullResult<A> = FullResult(
    accounts: seq<(string, A)>,
    info: Option<Info>,
    transactions: seq<(string, seq<Transaction>)>)

  /** What `extract` comes to: its success value, the error result it returns,
      or no result at all because a step's promise never settles. */
  datatype Extraction<A> = Success(data: FullResult<A>) | Failure(error: ErrorKind) | Stalled

  /** The result and every request sent, in order. */
  datatype ExtractRun = ExtractRun(result: Extraction<AccountData>, sent: seq<Request>)

  /** The key oracle (`uuid.v4()`, the i-th call giving `uuid(i)`) gives
      pairwise distinct keys. */
  ghost predicate FreshKeys(uuid: nat -> string) {
    forall i: nat, j: nat :: i != j ==> uuid(i) != uuid(j)
  }

  /** The accounts map after the discovery loop: account `k` under the key of
      the k-th call. With fresh keys every `set` adds an entry at the end, so
      no key appears twice and no account is overwritten. */
  function Keyed(found: seq<AccountData>, uuid: nat -> string): (entries: seq<(string, AccountData)>)
    ensures |entries| == |found|
    ensures forall k :: 0 <= k < |found| ==> entries[k] == (uuid(k), found[k])
    ensures FreshKeys(uuid) ==> forall i, j :: 0 <= i < j < |entries| ==> entries[i].0 != entries[j].0
  {
    seq(|found|, k requires 0 <= k < |found| => (uuid(k), found[k]))
  }

  /** The keys of a map's entries, in order. */
  function KeysOf<V>(entries: seq<(string, V)>): (keys: seq<string>)
    ensures |keys| == |entries| && forall k :: 0 <= k < |entries| ==> keys[k] == entries[k].0
  {
    seq(|entries|, k requires 0 <= k < |entries| => entries[k].0)
  }

  /** The keys of the accounts whose transactions are fetched, in order. */
  function EligibleKeys(entries: seq<(string, AccountData)>): seq<string>
    decreases |entries|
  {
    if entries == [] then []
    else
      var last := entries[|entries| - 1];
      EligibleKeys(entries[..|entries| - 1]) + (if HasTransactions(last.1.kind) then [last.0] else [])
  }

  /** One account's transaction extraction, as a function of the account's
      ephemeral reference: the requests it sends and how it settles. */
  type TransactionsStep = Option<string> -> Run<seq<Transaction>>

  /** The transactions a step resolved with (none when it did not resolve). */
  function ResolvedData(run: Run<seq<Transaction>>): seq<Transaction> {
    if run.outcome.Resolved? then run.outcome.value else []
  }

  /** The transactions map a loop that does not stop would build, defined
      entry by entry: each credit or depository account, in map order, under
      its key with what the extractor resolves with on its ephemeral id. */
  function FetchedTransactions(step: TransactionsStep, entries: seq<(string, AccountData)>)
    : seq<(string, seq<Transaction>)>
    decreases |entries|
  {
    if entries == [] then []
    else
      var last := entries[|entries| - 1];
      FetchedTransactions(step, entries[..|entries| - 1])
        + (if HasTransactions(last.1.kind) then [(last.0, ResolvedData(step(last.1.rawEphemeral)))] else [])
  }

  /** The requests a loop that does not stop sends: those of each credit or
      depository account's extraction, one account after the other, in map
      order. */
  function FetchedRequests(step: TransactionsStep, entries: seq<(string, AccountData)>): seq<Request>
    decreases |entries|
  {
    if entries == [] then []
    else
      var last := entries[|entries| - 1];
      FetchedRequests(step, entries[..|entries| - 1])
        + (if HasTransactions(last.1.kind) then step(last.1.rawEphemeral).sent else [])
  }

  /** The transaction extractor of this run. */
  function StepOf(host: Host, transport: Transport, options: TransactionOptions): TransactionsStep {
    rawEphemeral => TransactionsRun(host, transport, rawEphemeral, options)
  }

  /** How the transactions loop stands: still running, ended by an error, or
      waiting forever on a promise that never settles. */
  datatype Halt = Running | FailedWith(error: ErrorKind) | Hung

  /** The state of the transactions loop: the accounts (with the ephemeral id
      deleted from each one handed to the extractor), the transactions map,
      the requests sent, and how the loop stands. */
  datatype TxPass = TxPass(
    accounts: seq<(string, AccountData)>,
    transactions: seq<(string, seq<Transaction>)>,
    sent: seq<Request>,
    halt: Halt)

  /** One turn of the transactions loop, on the loop's state and the next
      entry of the accounts map: once the loop has stopped, or when the
      account is not credit or depository, the account is passed over;
      otherwise it is handed to the extractor, which deletes its ephemeral
      id, and its transactions are added under its key, or its error stops
      the loop. */
  function Visit(step: TransactionsStep, p: TxPass, entry: (string, AccountData)): TxPass {
    if !p.halt.Running? || !HasTransactions(entry.1.kind) then
      TxPass(p.accounts + [entry], p.transactions, p.sent, p.halt)
    else
      var run := step(entry.1.rawEphemeral);
      var accounts := p.accounts + [(entry.0, entry.1.(rawEphemeral := None))];
      match run.outcome
      case Resolved(data) => TxPass(accounts, p.transactions + [(entry.0, data)], p.sent + run.sent, Running)
      case Rejected(e) => TxPass(accounts, p.transactions, p.sent + run.sent, FailedWith(e))
      case Unsettled => TxPass(accounts, p.transactions, p.sent + run.sent, Hung)
  }

  /** The transactions loop over the accounts map, in insertion order. */
  function TransactionsPass(step: TransactionsStep, entries: seq<(string, AccountData)>): TxPass
    decreases |entries|
  {
    if entries == [] then TxPass([], [], [], Running)
    else Visit(step, TransactionsPass(step, entries[..|entries| - 1]), entries[|entries| - 1])
  }

  /** The loop keeps the accounts in order under their keys, each either
      untouched or without its ephemeral id. */
  lemma {:induction false} PassKeepsAccounts(step: TransactionsStep, entries: seq<(string, AccountData)>)
    ensures var r := TransactionsPass(step, entries);
      && |r.accounts| == |entries|
      && (forall k :: 0 <= k < |entries| ==> r.accounts[k].0 == entries[k].0)
      && (forall k :: 0 <= k < |entries| ==>
            r.accounts[k].1 == entries[k].1 || r.accounts[k].1 == entries[k].1.(rawEphemeral := None))
    decreases |entries|
  {
    if entries != [] {
      var init := entries[..|entries| - 1];
      var last := entries[|entries| - 1];
      PassKeepsAccounts(step, init);
      var p := TransactionsPass(step, init);
      var r := TransactionsPass(step, entries);
      VisitShape(step, p, last);
      forall k | 0 <= k < |entries|
        ensures r.accounts[k].0 == entries[k].0
        ensures r.accounts[k].1 == entries[k].1 || r.accounts[k].1 == entries[k].1.(rawEphemeral := None)
      {
        if k < |init| {
          assert r.accounts[k] == p.accounts[k];
          assert init[k] == entries[k];
        }
      }
    }
  }

  /** When the loop runs to the end, the extractor resolved on every eligible
      account, every eligible account has lost its ephemeral id, and the
      transactions map holds exactly the eligible accounts' keys, in order,
      each with the transactions its extraction resolved with; the requests
      sent are those of the eligible accounts' extractions, one after the
      other, and no other. */
  lemma {:induction false} PassRunsToEnd(step: TransactionsStep, entries: seq<(string, AccountData)>)
    requires TransactionsPass(step, entries).halt.Running?
    ensures var r := TransactionsPass(step, entries);
      && |r.accounts| == |entries|
      && (forall k :: 0 <= k < |entries| && HasTransactions(entries[k].1.kind) ==> r.accounts[k].1.rawEphemeral.None?)
      && (forall k :: 0 <= k < |entries| && HasTransactions(entries[k].1.kind) ==>
            step(entries[k].1.rawEphemeral).outcome.Resolved?)
      && KeysOf(r.transactions) == EligibleKeys(entries)
      && r.transactions == FetchedTransactions(step, entries)
      && r.sent == FetchedRequests(step, entries)
    decreases |entries|
  {
    PassKeepsAccounts(step, entries);
    if entries != [] {
      var init := entries[..|entries| - 1];
      var last := entries[|entries| - 1];
      var p := TransactionsPass(step, init);
      var r := TransactionsPass(step, entries);
      VisitShape(step, p, last);
      PassRunsToEnd(step, init);
      forall k | 0 <= k < |entries| && HasTransactions(entries[k].1.kind)
        ensures r.accounts[k].1.rawEphemeral.None?
        ensures step(entries[k].1.rawEphemeral).outcome.Resolved?
      {
        if k < |init| {
          assert r.accounts[k] == p.accounts[k];
          assert init[k] == entries[k];
        }
      }
    }
  }

  /** One turn of the loop appends the visited account, under its key, either
      untouched or without its ephemeral id; a turn after which the loop still
      runs followed a running loop, stripped an eligible account, and added
      exactly the eligible account's key to the transactions map. A running
      loop sends the requests of an eligible account's extraction, and
      nothing for any other account. */
  lemma VisitShape(step: TransactionsStep, p: TxPass, entry: (string, AccountData))
    ensures var q := Visit(step, p, entry);
      && |q.accounts| == |p.accounts| + 1
      && q.accounts[..|p.accounts|] == p.accounts
      && q.accounts[|p.accounts|].0 == entry.0
      && (q.accounts[|p.accounts|].1 == entry.1 || q.accounts[|p.accounts|].1 == entry.1.(rawEphemeral := None))
      && (q.halt.Running? ==> p.halt.Running?)
      && (q.halt.Running? && HasTransactions(entry.1.kind) ==> q.accounts[|p.accounts|].1.rawEphemeral.None?)
      && (q.halt.Running? ==>
            KeysOf(q.transactions) == KeysOf(p.transactions) + (if HasTransactions(entry.1.kind) then [entry.0] else []))
      && (q.halt.Running? && HasTransactions(entry.1.kind) ==>
            && step(entry.1.rawEphemeral).outcome.Resolved?
            && q.transactions == p.transactions + [(entry.0, step(entry.1.rawEphemeral).outcome.value)])
      && (q.halt.Running? && !HasTransactions(entry.1.kind) ==> q.transactions == p.transactions && q.sent == p.sent)
      && (p.halt.Running? && HasTransactions(entry.1.kind) ==> q.sent == p.sent + step(entry.1.rawEphemeral).sent)
  {
  }

  /** Once the loop has stopped, the accounts after it are left alone and no
      request is sent for them. */
  lemma {:induction false} PassStopsAtFailure(step: TransactionsStep,
                                             entries: seq<(string, AccountData)>, more: seq<(string, AccountData)>)
    requires !TransactionsPass(step, entries).halt.Running?
    ensures var p := TransactionsPass(step, entries);
      TransactionsPass(step, entries + more) == TxPass(p.accounts + more, p.transactions, p.sent, p.halt)
    decreases |more|
  {
    if more != [] {
      var init := more[..|more| - 1];
      PassStopsAtFailure(step, entries, init);
      assert (entries + more)[..|entries + more| - 1] == entries + init;
      assert entries + init + [more[|more| - 1]] == entries + more;
    } else {
      assert entries + more == entries;
    }
  }

  /** Account `k` is the first credit or depository account whose extraction
      does not resolve: every such account before it resolved. */
  predicate FirstUnresolved(step: TransactionsStep, entries: seq<(string, AccountData)>, k: nat) {
    && k < |entries| && HasTransactions(entries[k].1.kind)
    && !step(entries[k].1.rawEphemeral).outcome.Resolved?
    && forall j :: 0 <= j < k && HasTransactions(entries[j].1.kind) ==> step(entries[j].1.rawEphemeral).outcome.Resolved?
  }

  /** How the loop ends on an extraction that does not resolve: with its
      error, or waiting forever. */
  function HaltOn(outcome: Outcome<seq<Transaction>>): Halt {
    if outcome.Rejected? then FailedWith(outcome.error) else Hung
  }

  /** The loop runs to the end exactly when the extractor resolves on every
      credit or depository account. */
  lemma {:induction false} PassRunsIff(step: TransactionsStep, entries: seq<(string, AccountData)>)
    ensures TransactionsPass(step, entries).halt.Running? <==>
      forall k :: 0 <= k < |entries| && HasTransactions(entries[k].1.kind) ==> step(entries[k].1.rawEphemeral).outcome.Resolved?
    decreases |entries|
  {
    if TransactionsPass(step, entries).halt.Running? {
      PassRunsToEnd(step, entries);
    } else if entries != [] {
      var init := entries[..|entries| - 1];
      PassRunsIff(step, init);
      if TransactionsPass(step, init).halt.Running? {
        assert !step(entries[|entries| - 1].1.rawEphemeral).outcome.Resolved?;
      } else {
        var k :| 0 <= k < |init| && HasTransactions(init[k].1.kind) && !step(init[k].1.rawEphemeral).outcome.Resolved?;
        assert init[k] == entries[k];
      }
    }
  }

  /** When the extractor first fails to resolve on account `k`, the loop ends
      as that extraction does, holding the transactions of the accounts
      before `k`, having sent the requests of their extractions and then of
      `k`'s, and the accounts after `k` are left alone. */
  lemma PassStopsAtFirst(step: TransactionsStep, entries: seq<(string, AccountData)>, k: nat)
    requires FirstUnresolved(step, entries, k)
    ensures var r := TransactionsPass(step, entries);
      && r.halt == HaltOn(step(entries[k].1.rawEphemeral).outcome)
      && r.transactions == FetchedTransactions(step, entries[..k])
      && r.sent == FetchedRequests(step, entries[..k]) + step(entries[k].1.rawEphemeral).sent
      && |r.accounts| == |entries| && r.accounts[k + 1..] == entries[k + 1..]
  {
    forall j | 0 <= j < k && HasTransactions(entries[..k][j].1.kind)
      ensures step(entries[..k][j].1.rawEphemeral).outcome.Resolved?
    {
      assert entries[..k][j] == entries[j];
    }
    PassRunsIff(step, entries[..k]);
    PassRunsToEnd(step, entries[..k]);
    PassAppend(step, entries, k);
    PassStopsAt(step, entries, k + 1);
    PassKeepsAccounts(step, entries[..k + 1]);
    PassKeepsAccounts(step, entries);
  }

  /** A loop that stops stopped at the first account whose extraction did
      not resolve, and ends as that extraction does. */
  lemma {:induction false} PassStopsSomewhere(step: TransactionsStep, entries: seq<(string, AccountData)>)
    requires !TransactionsPass(step, entries).halt.Running?
    ensures exists k: nat ::
      FirstUnresolved(step, entries, k) && TransactionsPass(step, entries).halt == HaltOn(step(entries[k].1.rawEphemeral).outcome)
    decreases |entries|
  {
    var init := entries[..|entries| - 1];
    var k: nat;
    if TransactionsPass(step, init).halt.Running? {
      PassRunsIff(step, init);
      k := |entries| - 1;
      forall j | 0 <= j < k && HasTransactions(entries[j].1.kind)
        ensures step(entries[j].1.rawEphemeral).outcome.Resolved?
      {
        assert init[j] == entries[j];
      }
    } else {
      PassStopsSomewhere(step, init);
      k :| FirstUnresolved(step, init, k);
      forall j | 0 <= j <= k
        ensures init[j] == entries[j]
      {
      }
    }
    assert FirstUnresolved(step, entries, k);
    PassStopsAtFirst(step, entries, k);
  }

  /** The steps after discovery: the transactions loop when it is provided,
      then the success bundle, or the loop's error. */
  function Finish(step: TransactionsStep, caps: Capabilities, convertThrownValue: ErrorKind -> ErrorKind,
                  entries: seq<(string, AccountData)>, info: Option<Info>, sent: seq<Request>): ExtractRun
  {
    if caps.extractTransactions then
      var p := TransactionsPass(step, entries);
      match p.halt
      case Running => ExtractRun(Success(FullResult(p.accounts, info, p.transactions)), sent + p.sent)
      case FailedWith(e) => ExtractRun(Failure(convertThrownValue(e)), sent + p.sent)
      case Hung => ExtractRun(Stalled, sent + p.sent)
    else ExtractRun(Success(FullResult(entries, info, [])), sent)
  }

  /** A successful finish keeps every account, in order and under its key,
      possibly without its ephemeral id, and carries the information it was
      given; without the transactions step the accounts are untouched and the
      transactions map is empty, with it the extractor resolved on every
      eligible account, whose ephemeral id is gone, and the map holds exactly
      the eligible keys, in order, each with its account's transactions. */
  lemma FinishSuccess(step: TransactionsStep, caps: Capabilities, convertThrownValue: ErrorKind -> ErrorKind,
                      entries: seq<(string, AccountData)>, info: Option<Info>, sent: seq<Request>)
    requires Finish(step, caps, convertThrownValue, entries, info, sent).result.Success?
    ensures var data := Finish(step, caps, convertThrownValue, entries, info, sent).result.data;
      && KeysOf(data.accounts) == KeysOf(entries)
      && (forall k :: 0 <= k < |entries| ==>
            data.accounts[k].1 == entries[k].1 || data.accounts[k].1 == entries[k].1.(rawEphemeral := None))
      && data.info == info
      && (!caps.extractTransactions ==> data.transactions == [] && data.accounts == entries)
      && (caps.extractTransactions ==>
            && KeysOf(data.transactions) == EligibleKeys(entries)
            && data.transactions == FetchedTransactions(step, entries)
            && (forall k :: 0 <= k < |entries| && HasTransactions(entries[k].1.kind) ==>
                  step(entries[k].1.rawEphemeral).outcome.Resolved?)
            && forall k :: 0 <= k < |entries| && HasTransactions(entries[k].1.kind) ==>
                 data.accounts[k].1.rawEphemeral.None?)
    ensures Finish(step, caps, convertThrownValue, entries, info, sent).sent
      == sent + (if caps.extractTransactions then FetchedRequests(step, entries) else [])
  {
    if caps.extractTransactions {
      PassKeepsAccounts(step, entries);
      if TransactionsPass(step, entries).halt.Running? {
        PassRunsToEnd(step, entries);
      }
    }
  }

  /** When the extractor first fails to resolve on account `k`, the finish
      ends as that extraction does, with its error, converted, or without a
      result, after the requests of the extractions up to and including
      `k`'s. */
  lemma FinishStopsAtFirst(step: TransactionsStep, caps: Capabilities, convertThrownValue: ErrorKind -> ErrorKind,
                           entries: seq<(string, AccountData)>, info: Option<Info>, sent: seq<Request>, k: nat)
    requires caps.extractTransactions
    requires FirstUnresolved(step, entries, k)
    ensures var run := step(entries[k].1.rawEphemeral);
      Finish(step, caps, convertThrownValue, entries, info, sent)
        == ExtractRun(if run.outcome.Rejected? then Failure(convertThrownValue(run.outcome.error)) else Stalled,
                      sent + FetchedRequests(step, entries[..k]) + run.sent)
  {
    PassStopsAtFirst(step, entries, k);
  }

  /** `extract` as a value. A step's rejection makes its `await` throw, and
      the `catch` returns `convertThrownValue` of it; a step whose promise
      never settles leaves the run without a result. */
  function ExtractSpec(host: Host, transport: Transport, creds: Credentials, options: TransactionOptions,
                       caps: Capabilities, jar: nat, uuid: nat -> string,
                       convertThrownValue: ErrorKind -> ErrorKind): ExtractRun
  {
    var login := LoginRun(host, transport, creds, jar);
    match login.outcome
    case Unsettled => ExtractRun(Stalled, login.sent)
    case Rejected(e) => ExtractRun(Failure(convertThrownValue(e)), login.sent)
    case Resolved(_) =>
      var sent := login.sent + [AccountsRequest()];
      match AccountsOutcome(host, transport(AccountsRequest()))
      case Unsettled => ExtractRun(Stalled, sent)
      case Rejected(e) => ExtractRun(Failure(convertThrownValue(e)), sent)
      case Resolved(found) => Discovered(host, transport, options, caps, uuid, convertThrownValue, found, sent)
  }

  /** The steps after discovery, from the discovered accounts and the
      requests sent so far: the accounts are keyed, the information step runs
      when it is provided, and then the transactions loop. */
  function Discovered(host: Host, transport: Transport, options: TransactionOptions, caps: Capabilities,
                      uuid: nat -> string, convertThrownValue: ErrorKind -> ErrorKind,
                      found: seq<AccountData>, sent: seq<Request>): ExtractRun
  {
    var entries := Keyed(found, uuid);
    var step := StepOf(host, transport, options);
    if caps.extractInfo then
      var info := InfoStep(host, transport);
      match info.outcome
      case Unsettled => ExtractRun(Stalled, sent + info.sent)
      case Rejected(e) => ExtractRun(Failure(convertThrownValue(e)), sent + info.sent)
      case Resolved(i) => Finish(step, caps, convertThrownValue, entries, Some(i), sent + info.sent)
    else Finish(step, caps, convertThrownValue, entries, None, sent)
  }

  /** A login error ends the run with that error, converted, and nothing but
      the login requests is sent. */
  lemma LoginFailureStops(host: Host, transport: Transport, creds: Credentials, options: TransactionOptions,
                          caps: Capabilities, jar: nat, uuid: nat -> string, convertThrownValue: ErrorKind -> ErrorKind)
    requires LoginRun(host, transport, creds, jar).outcome.Rejected?
    ensures ExtractSpec(host, transport, creds, options, caps, jar, uuid, convertThrownValue)
      == ExtractRun(Failure(convertThrownValue(LoginRun(host, transport, creds, jar).outcome.error)),
                    LoginRun(host, transport, creds, jar).sent)
  {
  }

  /** A discovery error ends the run with that error, converted, right after
      the accounts request. */
  lemma AccountsFailureStops(host: Host, transport: Transport, creds: Credentials, options: TransactionOptions,
                             caps: Capabilities, jar: nat, uuid: nat -> string, convertThrownValue: ErrorKind -> ErrorKind)
    requires LoginRun(host, transport, creds, jar).outcome.Resolved?
    requires AccountsOutcome(host, transport(AccountsRequest())).Rejected?
    ensures ExtractSpec(host, transport, creds, options, caps, jar, uuid, convertThrownValue)
      == ExtractRun(Failure(convertThrownValue(AccountsOutcome(host, transport(AccountsRequest())).error)),
                    LoginRun(host, transport, creds, jar).sent + [AccountsRequest()])
  {
  }

  /** A profile page answered with a status other than 200 or 401 never
      settles the information step, and the run never returns. */
  lemma InfoStalls(host: Host, transport: Transport, creds: Credentials, options: TransactionOptions,
                   caps: Capabilities, jar: nat, uuid: nat -> string, convertThrownValue: ErrorKind -> ErrorKind)
    requires LoginRun(host, transport, creds, jar).outcome.Resolved?
    requires AccountsOutcome(host, transport(AccountsRequest())).Resolved?
    requires caps.extractInfo
    requires transport(InfoRequest()).status != 200 && transport(InfoRequest()).status != 401
    ensures ExtractSpec(host, transport, creds, options, caps, jar, uuid, convertThrownValue).result.Stalled?
  {
  }

  /** What a successful finish after discovery holds: every discovered
      account, in discovery order, under the key of its turn, possibly without
      its ephemeral id; the information exactly when its step is provided, and
      then the profile the step resolved with; without the transactions step
      the accounts are untouched and the transactions map empty, with it every
      eligible account has lost its ephemeral id and the map holds exactly the
      eligible keys, in order, each with the transactions extracted for that
      account. With fresh keys no key appears twice in either map. */
  lemma DiscoveredSuccess(host: Host, transport: Transport, options: TransactionOptions, caps: Capabilities,
                          uuid: nat -> string, convertThrownValue: ErrorKind -> ErrorKind,
                          found: seq<AccountData>, sent: seq<Request>)
    requires Discovered(host, transport, options, caps, uuid, convertThrownValue, found, sent).result.Success?
    ensures var data := Discovered(host, transport, options, caps, uuid, convertThrownValue, found, sent).result.data;
      && (caps.extractInfo <==> data.info.Some?)
      && (caps.extractInfo ==>
            ExtractInfo(host, transport(InfoRequest())).Resolved?
            && data.info == Some(ExtractInfo(host, transport(InfoRequest())).value))
      && |data.accounts| == |found|
      && (forall k :: 0 <= k < |found| ==>
            && data.accounts[k].0 == uuid(k)
            && (data.accounts[k].1 == found[k] || data.accounts[k].1 == found[k].(rawEphemeral := None)))
      && (!caps.extractTransactions ==> data.transactions == [] && data.accounts == Keyed(found, uuid))
      && (caps.extractTransactions ==>
            && KeysOf(data.transactions) == EligibleKeys(Keyed(found, uuid))
            && data.transactions == FetchedTransactions(StepOf(host, transport, options), Keyed(found, uuid))
            && forall k :: 0 <= k < |found| && HasTransactions(found[k].kind) ==> data.accounts[k].1.rawEphemeral.None?)
      && (FreshKeys(uuid) ==>
            && (forall i, j :: 0 <= i < j < |data.accounts| ==> data.accounts[i].0 != data.accounts[j].0)
            && (forall i, j :: 0 <= i < j < |data.transactions| ==> data.transactions[i].0 != data.transactions[j].0))
    ensures Discovered(host, transport, options, caps, uuid, convertThrownValue, found, sent).sent
      == sent + (if caps.extractInfo then [InfoRequest()] else [])
           + (if caps.extractTransactions then FetchedRequests(StepOf(host, transport, options), Keyed(found, uuid)) else [])
  {
    var entries := Keyed(found, uuid);
    var step := StepOf(host, transport, options);
    var info: Option<Info> := None;
    var finishSent := sent;
    if caps.extractInfo {
      var run := InfoStep(host, transport);
      info := Some(run.outcome.value);
      finishSent := sent + run.sent;
    }
    var r := Finish(step, caps, convertThrownValue, entries, info, finishSent);
    assert r == Discovered(host, transport, options, caps, uuid, convertThrownValue, found, sent);
    FinishSuccess(step, caps, convertThrownValue, entries, info, finishSent);
    if FreshKeys(uuid) && caps.extractTransactions {
      EligibleKeysFacts(entries);
      var keys := KeysOf(r.result.data.transactions);
      forall i, j | 0 <= i < j < |r.result.data.transactions|
        ensures r.result.data.transactions[i].0 != r.result.data.transactions[j].0
      {
        assert keys[i] == r.result.data.transactions[i].0 && keys[j] == r.result.data.transactions[j].0;
      }
    }
  }

  /** A run succeeds only after login and discovery have resolved, and then
      holds what `DiscoveredSuccess` says of the discovered accounts. */
  lemma SuccessfulRun(host: Host, transport: Transport, creds: Credentials, options: TransactionOptions,
                      caps: Capabilities, jar: nat, uuid: nat -> string, convertThrownValue: ErrorKind -> ErrorKind)
    requires ExtractSpec(host, transport, creds, options, caps, jar, uuid, convertThrownValue).result.Success?
    ensures LoginRun(host, transport, creds, jar).outcome.Resolved?
    ensures AccountsOutcome(host, transport(AccountsRequest())).Resolved?
    ensures var found := AccountsOutcome(host, transport(AccountsRequest())).value;
      var data := ExtractSpec(host, transport, creds, options, caps, jar, uuid, convertThrownValue).result.data;
      && (caps.extractInfo <==> data.info.Some?)
      && (caps.extractInfo ==>
            ExtractInfo(host, transport(InfoRequest())).Resolved?
            && data.info == Some(ExtractInfo(host, transport(InfoRequest())).value))
      && |data.accounts| == |found|
      && (forall k :: 0 <= k < |found| ==>
            && data.accounts[k].0 == uuid(k)
            && (data.accounts[k].1 == found[k] || data.accounts[k].1 == found[k].(rawEphemeral := None)))
      && (!caps.extractTransactions ==> data.transactions == [])
      && (caps.extractTransactions ==>
            && KeysOf(data.transactions) == EligibleKeys(Keyed(found, uuid))
            && data.transactions == FetchedTransactions(StepOf(host, transport, options), Keyed(found, uuid)))
    ensures var found := AccountsOutcome(host, transport(AccountsRequest())).value;
      ExtractSpec(host, transport, creds, options, caps, jar, uuid, convertThrownValue).sent
        == LoginRun(host, transport, creds, jar).sent + [AccountsRequest()]
           + (if caps.extractInfo then [InfoRequest()] else [])
           + (if caps.extractTransactions then FetchedRequests(StepOf(host, transport, options), Keyed(found, uuid)) else [])
  {
    var found := AccountsOutcome(host, transport(AccountsRequest())).value;
    var sent := LoginRun(host, transport, creds, jar).sent + [AccountsRequest()];
    DiscoveredSuccess(host, transport, options, caps, uuid, convertThrownValue, found, sent);
  }

  /** What has to resolve after discovery: the information step when it is
      provided, and the extractor on every credit or depository account when
      the transactions step is provided. */
  predicate StepsResolve(host: Host, transport: Transport, options: TransactionOptions, caps: Capabilities,
                         found: seq<AccountData>)
  {
    && (caps.extractInfo ==> ExtractInfo(host, transport(InfoRequest())).Resolved?)
    && (caps.extractTransactions ==> forall k :: 0 <= k < |found| && HasTransactions(found[k].kind) ==>
          TransactionsRun(host, transport, found[k].rawEphemeral, options).outcome.Resolved?)
  }

  /** An information error ends the steps after discovery with that error,
      converted, right after the profile request: no transactions are
      requested. */
  lemma DiscoveredInfoFailure(host: Host, transport: Transport, options: TransactionOptions, caps: Capabilities,
                              uuid: nat -> string, convertThrownValue: ErrorKind -> ErrorKind,
                              found: seq<AccountData>, sent: seq<Request>)
    requires caps.extractInfo && ExtractInfo(host, transport(InfoRequest())).Rejected?
    ensures Discovered(host, transport, options, caps, uuid, convertThrownValue, found, sent)
      == ExtractRun(Failure(convertThrownValue(ExtractInfo(host, transport(InfoRequest())).error)), sent + [InfoRequest()])
  {
  }

  /** When the extractor first fails to resolve on discovered account `k`,
      the steps after discovery end as that extraction does: with its error,
      converted, or without a result. */
  lemma DiscoveredTransactionFailure(host: Host, transport: Transport, options: TransactionOptions, caps: Capabilities,
                                     uuid: nat -> string, convertThrownValue: ErrorKind -> ErrorKind,
                                     found: seq<AccountData>, sent: seq<Request>, k: nat)
    requires caps.extractTransactions
    requires caps.extractInfo ==> ExtractInfo(host, transport(InfoRequest())).Resolved?
    requires FirstUnresolved(StepOf(host, transport, options), Keyed(found, uuid), k)
    ensures var run := TransactionsRun(host, transport, found[k].rawEphemeral, options);
      Discovered(host, transport, options, caps, uuid, convertThrownValue, found, sent)
        == ExtractRun(if run.outcome.Rejected? then Failure(convertThrownValue(run.outcome.error)) else Stalled,
                      sent + (if caps.extractInfo then [InfoRequest()] else [])
                        + FetchedRequests(StepOf(host, transport, options), Keyed(found, uuid)[..k]) + run.sent)
  {
    var entries := Keyed(found, uuid);
    var step := StepOf(host, transport, options);
    assert entries[k].1 == found[k];
    var run := step(entries[k].1.rawEphemeral);
    assert run == TransactionsRun(host, transport, found[k].rawEphemeral, options);
    var info: Option<Info> := None;
    var finishSent := sent;
    if caps.extractInfo {
      info := Some(InfoStep(host, transport).outcome.value);
      finishSent := sent + [InfoRequest()];
    }
    FinishStopsAtFirst(step, caps, convertThrownValue, entries, info, finishSent, k);
    assert Finish(step, caps, convertThrownValue, entries, info, finishSent)
      == Discovered(host, transport, options, caps, uuid, convertThrownValue, found, sent);
  }

  /** The steps after discovery succeed exactly when the information step and
      every transaction extraction that runs resolve. */
  lemma DiscoveredSucceeds(host: Host, transport: Transport, options: TransactionOptions, caps: Capabilities,
                           uuid: nat -> string, convertThrownValue: ErrorKind -> ErrorKind,
                           found: seq<AccountData>, sent: seq<Request>)
    ensures Discovered(host, transport, options, caps, uuid, convertThrownValue, found, sent).result.Success?
      <==> StepsResolve(host, transport, options, caps, found)
  {
    if caps.extractTransactions {
      PassRunsIff(StepOf(host, transport, options), Keyed(found, uuid));
    }
  }

  /** A profile error ends the run with that error, converted, right after
      the profile request: no transactions are requested. */
  lemma InfoFailureStops(host: Host, transport: Transport, creds: Credentials, options: TransactionOptions,
                         caps: Capabilities, jar: nat, uuid: nat -> string, convertThrownValue: ErrorKind -> ErrorKind)
    requires LoginRun(host, transport, creds, jar).outcome.Resolved?
    requires AccountsOutcome(host, transport(AccountsRequest())).Resolved?
    requires caps.extractInfo && ExtractInfo(host, transport(InfoRequest())).Rejected?
    ensures ExtractSpec(host, transport, creds, options, caps, jar, uuid, convertThrownValue)
      == ExtractRun(Failure(convertThrownValue(ExtractInfo(host, transport(InfoRequest())).error)),
                    LoginRun(host, transport, creds, jar).sent + [AccountsRequest(), InfoRequest()])
  {
    var sent := LoginRun(host, transport, creds, jar).sent;
    assert sent + [AccountsRequest()] + [InfoRequest()] == sent + [AccountsRequest(), InfoRequest()];
  }

  /** When the extractor first fails to resolve on discovered account `k`,
      the run ends as that extraction does: with its error, converted, or
      without a result. */
  lemma TransactionFailureStops(host: Host, transport: Transport, creds: Credentials, options: TransactionOptions,
                                caps: Capabilities, jar: nat, uuid: nat -> string,
                                convertThrownValue: ErrorKind -> ErrorKind, k: nat)
    requires LoginRun(host, transport, creds, jar).outcome.Resolved?
    requires AccountsOutcome(host, transport(AccountsRequest())).Resolved?
    requires caps.extractTransactions
    requires caps.extractInfo ==> ExtractInfo(host, transport(InfoRequest())).Resolved?
    requires FirstUnresolved(StepOf(host, transport, options), Keyed(AccountsOutcome(host, transport(AccountsRequest())).value, uuid), k)
    ensures var found := AccountsOutcome(host, transport(AccountsRequest())).value;
      var run := TransactionsRun(host, transport, found[k].rawEphemeral, options);
      ExtractSpec(host, transport, creds, options, caps, jar, uuid, convertThrownValue)
        == ExtractRun(if run.outcome.Rejected? then Failure(convertThrownValue(run.outcome.error)) else Stalled,
                      LoginRun(host, transport, creds, jar).sent + [AccountsRequest()]
                        + (if caps.extractInfo then [InfoRequest()] else [])
                        + FetchedRequests(StepOf(host, transport, options), Keyed(found, uuid)[..k]) + run.sent)
  {
    var found := AccountsOutcome(host, transport(AccountsRequest())).value;
    var sent := LoginRun(host, transport, creds, jar).sent + [AccountsRequest()];
    DiscoveredTransactionFailure(host, transport, options, caps, uuid, convertThrownValue, found, sent, k);
  }

  /** A run succeeds exactly when login and discovery resolve, and then the
      information step and every transaction extraction that runs. */
  lemma RunSucceeds(host: Host, transport: Transport, creds: Credentials, options: TransactionOptions,
                    caps: Capabilities, jar: nat, uuid: nat -> string, convertThrownValue: ErrorKind -> ErrorKind)
    ensures ExtractSpec(host, transport, creds, options, caps, jar, uuid, convertThrownValue).result.Success? <==>
      && LoginRun(host, transport, creds, jar).outcome.Resolved?
      && AccountsOutcome(host, transport(AccountsRequest())).Resolved?
      && StepsResolve(host, transport, options, caps, AccountsOutcome(host, transport(AccountsRequest())).value)
  {
    if LoginRun(host, transport, creds, jar).outcome.Resolved? && AccountsOutcome(host, transport(AccountsRequest())).Resolved? {
      var found := AccountsOutcome(host, transport(AccountsRequest())).value;
      var sent := LoginRun(host, transport, creds, jar).sent + [AccountsRequest()];
      DiscoveredSucceeds(host, transport, options, caps, uuid, convertThrownValue, found, sent);
    }
  }

  /** Every key in the transactions map is the key of a credit or depository
      account, and no key appears twice when the accounts' keys are distinct. */
  lemma {:induction false} EligibleKeysFacts(entries: seq<(string, AccountData)>)
    ensures forall key :: key in EligibleKeys(entries) <==>
      exists k :: 0 <= k < |entries| && entries[k].0 == key && HasTransactions(entries[k].1.kind)
    ensures (forall i, j :: 0 <= i < j < |entries| ==> entries[i].0 != entries[j].0) ==>
      forall i, j :: 0 <= i < j < |EligibleKeys(entries)| ==> EligibleKeys(entries)[i] != EligibleKeys(entries)[j]
    decreases |entries|
  {
    if entries != [] {
      var init := entries[..|entries| - 1];
      var last := entries[|entries| - 1];
      EligibleKeysFacts(init);
      assert forall k :: 0 <= k < |init| ==> init[k] == entries[k];
      if forall i, j :: 0 <= i < j < |entries| ==> entries[i].0 != entries[j].0 {
        assert last.0 !in EligibleKeys(init);
      }
    }
  }

  /** The field values of a map's account objects. */
  function EntriesView(entries: seq<(string, Account)>): (view: seq<(string, AccountData)>)
    reads set k | 0 <= k < |entries| :: entries[k].1
    ensures |view| == |entries|
    ensures forall k :: 0 <= k < |entries| ==> view[k] == (entries[k].0, entries[k].1.Data())
  {
    seq(|entries|, k requires 0 <= k < |entries| reads set j | 0 <= j < |entries| :: entries[j].1 =>
      (entries[k].0, entries[k].1.Data()))
  }

  /** A result as the caller sees it: its account objects' field values. */
  function View(result: Extraction<Account>): Extraction<AccountData>
    reads if result.Success? then set k | 0 <= k < |result.data.accounts| :: result.data.accounts[k].1 else {}
  {
    match result
    case Success(data) => Success(FullResult(EntriesView(data.accounts), data.info, data.transactions))
    case Failure(e) => Failure(e)
    case Stalled => Stalled
  }

  /** The pass over one more entry is one more `Visit`. */
  lemma PassAppend(step: TransactionsStep, entries: seq<(string, AccountData)>, j: nat)
    requires j < |entries|
    ensures TransactionsPass(step, entries[..j + 1]) == Visit(step, TransactionsPass(step, entries[..j]), entries[j])
  {
    assert entries[..j + 1][..j] == entries[..j];
  }

  /** Once the pass over the first `j` entries has stopped, the pass over all
      of them is that pass with the remaining entries carried over unvisited. */
  lemma PassStopsAt(step: TransactionsStep, entries: seq<(string, AccountData)>, j: nat)
    requires j <= |entries|
    requires !TransactionsPass(step, entries[..j]).halt.Running?
    ensures var p := TransactionsPass(step, entries[..j]);
      TransactionsPass(step, entries) == TxPass(p.accounts + entries[j..], p.transactions, p.sent, p.halt)
  {
    assert entries[..j] + entries[j..] == entries;
    PassStopsAtFailure(step, entries[..j], entries[j..]);
  }

  /** One turn of the transactions loop of `extract` on an account object
      and its key: as `Visit` on the loop's state, where `done` is the value
      of the accounts already visited. */
  method VisitAccount(host: Host, transport: Transport, options: TransactionOptions, session: Session,
                      ghost done: seq<(string, AccountData)>, key: string, account: Account,
                      transactions: seq<(string, seq<Transaction>)>, sent: seq<Request>)
    returns (transactionsOut: seq<(string, seq<Transaction>)>, sentOut: seq<Request>, halt: Halt)
    modifies account`rawEphemeral
    ensures TxPass(done + [(key, account.Data())], transactionsOut, sentOut, halt)
      == Visit(StepOf(host, transport, options), TxPass(done, transactions, sent, Running), (key, old(account.Data())))
  {
    transactionsOut, sentOut, halt := transactions, sent, Running;
    if HasTransactions(account.kind) {
      var outcome, accountSent := ExtractTransactions(host, transport, session, account, options);
      sentOut := sent + accountSent;
      match outcome
      case Resolved(data) => transactionsOut := transactions + [(key, data)];
      case Rejected(e) => halt := FailedWith(e);
      case Unsettled => halt := Hung;
    }
  }

  /** The transactions loop of `extract` over the accounts map: each credit or
      depository account object is handed to the transaction extractor, which
      deletes its ephemeral id in place. The transactions map, the requests
      and how the loop ends are those of `TransactionsPass` over the accounts'
      values before the loop; when the loop runs to the end, the account
      objects hold the values it gives. */
  method TransactionsLoop(host: Host, transport: Transport, options: TransactionOptions, session: Session,
                          accounts: seq<(string, Account)>)
    returns (transactions: seq<(string, seq<Transaction>)>, sent: seq<Request>, halt: Halt)
    requires forall i, j :: 0 <= i < j < |accounts| ==> accounts[i].1 != accounts[j].1
    modifies set k | 0 <= k < |accounts| :: accounts[k].1
    ensures var p := TransactionsPass(StepOf(host, transport, options), old(EntriesView(accounts)));
      && transactions == p.transactions && sent == p.sent && halt == p.halt
      && (halt.Running? ==> EntriesView(accounts) == p.accounts)
  {
    ghost var entries := EntriesView(accounts);
    ghost var step := StepOf(host, transport, options);
    ghost var done: seq<(string, AccountData)> := [];
    transactions := [];
    sent := [];
    halt := Running;
    var j := 0;
    while j < |accounts|
      invariant 0 <= j <= |accounts| && halt == Running && |done| == j
      invariant TransactionsPass(step, entries[..j]) == TxPass(done, transactions, sent, Running)
      invariant forall k :: 0 <= k < j ==> done[k] == (accounts[k].0, accounts[k].1.Data())
      invariant forall k :: j <= k < |accounts| ==> accounts[k].1.Data() == entries[k].1
    {
      var (key, account) := accounts[j];
      PassAppend(step, entries, j);
      label Before:
      transactions, sent, halt := VisitAccount(host, transport, options, session, done, key, account, transactions, sent);
      forall k | 0 <= k < |accounts| && k != j
        ensures accounts[k].1.Data() == old@Before(accounts[k].1.Data())
      {
        assert accounts[k].1 != account;
      }
      done := done + [(key, account.Data())];
      if !halt.Running? {
        PassStopsAt(step, entries, j + 1);
        return;
      }
      j := j + 1;
    }
    assert entries[..j] == entries;
  }

  /** The part of `extract` after discovery, on the discovered account
      objects and the requests sent so far: as `Discovered` on the objects'
      values. A successful result's accounts map holds those very objects,
      in discovery order. */
  method ExtractDiscovered(host: Host, transport: Transport, options: TransactionOptions, caps: Capabilities,
                           session: Session, uuid: nat -> string, convertThrownValue: ErrorKind -> ErrorKind,
                           found: seq<Account>, sent: seq<Request>)
    returns (result: Extraction<Account>, sentOut: seq<Request>)
    requires forall i, j :: 0 <= i < j < |found| ==> found[i] != found[j]
    modifies set k | 0 <= k < |found| :: found[k]
    ensures ExtractRun(View(result), sentOut)
      == Discovered(host, transport, options, caps, uuid, convertThrownValue, old(DataOf(found)), sent)
    ensures result.Success? ==>
      |result.data.accounts| == |found| && forall k :: 0 <= k < |found| ==> result.data.accounts[k].1 == found[k]
  {
    sentOut := sent;
    var accounts: seq<(string, Account)> := [];
    var i := 0;
    while i < |found|
      invariant 0 <= i <= |found| && |accounts| == i
      invariant forall k :: 0 <= k < i ==> accounts[k] == (uuid(k), found[k])
    {
      accounts := accounts + [(uuid(i), found[i])];
      i := i + 1;
    }
    assert EntriesView(accounts) == Keyed(DataOf(found), uuid);

    var info: Option<Info> := None;
    if caps.extractInfo {
      var infoRun := InfoStep(host, transport);
      sentOut := sentOut + infoRun.sent;
      if infoRun.outcome.Unsettled? {
        result := Stalled;
        return;
      } else if infoRun.outcome.Rejected? {
        result := Failure(convertThrownValue(infoRun.outcome.error));
        return;
      }
      info := Some(infoRun.outcome.value);
    }

    var transactions: seq<(string, seq<Transaction>)> := [];
    if caps.extractTransactions {
      var loopSent, halt;
      transactions, loopSent, halt := TransactionsLoop(host, transport, options, session, accounts);
      sentOut := sentOut + loopSent;
      if halt.FailedWith? {
        result := Failure(convertThrownValue(halt.error));
        return;
      } else if halt.Hung? {
        result := Stalled;
        return;
      }
    }
    result := Success(FullResult(accounts, info, transactions));
  }

  /** `extract`: the accounts map holds the very objects handed to the
      transaction extractor, so its deletion of the ephemeral id shows in the
      returned accounts. The result's field values and the requests are those
      of `ExtractSpec`, and the returned accounts are new objects. */
  method Extract(host: Host, transport: Transport, creds: Credentials, options: TransactionOptions,
                 caps: Capabilities, jar: nat, uuid: nat -> string, convertThrownValue: ErrorKind -> ErrorKind)
    returns (result: Extraction<Account>, sent: seq<Request>)
    ensures ExtractRun(View(result), sent) == ExtractSpec(host, transport, creds, options, caps, jar, uuid, convertThrownValue)
    ensures result.Success? ==> forall k :: 0 <= k < |result.data.accounts| ==> fresh(result.data.accounts[k].1)
  {
    var login := LoginRun(host, transport, creds, jar);
    sent := login.sent;
    if login.outcome.Unsettled? {
      result := Stalled;
      return;
    } else if login.outcome.Rejected? {
      result := Failure(convertThrownValue(login.outcome.error));
      return;
    }
    var session := login.outcome.value;

    var discovered, accountsSent := ExtractAccounts(host, transport);
    sent := sent + accountsSent;
    if discovered.Unsettled? {
      result := Stalled;
      return;
    } else if discovered.Rejected? {
      result := Failure(convertThrownValue(discovered.error));
      return;
    }
    result, sent := ExtractDiscovered(host, transport, options, caps, session, uuid, convertThrownValue, discovered.value, sent);
  }
}
