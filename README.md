# Bank connector extraction pipeline, in Dafny

This project models the extraction pipeline of a screen-scraping bank
connector for the "First Platypus" demo institution, and proves properties of
that model. A run logs in with a username and password, answering a
multi-factor challenge question when the site asks one. It then reads the
accounts page and keys each account with a fresh identifier. It optionally
reads the profile page: name, email, phone, and an address parsed from two
free-text lines. Finally it downloads each credit or depository account's
posted transactions as CSV and scrapes that account's pending transactions,
keeping only those inside the inclusive date range.

The model follows the code's own shape, file by file:

- `settlement.dfy`: the promise discipline every step uses. The step's work
  runs inside `new Promise((resolve, reject) => …)`, and `reject(…)` is never
  followed by `return`, so the code keeps running after an error. The first
  `resolve` or `reject` reached decides the result. The steps chain `Settle`
  call by call. `SettleAll`, with `FirstCallWins` and `NothingSettles`,
  states the same rule on its own for a whole sequence of calls.
- `js.dfy`, `jsstring.dfy`: the JavaScript values and string operations the
  code relies on: `undefined`, NaN, Invalid Date, `indexOf`, `lastIndexOf`,
  `substring` with its clamping, `split`, `trim`, and `replace` with a string
  pattern (first occurrence only).
- `model.dfy`: records, the HTTP transport, and the foreign libraries, as
  functions of a `Host` value: cheerio, csv-parse, `JSON.parse`, `Date`,
  `Number` and `parseFloat`. An account is a `class`, because the
  transaction extractor deletes `rawEphemeral` from the very object the
  orchestrator's map holds.
- `info.dfy` (pure): `extractAddress` and `extractInfo`.
- `login.dfy` (pure): `login`, with its multi-factor branch.
- `accounts.dfy` (mixed): `parseBalance`, `convertAccountType`, the mask, and
  the row loop of `extractAccounts`, as a method that builds account objects.
- `transactions.dfy` (imperative): `extractTransactions`.
  - It is a method that deletes the ephemeral id in place.
  - Its CSV loop and its pending-row pass are methods with loop invariants.
  - It is proved equal to the function `TransactionsRun`.
- `extract.dfy` (imperative): the orchestrator `extract`. It is proved equal
  to the function `ExtractSpec`, and its transaction loop is proved against
  the fold `TransactionsPass`.

Every step returns its promise state (`Outcome`) and the requests it sent.
This shows, for example, that a rejected step still sends the requests the
code after the `reject` makes.

The code does not always do what its comments and names suggest. In these
cases the model follows the code:

- A start date after the end date rejects the transaction step, but the
  download is still requested, and so is the account page unless a CSV row
  throws (`Transactions.RejectedChecksStillRequest`).
- The first error does not stop a step: later code runs, and only the first
  settlement counts.
- The profile step settles only on 401 and 200. Any other status leaves its
  promise pending, so `extract` never returns (`Extract.InfoStalls`).
- The phone number loses its first `+`, wherever it is, not only a leading
  one (`ProfileInfo.InfoResolved`).
- A login response other than 302 is InvalidCredentials.
- An unmatched challenge question posts an `undefined` answer, and login
  then still resolves.
- An unknown account type throws.
- When the extractor has no transaction step, the accounts keep their
  ephemeral ids in the result (`Extract.FinishSuccess`).
- A step's error never comes back through the `isErrorResult` checks in
  `extract`. Every step rejects its promise instead of resolving with an
  error result, so the `await` throws and the `catch` returns
  `convertThrownValue` of it (`Extract.LoginFailureStops`).

## Model

| member | source | states |
|---|---|---|
| Settlement.FirstCallWins | plaid_candidate_materials/src/extractor/transactions.ts:31-42 | a promise ends in the first settling `resolve`/`reject` call, whatever calls follow it |
| Settlement.NothingSettles | plaid_candidate_materials/src/extractor/info.ts:68-93 | a promise stays pending exactly when none of the calls made settles it |
| JsString.IndexOf | plaid_candidate_materials/src/extractor/info.ts:73 | -1 exactly when the character is absent; otherwise the position of its first occurrence |
| JsString.LastIndexOf | plaid_candidate_materials/src/extractor/info.ts:74 | -1 exactly when the character is absent; otherwise the position of its last occurrence |
| JsString.Substring | plaid_candidate_materials/src/extractor/accounts.ts:75 | in-range bounds give the slice; a negative start counts as 0; the result is never longer than the text |
| JsString.SubstringSwapsBounds | plaid_candidate_materials/src/extractor/info.ts:73-75 | `substring` swaps its bounds when the start is the larger, and an end past the text counts as its length |
| JsString.Split | plaid_candidate_materials/src/extractor/info.ts:27 | `split` always yields at least one piece |
| JsString.JoinSplit | plaid_candidate_materials/src/extractor/info.ts:27-33 | joining the pieces of a split with the separator gives back the text |
| JsString.SplitPiecesFree | plaid_candidate_materials/src/extractor/info.ts:33 | no piece of a split contains the separator |
| JsString.SplitAfterFirst | plaid_candidate_materials/src/extractor/info.ts:27-29 | a text whose first separator follows `x` splits into `x` and the pieces of the rest |
| JsString.SplitJoin | plaid_candidate_materials/src/extractor/info.ts:27-33 | splitting the join of separator-free pieces gives back the pieces |
| JsString.TrimStart | plaid_candidate_materials/src/extractor/info.ts:28 | the result is a suffix, what is cut is whitespace, and it does not start with whitespace |
| JsString.TrimEnd | plaid_candidate_materials/src/extractor/info.ts:28 | the result is a prefix, what is cut is whitespace, and it does not end with whitespace |
| JsString.Trim | plaid_candidate_materials/src/extractor/info.ts:28 | the result is the slice of the text between its leading and its trailing whitespace, everything cut off is whitespace, and the result neither starts nor ends with whitespace (so all-whitespace text trims to "") |
| JsString.TrimSlice | plaid_candidate_materials/src/extractor/info.ts:28 | trimming the start of the trimmed end leaves a slice of the original text with only whitespace before and after it, not starting or ending on whitespace |
| JsString.RemoveFirst | plaid_candidate_materials/src/extractor/info.ts:81 | `replace` with a one-character pattern removes the first occurrence only, and leaves a text without it unchanged |
| JsString.RemoveFirstCount | plaid_candidate_materials/src/extractor/info.ts:81 | the result has exactly one occurrence fewer of the character |
| Model.Account.constructor | plaid_candidate_materials/src/extractor/accounts.ts:83-98 | a new account object holds the given field values |
| ProfileInfo.ExtractAddress | plaid_candidate_materials/src/extractor/info.ts:24-47 | definition of `extractAddress`; specified by AddressRoundTrip, AddressFields and AddressFailure |
| ProfileInfo.AddressRoundTrip | plaid_candidate_materials/src/extractor/info.ts:24-47 | an address written as "City, ST 12345" or "City, ST 12345-6789" under its street line is read back as that address, without the ZIP+4 suffix |
| ProfileInfo.ZipFieldFacts | plaid_candidate_materials/src/extractor/info.ts:32-33 | the written zip field has no comma or whitespace and is cut back to the zip at its first `-` |
| ProfileInfo.CommaSplit | plaid_candidate_materials/src/extractor/info.ts:27-30 | the second line splits at its one comma into the city and the rest |
| ProfileInfo.StateSplit | plaid_candidate_materials/src/extractor/info.ts:28-32 | the trimmed rest splits at its one space into the state and the zip field |
| ProfileInfo.TrimStateLine | plaid_candidate_materials/src/extractor/info.ts:28 | trimming " ST 12345" drops exactly the leading space |
| ProfileInfo.SplitStateLine | plaid_candidate_materials/src/extractor/info.ts:29-32 | "ST 12345" splits on the space into state and zip field |
| ProfileInfo.ReadLines | plaid_candidate_materials/src/extractor/info.ts:24-47 | `extractAddress` on lines whose comma and space pieces are known yields street, city, state and the zip before `-` |
| ProfileInfo.TrimOneSpace | plaid_candidate_materials/src/extractor/info.ts:28 | trimming one leading space off a text with no whitespace at either end gives the text |
| ProfileInfo.CenterStreetExample | plaid_candidate_materials/src/extractor/info.ts:20 | the documented example "Salt Lake City, UT 84102-1234" yields city "Salt Lake City", state "UT", zip "84102" |
| ProfileInfo.ExampleLine | plaid_candidate_materials/src/extractor/info.ts:20 | the example address writes back as the documented second line |
| ProfileInfo.AddressFields | plaid_candidate_materials/src/extractor/info.ts:25-33 | a parsed address has the street from line 1, the untrimmed city before the first comma, the state before the first space of the trimmed rest, and a zip without `-` |
| ProfileInfo.AddressFailure | plaid_candidate_materials/src/extractor/info.ts:25-37 | the address parse throws exactly on a missing line, comma or zip token, or an empty street, city or zip |
| ProfileInfo.Payload | plaid_candidate_materials/src/extractor/info.ts:72-75 | definition of the JSON text cut from the page; specified by PayloadSpan, PayloadWithoutOpen and PayloadSwapped |
| ProfileInfo.PayloadSpan | plaid_candidate_materials/src/extractor/info.ts:73-75 | the JSON text is exactly the span from the first `{` to the last `}` of the page |
| ProfileInfo.PayloadWithoutOpen | plaid_candidate_materials/src/extractor/info.ts:73-75 | on a page with no `{`, `substring` swaps its bounds: the JSON text is the page up to its last `}`, and holds no `{` |
| ProfileInfo.PayloadSwapped | plaid_candidate_materials/src/extractor/info.ts:73-75 | on a page whose first `{` comes after its last `}`, `substring` swaps its bounds: the JSON text is the stretch between the two, both left out, and holds no `{` |
| ProfileInfo.ExtractInfo | plaid_candidate_materials/src/extractor/info.ts:68-93 | definition of `extractInfo` after the request; specified by InfoStatus, InfoResolves and InfoResolved |
| ProfileInfo.InfoStatus | plaid_candidate_materials/src/extractor/info.ts:68-93 | 401 and only 401 gives InvalidCredentials, a status other than 200 or 401 and only such a status leaves the promise pending, and a 200 either resolves or gives InstitutionRequestError; InfoResolves says which 200 pages resolve |
| ProfileInfo.InfoResolves | plaid_candidate_materials/src/extractor/info.ts:71-89 | a 200 whose payload parses, with a phone and an address whose lines parse, resolves; with InfoResolved this is an if-and-only-if |
| ProfileInfo.InfoResolved | plaid_candidate_materials/src/extractor/info.ts:72-89 | a resolved profile came from a 200 page whose payload parsed; its lists are singletons: the payload's name and email, the parsed address, and the payload's phone with exactly its first `+` removed (one `+` fewer, every other character kept) |
| Accounts.ParseBalance | plaid_candidate_materials/src/extractor/accounts.ts:18-20 | definition of `parseBalance`; specified by ParseBalanceInput |
| Accounts.ParseBalanceInput | plaid_candidate_materials/src/extractor/accounts.ts:18-20 | `parseFloat` sees the balance text with only its first `$` removed |
| Accounts.ConvertAccountType | plaid_candidate_materials/src/extractor/accounts.ts:27-42 | the five official names map to depository, credit or loan, as in the table, and every other name throws |
| Accounts.Mask | plaid_candidate_materials/src/extractor/accounts.ts:75 | definition of the mask; specified by MaskIsLastFour |
| Accounts.MaskIsLastFour | plaid_candidate_materials/src/extractor/accounts.ts:75 | the mask is the last four characters, or the whole account number when shorter |
| Accounts.ParseRow | plaid_candidate_materials/src/extractor/accounts.ts:70-98 | definition of one row of the `each` callback; specified by Collect, DiscoveredAccounts and DiscoveryRejected |
| Accounts.Collect | plaid_candidate_materials/src/extractor/accounts.ts:69-101 | resolved exactly when every row is good, then with one account per row in order; otherwise InstitutionRequestError |
| Accounts.AccountsOutcome | plaid_candidate_materials/src/extractor/accounts.ts:63-105 | definition of how `extractAccounts` settles on the accounts page; specified by DiscoveredAccounts and DiscoveryRejected |
| Accounts.DiscoveredAccounts | plaid_candidate_materials/src/extractor/accounts.ts:63-101 | a resolved discovery came from a 200 page; every row, loans included, has an account number and a link with a non-empty path segment 1; each account's type, names, balances, mask and ephemeral id derive from its row as the code computes them, and the required fields are truthy |
| Accounts.DiscoveryRejected | plaid_candidate_materials/src/extractor/accounts.ts:63-105 | discovery fails exactly on a status other than 200 or a row that throws or has a falsy field |
| Accounts.ReadRows | plaid_candidate_materials/src/extractor/accounts.ts:69-101 | the row loop, in which a falsy field rejects and the loop goes on and a throw ends it, settles as `Collect` |
| Accounts.NewAccounts | plaid_candidate_materials/src/extractor/accounts.ts:83-98 | one new, distinct account object per value, in order, holding that value |
| Accounts.ExtractAccounts | plaid_candidate_materials/src/extractor/accounts.ts:49-107 | one request; the outcome matches the rows' outcome and, when resolved, the new distinct objects hold the derived accounts |
| Transactions.AccountIdOf | plaid_candidate_materials/src/extractor/transactions.ts:36 | the id is empty exactly when the ephemeral reference is missing or empty; otherwise it is that reference |
| Transactions.CsvStep | plaid_candidate_materials/src/extractor/transactions.ts:61-95 | definition of the CSV pass over the download response; specified by ReadDownload, HeaderRowIgnored and ResolvedTransactions |
| Transactions.HeaderRowIgnored | plaid_candidate_materials/src/extractor/transactions.ts:66 | the CSV pass over a table is the pass over the rows after its first row, whatever the first row holds |
| Transactions.PostedPass | plaid_candidate_materials/src/extractor/transactions.ts:66-91 | the CSV pass aborts exactly when a row throws; otherwise it keeps exactly the transactions of the rows not skipped, and is complete exactly when each of them is |
| Transactions.PostedPassAppend | plaid_candidate_materials/src/extractor/transactions.ts:66-91 | the pass over two runs of rows that do not throw is the first run's transactions followed by the second's, so posted transactions keep CSV order |
| Transactions.PostedPassSingle | plaid_candidate_materials/src/extractor/transactions.ts:80-90 | one posted row yields exactly its own transaction |
| Transactions.PostedNeverPending | plaid_candidate_materials/src/extractor/transactions.ts:83-88 | posted transactions are never pending |
| Transactions.ParsePosted | plaid_candidate_materials/src/extractor/transactions.ts:67-90 | definition of one CSV row; specified by SkipRowsExactly, PostedRowFields and PostedNeverPending |
| Transactions.SkippedRowIgnored | plaid_candidate_materials/src/extractor/transactions.ts:69-72 | a row whose date is "None" leaves the pass exactly as without it |
| Transactions.SkipRowsExactly | plaid_candidate_materials/src/extractor/transactions.ts:69-75 | a row is skipped exactly when its date cell is "None", and throws exactly when its date is missing or invalid |
| Transactions.PostedRowFields | plaid_candidate_materials/src/extractor/transactions.ts:74-88 | a complete row's transaction has the ISO date part, the non-zero number and the non-empty description of its cells |
| Transactions.KeptPending | plaid_candidate_materials/src/extractor/transactions.ts:115-132 | definition of the pending-row filter; specified by KeptPendingMembers, KeptPendingAppend and AppendPending |
| Transactions.KeptPendingMembers | plaid_candidate_materials/src/extractor/transactions.ts:115-132 | a pending row is kept exactly when start <= date <= end on valid dates, both bounds inclusive; every kept transaction is pending |
| Transactions.KeptPendingAppend | plaid_candidate_materials/src/extractor/transactions.ts:115-132 | filtering two runs of pending rows is filtering each in turn, so kept transactions keep page order |
| Transactions.TransactionsRun | plaid_candidate_materials/src/extractor/transactions.ts:22-140 | the step always settles, and any rejection is InstitutionRequestError |
| Transactions.RejectedChecksStillRequest | plaid_candidate_materials/src/extractor/transactions.ts:31-59 | a reversed range or a missing id rejects, yet the download is still requested, with the empty id in the second case; the account page follows exactly when no CSV row throws |
| Transactions.StatusChecks | plaid_candidate_materials/src/extractor/transactions.ts:62-138 | a failed download rejects but still requests the account page; a failed account page rejects |
| Transactions.ResolvedTransactions | plaid_candidate_materials/src/extractor/transactions.ts:28-135 | the step resolves exactly when range, id, download rows and account page are all fine, with posted then in-range pending transactions |
| Transactions.ReadDownload | plaid_candidate_materials/src/extractor/transactions.ts:61-95 | the CSV loop yields the pass's transactions and rejects on a failed status or an incomplete row, or stops on a throw |
| Transactions.AppendPending | plaid_candidate_materials/src/extractor/transactions.ts:111-132 | the pending pass appends exactly the kept pending transactions, in page order |
| Transactions.ExtractTransactions | plaid_candidate_materials/src/extractor/transactions.ts:22-140 | deletes the account's ephemeral id and changes nothing else on it; outcome and requests are those of `TransactionsRun` on the id it had |
| Login.Lookup | plaid_candidate_materials/src/extractor/login.ts:57 | the answer is the map's entry for the question, or `undefined` exactly when there is none |
| Login.LoginRun | plaid_candidate_materials/src/extractor/login.ts:17-86 | login always settles, posts the credentials first, sends at most three requests, and resolves only with the run's cookie jar |
| Login.EmptyCredentialsRejected | plaid_candidate_materials/src/extractor/login.ts:24-39 | an empty username or password is InvalidCredentials, and the credentials are still posted |
| Login.NonRedirectRejected | plaid_candidate_materials/src/extractor/login.ts:41-84 | a login response other than 302 is InvalidCredentials, after the login request alone |
| Login.LoginSucceeds | plaid_candidate_materials/src/extractor/login.ts:24-84 | login succeeds exactly with non-empty credentials, a 302, and no served challenge left without an answer map |
| Login.ChallengeRequests | plaid_candidate_materials/src/extractor/login.ts:47-72 | the challenge page is fetched exactly on a redirect to the exact challenge URL; the answer is posted exactly when that page is a 200 and answers were given |
| Login.ChallengeAnswer | plaid_candidate_materials/src/extractor/login.ts:53-71 | the posted answer is the map's answer for the page's question, with the page's challenge index |
| Extract.Keyed | plaid_candidate_materials/src/extract.ts:44-46 | account k is stored under the key of the k-th `uuid.v4()` call, and with fresh keys no key appears twice, so no account is overwritten |
| Extract.Visit | plaid_candidate_materials/src/extract.ts:57-65 | definition of one turn of the transactions loop; specified by VisitShape and VisitAccount |
| Extract.TransactionsPass | plaid_candidate_materials/src/extract.ts:56-67 | definition of the transactions loop; specified by PassKeepsAccounts, PassRunsToEnd, PassRunsIff, PassStopsAtFirst, PassStopsSomewhere and TransactionsLoop |
| Extract.PassKeepsAccounts | plaid_candidate_materials/src/extract.ts:56-66 | the transactions loop keeps every account, in order and under its key, untouched or without its ephemeral id |
| Extract.FetchedTransactions | plaid_candidate_materials/src/extract.ts:56-66 | definition of the map a loop that runs to the end builds; specified by PassRunsToEnd, FinishSuccess, DiscoveredSuccess and SuccessfulRun |
| Extract.FetchedRequests | plaid_candidate_materials/src/extract.ts:56-66 | definition of the requests a loop sends: each eligible account's extraction's, one account after the other; specified by PassRunsToEnd, PassStopsAtFirst, FinishSuccess, SuccessfulRun and TransactionFailureStops |
| Extract.PassRunsToEnd | plaid_candidate_materials/src/extract.ts:56-66 | a loop that runs to the end had every eligible extraction resolve and strips every eligible account; its map is exactly `FetchedTransactions`: the eligible keys, in order, each with its extraction's transactions; the requests it sent are exactly `FetchedRequests`, the eligible extractions' requests in account order |
| Extract.VisitShape | plaid_candidate_materials/src/extract.ts:57-65 | one turn appends the visited account, stripped only if eligible; a turn that leaves the loop running on an eligible account had its extraction resolve and adds exactly that key with those transactions; a running turn sends that extraction's requests on an eligible account and none on any other |
| Extract.PassStopsAtFailure | plaid_candidate_materials/src/extract.ts:59-63 | after a failure the remaining accounts are left alone and no request is sent for them |
| Extract.PassAppend | plaid_candidate_materials/src/extract.ts:57-66 | proof step: the pass over one more entry is one more turn (the loop's next iteration) |
| Extract.PassStopsAt | plaid_candidate_materials/src/extract.ts:57-66 | when the loop stops at an account, the whole pass is the pass up to it with the rest of the accounts carried over unvisited |
| Extract.PassRunsIff | plaid_candidate_materials/src/extract.ts:56-66 | the loop runs to the end exactly when the extractor resolves on every credit or depository account |
| Extract.PassStopsAtFirst | plaid_candidate_materials/src/extract.ts:57-63 | when the first eligible account whose extraction does not resolve is k, the loop ends with k's error (or hangs), holding the transactions of the accounts before k, and leaves the accounts after k alone; it has sent the requests of the eligible extractions before k, then those of k's |
| Extract.PassStopsSomewhere | plaid_candidate_materials/src/extract.ts:59-63 | a loop that stops stopped at such a first account and ends as that account's extraction does |
| Extract.Finish | plaid_candidate_materials/src/extract.ts:56-79 | definition of the end of `extract`: the transactions loop, then the result or the loop's error; specified by FinishSuccess and the lemmas on Discovered |
| Extract.FinishSuccess | plaid_candidate_materials/src/extract.ts:56-79 | a successful finish keeps the accounts and the information; without the transaction step nothing is stripped and the map is empty; with it every eligible extraction resolved and the map is exactly the eligible keys, in order, each with its account's transactions; the requests sent after discovery are those of every eligible extraction, in account order, and none without the step |
| Extract.ExtractSpec | plaid_candidate_materials/src/extract.ts:22-80 | definition of `extract` as a value; specified by LoginFailureStops, AccountsFailureStops, InfoStalls, InfoFailureStops, TransactionFailureStops, SuccessfulRun and RunSucceeds |
| Extract.LoginFailureStops | plaid_candidate_materials/src/extract.ts:30-71 | a login error ends the run with that error, converted, after the login requests only |
| Extract.AccountsFailureStops | plaid_candidate_materials/src/extract.ts:38-71 | a discovery error ends the run with that error, converted, right after the accounts request |
| Extract.InfoStalls | plaid_candidate_materials/src/extract.ts:48-54 | a profile page with a status other than 200 or 401 leaves the run without a result |
| Extract.InfoFailureStops | plaid_candidate_materials/src/extract.ts:48-53 | a profile error ends the run with convertThrownValue of it, after the login, accounts and profile requests only |
| Extract.Discovered | plaid_candidate_materials/src/extract.ts:44-79 | definition of `extract` after discovery; specified by DiscoveredInfoFailure, DiscoveredTransactionFailure, DiscoveredSucceeds and DiscoveredSuccess |
| Extract.DiscoveredInfoFailure | plaid_candidate_materials/src/extract.ts:48-53 | after discovery, a profile error ends with convertThrownValue of it, right after the profile request |
| Extract.FinishStopsAtFirst | plaid_candidate_materials/src/extract.ts:56-71 | the first eligible account whose extraction does not resolve ends the finish with convertThrownValue of its error, or without a result, after the requests of the extractions up to and including k's |
| Extract.DiscoveredTransactionFailure | plaid_candidate_materials/src/extract.ts:56-66 | after discovery, the first account whose extraction does not resolve decides the end: convertThrownValue of its error, or no result when its promise never settles; the requests are the info request when provided, then those of the eligible extractions before k, then k's |
| Extract.DiscoveredSucceeds | plaid_candidate_materials/src/extract.ts:44-79 | after discovery, the run succeeds exactly when the profile step (if provided) and every transaction extraction (if provided) resolve |
| Extract.DiscoveredSuccess | plaid_candidate_materials/src/extract.ts:44-79 | a successful run after discovery keeps every account under its key; its information, present exactly when provided, is the profile the step resolved with; its map is each eligible account's transactions under its key, in order; with fresh keys no key repeats in either map; the requests are the info request when provided, then every eligible extraction's, in account order |
| Extract.SuccessfulRun | plaid_candidate_materials/src/extract.ts:22-80 | a run succeeds only after login and discovery resolve (RunSucceeds gives the converse); it then holds every discovered account under its key, the resolved profile exactly when provided, and each eligible account's transactions under its key, in order; its requests are login's, the accounts page, the info request when provided, then every eligible extraction's, in account order |
| Extract.TransactionFailureStops | plaid_candidate_materials/src/extract.ts:56-71 | the first eligible account whose extraction does not resolve ends the run with convertThrownValue of its error, or without a result, after login's requests, the accounts page, the info request when provided, and the requests of the eligible extractions up to and including k's |
| Extract.RunSucceeds | plaid_candidate_materials/src/extract.ts:22-80 | a run succeeds exactly when login, discovery, the profile step if provided and every transaction extraction if provided resolve |
| Extract.EligibleKeysFacts | plaid_candidate_materials/src/extract.ts:56-66 | a key is in the transactions map exactly when a credit or depository account carries it; distinct account keys give distinct map keys |
| Extract.VisitAccount | plaid_candidate_materials/src/extract.ts:58-65 | one turn on an account object does what `Visit` does to its value |
| Extract.TransactionsLoop | plaid_candidate_materials/src/extract.ts:56-67 | the loop's map, requests and ending are those of `TransactionsPass`; a loop that runs to the end leaves the objects holding the pass's values |
| Extract.ExtractDiscovered | plaid_candidate_materials/src/extract.ts:44-79 | the method equals Discovered on the account objects' values (so DiscoveredInfoFailure, DiscoveredTransactionFailure, DiscoveredSucceeds and DiscoveredSuccess hold of it), and a success returns those same objects |
| Extract.Extract | plaid_candidate_materials/src/extract.ts:22-80 | the result's values and the requests are those of `ExtractSpec`, so every lemma stated on ExtractSpec holds of the method, and the returned accounts are new objects |

## Left out

- A throw inside a step's promise executor is modelled as a rejection with
  InstitutionRequestError unless the step had already settled. This covers
  an unknown account type, a missing `data-a-n` attribute or link,
  `toISOString` of an Invalid Date, `JSON.parse`, and a missing answer map.
  In JavaScript such a throw rejects only the async executor's own promise,
  so the step's promise would stay pending.
- ReadRows: the account rows are parsed before the loop reads them. The
  parse is pure, so the settled result is the same, but the model does not
  capture that rows after a throwing row are never parsed.
- ExtractAccounts: the account objects are created after every row has been
  read. The objects of a discovery that throws part-way are never reachable,
  so the result is the same.
- `convertThrownValue` is not part of this model. It is a parameter of
  `Extract`, applied to the step's error code.
- Extract: the run's result maps are sequences of entries in insertion
  order. `uuid.v4()` is an oracle `uuid: nat -> string`, so every `set`
  appends an entry. Key freshness is a hypothesis (`FreshKeys`) of the
  lemmas that need it.
- The HTTP transport is a stateless function from request to response. The
  cookie jar, redirects inside the HTTP library, timeouts and network
  failures are not modelled. The session is the jar's identity.
- cheerio, csv-parse, `JSON.parse`, `new Date`, `toISOString`, `Number` and
  `parseFloat` are functions of a `Host` value. A parser that throws gives
  `None`. Time zones and calendar arithmetic live inside those functions.
- Numbers are a real value or NaN. Infinities and negative zero play no role
  in the code's truthiness checks and are not modelled.
- `console.log`, the `generateJSON` serialiser, and the script that runs
  `extract` on fixed credentials and writes `output.json` (extract.ts:82-119)
  are output only, and are left out.
- The wiring of the extractor object in `src/extractor/index.ts` and the
  framework modules (errors, model, requests) are not part of this model.
  Their behaviour is a parameter or a datatype here.
- `creds.mfa[question]` on a JavaScript object also finds inherited keys such
  as `constructor`. Lookup uses the map's own keys only.
- Strings are sequences of Unicode characters. JavaScript's `length`,
  `substring`, `indexOf` and `split` count UTF-16 code units, so on text
  with characters outside the Basic Multilingual Plane the model differs.
  For example, the mask of an account number that ends in such a character
  is a different slice.
- The `JSON.parse` payload of the profile page is given typed fields: a
  string name and email, an optional string phone, and an optional list of
  address lines. A payload whose `phone` is not a string (where `replace`
  throws) or whose `address` is a string (indexed character by character)
  is not modelled.
