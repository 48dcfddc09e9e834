/** The connector's data model and the boundary to the code it does not
    contain: the HTTP transport, and the libraries that parse markup, CSV,
    JSON, dates and numbers. */
module Model {
  import opened Js
  import opened Settlement

  /** The institution's site: the origin used by the profile page, and the base
      URL (with its trailing slash) used by every other request. */
  const Origin: string := "http://firstplaidypus.herokuapp.com"
  const BaseUrl: string := Origin + "/"

  // ---- Transport --------------------------------------------------------

  datatype Verb = Get | Post

  /** One field of a form body; a JavaScript `undefined` value stays `None`. */
  datatype FormField = FormField(name: string, value: Option<string>)

  datatype Request = Request(verb: Verb, url: string, form: seq<FormField>)

  /** What the transport hands back: the status code, the `location` header
      (if any) and the body text. */
  datatype Response = Response(status: int, location: Option<string>, body: string)

  /** The institution's answer to each request. The cookie jar that carries
      the session between requests lives inside the transport. */
  type Transport = Request -> Response

  /** A step's promise result together with the requests the step sent, in order. */
  datatype Run<T> = Run(outcome: Outcome<T>, sent: seq<Request>)

  // ---- What the foreign parsers extract ---------------------------------

  /** The fields read from one `.accountrow` element: the texts of
      `div.left > h4`, `div.left > p` and `div.right > h4`, the `data-a-n`
      attribute and the `href` of its link (`None` when absent). */
  datatype AccountRow = AccountRow(
    nickname: string,
    officialName: string,
    balance: string,
    accountNumber: Option<string>,
    href: Option<string>)

  /** The cell texts of one `.pending tbody tr` row: date, description, amount. */
  datatype PendingRow = PendingRow(date: string, description: string, amount: string)

  /** The fields of the JSON payload embedded in the profile page (`None`
      when the key is missing). */
  datatype Profile = Profile(
    name: Option<string>,
    email: Option<string>,
    phone: Option<string>,
    address: Option<seq<string>>)

  /** The JavaScript runtime and the third-party libraries the connector calls.
      A parser that throws is modelled by a `None` result. */
  datatype Host = Host(
    parseFloat: string -> JsNumber,                 // parseFloat(text)
    toNumber: string -> JsNumber,                   // Number(text)
    parseDate: string -> JsDate,                    // new Date(text)
    isoString: int -> string,                       // toISOString() of a valid time value
    parseCsv: string -> Option<seq<seq<string>>>,   // csv-parse: rows of fields
    parseJson: string -> Option<Profile>,           // JSON.parse
    accountRows: string -> seq<AccountRow>,         // cheerio: the page's '.accountrow' rows
    pendingRows: string -> seq<PendingRow>,         // cheerio: the page's '.pending tbody tr' rows
    challengeQuestion: string -> string,            // cheerio: text of '.input-group p'
    challengeIndex: string -> Option<string>)       // cheerio: value of '[name="mfa_index"]'

  // ---- Records ----------------------------------------------------------

  /** Username, password, and the optional map from challenge question to answer. */
  datatype Credentials = Credentials(
    username: string,
    password: string,
    mfa: Option<map<string, string>>)

  /** The authenticated session: the cookie jar created for the run. */
  datatype Session = Session(jar: nat)

  /** The inclusive date range, as the caller's text. */
  datatype TransactionOptions = TransactionOptions(startDate: string, endDate: string)

  datatype AccountType = Depository | Credit | Loan

  /** The accounts whose transactions are fetched and that carry an
      ephemeral reference. */
  predicate HasTransactions(t: AccountType) {
    t == Credit || t == Depository
  }

  /** An account as a value. `rawEphemeral` is the institution's account id,
      present only while the account is waiting for transaction extraction. */
  datatype AccountData = AccountData(
    kind: AccountType,
    nickname: string,
    officialName: string,
    currentBalance: JsNumber,
    availableBalance: JsNumber,
    mask: string,
    rawEphemeral: Option<string>)

  datatype Transaction = Transaction(
    date: string,
    amount: JsNumber,
    description: string,
    pending: bool)

  datatype Address = Address(street: string, city: string, state: string, zip: string)

  /** Profile information; a missing name or email stays `None` in its list. */
  datatype Info = Info(
    names: seq<Option<string>>,
    phoneNumbers: seq<string>,
    emails: seq<Option<string>>,
    addresses: seq<Address>)

  /** An account object. The orchestrator's map and the transaction extractor
      share it, so the extractor's `delete account.rawEphemeral` is visible in
      the map. The source's field `type` is `kind` here. */
  class Account {
    var kind: AccountType
    var nickname: string
    var officialName: string
    var currentBalance: JsNumber
    var availableBalance: JsNumber
    var mask: string
    var rawEphemeral: Option<string>

    constructor (d: AccountData)
      ensures Data() == d
    {
      kind := d.kind;
      nickname := d.nickname;
      officialName := d.officialName;
      currentBalance := d.currentBalance;
      availableBalance := d.availableBalance;
      mask := d.mask;
      rawEphemeral := d.rawEphemeral;
    }

    /** The object's current field values. */
    function Data(): AccountData
      reads this
    {
      AccountData(kind, nickname, officialName, currentBalance, availableBalance, mask, rawEphemeral)
    }
  }
}
