/** Profile extraction: the settings page embeds a JSON payload from which the
    name, email, phone number and a two-line address are taken. */
module ProfileInfo {
  import opened Js
  import opened JsString
  import opened Settlement
  import opened Model

  /** The settings page request. */
  function InfoRequest(): Request {
    Request(Get, Origin + "/settings/user", [])
  }

  /** `extractAddress`: street from line 1; line 2 is split on `,`, the second
      piece is trimmed and split on ` ` into state and full zip, and the zip is
      cut before its first `-`. `None` stands for the thrown error: a missing
      second line, comma or zip token (a method call on `undefined`), or an
      empty street, city, state or zip. */
  function ExtractAddress(lines: seq<string>): Option<Address> {
    if |lines| < 2 then None
    else
      var street := lines[0];
      var cityStateZip := Split(lines[1], ',');
      if |cityStateZip| < 2 then None
      else
        var stateZip := Split(Trim(cityStateZip[1]), ' ');
        var city := cityStateZip[0];
        var state := stateZip[0];
        if |stateZip| < 2 then None
        else
          var zip := Split(stateZip[1], '-')[0];
          if street == "" || city == "" || state == "" || zip == "" then None
          else Some(Address(street, city, state, zip))
  }

  /** The zip as written on the second line, with the ZIP+4 suffix if any. */
  function ZipField(zip: string, plus4: Option<string>): string {
    zip + (if plus4.Some? then "-" + plus4.value else "")
  }

  /** The second address line as the institution writes it:
      "City, ST 12345" or, with a ZIP+4 suffix, "City, ST 12345-6789". */
  function AddressLine(a: Address, plus4: Option<string>): string {
    a.city + ", " + a.state + " " + ZipField(a.zip, plus4)
  }

  /** An address that can be written as two lines and read back: no comma in
      the city, and state, zip and ZIP+4 suffix free of whitespace and commas
      (the zip also free of `-`). */
  predicate Writable(a: Address, plus4: Option<string>) {
    && a.street != "" && a.city != "" && a.state != "" && a.zip != ""
    && ',' !in a.city
    && (forall c :: c in a.state ==> c != ',' && !IsWhitespace(c))
    && (forall c :: c in a.zip ==> c != ',' && c != '-' && !IsWhitespace(c))
    && (plus4.Some? ==> plus4.value != [] && forall c :: c in plus4.value ==> c != ',' && !IsWhitespace(c))
  }

  /** Reading back a written address gives the address, in both line formats:
      the ZIP+4 suffix is dropped and the zip keeps its five digits. */
  lemma AddressRoundTrip(a: Address, plus4: Option<string>)
    requires Writable(a, plus4)
    ensures ExtractAddress([a.street, AddressLine(a, plus4)]) == Some(a)
  {
    var zipFull := ZipField(a.zip, plus4);
    ZipFieldFacts(a, plus4);
    var seg := " " + a.state + " " + zipFull;
    CommaSplit(a, zipFull);
    StateSplit(a.state, zipFull);
    ReadLines([a.street, AddressLine(a, plus4)], a.city, seg, a.state, zipFull);
  }

  /** The written zip field has no comma or whitespace, is not empty, and is cut back to the zip. */
  lemma ZipFieldFacts(a: Address, plus4: Option<string>)
    requires Writable(a, plus4)
    ensures var z := ZipField(a.zip, plus4);
      && z != [] && !IsWhitespace(z[|z| - 1])
      && (forall c :: c in z ==> c != ',' && !IsWhitespace(c))
      && Split(z, '-')[0] == a.zip
  {
    var z := ZipField(a.zip, plus4);
    if plus4.Some? {
      var suffix := plus4.value;
      assert z == a.zip + ['-'] + suffix;
      assert z[|z| - 1] == suffix[|suffix| - 1] && suffix[|suffix| - 1] in suffix;
      forall c | c in z
        ensures c != ',' && !IsWhitespace(c)
      {
        assert c in a.zip || c == '-' || c in suffix;
      }
      SplitAfterFirst(a.zip, '-', suffix);
    } else {
      assert z == a.zip;
      assert z[|z| - 1] in a.zip;
    }
  }

  /** The second line splits at its one comma into the city and the rest. */
  lemma CommaSplit(a: Address, zipFull: string)
    requires ',' !in a.city
    requires forall c :: c in a.state ==> c != ','
    requires forall c :: c in zipFull ==> c != ','
    ensures Split(a.city + ", " + a.state + " " + zipFull, ',') == [a.city, " " + a.state + " " + zipFull]
  {
    var seg := " " + a.state + " " + zipFull;
    assert a.city + ", " + a.state + " " + zipFull == a.city + [','] + seg;
    assert ',' !in seg;
    SplitAfterFirst(a.city, ',', seg);
  }

  /** The trimmed rest splits at its one space into state and zip field. */
  lemma StateSplit(state: string, zipFull: string)
    requires state != [] && forall c :: c in state ==> !IsWhitespace(c)
    requires zipFull != [] && forall c :: c in zipFull ==> !IsWhitespace(c)
    ensures Split(Trim(" " + state + " " + zipFull), ' ') == [state, zipFull]
  {
    TrimStateLine(state, zipFull);
    SplitStateLine(state, zipFull);
  }

  lemma TrimStateLine(state: string, zipFull: string)
    requires state != [] && !IsWhitespace(state[0])
    requires zipFull != [] && !IsWhitespace(zipFull[|zipFull| - 1])
    ensures Trim(" " + state + " " + zipFull) == state + [' '] + zipFull
  {
    var trimmed := state + [' '] + zipFull;
    assert " " + state + " " + zipFull == [' '] + trimmed;
    TrimOneSpace(trimmed);
  }

  lemma SplitStateLine(state: string, zipFull: string)
    requires ' ' !in state && ' ' !in zipFull
    ensures Split(state + [' '] + zipFull, ' ') == [state, zipFull]
  {
    SplitAfterFirst(state, ' ', zipFull);
  }

  /** `ExtractAddress` on lines whose pieces are known. */
  lemma ReadLines(lines: seq<string>, city: string, seg: string, state: string, zipFull: string)
    requires |lines| == 2
    requires Split(lines[1], ',') == [city, seg]
    requires Split(Trim(seg), ' ') == [state, zipFull]
    requires lines[0] != "" && city != "" && state != "" && Split(zipFull, '-')[0] != ""
    ensures ExtractAddress(lines) == Some(Address(lines[0], city, state, Split(zipFull, '-')[0]))
  {
  }

  /** Trimming one leading space off a text that has no whitespace at either end. */
  lemma TrimOneSpace(s: string)
    requires s != [] && !IsWhitespace(s[0]) && !IsWhitespace(s[|s| - 1])
    ensures Trim([' '] + s) == s
  {
    var t := [' '] + s;
    assert t[|t| - 1] == s[|s| - 1];
    assert TrimEnd(t) == t;
    assert t[1..] == s;
    assert TrimStart(s) == s;
  }

  /** The documented example: ZIP+4 "84102-1234" becomes zip "84102". */
  lemma CenterStreetExample()
    ensures ExtractAddress(["123 Center Street", "Salt Lake City, UT 84102-1234"])
         == Some(Address("123 Center Street", "Salt Lake City", "UT", "84102"))
  {
    var a := Address("123 Center Street", "Salt Lake City", "UT", "84102");
    assert ',' !in a.city;
    assert forall c :: c in a.state ==> c == 'U' || c == 'T';
    assert forall c :: c in a.zip ==> '0' <= c <= '9';
    assert forall c :: c in "1234" ==> '0' <= c <= '9';
    AddressRoundTrip(a, Some("1234"));
    ExampleLine();
  }

  lemma ExampleLine()
    ensures AddressLine(Address("123 Center Street", "Salt Lake City", "UT", "84102"), Some("1234"))
         == "Salt Lake City, UT 84102-1234"
  {
  }

  /** What a parsed address is made of: the street is line 1; the city is the
      text of line 2 before its first comma, untrimmed; the state is the part
      of the trimmed second comma-piece before its first space; the zip has no
      `-` and starts the token after that space. */
  lemma AddressFields(lines: seq<string>)
    requires ExtractAddress(lines).Some?
    ensures var a := ExtractAddress(lines).value;
      && |lines| >= 2 && a.street == lines[0]
      && ',' in lines[1] && a.city == lines[1][..IndexOf(lines[1], ',')]
      && var seg := Split(lines[1], ',')[1];
      && ' ' in Trim(seg) && a.state == Trim(seg)[..IndexOf(Trim(seg), ' ')]
      && '-' !in a.zip
      && var token := Split(Trim(seg), ' ')[1];
      && a.zip == (if '-' in token then token[..IndexOf(token, '-')] else token)
  {
  }

  /** When the address parse fails: a missing line, comma or zip token, an
      empty street, city or zip. The state is never the empty field, because
      the trimmed text it is cut from cannot start with a space. */
  lemma AddressFailure(lines: seq<string>)
    ensures ExtractAddress(lines).None? <==>
      || |lines| < 2 || lines[0] == ""
      || ',' !in lines[1] || IndexOf(lines[1], ',') == 0
      || ' ' !in Trim(Split(lines[1], ',')[1])
      || Split(Split(Trim(Split(lines[1], ',')[1]), ' ')[1], '-')[0] == ""
  {
  }

  /** The JSON text handed to `JSON.parse`: from the first `{` through the last
      `}` of the page, with `substring`'s clamping and swapping. */
  function Payload(body: string): string {
    Substring(body, IndexOf(body, '{'), LastIndexOf(body, '}') + 1)
  }

  /** `substring` over a span that opens on `{` and closes on `}`. */
  lemma BraceSpan(body: string, i: int, j: int)
    requires 0 <= i <= j < |body| && body[i] == '{' && body[j] == '}'
    ensures var r := Substring(body, i, j + 1);
      r == body[i..j + 1] && r[0] == '{' && r[|r| - 1] == '}'
  {
  }

  /** For a page with a `{` before its last `}`, the payload is exactly the
      span from the first `{` to the last `}`, both included. */
  lemma PayloadSpan(body: string)
    requires '{' in body && '}' in body && IndexOf(body, '{') <= LastIndexOf(body, '}')
    ensures var i, j := IndexOf(body, '{'), LastIndexOf(body, '}');
      && Payload(body) == body[i..j + 1]
      && Payload(body)[0] == '{' && Payload(body)[|Payload(body)| - 1] == '}'
      && '{' !in body[..i] && '}' !in body[j + 1..]
  {
    var i, j := IndexOf(body, '{'), LastIndexOf(body, '}');
    assert Payload(body) == Substring(body, i, j + 1);
    BraceSpan(body, i, j);
  }

  /** Otherwise `substring` swaps its arguments. On a page with no `{` the
      payload is the page up to its last `}`, so it holds no `{`. */
  lemma PayloadWithoutOpen(body: string)
    requires '{' !in body
    ensures Payload(body) == body[..LastIndexOf(body, '}') + 1]
    ensures '{' !in Payload(body)
  {
    var j := LastIndexOf(body, '}');
    assert IndexOf(body, '{') == -1;
    assert Payload(body) == body[..j + 1];
    assert body == body[..j + 1] + body[j + 1..];
  }

  /** On a page whose first `{` comes after its last `}`, the payload is the
      stretch between the two, both left out, so it holds no `{`. */
  lemma PayloadSwapped(body: string)
    requires '{' in body && LastIndexOf(body, '}') < IndexOf(body, '{')
    ensures var i, j := IndexOf(body, '{'), LastIndexOf(body, '}');
      Payload(body) == body[j + 1..i]
    ensures '{' !in Payload(body)
  {
    var i, j := IndexOf(body, '{'), LastIndexOf(body, '}');
    assert Payload(body) == Substring(body, i, j + 1);
    GapSpan(body, i, j);
  }

  /** `substring` over a reversed span whose start is the first `{`: the
      stretch between the two bounds, with no `{` in it. */
  lemma GapSpan(body: string, i: int, j: int)
    requires -1 <= j < i < |body| && '{' !in body[..i]
    ensures Substring(body, i, j + 1) == body[j + 1..i]
    ensures '{' !in body[j + 1..i]
  {
    SubstringSwapsBounds(body, i, j + 1);
    assert body[..i] == body[..j + 1] + body[j + 1..i];
  }

  /** `extractInfo` on the settings page response. A 401 rejects with
      InvalidCredentials. A 200 parses the payload: a `JSON.parse` failure, a
      missing address or phone, or an address error rejects with
      InstitutionRequestError; otherwise it resolves with singleton lists and
      the phone's first `+` removed. Any other status settles nothing. */
  function ExtractInfo(host: Host, response: Response): Outcome<Info> {
    if response.status == 401 then Rejected(InvalidCredentials)
    else if response.status == 200 then
      match host.parseJson(Payload(response.body))
      case None => Rejected(InstitutionRequestError)
      case Some(json) =>
        var address := if json.address.Some? then ExtractAddress(json.address.value) else None;
        if address.None? || json.phone.None? then Rejected(InstitutionRequestError)
        else
          var phone := RemoveFirst(json.phone.value, '+');
          Resolved(Info([json.name], [phone], [json.email], [address.value]))
    else Unsettled
  }

  /** The step as the orchestrator runs it: one request, then `ExtractInfo`. */
  function InfoStep(host: Host, transport: Transport): Run<Info> {
    Run(ExtractInfo(host, transport(InfoRequest())), [InfoRequest()])
  }

  /** The status dispatch: 401 and only 401 gives InvalidCredentials; a 200
      resolves or rejects with InstitutionRequestError; every other status
      leaves the promise unsettled. */
  lemma InfoStatus(host: Host, response: Response)
    ensures ExtractInfo(host, response) == Rejected(InvalidCredentials) <==> response.status == 401
    ensures ExtractInfo(host, response).Unsettled? <==> response.status != 200 && response.status != 401
    ensures response.status == 200 ==>
      ExtractInfo(host, response).Resolved? || ExtractInfo(host, response) == Rejected(InstitutionRequestError)
  {
  }

  /** The pages that resolve: a 200 whose payload parses and carries a phone
      and an address whose lines parse. `InfoResolved` gives the converse. */
  lemma InfoResolves(host: Host, response: Response)
    requires response.status == 200
    requires host.parseJson(Payload(response.body)).Some?
    requires var json := host.parseJson(Payload(response.body)).value;
      json.phone.Some? && json.address.Some? && ExtractAddress(json.address.value).Some?
    ensures ExtractInfo(host, response).Resolved?
  {
  }

  /** A resolved profile: every list is a singleton, the address is the parse
      of the payload's address lines, and the phone is the payload's phone
      with its first `+` (and only that one) removed. */
  lemma InfoResolved(host: Host, response: Response)
    requires ExtractInfo(host, response).Resolved?
    ensures var info := ExtractInfo(host, response).value;
      && response.status == 200
      && host.parseJson(Payload(response.body)).Some?
      && var json := host.parseJson(Payload(response.body)).value;
      && |info.names| == |info.phoneNumbers| == |info.emails| == |info.addresses| == 1
      && info.names[0] == json.name && info.emails[0] == json.email
      && json.address.Some? && ExtractAddress(json.address.value) == Some(info.addresses[0])
      && json.phone.Some? && info.phoneNumbers[0] == RemoveFirst(json.phone.value, '+')
      && ('+' in json.phone.value ==> multiset(info.phoneNumbers[0])['+'] == multiset(json.phone.value)['+'] - 1)
      && ('+' !in json.phone.value ==> info.phoneNumbers[0] == json.phone.value)
  {
    var json := host.parseJson(Payload(response.body)).value;
    if '+' in json.phone.value {
      RemoveFirstCount(json.phone.value, '+');
    }
  }
}
