/** Microsoft account sign-in (src/auth/microsoft.py): reading the Xbox user
    hash out of an XSTS token, the two Authorization header formats, and the
    choice between silent re-authentication and the device-code flow. MSAL,
    the keyring, the Xbox and Minecraft services and base64/JSON decoding are
    parameters. */
module MicrosoftAuth {
  import opened Common
  import opened Models

  // ---------------------------------------------------------------- user hash

  /** The second dot-separated segment of a token; a token with no dot has none. */
  function Payload(token: string): (r: Result<string, Error>)
    ensures r.Err? <==> '.' !in token
    ensures r.Err? ==> r.error == IndexError
    ensures r.Ok? ==> '.' !in r.value
    ensures |Split(token, '.')| >= 2 ==> r == Ok(Split(token, '.')[1])
  {
    SplitSeveral(token, '.');
    SplitPieces(token, '.');
    var parts := Split(token, '.');
    if |parts| < 2 then Err(IndexError) else Ok(parts[1])
  }

  /** A token `header.payload.signature` yields its middle segment. */
  lemma PayloadOfJwt(header: string, payload: string, signature: string)
    requires '.' !in header && '.' !in payload
    ensures Payload(header + "." + payload + "." + signature) == Ok(payload)
  {
    SplitFirst(header, payload + "." + signature, '.');
    assert header + "." + payload + "." + signature == header + ['.'] + (payload + ['.'] + signature);
    SplitFirst(payload, signature, '.');
  }

  /** `c` repeated `n` times (`c * n`). */
  function Repeat(c: char, n: nat): (r: string)
    ensures |r| == n
    ensures forall i :: 0 <= i < n ==> r[i] == c
  {
    if n == 0 then "" else [c] + Repeat(c, n - 1)
  }

  /** Base64 padding: as many `=` as it takes to bring the length to a multiple of four. */
  function Pad(p: string): (r: string)
    ensures |p| <= |r| <= |p| + 3
    ensures |r| % 4 == 0
    ensures r[..|p|] == p
    ensures forall i :: |p| <= i < |r| ==> r[i] == '='
    ensures |p| % 4 == 0 ==> r == p
  {
    p + Repeat('=', (4 - |p| % 4) % 4)
  }

  /** The padding is the fewest `=` that reach a multiple of four. */
  lemma PadMinimal(p: string, k: nat)
    requires k < |Pad(p)| - |p|
    ensures (|p| + k) % 4 != 0
  {
  }

  /** Padding an already padded payload changes nothing. */
  lemma PadIdempotent(p: string)
    ensures Pad(Pad(p)) == Pad(p)
  {
  }

  /** `obj[key]` on a decoded JSON value. */
  function Field(j: Json, key: string): (r: Result<Json, Error>)
    ensures r.Ok? <==> j.JObj? && key in j.fields
    ensures r.Ok? ==> r.value == j.fields[key]
    ensures j.JObj? && key !in j.fields ==> r == Err(KeyError(key))
  {
    match j
    case JObj(f) => if key in f then Ok(f[key]) else Err(KeyError(key))
    case _ => Err(TypeError("not subscriptable by a string"))
  }

  /** `obj[0]` on a decoded JSON value. JSON object keys are strings, so on
      an object the integer key 0 is always missing. */
  function First(j: Json): (r: Result<Json, Error>)
    ensures j.JArr? ==> (r.Ok? <==> j.items != [])
    ensures j.JArr? && j.items != [] ==> r == Ok(j.items[0])
    ensures j.JObj? ==> r == Err(IndexKeyError(0))
  {
    match j
    case JArr(items) => if items == [] then Err(IndexError) else Ok(items[0])
    case JObj(_) => Err(IndexKeyError(0))
    case JStr(s) => if s == [] then Err(IndexError) else Ok(JStr([s[0]]))
    case _ => Err(TypeError("not subscriptable"))
  }

  /** The `uhs` claim of the first `xui` entry under `DisplayClaims`. */
  function Claim(data: Json): Result<Json, Error> {
    match Field(data, "DisplayClaims")
    case Err(e) => Err(e)
    case Ok(claims) =>
      match Field(claims, "xui")
      case Err(e) => Err(e)
      case Ok(xui) =>
        match First(xui)
        case Err(e) => Err(e)
        case Ok(entry) => Field(entry, "uhs")
  }

  /** `extract_xbox_user_hash`: payload segment, padding, decoding (`decode`
      stands for `base64.urlsafe_b64decode` followed by `json.loads`), claim. */
  function UserHash(token: string, decode: string -> Result<Json, Error>): Result<Json, Error> {
    match Payload(token)
    case Err(e) => Err(e)
    case Ok(p) =>
      match decode(Pad(p))
      case Err(e) => Err(e)
      case Ok(data) => Claim(data)
  }

  /** A token without a dot fails on the segment index before anything is decoded. */
  lemma UserHashNeedsTwoSegments(token: string, decode: string -> Result<Json, Error>)
    requires '.' !in token
    ensures UserHash(token, decode) == Err(IndexError)
  {
  }

  /** A well-formed token whose padded payload decodes to the expected claims
      yields the first `uhs` claim. */
  lemma UserHashReadsClaim(header: string, payload: string, signature: string, uhs: string,
                           more: seq<Json>, decode: string -> Result<Json, Error>)
    requires '.' !in header && '.' !in payload
    requires decode(Pad(payload)) ==
      Ok(JObj(map["DisplayClaims" := JObj(map["xui" := JArr([JObj(map["uhs" := JStr(uhs)])] + more)])]))
    ensures UserHash(header + "." + payload + "." + signature, decode) == Ok(JStr(uhs))
  {
    PayloadOfJwt(header, payload, signature);
  }

  // ---------------------------------------------------------------- headers

  /** The Minecraft login header `XBL3.0 x={user_hash};{xsts_token}`. */
  function XblHeader(userHash: string, xsts: string): string {
    "XBL3.0 x=" + userHash + ";" + xsts
  }

  /** The profile request header `Bearer {access_token}`. */
  function BearerHeader(token: string): string {
    "Bearer " + token
  }

  /** The login header determines the user hash and the XSTS token, provided the hash holds no `;`. */
  lemma XblHeaderInjective(h1: string, x1: string, h2: string, x2: string)
    requires ';' !in h1 && ';' !in h2
    requires XblHeader(h1, x1) == XblHeader(h2, x2)
    ensures h1 == h2 && x1 == x2
  {
    var pre := "XBL3.0 x=";
    assert XblHeader(h1, x1)[|pre|..] == h1 + [';'] + x1;
    assert XblHeader(h2, x2)[|pre|..] == h2 + [';'] + x2;
    SplitFirst(h1, x1, ';');
    SplitFirst(h2, x2, ';');
    assert h1 == Split(h1 + [';'] + x1, ';')[0];
    assert x1 == (h1 + [';'] + x1)[|h1| + 1..];
    assert x2 == (h2 + [';'] + x2)[|h2| + 1..];
  }

  /** The profile header determines the token. */
  lemma BearerHeaderInjective(t1: string, t2: string)
    requires BearerHeader(t1) == BearerHeader(t2)
    ensures t1 == t2
  {
    assert t1 == BearerHeader(t1)[7..];
  }

  // ---------------------------------------------------------------- full flow

  /** The remote services. Each token endpoint stands for the POST and the
      `result["Token"]` lookup; `login` receives the Authorization header;
      `render` is the f-string rendering of a non-string `uhs` claim. */
  datatype Services = Services(
    xbl: string -> Result<string, Error>,
    xsts: string -> Result<string, Error>,
    decode: string -> Result<Json, Error>,
    render: Json -> string,
    login: string -> Result<map<string, string>, Error>,
    profile: string -> Result<Json, Error>)

  /** The text an f-string puts in place of a claim. */
  function Rendered(j: Json, render: Json -> string): string {
    if j.JStr? then j.s else render(j)
  }

  /** Xbox Live, XSTS, user hash, Minecraft login, profile: the chain both branches run. */
  function XboxChain(msAccess: string, svc: Services): Result<Json, Error> {
    match svc.xbl("d=" + msAccess)
    case Err(e) => Err(e)
    case Ok(xbox) =>
      match svc.xsts(xbox)
      case Err(e) => Err(e)
      case Ok(xsts) =>
        match UserHash(xsts, svc.decode)
        case Err(e) => Err(e)
        case Ok(uhs) =>
          match svc.login(XblHeader(Rendered(uhs, svc.render), xsts))
          case Err(e) => Err(e)
          case Ok(mc) =>
            if "access_token" in mc then svc.profile(BearerHeader(mc["access_token"]))
            else Err(KeyError("access_token"))
  }

  /** A silent MSAL result is used only when it is a dict with an access token. */
  predicate SilentUsable(r: Option<map<string, string>>) {
    r.Some? && "access_token" in r.value
  }

  /** The device-code branch, with the refresh token it writes to the keyring. */
  function DeviceFlow(initiate: Result<map<string, string>, Error>,
                      poll: map<string, string> -> Result<map<string, string>, Error>,
                      svc: Services): (Result<Json, Error>, Option<string>)
  {
    match initiate
    case Err(e) => (Err(e), None)
    case Ok(flow) =>
      if "error" in flow then
        (if "error_description" in flow then Err(RuntimeFailure("Device flow error: " + flow["error_description"]))
         else Err(KeyError("error_description")), None)
      else if "verification_uri" !in flow then (Err(KeyError("verification_uri")), None)
      else if "user_code" !in flow then (Err(KeyError("user_code")), None)
      else
        match poll(flow)
        case Err(e) => (Err(e), None)
        case Ok(tokens) =>
          if "error" in tokens then
            (Err(RuntimeFailure(if "error_description" in tokens then tokens["error_description"] else "Auth failed")), None)
          else
            var stored := if "refresh_token" in tokens then Some(tokens["refresh_token"]) else None;
            if "access_token" in tokens then (XboxChain(tokens["access_token"], svc), stored)
            else (Err(KeyError("access_token")), stored)
  }

  /** The decimal digits of `n`, as `str(n)` writes them. */
  function NatText(n: nat): (r: string)
    ensures |r| >= 1 && forall k :: 0 <= k < |r| ==> '0' <= r[k] <= '9'
    decreases n
  {
    if n < 10 then ["0123456789"[n]] else NatText(n / 10) + ["0123456789"[n % 10]]
  }

  /** `str(i)` of an integer. */
  function IntText(i: int): string {
    if i < 0 then "-" + NatText(-i) else NatText(i)
  }

  /** `str(e)` as the wrapper message sees it: a bare exception shows its
      message, a `KeyError` the `repr` of its key (a string quoted, an
      integer bare); other kinds are described by `str_`. */
  function Describe(e: Error, str_: Error -> string): string {
    match e
    case RuntimeFailure(m) => m
    case KeyError(k) => "'" + k + "'"
    case IndexKeyError(i) => IntText(i)
    case _ => str_(e)
  }

  /** A user-hash token whose `xui` claim is an object fails on `[0]`, and the
      message shows the bare key. */
  lemma DictIndexDescribed(str_: Error -> string)
    ensures First(JObj(map[])) == Err(IndexKeyError(0))
    ensures Describe(IndexKeyError(0), str_) == "0"
  {
    assert NatText(0) == "0";
  }

  /** The wrapper's message for a failure of either branch; a profile passes through. */
  function Wrapped(r: Result<Json, Error>, str_: Error -> string): Result<Json, Error> {
    match r
    case Ok(p) => Ok(p)
    case Err(e) => Err(RuntimeFailure(FailurePrefix + Describe(e, str_)))
  }

  const FailurePrefix := "Authentication failed: "

  /** What one call of `authenticate_full_flow` produced. */
  datatype FlowOutcome = FlowOutcome(
    result: Result<Json, Error>,
    triedSilent: bool,        // `acquire_token_silent` was called
    deviceFlow: bool,         // the device-code flow ran
    stored: Option<string>)   // the refresh token written to the keyring

  function AuthenticateFullFlow(
    accounts: seq<string>, storedRefresh: Option<string>,
    silent: string -> Option<map<string, string>>,
    initiate: Result<map<string, string>, Error>,
    poll: map<string, string> -> Result<map<string, string>, Error>,
    svc: Services, str_: Error -> string): (o: FlowOutcome)
    ensures o.triedSilent <==> Truthy(storedRefresh) && accounts != []
    ensures o.deviceFlow <==> !(o.triedSilent && SilentUsable(silent(accounts[0])))
    ensures !o.deviceFlow ==> o.stored == None
    ensures o.stored.Some? ==>
      initiate.Ok? && poll(initiate.value).Ok? && "refresh_token" in poll(initiate.value).value &&
      o.stored.value == poll(initiate.value).value["refresh_token"]
    ensures o.result.Err? ==>
      o.result.error.RuntimeFailure? && |o.result.error.msg| >= |FailurePrefix| &&
      o.result.error.msg[..|FailurePrefix|] == FailurePrefix
    ensures o.result.Ok? ==>
      (exists token :: XboxChain(token, svc) == o.result)
    ensures !o.deviceFlow ==> o.result == Wrapped(XboxChain(silent(accounts[0]).value["access_token"], svc), str_)
    ensures o.deviceFlow ==>
      o.result == Wrapped(DeviceFlow(initiate, poll, svc).0, str_) && o.stored == DeviceFlow(initiate, poll, svc).1
  {
    var triedSilent := Truthy(storedRefresh) && accounts != [];
    var useSilent := triedSilent && SilentUsable(silent(accounts[0]));
    var (r, stored) :=
      if useSilent then (XboxChain(silent(accounts[0]).value["access_token"], svc), None)
      else DeviceFlow(initiate, poll, svc);
    FlowOutcome(Wrapped(r, str_), triedSilent, !useSilent, stored)
  }

  /** When the silent result is usable, a failure further down the chain is
      reported, not retried through the device-code flow. */
  lemma SilentFailureIsFinal(
    accounts: seq<string>, storedRefresh: Option<string>,
    silent: string -> Option<map<string, string>>,
    initiate: Result<map<string, string>, Error>,
    poll: map<string, string> -> Result<map<string, string>, Error>,
    svc: Services, str_: Error -> string)
    requires Truthy(storedRefresh) && accounts != [] && SilentUsable(silent(accounts[0]))
    requires XboxChain(silent(accounts[0]).value["access_token"], svc).Err?
    ensures var o := AuthenticateFullFlow(accounts, storedRefresh, silent, initiate, poll, svc, str_);
      !o.deviceFlow && o.result ==
        Err(RuntimeFailure(FailurePrefix + Describe(XboxChain(silent(accounts[0]).value["access_token"], svc).error, str_)))
  {
  }

  /** A device flow that MSAL refuses fails with its description behind the prefix. */
  lemma DeviceFlowErrorMessage(
    initiate: Result<map<string, string>, Error>,
    poll: map<string, string> -> Result<map<string, string>, Error>,
    svc: Services, str_: Error -> string)
    requires initiate.Ok? && "error" in initiate.value && "error_description" in initiate.value
    ensures AuthenticateFullFlow([], None, _ => None, initiate, poll, svc, str_).result ==
      Err(RuntimeFailure(FailurePrefix + "Device flow error: " + initiate.value["error_description"]))
  {
    assert FailurePrefix + ("Device flow error: " + initiate.value["error_description"]) ==
      FailurePrefix + "Device flow error: " + initiate.value["error_description"];
  }

  /** The silent answer is consulted only for the first account, and only
      when a refresh token and an account exist: otherwise any answer gives
      the same outcome. */
  lemma SilentOnlyForFirstAccount(
    accounts: seq<string>, storedRefresh: Option<string>,
    silent1: string -> Option<map<string, string>>, silent2: string -> Option<map<string, string>>,
    initiate: Result<map<string, string>, Error>,
    poll: map<string, string> -> Result<map<string, string>, Error>,
    svc: Services, str_: Error -> string)
    requires !(Truthy(storedRefresh) && accounts != []) || silent1(accounts[0]) == silent2(accounts[0])
    ensures AuthenticateFullFlow(accounts, storedRefresh, silent1, initiate, poll, svc, str_) ==
            AuthenticateFullFlow(accounts, storedRefresh, silent2, initiate, poll, svc, str_)
  {
  }

  /** Once the silent token is used, the device-code flow is never started:
      its answers do not affect the outcome. */
  lemma DeviceFlowUnusedAfterSilent(
    accounts: seq<string>, storedRefresh: Option<string>,
    silent: string -> Option<map<string, string>>,
    initiate1: Result<map<string, string>, Error>, initiate2: Result<map<string, string>, Error>,
    poll1: map<string, string> -> Result<map<string, string>, Error>,
    poll2: map<string, string> -> Result<map<string, string>, Error>,
    svc: Services, str_: Error -> string)
    requires Truthy(storedRefresh) && accounts != [] && SilentUsable(silent(accounts[0]))
    ensures AuthenticateFullFlow(accounts, storedRefresh, silent, initiate1, poll1, svc, str_) ==
            AuthenticateFullFlow(accounts, storedRefresh, silent, initiate2, poll2, svc, str_)
  {
  }
}
