/**
 One request of the Service Worker's transport: its options, the CORS rules of the Fetch
 Standard as web/sw.js applies them, and the decision taken on each upstream response.
 */
module Fetch {
  import opened Octets
  import opened Prelude
  import Domains

  /** Serialised origins and canonical URLs contain no line break. */
  type Line = s: string | '\n' !in s witness ""

  datatype Url = Url(origin: Line, href: Line)

  datatype Mode = Cors | NoCors | SameOrigin | Navigate
  datatype Credentials = Include | SameOriginOnly | Omit
  datatype RedirectMode = Follow | RejectRedirect | Manual

  /** Request headers by lower-case name. */
  type Headers = map<string, string>

  datatype Opt = Opt(
    tabId: string, origin: Line,
    runtimeFetch: bool, elementCors: bool, document: bool,
    mode: Mode, credentials: Credentials, redirect: RedirectMode,
    verb: string, body: Option<Bytes>, headers: Headers, implicitHeaders: set<string>,
    redirectDepth: nat, tainted: bool, originTainted: bool, criticalRestart: bool)

  datatype Location = NoLocation | Unresolvable | Target(url: Url, credentialed: bool)

  /** What the kernel hands back; list headers are given as their tokens. */
  datatype Reply =
    | NetworkFailure
    | Reply(status: nat, allowOrigin: Option<string>, allowCredentials: Option<string>,
            allowMethods: seq<string>, allowHeaders: seq<string>, maxAge: Option<nat>,
            location: Location, missingCriticalHints: bool)

  // ----- safelisted methods and headers -----

  predicate SafelistedMethod(m: string) {
    m == "GET" || m == "HEAD" || m == "POST"
  }

  predicate SafeHeaderValue(v: string) {
    |v| <= 128 && forall i :: 0 <= i < |v| ==>
      !(v[i] as int <= 8 || 10 <= v[i] as int <= 31 || v[i] as int == 127) && v[i] !in "\"():<>?@[\\]{}"
  }

  function BeforeSemicolon(v: string): string {
    if v == "" || v[0] == ';' then "" else [v[0]] + BeforeSemicolon(v[1..])
  }

  predicate Blank(c: char) {
    c == ' ' || c == '\t' || c == '\r' || c == '\n'
  }

  function Trim(v: string): string {
    if v == "" then ""
    else if Blank(v[0]) then Trim(v[1..])
    else if Blank(v[|v| - 1]) then Trim(v[..|v| - 1])
    else v
  }

  predicate FormContentType(v: string) {
    var essence := Domains.Lower(Trim(BeforeSemicolon(v)));
    essence == "application/x-www-form-urlencoded" || essence == "multipart/form-data" || essence == "text/plain"
  }

  /** Matches `^bytes=\d+-\d*$`. */
  predicate SimpleRange(v: string) {
    "bytes=" <= v && exists i :: 6 < i < |v| && v[i] == '-' && Domains.Digits(v[6..i])
                                 && (i + 1 < |v| ==> Domains.Digits(v[i + 1..]))
  }

  predicate SafeHeader(name: string, value: string) {
    if name == "accept" || name == "accept-language" || name == "content-language" then SafeHeaderValue(value)
    else if name == "content-type" then SafeHeaderValue(value) && FormContentType(value)
    else name == "range" && SimpleRange(value)
  }

  function UnsafeNames(o: Opt): set<string> {
    set n | n in o.headers && n !in o.implicitHeaders && !SafeHeader(n, o.headers[n])
  }

  // ----- the CORS check and the preflight rule -----

  predicate CorsMode(o: Opt) {
    (o.runtimeFetch || o.elementCors) && o.mode.Cors?
  }

  function RequestOrigin(o: Opt): Line {
    if o.originTainted then "null" else o.origin
  }

  predicate WithCredentials(o: Opt) {
    o.credentials.Include?
  }

  predicate CorsCheck(r: Reply, origin: string, credentials: bool)
    requires r.Reply?
  {
    && r.allowOrigin.Some?
    && ((!credentials && r.allowOrigin.value == "*")
        || (r.allowOrigin.value == origin && (credentials ==> r.allowCredentials == Some("true"))))
  }

  /** Methods and headers a preflight response grants, and until when. */
  datatype Entry = Entry(methods: seq<string>, headers: seq<string>, expires: int)

  predicate Grants(list: seq<string>, item: string, credentials: bool) {
    item in list || (!credentials && "*" in list)
  }

  predicate PreflightAllows(e: Entry, verb: string, names: set<string>, credentials: bool) {
    && (SafelistedMethod(verb) || Grants(e.methods, verb, credentials))
    && (forall n :: n in names ==> Grants(e.headers, n, credentials))
  }

  predicate NeedsPreflight(o: Opt) {
    CorsMode(o) && o.tainted && !o.elementCors && (!SafelistedMethod(o.verb) || UnsafeNames(o) != {})
  }

  // ----- the decision on a response -----

  datatype Outcome =
    | NetworkError
    | ErrorPage
    | Stubbed
    | OpaqueRedirect
    | Delivered

  datatype Action =
    | Finish(outcome: Outcome)
    | Reissue
    | Redirect(next: Url, opt: Opt)

  const CONTENT_HEADERS: set<string> := {
    "content-encoding", "content-language", "content-location", "content-type", "content-length"
  }

  const MAX_REDIRECTS := 20

  function RedirectMethod(status: nat, verb: string): string {
    if (status == 301 || status == 302) && verb == "POST" then "GET"
    else if status == 303 && verb != "GET" && verb != "HEAD" then "GET"
    else verb
  }

  predicate RedirectStatus(status: nat) {
    status in {301, 302, 303, 307, 308}
  }

  predicate Redirecting(r: Reply)
    requires r.Reply?
  {
    RedirectStatus(r.status) && !r.location.NoLocation?
  }

  /** Leaving a foreign origin for another one makes the request's own origin opaque. */
  predicate TaintsOrigin(url: Url, o: Opt, next: Url) {
    CorsMode(o) && next.origin != url.origin && url.origin != o.origin
  }

  function RedirectHeaders(url: Url, o: Opt, next: Url, nextMethod: string): Headers {
    var h := if nextMethod != o.verb then o.headers - CONTENT_HEADERS else o.headers;
    if next.origin != url.origin then h - {"authorization"} else h
  }

  function RedirectOpt(url: Url, o: Opt, next: Url, status: nat): Opt {
    var m := RedirectMethod(status, o.verb);
    o.(verb := m, body := if m == o.verb then o.body else None,
       headers := RedirectHeaders(url, o, next, m),
       redirectDepth := o.redirectDepth + 1,
       originTainted := o.originTainted || TaintsOrigin(url, o, next))
  }

  function DecideRedirect(url: Url, o: Opt, r: Reply): Action
    requires r.Reply? && Redirecting(r)
  {
    if o.redirect.RejectRedirect? then Finish(NetworkError)
    else if o.redirect.Manual? then Finish(OpaqueRedirect)
    else if o.redirectDepth >= MAX_REDIRECTS then Finish(if o.runtimeFetch then NetworkError else ErrorPage)
    else if r.location.Unresolvable? then Finish(NetworkError)
    else if CorsMode(o) && r.location.url.origin != o.origin && r.location.credentialed then Finish(NetworkError)
    else Redirect(r.location.url, RedirectOpt(url, o, r.location.url, r.status))
  }

  function Decide(url: Url, o: Opt, r: Reply): Action {
    if r.NetworkFailure? then Finish(if o.runtimeFetch then NetworkError else ErrorPage)
    else if o.document && r.missingCriticalHints && !o.criticalRestart && !Redirecting(r) then Reissue
    else if CorsMode(o) && o.tainted && !CorsCheck(r, RequestOrigin(o), WithCredentials(o)) then Finish(NetworkError)
    else if Redirecting(r) then DecideRedirect(url, o, r)
    else Finish(Delivered)
  }

  /** A cors request to a foreign origin taints itself before anything is sent. */
  function TaintOn(url: Url, o: Opt): Opt {
    if CorsMode(o) && url.origin != o.origin then o.(tainted := true) else o
  }

  /** The options with which a response makes the transport continue, and where. */
  datatype Request = Request(url: Url, opt: Opt)

  function Continue(q: Request, r: Reply): Option<Request> {
    match Decide(q.url, q.opt, r)
    case Finish(_) => None
    case Reissue => Some(Request(q.url, TaintOn(q.url, q.opt.(criticalRestart := true))))
    case Redirect(next, o) => Some(Request(next, TaintOn(next, o)))
  }
}
