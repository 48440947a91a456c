/**
 The cookie jar of the Service Worker as values: records, the parser's decisions, expiry, and
 what a lookup answers. Times are milliseconds; every reading of the clock is a parameter.
 */
module CookieStore {
  import opened Prelude
  import opened Domains

  const SESSION_TTL_MS := 7 * 24 * 60 * 60 * 1000

  datatype Cookie = Cookie(
    name: string, value: string,
    domain: string, hostOnly: bool, path: string,
    secure: bool, httpOnly: bool, sameSite: string,
    expires: Option<int>, maxAge: Option<int>,
    creation: int, session: bool)

  datatype Key = Key(name: string, domain: string, path: string)

  function KeyOf(r: Cookie): Key {
    Key(r.name, r.domain, r.path)
  }

  // ----- URLs and Set-Cookie lines -----

  /** A parsed URL; `None` stands for text the URL constructor rejects. */
  datatype Url = Url(scheme: string, hostname: string, pathname: string)

  datatype Attribute =
    | DomainAttr(text: string)
    | PathAttr(text: string)
    | ExpiresAttr(at: Option<int>)
    | MaxAgeAttr(seconds: Option<int>)
    | SecureAttr
    | HttpOnlyAttr
    | SameSiteAttr(text: string)
    | OtherAttr

  datatype CookieLine = CookieLine(name: string, value: string, attrs: seq<Attribute>)

  predicate Loopback(h: string) {
    var ls := Split(h);
    || h == "localhost" || EndsWith(h, ".localhost") || h == "[::1]"
    || (|ls| == 4 && ls[0] == "127" && forall i :: 1 <= i < 4 ==> Digits(ls[i]) && |ls[i]| <= 3)
  }

  predicate SecureForCookies(u: Url) {
    u.scheme == "https" || u.scheme == "wss" || Loopback(CanonHost(u.hostname))
  }

  function LastSlash(p: string): (i: int)
    ensures -1 <= i < |p|
    ensures i >= 0 ==> p[i] == '/'
    ensures forall j :: i < j < |p| ==> p[j] != '/'
  {
    if p == "" then -1
    else if p[|p| - 1] == '/' then |p| - 1
    else LastSlash(p[..|p| - 1])
  }

  function DefaultPath(u: Url): string {
    var p := if u.pathname == "" then "/" else u.pathname;
    if p[0] != '/' then "/"
    else
      var i := LastSlash(p);
      if i <= 0 then "/" else p[..i]
  }

  predicate PathMatch(reqPath: string, cookiePath: string) {
    var c := if cookiePath == "" then "/" else cookiePath;
    reqPath == c || (c <= reqPath && (c[|c| - 1] == '/' || (|reqPath| > |c| && reqPath[|c|] == '/')))
  }

  predicate ValidName(name: string) {
    name != "" && '=' !in name && ';' !in name && '\r' !in name && '\n' !in name
  }

  /** The Domain attribute with a leading dot removed, in canonical form. */
  function AttrDomain(text: string): string {
    CanonHost(if |text| > 0 && text[0] == '.' then text[1..] else text)
  }

  predicate TakesDomain(host: string, a: Attribute) {
    a.DomainAttr? && a.text != "" && AcceptsDomain(host, AttrDomain(a.text))
  }

  function ApplyAttribute(host: string, r: Cookie, a: Attribute): Cookie {
    match a
    case DomainAttr(v) => if TakesDomain(host, a) then r.(domain := AttrDomain(v), hostOnly := false) else r
    case PathAttr(v) => if v != "" && v[0] == '/' then r.(path := v) else r
    case ExpiresAttr(t) => if t.Some? then r.(expires := t) else r
    case MaxAgeAttr(n) => if n.Some? then r.(maxAge := n) else r
    case SecureAttr => r.(secure := true)
    case HttpOnlyAttr => r.(httpOnly := true)
    case SameSiteAttr(v) => r.(sameSite := Lower(v))
    case OtherAttr => r
  }

  function ApplyAttributes(host: string, r: Cookie, attrs: seq<Attribute>): Cookie {
    if attrs == [] then r
    else ApplyAttribute(host, ApplyAttributes(host, r, attrs[..|attrs| - 1]), attrs[|attrs| - 1])
  }

  function FreshRecord(u: Url, line: CookieLine, now: int): Cookie {
    Cookie(line.name, line.value, CanonHost(u.hostname), true, DefaultPath(u),
           false, false, "", None, None, now, false)
  }

  function Parse(url: Option<Url>, line: CookieLine, now: int): Option<Cookie> {
    if url.None? || !ValidName(line.name) then None
    else Some(ApplyAttributes(CanonHost(url.value.hostname), FreshRecord(url.value, line, now), line.attrs))
  }

  /** A record's domain is the setting host, or a Domain attribute that host may use. */
  ghost predicate DomainFrom(host: string, r: Cookie) {
    if r.hostOnly then r.domain == host else AcceptsDomain(host, r.domain)
  }

  /** The attribute that decides the domain: the last one the host may use, if any. */
  function LastTaken(host: string, attrs: seq<Attribute>): Option<string> {
    if attrs == [] then None
    else if TakesDomain(host, attrs[|attrs| - 1]) then Some(AttrDomain(attrs[|attrs| - 1].text))
    else LastTaken(host, attrs[..|attrs| - 1])
  }

  lemma AttributeKeeps(host: string, r: Cookie, a: Attribute)
    ensures var r' := ApplyAttribute(host, r, a);
      && r'.name == r.name && r'.value == r.value && r'.creation == r.creation && r'.session == r.session
      && (if TakesDomain(host, a) then r'.domain == AttrDomain(a.text) && !r'.hostOnly
          else r'.domain == r.domain && r'.hostOnly == r.hostOnly)
  {
  }

  lemma {:induction false} AttributesKeep(host: string, r: Cookie, attrs: seq<Attribute>)
    requires r.domain == host && r.hostOnly
    ensures var a := ApplyAttributes(host, r, attrs); var t := LastTaken(host, attrs);
      && a.name == r.name && a.value == r.value && a.creation == r.creation && a.session == r.session
      && a.hostOnly == t.None?
      && a.domain == (if t.Some? then t.value else host)
  {
    if attrs != [] {
      AttributesKeep(host, r, attrs[..|attrs| - 1]);
      AttributeKeeps(host, ApplyAttributes(host, r, attrs[..|attrs| - 1]), attrs[|attrs| - 1]);
    }
  }

  lemma {:induction false} LastTakenAccepted(host: string, attrs: seq<Attribute>)
    ensures LastTaken(host, attrs).Some? ==> AcceptsDomain(host, LastTaken(host, attrs).value)
  {
    if attrs != [] && !TakesDomain(host, attrs[|attrs| - 1]) {
      LastTakenAccepted(host, attrs[..|attrs| - 1]);
    }
  }

  /** What the parser guarantees about domain, name and creation, whatever the attributes say. */
  lemma ParseDomain(url: Option<Url>, line: CookieLine, now: int)
    ensures var p := Parse(url, line, now);
      && (p.Some? <==> url.Some? && ValidName(line.name))
      && (p.Some? ==>
            var host := CanonHost(url.value.hostname);
            && DomainFrom(host, p.value)
            && p.value.hostOnly == LastTaken(host, line.attrs).None?
            && p.value.name == line.name && p.value.value == line.value
            && p.value.creation == now && !p.value.session)
  {
    if url.Some? {
      LastTakenAccepted(CanonHost(url.value.hostname), line.attrs);
      AttributesKeep(CanonHost(url.value.hostname), FreshRecord(url.value, line, now), line.attrs);
    }
  }

  // ----- expiry -----

  predicate Expired(r: Cookie, now: int) {
    if r.maxAge.Some? then r.maxAge.value <= 0 || r.creation + r.maxAge.value * 1000 < now
    else r.expires.Some? && r.expires.value < now
  }

  /** The stricter test applied to records coming back from storage. */
  predicate Stale(r: Cookie, now: int) {
    if r.maxAge.Some? then r.maxAge.value <= 0 || r.creation + r.maxAge.value * 1000 <= now
    else r.expires.Some? && r.expires.value <= now
  }

  function Unexpired(now: int): Cookie -> bool {
    r => !Expired(r, now)
  }

  function Fresh(now: int): Cookie -> bool {
    r => !Stale(r, now)
  }

  lemma ExpiryIsMonotone(r: Cookie, t: int, t': int)
    requires t <= t' && Expired(r, t)
    ensures Expired(r, t')
  {
  }

  // ----- lookups -----

  datatype Query = Query(host: string, path: string, secure: bool, includeHttpOnly: bool, crossSite: bool)

  function QueryFor(u: Url, includeHttpOnly: bool, crossSite: bool): Query {
    Query(CanonHost(u.hostname), if u.pathname == "" then "/" else u.pathname,
          SecureForCookies(u), includeHttpOnly, crossSite)
  }

  predicate Matches(q: Query, r: Cookie) {
    && (q.includeHttpOnly || !r.httpOnly)
    && (q.crossSite ==> r.sameSite == "none")
    && DomainMatch(q.host, r.domain, r.hostOnly)
    && PathMatch(q.path, r.path)
    && (r.secure ==> q.secure)
  }

  function Selects(q: Query, now: int): Cookie -> bool {
    r => !Expired(r, now) && Matches(q, r)
  }

  /** Header order: the longer path first, then the older cookie. */
  predicate Before(a: Cookie, b: Cookie) {
    Units(a.path) > Units(b.path) || (Units(a.path) == Units(b.path) && a.creation < b.creation)
  }

  function InsertSorted(x: Cookie, s: seq<Cookie>): seq<Cookie> {
    if s == [] || !Before(s[0], x) then [x] + s else [s[0]] + InsertSorted(x, s[1..])
  }

  /** A stable sort, as Array.prototype.sort is. */
  function HeaderSort(s: seq<Cookie>): seq<Cookie> {
    if s == [] then [] else InsertSorted(s[0], HeaderSort(s[1..]))
  }

  function Answer(records: seq<Cookie>, q: Query, now: int): seq<Cookie> {
    HeaderSort(Reverse(Filter(records, Selects(q, now))))
  }

  ghost predicate InHeaderOrder(s: seq<Cookie>) {
    forall i, j :: 0 <= i < j < |s| ==> !Before(s[j], s[i])
  }

  function Ranked(len: nat, creation: int): Cookie -> bool {
    (r: Cookie) => Units(r.path) == len && r.creation == creation
  }

  lemma {:induction false} InsertSortedMultiset(x: Cookie, s: seq<Cookie>)
    ensures multiset(InsertSorted(x, s)) == multiset([x] + s)
  {
    if s != [] && Before(s[0], x) {
      InsertSortedMultiset(x, s[1..]);
      assert s == [s[0]] + s[1..];
    }
  }

  lemma {:induction false} InsertSortedOrder(x: Cookie, s: seq<Cookie>)
    requires InHeaderOrder(s)
    ensures InHeaderOrder(InsertSorted(x, s))
  {
    if s != [] && Before(s[0], x) {
      var t := InsertSorted(x, s[1..]);
      InsertSortedOrder(x, s[1..]);
      InsertSortedMultiset(x, s[1..]);
      forall j | 0 <= j < |t| ensures !Before(t[j], s[0]) {
        assert t[j] in multiset(t);
        assert t[j] in [x] + s[1..];
      }
    }
  }

  lemma {:induction false} InsertSortedStable(x: Cookie, s: seq<Cookie>, rank: Cookie -> bool)
    requires forall a, b :: rank(a) && rank(b) ==> !Before(a, b)
    ensures Filter(InsertSorted(x, s), rank) == Filter([x] + s, rank)
  {
    if s != [] && Before(s[0], x) {
      InsertSortedStable(x, s[1..], rank);
      assert s == [s[0]] + s[1..];
      FilterCons(s[0], InsertSorted(x, s[1..]), rank);
      FilterCons(x, s[1..], rank);
      FilterCons(x, s, rank);
      FilterCons(s[0], s[1..], rank);
    }
  }

  /** Sorted, a permutation, and stable: cookies of one path length and creation keep their order. */
  lemma {:induction false} HeaderSortProperties(s: seq<Cookie>, len: nat, creation: int)
    ensures InHeaderOrder(HeaderSort(s))
    ensures multiset(HeaderSort(s)) == multiset(s)
    ensures Filter(HeaderSort(s), Ranked(len, creation)) == Filter(s, Ranked(len, creation))
  {
    if s != [] {
      var rank, t := Ranked(len, creation), HeaderSort(s[1..]);
      HeaderSortProperties(s[1..], len, creation);
      InsertSortedOrder(s[0], t);
      InsertSortedMultiset(s[0], t);
      InsertSortedStable(s[0], t, rank);
      assert s == [s[0]] + s[1..];
      FilterCons(s[0], t, rank);
      FilterCons(s[0], s[1..], rank);
    }
  }
}
