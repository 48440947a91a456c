/**
 Host names as the Service Worker handles them: canonical form, dot-separated
 labels, the registrable domain of a host, and the rule that decides whether a
 cookie's Domain attribute may widen the cookie beyond the host that set it.
 */
module Domains {

  const SECOND_LEVEL_SUFFIX: set<string> := {
    "co", "ne", "or", "ac", "go", "re", "pe", "kg", "seoul", "busan",
    "com", "net", "org", "gov", "edu", "mil", "int", "info", "biz", "nom"
  }

  function LowerChar(c: char): char {
    if 'A' <= c <= 'Z' then c - 'A' + 'a' else c
  }

  function Lower(s: string): string {
    seq(|s|, i requires 0 <= i < |s| => LowerChar(s[i]))
  }

  /** Removes one trailing dot, as the pattern `\.$` does. */
  function StripDot(s: string): string {
    if |s| > 0 && s[|s| - 1] == '.' then s[..|s| - 1] else s
  }

  function CanonHost(h: string): string {
    StripDot(Lower(h))
  }

  // ----- labels -----

  function Split(s: string): (ls: seq<string>)
    ensures |ls| >= 1
  {
    if s == "" then [""]
    else
      var rest := Split(s[1..]);
      if s[0] == '.' then [""] + rest else [[s[0]] + rest[0]] + rest[1..]
  }

  function Join(ls: seq<string>): string
    requires |ls| >= 1
  {
    if |ls| == 1 then ls[0] else ls[0] + "." + Join(ls[1..])
  }

  ghost predicate DotFree(ls: seq<string>) {
    forall i :: 0 <= i < |ls| ==> '.' !in ls[i]
  }

  lemma {:induction false} JoinSplit(s: string)
    ensures Join(Split(s)) == s
    ensures DotFree(Split(s))
  {
    if s != "" {
      JoinSplit(s[1..]);
    }
  }

  lemma {:induction false} SplitLabel(l: string)
    requires '.' !in l
    ensures Split(l) == [l]
  {
    if l != "" {
      SplitLabel(l[1..]);
      assert [l[0]] + l[1..] == l;
    }
  }

  /** Splitting turns a dot into a boundary between label lists. */
  lemma {:induction false} SplitConcat(a: string, b: string)
    ensures Split(a + "." + b) == Split(a) + Split(b)
  {
    var s := a + "." + b;
    if a == "" {
      assert s[1..] == b;
    } else {
      SplitConcat(a[1..], b);
      assert s[1..] == a[1..] + "." + b;
      FirstLabel(a[0], Split(a[1..]), Split(b));
    }
  }

  /** What a character in front does to the labels concerns the first label list only. */
  lemma FirstLabel(c: char, ls: seq<string>, more: seq<string>)
    requires |ls| >= 1
    ensures [""] + (ls + more) == ([""] + ls) + more
    ensures [[c] + (ls + more)[0]] + (ls + more)[1..] == ([[c] + ls[0]] + ls[1..]) + more
  {
    assert (ls + more)[1..] == ls[1..] + more;
  }

  lemma {:induction false} SplitJoin(ls: seq<string>)
    requires |ls| >= 1 && DotFree(ls)
    ensures Split(Join(ls)) == ls
  {
    if |ls| == 1 {
      SplitLabel(ls[0]);
    } else {
      SplitConcat(ls[0], Join(ls[1..]));
      SplitLabel(ls[0]);
      SplitJoin(ls[1..]);
    }
  }

  function Last<T>(s: seq<T>): T
    requires |s| >= 1
  {
    s[|s| - 1]
  }

  // ----- address literals -----

  predicate Digits(s: string) {
    |s| > 0 && forall i :: 0 <= i < |s| ==> '0' <= s[i] <= '9'
  }

  /** Matches `^\d+(\.\d+)*$`. */
  predicate NumericName(h: string) {
    var ls := Split(h);
    forall i :: 0 <= i < |ls| ==> Digits(ls[i])
  }

  /** What `registrableDomain` and `isPublicSuffixDomain` treat as an IP address. */
  predicate IsAddress(host: string) {
    var h := CanonHost(host);
    NumericName(h) || ':' in h
  }

  // ----- registrable domain -----

  predicate CountrySuffix(tld: string, sld: string) {
    |tld| == 2 && sld in SECOND_LEVEL_SUFFIX
  }

  /** How many trailing labels make the registrable domain of a name of three or more labels. */
  function SiteLabels(ls: seq<string>): (n: nat)
    requires |ls| >= 2
    ensures n == 2 || n == 3
  {
    if CountrySuffix(ls[|ls| - 1], ls[|ls| - 2]) then 3 else 2
  }

  function RegistrableDomain(host: string): string {
    var h := CanonHost(host);
    if h == "" || NumericName(h) || ':' in h then h
    else
      var parts := Split(h);
      if |parts| <= 2 then h
      else Join(parts[|parts| - SiteLabels(parts)..])
  }

  predicate IsPublicSuffixDomain(dom: string) {
    var d := CanonHost(dom);
    if d == "" then true
    else if NumericName(d) || ':' in d then false
    else
      var parts := Split(d);
      if |parts| < 2 then true
      else if |parts| == 2 && CountrySuffix(parts[1], parts[0]) then true
      else RegistrableDomain(d) != d
  }

  predicate EndsWith(s: string, suffix: string) {
    |suffix| <= |s| && s[|s| - |suffix|..] == suffix
  }

  predicate DomainMatch(host: string, domain: string, hostOnly: bool) {
    if domain == "" then false
    else if hostOnly then host == domain
    else host == domain || EndsWith(host, "." + domain)
  }

  /** The test a Domain attribute must pass to replace the setting host. */
  predicate AcceptsDomain(host: string, dom: string) {
    dom != "" && !IsPublicSuffixDomain(dom) && DomainMatch(host, dom, false)
  }

  // ----- lemmas -----

  lemma LowerConcat(a: string, b: string)
    ensures Lower(a + b) == Lower(a) + Lower(b)
  {
  }

  lemma LowerIdempotent(s: string)
    ensures Lower(Lower(s)) == Lower(s)
  {
  }

  lemma {:induction false} JoinLength(ls: seq<string>, k: nat)
    requires k < |ls|
    ensures |Join(ls[k..])| <= |Join(ls)|
  {
    if k > 0 {
      JoinLength(ls[1..], k - 1);
      assert ls[1..][k - 1..] == ls[k..];
    }
  }

  /** The registrable domain never outgrows the canonical host. */
  lemma RegistrableDomainLength(host: string)
    ensures |RegistrableDomain(host)| <= |CanonHost(host)|
  {
    var h := CanonHost(host);
    var parts := Split(h);
    if |parts| > 2 {
      JoinSplit(h);
      JoinLength(parts, |parts| - SiteLabels(parts));
    }
  }

  /** A name that passes for registrable has no second trailing dot. */
  lemma AcceptedIsCanonical(dom: string)
    requires !IsPublicSuffixDomain(dom) && !IsAddress(dom)
    ensures CanonHost(CanonHost(dom)) == CanonHost(dom)
  {
    RegistrableDomainLength(CanonHost(dom));
    LowerIdempotent(dom);
  }

  /**
   What the public-suffix rule lets through: addresses, and names that are canonical and are their own
   registrable domain, that is, have two labels, or three under a country suffix.
   */
  lemma AcceptedDomainShape(dom: string)
    ensures var d := CanonHost(dom); var ls := Split(d);
      && (!IsPublicSuffixDomain(dom) <==>
            IsAddress(dom) || (CanonHost(d) == d && |ls| >= 2 && |ls| == SiteLabels(ls)))
      && (!IsPublicSuffixDomain(dom) && !IsAddress(dom) ==> RegistrableDomain(dom) == d)
  {
    var d := CanonHost(dom);
    var ls := Split(d);
    JoinSplit(d);
    if !IsPublicSuffixDomain(dom) && !IsAddress(dom) {
      AcceptedIsCanonical(dom);
    }
    if |ls| > 2 {
      SplitJoin(ls[|ls| - SiteLabels(ls)..]);
      assert |ls| == SiteLabels(ls) ==> ls[0..] == ls;
    }
  }

  lemma MatchedHostTail(host: string, dom: string)
    requires dom != "" && EndsWith(host, "." + dom)
    ensures CanonHost(host) == Lower(host[..|host| - |dom| - 1]) + "." + CanonHost(dom)
    ensures Split(CanonHost(host)) == Split(Lower(host[..|host| - |dom| - 1])) + Split(CanonHost(dom))
  {
    var pre := host[..|host| - |dom| - 1];
    assert host == pre + "." + dom;
    LowerConcat(pre + ".", dom);
    LowerConcat(pre, ".");
    assert Lower(host) == Lower(pre) + "." + Lower(dom);
    SplitConcat(Lower(pre), CanonHost(dom));
  }

  lemma TailSite(s: string, pre: seq<string>, d: string)
    requires Split(s) == pre + Split(d) && |pre| >= 1
    requires |Split(d)| >= 2 && |Split(d)| == SiteLabels(Split(d))
    ensures var ls := Split(s); |ls| > 2 && Join(ls[|ls| - SiteLabels(ls)..]) == d
  {
    var ls, dl := Split(s), Split(d);
    assert ls[|ls| - 1] == dl[|dl| - 1] && ls[|ls| - 2] == dl[|dl| - 2];
    assert ls[|ls| - |dl|..] == dl;
    JoinSplit(d);
  }

  lemma TailNotNumeric(s: string, pre: seq<string>, d: string)
    requires Split(s) == pre + Split(d) && !NumericName(d)
    ensures !NumericName(s)
  {
    var k :| 0 <= k < |Split(d)| && !Digits(Split(d)[k]);
    assert Split(s)[|pre| + k] == Split(d)[k];
  }

  /** Every host an accepted Domain reaches has that Domain as its registrable domain. */
  lemma MatchedHostSite(host: string, dom: string)
    requires dom != "" && !IsPublicSuffixDomain(dom) && DomainMatch(host, dom, false)
    requires !IsAddress(dom) && ':' !in host
    ensures RegistrableDomain(host) == CanonHost(dom)
  {
    AcceptedDomainShape(dom);
    if host != dom {
      MatchedHostTail(host, dom);
      var pre := Split(Lower(host[..|host| - |dom| - 1]));
      TailSite(CanonHost(host), pre, CanonHost(dom));
      TailNotNumeric(CanonHost(host), pre, CanonHost(dom));
      NoColon(host);
    }
  }

  lemma NoColon(host: string)
    requires ':' !in host
    ensures ':' !in CanonHost(host)
  {
    assert forall i :: 0 <= i < |host| ==> Lower(host)[i] == LowerChar(host[i]);
  }

  // ----- the hosts a URL can have -----

  /** A number from 0 to 255 as the URL serialiser writes it. */
  predicate ByteLabel(s: string) {
    && Digits(s) && |s| <= 3 && (|s| > 1 ==> s[0] != '0')
    && (|s| == 3 ==> (s[0] - '0') as int * 100 + (s[1] - '0') as int * 10 + (s[2] - '0') as int <= 255)
  }

  /** An IPv4 address. */
  predicate DottedQuad(h: string) {
    var ls := Split(h);
    |ls| == 4 && forall i :: 0 <= i < 4 ==> ByteLabel(ls[i])
  }

  /** An IPv6 address. */
  predicate Bracketed(h: string) {
    |h| >= 2 && h[0] == '[' && h[|h| - 1] == ']' && ':' in h && '.' !in h
  }

  /** A name: the URL parser makes an address of every host whose last label is a number, or rejects it. */
  predicate HostName(h: string) {
    Lower(h) == h && ':' !in h && '[' !in h && ']' !in h && !Digits(Last(Split(h)))
  }

  /** A canonical host that can come out of the URL parser. */
  predicate UrlHost(h: string) {
    DottedQuad(h) || Bracketed(h) || HostName(h)
  }

  lemma {:induction false} CharOfLabel(ls: seq<string>, c: char)
    requires |ls| >= 1 && c in Join(ls) && c != '.'
    ensures exists i :: 0 <= i < |ls| && c in ls[i]
  {
    if |ls| > 1 && c !in ls[0] {
      CharOfLabel(ls[1..], c);
      var i :| 0 <= i < |ls[1..]| && c in ls[1..][i];
      assert c in ls[i + 1];
    }
  }

  lemma QuadChars(h: string, c: char)
    requires DottedQuad(h) && c in h
    ensures c == '.' || '0' <= c <= '9'
  {
    JoinSplit(h);
    if c != '.' {
      CharOfLabel(Split(h), c);
    }
  }

  /** An IPv4 address is canonical, its last label is a number, and it is a site of its own. */
  lemma QuadShape(h: string)
    requires DottedQuad(h)
    ensures Lower(h) == h && CanonHost(h) == h && ':' !in h && '[' !in h && ']' !in h
    ensures NumericLastLabel(h) && RegistrableDomain(h) == h
  {
    forall c | c in h ensures c == '.' || '0' <= c <= '9' {
      QuadChars(h, c);
    }
    assert forall i :: 0 <= i < |h| ==> h[i] in h;
    assert Lower(h) == h;
    LastLabelIsSuffix(h);
    assert Digits(Split(h)[3]);
  }

  // ----- exactly which hosts keep their cookies on their own site -----

  predicate NumericLastLabel(host: string) {
    Digits(Last(Split(CanonHost(host))))
  }

  /** Whatever Domain the host is allowed, the cookie reaches only hosts of the same registrable domain. */
  ghost predicate Contained(host: string) {
    forall dom, other ::
      AcceptsDomain(host, dom) && UrlHost(other) && DomainMatch(other, dom, false)
      ==> RegistrableDomain(other) == RegistrableDomain(host)
  }

  lemma EndsWithHas(s: string, x: string, c: char)
    requires EndsWith(s, x) && c in x
    ensures c in s
  {
    assert x == s[|s| - |x|..];
  }

  /** A host and a Domain that matches it end alike. */
  lemma MatchEnds(host: string, dom: string)
    requires DomainMatch(host, dom, false)
    ensures host != "" && host[|host| - 1] == dom[|dom| - 1]
  {
    if host != dom {
      assert host[|host| - |dom| - 1..][|dom|] == ("." + dom)[|dom|];
    }
  }

  /** A cookie of a named host reaches no address in brackets. */
  lemma NamesReachNoBrackets(host: string, dom: string, other: string)
    requires HostName(host) && AcceptsDomain(host, dom) && Bracketed(other)
    ensures !DomainMatch(other, dom, false)
  {
    MatchEnds(host, dom);
    if DomainMatch(other, dom, false) {
      MatchEnds(other, dom);
    }
  }

  /** No host of a URL holds both a dot and a bracket. */
  lemma DotOrBracket(h: string)
    requires UrlHost(h) && '.' in h
    ensures ']' !in h
  {
    if DottedQuad(h) {
      QuadShape(h);
    }
  }

  /** A cookie of an address in brackets reaches that address only. */
  lemma BracketsReachThemselves(host: string, dom: string, other: string)
    requires Bracketed(host) && DomainMatch(host, dom, false) && UrlHost(other) && DomainMatch(other, dom, false)
    ensures other == host
  {
    MatchEnds(host, dom);
    if host != dom {
      EndsWithHas(host, "." + dom, '.');
    } else if other != dom {
      EndsWithHas(other, "." + dom, '.');
      EndsWithHas(other, "." + dom, ("." + dom)[|dom|]);
      DotOrBracket(other);
    }
  }

  lemma NonNumericHostIsContained(host: string)
    requires UrlHost(host) && !NumericLastLabel(host)
    ensures Contained(host)
  {
    forall dom, other | AcceptsDomain(host, dom) && UrlHost(other) && DomainMatch(other, dom, false)
      ensures RegistrableDomain(other) == RegistrableDomain(host)
    {
      if Bracketed(host) {
        BracketsReachThemselves(host, dom, other);
      } else if DottedQuad(host) {
        QuadShape(host);
      } else {
        NameReachesItsSite(host, dom, other);
      }
    }
  }

  lemma NameReachesItsSite(host: string, dom: string, other: string)
    requires HostName(host) && !NumericLastLabel(host)
    requires AcceptsDomain(host, dom) && UrlHost(other) && DomainMatch(other, dom, false)
    ensures RegistrableDomain(other) == RegistrableDomain(host)
  {
    AcceptedDomainIsName(host, dom);
    if Bracketed(other) {
      NamesReachNoBrackets(host, dom, other);
    } else if DottedQuad(other) {
      QuadShape(other);
    }
    MatchedHostSite(host, dom);
    MatchedHostSite(other, dom);
  }

  lemma AcceptedDomainIsName(host: string, dom: string)
    requires ':' !in host && !NumericLastLabel(host) && AcceptsDomain(host, dom)
    ensures !IsAddress(dom)
  {
    assert ':' !in dom by {
      if host != dom {
        assert dom == host[|host| - |dom|..];
      }
    }
    NoColon(dom);
    if host != dom {
      MatchedHostTail(host, dom);
    }
    assert Last(Split(CanonHost(host))) == Last(Split(CanonHost(dom)));
  }

  lemma EndsWithTail(s: string, x: string)
    requires |s| >= 1 && EndsWith(s[1..], x)
    ensures EndsWith(s, x)
  {
    assert s[|s| - |x|..] == s[1..][|s| - 1 - |x|..];
  }

  lemma {:induction false} LastLabelIsSuffix(s: string)
    ensures s == Last(Split(s)) || EndsWith(s, "." + Last(Split(s)))
  {
    if s != "" {
      LastLabelIsSuffix(s[1..]);
      JoinSplit(s[1..]);
      var rest := Split(s[1..]);
      if |rest| == 1 {
        assert s == [s[0]] + rest[0];
      } else {
        assert Last(Split(s)) == Last(rest);
        EndsWithTail(s, "." + Last(rest));
      }
    }
  }

  lemma NumericLabel(l: string)
    requires Digits(l)
    ensures '.' !in l && ':' !in l && Lower(l) == l && Split(l) == [l]
    ensures NumericName(l)
  {
    SplitLabel(l);
  }

  /** A numeric label, with or without the trailing dot, as a Domain attribute. */
  lemma NumericDomain(l: string, dom: string)
    requires Digits(l) && (dom == l || dom == l + ".")
    ensures CanonHost(dom) == l && !IsPublicSuffixDomain(dom)
  {
    NumericLabel(l);
    LowerConcat(l, ".");
  }

  lemma TwoLabelSite(first: char, l: string)
    requires first == 'x' || first == 'y'
    requires Digits(l)
    ensures !NumericName([first] + "." + l)
    ensures |Split([first] + "." + l)| == 2
    ensures ':' !in [first] + "." + l
  {
    NumericLabel(l);
    SplitConcat([first], l);
    SplitLabel([first]);
    assert !Digits(Split([first] + "." + l)[0]);
  }

  lemma NumericDomainReaches(first: char, l: string, dom: string)
    requires first == 'x' || first == 'y'
    requires Digits(l) && (dom == l || dom == l + ".")
    ensures var other := [first] + "." + dom;
      && DomainMatch(other, dom, false) && ':' !in other
      && RegistrableDomain(other) == [first] + "." + l
  {
    var other := [first] + "." + dom;
    assert other[|other| - |dom| - 1..] == "." + dom;
    MatchedHostTail(other, dom);
    assert other[..|other| - |dom| - 1] == [first];
    assert Lower([first]) == [first];
    NumericDomain(l, dom);
    TwoLabelSite(first, l);
  }

  lemma EndsWithDot(s: string, x: string)
    requires EndsWith(s, x)
    ensures EndsWith(s + ".", x + ".")
  {
    assert (s + ".")[|s| - |x|..] == s[|s| - |x|..] + ".";
  }

  lemma NumericLastLabelAccepted(host: string) returns (dom: string)
    requires Lower(host) == host && NumericLastLabel(host)
    ensures AcceptsDomain(host, dom)
    ensures var l := Last(Split(CanonHost(host))); Digits(l) && (dom == l || dom == l + ".")
  {
    var s := CanonHost(host);
    var l := Last(Split(s));
    LastLabelIsSuffix(s);
    dom := if s == host then l else l + ".";
    NumericDomain(l, dom);
    if s != host {
      assert host == s + ".";
      if s != l {
        EndsWithDot(s, "." + l);
        assert ("." + l) + "." == "." + dom;
      }
    }
  }

  /** The address with another first number. */
  lemma OtherQuad(h: string) returns (other: string)
    requires DottedQuad(h)
    ensures DottedQuad(other) && other != h && Last(Split(other)) == Last(Split(h))
    ensures DomainMatch(other, Last(Split(h)), false)
  {
    var ls := Split(h);
    JoinSplit(h);
    var ls' := [if ls[0] == "1" then "2" else "1"] + ls[1..];
    assert '.' !in ls'[0];
    other := Join(ls');
    SplitJoin(ls');
    LastLabelIsSuffix(other);
  }

  /** The last number of an IPv4 address is an accepted Domain and reaches every address that ends in it. */
  lemma QuadIsNotContained(host: string)
    requires DottedQuad(host)
    ensures !Contained(host)
  {
    var other := OtherQuad(host);
    QuadShape(host);
    QuadShape(other);
    var dom := NumericLastLabelAccepted(host);
    MatchEnds(host, dom);
    assert host[|host| - 1] != '.';
    assert dom == Last(Split(host));
  }

  lemma EndsInDot(first: char, l: string)
    requires first == 'x' || first == 'y'
    requires Digits(l)
    ensures HostName([first] + "." + (l + "."))
  {
    var h := [first] + "." + (l + ".");
    assert h == ([first] + "." + l) + "." + "";
    SplitConcat([first] + "." + l, "");
    assert Lower(h) == h;
  }

  /** A name that ends in a number and two dots keeps one of them; its last label, dot included, reaches other sites. */
  lemma NumericNameIsNotContained(host: string)
    requires HostName(host) && NumericLastLabel(host)
    ensures !Contained(host)
  {
    var dom := NumericLastLabelAccepted(host);
    var l := Last(Split(CanonHost(host)));
    assert CanonHost(host) != host;
    MatchEnds(host, dom);
    assert dom == l + ".";
    EndsInDot('x', l);
    EndsInDot('y', l);
    NumericDomainReaches('x', l, dom);
    NumericDomainReaches('y', l, dom);
    assert ("x" + "." + l)[0] != ("y" + "." + l)[0];
  }

  /** For every host a URL can have, site containment holds exactly when its last label is not a number. */
  lemma ContainedIffNonNumeric(host: string)
    requires UrlHost(host)
    ensures Contained(host) <==> !NumericLastLabel(host)
  {
    if !NumericLastLabel(host) {
      NonNumericHostIsContained(host);
    } else if DottedQuad(host) {
      QuadIsNotContained(host);
    } else if HostName(host) {
      NumericNameIsNotContained(host);
    } else {
      BracketedIsNoNumber(host);
    }
  }

  lemma BracketedIsNoNumber(h: string)
    requires Bracketed(h)
    ensures !NumericLastLabel(h)
  {
    var c := CanonHost(h);
    assert Lower(h)[|h| - 1] == ']';
    assert c == Lower(h);
    assert forall i :: 0 <= i < |h| ==> Lower(h)[i] == LowerChar(h[i]);
    assert '.' !in c;
    SplitLabel(c);
  }
}
