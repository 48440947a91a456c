/**
 Every run of a jar: Set-Cookie lines, lookups, snapshots to storage, merges of any earlier
 snapshot and restarts from one. What holds in each state a run can reach.
 */
module CookieRuns {
  import opened Prelude
  import opened Domains
  import opened CookieStore
  import opened CookieList

  datatype State = State(records: seq<Cookie>, saved: seq<seq<Cookie>>)

  datatype Op =
    | Set(url: Option<Url>, line: CookieLine, crossSite: bool, tParse: int, tStore: int)
    | Lookup(now: int)
    | Save(now: int)
    | MergeSaved(k: nat, now: int)
    | Restart(k: nat, now: int)

  const INITIAL := State([], [])

  /** The record a Set operation stores, if it stores one; its creation may be older. */
  function Stores(op: Op): Option<Cookie> {
    if !op.Set? then None
    else
      var p := Parse(op.url, op.line, op.tParse);
      if p.None? || (op.crossSite && p.value.sameSite != "none") || Deletes(p.value) then None
      else Some(BoundSession(p.value, op.tStore))
  }

  function Step(s: State, op: Op): State {
    match op
    case Set(url, line, crossSite, tParse, tStore) =>
      var p := Parse(url, line, tParse);
      if p.None? || (crossSite && p.value.sameSite != "none") then s
      else s.(records := SetRecord(s.records, p.value, tStore))
    case Lookup(now) => s.(records := Purge(s.records, now))
    case Save(now) => s.(saved := s.saved + [Snapshot(s.records, now)])
    case MergeSaved(k, now) =>
      if k < |s.saved| then s.(records := Merge(s.records, s.saved[k], now)) else s
    case Restart(k, now) =>
      if k < |s.saved| then s.(records := Load(s.saved[k], now)) else s
  }

  function Run(ops: seq<Op>): State {
    if ops == [] then INITIAL else Step(Run(ops[..|ops| - 1]), ops[|ops| - 1])
  }

  // ----- one record per key, in every reachable state -----

  ghost predicate Keyed(rs: seq<Cookie>) {
    KeyUnique(rs) && forall r :: r in rs ==> r.name != ""
  }

  ghost predicate Inv(s: State) {
    Keyed(s.records) && forall k :: 0 <= k < |s.saved| ==> Keyed(s.saved[k])
  }

  lemma SetKeepsNames(rs: seq<Cookie>, r: Cookie, now: int)
    requires Keyed(rs) && r.name != ""
    ensures Keyed(SetRecord(rs, r, now))
  {
    SetRefines(rs, r, now);
    if Deletes(r) {
      RemoveKeys(rs, KeyOf(r));
    }
  }

  lemma MergeKeepsNames(rs: seq<Cookie>, restored: seq<Cookie>, now: int)
    requires Keyed(rs)
    ensures Keyed(Merge(rs, restored, now))
  {
    MergeRefines(rs, restored, now);
    var merged := Merge(rs, restored, now);
    AbsMembers(merged);
    AbsMembers(rs);
  }

  lemma StepKeeps(s: State, op: Op)
    requires Inv(s)
    ensures Inv(Step(s, op))
  {
    match op
    case Set(url, line, crossSite, tParse, tStore) =>
      ParseDomain(url, line, tParse);
      var p := Parse(url, line, tParse);
      if p.Some? {
        SetKeepsNames(s.records, p.value, tStore);
      }
    case Lookup(now) => FilterKeyUnique(s.records, Unexpired(now));
    case Save(now) => FilterKeyUnique(s.records, Unexpired(now));
    case MergeSaved(k, now) =>
      if k < |s.saved| {
        MergeKeepsNames(s.records, s.saved[k], now);
      }
    case Restart(k, now) =>
      if k < |s.saved| {
        FilterKeyUnique(s.saved[k], Fresh(now));
      }
  }

  /** In every reachable state no two records share name, domain and path. */
  lemma {:induction false} RunsStayKeyed(ops: seq<Op>)
    ensures Inv(Run(ops))
  {
    if ops != [] {
      RunsStayKeyed(ops[..|ops| - 1]);
      StepKeeps(Run(ops[..|ops| - 1]), ops[|ops| - 1]);
    }
  }

  // ----- where every record comes from -----

  /** This is the record the operation stored, up to its creation time. */
  predicate StoredBy(op: Op, r: Cookie) {
    Stores(op).Some? && r == Stores(op).value.(creation := r.creation)
  }

  ghost predicate Stored(ops: seq<Op>, r: Cookie) {
    exists i :: 0 <= i < |ops| && StoredBy(ops[i], r)
  }

  ghost predicate AllStored(ops: seq<Op>, rs: seq<Cookie>) {
    forall r :: r in rs ==> Stored(ops, r)
  }

  lemma StoredExtends(ops: seq<Op>, op: Op, rs: seq<Cookie>)
    requires AllStored(ops, rs)
    ensures AllStored(ops + [op], rs)
  {
    forall r | r in rs ensures Stored(ops + [op], r) {
      var i :| 0 <= i < |ops| && StoredBy(ops[i], r);
      assert (ops + [op])[i] == ops[i];
    }
  }

  lemma SetStores(ops: seq<Op>, op: Op, s: State)
    requires op.Set? && AllStored(ops, s.records)
    ensures AllStored(ops + [op], Step(s, op).records)
  {
    StoredExtends(ops, op, s.records);
    forall r | r in Step(s, op).records ensures Stored(ops + [op], r) {
      if r !in s.records {
        assert (ops + [op])[|ops|] == op;
        assert StoredBy(op, r);
      }
    }
  }

  lemma {:induction false} MergeMembers(rs: seq<Cookie>, restored: seq<Cookie>, now: int)
    ensures forall r :: r in Merge(rs, restored, now) ==> r in rs || r in restored
  {
    if restored != [] {
      MergeMembers(rs, restored[..|restored| - 1], now);
    }
  }

  lemma StepStores(ops: seq<Op>, op: Op, s: State)
    requires AllStored(ops, s.records) && forall k :: 0 <= k < |s.saved| ==> AllStored(ops, s.saved[k])
    ensures var s' := Step(s, op);
      && AllStored(ops + [op], s'.records)
      && forall k :: 0 <= k < |s'.saved| ==> AllStored(ops + [op], s'.saved[k])
  {
    StoredExtends(ops, op, s.records);
    forall k | 0 <= k < |s.saved| ensures AllStored(ops + [op], s.saved[k]) {
      StoredExtends(ops, op, s.saved[k]);
    }
    if op.Set? {
      SetStores(ops, op, s);
    } else if op.MergeSaved? && op.k < |s.saved| {
      MergeMembers(s.records, s.saved[op.k], op.now);
    }
  }

  lemma {:induction false} RunsStore(ops: seq<Op>)
    ensures AllStored(ops, Run(ops).records)
    ensures forall k :: 0 <= k < |Run(ops).saved| ==> AllStored(ops, Run(ops).saved[k])
  {
    if ops != [] {
      var init := ops[..|ops| - 1];
      RunsStore(init);
      StepStores(init, ops[|ops| - 1], Run(init));
      assert ops == init + [ops[|ops| - 1]];
    }
  }

  // ----- site containment over whole runs -----

  /** The lookup is on the site of the host that did the Set, unless that host's last label is a number. */
  predicate OnSite(op: Op, q: Query)
    requires Stores(op).Some?
  {
    var host := CanonHost(op.url.value.hostname);
    UrlHost(host) && !NumericLastLabel(host) ==> RegistrableDomain(q.host) == RegistrableDomain(host)
  }

  /** A record reaches only hosts of the site of the host that set it. */
  lemma RecordStaysOnSite(op: Op, r: Cookie, q: Query)
    requires StoredBy(op, r) && Matches(q, r) && UrlHost(q.host)
    ensures OnSite(op, q)
  {
    ParseDomain(op.url, op.line, op.tParse);
    var host := CanonHost(op.url.value.hostname);
    assert DomainFrom(host, r);
    if !r.hostOnly && UrlHost(host) && !NumericLastLabel(host) {
      NonNumericHostIsContained(host);
    }
  }

  /**
   Over every run, each cookie a lookup returns was stored by some Set of the run, and every Set that
   can have stored it came from the site of the lookup, unless from a host whose last label is a number.
   */
  lemma SiteContainment(ops: seq<Op>, q: Query, now: int, r: Cookie)
    requires r in Answer(Run(ops).records, q, now) && UrlHost(q.host)
    ensures Stored(ops, r)
    ensures forall i :: 0 <= i < |ops| && StoredBy(ops[i], r) ==> OnSite(ops[i], q)
  {
    AnswerMembers(Run(ops).records, q, now, r);
    RunsStore(ops);
    forall i | 0 <= i < |ops| && StoredBy(ops[i], r) ensures OnSite(ops[i], q) {
      RecordStaysOnSite(ops[i], r, q);
    }
  }

  // ----- a cookie comes back to where it was set -----

  /** A cookie without a Path attribute covers the very path that set it, for every URL with a hierarchical path. */
  lemma DefaultPathMatches(u: Url)
    ensures var p := if u.pathname == "" then "/" else u.pathname; PathMatch(p, DefaultPath(u)) <==> p[0] == '/'
  {
    var p := if u.pathname == "" then "/" else u.pathname;
    var i := LastSlash(p);
    if p[0] == '/' && i > 0 {
      assert p[..i] <= p;
    }
  }

  lemma SetterIsMatched(host: string, r: Cookie)
    requires DomainFrom(host, r)
    ensures DomainMatch(host, r.domain, r.hostOnly) <==> host != ""
  {
  }

  /**
   Straight after a line was stored, a lookup of the URL that set it returns the record as stored exactly when
   it is live, its path covers the URL's, its Secure attribute permits, and the URL has a host at all.
   */
  lemma SetThenLookup(rs: seq<Cookie>, u: Url, line: CookieLine, tParse: int, tStore: int, now: int)
    requires KeyUnique(rs) && ValidName(line.name)
    requires !Deletes(Parse(Some(u), line, tParse).value)
    ensures var p := Parse(Some(u), line, tParse).value;
      var rs' := SetRecord(rs, p, tStore);
      && KeyOf(p) in Abs(rs') && Abs(rs')[KeyOf(p)].value == line.value
      && var r := Abs(rs')[KeyOf(p)];
         r in Answer(rs', QueryFor(u, true, false), now) <==>
           && !Expired(r, now) && CanonHost(u.hostname) != ""
           && PathMatch(QueryFor(u, true, false).path, r.path) && (r.secure ==> SecureForCookies(u))
  {
    var p := Parse(Some(u), line, tParse).value;
    ParseDomain(Some(u), line, tParse);
    SetRefines(rs, p, tStore);
    var rs' := SetRecord(rs, p, tStore);
    var r := Abs(rs')[KeyOf(p)];
    SetterIsMatched(CanonHost(u.hostname), r);
    AnswerRefines(rs', QueryFor(u, true, false), now);
  }
}
