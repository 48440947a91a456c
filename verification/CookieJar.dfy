/** `createCookieJar` as an object: an array of records changed in place by loops that scan and splice it. */
module CookieJar {
  import opened Prelude
  import opened Domains
  import opened CookieStore
  import opened CookieList

  /** The change reported to pages: `expires` is absent for session cookies. */
  datatype Change = Change(
    name: string, value: string, domain: string, hostOnly: bool, path: string,
    secure: bool, httpOnly: bool, sameSite: string, expires: Option<int>, deleted: bool)

  function ChangeFor(r: Cookie, deleted: bool): Change {
    Change(r.name, r.value, r.domain, r.hostOnly, r.path, r.secure, r.httpOnly, r.sameSite,
           if r.session then None
           else if r.maxAge.Some? then Some(r.creation + r.maxAge.value * 1000)
           else r.expires,
           deleted)
  }

  /** Folds the attributes of a Set-Cookie line into a fresh record, left to right. */
  method ParseLine(url: Option<Url>, line: CookieLine, now: int) returns (p: Option<Cookie>)
    ensures p == Parse(url, line, now)
    ensures p.Some? ==> DomainFrom(CanonHost(url.value.hostname), p.value)
  {
    ParseDomain(url, line, now);
    if url.None? || !ValidName(line.name) {
      return None;
    }
    var host := CanonHost(url.value.hostname);
    var rec := FoldAttributes(host, FreshRecord(url.value, line, now), line.attrs);
    p := Some(rec);
  }

  method FoldAttributes(host: string, first: Cookie, attrs: seq<Attribute>) returns (rec: Cookie)
    ensures rec == ApplyAttributes(host, first, attrs)
  {
    rec := first;
    var i := 0;
    while i < |attrs|
      invariant 0 <= i <= |attrs|
      invariant rec == ApplyAttributes(host, first, attrs[..i])
    {
      assert attrs[..i + 1][..i] == attrs[..i];
      match attrs[i] {
        case DomainAttr(v) =>
          if v != "" {
            var dom := AttrDomain(v);
            if dom != "" && !IsPublicSuffixDomain(dom) && DomainMatch(host, dom, false) {
              rec := rec.(domain := dom, hostOnly := false);
            }
          }
        case PathAttr(v) => if v != "" && v[0] == '/' { rec := rec.(path := v); }
        case ExpiresAttr(t) => if t.Some? { rec := rec.(expires := t); }
        case MaxAgeAttr(n) => if n.Some? { rec := rec.(maxAge := n); }
        case SecureAttr => rec := rec.(secure := true);
        case HttpOnlyAttr => rec := rec.(httpOnly := true);
        case SameSiteAttr(v) => rec := rec.(sameSite := Lower(v));
        case OtherAttr =>
      }
      i := i + 1;
    }
    assert attrs[..i] == attrs;
  }

  /** Splicing out an expired record, or leaving a live one, moves the scan one place down. */
  lemma PurgeStep(was: seq<Cookie>, i: nat, now: int)
    requires i < |was|
    ensures var rs := was[..i + 1] + Purge(was[i + 1..], now);
      was[..i] + Purge(was[i..], now) == if Expired(was[i], now) then rs[..i] + rs[i + 1..] else rs
  {
    var rest := Purge(was[i + 1..], now);
    assert was[i..] == [was[i]] + was[i + 1..];
    FilterCons(was[i], was[i + 1..], Unexpired(now));
    assert (was[..i + 1] + rest)[..i] == was[..i] && (was[..i + 1] + rest)[i + 1..] == rest;
    assert was[..i + 1] + rest == was[..i] + ([was[i]] + rest);
    assert [] + rest == rest;
  }

  lemma SelectStep(was: seq<Cookie>, i: nat, q: Query, now: int)
    requires i < |was|
    ensures var rest := Reverse(Filter(was[i + 1..], Selects(q, now)));
      Reverse(Filter(was[i..], Selects(q, now))) ==
        if !Expired(was[i], now) && Matches(q, was[i]) then rest + [was[i]] else rest
  {
    var rest := Filter(was[i + 1..], Selects(q, now));
    assert was[i..] == [was[i]] + was[i + 1..];
    FilterCons(was[i], was[i + 1..], Selects(q, now));
    ReverseCons(was[i], rest);
    assert [] + rest == rest;
  }

  lemma PutNamed(rs: seq<Cookie>, r: Cookie)
    requires r.name != "" && forall x :: x in rs ==> x.name != ""
    ensures forall x :: x in Put(rs, r) ==> x.name != ""
  {
  }

  class Jar {
    var records: seq<Cookie>
    var dirty: bool

    /** One record per key, and no record without a name. */
    ghost predicate Valid()
      reads this
    {
      KeyUnique(records) && forall r :: r in records ==> r.name != ""
    }

    constructor (initial: seq<Cookie>)
      ensures records == initial && !dirty
    {
      records := initial;
      dirty := false;
    }

    method Find(k: Key) returns (i: nat)
      ensures i == IndexOf(Keys(records), k)
    {
      i := 0;
      while i < |records|
        invariant i <= |records|
        invariant forall j :: 0 <= j < i ==> KeyOf(records[j]) != k
      {
        if KeyOf(records[i]) == k {
          return;
        }
        i := i + 1;
      }
    }

    /** Removes the record under a key, if there is one. */
    method Delete(k: Key)
      requires Valid()
      modifies this
      ensures Valid()
      ensures records == Remove(old(records), k)
      ensures dirty == (old(dirty) || k in Abs(old(records)))
    {
      RemoveKeys(records, k);
      var i := Find(k);
      if i < |records| {
        records := records[..i] + records[i + 1..];
        dirty := true;
      }
    }

    /** Stores a record, over the one of its key if the jar has one, and returns it as stored. */
    method Store(r: Cookie) returns (rec: Cookie)
      requires Valid() && r.name != ""
      modifies this
      ensures Valid() && dirty
      ensures records == Put(old(records), r)
      ensures KeyOf(r) in Abs(records) && rec == Abs(records)[KeyOf(r)]
    {
      PutRefines(records, r);
      PutNamed(records, r);
      rec := r;
      var i := Find(KeyOf(rec));
      if i < |records| {
        rec := rec.(creation := records[i].creation);
        records := records[i := rec];
      } else {
        records := records + [rec];
      }
      dirty := true;
    }

    /**
     Applies one Set-Cookie line; the clock is read when the line is parsed, when a session cookie is
     given its lifetime, and when the change is reported.
     */
    method SetCookieLine(url: Option<Url>, line: CookieLine, crossSite: bool, tParse: int, tStore: int, tReport: int)
      returns (change: Option<Change>)
      requires Valid()
      modifies this
      ensures Valid()
      ensures var p := Parse(url, line, tParse);
        if p.None? || (crossSite && p.value.sameSite != "none") then
          change.None? && records == old(records) && dirty == old(dirty)
        else
          && records == SetRecord(old(records), p.value, tStore)
          && change.Some?
          && (Deletes(p.value) ==>
                && change.value == ChangeFor(p.value, true)
                && dirty == (old(dirty) || KeyOf(p.value) in Abs(old(records))))
          && (!Deletes(p.value) ==>
                var k := KeyOf(p.value);
                && dirty
                && k in Abs(records)
                && change.value == ChangeFor(Abs(records)[k], Expired(Abs(records)[k], tReport)))
    {
      var p := ParseLine(url, line, tParse);
      if p.None? {
        return None;
      }
      var rec := p.value;
      assert rec.name != "" by { ParseDomain(url, line, tParse); }
      if crossSite && rec.sameSite != "none" {
        return None;
      }
      if rec.maxAge.Some? && rec.maxAge.value <= 0 {
        Delete(KeyOf(rec));
        return Some(ChangeFor(rec, true));
      }
      if rec.maxAge.None? && rec.expires.None? {
        rec := rec.(expires := Some(tStore + SESSION_TTL_MS), session := true);
      }
      rec := Store(rec);
      return Some(ChangeFor(rec, Expired(rec, tReport)));
    }

    /** The lookup: one backward scan that drops expired records as it collects the matching ones. */
    method CookiesForUrl(url: Option<Url>, includeHttpOnly: bool, crossSite: bool, now: int) returns (out: seq<Cookie>)
      requires Valid()
      modifies this`records
      ensures Valid()
      ensures url.None? ==> out == [] && records == old(records)
      ensures url.Some? ==>
        && records == Purge(old(records), now)
        && out == Answer(old(records), QueryFor(url.value, includeHttpOnly, crossSite), now)
    {
      if url.None? {
        return [];
      }
      FilterKeyUnique(records, Unexpired(now));
      out := Scan(QueryFor(url.value, includeHttpOnly, crossSite), now);
      out := HeaderSort(out);
    }

    method Scan(q: Query, now: int) returns (out: seq<Cookie>)
      modifies this`records
      ensures records == Purge(old(records), now)
      ensures out == Reverse(Filter(old(records), Selects(q, now)))
    {
      ghost var was := records;
      out := [];
      var i := |records| - 1;
      while i >= 0
        invariant -1 <= i < |was|
        invariant records == was[..i + 1] + Purge(was[i + 1..], now)
        invariant out == Reverse(Filter(was[i + 1..], Selects(q, now)))
      {
        var r := records[i];
        PurgeStep(was, i, now);
        SelectStep(was, i, q, now);
        if Expired(r, now) {
          records := records[..i] + records[i + 1..];
        } else if Matches(q, r) {
          out := out + [r];
        }
        i := i - 1;
      }
      assert was[0..] == was;
    }

    method TakeSnapshot(now: int) returns (s: seq<Cookie>)
      ensures s == Snapshot(records, now)
    {
      s := Filter(records, Unexpired(now));
    }

    /** Adds the restored records whose key the jar lacks and that storage has not let expire; leaves `dirty` alone. */
    method MergeRestored(restored: seq<Cookie>, now: int)
      requires Valid()
      modifies this`records
      ensures Valid()
      ensures records == Merge(old(records), restored, now)
    {
      var n := 0;
      while n < |restored|
        invariant 0 <= n <= |restored|
        invariant Valid() && records == Merge(old(records), restored[..n], now)
      {
        var r := restored[n];
        assert restored[..n + 1][..n] == restored[..n];
        if r.name != "" && r.domain != "" {
          var at := Find(KeyOf(r));
          if at == |records| && !Stale(r, now) {
            records := records + [r];
          }
        }
        n := n + 1;
      }
      assert restored[..n] == restored;
    }

    method ConsumeDirty() returns (was: bool)
      modifies this`dirty
      ensures was == old(dirty) && !dirty
    {
      was := dirty;
      dirty := false;
    }
  }
}
