/**
 The jar's list operations (web/sw.js keeps the records in one array), the map
 from (name, domain, path) to cookie that the list refines, and what expiry,
 purging and persistence leave visible to readers and writers.
 */
module CookieList {
  import opened Prelude
  import opened Domains
  import opened CookieStore

  // ----- operations on the list -----

  function Keys(rs: seq<Cookie>): (ks: seq<Key>)
    ensures |ks| == |rs| && forall i :: 0 <= i < |rs| ==> ks[i] == KeyOf(rs[i])
  {
    seq(|rs|, i requires 0 <= i < |rs| => KeyOf(rs[i]))
  }

  function Remove(rs: seq<Cookie>, k: Key): seq<Cookie> {
    var i := IndexOf(Keys(rs), k);
    if i < |rs| then rs[..i] + rs[i + 1..] else rs
  }

  /** Stores a record; a record already under the key is replaced in place and lends its creation time. */
  function Put(rs: seq<Cookie>, r: Cookie): seq<Cookie> {
    var i := IndexOf(Keys(rs), KeyOf(r));
    if i < |rs| then rs[i := r.(creation := rs[i].creation)] else rs + [r]
  }

  /** Cookies with neither Max-Age nor Expires get a bounded synthetic lifetime. */
  function BoundSession(r: Cookie, now: int): Cookie {
    if r.maxAge.None? && r.expires.None? then r.(expires := Some(now + SESSION_TTL_MS), session := true) else r
  }

  predicate Deletes(r: Cookie) {
    r.maxAge.Some? && r.maxAge.value <= 0
  }

  /** The list after a Set-Cookie line whose record is `r`. */
  function SetRecord(rs: seq<Cookie>, r: Cookie, now: int): seq<Cookie> {
    if Deletes(r) then Remove(rs, KeyOf(r)) else Put(rs, BoundSession(r, now))
  }

  function Purge(rs: seq<Cookie>, now: int): seq<Cookie> {
    Filter(rs, Unexpired(now))
  }

  function Snapshot(rs: seq<Cookie>, now: int): seq<Cookie> {
    Purge(rs, now)
  }

  /** Records a restored snapshot may contribute to a jar that lacks their key. */
  predicate Restorable(r: Cookie, now: int) {
    r.name != "" && r.domain != "" && !Stale(r, now)
  }

  function MergeOne(rs: seq<Cookie>, r: Cookie, now: int): seq<Cookie> {
    if IndexOf(Keys(rs), KeyOf(r)) < |rs| || !Restorable(r, now) then rs else rs + [r]
  }

  function Merge(rs: seq<Cookie>, restored: seq<Cookie>, now: int): seq<Cookie> {
    if restored == [] then rs
    else MergeOne(Merge(rs, restored[..|restored| - 1], now), restored[|restored| - 1], now)
  }

  /** The records a stored snapshot brings into a jar created for it. */
  function Load(stored: seq<Cookie>, now: int): seq<Cookie> {
    Filter(stored, Fresh(now))
  }

  // ----- the list refines a map -----

  ghost predicate KeyUnique(rs: seq<Cookie>) {
    forall i, j :: 0 <= i < j < |rs| ==> KeyOf(rs[i]) != KeyOf(rs[j])
  }

  ghost function Abs(rs: seq<Cookie>): (m: map<Key, Cookie>)
    ensures forall k :: k in m ==> KeyOf(m[k]) == k
    ensures forall k :: k in m <==> IndexOf(Keys(rs), k) < |rs|
    ensures forall k :: k in m ==> m[k] == rs[IndexOf(Keys(rs), k)]
  {
    map r | r in rs :: KeyOf(r) := rs[IndexOf(Keys(rs), KeyOf(r))]
  }

  lemma AbsAt(rs: seq<Cookie>, i: nat)
    requires KeyUnique(rs) && i < |rs|
    ensures IndexOf(Keys(rs), KeyOf(rs[i])) == i
    ensures KeyOf(rs[i]) in Abs(rs) && Abs(rs)[KeyOf(rs[i])] == rs[i]
  {
  }

  lemma AbsMembers(rs: seq<Cookie>)
    requires KeyUnique(rs)
    ensures forall r :: r in rs <==> KeyOf(r) in Abs(rs) && Abs(rs)[KeyOf(r)] == r
  {
    forall r | r in rs ensures KeyOf(r) in Abs(rs) && Abs(rs)[KeyOf(r)] == r {
      var i :| 0 <= i < |rs| && rs[i] == r;
      AbsAt(rs, i);
    }
  }

  /** A list with one record per key is described by its map: same keys, same record under each. */
  lemma AbsFrom(rs: seq<Cookie>, m: map<Key, Cookie>)
    requires KeyUnique(rs)
    requires forall i :: 0 <= i < |rs| ==> KeyOf(rs[i]) in m && m[KeyOf(rs[i])] == rs[i]
    requires forall k :: k in m ==> exists i :: 0 <= i < |rs| && KeyOf(rs[i]) == k
    ensures Abs(rs) == m
  {
    forall k | k in m ensures k in Abs(rs) && Abs(rs)[k] == m[k] {
      var i :| 0 <= i < |rs| && KeyOf(rs[i]) == k;
      AbsAt(rs, i);
    }
  }

  /** Where each record of the list stands after storing, and under which key. */
  lemma PutKeys(rs: seq<Cookie>, r: Cookie)
    requires KeyUnique(rs)
    ensures var rs', i := Put(rs, r), IndexOf(Keys(rs), KeyOf(r));
      && KeyUnique(rs') && |rs| <= |rs'| && i < |rs'| && KeyOf(rs'[i]) == KeyOf(r)
      && forall j :: 0 <= j < |rs| ==> KeyOf(rs'[j]) == KeyOf(rs[j])
  {
  }

  lemma PutEntry(rs: seq<Cookie>, r: Cookie, j: nat)
    requires KeyUnique(rs) && j < |Put(rs, r)|
    ensures var k, m, x := KeyOf(r), Abs(rs), Put(rs, r)[j];
      var m' := m[k := r.(creation := if k in m then m[k].creation else r.creation)];
      KeyOf(x) in m' && m'[KeyOf(x)] == x
  {
    if j < |rs| {
      AbsAt(rs, j);
    }
  }

  lemma PutRefines(rs: seq<Cookie>, r: Cookie)
    requires KeyUnique(rs)
    ensures KeyUnique(Put(rs, r))
    ensures var k, m := KeyOf(r), Abs(rs);
      Abs(Put(rs, r)) == m[k := r.(creation := if k in m then m[k].creation else r.creation)]
  {
    var k, m, rs' := KeyOf(r), Abs(rs), Put(rs, r);
    var m' := m[k := r.(creation := if k in m then m[k].creation else r.creation)];
    PutKeys(rs, r);
    forall j | 0 <= j < |rs'| ensures KeyOf(rs'[j]) in m' && m'[KeyOf(rs'[j])] == rs'[j] {
      PutEntry(rs, r, j);
    }
    forall k' | k' in m' ensures exists j :: 0 <= j < |rs'| && KeyOf(rs'[j]) == k' {
      var j := IndexOf(Keys(rs), k');
      assert KeyOf(rs'[j]) == k';
    }
    AbsFrom(rs', m');
  }

  lemma RemoveKeys(rs: seq<Cookie>, k: Key)
    requires KeyUnique(rs)
    ensures KeyUnique(Remove(rs, k))
    ensures forall r :: r in Remove(rs, k) <==> r in rs && KeyOf(r) != k
  {
    var i, rs' := IndexOf(Keys(rs), k), Remove(rs, k);
    if i < |rs| {
      assert rs == rs[..i] + [rs[i]] + rs[i + 1..];
      assert forall j :: 0 <= j < |rs'| ==> rs'[j] == rs[if j < i then j else j + 1];
    }
  }

  lemma RemoveRefines(rs: seq<Cookie>, k: Key)
    requires KeyUnique(rs)
    ensures KeyUnique(Remove(rs, k))
    ensures Abs(Remove(rs, k)) == Abs(rs) - {k}
  {
    RemoveKeys(rs, k);
    AbsMembers(rs);
    var m' := Abs(rs) - {k};
    forall k' | k' in m' ensures exists j :: 0 <= j < |Remove(rs, k)| && KeyOf(Remove(rs, k)[j]) == k' {
      assert m'[k'] in Remove(rs, k);
    }
    AbsFrom(Remove(rs, k), m');
  }

  lemma {:induction false} FilterKeyUnique(rs: seq<Cookie>, p: Cookie -> bool)
    requires KeyUnique(rs)
    ensures KeyUnique(Filter(rs, p))
  {
    if rs != [] {
      var init, last := rs[..|rs| - 1], rs[|rs| - 1];
      FilterKeyUnique(init, p);
      forall j | 0 <= j < |Filter(init, p)| ensures KeyOf(Filter(init, p)[j]) != KeyOf(last) {
        assert Filter(init, p)[j] in init;
      }
    }
  }

  lemma FilterRefines(rs: seq<Cookie>, p: Cookie -> bool)
    requires KeyUnique(rs)
    ensures KeyUnique(Filter(rs, p))
    ensures Abs(Filter(rs, p)) == map k | k in Abs(rs) && p(Abs(rs)[k]) :: Abs(rs)[k]
  {
    FilterKeyUnique(rs, p);
    var rs', m' := Filter(rs, p), map k | k in Abs(rs) && p(Abs(rs)[k]) :: Abs(rs)[k];
    AbsMembers(rs);
    forall j | 0 <= j < |rs'| ensures KeyOf(rs'[j]) in m' && m'[KeyOf(rs'[j])] == rs'[j] {
      assert rs'[j] in rs;
    }
    forall k | k in m' ensures exists j :: 0 <= j < |rs'| && KeyOf(rs'[j]) == k {
      assert m'[k] in rs';
    }
    AbsFrom(rs', m');
  }

  /** Setting a cookie is one map update or one removal, and never disturbs another key. */
  lemma SetRefines(rs: seq<Cookie>, r: Cookie, now: int)
    requires KeyUnique(rs)
    ensures KeyUnique(SetRecord(rs, r, now))
    ensures var k, m, b := KeyOf(r), Abs(rs), BoundSession(r, now);
      Abs(SetRecord(rs, r, now)) ==
        if Deletes(r) then m - {k}
        else m[k := b.(creation := if k in m then m[k].creation else r.creation)]
  {
    if Deletes(r) {
      RemoveRefines(rs, KeyOf(r));
    } else {
      PutRefines(rs, BoundSession(r, now));
    }
  }

  lemma MergeOneRefines(rs: seq<Cookie>, r: Cookie, now: int)
    requires KeyUnique(rs)
    ensures KeyUnique(MergeOne(rs, r, now))
    ensures Abs(MergeOne(rs, r, now)) ==
      if KeyOf(r) in Abs(rs) || !Restorable(r, now) then Abs(rs) else Abs(rs)[KeyOf(r) := r]
  {
    if KeyOf(r) !in Abs(rs) && Restorable(r, now) {
      PutRefines(rs, r);
      assert r.(creation := r.creation) == r;
    }
  }

  /**
   Merging keeps every live record over a stored one of the same key, and adds for any other
   key only a record the snapshot holds and storage has not let expire.
   */
  lemma {:induction false} MergeRefines(rs: seq<Cookie>, restored: seq<Cookie>, now: int)
    requires KeyUnique(rs)
    ensures KeyUnique(Merge(rs, restored, now))
    ensures var m, m' := Abs(rs), Abs(Merge(rs, restored, now));
      && (forall k :: k in m ==> k in m' && m'[k] == m[k])
      && (forall k :: k in m' && k !in m ==> m'[k] in restored && Restorable(m'[k], now))
      && (forall r :: r in restored && Restorable(r, now) ==> KeyOf(r) in m')
  {
    if restored != [] {
      var init, last := restored[..|restored| - 1], restored[|restored| - 1];
      MergeRefines(rs, init, now);
      MergeOneRefines(Merge(rs, init, now), last, now);
    }
  }

  lemma {:induction false} NoDuplicates(s: seq<Cookie>)
    requires KeyUnique(s)
    ensures forall r :: r in s ==> multiset(s)[r] == 1
  {
    if s != [] {
      var init, last := s[..|s| - 1], s[|s| - 1];
      NoDuplicates(init);
      assert s == init + [last];
      assert last !in init;
    }
  }

  lemma ReverseMultiset<T>(s: seq<T>)
    ensures multiset(Reverse(s)) == multiset(s)
  {
    if s != [] {
      ReverseMultiset(s[1..]);
      assert s == [s[0]] + s[1..];
      assert Reverse(s) == Reverse(s[1..]) + [s[0]];
    }
  }

  /**
   A lookup answers with exactly the matching live cookies of the map, each once,
   longest path first and oldest first within a path length.
   */
  lemma AnswerRefines(rs: seq<Cookie>, q: Query, now: int)
    requires KeyUnique(rs)
    ensures var a := Answer(rs, q, now);
      && InHeaderOrder(a)
      && (forall r :: r in a ==> multiset(a)[r] == 1)
      && (forall r :: r in a <==> KeyOf(r) in Abs(rs) && Abs(rs)[KeyOf(r)] == r && !Expired(r, now) && Matches(q, r))
  {
    var sel := Filter(rs, Selects(q, now));
    var a := Answer(rs, q, now);
    HeaderSortProperties(Reverse(sel), 0, 0);
    ReverseMultiset(sel);
    FilterKeyUnique(rs, Selects(q, now));
    NoDuplicates(sel);
    assert multiset(a) == multiset(sel);
    assert forall r :: r in a <==> r in multiset(a);
    assert forall r :: r in sel <==> r in multiset(sel);
    AbsMembers(rs);
  }

  /** Whatever a lookup returns is a live, matching record of the list. */
  lemma AnswerMembers(rs: seq<Cookie>, q: Query, now: int, r: Cookie)
    requires r in Answer(rs, q, now)
    ensures r in rs && !Expired(r, now) && Matches(q, r)
  {
    var sel := Filter(rs, Selects(q, now));
    HeaderSortProperties(Reverse(sel), 0, 0);
    ReverseMultiset(sel);
    assert r in multiset(Answer(rs, q, now));
    assert r in multiset(sel);
  }

  // ----- purging and persistence are invisible to readers -----

  /** Purging at `t` changes no answer at `t` or later. */
  lemma PurgeInvisible(rs: seq<Cookie>, q: Query, t: int, t': int)
    requires t <= t'
    ensures Answer(Purge(rs, t), q, t') == Answer(rs, q, t')
  {
    forall r | r in rs && Selects(q, t')(r) ensures Unexpired(t)(r) {
      if Expired(r, t) {
        ExpiryIsMonotone(r, t, t');
      }
    }
    FilterFilter(rs, Unexpired(t), Selects(q, t'));
  }

  function Restores(now: int): Cookie -> bool {
    r => Restorable(r, now)
  }

  lemma {:induction false} MergeIntoEmpty(stored: seq<Cookie>, now: int)
    requires KeyUnique(stored)
    ensures Merge([], stored, now) == Filter(stored, Restores(now))
  {
    if stored != [] {
      var init, last := stored[..|stored| - 1], stored[|stored| - 1];
      MergeIntoEmpty(init, now);
      var m := Merge([], init, now);
      forall j | 0 <= j < |m| ensures KeyOf(m[j]) != KeyOf(last) {
        assert m[j] in init;
      }
    }
  }

  lemma SelectedIsRestorable(r: Cookie, q: Query, t: int, t': int)
    requires t < t' && r.name != "" && Selects(q, t')(r)
    ensures Restorable(r, t)
  {
  }

  /** A snapshot loaded into a new jar at `t` answers every query after `t` as the jar it was taken from. */
  lemma LoadInvisible(rs: seq<Cookie>, q: Query, saved: int, t: int, t': int)
    requires saved <= t' && t < t'
    ensures Answer(Load(Snapshot(rs, saved), t), q, t') == Answer(rs, q, t')
  {
    PurgeInvisible(rs, q, saved, t');
    FilterFilter(Snapshot(rs, saved), Fresh(t), Selects(q, t'));
  }

  /** What happens to the list between two Set-Cookie lines: lookups, which purge, and reloads from storage. */
  datatype Upkeep = LookedUp(at: int) | Reloaded(saved: int, at: int)

  function Upkept(rs: seq<Cookie>, us: seq<Upkeep>): seq<Cookie> {
    if us == [] then rs
    else
      match us[|us| - 1]
      case LookedUp(t) => Purge(Upkept(rs, us[..|us| - 1]), t)
      case Reloaded(saved, t) => Load(Snapshot(Upkept(rs, us[..|us| - 1]), saved), t)
  }

  predicate DoneBy(u: Upkeep, t: int) {
    match u
    case LookedUp(at) => at <= t
    case Reloaded(saved, at) => saved <= t && at < t
  }

  /**
   However often the jar was read, saved and reloaded before `t`, a lookup at `t` answers as if none of it had
   happened.
   */
  lemma {:induction false} UpkeepInvisible(rs: seq<Cookie>, us: seq<Upkeep>, q: Query, t: int)
    requires forall i :: 0 <= i < |us| ==> DoneBy(us[i], t)
    ensures Answer(Upkept(rs, us), q, t) == Answer(rs, q, t)
  {
    if us != [] {
      var earlier := us[..|us| - 1];
      UpkeepInvisible(rs, earlier, q, t);
      match us[|us| - 1]
      case LookedUp(at) => PurgeInvisible(Upkept(rs, earlier), q, at, t);
      case Reloaded(saved, at) => LoadInvisible(Upkept(rs, earlier), q, saved, at, t);
    }
  }

  /** So does a snapshot merged into an empty jar at `t`. */
  lemma MergeInvisible(rs: seq<Cookie>, q: Query, saved: int, t: int, t': int)
    requires KeyUnique(rs) && saved <= t' && t < t'
    requires forall r :: r in rs ==> r.name != ""
    ensures Answer(Merge([], Snapshot(rs, saved), t), q, t') == Answer(rs, q, t')
  {
    var snap := Snapshot(rs, saved);
    FilterKeyUnique(rs, Unexpired(saved));
    MergeIntoEmpty(snap, t);
    forall r | r in snap && Selects(q, t')(r) ensures Restores(t)(r) {
      SelectedIsRestorable(r, q, t, t');
    }
    FilterFilter(snap, Restores(t), Selects(q, t'));
    PurgeInvisible(rs, q, saved, t');
  }

  /** A query that asks for everything its host and path can see. */
  function Widest(r: Cookie): Query {
    Query(r.domain, if r.path == "" then "/" else r.path, true, true, false)
  }

  /** The instant at which storage already drops a record that a reader still sees. */
  predicate DueAt(r: Cookie, t: int) {
    !Expired(r, t) && Stale(r, t)
  }

  lemma DueIsNoticed(rs: seq<Cookie>, loaded: seq<Cookie>, r: Cookie, t: int)
    requires KeyUnique(rs) && KeyUnique(loaded)
    requires r in rs && r.domain != "" && !Expired(r, t) && r !in loaded
    ensures Answer(loaded, Widest(r), t) != Answer(rs, Widest(r), t)
  {
    AnswerRefines(rs, Widest(r), t);
    AnswerRefines(loaded, Widest(r), t);
    AbsMembers(rs);
    AbsMembers(loaded);
    assert Matches(Widest(r), r);
    assert r in Answer(rs, Widest(r), t);
    assert r !in Answer(loaded, Widest(r), t);
  }

  /**
   At the instant of loading itself the reader can tell: the answers agree for every query
   exactly when no visible record is due at that very millisecond.
   */
  lemma LoadVisibleAtSameInstant(rs: seq<Cookie>, t: int)
    requires KeyUnique(rs)
    ensures (forall q :: Answer(Load(Snapshot(rs, t), t), q, t) == Answer(rs, q, t))
            <==> (forall r :: r in rs && r.domain != "" ==> !DueAt(r, t))
  {
    var loaded := Load(Snapshot(rs, t), t);
    if r :| r in rs && r.domain != "" && DueAt(r, t) {
      FilterKeyUnique(rs, Unexpired(t));
      FilterKeyUnique(Snapshot(rs, t), Fresh(t));
      DueIsNoticed(rs, loaded, r, t);
    } else {
      forall q ensures Answer(loaded, q, t) == Answer(rs, q, t) {
        PurgeInvisible(rs, q, t, t);
        FilterFilter(Snapshot(rs, t), Fresh(t), Selects(q, t));
      }
    }
  }

  // ----- but writers can tell, because a renewed cookie keeps its creation time -----

  /**
   RFC 6265 section 5.2.2 counts Max-Age from the moment the line arrives. The jar counts it from the
   creation time it keeps, so a stored Max-Age cookie lives until the promised instant, for every
   instant one may ask about, exactly when its key is new or was created at that same moment.
   */
  lemma MaxAgeCountsFromCreation(rs: seq<Cookie>, r: Cookie, now: int)
    requires KeyUnique(rs)
    requires r.maxAge.Some? && r.maxAge.value > 0 && r.creation == now
    ensures var k, m' := KeyOf(r), Abs(SetRecord(rs, r, now));
      && k in m'
      && ((forall t :: !Expired(m'[k], t) <==> t <= now + r.maxAge.value * 1000)
          <==> (k in Abs(rs) ==> Abs(rs)[k].creation == now))
  {
    SetRefines(rs, r, now);
    var k, m' := KeyOf(r), Abs(SetRecord(rs, r, now));
    var deadline := m'[k].creation + r.maxAge.value * 1000;
    assert !Expired(m'[k], deadline) && Expired(m'[k], deadline + 1);
  }

  /** The creation time a stored record ends up with. */
  ghost function KeptCreation(m: map<Key, Cookie>, r: Cookie): int {
    if KeyOf(r) in m then m[KeyOf(r)].creation else r.creation
  }

  lemma PutAt(rs: seq<Cookie>, r: Cookie)
    requires KeyUnique(rs)
    ensures KeyOf(r) in Abs(Put(rs, r))
    ensures Abs(Put(rs, r))[KeyOf(r)] == r.(creation := KeptCreation(Abs(rs), r))
  {
    PutRefines(rs, r);
  }

  lemma PurgeAt(rs: seq<Cookie>, k: Key, t: int)
    requires KeyUnique(rs)
    ensures KeyUnique(Purge(rs, t))
    ensures k in Abs(Purge(rs, t)) <==> k in Abs(rs) && !Expired(Abs(rs)[k], t)
    ensures k in Abs(Purge(rs, t)) ==> Abs(Purge(rs, t))[k] == Abs(rs)[k]
  {
    FilterRefines(rs, Unexpired(t));
  }

  /**
   A purge just before a write is noticed exactly when it removed the record that would have lent its creation time.
   */
  lemma PurgeVisibleToWriter(rs: seq<Cookie>, r: Cookie, t: int)
    requires KeyUnique(rs)
    ensures var k := KeyOf(r);
      && k in Abs(Put(rs, r)) && k in Abs(Put(Purge(rs, t), r))
      && (Abs(Put(Purge(rs, t), r))[k] == Abs(Put(rs, r))[k]
          <==> !(k in Abs(rs) && Expired(Abs(rs)[k], t) && Abs(rs)[k].creation != r.creation))
  {
    PurgeAt(rs, KeyOf(r), t);
    PutAt(rs, r);
    PutAt(Purge(rs, t), r);
  }
}
