/**
 Script responses with the rewrite cache in front of the rewriter: the cache key, the body served, and
 why the cache cannot be noticed. The rewriter is any fixed function and the digest any function
 without collisions on the payloads it is given.
 */
module ScriptRewrite {
  import opened Prelude
  import opened RewriteCache
  import Domains

  // ----- the key payload -----

  function Decimal(n: nat): (s: string)
    ensures |s| >= 1 && forall i :: 0 <= i < |s| ==> '0' <= s[i] <= '9'
  {
    if n < 10 then ['0' + n as char] else Decimal(n / 10) + ['0' + (n % 10) as char]
  }

  function Value(s: string): int {
    if s == "" then 0 else 10 * Value(s[..|s| - 1]) + (s[|s| - 1] as int - '0' as int)
  }

  lemma {:induction false} DecimalValue(n: nat)
    ensures Value(Decimal(n)) == n
  {
    if n < 10 {
      assert Decimal(n)[..0] == "";
    } else {
      DecimalValue(n / 10);
      assert Decimal(n)[..|Decimal(n)| - 1] == Decimal(n / 10);
    }
  }

  /** A field with its length in front. */
  function Field(x: string): string {
    Decimal(Units(x)) + ":" + x
  }

  datatype Script = Script(kind: string, target: string, source: string)

  function FieldThen(x: string, rest: string): string {
    Field(x) + ("|" + rest)
  }

  function Payload(version: string, s: Script): string {
    FieldThen(version, FieldThen(s.kind, FieldThen(s.target, Field(s.source))))
  }

  lemma {:induction false} UnitsConcat(a: string, b: string)
    ensures Units(a + b) == Units(a) + Units(b)
    ensures Units(b) >= |b|
  {
    if b == "" {
      assert a + b == a;
    } else {
      UnitsConcat(a, b[..|b| - 1]);
      assert (a + b)[..|a + b| - 1] == a + b[..|b| - 1];
    }
  }

  /** Two prefixes of one text with the same length in code units are the same. */
  lemma SameUnitsSamePrefix(x: string, r: string, x': string, r': string)
    requires x + r == x' + r' && Units(x) == Units(x')
    ensures x == x' && r == r'
  {
    if |x| <= |x'| {
      var d := x'[|x|..];
      assert x' == (x + r)[..|x'|];
      assert x' == x + d;
      UnitsConcat(x, d);
    } else {
      var d := x[|x'|..];
      assert x == (x' + r')[..|x|];
      assert x == x' + d;
      UnitsConcat(x', d);
    }
    assert r == (x + r)[|x|..];
    assert r' == (x' + r')[|x'|..];
  }

  lemma ColonSplit(a: string, b: string, a': string, b': string)
    requires a + ":" + b == a' + ":" + b'
    requires ':' !in a && ':' !in a'
    ensures a == a' && b == b'
  {
    var s := a + ":" + b;
    assert s == a' + ":" + b';
    assert s[|a|] == ':' && s[|a'|] == ':';
    assert |a| == |a'|;
    assert s[..|a|] == a && s[..|a'|] == a';
    assert s[|a| + 1..] == b && s[|a'| + 1..] == b';
  }

  /** A length-prefixed field can be cut off the front in only one way. */
  lemma FieldSplit(x: string, r: string, x': string, r': string)
    requires Field(x) + r == Field(x') + r'
    ensures x == x' && r == r'
  {
    var n, n' := Decimal(Units(x)), Decimal(Units(x'));
    assert Field(x) + r == n + ":" + (x + r);
    assert Field(x') + r' == n' + ":" + (x' + r');
    ColonSplit(n, x + r, n', x' + r');
    DecimalValue(Units(x));
    DecimalValue(Units(x'));
    SameUnitsSamePrefix(x, r, x', r');
  }

  lemma FieldThenSplit(x: string, r: string, x': string, r': string)
    requires FieldThen(x, r) == FieldThen(x', r')
    ensures x == x' && r == r'
  {
    FieldSplit(x, "|" + r, x', "|" + r');
    assert ("|" + r)[1..] == r && ("|" + r')[1..] == r';
  }

  /** Distinct versions, kinds, addresses or sources never share a payload. */
  lemma PayloadInjective(v: string, s: Script, v': string, s': Script)
    requires Payload(v, s) == Payload(v', s')
    ensures v == v' && s == s'
  {
    var c, c' := Field(s.source), Field(s'.source);
    var t, t' := FieldThen(s.target, c), FieldThen(s'.target, c');
    FieldThenSplit(v, FieldThen(s.kind, t), v', FieldThen(s'.kind, t'));
    FieldThenSplit(s.kind, t, s'.kind, t');
    FieldThenSplit(s.target, c, s'.target, c');
    assert c + "" == c && c' + "" == c';
    FieldSplit(s.source, "", s'.source, "");
  }

  // ----- the body served -----

  const BLOCKED := "throw new DOMException('Blocked by ZeroProxy rewrite policy','NotSupportedError');"

  /** The rewriter (`None` when it throws), the digest, and the source map reference the code appends. */
  datatype World = World(rewrite: Script -> Option<string>, digest: string -> Key, mapUrl: Script -> string)

  ghost predicate CollisionFree(w: World) {
    forall p, p' :: w.digest(p) == w.digest(p') ==> p == p'
  }

  predicate HasMap(s: Script) {
    && s.target != "" && (|s.target| >= 5 ==> Domains.Lower(s.target[..5]) != "data:")
    && (s.kind == "classic" || s.kind == "module" || s.kind == "worker")
  }

  /** The finished code of a successful rewrite; empty output is a failure unless the source was empty too. */
  function Rewritten(w: World, s: Script): Option<string> {
    match w.rewrite(s)
    case None => None
    case Some(out) =>
      var code := if out == "" && s.source == "" then "\n" else out;
      if code == "" then None
      else Some(if HasMap(s) then code + "\n//# sourceMappingURL=" + w.mapUrl(s) + "\n" else code)
  }

  /** What a request is answered with when there is no cache; `loaded` says whether the rewriter is there. */
  function Uncached(w: World, s: Script, loaded: bool): string {
    if loaded && Rewritten(w, s).Some? then Rewritten(w, s).value else BLOCKED
  }

  // ----- requests interleaved in any order -----

  /** `keyed` is false when the digest could not be computed for this request. */
  datatype Ask = Ask(version: string, script: Script, keyed: bool)

  /** `loaded`: the rewriter is set up once for the life of the worker, as late as the environment pleases. */
  datatype State = State(cache: Entries, loaded: bool, pending: map<nat, Ask>, served: map<nat, (Ask, string)>)

  /** A request goes on with `Complete` once the attempt to load the rewriter is over, whether or not it succeeded. */
  datatype Event =
    | Load
    | Request(id: nat, ask: Ask)
    | Complete(id: nat)

  function KeyOf(w: World, a: Ask): Key {
    w.digest(Payload(a.version, a.script))
  }

  predicate Fresh(s: State, id: nat) {
    id !in s.pending && id !in s.served
  }

  function OnRequest(w: World, s: State, id: nat, a: Ask): State {
    var hit := if a.keyed then Found(s.cache, KeyOf(w, a)) else None;
    if hit.Some? then s.(cache := AfterGet(s.cache, KeyOf(w, a)), served := s.served[id := (a, hit.value)])
    else s.(pending := s.pending[id := a])
  }

  function OnComplete(w: World, s: State, id: nat): State
    requires id in s.pending
  {
    var a := s.pending[id];
    var body := Uncached(w, a.script, s.loaded);
    s.(cache := if s.loaded && a.keyed && Rewritten(w, a.script).Some?
                then AfterSet(s.cache, KeyOf(w, a), body) else s.cache,
       pending := s.pending - {id}, served := s.served[id := (a, body)])
  }

  function Step(w: World, s: State, e: Event): State {
    match e
    case Load => s.(loaded := true)
    case Request(id, a) => if Fresh(s, id) then OnRequest(w, s, id, a) else s
    case Complete(id) => if id in s.pending then OnComplete(w, s, id) else s
  }

  /** The same step of a worker that has no cache. */
  function PlainStep(w: World, s: State, e: Event): State {
    match e
    case Load => s.(loaded := true)
    case Request(id, a) => if Fresh(s, id) then s.(pending := s.pending[id := a]) else s
    case Complete(id) =>
      if id !in s.pending then s
      else s.(pending := s.pending - {id},
                served := s.served[id := (s.pending[id], Uncached(w, s.pending[id].script, s.loaded))])
  }

  const INITIAL := State([], false, map[], map[])

  function Run(w: World, events: seq<Event>): State {
    if events == [] then INITIAL else Step(w, Run(w, events[..|events| - 1]), events[|events| - 1])
  }

  function PlainRun(w: World, events: seq<Event>): State {
    if events == [] then INITIAL else PlainStep(w, PlainRun(w, events[..|events| - 1]), events[|events| - 1])
  }

  // ----- the cache holds rewrites -----

  /** The entry's key was computed from a script whose rewrite is the entry's code. */
  ghost predicate FromRewrite(w: World, e: Entry) {
    exists v, s :: e.key == w.digest(Payload(v, s)) && Rewritten(w, s) == Some(e.code)
  }

  /** Only rewrites are stored, and nothing before the rewriter is loaded. */
  ghost predicate Coherent(w: World, s: State) {
    (s.cache != [] ==> s.loaded) && forall e :: e in s.cache ==> FromRewrite(w, e)
  }

  lemma {:induction false} EvictMembers(es: Entries)
    ensures forall e :: e in Evict(es) ==> e in es
  {
    if es != [] && !Within(es) {
      EvictMembers(es[1..]);
    }
  }

  lemma CompleteCoherent(w: World, s: State, id: nat)
    requires Coherent(w, s) && id in s.pending
    ensures Coherent(w, OnComplete(w, s, id))
  {
    var a := s.pending[id];
    if s.loaded && a.keyed && Rewritten(w, a.script).Some? {
      var e := Entry(KeyOf(w, a), Rewritten(w, a.script).value);
      assert FromRewrite(w, e);
      EvictMembers(Without(s.cache, e.key) + [e]);
    }
  }

  /** A hit is the rewriter's own output for the very script asked for, and the rewriter is loaded by then. */
  lemma HitIsRewrite(w: World, s: State, a: Ask)
    requires CollisionFree(w) && Coherent(w, s) && Found(s.cache, KeyOf(w, a)).Some?
    ensures s.loaded && Found(s.cache, KeyOf(w, a)) == Rewritten(w, a.script)
  {
    var i := IndexOf(Keys(s.cache), KeyOf(w, a));
    assert s.cache[i] in s.cache;
    var v, t :| s.cache[i].key == w.digest(Payload(v, t)) && Rewritten(w, t) == Some(s.cache[i].code);
    PayloadInjective(v, t, a.version, a.script);
  }

  // ----- with and without the cache -----

  /**
   A worker with the cache beside one without: what waits in the first waits in the second, what the second has
   answered the first has answered alike, and what only the first has answered is what the second is going to answer.
   */
  ghost predicate Alike(w: World, s: State, p: State) {
    && s.loaded == p.loaded
    && s.pending.Keys <= p.pending.Keys && p.served.Keys <= s.served.Keys
    && p.pending.Keys + p.served.Keys == s.pending.Keys + s.served.Keys
    && (forall id :: id in s.pending ==> p.pending[id] == s.pending[id] && id !in s.served)
    && (forall id :: id in p.served ==> s.served[id] == p.served[id] && id !in p.pending)
    && (forall id :: id in p.pending && id in s.served ==>
          s.loaded && s.served[id] == (p.pending[id], Uncached(w, p.pending[id].script, true)))
  }

  lemma MissAlike(w: World, s: State, p: State, id: nat, a: Ask)
    requires Alike(w, s, p) && Fresh(s, id)
    ensures Alike(w, s.(pending := s.pending[id := a]), p.(pending := p.pending[id := a]))
  {
    assert id !in p.pending.Keys + p.served.Keys;
  }

  lemma HitAlike(w: World, s: State, p: State, id: nat, a: Ask, cache: Entries)
    requires Alike(w, s, p) && Fresh(s, id) && s.loaded
    ensures Alike(w, s.(cache := cache, served := s.served[id := (a, Uncached(w, a.script, true))]),
                  p.(pending := p.pending[id := a]))
  {
    assert id !in p.pending.Keys + p.served.Keys;
  }

  lemma RequestAlike(w: World, s: State, p: State, id: nat, a: Ask)
    requires CollisionFree(w) && Coherent(w, s) && Alike(w, s, p)
    ensures Coherent(w, Step(w, s, Request(id, a)))
    ensures Alike(w, Step(w, s, Request(id, a)), PlainStep(w, p, Request(id, a)))
  {
    assert Fresh(s, id) <==> id !in s.pending.Keys + s.served.Keys;
    assert Fresh(s, id) <==> Fresh(p, id);
    if Fresh(s, id) {
      if a.keyed && Found(s.cache, KeyOf(w, a)).Some? {
        HitIsRewrite(w, s, a);
        HitAlike(w, s, p, id, a, AfterGet(s.cache, KeyOf(w, a)));
      } else {
        MissAlike(w, s, p, id, a);
      }
    }
  }

  lemma CompleteAlike(w: World, s: State, p: State, id: nat)
    requires CollisionFree(w) && Coherent(w, s) && Alike(w, s, p)
    ensures Coherent(w, Step(w, s, Complete(id)))
    ensures Alike(w, Step(w, s, Complete(id)), PlainStep(w, p, Complete(id)))
  {
    if id in s.pending {
      CompleteCoherent(w, s, id);
    }
  }

  lemma {:induction false} RunsAlike(w: World, events: seq<Event>)
    requires CollisionFree(w)
    ensures Coherent(w, Run(w, events)) && Alike(w, Run(w, events), PlainRun(w, events))
  {
    if events != [] {
      var before, e := events[..|events| - 1], events[|events| - 1];
      RunsAlike(w, before);
      match e
      case Load =>
      case Request(id, a) => RequestAlike(w, Run(w, before), PlainRun(w, before), id, a);
      case Complete(id) => CompleteAlike(w, Run(w, before), PlainRun(w, before), id);
    }
  }

  lemma PlainPush(w: World, events: seq<Event>, e: Event)
    ensures PlainRun(w, events + [e]) == PlainStep(w, PlainRun(w, events), e)
  {
    assert (events + [e])[..|events|] == events;
  }

  /**
   The cache cannot be noticed. Over every sequence of requests, loads and completions, a request answered
   without the cache is answered with it, and alike; and one answered with the cache gets that very
   body without it, at once or as soon as it is let complete.
   */
  lemma CacheTransparent(w: World, events: seq<Event>, id: nat)
    requires CollisionFree(w)
    ensures var with, without := Run(w, events), PlainRun(w, events);
      && (id in without.served ==> id in with.served && with.served[id] == without.served[id])
      && (id in with.served ==>
            var after := PlainRun(w, events + [Complete(id)]);
            id in after.served && after.served[id] == with.served[id])
  {
    RunsAlike(w, events);
    PlainPush(w, events, Complete(id));
    assert id in Run(w, events).pending.Keys + Run(w, events).served.Keys <==>
      id in Run(w, events).pending || id in Run(w, events).served;
  }
}
