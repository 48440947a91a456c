/**
 All fetches of the Service Worker together: each is a chain of requests interleaved in any order with
 the others at its awaits, and all share one preflight cache. The kernel's answers, the clock, stubbed
 hosts and a kernel that is not ready are chosen by the environment.
 */
module HopMachine {
  import opened Prelude
  import opened Fetch
  import opened HopChain

  const CACHE_CAP := 256
  const DEFAULT_AGE_S := 5
  const MAX_AGE_S := 7200

  // ----- the preflight cache -----

  function CacheKey(tabId: string, origin: Line, href: Line, credentials: bool): string {
    tabId + "\n" + origin + "\n" + href + "\n" + (if credentials then "1" else "0")
  }

  /** In insertion order, as a Map keeps its entries. */
  type Cache = seq<(string, Entry)>

  function Keys(cache: Cache): (ks: seq<string>)
    ensures |ks| == |cache| && forall i :: 0 <= i < |cache| ==> ks[i] == cache[i].0
  {
    seq(|cache|, i requires 0 <= i < |cache| => cache[i].0)
  }

  function Lookup(cache: Cache, key: string): Option<Entry> {
    var i := IndexOf(Keys(cache), key);
    if i < |cache| then Some(cache[i].1) else None
  }

  function SetEntry(cache: Cache, key: string, e: Entry): Cache {
    var i := IndexOf(Keys(cache), key);
    if i < |cache| then cache[i := (key, e)] else cache + [(key, e)]
  }

  /** Makes room by dropping the oldest entry, then sets. */
  function Store(cache: Cache, key: string, e: Entry): Cache {
    SetEntry(if |cache| >= CACHE_CAP then cache[1..] else cache, key, e)
  }

  class PreflightCache {
    var entries: Cache

    constructor ()
      ensures entries == []
    {
      entries := [];
    }

    method Get(key: string) returns (e: Option<Entry>)
      ensures e == Lookup(entries, key)
    {
      var i := 0;
      while i < |entries|
        invariant 0 <= i <= |entries|
        invariant forall j :: 0 <= j < i ==> entries[j].0 != key
      {
        if entries[i].0 == key {
          return Some(entries[i].1);
        }
        i := i + 1;
      }
      return None;
    }

    method Put(key: string, e: Entry)
      requires |entries| <= CACHE_CAP
      modifies this
      ensures entries == Store(old(entries), key, e) && |entries| <= CACHE_CAP
    {
      if |entries| >= CACHE_CAP {
        entries := entries[1..];
      }
      var i := IndexOf(Keys(entries), key);
      entries := if i < |entries| then entries[i := (key, e)] else entries + [(key, e)];
    }
  }

  // ----- preflights -----

  /** A preflight response that passed: whom it was for, and until when it may be reused. */
  datatype Grant = Grant(tabId: string, origin: Line, href: Line, credentials: bool, reply: Reply, expires: int)

  function EntryOf(r: Reply, expires: int): Entry
    requires r.Reply?
  {
    Entry(r.allowMethods, r.allowHeaders, expires)
  }

  predicate PreflightPasses(q: Request, r: Reply) {
    && r.Reply? && 200 <= r.status <= 299
    && CorsCheck(r, RequestOrigin(q.opt), WithCredentials(q.opt))
    && PreflightAllows(EntryOf(r, 0), q.opt.verb, UnsafeNames(q.opt), WithCredentials(q.opt))
  }

  function MaxAge(r: Reply): nat
    requires r.Reply?
  {
    if r.maxAge.None? then DEFAULT_AGE_S else if r.maxAge.value > MAX_AGE_S then MAX_AGE_S else r.maxAge.value
  }

  function KeyFor(q: Request): string {
    CacheKey(q.opt.tabId, RequestOrigin(q.opt), q.url.href, WithCredentials(q.opt))
  }

  function GrantFor(q: Request, r: Reply, at: int): Grant
    requires r.Reply?
  {
    Grant(q.opt.tabId, RequestOrigin(q.opt), q.url.href, WithCredentials(q.opt), r, at + MaxAge(r) * 1000)
  }

  // ----- tasks -----

  /**
   How a request was cleared to be sent: by the n-th grant, won in this hop, or by the cache as asked at some time.
   */
  datatype Via = Unneeded | Preflighted(n: nat) | FromCache(at: int)

  datatype Hop = Hop(req: Request, via: Via, reply: Reply)

  datatype Task =
    | Preflighting(start: Request, req: Request, at: int, past: seq<Hop>)
    | Fetching(start: Request, req: Request, via: Via, past: seq<Hop>)
    | Finished(start: Request, outcome: Outcome, past: seq<Hop>)

  datatype Env = Env(stubbed: bool, ready: bool, now: int)

  /** What a hop does before its request is handed to the kernel. */
  function Begin(start: Request, q: Request, past: seq<Hop>, cache: Cache, env: Env): Task {
    if q.opt.mode.SameOrigin? && q.url.origin != q.opt.origin then Finished(start, NetworkError, past)
    else if env.stubbed then Finished(start, Stubbed, past)
    else if !env.ready then Finished(start, ErrorPage, past)
    else if !NeedsPreflight(q.opt) then Fetching(start, q, Unneeded, past)
    else
      var hit := Lookup(cache, KeyFor(q));
      if hit.Some? && hit.value.expires > env.now
         && PreflightAllows(hit.value, q.opt.verb, UnsafeNames(q.opt), WithCredentials(q.opt))
      then Fetching(start, q, FromCache(env.now), past)
      else Preflighting(start, q, env.now, past)
  }

  datatype State = State(cache: Cache, grants: seq<Grant>, tasks: map<nat, Task>)

  datatype Event =
    | Start(id: nat, url: Url, opt: Opt, env: Env)
    | Answer(id: nat, reply: Reply, env: Env)

  function OnPreflight(s: State, id: nat, r: Reply): State
    requires id in s.tasks && s.tasks[id].Preflighting?
  {
    var t := s.tasks[id];
    if !PreflightPasses(t.req, r) then s.(tasks := s.tasks[id := Finished(t.start, NetworkError, t.past)])
    else
      var g := GrantFor(t.req, r, t.at);
      State(if MaxAge(r) > 0 then Store(s.cache, KeyFor(t.req), EntryOf(r, g.expires)) else s.cache,
            s.grants + [g],
            s.tasks[id := Fetching(t.start, t.req, Preflighted(|s.grants|), t.past)])
  }

  function OnReply(s: State, id: nat, r: Reply, env: Env): State
    requires id in s.tasks && s.tasks[id].Fetching?
  {
    var t := s.tasks[id];
    var past := t.past + [Hop(t.req, t.via, r)];
    var next := Continue(t.req, r);
    var t' :=
      if next.Some? then Begin(t.start, next.value, past, s.cache, env)
      else Finished(t.start, Decide(t.req.url, t.req.opt, r).outcome, past);
    s.(tasks := s.tasks[id := t'])
  }

  function Step(s: State, e: Event): State {
    match e
    case Start(id, url, opt, env) =>
      if id in s.tasks || !Initial(opt) then s
      else s.(tasks := s.tasks[id := Begin(Request(url, opt), Request(url, TaintOn(url, opt)), [], s.cache, env)])
    case Answer(id, reply, env) =>
      if id !in s.tasks || s.tasks[id].Finished? then s
      else if s.tasks[id].Preflighting? then OnPreflight(s, id, reply)
      else OnReply(s, id, reply, env)
  }

  const INITIAL := State([], [], map[])

  function Run(events: seq<Event>): State {
    if events == [] then INITIAL else Step(Run(events[..|events| - 1]), events[|events| - 1])
  }

  // ----- every task is a chain -----

  function Requests(t: Task): seq<Request> {
    seq(|t.past|, i requires 0 <= i < |t.past| => t.past[i].req) + (if t.Finished? then [] else [t.req])
  }

  function Replies(t: Task): seq<Reply> {
    seq(|t.past|, i requires 0 <= i < |t.past| => t.past[i].reply)
  }

  ghost predicate IsChain(t: Task) {
    && Chain(t.start.url, t.start.opt, Requests(t), Replies(t))
    && (t.Finished? && (t.outcome.Delivered? || t.outcome.OpaqueRedirect?) ==>
          t.past != [] && var h := t.past[|t.past| - 1]; Decide(h.req.url, h.req.opt, h.reply) == Finish(t.outcome))
  }

  lemma FinishedChain(t: Task, r: Reply)
    requires IsChain(t) && t.Fetching? && Continue(t.req, r).None?
    ensures IsChain(Finished(t.start, Decide(t.req.url, t.req.opt, r).outcome, t.past + [Hop(t.req, t.via, r)]))
  {
    var t' := Finished(t.start, Decide(t.req.url, t.req.opt, r).outcome, t.past + [Hop(t.req, t.via, r)]);
    assert Requests(t') == Requests(t) && Replies(t') == Replies(t) + [r];
    ChainGrows(t.start.url, t.start.opt, Requests(t), Replies(t), r);
  }

  lemma ContinuedChain(t: Task, r: Reply, cache: Cache, env: Env)
    requires IsChain(t) && t.Fetching? && Continue(t.req, r).Some?
    ensures IsChain(Begin(t.start, Continue(t.req, r).value, t.past + [Hop(t.req, t.via, r)], cache, env))
  {
    var t' := Begin(t.start, Continue(t.req, r).value, t.past + [Hop(t.req, t.via, r)], cache, env);
    assert Replies(t') == Replies(t) + [r];
    assert Requests(t') == if t'.Finished? then Requests(t) else Requests(t) + [t'.req];
    assert Requests(t)[|t.past|] == t.req;
    ChainGrows(t.start.url, t.start.opt, Requests(t), Replies(t), r);
  }

  ghost predicate AllChains(s: State) {
    forall id :: id in s.tasks ==> IsChain(s.tasks[id])
  }

  lemma StartIsChain(url: Url, o: Opt, cache: Cache, env: Env)
    requires Initial(o)
    ensures IsChain(Begin(Request(url, o), Request(url, TaintOn(url, o)), [], cache, env))
  {
    var q := Request(url, TaintOn(url, o));
    var t := Begin(Request(url, o), q, [], cache, env);
    assert Requests(t) == if t.Finished? then [] else [q];
  }

  lemma PreflightedIsChain(t: Task, n: nat)
    requires IsChain(t) && t.Preflighting?
    ensures IsChain(Fetching(t.start, t.req, Preflighted(n), t.past))
    ensures IsChain(Finished(t.start, NetworkError, t.past))
  {
    assert Requests(Fetching(t.start, t.req, Preflighted(n), t.past)) == Requests(t);
    var f := Finished(t.start, NetworkError, t.past);
    assert Requests(t) == Requests(f) + [t.req];
    assert forall i :: 0 <= i < |Requests(f)| ==> Requests(f)[i] == Requests(t)[i];
  }

  lemma StepKeepsChains(s: State, e: Event)
    requires AllChains(s)
    ensures AllChains(Step(s, e))
  {
    if e.Start? {
      if e.id !in s.tasks && Initial(e.opt) {
        StartIsChain(e.url, e.opt, s.cache, e.env);
      }
    } else if e.id in s.tasks {
      var t := s.tasks[e.id];
      if t.Fetching? {
        if Continue(t.req, e.reply).None? {
          FinishedChain(t, e.reply);
        } else {
          ContinuedChain(t, e.reply, s.cache, e.env);
        }
      } else if t.Preflighting? {
        PreflightedIsChain(t, |s.grants|);
      }
    }
  }

  /** In every interleaving each task's requests and responses form a chain from the options it was started with. */
  lemma {:induction false} RunsAreChains(events: seq<Event>)
    ensures AllChains(Run(events))
  {
    if events != [] {
      RunsAreChains(events[..|events| - 1]);
      StepKeepsChains(Run(events[..|events| - 1]), events[|events| - 1]);
    }
  }

  /** Delivered, or handed back as an opaque redirect, after going to a foreign origin. */
  ghost predicate DeliveredForeign(t: Task) {
    && t.Finished? && (t.outcome.Delivered? || t.outcome.OpaqueRedirect?) && CorsMode(t.start.opt)
    && exists j :: 0 <= j < |t.past| && t.past[j].req.url.origin != t.start.opt.origin
  }

  /** The last response passed the CORS check for the origin its request carried. */
  ghost predicate LastChecked(t: Task)
    requires t.Finished?
  {
    && t.past != [] && t.past[|t.past| - 1].reply.Reply?
    && CorsCheck(t.past[|t.past| - 1].reply,
                 if LeftForeign(Requests(t), |t.past| - 1) then "null" else t.start.opt.origin,
                 WithCredentials(t.start.opt))
  }

  lemma ChainWasChecked(t: Task)
    requires IsChain(t) && DeliveredForeign(t)
    ensures LastChecked(t)
  {
    var j :| 0 <= j < |t.past| && t.past[j].req.url.origin != t.start.opt.origin;
    var qs, n := Requests(t), |t.past| - 1;
    assert qs[j] == t.past[j].req && qs[n] == t.past[n].req && Replies(t)[n] == t.past[n].reply;
    TaintExact(t.start.url, t.start.opt, qs, Replies(t), 0);
    assert WentForeign(qs, n);
    CorsCheckedAfterTaint(t.start.url, t.start.opt, qs, Replies(t), n);
  }

  /**
   In every interleaving, a cors fetch that was delivered (or handed back as an opaque redirect) after its
   chain had gone to a foreign origin had its last response checked against the origin it then carried.
   */
  lemma DeliveredWasChecked(events: seq<Event>, id: nat)
    requires id in Run(events).tasks && DeliveredForeign(Run(events).tasks[id])
    ensures LastChecked(Run(events).tasks[id])
  {
    RunsAreChains(events);
    ChainWasChecked(Run(events).tasks[id]);
  }

  // ----- preflight safety -----

  lemma NoNewlineSplit(a: string, b: string, a': string, b': string)
    requires '\n' !in b && '\n' !in b' && a + "\n" + b == a' + "\n" + b'
    ensures a == a' && b == b'
  {
    var s := a + "\n" + b;
    assert s[|a|] == '\n' && s[|a'|] == '\n';
    assert s[|a| + 1..] == b && s[|a'| + 1..] == b';
    assert |a| == |a'|;
    assert s[..|a|] == a && s[..|a'|] == a';
  }

  /** Origins and URLs hold no line break, so a key determines tab, origin, URL and credentials mode. */
  lemma CacheKeyInjective(tab: string, o: Line, u: Line, c: bool, tab': string, o': Line, u': Line, c': bool)
    requires CacheKey(tab, o, u, c) == CacheKey(tab', o', u', c')
    ensures tab == tab' && o == o' && u == u' && c == c'
  {
    var d, d' := if c then "1" else "0", if c' then "1" else "0";
    NoNewlineSplit(tab + "\n" + o + "\n" + u, d, tab' + "\n" + o' + "\n" + u', d');
    NoNewlineSplit(tab + "\n" + o, u, tab' + "\n" + o', u');
    NoNewlineSplit(tab, o, tab', o');
  }

  /** A grant that clears a request: for the same tab, origin, URL and credentials mode, checked, and covering it. */
  ghost predicate Clears(g: Grant, q: Request) {
    && g.tabId == q.opt.tabId && g.origin == RequestOrigin(q.opt) && g.href == q.url.href
    && g.credentials == WithCredentials(q.opt)
    && g.reply.Reply? && 200 <= g.reply.status <= 299
    && CorsCheck(g.reply, g.origin, g.credentials)
    && PreflightAllows(EntryOf(g.reply, g.expires), q.opt.verb, UnsafeNames(q.opt), g.credentials)
  }

  ghost predicate Cleared(grants: seq<Grant>, q: Request, via: Via) {
    NeedsPreflight(q.opt) ==>
      exists i :: 0 <= i < |grants| && Clears(grants[i], q)
        && (via == Preflighted(i) || (via.FromCache? && grants[i].expires > via.at))
  }

  ghost predicate TaskCleared(grants: seq<Grant>, t: Task) {
    && (forall i :: 0 <= i < |t.past| ==> Cleared(grants, t.past[i].req, t.past[i].via))
    && (t.Fetching? ==> Cleared(grants, t.req, t.via))
    && (t.Preflighting? ==> NeedsPreflight(t.req.opt))
  }

  /** The cached entry under a key is what some checked preflight response for that key granted. */
  ghost predicate Backed(grants: seq<Grant>, key: string, e: Entry) {
    exists i :: 0 <= i < |grants|
      && var g := grants[i];
         && CacheKey(g.tabId, g.origin, g.href, g.credentials) == key
         && g.reply.Reply? && 200 <= g.reply.status <= 299
         && CorsCheck(g.reply, g.origin, g.credentials)
         && EntryOf(g.reply, g.expires) == e
  }

  ghost predicate CacheSound(s: State) {
    && |s.cache| <= CACHE_CAP
    && forall i :: 0 <= i < |s.cache| ==> Backed(s.grants, s.cache[i].0, s.cache[i].1)
  }

  ghost predicate Safe(s: State) {
    CacheSound(s) && forall id :: id in s.tasks ==> TaskCleared(s.grants, s.tasks[id])
  }

  lemma GrantsGrow(grants: seq<Grant>, g: Grant)
    ensures forall q, via :: Cleared(grants, q, via) ==> Cleared(grants + [g], q, via)
    ensures forall k, e :: Backed(grants, k, e) ==> Backed(grants + [g], k, e)
  {
    assert forall i :: 0 <= i < |grants| ==> (grants + [g])[i] == grants[i];
  }

  lemma BeginIsCleared(s: State, start: Request, q: Request, past: seq<Hop>, env: Env)
    requires CacheSound(s) && forall i :: 0 <= i < |past| ==> Cleared(s.grants, past[i].req, past[i].via)
    ensures TaskCleared(s.grants, Begin(start, q, past, s.cache, env))
  {
    var t := Begin(start, q, past, s.cache, env);
    if t.Fetching? && t.via.FromCache? {
      var p := IndexOf(Keys(s.cache), KeyFor(q));
      var i :| 0 <= i < |s.grants|
        && (var g := s.grants[i];
         && CacheKey(g.tabId, g.origin, g.href, g.credentials) == s.cache[p].0
         && g.reply.Reply? && 200 <= g.reply.status <= 299
         && CorsCheck(g.reply, g.origin, g.credentials)
         && EntryOf(g.reply, g.expires) == s.cache[p].1);
      var g := s.grants[i];
      CacheKeyInjective(g.tabId, g.origin, g.href, g.credentials,
                        q.opt.tabId, RequestOrigin(q.opt), q.url.href, WithCredentials(q.opt));
      assert Clears(g, q);
    }
  }

  lemma StoreHolds(cache: Cache, key: string, e: Entry)
    requires |cache| <= CACHE_CAP
    ensures var after := Store(cache, key, e);
      |after| <= CACHE_CAP && forall i :: 0 <= i < |after| ==> after[i] == (key, e) || after[i] in cache
  {
  }

  lemma StoreIsSound(s: State, q: Request, g: Grant)
    requires CacheSound(s)
    requires g.reply.Reply? && 200 <= g.reply.status <= 299 && CorsCheck(g.reply, g.origin, g.credentials)
    requires CacheKey(g.tabId, g.origin, g.href, g.credentials) == KeyFor(q)
    ensures CacheSound(s.(cache := Store(s.cache, KeyFor(q), EntryOf(g.reply, g.expires)), grants := s.grants + [g]))
    ensures CacheSound(s.(grants := s.grants + [g]))
  {
    GrantsGrow(s.grants, g);
    assert (s.grants + [g])[|s.grants|] == g;
    assert Backed(s.grants + [g], KeyFor(q), EntryOf(g.reply, g.expires));
    StoreHolds(s.cache, KeyFor(q), EntryOf(g.reply, g.expires));
  }

  lemma TaskStaysCleared(grants: seq<Grant>, g: Grant, t: Task)
    requires TaskCleared(grants, t)
    ensures TaskCleared(grants + [g], t)
  {
    GrantsGrow(grants, g);
  }

  lemma GrantClears(s: State, t: Task, r: Reply)
    requires t.Preflighting? && PreflightPasses(t.req, r)
    ensures Cleared(s.grants + [GrantFor(t.req, r, t.at)], t.req, Preflighted(|s.grants|))
  {
    var grants := s.grants + [GrantFor(t.req, r, t.at)];
    assert Clears(grants[|s.grants|], t.req);
  }

  lemma PreflightKeepsSafe(s: State, id: nat, r: Reply)
    requires Safe(s) && id in s.tasks && s.tasks[id].Preflighting?
    ensures Safe(OnPreflight(s, id, r))
  {
    var t := s.tasks[id];
    if PreflightPasses(t.req, r) {
      var g := GrantFor(t.req, r, t.at);
      var s' := OnPreflight(s, id, r);
      assert CacheSound(s') by {
        StoreIsSound(s, t.req, g);
      }
      GrantClears(s, t, r);
      forall i | i in s.tasks ensures TaskCleared(s'.grants, s'.tasks[i]) {
        TaskStaysCleared(s.grants, g, s.tasks[i]);
      }
    }
  }

  lemma ReplyKeepsSafe(s: State, id: nat, r: Reply, env: Env)
    requires Safe(s) && id in s.tasks && s.tasks[id].Fetching?
    ensures Safe(OnReply(s, id, r, env))
  {
    var t := s.tasks[id];
    if Continue(t.req, r).Some? {
      BeginIsCleared(s, t.start, Continue(t.req, r).value, t.past + [Hop(t.req, t.via, r)], env);
    }
  }

  lemma StepKeepsSafe(s: State, e: Event)
    requires Safe(s)
    ensures Safe(Step(s, e))
  {
    if e.Start? {
      if e.id !in s.tasks && Initial(e.opt) {
        BeginIsCleared(s, Request(e.url, e.opt), Request(e.url, TaintOn(e.url, e.opt)), [], e.env);
      }
    } else if e.id in s.tasks {
      if s.tasks[e.id].Preflighting? {
        PreflightKeepsSafe(s, e.id, e.reply);
      } else if s.tasks[e.id].Fetching? {
        ReplyKeepsSafe(s, e.id, e.reply, e.env);
      }
    }
  }

  /**
   In every interleaving, every request that needs a preflight reaches the kernel only after one passed for
   it: in this hop, or earlier with its entry still unexpired when the cache was asked. The cache stays within its cap.
   */
  lemma {:induction false} PreflightSafety(events: seq<Event>)
    ensures Safe(Run(events))
  {
    if events != [] {
      PreflightSafety(events[..|events| - 1]);
      StepKeepsSafe(Run(events[..|events| - 1]), events[|events| - 1]);
    }
  }

  // ----- every task ends -----

  /** Redirects and the reissue still available to a request. */
  function Rank(o: Opt): nat {
    (if o.redirectDepth < MAX_REDIRECTS then MAX_REDIRECTS - o.redirectDepth else 0)
      + (if o.criticalRestart then 0 else 1)
  }

  /** Kernel answers a task can still consume. */
  function Budget(t: Task): nat {
    match t
    case Finished(_, _, _) => 0
    case Fetching(_, q, _, _) => 2 * Rank(q.opt) + 1
    case Preflighting(_, q, _, _) => 2 * Rank(q.opt) + 2
  }

  lemma AnswerSpends(s: State, e: Event)
    requires e.Answer? && e.id in s.tasks && !s.tasks[e.id].Finished?
    ensures Budget(Step(s, e).tasks[e.id]) < Budget(s.tasks[e.id])
  {
    var t := s.tasks[e.id];
    if t.Fetching? && Continue(t.req, e.reply).Some? {
      ContinueStep(t.req, e.reply);
      assert Rank(Continue(t.req, e.reply).value.opt) < Rank(t.req.opt);
    }
  }

  /** How many kernel answers a task has consumed along the run. */
  function Answers(events: seq<Event>, id: nat): nat {
    if events == [] then 0
    else
      var init, e := events[..|events| - 1], events[|events| - 1];
      var s := Run(init);
      Answers(init, id) + (if e.Answer? && e.id == id && id in s.tasks && !s.tasks[id].Finished? then 1 else 0)
  }

  /**
   Whatever the servers answer, a task finishes after at most 44 kernel calls: 22 requests, each with at most one
   preflight.
   */
  lemma {:induction false} TasksEnd(events: seq<Event>, id: nat)
    ensures var s := Run(events);
      if id in s.tasks then Answers(events, id) + Budget(s.tasks[id]) <= 44 else Answers(events, id) == 0
  {
    if events != [] {
      var init, e := events[..|events| - 1], events[|events| - 1];
      TasksEnd(init, id);
      var s := Run(init);
      if e.Answer? && e.id == id && id in s.tasks && !s.tasks[id].Finished? {
        AnswerSpends(s, e);
      }
    }
  }
}
