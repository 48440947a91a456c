/** Redirect chains: what holds of every request along every chain, whatever the servers answer. */
module HopChain {
  import opened Prelude
  import opened Fetch

  /** Options as `transportFetch` hands them to the first hop. */
  predicate Initial(o: Opt) {
    && o.redirectDepth == 0 && !o.tainted && !o.originTainted && !o.criticalRestart
    && ((o.verb == "GET" || o.verb == "HEAD") ==> o.body.None?)
  }

  /** The requests of a chain: each one is the continuation the previous response led to. The last may be unanswered. */
  ghost predicate Linked(qs: seq<Request>, replies: seq<Reply>) {
    && |replies| <= |qs| <= |replies| + 1
    && forall i :: 0 <= i < |qs| - 1 ==> Continue(qs[i], replies[i]) == Some(qs[i + 1])
  }

  ghost predicate Chain(url: Url, o: Opt, qs: seq<Request>, replies: seq<Reply>) {
    Initial(o) && Linked(qs, replies) && (qs != [] ==> qs[0] == Request(url, TaintOn(url, o)))
  }

  /** An unanswered request is answered; the chain ends there or goes on with the continuation. */
  lemma ChainGrows(url: Url, o: Opt, qs: seq<Request>, replies: seq<Reply>, r: Reply)
    requires Chain(url, o, qs, replies) && |qs| == |replies| + 1
    ensures Chain(url, o, qs, replies + [r])
    ensures var next := Continue(qs[|replies|], r); next.Some? ==> Chain(url, o, qs + [next.value], replies + [r])
  {
  }

  /** What one continuation keeps of the request. */
  ghost predicate SameFetch(a: Opt, b: Opt) {
    && a.tabId == b.tabId && a.origin == b.origin
    && a.runtimeFetch == b.runtimeFetch && a.elementCors == b.elementCors && a.document == b.document
    && a.mode == b.mode && a.credentials == b.credentials && a.redirect == b.redirect
    && a.implicitHeaders == b.implicitHeaders
  }

  lemma ContinueStep(q: Request, r: Reply)
    requires Continue(q, r).Some?
    ensures var n := Continue(q, r).value;
      && SameFetch(q.opt, n.opt)
      && n.opt.tainted == (q.opt.tainted || (CorsMode(q.opt) && n.url.origin != q.opt.origin))
      && n.opt.originTainted == (q.opt.originTainted || TaintsOrigin(q.url, q.opt, n.url))
      && ((n.opt.criticalRestart == q.opt.criticalRestart
           && n.opt.redirectDepth == q.opt.redirectDepth + 1 <= MAX_REDIRECTS)
          || (n.opt.criticalRestart && !q.opt.criticalRestart && n.url == q.url
              && n.opt.redirectDepth == q.opt.redirectDepth))
  {
    var a := Decide(q.url, q.opt, r);
    if a.Redirect? {
      assert a.opt == RedirectOpt(q.url, q.opt, a.next, r.status) && q.opt.redirectDepth < MAX_REDIRECTS;
    }
  }

  lemma RedirectRequest(url: Url, o: Opt, next: Url, status: nat)
    ensures var n := RedirectOpt(url, o, next, status);
      && SameRequestOrGet(o, n)
      && OnlyDropped(o.headers, n.headers)
      && (next.origin != url.origin ==> "authorization" !in n.headers)
  {
  }

  /** Method and body stay, or become GET without a body and without content headers. */
  ghost predicate SameRequestOrGet(a: Opt, b: Opt) {
    || (b.verb == a.verb && b.body == a.body)
    || (b.verb == "GET" != a.verb && b.body.None? && b.headers.Keys !! CONTENT_HEADERS)
  }

  ghost predicate OnlyDropped(a: Headers, b: Headers) {
    b.Keys <= a.Keys && forall k :: k in b ==> b[k] == a[k]
  }

  lemma ContinueRequest(q: Request, r: Reply)
    requires Continue(q, r).Some?
    ensures var n := Continue(q, r).value;
      && SameRequestOrGet(q.opt, n.opt)
      && OnlyDropped(q.opt.headers, n.opt.headers)
      && (n.url.origin != q.url.origin ==> "authorization" !in n.opt.headers)
  {
    var a := Decide(q.url, q.opt, r);
    if a.Redirect? {
      RedirectRequest(q.url, q.opt, a.next, r.status);
    }
  }

  // ----- taint over the whole chain -----

  ghost predicate WentForeign(qs: seq<Request>, k: nat)
    requires k < |qs|
  {
    exists j :: 0 <= j <= k && qs[j].url.origin != qs[0].opt.origin
  }

  /** Some earlier request left an origin foreign to the document for yet another origin. */
  ghost predicate LeftForeign(qs: seq<Request>, k: nat)
    requires k < |qs|
  {
    exists j :: 0 <= j < k && qs[j].url.origin != qs[0].opt.origin && qs[j + 1].url.origin != qs[j].url.origin
  }

  /** The flags of request k say exactly what the chain did so far. */
  lemma {:induction false} TaintExact(url: Url, o: Opt, qs: seq<Request>, replies: seq<Reply>, k: nat)
    requires Chain(url, o, qs, replies) && k < |qs|
    ensures SameFetch(o, qs[k].opt)
    ensures qs[k].opt.tainted <==> CorsMode(o) && WentForeign(qs, k)
    ensures qs[k].opt.originTainted <==> CorsMode(o) && LeftForeign(qs, k)
  {
    if k == 0 {
    } else {
      TaintExact(url, o, qs, replies, k - 1);
      assert Continue(qs[k - 1], replies[k - 1]) == Some(qs[k]);
      ContinueStep(qs[k - 1], replies[k - 1]);
    }
  }

  /**
   Once a cors chain has made one cross-origin request, no later response is delivered or followed
   unless it passed the CORS check for the origin the request then carries.
   */
  lemma CorsCheckedAfterTaint(url: Url, o: Opt, qs: seq<Request>, replies: seq<Reply>, k: nat)
    requires Chain(url, o, qs, replies) && k < |replies| && CorsMode(o) && WentForeign(qs, k)
    requires var a := Decide(qs[k].url, qs[k].opt, replies[k]);
      a.Redirect? || a == Finish(Delivered) || a == Finish(OpaqueRedirect)
    ensures replies[k].Reply?
    ensures CorsCheck(replies[k], if LeftForeign(qs, k) then "null" else o.origin, WithCredentials(o))
  {
    TaintExact(url, o, qs, replies, k);
  }

  // ----- length -----

  /** Each request is a redirect further, or the one reissue; so a chain has at most 22 requests. */
  lemma {:induction false} ChainLength(url: Url, o: Opt, qs: seq<Request>, replies: seq<Reply>, k: nat)
    requires Chain(url, o, qs, replies) && k < |qs|
    ensures qs[k].opt.redirectDepth + (if qs[k].opt.criticalRestart then 1 else 0) == k
    ensures qs[k].opt.redirectDepth <= MAX_REDIRECTS
    ensures k <= MAX_REDIRECTS + 1
  {
    if k > 0 {
      ChainLength(url, o, qs, replies, k - 1);
      assert Continue(qs[k - 1], replies[k - 1]) == Some(qs[k]);
      ContinueStep(qs[k - 1], replies[k - 1]);
    }
  }

  // ----- verb, body and headers -----

  /** Method and body are the originals, or GET without a body and without content headers; nothing is ever added. */
  lemma {:induction false} MethodAndBody(url: Url, o: Opt, qs: seq<Request>, replies: seq<Reply>, k: nat)
    requires Chain(url, o, qs, replies) && k < |qs|
    ensures var c := qs[k].opt;
      && (c.verb == o.verb || c.verb == "GET")
      && (c.verb == o.verb ==> c.body == o.body)
      && (c.verb != o.verb ==> c.body.None? && c.headers.Keys !! CONTENT_HEADERS)
      && c.headers.Keys <= o.headers.Keys
      && (forall h :: h in c.headers ==> c.headers[h] == o.headers[h])
  {
    if k > 0 {
      MethodAndBody(url, o, qs, replies, k - 1);
      assert Continue(qs[k - 1], replies[k - 1]) == Some(qs[k]);
      ContinueRequest(qs[k - 1], replies[k - 1]);
    }
  }

  /**
   The method changes at most once: after a change every later request has the same method, body and no content
   headers.
   */
  lemma {:induction false} MethodChangesOnce(url: Url, o: Opt, qs: seq<Request>, replies: seq<Reply>, j: nat, k: nat)
    requires Chain(url, o, qs, replies) && j <= k < |qs| && qs[j].opt.verb != o.verb
    ensures qs[k].opt.verb == qs[j].opt.verb && qs[k].opt.verb != o.verb
    ensures qs[k].opt.body.None? && qs[k].opt.headers.Keys !! CONTENT_HEADERS
  {
    MethodAndBody(url, o, qs, replies, k);
    MethodAndBody(url, o, qs, replies, j);
    if j < k {
      MethodChangesOnce(url, o, qs, replies, j, k - 1);
      assert Continue(qs[k - 1], replies[k - 1]) == Some(qs[k]);
      ContinueRequest(qs[k - 1], replies[k - 1]);
    }
  }

  /** The rule of the Fetch Standard for when following a redirect turns a request into a GET. */
  predicate TurnsIntoGet(status: nat, verb: string) {
    ((status == 301 || status == 302) && verb == "POST") || (status == 303 && verb != "GET" && verb != "HEAD")
  }

  /** Some response before request k was followed as a redirect that turns the original method into GET. */
  ghost predicate TurnedIntoGet(o: Opt, qs: seq<Request>, replies: seq<Reply>, k: nat)
    requires k < |qs| <= |replies| + 1
  {
    exists j :: 0 <= j < k && Decide(qs[j].url, qs[j].opt, replies[j]).Redirect?
      && TurnsIntoGet(replies[j].status, o.verb)
  }

  lemma ContinueMethod(q: Request, r: Reply)
    requires Continue(q, r).Some?
    ensures Continue(q, r).value.opt.verb ==
      if Decide(q.url, q.opt, r).Redirect? && TurnsIntoGet(r.status, q.opt.verb) then "GET" else q.opt.verb
  {
    var a := Decide(q.url, q.opt, r);
    if a.Redirect? {
      assert a.opt == RedirectOpt(q.url, q.opt, a.next, r.status);
    }
  }

  /** The method is GET instead of the original exactly when some followed redirect demanded it. */
  lemma {:induction false} MethodExact(url: Url, o: Opt, qs: seq<Request>, replies: seq<Reply>, k: nat)
    requires Chain(url, o, qs, replies) && k < |qs|
    ensures qs[k].opt.verb == if TurnedIntoGet(o, qs, replies, k) then "GET" else o.verb
  {
    if k > 0 {
      MethodExact(url, o, qs, replies, k - 1);
      assert Continue(qs[k - 1], replies[k - 1]) == Some(qs[k]);
      ContinueMethod(qs[k - 1], replies[k - 1]);
      if TurnedIntoGet(o, qs, replies, k - 1) {
        assert TurnedIntoGet(o, qs, replies, k);
      } else if TurnedIntoGet(o, qs, replies, k) {
        var j :| 0 <= j < k && Decide(qs[j].url, qs[j].opt, replies[j]).Redirect?
          && TurnsIntoGet(replies[j].status, o.verb);
        assert j == k - 1;
      }
    }
  }

  /** Two neighbouring requests up to k went to different origins. */
  ghost predicate ChangedOrigin(qs: seq<Request>, k: nat)
    requires k < |qs|
  {
    exists j :: 0 <= j < k && qs[j + 1].url.origin != qs[j].url.origin
  }

  function Dropped(changed: bool, crossed: bool): set<string> {
    (if changed then CONTENT_HEADERS else {}) + (if crossed then {"authorization"} else {})
  }

  lemma ContinueHeaders(q: Request, r: Reply)
    requires Continue(q, r).Some?
    ensures var n := Continue(q, r).value;
      n.opt.headers == q.opt.headers - Dropped(n.opt.verb != q.opt.verb, n.url.origin != q.url.origin)
  {
    var a := Decide(q.url, q.opt, r);
    if a.Redirect? {
      assert a.opt == RedirectOpt(q.url, q.opt, a.next, r.status);
    }
  }

  /**
   The headers of request k are the original ones, without the content headers once the method changed
   and without Authorization once the origin did.
   */
  lemma {:induction false} HeadersExact(url: Url, o: Opt, qs: seq<Request>, replies: seq<Reply>, k: nat)
    requires Chain(url, o, qs, replies) && k < |qs|
    ensures qs[k].opt.headers == o.headers - Dropped(qs[k].opt.verb != o.verb, ChangedOrigin(qs, k))
  {
    if k > 0 {
      HeadersExact(url, o, qs, replies, k - 1);
      assert Continue(qs[k - 1], replies[k - 1]) == Some(qs[k]);
      ContinueHeaders(qs[k - 1], replies[k - 1]);
      MethodAndBody(url, o, qs, replies, k - 1);
      MethodAndBody(url, o, qs, replies, k);
      if qs[k - 1].opt.verb != o.verb {
        MethodChangesOnce(url, o, qs, replies, k - 1, k);
      }
    }
  }

  /** A request carries the caller's Authorization only if every request so far went to one origin. */
  lemma {:induction false} AuthorizationStaysHome(url: Url, o: Opt, qs: seq<Request>, replies: seq<Reply>, k: nat)
    requires Chain(url, o, qs, replies) && k < |qs| && "authorization" in qs[k].opt.headers
    ensures forall j :: 0 <= j <= k ==> qs[j].url.origin == url.origin && "authorization" in qs[j].opt.headers
  {
    if k > 0 {
      assert Continue(qs[k - 1], replies[k - 1]) == Some(qs[k]);
      ContinueRequest(qs[k - 1], replies[k - 1]);
      AuthorizationStaysHome(url, o, qs, replies, k - 1);
    }
  }
}
