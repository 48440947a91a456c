/**
 The rendezvous as a protocol: page handlers, worker polls, posted results, timeouts, cancellations and
 shutdown, each a sequence of atomic steps over the hub, interleaved in any order.
 */
module SyncProtocol {
  import opened Prelude
  import opened SyncHub

  /** Where a page's handler is: in its select, past it without a result, or returned. */
  datatype Phase = Waiting | Leaving | Answered(post: Post) | GaveUp | Refused

  /** A job handed to the n-th poll, which came from `host`. */
  datatype Delivery = Delivery(job: Job, host: string, poll: nat)

  /**
   A result on its way to `job`, posted from `host`; `cause` is the job it is the result of, if it is that of a job
   handed out.
   */
  datatype Post = Post(job: Job, host: string, cause: Option<Job>)

  datatype State = State(
    jobs: map<string, Job>, queues: map<string, seq<Job>>, closed: bool,
    handlers: map<nat, Phase>, owner: map<nat, Job>,
    parked: seq<Job>, delivered: seq<Delivery>, taken: seq<Post>, sent: seq<Post>)

  datatype Event =
    | Park(job: Job)
    | Receive(host: string, poll: nat)
    | PostTake(id: string, host: string, cause: Option<Job>)
    | PostSend(post: nat)
    | Wake(token: nat, post: nat)
    | GiveUp(token: nat)
    | Leave(token: nat)
    | Close

  const INITIAL := State(map[], map[], false, map[], map[], [], [], [], [])

  function ParkStep(s: State, j: Job): State
    requires j.token !in s.handlers
  {
    if Verdict(s.jobs, s.queues, s.closed, j).Parked? then
      s.(jobs := s.jobs[j.id := j], queues := s.queues[j.host := QueueOf(s.queues, j.host) + [j]],
         handlers := s.handlers[j.token := Waiting], owner := s.owner[j.token := j], parked := s.parked + [j])
    else s.(handlers := s.handlers[j.token := Refused], owner := s.owner[j.token := j])
  }

  function ReceiveStep(s: State, host: string, poll: nat): State
    requires QueueOf(s.queues, host) != []
  {
    var q := QueueOf(s.queues, host);
    s.(queues := s.queues[host := q[1..]], delivered := s.delivered + [Delivery(q[0], host, poll)])
  }

  /** A result counts as that of a job only if the job was handed out at that host and carries that id. */
  function Genuine(s: State, id: string, host: string, cause: Option<Job>): Option<Job> {
    if cause.Some? && cause.value.id == id && cause.value.host == host && cause.value in DeliveredJobs(s.delivered)
    then cause else None
  }

  /** Anyone at a host posts a result under any id; the hub matches it by id and host. */
  function PostTakeStep(s: State, id: string, host: string, cause: Option<Job>): State {
    if id in s.jobs && s.jobs[id].host == host then
      s.(jobs := s.jobs - {id}, taken := s.taken + [Post(s.jobs[id], host, Genuine(s, id, host, cause))])
    else s
  }

  /** The result channel holds one value; a second would be dropped. */
  predicate HasResult(sent: seq<Post>, token: nat) {
    exists i :: 0 <= i < |sent| && sent[i].job.token == token
  }

  function PostSendStep(s: State, i: nat): State
    requires i < |s.taken|
  {
    var p := s.taken[i];
    s.(taken := s.taken[..i] + s.taken[i + 1..],
       sent := if HasResult(s.sent, p.job.token) then s.sent else s.sent + [p])
  }

  /** A handler moves on. */
  function Advance(s: State, t: nat, p: Phase): State {
    s.(handlers := s.handlers[t := p])
  }

  /** An id leaves the table. */
  function Forget(s: State, id: string): State {
    s.(jobs := s.jobs - {id})
  }

  function Step(s: State, e: Event): State {
    match e
    case Park(j) => if j.token in s.handlers then s else ParkStep(s, j)
    case Receive(host, poll) => if QueueOf(s.queues, host) == [] then s else ReceiveStep(s, host, poll)
    case PostTake(id, host, cause) => PostTakeStep(s, id, host, cause)
    case PostSend(i) => if i < |s.taken| then PostSendStep(s, i) else s
    case Wake(t, i) =>
      if t in s.handlers && s.handlers[t].Waiting? && i < |s.sent| && s.sent[i].job.token == t
      then Advance(s, t, Answered(s.sent[i]))
      else s
    case GiveUp(t) =>
      if t in s.handlers && s.handlers[t].Waiting? then Advance(s, t, Leaving) else s
    case Leave(t) =>
      if t in s.handlers && s.handlers[t].Leaving? && t in s.owner
      then Advance(Forget(s, s.owner[t].id), t, GaveUp)
      else s
    case Close => s.(closed := true)
  }

  function Run(events: seq<Event>): State {
    if events == [] then INITIAL else Step(Run(events[..|events| - 1]), events[|events| - 1])
  }

  // ----- the table -----

  /** A table entry is filed under its id and belongs to a handler that has not returned. */
  ghost predicate Owned(s: State, id: string)
    requires id in s.jobs
  {
    var j := s.jobs[id];
    && j.id == id && j.token in s.owner && s.owner[j.token] == j && j.token in s.handlers
    && (s.handlers[j.token].Waiting? || s.handlers[j.token].Leaving?)
    && j in s.parked
  }

  ghost predicate TableInv(s: State) {
    && |s.jobs| <= QUEUE_CAP
    && (forall t :: t in s.owner ==> s.owner[t].token == t && t in s.handlers)
    && (forall t :: t in s.handlers ==> t in s.owner)
    && (forall id :: id in s.jobs ==> Owned(s, id))
    && (forall t :: t in s.handlers && s.handlers[t].Answered? ==>
          s.handlers[t].post.job.token == t && s.handlers[t].post in s.sent)
  }

  /** A new handler appears. */
  function Arrived(s: State, j: Job, p: Phase): State {
    s.(handlers := s.handlers[j.token := p], owner := s.owner[j.token := j])
  }

  lemma TableArrived(s: State, j: Job, p: Phase)
    requires TableInv(s) && j.token !in s.handlers && !p.Answered?
    ensures TableInv(Arrived(s, j, p))
  {
    var s' := Arrived(s, j, p);
    forall id | id in s'.jobs ensures Owned(s', id) {
      assert Owned(s, id);
    }
  }

  lemma TablePark(s: State, j: Job)
    requires TableInv(s) && j.token !in s.handlers
    ensures TableInv(ParkStep(s, j))
  {
    if Verdict(s.jobs, s.queues, s.closed, j).Parked? {
      var a, s' := Arrived(s, j, Waiting), ParkStep(s, j);
      TableArrived(s, j, Waiting);
      forall id | id in s'.jobs ensures Owned(s', id) {
        if id != j.id {
          assert Owned(a, id);
        }
      }
    } else {
      TableArrived(s, j, Refused);
    }
  }

  lemma TablePostTake(s: State, id: string, host: string, cause: Option<Job>)
    requires TableInv(s)
    ensures TableInv(PostTakeStep(s, id, host, cause))
  {
    TableForget(s, id);
    var s' := PostTakeStep(s, id, host, cause);
    forall k | k in s'.jobs ensures Owned(s', k) {
      assert Owned(s, k);
    }
  }

  lemma TableForget(s: State, id: string)
    requires TableInv(s)
    ensures TableInv(Forget(s, id))
  {
    RemoveShrinks(s.jobs, id);
    var s' := Forget(s, id);
    forall k | k in s'.jobs ensures Owned(s', k) {
      assert Owned(s, k);
    }
  }

  /** No table entry belongs to this handler any more. */
  ghost predicate Gone(s: State, token: nat) {
    forall id :: id in s.jobs ==> s.jobs[id].token != token
  }

  /** A handler may return only when the table holds no job of it. */
  lemma TableAdvance(s: State, t: nat, p: Phase)
    requires TableInv(s) && t in s.handlers
    requires p.Answered? ==> p.post.job.token == t && p.post in s.sent
    requires p.Leaving? || Gone(s, t)
    ensures TableInv(Advance(s, t, p))
  {
    var s' := Advance(s, t, p);
    forall id | id in s'.jobs ensures Owned(s', id) {
      assert Owned(s, id);
    }
  }

  // ----- delivery -----

  function At(host: string): Job -> bool {
    (j: Job) => j.host == host
  }

  function DeliveredJobs(ds: seq<Delivery>): (js: seq<Job>)
    ensures |js| == |ds| && forall i :: 0 <= i < |ds| ==> js[i] == ds[i].job
  {
    seq(|ds|, i requires 0 <= i < |ds| => ds[i].job)
  }

  /** At a host, what was handed out followed by what still waits is what was parked, in order. */
  ghost predicate Fifo(delivered: seq<Delivery>, queues: map<string, seq<Job>>, parked: seq<Job>, h: string) {
    Filter(DeliveredJobs(delivered), At(h)) + QueueOf(queues, h) == Filter(parked, At(h))
  }

  ghost predicate QueueInv(s: State) {
    && (forall h :: Fifo(s.delivered, s.queues, s.parked, h) && |QueueOf(s.queues, h)| <= QUEUE_CAP)
    && (forall i :: 0 <= i < |s.delivered| ==> s.delivered[i].host == s.delivered[i].job.host)
  }

  ghost predicate TokensDistinct(s: State) {
    && (forall i :: 0 <= i < |s.parked| ==> s.parked[i].token in s.handlers)
    && Apart(s.parked)
  }

  ghost predicate Apart(js: seq<Job>) {
    forall i, j :: 0 <= i < j < |js| ==> js[i].token != js[j].token
  }

  lemma FilterPush(js: seq<Job>, j: Job, h: string)
    ensures Filter(js + [j], At(h)) == Filter(js, At(h)) + (if j.host == h then [j] else [])
  {
    assert (js + [j])[..|js|] == js;
  }

  lemma FifoPark(ds: seq<Delivery>, queues: map<string, seq<Job>>, parked: seq<Job>, j: Job, h: string)
    requires Fifo(ds, queues, parked, h)
    ensures Fifo(ds, queues[j.host := QueueOf(queues, j.host) + [j]], parked + [j], h)
  {
    FilterPush(parked, j, h);
  }

  lemma FifoReceive(ds: seq<Delivery>, queues: map<string, seq<Job>>, parked: seq<Job>, d: Delivery, h: string)
    requires Fifo(ds, queues, parked, h)
    requires QueueOf(queues, d.host) != [] && d.job == QueueOf(queues, d.host)[0] && d.job.host == d.host
    ensures Fifo(ds + [d], queues[d.host := QueueOf(queues, d.host)[1..]], parked, h)
  {
    var js := DeliveredJobs(ds);
    assert DeliveredJobs(ds + [d]) == js + [d.job];
    FilterPush(js, d.job, h);
    if h == d.host {
      MoveHead(Filter(js, At(h)), QueueOf(queues, h));
    } else {
      assert Filter(js, At(h)) + [] == Filter(js, At(h));
    }
  }

  /** The head of a host's queue was parked by a page of that host. */
  lemma HeadIsHome(s: State, h: string)
    requires QueueInv(s) && QueueOf(s.queues, h) != []
    ensures QueueOf(s.queues, h)[0].host == h
  {
    assert Fifo(s.delivered, s.queues, s.parked, h);
    var f := Filter(s.parked, At(h));
    assert f[|f| - |QueueOf(s.queues, h)|] in f;
  }

  lemma QueuePark(s: State, j: Job)
    requires QueueInv(s) && j.token !in s.handlers
    ensures QueueInv(ParkStep(s, j))
  {
    if Verdict(s.jobs, s.queues, s.closed, j).Parked? {
      var s' := ParkStep(s, j);
      forall h ensures Fifo(s'.delivered, s'.queues, s'.parked, h) && |QueueOf(s'.queues, h)| <= QUEUE_CAP {
        assert Fifo(s.delivered, s.queues, s.parked, h) && |QueueOf(s.queues, h)| <= QUEUE_CAP;
        FifoPark(s.delivered, s.queues, s.parked, j, h);
      }
    }
  }

  lemma QueueReceive(s: State, host: string, poll: nat)
    requires QueueInv(s) && QueueOf(s.queues, host) != []
    ensures QueueInv(ReceiveStep(s, host, poll))
  {
    HeadIsHome(s, host);
    var s' := ReceiveStep(s, host, poll);
    forall h ensures Fifo(s'.delivered, s'.queues, s'.parked, h) && |QueueOf(s'.queues, h)| <= QUEUE_CAP {
      assert Fifo(s.delivered, s.queues, s.parked, h) && |QueueOf(s.queues, h)| <= QUEUE_CAP;
      FifoReceive(s.delivered, s.queues, s.parked, Delivery(QueueOf(s.queues, host)[0], host, poll), h);
    }
  }

  lemma {:induction false} FilterDistinct(js: seq<Job>, h: string)
    requires Apart(js)
    ensures Apart(Filter(js, At(h)))
  {
    if js != [] {
      var init, last := js[..|js| - 1], js[|js| - 1];
      FilterDistinct(init, h);
      forall i | 0 <= i < |Filter(init, At(h))| ensures Filter(init, At(h))[i].token != last.token {
        assert Filter(init, At(h))[i] in init;
      }
    }
  }

  ghost predicate DeliveredOnce(s: State) {
    forall i, j :: 0 <= i < j < |s.delivered| ==> s.delivered[i].job.token != s.delivered[j].job.token
  }

  lemma DeliveredWasParked(s: State, i: nat)
    requires QueueInv(s) && i < |s.delivered|
    ensures s.delivered[i].job in s.parked
  {
    var j := s.delivered[i].job;
    assert Fifo(s.delivered, s.queues, s.parked, j.host);
    assert j == DeliveredJobs(s.delivered)[i];
    assert j in Filter(DeliveredJobs(s.delivered), At(j.host));
    assert j in Filter(s.parked, At(j.host));
  }

  /** The job at the head of a queue has not been handed out before. */
  lemma HeadIsNew(s: State, h: string, i: nat)
    requires QueueInv(s) && TokensDistinct(s) && QueueOf(s.queues, h) != [] && i < |s.delivered|
    ensures s.delivered[i].job.token != QueueOf(s.queues, h)[0].token
  {
    var head, j := QueueOf(s.queues, h)[0], s.delivered[i].job;
    HeadIsHome(s, h);
    DeliveredWasParked(s, i);
    assert Fifo(s.delivered, s.queues, s.parked, h);
    var got := Filter(DeliveredJobs(s.delivered), At(h));
    var f := Filter(s.parked, At(h));
    FilterDistinct(s.parked, h);
    assert f[|got|] == head;
    assert head in s.parked;
    if j.host == h {
      assert j == DeliveredJobs(s.delivered)[i];
      var k :| 0 <= k < |got| && got[k] == j;
      assert f[k] == j;
      assert f[k].token != f[|got|].token;
    } else {
      var a :| 0 <= a < |s.parked| && s.parked[a] == j;
      var b :| 0 <= b < |s.parked| && s.parked[b] == head;
      assert s.parked[if a < b then a else b].token != s.parked[if a < b then b else a].token;
    }
  }

  // ----- results -----

  /** A result taken for a job was posted from its host under its id, after the job left the table. */
  ghost predicate PostOk(s: State, p: Post) {
    && p.job.host == p.host && p.job.token in s.handlers && Gone(s, p.job.token) && p.job in s.parked
    && (p.cause.Some? ==> p.cause.value.id == p.job.id && p.cause.value.host == p.job.host
                          && p.cause.value in DeliveredJobs(s.delivered))
  }

  ghost predicate Distinct(ps: seq<Post>) {
    forall i, j :: 0 <= i < j < |ps| ==> ps[i].job.token != ps[j].job.token
  }

  ghost predicate PostInv(s: State) {
    && (forall p :: p in s.taken + s.sent ==> PostOk(s, p))
    && Distinct(s.taken + s.sent)
  }

  /** Steps that shrink the table, or add an entry of a new handler, keep every result in place. */
  lemma PostFrame(s: State, s': State)
    requires PostInv(s) && s'.taken == s.taken && s'.sent == s.sent
    requires forall id :: id in s'.jobs ==>
      (id in s.jobs && s'.jobs[id] == s.jobs[id]) || s'.jobs[id].token !in s.handlers
    requires forall t :: t in s.handlers ==> t in s'.handlers
    requires forall j :: j in s.parked ==> j in s'.parked
    requires forall j :: j in DeliveredJobs(s.delivered) ==> j in DeliveredJobs(s'.delivered)
    ensures PostInv(s')
  {
    forall p | p in s'.taken + s'.sent ensures PostOk(s', p) {
      assert PostOk(s, p);
    }
  }

  lemma PostTakeKeeps(s: State, id: string, host: string, cause: Option<Job>)
    requires TableInv(s) && PostInv(s)
    ensures PostInv(PostTakeStep(s, id, host, cause))
  {
    if id in s.jobs && s.jobs[id].host == host {
      var s' := PostTakeStep(s, id, host, cause);
      var p := Post(s.jobs[id], host, Genuine(s, id, host, cause));
      assert Owned(s, id);
      assert Gone(s', p.job.token) by {
        forall k | k in s'.jobs ensures s'.jobs[k].token != p.job.token {
          assert Owned(s, k);
        }
      }
      forall q | q in s.taken + s.sent ensures PostOk(s', q) && q.job.token != p.job.token {
        assert PostOk(s, q);
      }
      DistinctInsert(s.taken, s.sent, p);
    }
  }

  lemma DistinctInsert(a: seq<Post>, b: seq<Post>, p: Post)
    requires Distinct(a + b) && forall q :: q in a + b ==> q.job.token != p.job.token
    ensures Distinct(a + [p] + b)
  {
    var c, ab := a + [p] + b, a + b;
    forall i, j | 0 <= i < j < |c| ensures c[i].job.token != c[j].job.token {
      assert i != |a| ==> c[i] == ab[if i < |a| then i else i - 1];
      assert j != |a| ==> c[j] == ab[if j < |a| then j else j - 1];
    }
  }

  /** Moving one result from the middle to the end keeps all of them apart. */
  lemma DistinctMove(a: seq<Post>, p: Post, b: seq<Post>, c: seq<Post>)
    requires Distinct(a + [p] + b + c)
    ensures Distinct(a + b + c + [p])
  {
    var all, all' := a + [p] + b + c, a + b + c + [p];
    forall i, j | 0 <= i < j < |all'| ensures all'[i].job.token != all'[j].job.token {
      assert all[|a|] == p;
      assert all'[i] == all[if i < |a| then i else i + 1];
      assert j < |all'| - 1 ==> all'[j] == all[if j < |a| then j else j + 1];
    }
  }

  lemma ChannelIsFree(s: State, i: nat)
    requires Distinct(s.taken + s.sent) && i < |s.taken|
    ensures !HasResult(s.sent, s.taken[i].job.token)
  {
    var all := s.taken + s.sent;
    assert all[i] == s.taken[i];
    assert forall k :: 0 <= k < |s.sent| ==> all[|s.taken| + k] == s.sent[k];
  }

  /** The channel is free whenever a result is sent, so no result is dropped. */
  lemma PostSendKeeps(s: State, i: nat)
    requires PostInv(s) && i < |s.taken|
    ensures PostInv(PostSendStep(s, i))
    ensures PostSendStep(s, i).sent == s.sent + [s.taken[i]]
  {
    ChannelIsFree(s, i);
    var s', a, b := PostSendStep(s, i), s.taken[..i], s.taken[i + 1..];
    assert s.taken + s.sent == a + [s.taken[i]] + b + s.sent;
    assert s'.taken + s'.sent == a + b + s.sent + [s.taken[i]];
    DistinctMove(a, s.taken[i], b, s.sent);
    forall q | q in s'.taken + s'.sent ensures PostOk(s', q) {
      assert q in s.taken + s.sent;
      assert PostOk(s, q);
    }
  }

  // ----- every interleaving -----

  ghost predicate Inv(s: State) {
    TableInv(s) && QueueInv(s) && TokensDistinct(s) && DeliveredOnce(s) && PostInv(s)
  }

  lemma ParkTokens(s: State, j: Job)
    requires TokensDistinct(s) && DeliveredOnce(s) && j.token !in s.handlers
    ensures TokensDistinct(ParkStep(s, j)) && DeliveredOnce(ParkStep(s, j))
  {
  }

  lemma ParkPosts(s: State, j: Job)
    requires PostInv(s) && j.token !in s.handlers
    ensures PostInv(ParkStep(s, j))
  {
    PostFrame(s, ParkStep(s, j));
  }

  lemma ParkKeeps(s: State, j: Job)
    requires Inv(s) && j.token !in s.handlers
    ensures Inv(ParkStep(s, j))
  {
    TablePark(s, j);
    QueuePark(s, j);
    ParkTokens(s, j);
    ParkPosts(s, j);
  }

  lemma ReceiveKeeps(s: State, host: string, poll: nat)
    requires Inv(s) && QueueOf(s.queues, host) != []
    ensures Inv(ReceiveStep(s, host, poll))
  {
    var s' := ReceiveStep(s, host, poll);
    QueueReceive(s, host, poll);
    forall i | 0 <= i < |s.delivered| ensures s'.delivered[i].job.token != s'.delivered[|s.delivered|].job.token {
      HeadIsNew(s, host, i);
    }
    assert TableInv(s') by {
      forall id | id in s'.jobs ensures Owned(s', id) {
        assert Owned(s, id);
      }
    }
    assert forall i :: 0 <= i < |s.delivered| ==> DeliveredJobs(s'.delivered)[i] == DeliveredJobs(s.delivered)[i];
    PostFrame(s, s');
  }

  lemma PostTakeStepKeeps(s: State, id: string, host: string, cause: Option<Job>)
    requires Inv(s)
    ensures Inv(PostTakeStep(s, id, host, cause))
  {
    TablePostTake(s, id, host, cause);
    PostTakeKeeps(s, id, host, cause);
  }

  lemma PostSendStepKeeps(s: State, i: nat)
    requires Inv(s) && i < |s.taken|
    ensures Inv(PostSendStep(s, i))
  {
    PostSendKeeps(s, i);
    var s' := PostSendStep(s, i);
    assert TableInv(s') by {
      forall id | id in s'.jobs ensures Owned(s', id) {
        assert Owned(s, id);
      }
    }
  }

  lemma AdvanceKeeps(s: State, t: nat, p: Phase)
    requires Inv(s) && t in s.handlers
    requires p.Answered? ==> p.post.job.token == t && p.post in s.sent
    requires p.Leaving? || Gone(s, t)
    ensures Inv(Advance(s, t, p))
  {
    TableAdvance(s, t, p);
    PostFrame(s, Advance(s, t, p));
  }

  lemma ForgetKeeps(s: State, id: string)
    requires Inv(s)
    ensures Inv(Forget(s, id))
  {
    TableForget(s, id);
    PostFrame(s, Forget(s, id));
  }

  lemma WakeKeeps(s: State, t: nat, i: nat)
    requires Inv(s) && t in s.handlers && i < |s.sent| && s.sent[i].job.token == t
    ensures Inv(Advance(s, t, Answered(s.sent[i])))
  {
    assert s.sent[i] in s.taken + s.sent;
    assert PostOk(s, s.sent[i]);
    AdvanceKeeps(s, t, Answered(s.sent[i]));
  }

  lemma LeaveKeeps(s: State, t: nat)
    requires Inv(s) && t in s.handlers
    ensures t in s.owner && Inv(Advance(Forget(s, s.owner[t].id), t, GaveUp))
  {
    var id := s.owner[t].id;
    ForgetKeeps(s, id);
    forall k | k in Forget(s, id).jobs ensures s.jobs[k].token != t {
      assert Owned(s, k);
    }
    AdvanceKeeps(Forget(s, id), t, GaveUp);
  }

  lemma CloseKeeps(s: State)
    requires Inv(s)
    ensures Inv(Step(s, Close))
  {
    var s' := Step(s, Close);
    forall id | id in s'.jobs ensures Owned(s', id) {
      assert Owned(s, id);
    }
    PostFrame(s, s');
  }

  lemma PageStepKeeps(s: State, e: Event)
    requires Inv(s) && (e.Park? || e.GiveUp?)
    ensures Inv(Step(s, e))
  {
    match e
    case Park(j) =>
      if j.token !in s.handlers {
        ParkKeeps(s, j);
      }
    case GiveUp(t) =>
      if t in s.handlers && s.handlers[t].Waiting? {
        AdvanceKeeps(s, t, Leaving);
      }
  }

  lemma WakeStepKeeps(s: State, t: nat, i: nat)
    requires Inv(s)
    ensures Inv(Step(s, Wake(t, i)))
  {
    if t in s.handlers && s.handlers[t].Waiting? && i < |s.sent| && s.sent[i].job.token == t {
      WakeKeeps(s, t, i);
    }
  }

  lemma LeaveStepKeeps(s: State, t: nat)
    requires Inv(s)
    ensures Inv(Step(s, Leave(t)))
  {
    if t in s.handlers && s.handlers[t].Leaving? {
      LeaveKeeps(s, t);
    }
  }

  lemma WorkerStepKeeps(s: State, e: Event)
    requires Inv(s) && (e.Receive? || e.PostTake? || e.PostSend?)
    ensures Inv(Step(s, e))
  {
    match e
    case Receive(host, poll) =>
      if QueueOf(s.queues, host) != [] {
        ReceiveKeeps(s, host, poll);
      }
    case PostTake(id, host, cause) => PostTakeStepKeeps(s, id, host, cause);
    case PostSend(i) =>
      if i < |s.taken| {
        PostSendStepKeeps(s, i);
      }
  }

  lemma StepKeeps(s: State, e: Event)
    requires Inv(s)
    ensures Inv(Step(s, e))
  {
    match e
    case Close => CloseKeeps(s);
    case Park(_) | GiveUp(_) => PageStepKeeps(s, e);
    case Wake(t, i) => WakeStepKeeps(s, t, i);
    case Leave(t) => LeaveStepKeeps(s, t);
    case Receive(_, _) | PostTake(_, _, _) | PostSend(_) => WorkerStepKeeps(s, e);
  }

  /**
   Over every interleaving: the table never exceeds its bound and holds no job of a returned handler; every job is
   handed to at most one poll, of its own host, in the order its host's pages parked them; and every job
   receives at most one result, posted from its own host.
   */
  lemma {:induction false} RunsKeep(events: seq<Event>)
    ensures Inv(Run(events))
  {
    if events != [] {
      RunsKeep(events[..|events| - 1]);
      StepKeeps(Run(events[..|events| - 1]), events[|events| - 1]);
    }
  }

  // ----- the promises one by one -----

  /** Two deliveries are never of one job, and each goes to the host whose page parked it. */
  lemma AtMostOnePoll(events: seq<Event>, i: nat, j: nat)
    requires i < j < |Run(events).delivered|
    ensures var ds := Run(events).delivered;
      ds[i].job.token != ds[j].job.token && ds[i].host == ds[i].job.host && ds[j].host == ds[j].job.host
  {
    RunsKeep(events);
  }

  /** At every host, what was handed out and what still waits is what its pages parked, in that order. */
  lemma FirstInFirstOut(events: seq<Event>, host: string)
    ensures var s := Run(events);
      Filter(DeliveredJobs(s.delivered), At(host)) + QueueOf(s.queues, host) == Filter(s.parked, At(host))
  {
    RunsKeep(events);
    var s := Run(events);
    assert Fifo(s.delivered, s.queues, s.parked, host);
  }

  /** Two results are never for one job, and each was posted from the host of its job. */
  lemma AtMostOneResult(events: seq<Event>, i: nat, j: nat)
    requires i < j < |Run(events).sent|
    ensures var ps := Run(events).sent;
      ps[i].job.token != ps[j].job.token && ps[i].host == ps[i].job.host && ps[j].host == ps[j].job.host
  {
    RunsKeep(events);
    SentApart(Run(events), i, j);
  }

  lemma SentApart(s: State, i: nat, j: nat)
    requires PostInv(s) && i < j < |s.sent|
    ensures s.sent[i].job.token != s.sent[j].job.token
    ensures s.sent[i].host == s.sent[i].job.host && s.sent[j].host == s.sent[j].job.host
  {
    var all, n := s.taken + s.sent, |s.taken|;
    assert all[n + i] == s.sent[i] && all[n + j] == s.sent[j];
    assert s.sent[i] in all && s.sent[j] in all;
  }

  /** Once a handler has returned, the table holds no job of it; and the table never holds more than 64. */
  lemma ReturnedIsGone(events: seq<Event>, t: nat)
    requires var s := Run(events); t in s.handlers && !s.handlers[t].Waiting? && !s.handlers[t].Leaving?
    ensures Gone(Run(events), t) && |Run(events).jobs| <= QUEUE_CAP
  {
    RunsKeep(events);
    var s := Run(events);
    forall id | id in s.jobs ensures s.jobs[id].token != t {
      assert Owned(s, id);
    }
  }

  /** If no two parked requests share id and host, a result of some job reaches no other request than that job's. */
  lemma ResultReachesItsRequest(events: seq<Event>, t: nat)
    requires var s := Run(events);
      && (forall i, j :: 0 <= i < j < |s.parked| ==>
        s.parked[i].id != s.parked[j].id || s.parked[i].host != s.parked[j].host)
      && t in s.handlers && s.handlers[t].Answered? && s.handlers[t].post.cause.Some?
    ensures Run(events).handlers[t].post.cause.value.token == t
  {
    RunsKeep(events);
    var s := Run(events);
    AnswerCause(s, t);
  }

  /** The job an answer is the result of was parked under the same id and host. */
  lemma AnswerCause(s: State, t: nat)
    requires Inv(s) && t in s.handlers && s.handlers[t].Answered? && s.handlers[t].post.cause.Some?
    ensures var p := s.handlers[t].post;
      && p.job.token == t && p.job in s.parked && p.cause.value in s.parked
      && p.cause.value.id == p.job.id && p.cause.value.host == p.job.host
  {
    var p := s.handlers[t].post;
    assert p in s.taken + s.sent;
    var i :| 0 <= i < |s.delivered| && s.delivered[i].job == p.cause.value;
    DeliveredWasParked(s, i);
  }

  // ----- no result is lost -----

  ghost predicate IdsApart(js: seq<Job>) {
    forall i, j :: 0 <= i < j < |js| ==> js[i].id != js[j].id
  }

  /** A result for this handler's request is on its way or waiting in its channel. */
  ghost predicate Posted(s: State, t: nat) {
    exists p :: p in s.taken + s.sent && p.job.token == t
  }

  /** A result posted for this handler's request will still be matched to it, or has been. */
  ghost predicate Reachable(s: State, t: nat)
    requires t in s.owner
  {
    (s.owner[t].id in s.jobs && s.jobs[s.owner[t].id] == s.owner[t]) || Posted(s, t)
  }

  /** Handlers that have not returned own a parked request, and those still waiting can be reached. */
  ghost predicate NotLost(s: State) {
    && (forall t :: t in s.handlers && (s.handlers[t].Waiting? || s.handlers[t].Leaving?) ==>
          t in s.owner && s.owner[t].token == t && s.owner[t] in s.parked)
    && (forall t :: t in s.handlers && s.handlers[t].Waiting? ==> Reachable(s, t))
  }

  lemma PostedStays(s: State, s': State, t: nat)
    requires Posted(s, t) && forall p :: p in s.taken + s.sent ==> p in s'.taken + s'.sent
    ensures Posted(s', t)
  {
  }

  lemma ParkNotLost(s: State, j: Job)
    requires NotLost(s) && j.token !in s.handlers
    ensures NotLost(ParkStep(s, j))
  {
    var s' := ParkStep(s, j);
    forall t | t in s'.handlers && s'.handlers[t].Waiting? ensures Reachable(s', t) {
      if t != j.token && Posted(s, t) {
        PostedStays(s, s', t);
      }
    }
  }

  lemma PostTakeNotLost(s: State, id: string, host: string, cause: Option<Job>)
    requires NotLost(s)
    ensures NotLost(PostTakeStep(s, id, host, cause))
  {
    if id in s.jobs && s.jobs[id].host == host {
      var s' := PostTakeStep(s, id, host, cause);
      forall t | t in s'.handlers && s'.handlers[t].Waiting? ensures Reachable(s', t) {
        if Posted(s, t) {
          PostedStays(s, s', t);
        } else if s.owner[t].id == id {
          assert Post(s.jobs[id], host, Genuine(s, id, host, cause)) in s'.taken + s'.sent;
        }
      }
    }
  }

  lemma PostSendNotLost(s: State, i: nat)
    requires NotLost(s) && PostInv(s) && i < |s.taken|
    ensures NotLost(PostSendStep(s, i))
  {
    PostSendKeeps(s, i);
    var s' := PostSendStep(s, i);
    forall p | p in s.taken + s.sent ensures p in s'.taken + s'.sent {
      assert s.taken == s.taken[..i] + [s.taken[i]] + s.taken[i + 1..];
    }
    forall t | t in s'.handlers && s'.handlers[t].Waiting? ensures Reachable(s', t) {
      if Posted(s, t) {
        PostedStays(s, s', t);
      }
    }
  }

  lemma AdvanceNotLost(s: State, t: nat, p: Phase)
    requires NotLost(s) && t in s.handlers && !p.Waiting?
    requires p.Leaving? ==> s.handlers[t].Waiting?
    ensures NotLost(Advance(s, t, p))
  {
    var s' := Advance(s, t, p);
    forall u | u in s'.handlers && s'.handlers[u].Waiting? ensures Reachable(s', u) {
      if Posted(s, u) {
        PostedStays(s, s', u);
      }
    }
  }

  /** A handler that leaves takes no entry but its own along, as ids are never shared. */
  lemma LeaveNotLost(s: State, t: nat)
    requires NotLost(s) && IdsApart(s.parked) && t in s.handlers && s.handlers[t].Leaving?
    ensures t in s.owner && NotLost(Advance(Forget(s, s.owner[t].id), t, GaveUp))
  {
    var a := s.owner[t];
    var s' := Advance(Forget(s, a.id), t, GaveUp);
    forall u | u in s'.handlers && s'.handlers[u].Waiting? ensures Reachable(s', u) {
      if Posted(s, u) {
        PostedStays(s, s', u);
      } else {
        OtherId(s.parked, a, s.owner[u]);
      }
    }
  }

  lemma OtherId(js: seq<Job>, a: Job, b: Job)
    requires IdsApart(js) && a in js && b in js && a != b
    ensures a.id != b.id
  {
    var i :| 0 <= i < |js| && js[i] == a;
    var j :| 0 <= j < |js| && js[j] == b;
    assert js[if i < j then i else j].id != js[if i < j then j else i].id;
  }

  /** Handlers, table and results stay as they are. */
  lemma SameNotLost(s: State, s': State)
    requires NotLost(s) && s'.handlers == s.handlers && s'.owner == s.owner && s'.jobs == s.jobs
    requires s'.parked == s.parked && s'.taken == s.taken && s'.sent == s.sent
    ensures NotLost(s')
  {
    forall t | t in s'.handlers && s'.handlers[t].Waiting? ensures Reachable(s', t) {
      if Posted(s, t) {
        PostedStays(s, s', t);
      }
    }
  }

  lemma StepNotLost(s: State, e: Event)
    requires Inv(s) && NotLost(s) && IdsApart(s.parked)
    ensures NotLost(Step(s, e))
  {
    match e
    case Park(j) =>
      if j.token !in s.handlers {
        ParkNotLost(s, j);
      }
    case PostTake(id, host, cause) => PostTakeNotLost(s, id, host, cause);
    case PostSend(i) =>
      if i < |s.taken| {
        PostSendNotLost(s, i);
      }
    case Wake(t, i) =>
      if t in s.handlers && s.handlers[t].Waiting? && i < |s.sent| && s.sent[i].job.token == t {
        AdvanceNotLost(s, t, Answered(s.sent[i]));
      }
    case GiveUp(t) =>
      if t in s.handlers && s.handlers[t].Waiting? {
        AdvanceNotLost(s, t, Leaving);
      }
    case Leave(t) =>
      if t in s.handlers && s.handlers[t].Leaving? {
        LeaveNotLost(s, t);
      }
    case Receive(_, _) => SameNotLost(s, Step(s, e));
    case Close => SameNotLost(s, Step(s, e));
  }

  lemma ParkedGrows(s: State, e: Event)
    ensures s.parked <= Step(s, e).parked
  {
  }

  lemma {:induction false} RunsLoseNothing(events: seq<Event>)
    requires IdsApart(Run(events).parked)
    ensures NotLost(Run(events))
  {
    if events != [] {
      var before, e := events[..|events| - 1], events[|events| - 1];
      ParkedGrows(Run(before), e);
      RunsLoseNothing(before);
      RunsKeep(before);
      StepNotLost(Run(before), e);
    }
  }

  /**
   If no two parked requests share an id, at whatever hosts, then in every run each waiting request is still in the
   table under its id or has its result on the way: nothing another request does makes it unreachable.
   */
  lemma WaitingIsReachable(events: seq<Event>, t: nat)
    requires var s := Run(events); IdsApart(s.parked) && t in s.handlers && s.handlers[t].Waiting?
    ensures t in Run(events).owner && Reachable(Run(events), t)
  {
    RunsLoseNothing(events);
  }

  /**
   So a result posted for a waiting request that was handed out, from its host and as the first, becomes that request's:
   posted, sent and received, it is what the handler returns with.
   */
  lemma ResultArrives(events: seq<Event>, j: Job) returns (more: seq<Event>)
    requires var s := Run(events);
      && IdsApart(s.parked) && j.token in s.handlers && s.handlers[j.token].Waiting? && !Posted(s, j.token)
      && j.token in s.owner && s.owner[j.token] == j && j in DeliveredJobs(s.delivered)
    ensures var s := Run(events);
      more == events + [PostTake(j.id, j.host, Some(j))] + [PostSend(|s.taken|)] + [Wake(j.token, |s.sent|)]
    ensures j.token in Run(more).handlers && Run(more).handlers[j.token] == Answered(Post(j, j.host, Some(j)))
  {
    RunsLoseNothing(events);
    RunsKeep(events);
    var s := Run(events);
    var e1 := events + [PostTake(j.id, j.host, Some(j))];
    var e2 := e1 + [PostSend(|s.taken|)];
    more := e2 + [Wake(j.token, |s.sent|)];
    RunPush(events, PostTake(j.id, j.host, Some(j)));
    RunPush(e1, PostSend(|s.taken|));
    RunPush(e2, Wake(j.token, |s.sent|));
    assert Reachable(s, j.token);
    TakenAndSent(s, j);
  }

  lemma TakenAndSent(s: State, j: Job)
    requires Inv(s) && j.id in s.jobs && s.jobs[j.id] == j && j in DeliveredJobs(s.delivered) && !Posted(s, j.token)
    requires j.token in s.handlers && s.handlers[j.token].Waiting?
    ensures var p := Post(j, j.host, Some(j));
      var s' := Step(Step(s, PostTake(j.id, j.host, Some(j))), PostSend(|s.taken|));
      && s'.sent == s.sent + [p]
      && Step(s', Wake(j.token, |s.sent|)).handlers == s.handlers[j.token := Answered(p)]
  {
    var p := Post(j, j.host, Some(j));
    var s1 := PostTakeStep(s, j.id, j.host, Some(j));
    assert s1.taken == s.taken + [p] && s1.sent == s.sent;
    assert !HasResult(s1.sent, j.token) by {
      assert forall q :: q in s.sent ==> q in s.taken + s.sent;
    }
  }

  /** Neither in the table nor with a result on the way, and not answered. */
  ghost predicate Stranded(s: State, t: nat) {
    t in s.handlers && !s.handlers[t].Answered? && Gone(s, t) && !Posted(s, t)
  }

  /** A result not seen before is for a job that was in the table. */
  lemma NewPost(s: State, e: Event, p: Post)
    requires p in Step(s, e).taken + Step(s, e).sent
    ensures p in s.taken + s.sent || exists id :: id in s.jobs && s.jobs[id] == p.job
  {
    match e
    case PostTake(id, host, cause) =>
    case PostSend(i) =>
      if i < |s.taken| {
        assert s.taken == s.taken[..i] + [s.taken[i]] + s.taken[i + 1..];
      }
    case Park(_) | Receive(_, _) | Wake(_, _) | GiveUp(_) | Leave(_) | Close =>
  }

  /** An entry not seen before belongs to a new handler. */
  lemma NewEntry(s: State, e: Event, id: string)
    requires id in Step(s, e).jobs
    ensures (id in s.jobs && s.jobs[id] == Step(s, e).jobs[id]) || Step(s, e).jobs[id].token !in s.handlers
  {
  }

  lemma StepStrands(s: State, e: Event, t: nat)
    requires Stranded(s, t)
    ensures Stranded(Step(s, e), t)
  {
    var s' := Step(s, e);
    forall p | p in s'.taken + s'.sent ensures p.job.token != t {
      NewPost(s, e, p);
    }
    forall id | id in s'.jobs ensures s'.jobs[id].token != t {
      NewEntry(s, e, id);
    }
    StillUnanswered(s, e, t);
  }

  lemma StillUnanswered(s: State, e: Event, t: nat)
    requires t in s.handlers && !s.handlers[t].Answered? && !Posted(s, t)
    ensures t in Step(s, e).handlers && !Step(s, e).handlers[t].Answered?
  {
    if e.Wake? && e.post < |s.sent| {
      assert s.sent[e.post] in s.taken + s.sent;
    }
  }

  lemma UnreachableIsStranded(s: State, t: nat)
    requires TableInv(s) && t in s.handlers && t in s.owner && s.handlers[t].Waiting? && !Reachable(s, t)
    ensures Stranded(s, t)
  {
    forall id | id in s.jobs ensures s.jobs[id].token != t {
      assert Owned(s, id);
    }
  }

  lemma {:induction false} StaysStranded(events: seq<Event>, more: seq<Event>, t: nat)
    requires Stranded(Run(events), t)
    ensures Stranded(Run(events + more), t)
  {
    if more == [] {
      assert events + more == events;
    } else {
      var last := |more| - 1;
      StaysStranded(events, more[..last], t);
      assert events + more == (events + more[..last]) + [more[last]];
      RunPush(events + more[..last], more[last]);
      StepStrands(Run(events + more[..last]), more[last], t);
    }
  }

  /** A request that cannot be reached is never answered, whatever happens afterwards. */
  lemma StrandedForever(events: seq<Event>, more: seq<Event>, t: nat)
    requires var s := Run(events);
      t in s.handlers && t in s.owner && s.handlers[t].Waiting? && !Reachable(s, t)
    ensures Stranded(Run(events + more), t)
  {
    RunsKeep(events);
    UnreachableIsStranded(Run(events), t);
    StaysStranded(events, more, t);
  }

  /**
   Whenever two requests do share an id, even at different hosts, there is a run after which the second waits and can no
   longer be reached: the first, timing out while its own result was on the way, deleted the entry of the second.
   */
  lemma SharedIdStrands(a: Job, b: Job) returns (events: seq<Event>)
    requires a.id == b.id && a.token != b.token
    ensures var s := Run(events);
      && b.token in s.handlers && s.handlers[b.token].Waiting? && b in s.parked
      && b.token in s.owner && s.owner[b.token] == b && !Reachable(s, b.token)
  {
    var e1 := [] + [Park(a)];
    var e2 := e1 + [PostTake(a.id, a.host, None)];
    var e3 := e2 + [Park(b)];
    var e4 := e3 + [GiveUp(a.token)];
    events := e4 + [Leave(a.token)];
    RunPush([], Park(a));
    RunPush(e1, PostTake(a.id, a.host, None));
    RunPush(e2, Park(b));
    RunPush(e3, GiveUp(a.token));
    RunPush(e4, Leave(a.token));
    AnsweredEarly(a);
    assert Run(e3) == ParkStep(Run(e2), b);
    Strand(Run(e3), a, b);
  }

  lemma AnsweredEarly(a: Job)
    ensures var s := Step(Step(INITIAL, Park(a)), PostTake(a.id, a.host, None));
      && s.jobs == map[] && !s.closed && s.handlers == map[a.token := Waiting] && s.owner == map[a.token := a]
      && s.taken == [Post(a, a.host, None)] && s.sent == [] && s.queues == map[a.host := [a]]
  {
    assert Step(INITIAL, Park(a)) == ParkStep(INITIAL, a);
    var s := ParkStep(INITIAL, a);
    assert QueueOf(INITIAL.queues, a.host) + [a] == [a];
    assert s.jobs == map[a.id := a] && s.queues == map[a.host := [a]];
    assert s.handlers == map[a.token := Waiting] && s.owner == map[a.token := a];
    assert Step(s, PostTake(a.id, a.host, None)) == PostTakeStep(s, a.id, a.host, None);
    assert s.jobs - {a.id} == map[];
  }

  lemma Strand(s: State, a: Job, b: Job)
    requires a.id == b.id && a.token != b.token && s.taken == [Post(a, a.host, None)] && s.sent == []
    requires a.token in s.handlers && s.handlers[a.token].Waiting? && a.token in s.owner && s.owner[a.token] == a
    requires b.token in s.handlers && s.handlers[b.token].Waiting? && b.token in s.owner && s.owner[b.token] == b
    ensures var s' := Step(Step(s, GiveUp(a.token)), Leave(a.token));
      && s'.handlers == s.handlers[a.token := GaveUp] && s'.owner == s.owner && s'.parked == s.parked
      && !Reachable(s', b.token)
  {
    var s2 := Advance(s, a.token, Leaving);
    assert Step(s, GiveUp(a.token)) == s2;
    assert Step(s2, Leave(a.token)) == Advance(Forget(s2, a.id), a.token, GaveUp);
  }

  // ----- and what goes wrong otherwise -----

  lemma RunPush(events: seq<Event>, e: Event)
    ensures Run(events + [e]) == Step(Run(events), e)
  {
    assert (events + [e])[..|events|] == events;
  }

  /** The only result taken is sent and wakes its handler. */
  lemma SendAndWake(s: State, t: nat)
    requires |s.taken| == 1 && s.sent == [] && s.taken[0].job.token == t && t in s.handlers && s.handlers[t].Waiting?
    ensures var s' := Step(Step(s, PostSend(0)), Wake(t, 0)); t in s'.handlers && s'.handlers[t] == Answered(s.taken[0])
  {
    assert !HasResult(s.sent, t);
    assert PostSendStep(s, 0).sent == [s.taken[0]];
  }

  /**
   Whenever two requests do share them, there is a run in which the second is answered with the result of the first.
   */
  lemma ReusedIdGetsAnothersResult(a: Job, b: Job) returns (events: seq<Event>)
    requires a.id == b.id && a.host == b.host && a.token != b.token
    ensures var s := Run(events);
      b.token in s.handlers && s.handlers[b.token].Answered? && s.handlers[b.token].post.cause == Some(a)
  {
    var e1 := AbandonedAfterPoll(a);
    var e2 := LatePost(e1, a, b);
    SendAndWake(Run(e2), b.token);
    RunPush(e2, PostSend(0));
    RunPush(e2 + [PostSend(0)], Wake(b.token, 0));
    events := e2 + [PostSend(0)] + [Wake(b.token, 0)];
  }

  /** A request is handed to a poll and then gives up. */
  lemma AbandonedAfterPoll(a: Job) returns (events: seq<Event>)
    ensures var s := Run(events);
      && s.jobs == map[] && s.taken == [] && s.sent == [] && !s.closed && QueueOf(s.queues, a.host) == []
      && s.handlers.Keys == {a.token} && s.delivered == [Delivery(a, a.host, 0)]
  {
    var e1 := [] + [Park(a)];
    var e2 := e1 + [Receive(a.host, 0)];
    var e3 := e2 + [GiveUp(a.token)];
    events := e3 + [Leave(a.token)];
    RunPush([], Park(a));
    RunPush(e1, Receive(a.host, 0));
    RunPush(e2, GiveUp(a.token));
    RunPush(e3, Leave(a.token));
    assert Run(e1) == ParkStep(INITIAL, a);
    assert Run(e1).jobs == map[a.id := a] && QueueOf(Run(e1).queues, a.host) == [a];
    assert Run(e2) == ReceiveStep(Run(e1), a.host, 0);
  }

  /** A newer request takes the id, and the late result of the older one is matched to it. */
  lemma LatePost(es: seq<Event>, a: Job, b: Job) returns (events: seq<Event>)
    requires var s := Run(es);
      && s.jobs == map[] && s.taken == [] && s.sent == [] && !s.closed
      && QueueOf(s.queues, b.host) == [] && b.token !in s.handlers
      && s.delivered == [Delivery(a, a.host, 0)] && a.id == b.id && a.host == b.host
    ensures var s := Run(events);
      && b.token in s.handlers && s.handlers[b.token].Waiting?
      && s.taken == [Post(b, b.host, Some(a))] && s.sent == []
  {
    var s, e1, post := Run(es), es + [Park(b)], PostTake(b.id, b.host, Some(a));
    events := e1 + [post];
    RunPush(es, Park(b));
    RunPush(e1, post);
    assert Run(e1) == ParkStep(s, b);
    assert Run(e1).jobs == map[b.id := b];
    assert DeliveredJobs(s.delivered)[0] == a;
    assert Genuine(Run(e1), b.id, b.host, Some(a)) == Some(a);
  }

  /** The only request in the table gives up and leaves. */
  lemma GiveUpAndLeave(s: State, j: Job)
    requires s.jobs == map[j.id := j] && j.token in s.handlers && s.handlers[j.token].Waiting?
    requires j.token in s.owner && s.owner[j.token] == j
    ensures var s' := Step(Step(s, GiveUp(j.token)), Leave(j.token));
      s'.jobs == map[] && s'.closed == s.closed && s'.handlers.Keys == s.handlers.Keys && s'.queues == s.queues
  {
    var s2 := Advance(s, j.token, Leaving);
    assert Step(s, GiveUp(j.token)) == s2;
    assert Step(s2, Leave(j.token)) == Advance(Forget(s2, j.id), j.token, GaveUp);
  }

  /** A request parks and gives up before any poll: the table is empty again, the queue one longer. */
  lemma AbandonOne(es: seq<Event>, j: Job) returns (events: seq<Event>)
    requires var s := Run(es);
      s.jobs == map[] && !s.closed && |QueueOf(s.queues, j.host)| < QUEUE_CAP && j.token !in s.handlers
    ensures var s, s' := Run(es), Run(events);
      && s'.jobs == map[] && !s'.closed && s'.handlers.Keys == s.handlers.Keys + {j.token}
      && QueueOf(s'.queues, j.host) == QueueOf(s.queues, j.host) + [j]
  {
    var e1 := es + [Park(j)];
    var e2 := e1 + [GiveUp(j.token)];
    events := e2 + [Leave(j.token)];
    RunPush(es, Park(j));
    RunPush(e1, GiveUp(j.token));
    RunPush(e2, Leave(j.token));
    assert Run(e1) == ParkStep(Run(es), j);
    assert Run(e1).jobs == map[j.id := j];
    GiveUpAndLeave(Run(e1), j);
  }

  /**
   Requests that gave up stay in their host's queue until a poll drains it: for every queue length up to the cap
   there is a run after which the table is empty and the queue that long, so at the cap every new request is refused.
   */
  lemma {:induction false} AbandonedJobsFillTheQueue(host: string, n: nat) returns (events: seq<Event>)
    requires n <= QUEUE_CAP
    ensures var s := Run(events);
      && s.jobs == map[] && !s.closed && |QueueOf(s.queues, host)| == n
      && (forall t :: t in s.handlers ==> t < n)
      && (n == QUEUE_CAP ==> forall j: Job :: j.host == host ==> Verdict(s.jobs, s.queues, s.closed, j).QueueFull?)
  {
    if n == 0 {
      events := [];
    } else {
      var es := AbandonedJobsFillTheQueue(host, n - 1);
      var s := Run(es);
      events := AbandonOne(es, Job(n - 1, "x", host));
      assert forall t :: t in Run(events).handlers ==> t in s.handlers || t == n - 1;
    }
  }

  /** How many jobs a host's pages parked that no poll has been handed yet. */
  function NotHandedOut(s: State, host: string): int {
    |Filter(s.parked, At(host))| - |Filter(DeliveredJobs(s.delivered), At(host))|
  }

  /**
   In every run, with an empty table, a request is refused exactly when the hub is closed or 64 jobs of its host
   were parked and not handed out, whether or not anyone still waits for them.
   */
  lemma RefusedWithEmptyTableIff(events: seq<Event>, j: Job)
    requires Run(events).jobs == map[]
    ensures var s := Run(events);
      !Verdict(s.jobs, s.queues, s.closed, j).Parked? <==> s.closed || NotHandedOut(s, j.host) == QUEUE_CAP
  {
    RunsKeep(events);
    var s := Run(events);
    assert Fifo(s.delivered, s.queues, s.parked, j.host);
  }
}
