/** The hub's own state and its critical sections: parked jobs by id, and one bounded queue per host. */
module SyncHub {
  import opened Prelude

  const QUEUE_CAP := 64
  const POLL_BATCH := 16

  /** A parked request; `token` is its identity, which two requests of one id do not share. */
  datatype Job = Job(token: nat, id: string, host: string)

  datatype EnqueueResult = Parked | QueueFull | DuplicateId

  function QueueOf(queues: map<string, seq<Job>>, host: string): seq<Job> {
    if host in queues then queues[host] else []
  }

  /** The answer `enqueue` gives. */
  function Verdict(jobs: map<string, Job>, queues: map<string, seq<Job>>, closed: bool, j: Job): EnqueueResult {
    if closed then QueueFull
    else if j.id in jobs then DuplicateId
    else if |jobs| >= QUEUE_CAP then QueueFull
    else if |QueueOf(queues, j.host)| >= QUEUE_CAP then QueueFull
    else Parked
  }

  /** A host's queue is bounded and holds jobs of that host only. */
  ghost predicate QueueOk(q: seq<Job>, host: string) {
    |q| <= QUEUE_CAP && forall i :: 0 <= i < |q| ==> q[i].host == host
  }

  class Hub {
    var jobs: map<string, Job>
    var queues: map<string, seq<Job>>
    var closed: bool

    ghost predicate Valid()
      reads this
    {
      && |jobs| <= QUEUE_CAP
      && (forall id :: id in jobs ==> jobs[id].id == id)
      && (forall h :: h in queues ==> QueueOk(queues[h], h))
    }

    constructor ()
      ensures Valid() && jobs == map[] && queues == map[] && !closed
    {
      jobs, queues, closed := map[], map[], false;
    }

    method QueueFor(host: string) returns (q: seq<Job>)
      requires Valid()
      modifies this`queues
      ensures Valid() && q == QueueOf(old(queues), host) && queues == old(queues)[host := q]
    {
      if host !in queues {
        queues := queues[host := []];
      }
      q := queues[host];
    }

    method Close()
      modifies this`closed
      ensures closed
    {
      closed := true;
    }

    method Enqueue(j: Job) returns (r: EnqueueResult)
      requires Valid()
      modifies this`jobs, this`queues
      ensures Valid()
      ensures r == Verdict(old(jobs), old(queues), closed, j)
      ensures r.Parked? ==>
        jobs == old(jobs)[j.id := j] && queues == old(queues)[j.host := QueueOf(old(queues), j.host) + [j]]
      ensures !r.Parked? ==> jobs == old(jobs) && forall h :: QueueOf(queues, h) == QueueOf(old(queues), h)
    {
      if closed {
        return QueueFull;
      }
      if j.id in jobs {
        return DuplicateId;
      }
      if |jobs| >= QUEUE_CAP {
        return QueueFull;
      }
      if j.host !in queues {
        queues := queues[j.host := []];
      }
      if |queues[j.host]| < QUEUE_CAP {
        queues := queues[j.host := queues[j.host] + [j]];
        jobs := jobs[j.id := j];
        return Parked;
      }
      return QueueFull;
    }

    /** Takes a job out of the table if it was parked by a page of this host. */
    method TakeFor(id: string, host: string) returns (j: Option<Job>)
      requires Valid()
      modifies this`jobs
      ensures Valid()
      ensures j == if id in old(jobs) && old(jobs)[id].host == host then Some(old(jobs)[id]) else None
      ensures jobs == if j.Some? then old(jobs) - {id} else old(jobs)
    {
      if id !in jobs || jobs[id].host != host {
        return None;
      }
      j := Some(jobs[id]);
      RemoveShrinks(jobs, id);
      jobs := jobs - {id};
    }

    method Take(id: string) returns (j: Option<Job>)
      requires Valid()
      modifies this`jobs
      ensures Valid()
      ensures j == if id in old(jobs) then Some(old(jobs)[id]) else None
      ensures jobs == old(jobs) - {id}
    {
      j := if id in jobs then Some(jobs[id]) else None;
      RemoveShrinks(jobs, id);
      jobs := jobs - {id};
    }

    /** A poll that found work: the head of its host's queue and whatever follows, up to a batch. */
    method Drain(host: string) returns (batch: seq<Job>)
      requires Valid() && QueueOf(queues, host) != []
      modifies this`queues
      ensures Valid()
      ensures 1 <= |batch| <= POLL_BATCH
      ensures batch + QueueOf(queues, host) == QueueOf(old(queues), host)
      ensures |batch| < POLL_BATCH ==> QueueOf(queues, host) == []
      ensures forall h :: h != host ==> QueueOf(queues, h) == QueueOf(old(queues), h)
    {
      ghost var was := queues[host];
      var job := Pop(host);
      batch := [job];
      while |batch| < POLL_BATCH && queues[host] != []
        invariant Valid() && host in queues && 1 <= |batch| <= POLL_BATCH
        invariant batch + queues[host] == was
        invariant forall h :: h != host ==> QueueOf(queues, h) == QueueOf(old(queues), h)
      {
        MoveHead(batch, queues[host]);
        job := Pop(host);
        batch := batch + [job];
      }
    }

    method Pop(host: string) returns (j: Job)
      requires Valid() && host in queues && queues[host] != []
      modifies this`queues
      ensures Valid() && queues == old(queues)[host := old(queues)[host][1..]] && j == old(queues)[host][0]
    {
      j := queues[host][0];
      queues := queues[host := queues[host][1..]];
    }
  }

  lemma RemoveShrinks(m: map<string, Job>, id: string)
    ensures |m - {id}| <= |m|
  {
    assert (m - {id}).Keys == m.Keys - {id};
    if id in m {
      assert m.Keys == (m.Keys - {id}) + {id};
    } else {
      assert m - {id} == m;
    }
  }
}
