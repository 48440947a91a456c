/** The byte queue of the TLS stack: a deque of byte vectors with a partly consumed front. */
module ChunkBuffer {
  import opened Octets
  import opened Prelude

  lemma FlatSkip(chunks: seq<Bytes>, p: nat)
    requires chunks != [] && |chunks[0]| <= p <= |Flat(chunks)|
    ensures p - |chunks[0]| <= |Flat(chunks[1..])|
    ensures Flat(chunks)[p..] == Flat(chunks[1..])[p - |chunks[0]|..]
  {
    FlatHead(chunks);
  }

  lemma FlatWithin(chunks: seq<Bytes>, p: nat)
    requires chunks != [] && p <= |chunks[0]|
    ensures p <= |Flat(chunks)|
    ensures Flat(chunks)[p..] == chunks[0][p..] + Flat(chunks[1..])
  {
    FlatHead(chunks);
  }

  /** What is left of a deque of chunks after `used` bytes of its front were consumed. */
  ghost function Remaining(chunks: seq<Bytes>, used: nat): Bytes
    requires if chunks == [] then used == 0 else used <= |chunks[0]|
  {
    if chunks == [] then [] else chunks[0][used..] + Flat(chunks[1..])
  }

  lemma ContentsPush(chunks: seq<Bytes>, used: nat, bytes: Bytes)
    requires if chunks == [] then used == 0 else used <= |chunks[0]|
    ensures Remaining(chunks + [bytes], used) == Remaining(chunks, used) + bytes
  {
    if chunks == [] {
      assert (chunks + [bytes])[1..] == [];
    } else {
      var head, tail := chunks[0][used..], Flat(chunks[1..]);
      FlatPush(chunks[1..], bytes);
      assert (chunks + [bytes])[1..] == chunks[1..] + [bytes];
      assert Remaining(chunks + [bytes], used) == head + (tail + bytes);
      assert head + (tail + bytes) == (head + tail) + bytes;
    }
  }

  /** No chunk is empty. */
  predicate AllFilled(chunks: seq<Bytes>) {
    chunks == [] || (chunks[0] != [] && AllFilled(chunks[1..]))
  }

  lemma {:induction false} FilledPush(chunks: seq<Bytes>, c: Bytes)
    requires AllFilled(chunks) && c != []
    ensures AllFilled(chunks + [c])
  {
    if chunks == [] {
      assert [c][1..] == [];
    } else {
      FilledPush(chunks[1..], c);
      assert (chunks + [c])[1..] == chunks[1..] + [c];
    }
  }

  /** How many of `len` more bytes fit beside those held. */
  function Fits(limit: Option<nat>, held: nat, len: nat): (n: nat)
    ensures n <= len
  {
    match limit
    case None => len
    case Some(max) => if held + len <= max then len else if max <= held then 0 else max - held
  }

  class ChunkVecBuffer {
    var chunks: seq<Bytes>
    var prefixUsed: nat
    const limit: Option<nat>

    ghost predicate Valid()
      reads this
    {
      && AllFilled(chunks)
      && (if chunks == [] then prefixUsed == 0 else prefixUsed < |chunks[0]|)
    }

    /** The bytes queued, oldest first. */
    ghost function Contents(): Bytes
      requires Valid()
      reads this
    {
      Remaining(chunks, prefixUsed)
    }

    constructor (limit: Option<nat>)
      ensures Valid() && Contents() == [] && this.limit == limit
    {
      chunks, prefixUsed := [], 0;
      this.limit := limit;
    }

    method Append(bytes: Bytes) returns (len: nat)
      requires Valid()
      modifies this
      ensures Valid() && len == |bytes|
      ensures Contents() == old(Contents()) + bytes
      ensures chunks == (if bytes == [] then old(chunks) else old(chunks) + [bytes]) && prefixUsed == old(prefixUsed)
    {
      if bytes != [] {
        ContentsPush(chunks, prefixUsed, bytes);
        FilledPush(chunks, bytes);
        chunks := chunks + [bytes];
      }
      len := |bytes|;
    }

    method Pop() returns (first: Option<Bytes>)
      requires Valid()
      modifies this
      ensures Valid()
      ensures first.None? <==> old(Contents()) == []
      ensures first.None? ==> Contents() == []
      ensures first.Some? ==> first.value != [] && old(Contents()) == first.value + Contents()
      ensures first.Some? ==>
        old(chunks) != [] && first.value == old(chunks[0][prefixUsed..]) && chunks == old(chunks)[1..]
      ensures prefixUsed == 0
    {
      if chunks == [] {
        return None;
      }
      if |chunks| > 1 {
        FlatHead(chunks[1..]);
      }
      var prefix := prefixUsed;
      prefixUsed := 0;
      first := Some(chunks[0][prefix..]);
      chunks := chunks[1..];
    }

    method Len() returns (n: nat)
      requires Valid()
      ensures n == |Contents()|
    {
      var acc := 0;
      var i := 0;
      while i < |chunks|
        invariant 0 <= i <= |chunks|
        invariant acc == |Flat(chunks[..i])|
      {
        assert chunks[..i + 1][..i] == chunks[..i];
        acc := acc + |chunks[i]|;
        i := i + 1;
      }
      assert chunks[..i] == chunks;
      if chunks != [] {
        FlatHead(chunks);
      }
      n := acc - prefixUsed;
    }

    /** How many of `len` bytes fit under the limit. */
    method ApplyLimit(len: nat) returns (n: nat)
      requires Valid()
      ensures n == Fits(limit, |Contents()|, len)
    {
      if limit.None? {
        return len;
      }
      var used := Len();
      var space := if limit.value >= used then limit.value - used else 0;
      n := if len < space then len else space;
    }

    method AppendLimitedCopy(payload: Bytes) returns (take: nat)
      requires Valid()
      modifies this
      ensures Valid() && take == Fits(limit, |old(Contents())|, |payload|)
      ensures Contents() == old(Contents()) + payload[..take] && prefixUsed == old(prefixUsed)
    {
      take := ApplyLimit(|payload|);
      var n := Append(payload[..take]);
    }

    /** Drops bytes from the front, discarding the chunks they cover. */
    method Consume(used: nat)
      requires Valid() && used <= |Contents()|
      modifies this
      ensures Valid()
      ensures Contents() == old(Contents())[used..]
    {
      if chunks == [] {
        return;
      }
      FlatWithin(chunks, prefixUsed);
      ghost var was := Contents();
      assert Flat(chunks)[prefixUsed..][used..] == Flat(chunks)[prefixUsed + used..];
      prefixUsed := prefixUsed + used;
      DiscardCovered(was[used..]);
    }

    method DiscardCovered(ghost rest: Bytes)
      requires AllFilled(chunks)
      requires prefixUsed <= |Flat(chunks)| && Flat(chunks)[prefixUsed..] == rest
      modifies this
      ensures Valid() && Contents() == rest
    {
      while chunks != [] && prefixUsed >= |chunks[0]|
        invariant AllFilled(chunks)
        invariant prefixUsed <= |Flat(chunks)| && Flat(chunks)[prefixUsed..] == rest
        decreases |chunks|
      {
        FlatSkip(chunks, prefixUsed);
        prefixUsed := prefixUsed - |chunks[0]|;
        chunks := chunks[1..];
      }
      if chunks != [] {
        FlatWithin(chunks, prefixUsed);
      }
    }

    /** The bytes of the first 64 chunks, which is what one write offers. */
    ghost function Offered(): (n: nat)
      requires Valid()
      reads this
    {
      |Remaining(if |chunks| < 64 then chunks else chunks[..64], prefixUsed)|
    }

    lemma UnusedIsFlat()
      requires Valid() && prefixUsed == 0
      ensures Contents() == Flat(chunks)
    {
      if chunks != [] {
        FlatHead(chunks);
        assert chunks[0][0..] == chunks[0];
      }
    }

    lemma OfferedWithin()
      requires Valid()
      ensures Offered() <= |Contents()|
    {
      if |chunks| >= 64 {
        assert chunks[1..] == chunks[..64][1..] + chunks[64..];
        FlatConcat(chunks[..64][1..], chunks[64..]);
      }
    }

    /**
     Offers the first 64 chunks to a writer that reports `used` bytes written. A report beyond what was
     offered is an error, and everything offered counts as written.
     */
    method WriteTo(used: nat) returns (ok: bool, written: nat)
      requires Valid()
      modifies this
      ensures Valid()
      ensures ok == (old(Contents()) == [] || used <= old(Offered()))
      ensures written == (if used <= old(Offered()) then used else old(Offered())) <= |old(Contents())|
      ensures Contents() == old(Contents())[written..]
    {
      if chunks == [] {
        return true, 0;
      }
      var n := if |chunks| < 64 then |chunks| else 64;
      assert chunks[..n] == if |chunks| < 64 then chunks else chunks[..64];
      FlatHead(chunks[..n]);
      OfferedWithin();
      var available := |Flat(chunks[..n])| - prefixUsed;
      written := if used > available then available else used;
      Consume(written);
      ok := used <= available;
    }
  }
}
