/** The cache of rewritten script bodies: a Map in recency order under an entry cap and a size cap. */
module RewriteCache {
  import opened Prelude
  import opened Recency

  const MAX_ENTRIES := 200
  const MAX_BYTES := 50 * 1024 * 1024

  /** A hexadecimal digest. */
  type Key = string

  datatype Entry = Entry(key: Key, code: string)

  type Entries = seq<Entry>

  function Keys(es: Entries): (ks: seq<Key>)
    ensures |ks| == |es| && forall i :: 0 <= i < |es| ==> ks[i] == es[i].key
  {
    seq(|es|, i requires 0 <= i < |es| => es[i].key)
  }

  function Size(es: Entries): nat {
    if es == [] then 0 else Units(es[0].code) + Size(es[1..])
  }

  predicate Within(es: Entries) {
    |es| <= MAX_ENTRIES && Size(es) <= MAX_BYTES
  }

  function Without(es: Entries, k: Key): Entries {
    var i := IndexOf(Keys(es), k);
    if i < |es| then es[..i] + es[i + 1..] else es
  }

  /** Drops entries from the old end until both caps hold. */
  function Evict(es: Entries): Entries {
    if es == [] || Within(es) then es else Evict(es[1..])
  }

  function AfterGet(es: Entries, k: Key): Entries {
    var i := IndexOf(Keys(es), k);
    if i < |es| then Without(es, k) + [es[i]] else es
  }

  function Found(es: Entries, k: Key): Option<string> {
    var i := IndexOf(Keys(es), k);
    if i < |es| then Some(es[i].code) else None
  }

  predicate Storable(code: string) {
    0 < Units(code) <= MAX_BYTES
  }

  function AfterSet(es: Entries, k: Key, code: string): Entries {
    if Storable(code) then Evict(Without(es, k) + [Entry(k, code)]) else es
  }

  // ----- sizes and eviction -----

  lemma {:induction false} SizeConcat(a: Entries, b: Entries)
    ensures Size(a + b) == Size(a) + Size(b)
  {
    if a == [] {
      assert a + b == b;
    } else {
      SizeConcat(a[1..], b);
      assert (a + b)[1..] == a[1..] + b;
    }
  }

  lemma DropSize(es: Entries, i: nat)
    requires i < |es|
    ensures Size(es[..i] + es[i + 1..]) == Size(es) - Units(es[i].code)
  {
    SizeConcat(es[..i], es[i + 1..]);
    SizeConcat(es[..i], es[i..]);
    assert es == es[..i] + es[i..];
    assert es[i..][1..] == es[i + 1..];
  }

  lemma KeysDrop(es: Entries, i: nat)
    requires i < |es|
    ensures Keys(es[..i] + es[i + 1..]) == Keys(es)[..i] + Keys(es)[i + 1..]
  {
  }

  /** Moving an entry to the recent end, or putting a new one there, keeps the recency order. */
  lemma PlaceAtEnd(es: Entries, uses: seq<Key>, e: Entry)
    requires Ordered(Keys(es), uses)
    ensures Ordered(Keys(Without(es, e.key) + [e]), uses + [e.key])
  {
    var i, rest := IndexOf(Keys(es), e.key), Without(es, e.key);
    if i < |es| {
      KeysDrop(es, i);
      OrderedDrop(Keys(es), uses, i);
    }
    assert Keys(rest + [e]) == Keys(rest) + [e.key];
    UseMovesToEnd(Keys(rest), uses, e.key);
  }

  lemma SuffixOrdered(es: Entries, uses: seq<Key>, n: nat)
    requires n <= |es| && Ordered(Keys(es), uses)
    ensures Ordered(Keys(es[n..]), uses)
  {
    assert forall i :: 0 <= i < |es| - n ==> Keys(es[n..])[i] == Keys(es)[n + i];
  }

  lemma OverfullIsLong(es: Entries)
    requires es != [] && Units(es[|es| - 1].code) <= MAX_BYTES && !Within(es)
    ensures |es| > 1
  {
    assert Size(es) == Units(es[0].code) + Size(es[1..]);
  }

  lemma EvictOne(es: Entries, uses: seq<Key>)
    requires es != [] && Units(es[|es| - 1].code) <= MAX_BYTES && !Within(es) && Ordered(Keys(es), uses)
    ensures |es| > 1 && Evict(es) == Evict(es[1..])
    ensures Size(es) == Units(es[0].code) + Size(es[1..]) && Ordered(Keys(es[1..]), uses)
  {
    OverfullIsLong(es);
    SuffixOrdered(es, uses, 1);
  }

  /** Eviction keeps a suffix that meets both caps, and with it the newest entry whenever that one fits alone. */
  lemma {:induction false} EvictSuffix(es: Entries) returns (n: nat)
    requires es != [] && Units(es[|es| - 1].code) <= MAX_BYTES
    ensures n < |es| && Evict(es) == es[n..] && Within(es[n..])
  {
    if Within(es) {
      n := 0;
    } else {
      OverfullIsLong(es);
      n := EvictSuffix(es[1..]);
      assert es[1..][n..] == es[n + 1..];
      n := n + 1;
    }
  }

  /** It drops no more than it must: every longer suffix breaks a cap. */
  lemma {:induction false} EvictMinimal(es: Entries, m: nat)
    requires m <= |es| && |Evict(es)| < |es| - m
    ensures !Within(es[m..])
  {
    if m == 0 {
      assert es[0..] == es;
    } else {
      assert !Within(es);
      EvictMinimal(es[1..], m - 1);
      assert es[1..][m - 1..] == es[m..];
    }
  }

  lemma GetKeeps(es: Entries, uses: seq<Key>, k: Key)
    requires Ordered(Keys(es), uses) && Found(es, k).Some?
    ensures Size(AfterGet(es, k)) == Size(es) && |AfterGet(es, k)| == |es|
    ensures Ordered(Keys(AfterGet(es, k)), uses + [k])
  {
    var i := IndexOf(Keys(es), k);
    PlaceAtEnd(es, uses, es[i]);
    DropSize(es, i);
    SizeConcat(es[..i] + es[i + 1..], [es[i]]);
  }

  lemma SetKeeps(es: Entries, k: Key, code: string)
    ensures var i := IndexOf(Keys(es), k);
      Size(Without(es, k) + [Entry(k, code)]) == Size(es) - (if i < |es| then Units(es[i].code) else 0) + Units(code)
  {
    var i := IndexOf(Keys(es), k);
    if i < |es| {
      DropSize(es, i);
    }
    SizeConcat(Without(es, k), [Entry(k, code)]);
  }

  class Cache {
    var entries: Entries
    var bytes: int
    /** Every key read or written so far, oldest first. */
    ghost var uses: seq<Key>

    ghost predicate Valid()
      reads this
    {
      bytes == Size(entries) && Within(entries) && Ordered(Keys(entries), uses)
    }

    constructor ()
      ensures Valid() && entries == [] && uses == []
    {
      entries, bytes, uses := [], 0, [];
    }

    /** A hit moves the entry to the recent end. */
    method Get(k: Key) returns (code: Option<string>)
      requires Valid()
      modifies this
      ensures Valid()
      ensures code == Found(old(entries), k)
      ensures entries == AfterGet(old(entries), k)
      ensures uses == if code.Some? then old(uses) + [k] else old(uses)
    {
      var i := IndexOf(Keys(entries), k);
      if i == |entries| {
        return None;
      }
      var entry := entries[i];
      GetKeeps(entries, uses, k);
      entries := entries[..i] + entries[i + 1..];
      entries := entries + [entry];
      uses := uses + [k];
      code := Some(entry.code);
    }

    /** Stores a body, then evicts; the entry just stored is never the victim. */
    method Set(k: Key, code: string)
      requires Valid()
      modifies this
      ensures Valid()
      ensures entries == AfterSet(old(entries), k, code)
      ensures uses == if Storable(code) then old(uses) + [k] else old(uses)
      ensures Storable(code) ==> entries != [] && entries[|entries| - 1] == Entry(k, code)
    {
      if !Storable(code) {
        return;
      }
      Place(k, code);
      EvictOldest();
    }

    /** Puts an entry at the recent end, in place of an older one of its key. */
    method Place(k: Key, code: string)
      requires Valid()
      modifies this
      ensures entries == Without(old(entries), k) + [Entry(k, code)]
      ensures entries != [] && entries[|entries| - 1] == Entry(k, code)
      ensures uses == old(uses) + [k]
      ensures bytes == Size(entries) && Ordered(Keys(entries), uses)
    {
      PlaceAtEnd(entries, uses, Entry(k, code));
      SetKeeps(entries, k, code);
      var i := IndexOf(Keys(entries), k);
      if i < |entries| {
        bytes := bytes - Units(entries[i].code);
        entries := entries[..i] + entries[i + 1..];
      }
      entries := entries + [Entry(k, code)];
      bytes := bytes + Units(code);
      uses := uses + [k];
    }

    /** Drops entries from the old end until both caps hold. */
    method EvictOldest()
      requires bytes == Size(entries) && Ordered(Keys(entries), uses)
      requires entries != [] && Units(entries[|entries| - 1].code) <= MAX_BYTES
      modifies this`entries, this`bytes
      ensures Valid()
      ensures entries == Evict(old(entries))
      ensures entries != [] && entries[|entries| - 1] == old(entries[|entries| - 1])
    {
      while |entries| > MAX_ENTRIES || bytes > MAX_BYTES
        invariant entries != [] && entries[|entries| - 1] == old(entries[|entries| - 1])
        invariant Evict(entries) == Evict(old(entries))
        invariant bytes == Size(entries) && Ordered(Keys(entries), uses)
        decreases |entries|
      {
        EvictOne(entries, uses);
        var evicted := entries[0];
        entries := entries[1..];
        bytes := bytes - Units(evicted.code);
      }
    }
  }

  lemma InPrefix(es: Entries, n: nat, v: Key) returns (p: nat)
    requires n <= |es| && v in Keys(es) && v !in Keys(es[n..])
    ensures p < n && es[p].key == v
  {
    p :| 0 <= p < |es| && Keys(es)[p] == v;
  }

  lemma InSuffix(es: Entries, n: nat, s: Key) returns (q: nat)
    requires n <= |es| && s in Keys(es[n..])
    ensures n <= q < |es| && es[q].key == s
  {
    q :| 0 <= q < |es[n..]| && Keys(es[n..])[q] == s;
    q := n + q;
  }

  lemma EvictedBeforeKept(full: Entries, uses: seq<Key>, v: Key, s: Key)
    requires full != [] && Units(full[|full| - 1].code) <= MAX_BYTES
    requires Ordered(Keys(full), uses)
    requires v in Keys(full) && v !in Keys(Evict(full)) && s in Keys(Evict(full))
    ensures LastUse(uses, v) < LastUse(uses, s)
  {
    var n := EvictSuffix(full);
    var p := InPrefix(full, n, v);
    var q := InSuffix(full, n, s);
    assert Keys(full)[p] == v && Keys(full)[q] == s;
  }

  lemma WithoutKeys(es: Entries, k: Key, v: Key)
    requires v in Keys(es) && v != k
    ensures v in Keys(Without(es, k))
  {
    var i := IndexOf(Keys(es), k);
    if i < |es| {
      KeysDrop(es, i);
      var ks := Keys(es);
      assert ks == ks[..i] + [k] + ks[i + 1..];
    }
  }

  /** Eviction spares the recently used: whatever a Set drops was last used before everything it keeps. */
  lemma VictimsAreLeastRecent(es: Entries, uses: seq<Key>, k: Key, code: string, v: Key, s: Key)
    requires Ordered(Keys(es), uses) && Storable(code)
    requires v in Keys(es) && v != k && v !in Keys(AfterSet(es, k, code))
    requires s in Keys(AfterSet(es, k, code)) && s != k
    ensures LastUse(uses, v) < LastUse(uses, s)
  {
    var full := Without(es, k) + [Entry(k, code)];
    PlaceAtEnd(es, uses, Entry(k, code));
    WithoutKeys(es, k, v);
    assert Keys(full) == Keys(Without(es, k)) + [k];
    EvictedBeforeKept(full, uses + [k], v, s);
    UseOfAnother(uses, k, v);
    UseOfAnother(uses, k, s);
  }
}
