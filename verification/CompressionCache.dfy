/**
 The cache of compressed certificate messages: one lock-protected deque, probed and later filled in two
 separate critical sections with the compression itself in between.
 */
module CompressionCache {
  import opened Octets
  import opened Prelude
  import opened Recency

  type Algorithm = nat

  datatype Key = Key(algorithm: Algorithm, original: Bytes)

  datatype Entry = Entry(algorithm: Algorithm, original: Bytes, compressed: Bytes, uncompressedLen: nat)

  function KeyOf(e: Entry): Key {
    Key(e.algorithm, e.original)
  }

  type Entries = seq<Entry>

  function Keys(es: Entries): (ks: seq<Key>)
    ensures |ks| == |es| && forall i :: 0 <= i < |es| ==> ks[i] == KeyOf(es[i])
  {
    seq(|es|, i requires 0 <= i < |es| => KeyOf(es[i]))
  }

  /** A hit becomes the most recently used entry. */
  function AfterProbe(es: Entries, k: Key): Entries {
    var i := IndexOf(Keys(es), k);
    if i < |es| then es[..i] + es[i + 1..] + [es[i]] else es
  }

  function AfterInsert(es: Entries, e: Entry, size: nat): Entries {
    (if |es| == size && es != [] then es[1..] else es) + [e]
  }

  /** Lengths are kept in 32 bits. */
  function NewEntry(k: Key, compressed: Bytes): Entry {
    Entry(k.algorithm, k.original, compressed, |k.original| % 0x1_0000_0000)
  }

  class Cache {
    const size: nat
    var entries: Entries
    /** Keys of hits and inserts, oldest first. */
    ghost var uses: seq<Key>

    /** Holds whatever the interleaving. */
    ghost predicate Bounded()
      reads this
    {
      0 < size && |entries| <= size
    }

    /** Holds as long as no other request gets between a probe and its insert. */
    ghost predicate Sequential()
      reads this
    {
      Bounded() && Ordered(Keys(entries), uses)
    }

    constructor (size: nat)
      requires size > 0
      ensures Sequential() && this.size == size && entries == [] && uses == []
    {
      this.size := size;
      entries, uses := [], [];
    }

    method Probe(k: Key) returns (hit: Option<Entry>)
      requires Bounded()
      modifies this
      ensures Bounded() && entries == AfterProbe(old(entries), k)
      ensures var i := IndexOf(Keys(old(entries)), k); hit == if i < |old(entries)| then Some(old(entries)[i]) else None
      ensures old(Sequential()) ==> Sequential()
      ensures uses == old(uses) + (if hit.Some? then [k] else [])
    {
      var i := 0;
      while i < |entries|
        invariant 0 <= i <= |entries|
        invariant forall j :: 0 <= j < i ==> KeyOf(entries[j]) != k
      {
        if entries[i].algorithm == k.algorithm && entries[i].original == k.original {
          var item := entries[i];
          if Ordered(Keys(entries), uses) {
            MoveToEnd(entries, uses, i);
          }
          entries := entries[..i] + entries[i + 1..];
          entries := entries + [item];
          uses := uses + [k];
          return Some(item);
        }
        i := i + 1;
      }
      return None;
    }

    method Insert(e: Entry)
      requires Bounded()
      modifies this
      ensures Bounded() && entries == AfterInsert(old(entries), e, size)
      ensures old(Sequential()) && KeyOf(e) !in Keys(old(entries)) ==> Sequential()
      ensures uses == old(uses) + [KeyOf(e)]
    {
      if Ordered(Keys(entries), uses) && KeyOf(e) !in Keys(entries) {
        InsertOrdered(entries, uses, e, size);
      }
      if |entries| == size {
        entries := entries[1..];
      }
      entries := entries + [e];
      uses := uses + [KeyOf(e)];
    }

    /** A whole request with nobody in between: `compress` is the negotiated compressor, which may fail. */
    method CompressionFor(k: Key, compress: Bytes -> Option<Bytes>) returns (r: Option<Entry>)
      requires Sequential()
      modifies this
      ensures Sequential()
      ensures r.Some? ==> KeyOf(r.value) == k
      ensures var i := IndexOf(Keys(old(entries)), k);
        if i < |old(entries)| then r == Some(old(entries)[i]) && entries == AfterProbe(old(entries), k)
        else if compress(k.original).None? then r.None? && entries == old(entries)
        else r == Some(NewEntry(k, compress(k.original).value)) && entries == AfterInsert(old(entries), r.value, size)
      ensures r.Some? ==> LastUse(uses, k) == |uses| - 1
    {
      r := Probe(k);
      if r.Some? {
        return;
      }
      var c := compress(k.original);
      if c.None? {
        return None;
      }
      var e := NewEntry(k, c.value);
      Insert(e);
      r := Some(e);
    }
  }

  lemma MoveToEnd(es: Entries, uses: seq<Key>, i: nat)
    requires i < |es| && Ordered(Keys(es), uses)
    ensures Ordered(Keys(es[..i] + es[i + 1..] + [es[i]]), uses + [KeyOf(es[i])])
  {
    var ks, rest := Keys(es), es[..i] + es[i + 1..];
    OrderedDrop(ks, uses, i);
    assert Keys(rest) == ks[..i] + ks[i + 1..];
    assert Keys(rest + [es[i]]) == Keys(rest) + [ks[i]];
    UseMovesToEnd(Keys(rest), uses, ks[i]);
  }

  /** A new key goes to the recent end, and the entry dropped for it is the least recently used. */
  lemma InsertOrdered(es: Entries, uses: seq<Key>, e: Entry, size: nat)
    requires Ordered(Keys(es), uses) && KeyOf(e) !in Keys(es)
    ensures Ordered(Keys(AfterInsert(es, e, size)), uses + [KeyOf(e)])
    ensures |es| == size && es != [] ==>
      forall i :: 1 <= i < |es| ==> LastUse(uses, KeyOf(es[0])) < LastUse(uses, KeyOf(es[i]))
  {
    var kept := if |es| == size && es != [] then es[1..] else es;
    assert forall i :: 0 <= i < |kept| ==> Keys(kept)[i] == Keys(es)[if kept == es then i else i + 1];
    assert Keys(kept + [e]) == Keys(kept) + [KeyOf(e)];
    UseMovesToEnd(Keys(kept), uses, KeyOf(e));
  }

  // ----- requests interleaved in any order -----

  /** A request: its key, and whether the message carries a per-connection context that keeps it out of the cache. */
  datatype Ask = Ask(key: Key, hasContext: bool)

  datatype State = State(entries: Entries, waiting: map<nat, Ask>, answered: map<nat, (Ask, Entry)>)

  datatype Event =
    | Request(id: nat, ask: Ask)
    | Compressed(id: nat, out: Bytes)
    | Failed(id: nat)

  const INITIAL := State([], map[], map[])

  /**
   `compresses(alg, original, out)`: `out` is a compression of `original` under `alg`; compressors produce nothing
   else.
   */
  function Step(compresses: (Algorithm, Bytes, Bytes) -> bool, size: nat, s: State, e: Event): State {
    match e
    case Request(id, a) =>
      if id in s.waiting || id in s.answered then s
      else if a.hasContext then s.(waiting := s.waiting[id := a])
      else
        var i := IndexOf(Keys(s.entries), a.key);
        if i < |s.entries| then
          s.(entries := AfterProbe(s.entries, a.key), answered := s.answered[id := (a, s.entries[i])])
        else s.(waiting := s.waiting[id := a])
    case Compressed(id, out) =>
      if id !in s.waiting || !compresses(s.waiting[id].key.algorithm, s.waiting[id].key.original, out) then s
      else
        var a := s.waiting[id];
        if a.hasContext then
          s.(waiting := s.waiting - {id}, answered := s.answered[id := (a, NewEntry(a.key, out).(original := []))])
        else
          State(AfterInsert(s.entries, NewEntry(a.key, out), size), s.waiting - {id},
                s.answered[id := (a, NewEntry(a.key, out))])
    case Failed(id) => s.(waiting := s.waiting - {id})
  }

  function Run(compresses: (Algorithm, Bytes, Bytes) -> bool, size: nat, events: seq<Event>): State {
    if events == [] then INITIAL
    else Step(compresses, size, Run(compresses, size, events[..|events| - 1]), events[|events| - 1])
  }

  ghost predicate Genuine(compresses: (Algorithm, Bytes, Bytes) -> bool, e: Entry) {
    compresses(e.algorithm, e.original, e.compressed) && e.uncompressedLen == |e.original| % 0x1_0000_0000
  }

  /** An answer uses the algorithm asked for and compresses exactly the message asked for. */
  ghost predicate Right(compresses: (Algorithm, Bytes, Bytes) -> bool, a: Ask, e: Entry) {
    && e.algorithm == a.key.algorithm
    && compresses(a.key.algorithm, a.key.original, e.compressed)
    && e.uncompressedLen == |a.key.original| % 0x1_0000_0000
    && (!a.hasContext ==> e.original == a.key.original)
  }

  ghost predicate Inv(compresses: (Algorithm, Bytes, Bytes) -> bool, size: nat, s: State) {
    && |s.entries| <= size
    && (forall e :: e in s.entries ==> Genuine(compresses, e))
    && (forall id :: id in s.answered ==> Right(compresses, s.answered[id].0, s.answered[id].1))
  }

  lemma StepKeeps(compresses: (Algorithm, Bytes, Bytes) -> bool, size: nat, s: State, e: Event)
    requires size > 0 && Inv(compresses, size, s)
    ensures Inv(compresses, size, Step(compresses, size, s, e))
  {
    if e.Request? {
      var i := IndexOf(Keys(s.entries), e.ask.key);
      if i < |s.entries| {
        assert s.entries[i] in s.entries;
      }
    }
  }

  /** Over every interleaving the bound holds, and every answer is a compression of exactly the message asked for. */
  lemma {:induction false} RunsAreRight(compresses: (Algorithm, Bytes, Bytes) -> bool, size: nat, events: seq<Event>)
    requires size > 0
    ensures Inv(compresses, size, Run(compresses, size, events))
  {
    if events != [] {
      RunsAreRight(compresses, size, events[..|events| - 1]);
      StepKeeps(compresses, size, Run(compresses, size, events[..|events| - 1]), events[|events| - 1]);
    }
  }

  ghost predicate Unique(es: Entries) {
    forall i, j :: 0 <= i < j < |es| ==> KeyOf(es[i]) != KeyOf(es[j])
  }

  /** An insert keeps keys unique exactly when none of the entries it keeps has that key already. */
  lemma InsertUnique(es: Entries, e: Entry, size: nat)
    requires Unique(es)
    ensures Unique(AfterInsert(es, e, size)) <==>
      (forall i :: 0 <= i < |es| && KeyOf(es[i]) == KeyOf(e) ==> i == 0 && |es| == size)
  {
    var es' := AfterInsert(es, e, size);
    var d := if |es| == size && es != [] then 1 else 0;
    assert forall i :: d <= i < |es| ==> es'[i - d] == es[i];
    assert es'[|es'| - 1] == e;
    if i :| d <= i < |es| && KeyOf(es[i]) == KeyOf(e) {
      assert KeyOf(es'[i - d]) == KeyOf(es'[|es'| - 1]);
    }
  }

  lemma RunPush(compresses: (Algorithm, Bytes, Bytes) -> bool, size: nat, events: seq<Event>, e: Event)
    ensures Run(compresses, size, events + [e]) == Step(compresses, size, Run(compresses, size, events), e)
  {
    assert (events + [e])[..|events|] == events;
  }

  /** Two requests for one key, both before any insert. */
  lemma TwoMisses(compresses: (Algorithm, Bytes, Bytes) -> bool, size: nat, a: Ask) returns (events: seq<Event>)
    ensures var s := Run(compresses, size, events); s.entries == [] && s.waiting == map[0 := a, 1 := a]
  {
    var e1 := [] + [Request(0, a)];
    events := e1 + [Request(1, a)];
    RunPush(compresses, size, [], Request(0, a));
    RunPush(compresses, size, e1, Request(1, a));
    assert Run(compresses, size, e1).waiting == map[0 := a];
  }

  lemma CompressedStep(compresses: (Algorithm, Bytes, Bytes) -> bool, size: nat, s: State, id: nat, k: Key, out: Bytes)
    requires id in s.waiting && s.waiting[id] == Ask(k, false) && compresses(k.algorithm, k.original, out)
    ensures var s' := Step(compresses, size, s, Compressed(id, out));
      s'.entries == AfterInsert(s.entries, NewEntry(k, out), size) && s'.waiting == s.waiting - {id}
  {
  }

  /** Two requests that both miss before either inserts leave the same key twice, whenever there is room for two. */
  lemma ConcurrentMissesDuplicate(compresses: (Algorithm, Bytes, Bytes) -> bool, size: nat, k: Key, out: Bytes)
    returns (events: seq<Event>)
    requires size >= 2 && compresses(k.algorithm, k.original, out)
    ensures var s := Run(compresses, size, events); |s.entries| == 2 && KeyOf(s.entries[0]) == KeyOf(s.entries[1]) == k
  {
    var e2 := TwoMisses(compresses, size, Ask(k, false));
    var e3 := e2 + [Compressed(0, out)];
    events := e3 + [Compressed(1, out)];
    RunPush(compresses, size, e2, Compressed(0, out));
    RunPush(compresses, size, e3, Compressed(1, out));
    CompressedStep(compresses, size, Run(compresses, size, e2), 0, k, out);
    CompressedStep(compresses, size, Run(compresses, size, e3), 1, k, out);
  }
}
