/**
 The records of a TLS connection: fragments, what the state of the key does to each data record that is due, and
 the history of what was sealed.
 */
module TlsRecords {
  import opened ChunkBuffer
  import opened Octets
  import opened Prelude

  datatype ContentType = ApplicationData | Handshake | Alert

  const SEQ_SOFT_LIMIT := 0xffff_ffff_ffff_0000
  const SEQ_HARD_LIMIT := 0xffff_ffff_ffff_fffe
  const HEADER_SIZE := 5
  const MIN_FRAGMENT := 27

  /** How many records a key may seal. */
  type KeyLimit = n: nat | n <= SEQ_SOFT_LIMIT
  type FragmentSize = n: nat | n >= MIN_FRAGMENT witness MIN_FRAGMENT

  const CLOSE_NOTIFY: Bytes := [1, 0]
  const KEY_UPDATE_NOTIFY: Bytes := [24, 0, 0, 1, 0]
  const KEY_UPDATE_REQUEST: Bytes := [24, 0, 0, 1, 1]

  // ----- fragments -----

  function Fragments(payload: Bytes, max: nat): seq<Bytes>
    requires max > 0
    decreases |payload|
  {
    if payload == [] then []
    else if |payload| <= max then [payload]
    else [payload[..max]] + Fragments(payload[max..], max)
  }

  /** Fragments rejoin to the payload, and none is empty. */
  lemma {:induction false} FragmentsRejoin(payload: Bytes, max: nat)
    requires max > 0
    ensures Flat(Fragments(payload, max)) == payload && AllFilled(Fragments(payload, max))
    decreases |payload|
  {
    if payload == [] {
    } else if |payload| <= max {
      FlatCons(payload, []);
      assert [payload] + [] == [payload] && [payload][1..] == [];
    } else {
      FragmentsRejoin(payload[max..], max);
      FlatCons(payload[..max], Fragments(payload[max..], max));
      assert payload == payload[..max] + payload[max..];
    }
  }

  /** No fragment is too long, and all but the last are full. */
  lemma {:induction false} FragmentsAreFull(payload: Bytes, max: nat, i: nat)
    requires max > 0 && i < |Fragments(payload, max)|
    ensures var fs := Fragments(payload, max); 0 < |fs[i]| <= max && (i + 1 < |fs| ==> |fs[i]| == max)
    decreases |payload|
  {
    if i > 0 {
      FragmentsAreFull(payload[max..], max, i - 1);
    }
  }

  // ----- what to do before sealing -----

  datatype PreEncryptAction = Nothing | RefreshOrClose | Refuse

  function ActionAt(seqNo: nat, seqMax: nat): PreEncryptAction {
    if seqNo == seqMax then RefreshOrClose
    else if seqNo >= SEQ_HARD_LIMIT then Refuse
    else Nothing
  }

  /** A data record due at this sequence number is given up instead of being sealed. */
  predicate DropsAt(seqNo: nat, seqMax: nat, tls13: bool) {
    ActionAt(seqNo, seqMax).Refuse? || (ActionAt(seqNo, seqMax).RefreshOrClose? && !tls13)
  }

  /** None of the next `n` data records is given up. */
  predicate NoDrops(seqNo: nat, n: nat, seqMax: nat, tls13: bool) {
    n == 0 || (NoDrops(seqNo, n - 1, seqMax, tls13) && !DropsAt(seqNo + n - 1, seqMax, tls13))
  }

  lemma {:induction false} NoDropsAt(seqNo: nat, n: nat, seqMax: nat, tls13: bool, i: nat)
    requires i < n && NoDrops(seqNo, n, seqMax, tls13)
    ensures !DropsAt(seqNo + i, seqMax, tls13)
  {
    if i < n - 1 {
      NoDropsAt(seqNo, n - 1, seqMax, tls13, i);
    }
  }

  /**
   A caller can tell beforehand: there must be room below the hard limit and, before TLS 1.3, below the key's own
   limit.
   */
  lemma {:induction false} NoDropsIff(seqNo: nat, n: nat, seqMax: nat, tls13: bool)
    requires seqMax <= SEQ_SOFT_LIMIT
    ensures NoDrops(seqNo, n, seqMax, tls13) <==>
      n == 0 || (seqNo + n <= SEQ_HARD_LIMIT && (tls13 || !(seqNo <= seqMax < seqNo + n)))
  {
    if n > 0 {
      NoDropsIff(seqNo, n - 1, seqMax, tls13);
    }
  }

  // ----- which fragments survive -----

  /** What decides the fate of the next data record: its sequence number, and whether the closing alert was sent. */
  datatype Cursor = Cursor(seqNo: nat, closed: bool)

  datatype Terms = Terms(seqMax: KeyLimit, tls13: bool, encrypting: bool)

  predicate Drops(c: Cursor, k: Terms) {
    DropsAt(c.seqNo, k.seqMax, k.tls13)
  }

  /** After one data record was due: sealed, given up for a closing alert that takes its number, or just given up. */
  function Next(c: Cursor, k: Terms): Cursor {
    Cursor(c.seqNo + Used(c, k), c.closed || (c.seqNo == k.seqMax && !k.tls13))
  }

  /** The sequence number goes to the record, or before TLS 1.3, at the key's limit, to the alert sent in its place. */
  function Used(c: Cursor, k: Terms): nat {
    if Drops(c, k) && !(c.seqNo == k.seqMax && k.encrypting && !c.closed) then 0 else 1
  }

  function Later(c: Cursor, n: nat, k: Terms): Cursor {
    if n == 0 then c else Next(Later(c, n - 1, k), k)
  }

  /** The fragments that get sealed, of those due from a cursor on. */
  function Survivors(fs: seq<Bytes>, c: Cursor, k: Terms): seq<Bytes> {
    if fs == [] then []
    else
      var (init, last) := (fs[..|fs| - 1], fs[|fs| - 1]);
      if Drops(Later(c, |init|, k), k) then Survivors(init, c, k) else Survivors(init, c, k) + [last]
  }

  lemma SurvivorsStep(fs: seq<Bytes>, i: nat, c: Cursor, k: Terms)
    requires i < |fs|
    ensures Flat(Survivors(fs[..i + 1], c, k))
            == Flat(Survivors(fs[..i], c, k)) + (if Drops(Later(c, i, k), k) then [] else fs[i])
  {
    assert fs[..i + 1][..i] == fs[..i];
    FlatPush(Survivors(fs[..i], c, k), fs[i]);
  }

  lemma {:induction false} LaterMore(c: Cursor, n: nat, m: nat, k: Terms)
    ensures Later(Later(c, n, k), m, k) == Later(c, n + m, k)
  {
    if m > 0 {
      LaterMore(c, n, m - 1, k);
    }
  }

  lemma LaterConcat(a: seq<Bytes>, b: seq<Bytes>, c: Cursor, k: Terms)
    ensures Later(Later(c, |a|, k), |b|, k) == Later(c, |a + b|, k)
  {
    LaterMore(c, |a|, |b|, k);
  }

  lemma {:induction false} SurvivorsConcat(a: seq<Bytes>, b: seq<Bytes>, c: Cursor, k: Terms)
    ensures Survivors(a + b, c, k) == Survivors(a, c, k) + Survivors(b, Later(c, |a|, k), k)
  {
    if b == [] {
      assert a + b == a;
    } else {
      var init := b[..|b| - 1];
      SurvivorsConcat(a, init, c, k);
      LaterMore(c, |a|, |init|, k);
      assert (a + b)[..|a + b| - 1] == a + init;
    }
  }

  lemma SurvivingMore(gone: seq<Bytes>, fs: seq<Bytes>, c: Cursor, k: Terms)
    ensures Flat(Survivors(gone + fs, c, k))
            == Flat(Survivors(gone, c, k)) + Flat(Survivors(fs, Later(c, |gone|, k), k))
  {
    var a, b := Survivors(gone, c, k), Survivors(fs, Later(c, |gone|, k), k);
    SurvivorsConcat(gone, fs, c, k);
    FlatConcat(a, b);
  }

  /** Everything survives exactly when no record is given up. */
  lemma {:induction false} AllSurviveIff(fs: seq<Bytes>, c: Cursor, k: Terms)
    ensures |Survivors(fs, c, k)| <= |fs|
    ensures Survivors(fs, c, k) == fs <==> NoDrops(c.seqNo, |fs|, k.seqMax, k.tls13)
    ensures NoDrops(c.seqNo, |fs|, k.seqMax, k.tls13) ==> Later(c, |fs|, k) == Cursor(c.seqNo + |fs|, c.closed)
    ensures !NoDrops(c.seqNo, |fs|, k.seqMax, k.tls13) ==> |Survivors(fs, c, k)| < |fs|
  {
    if fs != [] {
      var init := fs[..|fs| - 1];
      AllSurviveIff(init, c, k);
      assert fs == init + [fs[|fs| - 1]];
    }
  }

  /** Then a payload is sealed whole. */
  lemma WholePayload(payload: Bytes, max: nat, c: Cursor, k: Terms)
    requires max > 0
    ensures NoDrops(c.seqNo, |Fragments(payload, max)|, k.seqMax, k.tls13) ==>
      Flat(Survivors(Fragments(payload, max), c, k)) == payload
  {
    AllSurviveIff(Fragments(payload, max), c, k);
    FragmentsRejoin(payload, max);
  }

  /** How many of n records fit below the hard limit. */
  function Room(seqNo: nat, n: nat): nat {
    if seqNo >= SEQ_HARD_LIMIT then 0 else if seqNo + n <= SEQ_HARD_LIMIT then n else SEQ_HARD_LIMIT - seqNo
  }

  lemma {:induction false} LaterFree(c: Cursor, n: nat, k: Terms)
    requires k.tls13 || c.seqNo > k.seqMax
    ensures Later(c, n, k) == Cursor(c.seqNo + Room(c.seqNo, n), c.closed)
  {
    if n > 0 {
      LaterFree(c, n - 1, k);
    }
  }

  /** In TLS 1.3, or once past the key's limit, only the hard limit cuts: the first fragments survive. */
  lemma {:induction false} FirstSurvive(fs: seq<Bytes>, c: Cursor, k: Terms)
    requires k.tls13 || c.seqNo > k.seqMax
    ensures Survivors(fs, c, k) == fs[..Room(c.seqNo, |fs|)]
  {
    if fs != [] {
      var init := fs[..|fs| - 1];
      FirstSurvive(init, c, k);
      LaterFree(c, |init|, k);
      if Drops(Later(c, |init|, k), k) {
        assert Room(c.seqNo, |fs|) == Room(c.seqNo, |init|);
        assert init[..Room(c.seqNo, |init|)] == fs[..Room(c.seqNo, |init|)];
      } else {
        assert Room(c.seqNo, |init|) == |init| && Room(c.seqNo, |fs|) == |fs|;
        assert init[..|init|] == init && fs[..|fs|] == init + [fs[|fs| - 1]];
      }
    }
  }

  /** Before TLS 1.3, at the limit with no alert to take the number, everything is given up. */
  lemma {:induction false} NoneSurvive(fs: seq<Bytes>, c: Cursor, k: Terms)
    requires !k.tls13 && c.seqNo == k.seqMax && (c.closed || !k.encrypting)
    ensures Survivors(fs, c, k) == []
    ensures Later(c, |fs|, k).seqNo == c.seqNo && (fs != [] ==> Later(c, |fs|, k).closed)
  {
    if fs != [] {
      NoneSurvive(fs[..|fs| - 1], c, k);
    }
  }

  lemma OneIsGivenUp(f: Bytes, c: Cursor, k: Terms)
    requires !k.tls13 && c.seqNo == k.seqMax && !c.closed && k.encrypting
    ensures Survivors([f], c, k) == [] && Later(c, 1, k) == Cursor(k.seqMax + 1, true)
  {
    assert [f][..0] == [];
    assert Later(c, 1, k) == Next(Later(c, 0, k), k);
  }

  /** Up to the limit everything survives. */
  lemma AllUpToTheLimit(fs: seq<Bytes>, c: Cursor, k: Terms)
    requires c.seqNo + |fs| <= k.seqMax
    ensures Survivors(fs, c, k) == fs && Later(c, |fs|, k) == Cursor(c.seqNo + |fs|, c.closed)
  {
    NoDropsIff(c.seqNo, |fs|, k.seqMax, k.tls13);
    AllSurviveIff(fs, c, k);
  }

  /** What survives of fragments the first of which is due at the key's limit, before TLS 1.3. */
  function AfterLimit(fs: seq<Bytes>, closed: bool, k: Terms): seq<Bytes>
    requires fs != []
  {
    if closed || !k.encrypting then [] else fs[1..][..Room(k.seqMax + 1, |fs| - 1)]
  }

  lemma AfterTheLimit(fs: seq<Bytes>, c: Cursor, k: Terms)
    requires !k.tls13 && c.seqNo == k.seqMax && fs != []
    ensures Survivors(fs, c, k) == AfterLimit(fs, c.closed, k)
  {
    if c.closed || !k.encrypting {
      NoneSurvive(fs, c, k);
    } else {
      OneIsGivenUp(fs[0], c, k);
      SurvivorsConcat([fs[0]], fs[1..], c, k);
      FirstSurvive(fs[1..], Cursor(k.seqMax + 1, true), k);
      assert fs == [fs[0]] + fs[1..];
    }
  }

  /**
   Before TLS 1.3 the fragment due at the key's limit is given up. If the closing alert is sealed in its place, sealing
   goes on behind it, so the data have a hole; if that alert was sent before, nothing more survives.
   */
  lemma HoleAtTheLimit(fs: seq<Bytes>, c: Cursor, k: Terms)
    requires !k.tls13 && c.seqNo <= k.seqMax < c.seqNo + |fs|
    ensures var m := k.seqMax - c.seqNo;
      Survivors(fs, c, k) == fs[..m] + AfterLimit(fs[m..], c.closed, k)
  {
    var m := k.seqMax - c.seqNo;
    assert fs == fs[..m] + fs[m..];
    AllUpToTheLimit(fs[..m], c, k);
    SurvivorsConcat(fs[..m], fs[m..], c, k);
    AfterTheLimit(fs[m..], Cursor(k.seqMax, c.closed), k);
  }

  /** The fragments a list of chunks makes. */
  function AllFragments(chunks: seq<Bytes>, max: nat): seq<Bytes>
    requires max > 0
  {
    if chunks == [] then [] else Fragments(chunks[0], max) + AllFragments(chunks[1..], max)
  }

  lemma {:induction false} AllFragmentsRejoin(chunks: seq<Bytes>, max: nat)
    requires max > 0
    ensures Flat(AllFragments(chunks, max)) == Flat(chunks)
  {
    if chunks != [] {
      FragmentsRejoin(chunks[0], max);
      AllFragmentsRejoin(chunks[1..], max);
      FlatConcat(Fragments(chunks[0], max), AllFragments(chunks[1..], max));
      FlatHead(chunks);
    }
  }

  /** Size of fragments once sealed under the key of an epoch. */
  function SealedSize(sealedLen: (nat, nat) -> nat, epoch: nat, fs: seq<Bytes>): nat {
    if fs == [] then 0 else HEADER_SIZE + sealedLen(epoch, |fs[0]|) + SealedSize(sealedLen, epoch, fs[1..])
  }

  lemma SealedSizeStep(sealedLen: (nat, nat) -> nat, epoch: nat, fs: seq<Bytes>, i: nat)
    requires i < |fs|
    ensures SealedSize(sealedLen, epoch, fs[i..]) ==
      HEADER_SIZE + sealedLen(epoch, |fs[i]|) + SealedSize(sealedLen, epoch, fs[i + 1..])
  {
    assert fs[i..][1..] == fs[i + 1..];
  }

  // ----- history -----

  /** A record in wire form; `nonce` is the key epoch and sequence number it was sealed under, if it was. */
  datatype Record = Record(typ: ContentType, payload: Bytes, wire: Bytes, nonce: Option<(nat, nat)>)

  function Stream(log: seq<Record>): Bytes {
    if log == [] then [] else Stream(log[..|log| - 1]) + log[|log| - 1].wire
  }

  /** The application data of a log, in order. */
  function AppData(log: seq<Record>): Bytes {
    if log == [] then []
    else AppDataThen(AppData(log[..|log| - 1]), log[|log| - 1].typ, log[|log| - 1].payload)
  }

  /** The application data once one more record is made. */
  function AppDataThen(data: Bytes, typ: ContentType, payload: Bytes): Bytes {
    if typ.ApplicationData? then data + payload else data
  }

  lemma LogPush(log: seq<Record>, r: Record)
    ensures Stream(log + [r]) == Stream(log) + r.wire
    ensures AppData(log + [r]) == AppDataThen(AppData(log), r.typ, r.payload)
  {
    assert (log + [r])[..|log|] == log;
  }

  /** A log continues another with records that carry exactly these data. */
  ghost predicate Carries(before: seq<Record>, after: seq<Record>, data: Bytes) {
    before <= after && AppData(after) == AppData(before) + data
  }

  lemma CarriesNothing(log: seq<Record>)
    ensures Carries(log, log, [])
  {
  }

  lemma CarriesMore(a: seq<Record>, b: seq<Record>, c: seq<Record>, x: Bytes, y: Bytes)
    requires Carries(a, b, x) && Carries(b, c, y)
    ensures Carries(a, c, x + y)
  {
    Assoc(AppData(a), x, y);
  }

  /** When nothing is given up, data held in chunks follow those sealed before them. */
  lemma HeldThenSealed(made: seq<Record>, log: seq<Record>, chunks: seq<Bytes>, max: nat, c: Cursor, k: Terms)
    requires max > 0 && Carries(made, log, Flat(Survivors(AllFragments(chunks, max), c, k)))
    ensures NoDrops(c.seqNo, |AllFragments(chunks, max)|, k.seqMax, k.tls13) ==>
      AppData(log) == AppData(made) + Flat(chunks)
  {
    AllSurviveIff(AllFragments(chunks, max), c, k);
    AllFragmentsRejoin(chunks, max);
  }

  /** These fragments were due from a cursor on, and their survivors were sealed behind what was made before. */
  ghost predicate Sent(gone: seq<Bytes>, c: Cursor, k: Terms, made: seq<Record>, log: seq<Record>, now: Cursor) {
    match now
    case Cursor(_, _) => now == Later(c, |gone|, k) && Carries(made, log, Flat(Survivors(gone, c, k)))
  }

  lemma SentNone(c: Cursor, k: Terms, made: seq<Record>)
    ensures Sent([], c, k, made, made, c)
  {
  }

  lemma SentOneMore(fs: seq<Bytes>, i: nat, c: Cursor, k: Terms, made: seq<Record>, log: seq<Record>, now: Cursor,
                    after: seq<Record>)
    requires i < |fs| && Sent(fs[..i], c, k, made, log, now)
    requires Carries(log, after, if Drops(now, k) then [] else fs[i])
    ensures Sent(fs[..i + 1], c, k, made, after, Next(now, k))
  {
    SurvivorsStep(fs, i, c, k);
    CarriesMore(made, log, after, Flat(Survivors(fs[..i], c, k)), if Drops(now, k) then [] else fs[i]);
  }

  lemma SentIs(gone: seq<Bytes>, c: Cursor, k: Terms, made: seq<Record>, log: seq<Record>, now: Cursor)
    requires now == Later(c, |gone|, k) && Carries(made, log, Flat(Survivors(gone, c, k)))
    ensures Sent(gone, c, k, made, log, now)
  {
  }

  lemma SentMore(gone: seq<Bytes>, fs: seq<Bytes>, c: Cursor, k: Terms, made: seq<Record>, log: seq<Record>,
                 now: Cursor, after: seq<Record>)
    requires Sent(gone, c, k, made, log, now) && Carries(log, after, Flat(Survivors(fs, now, k)))
    ensures Sent(gone + fs, c, k, made, after, Later(now, |fs|, k))
  {
    CarriesMore(made, log, after, Flat(Survivors(gone, c, k)), Flat(Survivors(fs, now, k)));
    SurvivingMore(gone, fs, c, k);
    LaterConcat(gone, fs, c, k);
    SentIs(gone + fs, c, k, made, after, Later(now, |fs|, k));
  }

  lemma SentAll(fs: seq<Bytes>, c: Cursor, k: Terms, made: seq<Record>, log: seq<Record>, now: Cursor)
    requires Sent(fs, c, k, made, log, now)
    ensures now == Later(c, |fs|, k) && Carries(made, log, Flat(Survivors(fs, c, k)))
  {
  }

  lemma PushKeepsOrder(out: Bytes, pending: Bytes, log: seq<Record>, r: Record)
    requires out + pending == Stream(log)
    ensures out + (pending + r.wire) == Stream(log + [r])
  {
    LogPush(log, r);
    assert out + (pending + r.wire) == (out + pending) + r.wire;
  }

  predicate NonceBefore(a: (nat, nat), b: (nat, nat)) {
    a.0 < b.0 || (a.0 == b.0 && a.1 < b.1)
  }

  /** Sealed records use strictly increasing nonces, all before the next one to be used. */
  ghost predicate NoncesIncrease(log: seq<Record>, next: (nat, nat)) {
    if log == [] then true
    else
      var (before, r) := (log[..|log| - 1], log[|log| - 1]);
      if r.nonce.None? then NoncesIncrease(before, next)
      else NonceBefore(r.nonce.value, next) && NoncesIncrease(before, r.nonce.value)
  }

  lemma NoncePush(log: seq<Record>, next: (nat, nat), r: Record)
    requires NoncesIncrease(log, next)
    ensures r.nonce == Some(next) ==> NoncesIncrease(log + [r], (next.0, next.1 + 1))
    ensures r.nonce.None? ==> NoncesIncrease(log + [r], next)
  {
    assert (log + [r])[..|log|] == log;
  }

  lemma {:induction false} NoncesLater(log: seq<Record>, a: (nat, nat), b: (nat, nat))
    requires NoncesIncrease(log, a) && NonceBefore(a, b)
    ensures NoncesIncrease(log, b)
  {
    if log != [] && log[|log| - 1].nonce.None? {
      NoncesLater(log[..|log| - 1], a, b);
    }
  }

  lemma {:induction false} NoncesBelow(log: seq<Record>, next: (nat, nat), i: nat)
    requires NoncesIncrease(log, next) && i < |log| && log[i].nonce.Some?
    ensures NonceBefore(log[i].nonce.value, next)
  {
    var n := |log| - 1;
    if i < n {
      NoncesBelow(log[..n], if log[n].nonce.None? then next else log[n].nonce.value, i);
    }
  }

  /** No two records of a log are sealed under the same key epoch and sequence number: later ones use later nonces. */
  lemma {:induction false} NoncesNeverRepeat(log: seq<Record>, next: (nat, nat), i: nat, j: nat)
    requires NoncesIncrease(log, next) && i < j < |log| && log[i].nonce.Some? && log[j].nonce.Some?
    ensures NonceBefore(log[i].nonce.value, log[j].nonce.value) && log[i].nonce != log[j].nonce
  {
    var n := |log| - 1;
    if j < n {
      NoncesNeverRepeat(log[..n], if log[n].nonce.None? then next else log[n].nonce.value, i, j);
    } else {
      NoncesBelow(log[..n], log[n].nonce.value, i);
    }
  }

  /** The buffer, then the waiting key-update notice. */
  function QueueOf(contents: Bytes, queued: Option<Bytes>): Bytes {
    match queued
    case None => contents
    case Some(notice) => contents + notice
  }

  lemma QueueWritten(out: Bytes, contents: Bytes, queued: Option<Bytes>, n: nat)
    requires n <= |contents|
    ensures QueueOf(contents[n..], queued) == QueueOf(contents, queued)[n..]
    ensures (out + contents[..n]) + QueueOf(contents[n..], queued) == out + QueueOf(contents, queued)
  {
    var head, tail := contents[..n], contents[n..];
    assert contents == head + tail;
    Assoc(out, head, tail);
    if queued.Some? {
      Assoc(head, tail, queued.value);
      Assoc(out, head, tail + queued.value);
      assert (head + (tail + queued.value))[n..] == tail + queued.value;
    }
  }
}
