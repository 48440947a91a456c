/**
 The sending half of a TLS connection: records are sealed under a key epoch and a sequence number, queued,
 and written out by one of two routes, while key-update notices wait in a slot of their own.
 Ghost history says what was sealed, what left, and what the application handed over.
 */
module TlsSend {
  import opened ChunkBuffer
  import opened Octets
  import opened Prelude
  import opened TlsRecords

  datatype EncryptResult = Written(n: nat) | InsufficientSize(required: nat) | EncryptExhausted | Panicked

  class SendSide {
    /** Sealing under an epoch and a sequence number, and the size it gives a payload. */
    const seal: (nat, nat, ContentType, Bytes) -> Bytes
    const sealedLen: (nat, nat) -> nat
    const clear: (ContentType, Bytes) -> Bytes
    const maxFrag: FragmentSize
    const sendable: ChunkVecBuffer
    const plain: ChunkVecBuffer

    var queued: Option<Bytes>
    var epoch: nat
    var writeSeq: nat
    var writeSeqMax: KeyLimit
    var encrypting: bool
    var tls13: bool
    var refreshPending: bool
    var sentFatalAlert: bool
    var sentCloseNotify: bool
    var maySend: bool

    /**
     Records in the order they were made, bytes already written, plaintext accepted, and whether any of it was given
     up.
     */
    ghost var log: seq<Record>
    ghost var out: Bytes
    ghost var accepted: Bytes
    ghost var intact: bool

    /** What never changes: two queues, and sealing that gives a payload its announced size. */
    ghost predicate Fixed() {
      sendable != plain && forall e, s, t, p :: |seal(e, s, t, p)| == HEADER_SIZE + sealedLen(e, |p|)
    }

    /** What is queued to leave: the buffer, then the waiting key-update notice. */
    ghost function Pending(): Bytes
      requires sendable.Valid()
      reads this`queued, sendable
    {
      QueueOf(sendable.Contents(), queued)
    }

    /** Everything made so far has left or is queued, in the order it was made, and no nonce repeats. */
    ghost predicate InOrder()
      requires sendable.Valid()
      reads this`queued, this`log, this`out, this`epoch, this`writeSeq, sendable
    {
      match queued
      case None => out + sendable.Contents() == Stream(log) && NoncesIncrease(log, (epoch, writeSeq))
      case Some(notice) => out + (sendable.Contents() + notice) == Stream(log) && NoncesIncrease(log, (epoch, writeSeq))
    }

    /** Where the next data record stands, and the terms its fate depends on. */
    ghost function Due(): Cursor
      reads this`writeSeq, this`sentFatalAlert
    {
      Cursor(writeSeq, sentFatalAlert)
    }

    ghost function Key(): Terms
      reads this`writeSeqMax, this`tls13, this`encrypting
    {
      Terms(writeSeqMax, tls13, encrypting)
    }

    /** The data of these fragments that get sealed, as things stand. */
    ghost function Surviving(fs: seq<Bytes>): Bytes
      reads this`writeSeq, this`sentFatalAlert, this`writeSeqMax, this`tls13, this`encrypting
    {
      Flat(Survivors(fs, Due(), Key()))
    }

    ghost predicate Ready()
      reads this`queued, this`log, this`out, this`epoch, this`writeSeq, sendable
    {
      sendable.Valid() && InOrder()
    }

    /**
     Unless something was given up, accepted plaintext is sealed or still buffered, in order; nothing stays buffered
     once traffic flows.
     */
    ghost predicate Conserved()
      requires plain.Valid()
      reads this`log, this`accepted, this`intact, this`maySend, plain
    {
      match maySend
      case true => plain.Contents() == [] && plain.prefixUsed == 0 && (intact ==> AppData(log) == accepted)
      case false => plain.prefixUsed == 0 && (intact ==> AppData(log) + plain.Contents() == accepted)
    }

    ghost predicate Valid()
      reads this`queued, this`log, this`out, this`epoch, this`writeSeq
      reads this`accepted, this`intact, this`maySend, sendable, plain
    {
      Fixed() && Ready() && plain.Valid() && Conserved()
    }

    constructor (seal: (nat, nat, ContentType, Bytes) -> Bytes, sealedLen: (nat, nat) -> nat,
                 clear: (ContentType, Bytes) -> Bytes, maxFrag: FragmentSize,
                 limit: Option<nat>, plainLimit: Option<nat>)
      requires forall e, s, t, p :: |seal(e, s, t, p)| == HEADER_SIZE + sealedLen(e, |p|)
      ensures Valid() && fresh(sendable) && fresh(plain)
      ensures intact && log == [] && accepted == [] && !maySend && !encrypting
    {
      this.seal, this.sealedLen, this.clear, this.maxFrag := seal, sealedLen, clear, maxFrag;
      var s := new ChunkVecBuffer(limit);
      var p := new ChunkVecBuffer(plainLimit);
      sendable, plain := s, p;
      queued, epoch, writeSeq, writeSeqMax := None, 0, 0, 0;
      encrypting, tls13, refreshPending := false, false, false;
      sentFatalAlert, sentCloseNotify, maySend := false, false, false;
      log, out, accepted, intact := [], [], [], true;
    }

    /** Moves a waiting key-update notice to the queue. */
    method PerhapsWriteKeyUpdate()
      requires sendable.Valid()
      modifies this`queued, sendable
      ensures sendable.Valid() && queued.None? && Pending() == old(Pending())
    {
      if queued.Some? {
        var n := sendable.Append(queued.value);
        queued := None;
      }
    }

    /** Queues wire bytes behind everything made before them. */
    method QueueTlsMessage(bytes: Bytes)
      requires sendable.Valid()
      modifies this`queued, sendable
      ensures sendable.Valid() && queued.None? && Pending() == old(Pending()) + bytes
    {
      PerhapsWriteKeyUpdate();
      var n := sendable.Append(bytes);
    }

    /** The record a payload makes under a key epoch and a sequence number. */
    ghost function SealedRecord(typ: ContentType, payload: Bytes, e: nat, n: nat): Record {
      Record(typ, payload, seal(e, n, typ, payload), Some((e, n)))
    }

    /** Seals one record; the source asserts that the key is not exhausted. */
    method EncryptOutgoing(typ: ContentType, payload: Bytes) returns (bytes: Bytes)
      requires Fixed() && NoncesIncrease(log, (epoch, writeSeq))
      requires !ActionAt(writeSeq, writeSeqMax).Refuse?
      modifies this`writeSeq, this`log
      ensures NoncesIncrease(log, (epoch, writeSeq))
      ensures writeSeq == old(writeSeq) + 1
      ensures bytes == seal(epoch, old(writeSeq), typ, payload)
      ensures log == old(log) + [SealedRecord(typ, payload, epoch, old(writeSeq))]
      ensures |bytes| == HEADER_SIZE + sealedLen(epoch, |payload|)
    {
      bytes := seal(epoch, writeSeq, typ, payload);
      NoncePush(log, (epoch, writeSeq), Record(typ, payload, bytes, Some((epoch, writeSeq))));
      log := log + [Record(typ, payload, bytes, Some((epoch, writeSeq)))];
      writeSeq := writeSeq + 1;
    }

    method SealAndQueue(typ: ContentType, payload: Bytes)
      requires Fixed() && Ready()
      requires !ActionAt(writeSeq, writeSeqMax).Refuse?
      modifies this`writeSeq, this`log, this`queued, sendable
      ensures Ready()
      ensures log == old(log) + [SealedRecord(typ, payload, epoch, old(writeSeq))]
      ensures writeSeq == old(writeSeq) + 1
      ensures AppData(log) == AppDataThen(old(AppData(log)), typ, payload)
    {
      ghost var r := SealedRecord(typ, payload, epoch, writeSeq);
      LogPush(log, r);
      PushKeepsOrder(out, Pending(), log, r);
      var bytes := EncryptOutgoing(typ, payload);
      QueueTlsMessage(bytes);
    }

    method QueueClear(typ: ContentType, payload: Bytes)
      requires Fixed() && Ready() && !typ.ApplicationData?
      modifies this`log, this`queued, sendable
      ensures Ready()
      ensures log == old(log) + [Record(typ, payload, clear(typ, payload), None)]
      ensures AppData(log) == old(AppData(log))
    {
      var bytes := clear(typ, payload);
      ghost var r := Record(typ, payload, bytes, None);
      LogPush(log, r);
      PushKeepsOrder(out, Pending(), log, r);
      NoncePush(log, (epoch, writeSeq), r);
      log := log + [Record(typ, payload, bytes, None)];
      QueueTlsMessage(bytes);
    }

    /**
     Alerts are never quashed by the state of the key: one is always made, in the clear before encryption starts and
     sealed afterwards. Only at the hard limit sealing panics, and then nothing is made.
     */
    method SendAlert(payload: Bytes) returns (panics: bool)
      requires Fixed() && Ready()
      modifies this`writeSeq, this`log, this`queued, sendable
      ensures Ready()
      ensures panics <==> encrypting && ActionAt(old(writeSeq), writeSeqMax).Refuse?
      ensures panics ==> log == old(log) && writeSeq == old(writeSeq) && Pending() == old(Pending())
      ensures !panics ==>
        && log == old(log) + [if encrypting then SealedRecord(Alert, payload, epoch, old(writeSeq))
                              else Record(Alert, payload, clear(Alert, payload), None)]
        && writeSeq == old(writeSeq) + (if encrypting then 1 else 0)
      ensures AppData(log) == old(AppData(log))
    {
      panics := encrypting && ActionAt(writeSeq, writeSeqMax).Refuse?;
      if panics {
        return;
      }
      if encrypting {
        SealAndQueue(Alert, payload);
      } else {
        QueueClear(Alert, payload);
      }
    }

    /** At most one closing alert; a panic leaves the flags set, as they are set before it is sealed. */
    method SendCloseNotify() returns (panics: bool)
      requires Fixed() && Ready()
      modifies this`writeSeq, this`log, this`queued, this`sentFatalAlert, this`sentCloseNotify, sendable
      ensures Ready() && sentFatalAlert
      ensures panics <==> !old(sentFatalAlert) && encrypting && ActionAt(old(writeSeq), writeSeqMax).Refuse?
      ensures old(sentFatalAlert) || panics ==>
        log == old(log) && writeSeq == old(writeSeq) && Pending() == old(Pending())
      ensures !old(sentFatalAlert) ==> sentCloseNotify
      ensures !old(sentFatalAlert) && !panics ==>
        && |log| == |old(log)| + 1 && log[|old(log)|].typ.Alert? && log[|old(log)|].payload == CLOSE_NOTIFY
        && writeSeq == old(writeSeq) + (if encrypting then 1 else 0)
      ensures old(log) <= log && AppData(log) == old(AppData(log))
    {
      if sentFatalAlert {
        return false;
      }
      sentFatalAlert := true;
      sentCloseNotify := true;
      panics := SendAlert(CLOSE_NOTIFY);
    }

    /** Sends one data or handshake fragment, or gives it up when the key is used up. */
    method SendSingleFragment(typ: ContentType, payload: Bytes) returns (ghost sent: bool)
      requires Fixed() && Ready() && !typ.Alert?
      modifies this`writeSeq, this`log, this`queued, this`sentFatalAlert, this`sentCloseNotify, this`refreshPending
      modifies sendable
      ensures Ready()
      ensures old(log) <= log
      ensures sent <==> !DropsAt(old(writeSeq), writeSeqMax, tls13)
      ensures Due() == Next(old(Due()), Key())
      ensures sent ==> log == old(log) + [SealedRecord(typ, payload, epoch, old(writeSeq))]
      ensures ActionAt(old(writeSeq), writeSeqMax).Refuse? ==> log == old(log)
      ensures AppData(log) == if sent then AppDataThen(old(AppData(log)), typ, payload) else old(AppData(log))
      ensures refreshPending == (old(refreshPending) || (tls13 && ActionAt(old(writeSeq), writeSeqMax).RefreshOrClose?))
    {
      var action := ActionAt(writeSeq, writeSeqMax);
      if action.RefreshOrClose? {
        if tls13 {
          refreshPending := true;
        } else {
          var panics := SendCloseNotify();
          return false;
        }
      } else if action.Refuse? {
        return false;
      }
      SealAndQueue(typ, payload);
      return true;
    }

    /**
     Fragments and sends application data. The length reported is what was taken from the payload, even when
     fragments were given up; the data sealed are exactly those of the fragments that survive.
     */
    method SendAppData(payload: Bytes, limited: bool) returns (len: nat)
      requires Fixed() && Ready()
      modifies this`writeSeq, this`log, this`queued, this`sentFatalAlert, this`sentCloseNotify, this`refreshPending
      modifies sendable
      ensures Ready()
      ensures len == if limited then Fits(sendable.limit, |old(sendable.Contents())|, |payload|) else |payload|
      ensures Due() == Later(old(Due()), |Fragments(payload[..len], maxFrag)|, Key())
      ensures Carries(old(log), log, old(Surviving(Fragments(payload[..len], maxFrag))))
      ensures NoDrops(old(writeSeq), |Fragments(payload[..len], maxFrag)|, writeSeqMax, tls13) ==>
        AppData(log) == old(AppData(log)) + payload[..len]
    {
      len := |payload|;
      if limited {
        len := sendable.ApplyLimit(|payload|);
      }
      WholePayload(payload[..len], maxFrag, Due(), Key());
      SendFragments(Fragments(payload[..len], maxFrag));
    }

    method SendFragments(fs: seq<Bytes>)
      requires Fixed() && Ready()
      modifies this`writeSeq, this`log, this`queued, this`sentFatalAlert, this`sentCloseNotify, this`refreshPending
      modifies sendable
      ensures Ready()
      ensures Due() == Later(old(Due()), |fs|, Key())
      ensures Carries(old(log), log, old(Surviving(fs)))
    {
      ghost var made, at, key := log, Due(), Key();
      SentNone(at, key, made);
      var i := 0;
      while i < |fs|
        invariant 0 <= i <= |fs| && Ready()
        invariant Sent(fs[..i], at, key, made, log, Due())
      {
        ghost var before, now := log, Due();
        SendDataFragment(fs[i]);
        SentOneMore(fs, i, at, key, made, before, now, log);
        i := i + 1;
      }
      assert fs[..i] == fs;
      SentAll(fs, at, key, made, log, Due());
    }

    method SendDataFragment(f: Bytes)
      requires Fixed() && Ready()
      modifies this`writeSeq, this`log, this`queued, this`sentFatalAlert, this`sentCloseNotify, this`refreshPending
      modifies sendable
      ensures Ready()
      ensures Due() == Next(old(Due()), Key())
      ensures Carries(old(log), log, if Drops(old(Due()), Key()) then [] else f)
    {
      ghost var sent := SendSingleFragment(ApplicationData, f);
    }

    /** Takes plaintext from the application: buffers it before traffic starts, sends it afterwards. */
    method BufferPlaintext(payload: Bytes) returns (len: nat)
      requires Valid()
      modifies this`writeSeq, this`log, this`queued, this`sentFatalAlert, this`sentCloseNotify, this`refreshPending
      modifies this`accepted, this`intact, sendable, plain
      ensures Valid()
      ensures len == if maySend then Fits(sendable.limit, |old(Pending())|, |payload|)
                     else Fits(plain.limit, |old(plain.Contents())|, |payload|)
      ensures accepted == old(accepted) + payload[..len]
      ensures Carries(old(log), log, if maySend then old(Surviving(Fragments(payload[..len], maxFrag))) else [])
      ensures intact == (old(intact) &&
                         (maySend ==> NoDrops(old(writeSeq), |Fragments(payload[..len], maxFrag)|, writeSeqMax, tls13)))
    {
      PerhapsWriteKeyUpdate();
      if !maySend {
        CarriesNothing(log);
        len := HoldPlaintext(payload);
      } else if payload == [] {
        CarriesNothing(log);
        len := 0;
      } else {
        len := SendPlaintext(payload);
      }
    }

    method HoldPlaintext(payload: Bytes) returns (len: nat)
      requires Valid() && !maySend
      modifies this`accepted, plain
      ensures Valid()
      ensures len == Fits(plain.limit, |old(plain.Contents())|, |payload|)
      ensures accepted == old(accepted) + payload[..len]
    {
      ghost var held := plain.Contents();
      len := plain.AppendLimitedCopy(payload);
      Assoc(AppData(log), held, payload[..len]);
      accepted := accepted + payload[..len];
    }

    method SendPlaintext(payload: Bytes) returns (len: nat)
      requires Valid() && maySend
      modifies this`writeSeq, this`log, this`queued, this`sentFatalAlert, this`sentCloseNotify, this`refreshPending
      modifies this`accepted, this`intact, sendable
      ensures Valid()
      ensures len == Fits(sendable.limit, |old(sendable.Contents())|, |payload|)
      ensures accepted == old(accepted) + payload[..len]
      ensures Carries(old(log), log, old(Surviving(Fragments(payload[..len], maxFrag))))
      ensures intact == (old(intact) &&
                         NoDrops(old(writeSeq), |Fragments(payload[..len], maxFrag)|, writeSeqMax, tls13))
    {
      ghost var n := writeSeq;
      len := SendAppData(payload, true);
      intact := intact && NoDrops(n, |Fragments(payload[..len], maxFrag)|, writeSeqMax, tls13);
      accepted := accepted + payload[..len];
    }

    /** Traffic may start: everything buffered during the handshake goes out first, in order. */
    method StartOutgoingTraffic()
      requires Valid() && !maySend
      modifies this`writeSeq, this`log, this`queued, this`sentFatalAlert, this`sentCloseNotify, this`refreshPending
      modifies this`maySend, this`intact, sendable, plain
      ensures Valid() && maySend
      ensures Carries(old(log), log, old(Surviving(AllFragments(plain.chunks, maxFrag))))
      ensures intact == (old(intact) &&
                         NoDrops(old(writeSeq), |AllFragments(old(plain.chunks), maxFrag)|, writeSeqMax, tls13))
    {
      ghost var chunks, n := plain.chunks, writeSeq;
      plain.UnusedIsFlat();
      maySend := true;
      FlushPlaintext();
      intact := intact && NoDrops(n, |AllFragments(chunks, maxFrag)|, writeSeqMax, tls13);
    }

    method FlushPlaintext()
      requires Fixed() && Ready() && plain.Valid() && plain.prefixUsed == 0
      modifies this`writeSeq, this`log, this`queued, this`sentFatalAlert, this`sentCloseNotify, this`refreshPending
      modifies sendable, plain
      ensures Ready() && plain.Valid() && plain.Contents() == [] && plain.prefixUsed == 0
      ensures Due() == Later(old(Due()), |AllFragments(old(plain.chunks), maxFrag)|, Key())
      ensures Carries(old(log), log, old(Surviving(AllFragments(plain.chunks, maxFrag))))
      ensures NoDrops(old(writeSeq), |AllFragments(old(plain.chunks), maxFrag)|, writeSeqMax, tls13) ==>
        AppData(log) == old(AppData(log) + Flat(plain.chunks))
    {
      ghost var at, key, made, chunks, gone := Due(), Key(), log, plain.chunks, [];
      SentNone(at, key, made);
      var more := true;
      while more
        invariant Ready() && plain.Valid() && plain.prefixUsed == 0
        invariant AllFragments(chunks, maxFrag) == gone + AllFragments(plain.chunks, maxFrag)
        invariant Sent(gone, at, key, made, log, Due())
        invariant !more ==> plain.chunks == []
        decreases more, |plain.chunks|
      {
        ghost var before, now := log, Due();
        ghost var fs;
        more, fs := SendHeld();
        ConcatAssoc(gone, fs, AllFragments(plain.chunks, maxFrag));
        SentMore(gone, fs, at, key, made, before, now, log);
        gone := gone + fs;
      }
      assert AllFragments(chunks, maxFrag) == gone;
      SentAll(gone, at, key, made, log, Due());
      HeldThenSealed(made, log, chunks, maxFrag, at, key);
    }

    /** Takes the oldest buffered chunk, if there is one, and sends it. */
    method SendHeld() returns (more: bool, ghost fs: seq<Bytes>)
      requires Fixed() && Ready() && plain.Valid() && plain.prefixUsed == 0
      modifies this`writeSeq, this`log, this`queued, this`sentFatalAlert, this`sentCloseNotify, this`refreshPending
      modifies sendable, plain
      ensures Ready() && plain.Valid() && plain.prefixUsed == 0
      ensures AllFragments(old(plain.chunks), maxFrag) == fs + AllFragments(plain.chunks, maxFrag)
      ensures Due() == Later(old(Due()), |fs|, Key())
      ensures Carries(old(log), log, old(Surviving(fs)))
      ensures more ==> |plain.chunks| < |old(plain.chunks)|
      ensures !more ==> plain.chunks == []
    {
      var buf := plain.Pop();
      if buf.None? {
        CarriesNothing(log);
        return false, [];
      }
      assert buf.value[..|buf.value|] == buf.value;
      fs := Fragments(buf.value, maxFrag);
      var len := SendAppData(buf.value, false);
      more := true;
    }

    /** Installs a new sending key; its sequence numbers start over. */
    method SetEncrypter(maxMessages: nat)
      requires Valid()
      modifies this`epoch, this`writeSeq, this`writeSeqMax, this`encrypting
      ensures Valid() && encrypting
      ensures epoch == old(epoch) + 1 && writeSeq == 0
      ensures writeSeqMax == if maxMessages < SEQ_SOFT_LIMIT then maxMessages else SEQ_SOFT_LIMIT
    {
      NoncesLater(log, (epoch, writeSeq), (epoch + 1, 0));
      epoch := epoch + 1;
      writeSeq := 0;
      writeSeqMax := if maxMessages < SEQ_SOFT_LIMIT then maxMessages else SEQ_SOFT_LIMIT;
      encrypting := true;
    }

    /**
     The peer sent a key update. If it asks for one in return and no notice is waiting yet, the notice is sealed
     under the old key, parked, and the key replaced; a second request before the notice leaves changes nothing.
     */
    method HandleKeyUpdate(requested: bool, maxMessages: nat) returns (updated: bool, panics: bool)
      requires Valid()
      modifies this`epoch, this`writeSeq, this`writeSeqMax, this`encrypting, this`log, this`queued
      ensures Valid()
      ensures panics <==> requested && old(queued).None? && ActionAt(old(writeSeq), old(writeSeqMax)).Refuse?
      ensures updated == (requested && old(queued).None? && !panics)
      ensures updated ==>
        var r := SealedRecord(Handshake, KEY_UPDATE_NOTIFY, old(epoch), old(writeSeq));
        log == old(log) + [r] && queued == Some(r.wire) && epoch == old(epoch) + 1 && writeSeq == 0
      ensures !updated ==> queued == old(queued) && epoch == old(epoch) && writeSeq == old(writeSeq) && log == old(log)
      ensures AppData(log) == old(AppData(log)) && sendable.Contents() == old(sendable.Contents())
    {
      panics := requested && queued.None? && ActionAt(writeSeq, writeSeqMax).Refuse?;
      updated := requested && queued.None? && !panics;
      if updated {
        ghost var r, pending := SealedRecord(Handshake, KEY_UPDATE_NOTIFY, epoch, writeSeq), Pending();
        LogPush(log, r);
        PushKeepsOrder(out, pending, log, r);
        var bytes := EncryptOutgoing(Handshake, KEY_UPDATE_NOTIFY);
        queued := Some(bytes);
        assert Pending() == pending + bytes;
        SetEncrypter(maxMessages);
      }
    }

    /**
     Our own key update, when sealing came near the limit: the request is sealed under the old key, unless that one is
     exhausted, and the key replaced. The wish is cleared first, so a request sealed at the limit itself renews it.
     Before TLS 1.3 there is no such update and the wish is dropped.
     */
    method MaybeRefreshKeys(maxMessages: nat)
      requires Valid()
      modifies this`writeSeq, this`log, this`queued, this`sentFatalAlert, this`sentCloseNotify, this`refreshPending
      modifies this`epoch, this`writeSeqMax, this`encrypting, sendable
      ensures Valid()
      ensures var (due, action) := (old(refreshPending) && tls13, ActionAt(old(writeSeq), old(writeSeqMax)));
        && refreshPending == (due && action.RefreshOrClose?)
        && epoch == old(epoch) + (if due then 1 else 0)
        && (due ==> writeSeq == 0)
        && log == if due && !action.Refuse?
                  then old(log) + [SealedRecord(Handshake, KEY_UPDATE_REQUEST, old(epoch), old(writeSeq))] else old(log)
      ensures AppData(log) == old(AppData(log))
    {
      var due := refreshPending;
      refreshPending := false;
      if due && tls13 {
        RequestUpdate();
        SetEncrypter(maxMessages);
      }
    }

    method RequestUpdate()
      requires Valid() && tls13 && !refreshPending
      modifies this`writeSeq, this`log, this`queued, this`sentFatalAlert, this`sentCloseNotify, this`refreshPending
      modifies sendable
      ensures Valid() && refreshPending == ActionAt(old(writeSeq), writeSeqMax).RefreshOrClose?
      ensures AppData(log) == old(AppData(log))
      ensures log == if ActionAt(old(writeSeq), writeSeqMax).Refuse? then old(log)
                     else old(log) + [SealedRecord(Handshake, KEY_UPDATE_REQUEST, epoch, old(writeSeq))]
    {
      ghost var sent := SendSingleFragment(Handshake, KEY_UPDATE_REQUEST);
    }

    /** The buffered route out: some prefix of the queue leaves. */
    method WriteTls(used: nat) returns (ok: bool, written: nat)
      requires Valid()
      modifies this`out, sendable
      ensures Valid()
      ensures ok == (old(sendable.Contents()) == [] || used <= old(sendable.Offered()))
      ensures written == (if used <= old(sendable.Offered()) then used else old(sendable.Offered()))
      ensures written <= |old(sendable.Contents())|
      ensures out == old(out) + old(sendable.Contents())[..written]
      ensures Pending() == old(Pending())[written..]
    {
      ghost var was := sendable.Contents();
      ok, written := sendable.WriteTo(used);
      QueueWritten(out, was, queued, written);
      out := out + was[..written];
    }

    // ----- the unbuffered route out -----

    /** The room needed for everything queued and the fragments to come. */
    method RequiredSize(fs: seq<Bytes>) returns (n: nat)
      requires sendable.Valid()
      ensures n == |sendable.Contents()| + SealedSize(sealedLen, epoch, fs)
    {
      n := sendable.Len();
      var i := 0;
      while i < |fs|
        invariant 0 <= i <= |fs|
        invariant n + SealedSize(sealedLen, epoch, fs[i..]) == |sendable.Contents()| + SealedSize(sealedLen, epoch, fs)
      {
        assert fs[i..][1..] == fs[i + 1..];
        n := n + HEADER_SIZE + sealedLen(epoch, |fs[i]|);
        i := i + 1;
      }
    }

    /** Drains the queue into the caller's buffer. */
    method WriteQueued(outgoing: array<Byte>) returns (written: nat)
      requires sendable.Valid() && |sendable.Contents()| <= outgoing.Length
      modifies this`out, sendable, outgoing
      ensures sendable.Valid() && sendable.Contents() == []
      ensures written == |old(sendable.Contents())|
      ensures outgoing[..] == Overwrite(old(outgoing[..]), 0, old(sendable.Contents()))
      ensures out == old(out) + old(sendable.Contents())
    {
      ghost var queue, left, was, done: Bytes := sendable.Contents(), out, outgoing[..], [];
      written := 0;
      var more := true;
      while more
        invariant sendable.Valid() && written == |done| && done + sendable.Contents() == queue
        invariant outgoing[..] == Overwrite(was, 0, done)
        invariant out == left + done
        invariant !more ==> sendable.Contents() == []
        decreases more, |sendable.chunks|
      {
        var message := sendable.Pop();
        if message.None? {
          more := false;
        } else {
          var m := message.value;
          Assoc(done, m, sendable.Contents());
          Assoc(left, done, m);
          OverwriteTwice(was, 0, done, m);
          CopyInto(outgoing, written, m);
          out := out + m;
          done := done + m;
          written := written + |m|;
        }
      }
      assert done + [] == done;
    }

    /** The records drained have left, in order. */
    method DrainQueue(outgoing: array<Byte>) returns (written: nat)
      requires Fixed() && Ready() && |sendable.Contents()| <= outgoing.Length
      modifies this`out, sendable, outgoing
      ensures Ready() && sendable.Contents() == []
      ensures written == |old(sendable.Contents())|
      ensures outgoing[..] == Overwrite(old(outgoing[..]), 0, old(sendable.Contents()))
      ensures out == old(out) + old(sendable.Contents())
    {
      ghost var was := sendable.Contents();
      QueueWritten(out, was, queued, |was|);
      assert was[..|was|] == was && was[|was|..] == [];
      written := WriteQueued(outgoing);
    }

    /** Seals fragments straight into the caller's buffer, behind everything that was queued. */
    method WriteSealed(outgoing: array<Byte>, at: nat, fs: seq<Bytes>) returns (written: nat, ghost sealed: Bytes)
      requires Fixed() && Ready() && sendable.Contents() == [] && queued.None?
      requires NoDrops(writeSeq, |fs|, writeSeqMax, tls13)
      requires at + SealedSize(sealedLen, epoch, fs) <= outgoing.Length
      modifies this`writeSeq, this`log, this`out, outgoing
      ensures Ready()
      ensures |sealed| == SealedSize(sealedLen, epoch, fs) && written == at + |sealed|
      ensures outgoing[..] == Overwrite(old(outgoing[..]), at, sealed)
      ensures out == old(out) + sealed
      ensures Carries(old(log), log, Flat(fs))
    {
      ghost var made, left, at0, was := log, out, writeSeq, outgoing[..];
      CarriesNothing(made);
      written, sealed := at, [];
      var i := 0;
      while i < |fs|
        invariant 0 <= i <= |fs| && Ready()
        invariant writeSeq == at0 + i
        invariant |sealed| + SealedSize(sealedLen, epoch, fs[i..]) == SealedSize(sealedLen, epoch, fs)
        invariant written == at + |sealed|
        invariant outgoing[..] == Overwrite(was, at, sealed)
        invariant out == left + sealed
        invariant Carries(made, log, Flat(fs[..i]))
      {
        FlatSnoc(fs, i);
        SealedSizeStep(sealedLen, epoch, fs, i);
        NoDropsAt(at0, |fs|, writeSeqMax, tls13, i);
        ghost var before := log;
        ghost var em;
        written, em := WriteOneSealed(outgoing, written, fs[i]);
        OverwriteTwice(was, at, sealed, em);
        Assoc(left, sealed, em);
        CarriesMore(made, before, log, Flat(fs[..i]), fs[i]);
        sealed := sealed + em;
        i := i + 1;
      }
      assert fs[..i] == fs;
    }

    method WriteOneSealed(outgoing: array<Byte>, at: nat, f: Bytes) returns (written: nat, ghost em: Bytes)
      requires Fixed() && Ready() && sendable.Contents() == [] && queued.None?
      requires !ActionAt(writeSeq, writeSeqMax).Refuse?
      requires at + HEADER_SIZE + sealedLen(epoch, |f|) <= outgoing.Length
      modifies this`writeSeq, this`log, this`out, outgoing
      ensures Ready()
      ensures |em| == HEADER_SIZE + sealedLen(epoch, |f|) && written == at + |em|
      ensures outgoing[..] == Overwrite(old(outgoing[..]), at, em)
      ensures out == old(out) + em
      ensures Carries(old(log), log, f)
      ensures writeSeq == old(writeSeq) + 1
    {
      LogPush(log, SealedRecord(ApplicationData, f, epoch, writeSeq));
      var bytes := EncryptOutgoing(ApplicationData, f);
      CopyInto(outgoing, at, bytes);
      written, em := at + |bytes|, bytes;
      assert out + [] == out && (out + em) + [] == out + em;
      out := out + em;
    }

    /** Looks ahead over the sequence numbers `n` data records would use. */
    method LookAhead(n: nat) returns (ok: bool)
      requires Fixed() && Ready()
      modifies this`writeSeq, this`log, this`queued, this`sentFatalAlert, this`sentCloseNotify, this`refreshPending
      modifies sendable
      ensures Ready() && AppData(log) == old(AppData(log))
      ensures old(log) <= log
      ensures ok <==> NoDrops(old(writeSeq), n, writeSeqMax, tls13)
      ensures refreshPending == (old(refreshPending) || (tls13 && old(writeSeq) <= writeSeqMax < old(writeSeq) + n))
      ensures ok ==>
        && log == old(log) && writeSeq == old(writeSeq) && queued == old(queued)
        && sendable.Contents() == old(sendable.Contents())
    {
      var f, used, closing := 0, false, false;
      while f < n && !used
        modifies this`refreshPending
        invariant 0 <= f <= n
        invariant used ==> f < n && DropsAt(writeSeq + f, writeSeqMax, tls13)
        invariant NoDrops(writeSeq, f, writeSeqMax, tls13)
        invariant refreshPending == (old(refreshPending) || (tls13 && writeSeq <= writeSeqMax < writeSeq + f))
        invariant closing ==> used && writeSeq + f == writeSeqMax
        decreases n - f, !used
      {
        var action := ActionAt(writeSeq + f, writeSeqMax);
        if action.RefreshOrClose? && tls13 {
          refreshPending := true;
          f := f + 1;
        } else if action.Nothing? {
          f := f + 1;
        } else {
          used, closing := true, action.RefreshOrClose?;
        }
      }
      if used && NoDrops(writeSeq, n, writeSeqMax, tls13) {
        NoDropsAt(writeSeq, n, writeSeqMax, tls13, f);
      }
      if closing {
        var panics := SendCloseNotify();
      }
      ok := !used;
    }

    /**
     The unbuffered send. Either nothing of the payload is taken (the key is used up, or the buffer is smaller
     than the exact size needed) or all of it is written behind whatever was queued, filling exactly that size.
     */
    method WritePlaintext(payload: Bytes, outgoing: array<Byte>) returns (r: EncryptResult)
      requires Valid() && maySend
      modifies this`writeSeq, this`log, this`queued, this`sentFatalAlert, this`sentCloseNotify, this`refreshPending
      modifies this`out, this`accepted, sendable, outgoing
      ensures Valid() && !r.Panicked?
      ensures old(log) <= log
      ensures refreshPending == (old(refreshPending) ||
        (tls13 && old(writeSeq) <= writeSeqMax < old(writeSeq) + |Fragments(payload, maxFrag)|))
      ensures payload == [] ==> r == Written(0) && log == old(log)
      ensures r.EncryptExhausted? <==>
        payload != [] && !NoDrops(old(writeSeq), |Fragments(payload, maxFrag)|, writeSeqMax, tls13)
      ensures r.Written? || outgoing[..] == old(outgoing[..])
      ensures r.Written? ==> accepted == old(accepted) + payload
      ensures !r.Written? ==> accepted == old(accepted) && AppData(log) == old(AppData(log)) && out == old(out)
      ensures r.InsufficientSize? ==>
        && r.required > outgoing.Length
        && r.required == |old(Pending())| + SealedSize(sealedLen, epoch, Fragments(payload, maxFrag))
      ensures r.Written? && payload != [] ==>
        && r.n == |old(Pending())| + SealedSize(sealedLen, epoch, Fragments(payload, maxFrag)) <= outgoing.Length
        && out == old(out) + outgoing[..r.n]
        && SameFrom(outgoing[..], old(outgoing[..]), r.n)
        && Pending() == []
    {
      if payload == [] {
        return Written(0);
      }
      var ok := LookAhead(|Fragments(payload, maxFrag)|);
      if !ok {
        return EncryptExhausted;
      }
      r := WriteWhole(payload, outgoing);
    }

    /** The send itself, once every fragment is known to be sealable. */
    method WriteWhole(payload: Bytes, outgoing: array<Byte>) returns (r: EncryptResult)
      requires Valid() && maySend && payload != []
      requires NoDrops(writeSeq, |Fragments(payload, maxFrag)|, writeSeqMax, tls13)
      modifies this`queued, this`writeSeq, this`log, this`out, this`accepted, sendable, outgoing
      ensures Valid() && (r.Written? || r.InsufficientSize?)
      ensures old(log) <= log
      ensures r.InsufficientSize? ==>
        && outgoing[..] == old(outgoing[..]) && accepted == old(accepted) && log == old(log) && out == old(out)
        && r.required == |old(Pending())| + SealedSize(sealedLen, epoch, Fragments(payload, maxFrag)) > outgoing.Length
      ensures r.Written? ==>
        && r.n == |old(Pending())| + SealedSize(sealedLen, epoch, Fragments(payload, maxFrag)) <= outgoing.Length
        && accepted == old(accepted) + payload
        && out == old(out) + outgoing[..r.n]
        && SameFrom(outgoing[..], old(outgoing[..]), r.n)
        && Pending() == []
    {
      var fs := Fragments(payload, maxFrag);
      FragmentsRejoin(payload, maxFrag);
      PerhapsWriteKeyUpdate();
      var required := RequiredSize(fs);
      if required > outgoing.Length {
        return InsufficientSize(required);
      }
      var n, bytes := WriteFragments(outgoing, fs);
      OverwriteFront(old(outgoing[..]), bytes);
      accepted := accepted + payload;
      return Written(n);
    }

    method WriteFragments(outgoing: array<Byte>, fs: seq<Bytes>) returns (written: nat, ghost bytes: Bytes)
      requires Fixed() && Ready() && (fs == [] || queued.None?)
      requires NoDrops(writeSeq, |fs|, writeSeqMax, tls13)
      requires |sendable.Contents()| + SealedSize(sealedLen, epoch, fs) <= outgoing.Length
      modifies this`writeSeq, this`log, this`out, sendable, outgoing
      ensures Ready() && sendable.Contents() == []
      ensures written == |bytes| == |old(sendable.Contents())| + SealedSize(sealedLen, epoch, fs)
      ensures outgoing[..] == Overwrite(old(outgoing[..]), 0, bytes)
      ensures out == old(out) + bytes
      ensures Carries(old(log), log, Flat(fs))
    {
      bytes := sendable.Contents();
      written := DrainQueue(outgoing);
      if fs == [] {
        CarriesNothing(log);
        return;
      }
      ghost var sealed;
      written, sealed := WriteSealed(outgoing, written, fs);
      OverwriteTwice(old(outgoing[..]), 0, bytes, sealed);
      Assoc(old(out), bytes, sealed);
      bytes := bytes + sealed;
    }

    /** Closes the sending side and drains the queue; a waiting key-update notice keeps its place for later. */
    method EagerSendCloseNotify(outgoing: array<Byte>) returns (r: EncryptResult)
      requires Valid()
      modifies this`writeSeq, this`log, this`queued, this`sentFatalAlert, this`sentCloseNotify, this`out
      modifies sendable, outgoing
      ensures Valid() && sentFatalAlert
      ensures old(log) <= log
      ensures AppData(log) == old(AppData(log))
      ensures r.Panicked? <==> !old(sentFatalAlert) && encrypting && ActionAt(old(writeSeq), writeSeqMax).Refuse?
      ensures r.Written? ==> r.n <= outgoing.Length && out == old(out) + outgoing[..r.n] && sendable.Contents() == []
      ensures r.InsufficientSize? ==> r.required == |sendable.Contents()| > outgoing.Length
      ensures !r.Written? ==> outgoing[..] == old(outgoing[..]) && out == old(out)
      ensures !r.EncryptExhausted?
    {
      var panics := SendCloseNotify();
      if panics {
        return Panicked;
      }
      r := WriteOutQueue(outgoing);
    }

    method WriteOutQueue(outgoing: array<Byte>) returns (r: EncryptResult)
      requires Fixed() && Ready()
      modifies this`writeSeq, this`log, this`out, sendable, outgoing
      ensures Ready() && AppData(log) == old(AppData(log)) && (r.Written? || r.InsufficientSize?)
      ensures old(log) <= log
      ensures r.Written? ==> r.n <= outgoing.Length && out == old(out) + outgoing[..r.n] && sendable.Contents() == []
      ensures r.InsufficientSize? ==>
        && outgoing[..] == old(outgoing[..]) && out == old(out) && sendable.Contents() == old(sendable.Contents())
        && r.required == |sendable.Contents()| > outgoing.Length
    {
      var required := RequiredSize([]);
      if required > outgoing.Length {
        return InsufficientSize(required);
      }
      var n, bytes := WriteFragments(outgoing, []);
      OverwriteFront(old(outgoing[..]), bytes);
      return Written(n);
    }
  }

  /** Two buffers agree from a position on. */
  ghost predicate SameFrom(a: Bytes, b: Bytes, from: nat) {
    |a| == |b| && forall i :: from <= i < |a| ==> a[i] == b[i]
  }

  /** A buffer with some bytes written over it. */
  function Overwrite(buffer: Bytes, at: nat, bytes: Bytes): Bytes
    requires at + |bytes| <= |buffer|
  {
    buffer[..at] + bytes + buffer[at + |bytes|..]
  }

  lemma OverwriteTwice(buffer: Bytes, at: nat, a: Bytes, b: Bytes)
    requires at + |a| + |b| <= |buffer|
    ensures Overwrite(Overwrite(buffer, at, a), at + |a|, b) == Overwrite(buffer, at, a + b)
  {
  }

  lemma OverwriteFront(buffer: Bytes, bytes: Bytes)
    requires |bytes| <= |buffer|
    ensures var after := Overwrite(buffer, 0, bytes); after[..|bytes|] == bytes && SameFrom(after, buffer, |bytes|)
  {
  }

  method CopyInto(dst: array<Byte>, at: nat, src: Bytes)
    requires at + |src| <= dst.Length
    modifies dst
    ensures dst[..] == Overwrite(old(dst[..]), at, src)
  {
    forall i | 0 <= i < |src| {
      dst[at + i] := src[i];
    }
  }
}
