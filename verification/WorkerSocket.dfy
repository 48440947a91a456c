/**
 The worker's WebSocket: events are fired into user handlers, and those handlers may call back into the
 socket, to any depth, before the operation that fired the event has finished.
 */
module WorkerSocket {
  import opened Prelude

  datatype Fired = OpenEvent | MessageEvent | ErrorEvent | CloseEvent(code: nat, wasClean: bool)

  datatype Posted = PostSend(bytes: nat) | PostClose | PostAbort

  const CONNECTING := 0
  const OPEN := 1
  const CLOSING := 2
  const CLOSED := 3

  /**
   What a user handler does: calls close(), possibly with an argument the validation rejects, or send(). Posting to
   the port may throw; the error and close events that follow run the handlers' own reactions.
   */
  datatype Action =
    | CallClose(valid: bool, postThrows: bool, onError: seq<Action>, onClose: seq<Action>)
    | CallSend(bytes: nat, blob: bool, postThrows: bool)

  function Weight(a: Action): (n: nat)
    ensures n >= 1
  {
    match a
    case CallClose(_, _, e, c) => 1 + Weights(e) + Weights(c)
    case CallSend(_, _, _) => 1
  }

  function Weights(acts: seq<Action>): nat {
    if acts == [] then 0 else Weight(acts[0]) + Weights(acts[1..])
  }

  lemma {:induction false} WeightOfMember(acts: seq<Action>, i: nat)
    requires i < |acts|
    ensures Weight(acts[i]) <= Weights(acts)
  {
    if i > 0 {
      WeightOfMember(acts[1..], i - 1);
    }
  }

  /** Nothing is fired after the close event, so there is at most one. */
  ghost predicate CloseIsLast(fired: seq<Fired>) {
    forall i :: 0 <= i < |fired| - 1 ==> !fired[i].CloseEvent?
  }

  ghost predicate HasClose(fired: seq<Fired>) {
    exists i :: 0 <= i < |fired| && fired[i].CloseEvent?
  }

  lemma HasClosePush(fired: seq<Fired>, e: Fired)
    ensures HasClose(fired + [e]) <==> HasClose(fired) || e.CloseEvent?
  {
    if HasClose(fired) {
      var i :| 0 <= i < |fired| && fired[i].CloseEvent?;
      assert (fired + [e])[i].CloseEvent?;
    }
    if e.CloseEvent? {
      assert (fired + [e])[|fired|].CloseEvent?;
    }
  }

  class Socket {
    var readyState: int
    var closed: bool
    var guardArmed: bool
    var port: bool
    var bufferedAmount: int
    /** The broker's promise settles once. */
    var replied: bool
    /** Sizes of the blobs sent whose bytes are still being read. */
    var reading: seq<nat>

    ghost var fired: seq<Fired>
    ghost var posted: seq<Posted>

    ghost predicate Valid()
      reads this
    {
      && CONNECTING <= readyState <= CLOSED
      && (closed <==> readyState == CLOSED)
      && (closed ==> !guardArmed && !port)
      && (port ==> readyState == OPEN || readyState == CLOSING)
      && (guardArmed ==> readyState == CLOSING) && (readyState == CLOSING ==> guardArmed)
      && (readyState == OPEN ==> port)
      && (!replied ==> !port)
      && bufferedAmount >= 0
      && (HasClose(fired) <==> closed) && CloseIsLast(fired)
    }

    constructor ()
      ensures Valid() && readyState == CONNECTING && fired == [] && !replied
    {
      readyState, closed, guardArmed, port, bufferedAmount, replied := CONNECTING, false, false, false, 0, false;
      reading := [];
      fired, posted := [], [];
    }

    /** Progress every operation makes: the state only moves forward and history only grows. */
    twostate predicate Forward()
      reads this
    {
      && old(readyState) <= readyState && old(fired) <= fired && old(posted) <= posted
      && (old(replied) ==> replied)
      && (old(closed) ==> closed && fired == old(fired) && posted == old(posted))
    }

    method Fire(e: Fired, acts: seq<Action>)
      requires Valid() && !closed && !e.CloseEvent?
      modifies this
      ensures Valid() && Forward() && replied == old(replied)
      ensures |fired| > |old(fired)| && fired[|old(fired)|] == e
      decreases Weights(acts), 5
    {
      HasClosePush(fired, e);
      fired := fired + [e];
      RunActions(acts);
    }

    method RunActions(acts: seq<Action>)
      requires Valid()
      modifies this
      ensures Valid() && Forward() && replied == old(replied)
      decreases Weights(acts), 4
    {
      var i := 0;
      while i < |acts|
        invariant 0 <= i <= |acts|
        invariant Valid() && Forward() && replied == old(replied)
      {
        WeightOfMember(acts, i);
        match acts[i] {
          case CallClose(valid, postThrows, onError, onClose) => CloseSocket(valid, postThrows, onError, onClose);
          case CallSend(bytes, blob, postThrows) => var throws := SendData(bytes, blob, postThrows);
        }
        i := i + 1;
      }
    }

    /** `close()`: at most one closing handshake, guarded by a timer armed before anything is posted. */
    method CloseSocket(valid: bool, postThrows: bool, onError: seq<Action>, onClose: seq<Action>)
      requires Valid()
      modifies this
      ensures Valid() && Forward() && replied == old(replied)
      ensures !valid ==> readyState == old(readyState) && fired == old(fired)
      ensures valid ==> readyState >= CLOSING
      ensures valid && old(readyState) < CLOSING ==>
        if old(port) && postThrows then closed
        else readyState == CLOSING && fired == old(fired)
             && posted == old(posted) + (if old(port) then [PostClose] else [])
      decreases 1 + Weights(onError) + Weights(onClose), 3
    {
      if !valid {
        return;
      }
      if closed || readyState == CLOSING || readyState == CLOSED {
        return;
      }
      readyState := CLOSING;
      guardArmed := true;
      if !port {
        return;
      }
      if postThrows {
        Fail(onError, onClose);
      } else {
        posted := posted + [PostClose];
      }
    }

    /**
     `send()`: throws while connecting, does nothing once closing; while open it counts the bytes and posts them,
     a blob's only when they are read. An exception of the port reaches the caller with the bytes already counted.
     */
    method SendData(bytes: nat, blob: bool, postThrows: bool) returns (throws: bool)
      requires Valid()
      modifies this`bufferedAmount, this`posted, this`reading
      ensures Valid() && Forward()
      ensures throws <==> readyState == CONNECTING || (readyState == OPEN && !blob && postThrows)
      ensures bufferedAmount == old(bufferedAmount) + (if readyState == OPEN then bytes else 0)
      ensures posted == old(posted) + (if readyState == OPEN && !blob && !postThrows then [PostSend(bytes)] else [])
      ensures reading == old(reading) + (if readyState == OPEN && blob then [bytes] else [])
      decreases 1, 0
    {
      if readyState == CONNECTING {
        return true;
      }
      if readyState != OPEN || closed || !port {
        return false;
      }
      bufferedAmount := bufferedAmount + bytes;
      if blob {
        reading := reading + [bytes];
      } else if postThrows {
        return true;
      } else {
        posted := posted + [PostSend(bytes)];
      }
      return false;
    }

    /** The bytes of a blob are there, or could not be read: posted while still open, taken back otherwise. */
    method OnBlobRead(i: nat, ok: bool, postThrows: bool, onError: seq<Action>, onClose: seq<Action>)
      requires Valid() && i < |reading|
      modifies this
      ensures Valid() && Forward()
      ensures !ok || (old(readyState) == OPEN && postThrows) ==> closed
      ensures ok && old(readyState) == OPEN && !postThrows ==>
        posted == old(posted) + [PostSend(old(reading)[i])]
        && bufferedAmount == old(bufferedAmount) && fired == old(fired)
      ensures ok && old(readyState) != OPEN ==>
        && posted == old(posted) && fired == old(fired)
        && bufferedAmount == if old(bufferedAmount) > old(reading)[i] then old(bufferedAmount) - old(reading)[i] else 0
    {
      var bytes := reading[i];
      reading := reading[..i] + reading[i + 1..];
      if !ok {
        Fail(onError, onClose);
      } else if readyState == OPEN && port {
        if postThrows {
          Fail(onError, onClose);
        } else {
          posted := posted + [PostSend(bytes)];
        }
      } else {
        bufferedAmount := if bufferedAmount > bytes then bufferedAmount - bytes else 0;
      }
    }

    /** Ends the socket: the only place the close event comes from. */
    method Finish(code: nat, wasClean: bool, acts: seq<Action>)
      requires Valid()
      modifies this
      ensures Valid() && Forward() && closed && replied == old(replied)
      ensures !old(closed) ==> fired == old(fired) + [CloseEvent(code, wasClean)]
      decreases Weights(acts), 5
    {
      if closed {
        return;
      }
      closed := true;
      readyState := CLOSED;
      guardArmed := false;
      port := false;
      HasClosePush(fired, CloseEvent(code, wasClean));
      fired := fired + [CloseEvent(code, wasClean)];
      RunActions(acts);
    }

    /** A failure: an error event, and then, unless a handler already brought it about, the close. */
    method Fail(onError: seq<Action>, onClose: seq<Action>)
      requires Valid()
      modifies this
      ensures Valid() && Forward() && closed && replied == old(replied)
      ensures !old(closed) ==> |fired| >= |old(fired)| + 2 && fired[|old(fired)|] == ErrorEvent
      decreases Weights(onError) + Weights(onClose), 6
    {
      if closed {
        return;
      }
      if port {
        posted := posted + [PostAbort];
      }
      Fire(ErrorEvent, onError);
      ghost var n := |fired|;
      Finish(1006, false, onClose);
      assert n == |old(fired)| + 1 ==> HasClose(fired);
    }

    /**
     The broker answered: unless the page closed meanwhile, the port is adopted and the socket opens. A late port
     is told to abort and closed; if that throws, the socket fails.
     */
    method OnReply(hasPort: bool, negotiated: bool, discardThrows: bool,
                   onOpen: seq<Action>, onError: seq<Action>, onClose: seq<Action>)
      requires Valid() && !replied
      modifies this
      ensures Valid() && replied && old(readyState) <= readyState && old(fired) <= fired
      ensures old(readyState) == CONNECTING && negotiated && hasPort ==>
        |fired| > |old(fired)| && fired[|old(fired)|] == OpenEvent
      ensures old(readyState) == CONNECTING && !(negotiated && hasPort) ==> closed
      ensures old(readyState) != CONNECTING ==> !port
      ensures old(readyState) != CONNECTING && hasPort && discardThrows ==> closed
      ensures old(readyState) != CONNECTING && !(hasPort && discardThrows) ==>
        readyState == old(readyState) && fired == old(fired)
    {
      replied := true;
      if closed || readyState == CLOSING {
        if hasPort && discardThrows {
          Fail(onError, onClose);
        }
        return;
      }
      if !negotiated || !hasPort {
        Fail(onError, onClose);
        return;
      }
      port := true;
      readyState := OPEN;
      Fire(OpenEvent, onOpen);
    }

    method OnRejected(onError: seq<Action>, onClose: seq<Action>)
      requires Valid() && !replied
      modifies this
      ensures Valid() && closed && replied && old(readyState) <= readyState && old(fired) <= fired
    {
      replied := true;
      Fail(onError, onClose);
    }

    /** A data message, decoded at once or later from a blob. */
    method OnData(acts: seq<Action>)
      requires Valid()
      modifies this
      ensures Valid() && Forward()
      ensures if old(closed) then fired == old(fired) else |fired| > |old(fired)| && fired[|old(fired)|] == MessageEvent
    {
      if closed {
        return;
      }
      Fire(MessageEvent, acts);
    }

    method OnError(onError: seq<Action>, onClose: seq<Action>)
      requires Valid()
      modifies this
      ensures Valid() && Forward() && closed
    {
      Fail(onError, onClose);
    }

    method OnPeerClose(code: nat, onClose: seq<Action>)
      requires Valid()
      modifies this
      ensures Valid() && Forward() && closed
      ensures !old(closed) ==> fired == old(fired) + [CloseEvent(code, code != 1006)]
    {
      Finish(code, code != 1006, onClose);
    }

    method OnDrained(bytes: nat)
      requires Valid()
      modifies this
      ensures Valid() && Forward() && readyState == old(readyState) && fired == old(fired)
      ensures !closed ==> bufferedAmount == if old(bufferedAmount) > bytes then old(bufferedAmount) - bytes else 0
    {
      if closed {
        return;
      }
      bufferedAmount := if bufferedAmount > bytes then bufferedAmount - bytes else 0;
    }

    /** The guard timer of a closing handshake fires: with no port the socket fails, with one it gives up waiting. */
    method OnGuard(onError: seq<Action>, onClose: seq<Action>)
      requires Valid() && guardArmed
      modifies this
      ensures Valid() && Forward() && closed
    {
      if !port {
        Fail(onError, onClose);
      } else {
        posted := posted + [PostAbort];
        Finish(1006, false, onClose);
      }
    }
  }
}
