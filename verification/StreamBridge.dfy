/**
 The Service Worker's end of a WebSocket: a message port to the page and a kernel stream, joined by handlers
 that the kernel may call at any time, including from inside the calls made to it.
 */
module StreamBridge {
  import opened Octets
  import opened Prelude

  /** What the bridge posts on its port. */
  datatype Msg = MessageMsg(data: Bytes) | ErrorMsg | CloseMsg(code: nat, reason: string)

  datatype Callback = OnMessage(data: Bytes) | OnClose(code: nat, reason: string) | OnError

  /** One call into the kernel: the callbacks it makes before it returns, and whether it throws. */
  datatype KernelCall = KernelCall(callbacks: seq<Callback>, throws: bool)

  datatype PortRequest = Send | Close | Abort | Other

  datatype Answer = Accepted | Failed

  /** At most one close, and nothing but error notices posted after it. */
  ghost predicate QuietAfterClose(posts: seq<Msg>) {
    forall i, j :: 0 <= i < j < |posts| && posts[i].CloseMsg? ==> posts[j].ErrorMsg?
  }

  /** What still reaches the page: a close, once delivered, is the last message. */
  ghost predicate CloseIsLast(delivered: seq<Msg>) {
    forall i :: 0 <= i < |delivered| - 1 ==> !delivered[i].CloseMsg?
  }

  ghost predicate Closed(posts: seq<Msg>) {
    exists i :: 0 <= i < |posts| && posts[i].CloseMsg?
  }

  // ----- what the page gets to see of a kernel call -----

  function MsgFor(cb: Callback): Msg {
    match cb
    case OnMessage(d) => MessageMsg(d)
    case OnClose(code, reason) => CloseMsg(code, reason)
    case OnError => ErrorMsg
  }

  /** One message per callback, up to and including the first close. */
  function UpToClose(cbs: seq<Callback>): seq<Msg> {
    if cbs == [] then []
    else [MsgFor(cbs[0])] + (if cbs[0].OnClose? then [] else UpToClose(cbs[1..]))
  }

  predicate Closes(cbs: seq<Callback>) {
    exists i :: 0 <= i < |cbs| && cbs[i].OnClose?
  }

  /** An abort always ends in a close: the kernel's own, or an abnormal one after a notice of any exception. */
  function AbortMsgs(k: KernelCall): seq<Msg> {
    if Closes(k.callbacks) then UpToClose(k.callbacks)
    else UpToClose(k.callbacks) + (if k.throws then [ErrorMsg] else []) + [CloseMsg(1006, "")]
  }

  /** An exception during a request is reported and turned into an abort. */
  function RequestMsgs(k: KernelCall, onAbort: KernelCall): seq<Msg> {
    if Closes(k.callbacks) || !k.throws then UpToClose(k.callbacks)
    else UpToClose(k.callbacks) + [ErrorMsg] + AbortMsgs(onAbort)
  }

  lemma ClosesTail(cbs: seq<Callback>)
    requires cbs != []
    ensures Closes(cbs[1..]) ==> Closes(cbs)
  {
    if Closes(cbs[1..]) {
      var j :| 0 <= j < |cbs[1..]| && cbs[1..][j].OnClose?;
      assert cbs[j + 1].OnClose?;
    }
  }

  lemma {:induction false} UpToCloseStep(cbs: seq<Callback>, i: nat)
    requires i < |cbs| && !Closes(cbs[..i])
    ensures UpToClose(cbs[..i + 1]) == UpToClose(cbs[..i]) + [MsgFor(cbs[i])]
    ensures Closes(cbs[..i + 1]) <==> cbs[i].OnClose?
    ensures cbs[i].OnClose? ==> UpToClose(cbs) == UpToClose(cbs[..i + 1]) && Closes(cbs)
  {
    assert forall j :: 0 <= j < i ==> cbs[..i][j] == cbs[j];
    assert cbs[..i + 1][i] == cbs[i];
    if i == 0 {
      assert cbs[..1][1..] == [];
    } else {
      assert !cbs[..i][0].OnClose?;
      var t := cbs[1..];
      assert cbs[..i][1..] == t[..i - 1] && cbs[..i + 1][1..] == t[..i];
      ClosesTail(cbs[..i]);
      UpToCloseStep(t, i - 1);
    }
    if cbs[i].OnClose? {
      assert Closes(cbs);
    }
  }

  class Bridge {
    var channel: bool
    var portOpen: bool
    var listening: bool
    var handlersSet: bool
    /** The stream's entry in the table of live streams. */
    var registered: bool
    var done: bool
    var deadlineArmed: bool

    ghost var posts: seq<Msg>
    ghost var delivered: seq<Msg>
    ghost var answers: seq<Answer>

    ghost predicate Valid()
      reads this
    {
      && (portOpen <==> channel && !done) && (registered <==> channel && !done) && (listening <==> channel && !done)
      && (deadlineArmed ==> channel && !done)
      && (!channel ==> posts == [] && delivered == [])
      && (Closed(posts) <==> done && channel)
      && (Closed(delivered) <==> done && channel)
      && QuietAfterClose(posts) && CloseIsLast(delivered)
    }

    constructor ()
      ensures Valid() && !done && !registered && !channel && answers == [] && posts == []
    {
      channel, portOpen, listening, handlersSet, registered, done, deadlineArmed :=
        false, false, false, false, false, false, false;
      posts, delivered, answers := [], [], [];
    }

    method Post(m: Msg)
      requires Valid() && !m.CloseMsg? && (m.MessageMsg? ==> !done)
      modifies this`posts, this`delivered
      ensures Valid() && old(posts) <= posts && old(delivered) <= delivered
      ensures delivered == old(delivered) + (if channel && !done then [m] else [])
      ensures posts == old(posts) + (if channel then [m] else [])
    {
      if channel {
        ClosedPush(posts, m);
        ClosedPush(delivered, m);
        posts := posts + [m];
        if portOpen {
          delivered := delivered + [m];
        }
      }
    }

    /** The one place a stream ends: clears the deadline, leaves the table, posts the close, shuts the port. */
    method Finish(code: nat, reason: string)
      requires Valid()
      modifies this
      ensures Valid() && done
      ensures old(posts) <= posts && old(delivered) <= delivered && answers == old(answers) && channel == old(channel)
      ensures old(done) ==> posts == old(posts) && delivered == old(delivered)
      ensures !old(done) && channel ==> delivered == old(delivered) + [CloseMsg(code, reason)]
    {
      if done {
        return;
      }
      done := true;
      deadlineArmed := false;
      registered := false;
      if channel {
        ClosedPush(posts, CloseMsg(code, reason));
        ClosedPush(delivered, CloseMsg(code, reason));
        posts := posts + [CloseMsg(code, reason)];
        delivered := delivered + [CloseMsg(code, reason)];
        listening := false;
        portOpen := false;
      }
      handlersSet := false;
    }

    /**
     A handler call from the kernel; a finished stream ignores everything, whether or not its handlers are still set.
     */
    method Deliver(cb: Callback)
      requires Valid()
      modifies this
      ensures Valid() && (old(done) ==> done) && answers == old(answers) && channel == old(channel)
      ensures old(posts) <= posts && old(delivered) <= delivered
      ensures old(done) ==> posts == old(posts) && delivered == old(delivered)
      ensures !done ==> deadlineArmed == old(deadlineArmed) && handlersSet == old(handlersSet)
      ensures old(handlersSet) && channel && !old(done) ==>
        delivered == old(delivered) + [MsgFor(cb)] && (done <==> cb.OnClose?)
      ensures !old(handlersSet) ==> delivered == old(delivered) && done == old(done)
    {
      if !handlersSet {
        return;
      }
      match cb
      case OnMessage(d) => if !done { Post(MessageMsg(d)); }
      case OnClose(code, reason) => Finish(code, reason);
      case OnError => if !done { Post(ErrorMsg); }
    }

    method Call(k: KernelCall)
      requires Valid()
      modifies this
      ensures Valid() && (old(done) ==> done) && answers == old(answers) && channel == old(channel)
      ensures old(posts) <= posts && old(delivered) <= delivered
      ensures old(done) ==> posts == old(posts) && delivered == old(delivered)
      ensures !done ==> deadlineArmed == old(deadlineArmed) && handlersSet == old(handlersSet)
      ensures old(handlersSet) && channel && !old(done) ==>
        delivered == old(delivered) + UpToClose(k.callbacks) && (done <==> Closes(k.callbacks))
      ensures !old(handlersSet) && !old(done) ==> !done && delivered == old(delivered)
    {
      var i := 0;
      while i < |k.callbacks|
        invariant 0 <= i <= |k.callbacks|
        invariant Valid() && (old(done) ==> done) && answers == old(answers) && channel == old(channel)
        invariant old(posts) <= posts && old(delivered) <= delivered
        invariant old(done) ==> posts == old(posts) && delivered == old(delivered)
        invariant !done ==> deadlineArmed == old(deadlineArmed) && handlersSet == old(handlersSet)
        invariant old(handlersSet) && channel && !old(done) ==>
          && (done <==> Closes(k.callbacks[..i]))
          && (!done ==> delivered == old(delivered) + UpToClose(k.callbacks[..i]))
          && (done ==> Closes(k.callbacks) && delivered == old(delivered) + UpToClose(k.callbacks))
        invariant !old(handlersSet) && !old(done) ==> !done && delivered == old(delivered)
      {
        if !done {
          if old(handlersSet) && channel {
            UpToCloseStep(k.callbacks, i);
          }
        } else {
          ClosesGrows(k.callbacks, i);
        }
        Deliver(k.callbacks[i]);
        i := i + 1;
      }
      assert k.callbacks[..i] == k.callbacks;
    }

    /** Gives the stream up; whatever the kernel does meanwhile, the stream is finished afterwards. */
    method AbortStream(k: KernelCall)
      requires Valid()
      modifies this
      ensures Valid() && done && answers == old(answers) && channel == old(channel)
      ensures old(posts) <= posts && old(delivered) <= delivered
      ensures old(done) ==> posts == old(posts) && delivered == old(delivered)
      ensures old(handlersSet) && channel && !old(done) ==> delivered == old(delivered) + AbortMsgs(k)
    {
      if done {
        return;
      }
      Call(k);
      if k.throws {
        Post(ErrorMsg);
      }
      Finish(1006, "");
    }

    /**
     Joins a new kernel stream to a new port and answers the page exactly once. A refused sub-protocol or any
     failure on the way aborts the stream: nothing stays registered or armed. The kernel may already end the
     stream while its handlers are installed.
     */
    method Open(negotiated: bool, channelThrows: bool, install: KernelCall, answerThrows: bool, onAbort: KernelCall)
      requires Valid() && !done && !channel && answers == []
      modifies this
      ensures Valid()
      ensures answers == [Accepted] || answers == [Failed]
      ensures answers == [Accepted] <==> negotiated && !channelThrows && !install.throws && !answerThrows
      ensures answers == [Failed] ==> done && !registered && !deadlineArmed
      ensures answers == [Accepted] ==> channel && (registered <==> !done)
    {
      var failed := !negotiated || channelThrows;
      if !failed {
        channel, portOpen, registered, listening := true, true, true, true;
        handlersSet := true;
        Call(install);
        failed := install.throws || answerThrows;
      }
      if failed {
        AbortStream(onAbort);
        answers := answers + [Failed];
        assert answers[0] != Accepted;
      } else {
        answers := answers + [Accepted];
      }
    }

    /** Passes a request on to the kernel. */
    method Forward(k: KernelCall, onAbort: KernelCall)
      requires Valid() && !done
      modifies this
      ensures Valid() && answers == old(answers) && channel == old(channel)
      ensures old(posts) <= posts && old(delivered) <= delivered
      ensures !done ==> deadlineArmed == old(deadlineArmed)
      ensures k.throws ==> done
      ensures old(handlersSet) && channel ==> delivered == old(delivered) + RequestMsgs(k, onAbort)
    {
      Call(k);
      if k.throws {
        Post(ErrorMsg);
        AbortStream(onAbort);
      }
    }

    /** A request from the page; an exception from the kernel turns into an error notice and an abort. */
    method OnPortMessage(m: PortRequest, k: KernelCall, onAbort: KernelCall)
      requires Valid()
      modifies this
      ensures Valid() && (old(done) ==> done) && answers == old(answers) && channel == old(channel)
      ensures old(posts) <= posts && old(delivered) <= delivered
      ensures old(done) ==> posts == old(posts) && delivered == old(delivered)
      ensures listening && m.Close? ==> deadlineArmed
      ensures old(listening) && m.Abort? ==> done
      ensures old(listening) && !(m.Close? && old(deadlineArmed)) && !m.Other? && k.throws ==> done
      ensures old(listening) && old(handlersSet) ==>
        delivered == old(delivered) +
          (if m.Send? || (m.Close? && !old(deadlineArmed)) then RequestMsgs(k, onAbort)
           else if m.Abort? then AbortMsgs(k) else [])
    {
      if !listening || done {
        return;
      }
      match m
      case Send =>
        Forward(k, onAbort);
      case Close =>
        if !deadlineArmed {
          deadlineArmed := true;
          Forward(k, onAbort);
        }
      case Abort => AbortStream(k);
      case Other =>
    }

    /** The close handshake took too long. */
    method OnDeadline(k: KernelCall)
      requires Valid() && deadlineArmed
      modifies this
      ensures Valid() && done && answers == old(answers)
      ensures old(posts) <= posts && old(delivered) <= delivered
      ensures old(handlersSet) ==> delivered == old(delivered) + AbortMsgs(k)
    {
      AbortStream(k);
    }
  }

  lemma ClosesGrows(cbs: seq<Callback>, i: nat)
    requires i < |cbs|
    ensures Closes(cbs[..i]) ==> Closes(cbs[..i + 1])
  {
    if Closes(cbs[..i]) {
      var j :| 0 <= j < i && cbs[..i][j].OnClose?;
      assert cbs[..i + 1][j].OnClose?;
    }
  }

  lemma ClosedPush(posts: seq<Msg>, m: Msg)
    ensures Closed(posts + [m]) <==> Closed(posts) || m.CloseMsg?
  {
    if Closed(posts) {
      var i :| 0 <= i < |posts| && posts[i].CloseMsg?;
      assert (posts + [m])[i].CloseMsg?;
    }
    if m.CloseMsg? {
      assert (posts + [m])[|posts|].CloseMsg?;
    }
  }
}
