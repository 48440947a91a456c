/**
 The incremental event-stream parser: decoded text arrives in arbitrary chunks, complete lines are
 interpreted, and events are dispatched as blank lines close them.
 */
module EventStream {
  import opened Prelude

  datatype Event = Event(typ: string, data: string, lastId: string)

  /** Text not yet ended by a line feed, and the fields of the event being collected. */
  datatype Parser = Parser(buf: string, data: string, name: string, lastId: string)

  const INITIAL := Parser("", "", "", "")

  datatype Outcome = Outcome(parser: Parser, events: seq<Event>)

  /** Without one trailing `c`. */
  function ChopEnd(s: string, c: char): string {
    if s != "" && s[|s| - 1] == c then s[..|s| - 1] else s
  }

  function FieldName(line: string): string {
    line[..IndexOf(line, ':')]
  }

  function FieldValue(line: string): string {
    var c := IndexOf(line, ':');
    if c == |line| then ""
    else if c + 1 < |line| && line[c + 1] == ' ' then line[c + 2..]
    else line[c + 1..]
  }

  /** One line, already without its line end. */
  function Interpret(p: Parser, line: string): Outcome {
    if line == "" then
      Outcome(p.(data := "", name := ""),
              if p.data == "" then []
              else [Event(if p.name == "" then "message" else p.name, ChopEnd(p.data, '\n'), p.lastId)])
    else if line[0] == ':' then Outcome(p, [])
    else
      var field, v := FieldName(line), FieldValue(line);
      Outcome(
        if field == "data" then p.(data := p.data + v + "\n")
        else if field == "event" then p.(name := v)
        else if field == "id" then p.(lastId := v)
        else p,
        [])
  }

  /** Interprets every complete line in the buffer. */
  function Drain(p: Parser): Outcome
    decreases |p.buf|
  {
    var i := IndexOf(p.buf, '\n');
    if i == |p.buf| then Outcome(p, [])
    else
      var one := Interpret(p, ChopEnd(p.buf[..i], '\r'));
      var rest := Drain(one.parser.(buf := p.buf[i + 1..]));
      Outcome(rest.parser, one.events + rest.events)
  }

  function Feed(p: Parser, chunk: string): Outcome {
    Drain(p.(buf := p.buf + chunk))
  }

  function FeedAll(p: Parser, chunks: seq<string>): Outcome {
    if chunks == [] then Outcome(p, [])
    else
      var init := FeedAll(p, chunks[..|chunks| - 1]);
      var last := Feed(init.parser, chunks[|chunks| - 1]);
      Outcome(last.parser, init.events + last.events)
  }

  function Joined(chunks: seq<string>): string {
    if chunks == [] then "" else chunks[0] + Joined(chunks[1..])
  }

  class Source {
    var buf: string
    var data: string
    var eventName: string
    var lastId: string
    /** Everything dispatched so far. */
    ghost var dispatched: seq<Event>

    ghost function State(): Parser
      reads this
    {
      Parser(buf, data, eventName, lastId)
    }

    constructor ()
      ensures State() == INITIAL && dispatched == []
    {
      buf, data, eventName, lastId := "", "", "", "";
      dispatched := [];
    }

    /** Handles one line, already without its line end. */
    method HandleLine(line: string) returns (events: seq<Event>)
      modifies this`data, this`eventName, this`lastId
      ensures State() == Interpret(old(State()), line).parser
      ensures events == Interpret(old(State()), line).events
    {
      events := [];
      if line == "" {
        if data != "" {
          var typ := if eventName == "" then "message" else eventName;
          events := [Event(typ, ChopEnd(data, '\n'), lastId)];
        }
        data := "";
        eventName := "";
      } else if line[0] != ':' {
        var field, v := FieldName(line), FieldValue(line);
        if field == "data" {
          data := data + v + "\n";
        } else if field == "event" {
          eventName := v;
        } else if field == "id" {
          lastId := v;
        }
      }
    }

    /** Takes the first line off the buffer and handles it. */
    method TakeLine(idx: nat) returns (events: seq<Event>)
      requires idx == IndexOf(buf, '\n') < |buf|
      modifies this`buf, this`data, this`eventName, this`lastId
      ensures var one := Interpret(old(State()), ChopEnd(old(buf)[..idx], '\r'));
        State() == one.parser.(buf := old(buf)[idx + 1..]) && events == one.events
    {
      var line := ChopEnd(buf[..idx], '\r');
      events := HandleLine(line);
      buf := buf[idx + 1..];
    }

    /** Handles one decoded chunk. */
    method Receive(chunk: string) returns (events: seq<Event>)
      modifies this
      ensures State() == Feed(old(State()), chunk).parser
      ensures events == Feed(old(State()), chunk).events
      ensures dispatched == old(dispatched) + events
    {
      ghost var goal := Feed(State(), chunk);
      buf := buf + chunk;
      events := [];
      var idx := IndexOf(buf, '\n');
      while idx < |buf|
        invariant idx == IndexOf(buf, '\n') && dispatched == old(dispatched)
        invariant Drain(State()).parser == goal.parser
        invariant events + Drain(State()).events == goal.events
        decreases |buf|
      {
        ghost var before := State();
        DrainOne(before, idx);
        var fired := TakeLine(idx);
        Assoc(events, fired, Drain(State()).events);
        events := events + fired;
        idx := IndexOf(buf, '\n');
      }
      dispatched := dispatched + events;
    }
  }

  // ----- chunking does not matter -----

  lemma IndexOfConcat(a: string, b: string, c: char)
    ensures IndexOf(a, c) < |a| ==> IndexOf(a + b, c) == IndexOf(a, c)
    ensures IndexOf(a, c) == |a| ==> IndexOf(a + b, c) == |a| + IndexOf(b, c)
  {
    var s := a + b;
    assert forall j :: 0 <= j < |a| ==> s[j] == a[j];
    assert forall j :: 0 <= j < |b| ==> s[|a| + j] == b[j];
    var i, k := IndexOf(a, c), IndexOf(b, c);
    if i < |a| {
      assert s[i] == c;
    } else if k < |b| {
      assert s[|a| + k] == c;
    }
  }

  /** Interpreting does not look at the buffer. */
  lemma InterpretBuf(p: Parser, line: string, b: string)
    ensures Interpret(p.(buf := b), line) == Outcome(Interpret(p, line).parser.(buf := b), Interpret(p, line).events)
  {
  }

  /** The first line of the buffer, then the rest. */
  lemma DrainOne(p: Parser, i: nat)
    requires i == IndexOf(p.buf, '\n') < |p.buf|
    ensures var one := Interpret(p, ChopEnd(p.buf[..i], '\r'));
      var rest := Drain(one.parser.(buf := p.buf[i + 1..]));
      Drain(p) == Outcome(rest.parser, one.events + rest.events)
  {
  }

  lemma Assoc(a: seq<Event>, b: seq<Event>, c: seq<Event>)
    ensures a + (b + c) == (a + b) + c
  {
  }

  /** Draining what is there, and what comes later on top of what is left. */
  function DrainTwice(p: Parser, more: string): Outcome {
    var first := Drain(p);
    var second := Drain(first.parser.(buf := first.parser.buf + more));
    Outcome(second.parser, first.events + second.events)
  }

  /** The first line comes out before either drain goes on. */
  lemma DrainTwiceOne(p: Parser, more: string, i: nat)
    requires i == IndexOf(p.buf, '\n') < |p.buf|
    ensures var one := Interpret(p, ChopEnd(p.buf[..i], '\r'));
      var rest := DrainTwice(one.parser.(buf := p.buf[i + 1..]), more);
      DrainTwice(p, more) == Outcome(rest.parser, one.events + rest.events)
  {
    DrainOne(p, i);
    var one := Interpret(p, ChopEnd(p.buf[..i], '\r'));
    var first := Drain(one.parser.(buf := p.buf[i + 1..]));
    Assoc(one.events, first.events, Drain(first.parser.(buf := first.parser.buf + more)).events);
  }

  /** Draining what is there first, and the rest when it comes, is draining it all at once. */
  lemma {:induction false} DrainLater(p: Parser, more: string)
    ensures Drain(p.(buf := p.buf + more)) == DrainTwice(p, more)
    decreases |p.buf|
  {
    var i := IndexOf(p.buf, '\n');
    IndexOfConcat(p.buf, more, '\n');
    if i < |p.buf| {
      var q, line := p.(buf := p.buf + more), ChopEnd(p.buf[..i], '\r');
      assert q.buf[..i] == p.buf[..i] && q.buf[i + 1..] == p.buf[i + 1..] + more;
      DrainOne(q, i);
      InterpretBuf(p, line, q.buf);
      DrainTwiceOne(p, more, i);
      DrainLater(Interpret(p, line).parser.(buf := p.buf[i + 1..]), more);
    }
  }

  lemma FeedTwice(p: Parser, a: string, b: string)
    ensures var first := Feed(p, a); var second := Feed(first.parser, b);
      Feed(p, a + b) == Outcome(second.parser, first.events + second.events)
  {
    DrainLater(p.(buf := p.buf + a), b);
    assert p.buf + (a + b) == (p.buf + a) + b;
  }

  lemma {:induction false} JoinedSplit(chunks: seq<string>, n: nat)
    requires n <= |chunks|
    ensures Joined(chunks) == Joined(chunks[..n]) + Joined(chunks[n..])
  {
    if n == 0 {
      assert chunks[0..] == chunks;
    } else {
      JoinedSplit(chunks[1..], n - 1);
      assert chunks[..n][1..] == chunks[1..][..n - 1] && chunks[1..][n - 1..] == chunks[n..];
    }
  }

  lemma JoinedLast(chunks: seq<string>)
    requires chunks != []
    ensures Joined(chunks) == Joined(chunks[..|chunks| - 1]) + chunks[|chunks| - 1]
  {
    var n := |chunks| - 1;
    JoinedSplit(chunks, n);
    assert chunks[n..] == [chunks[n]] && [chunks[n]][1..] == [];
    assert Joined([chunks[n]]) == chunks[n] + "";
  }

  /** However the text is cut, the events dispatched and the state reached are those of the whole text at once. */
  lemma {:induction false} ChunkingIrrelevant(chunks: seq<string>)
    ensures FeedAll(INITIAL, chunks) == Feed(INITIAL, Joined(chunks))
  {
    if chunks != [] {
      var init, last := chunks[..|chunks| - 1], chunks[|chunks| - 1];
      ChunkingIrrelevant(init);
      JoinedLast(chunks);
      FeedTwice(INITIAL, Joined(init), last);
    }
  }

  // ----- unless a handler closes the source -----

  function EventsOf(p: Parser, text: string): seq<Event> {
    Feed(p, text).events
  }

  /** The events each chunk completes. */
  function PerChunk(p: Parser, chunks: seq<string>): (es: seq<seq<Event>>)
    ensures |es| == |chunks|
    decreases |chunks|
  {
    if chunks == [] then []
    else
      var one := Feed(p, chunks[0]);
      [one.events] + PerChunk(one.parser, chunks[1..])
  }

  /**
   A handler calls close() while it handles the k-th event. The reader notices only when the next chunk
   arrives, so the chunk at hand is still interpreted to its end.
   */
  function UntilClose(es: seq<seq<Event>>, k: nat): seq<Event>
    requires k >= 1
    decreases |es|
  {
    if es == [] then []
    else if |es[0]| >= k then es[0]
    else es[0] + UntilClose(es[1..], k - |es[0]|)
  }

  function DispatchedUntilClose(chunks: seq<string>, k: nat): seq<Event>
    requires k >= 1
  {
    UntilClose(PerChunk(INITIAL, chunks), k)
  }

  function AllOf(es: seq<seq<Event>>): seq<Event> {
    if es == [] then [] else es[0] + AllOf(es[1..])
  }

  lemma AllOfFirst(es: seq<seq<Event>>, n: nat)
    requires n < |es|
    ensures AllOf(es[..n + 1]) == es[0] + AllOf(es[1..][..n])
  {
    assert es[..n + 1][1..] == es[1..][..n];
  }

  lemma {:induction false} AllOfGrows(es: seq<seq<Event>>, i: nat, j: nat)
    requires i <= j <= |es|
    ensures AllOf(es[..i]) <= AllOf(es[..j])
  {
    if i > 0 {
      AllOfGrows(es[1..], i - 1, j - 1);
      AllOfFirst(es, i - 1);
      AllOfFirst(es, j - 1);
    }
  }

  /** What is dispatched ends with the first chunk by which k events are complete, or with the text. */
  lemma {:induction false} UntilCloseAt(es: seq<seq<Event>>, k: nat) returns (n: nat)
    requires k >= 1
    ensures n <= |es| && UntilClose(es, k) == AllOf(es[..n])
    ensures n == |es| || |AllOf(es[..n])| >= k
    ensures forall i :: 0 <= i < n ==> |AllOf(es[..i])| < k
    decreases |es|
  {
    if es == [] {
      n := 0;
    } else {
      var m := 0;
      if |es[0]| < k {
        m := UntilCloseAt(es[1..], k - |es[0]|);
      }
      n := m + 1;
      AllOfFirst(es, m);
      forall i | 0 <= i < n ensures |AllOf(es[..i])| < k {
        if i > 0 {
          AllOfFirst(es, i - 1);
        }
      }
    }
  }

  lemma JoinedPrefix(chunks: seq<string>, n: nat)
    requires n < |chunks|
    ensures Joined(chunks[..n + 1]) == chunks[0] + Joined(chunks[1..][..n])
  {
    assert chunks[..n + 1][1..] == chunks[1..][..n];
  }

  lemma DrainLeavesNoLine(p: Parser)
    ensures IndexOf(Drain(p).parser.buf, '\n') == |Drain(p).parser.buf|
    decreases |p.buf|
  {
    var i := IndexOf(p.buf, '\n');
    if i < |p.buf| {
      DrainLeavesNoLine(Interpret(p, ChopEnd(p.buf[..i], '\r')).parser.(buf := p.buf[i + 1..]));
    }
  }

  lemma {:induction false} PerChunkIsText(p: Parser, chunks: seq<string>, n: nat)
    requires IndexOf(p.buf, '\n') == |p.buf| && n <= |chunks|
    ensures AllOf(PerChunk(p, chunks)[..n]) == EventsOf(p, Joined(chunks[..n]))
    decreases |chunks|
  {
    if n == 0 {
      assert p.buf + "" == p.buf;
    } else {
      var one := Feed(p, chunks[0]);
      DrainLeavesNoLine(p.(buf := p.buf + chunks[0]));
      PerChunkIsText(one.parser, chunks[1..], n - 1);
      AllOfFirst(PerChunk(p, chunks), n - 1);
      JoinedPrefix(chunks, n - 1);
      FeedTwice(p, chunks[0], Joined(chunks[1..][..n - 1]));
    }
  }

  /** How many events the text up to and including chunk i completes. */
  function Completed(chunks: seq<string>, i: nat): nat
    requires i <= |chunks|
  {
    |EventsOf(INITIAL, Joined(chunks[..i]))|
  }

  /** What is dispatched when the k-th handler closes, as a prefix of all events. */
  lemma ClosedPrefix(chunks: seq<string>, k: nat) returns (n: nat)
    requires k >= 1
    ensures n <= |chunks| && |DispatchedUntilClose(chunks, k)| == Completed(chunks, n)
    ensures DispatchedUntilClose(chunks, k) <= EventsOf(INITIAL, Joined(chunks))
    ensures n == |chunks| || Completed(chunks, n) >= k
    ensures forall i :: 0 <= i <= |chunks| ==> Completed(chunks, i) <= Completed(chunks, |chunks|)
    ensures forall i :: 0 <= i <= |chunks| && Completed(chunks, i) >= k ==> Completed(chunks, n) <= Completed(chunks, i)
    ensures Completed(chunks, |chunks|) == |EventsOf(INITIAL, Joined(chunks))|
  {
    var es := PerChunk(INITIAL, chunks);
    n := UntilCloseAt(es, k);
    assert chunks[..|chunks|] == chunks;
    forall i | 0 <= i <= |chunks| ensures AllOf(es[..i]) == EventsOf(INITIAL, Joined(chunks[..i])) {
      PerChunkIsText(INITIAL, chunks, i);
    }
    forall i, j | 0 <= i <= j <= |chunks| ensures AllOf(es[..i]) <= AllOf(es[..j]) {
      AllOfGrows(es, i, j);
    }
    forall i | 0 <= i <= |chunks| && Completed(chunks, i) >= k ensures Completed(chunks, n) <= Completed(chunks, i) {
      assert i >= n;
      assert AllOf(es[..n]) <= AllOf(es[..i]);
    }
    assert AllOf(es[..n]) <= AllOf(es[..|chunks|]);
  }

  lemma ClosedAfterWhole(text: string, k: nat)
    requires k >= 1
    ensures DispatchedUntilClose([text], k) == EventsOf(INITIAL, text)
  {
    var one := EventsOf(INITIAL, text);
    assert [text][1..] == [];
    assert PerChunk(INITIAL, [text]) == [one];
    assert [one][1..] == [] && one + [] == one;
    if |one| < k {
      assert UntilClose([one][1..], k - |one|) == [];
    }
  }

  /**
   With a close, chunking shows: the events are those of the whole text arriving at once exactly when every
   chunk by which k events are complete completes the last event of the text.
   */
  lemma CloseMakesChunkingVisible(chunks: seq<string>, k: nat)
    requires k >= 1
    ensures DispatchedUntilClose(chunks, k) == DispatchedUntilClose([Joined(chunks)], k) <==>
      (forall i :: 0 <= i <= |chunks| && Completed(chunks, i) >= k ==>
        Completed(chunks, i) == Completed(chunks, |chunks|))
  {
    var n := ClosedPrefix(chunks, k);
    ClosedAfterWhole(Joined(chunks), k);
  }

  lemma FirstOnes(all: seq<Event>, some: seq<Event>, k: nat)
    requires some <= all && k <= |some|
    ensures some == all[..k] <==> |some| == k
  {
  }

  /**
   Events go on being dispatched after the close: exactly the first k are, or all of fewer, if and only if
   there are fewer than k or some chunk ends with the k-th complete and no further one.
   */
  lemma CloseStopsAtOnceIff(chunks: seq<string>, k: nat)
    requires k >= 1
    ensures var all := EventsOf(INITIAL, Joined(chunks));
      DispatchedUntilClose(chunks, k) == (if |all| < k then all else all[..k]) <==>
        |all| < k || exists i :: 0 <= i <= |chunks| && Completed(chunks, i) == k
  {
    var n := ClosedPrefix(chunks, k);
    if Completed(chunks, |chunks|) >= k {
      FirstOnes(EventsOf(INITIAL, Joined(chunks)), DispatchedUntilClose(chunks, k), k);
    }
  }

  // ----- the line rule of the HTML Standard -----

  predicate LineEnd(c: char) {
    c == '\n' || c == '\r'
  }

  function FirstLineEnd(t: string): (i: nat)
    ensures i <= |t|
    ensures i < |t| ==> LineEnd(t[i])
    ensures forall j :: 0 <= j < i ==> !LineEnd(t[j])
  {
    if t == "" || LineEnd(t[0]) then 0 else 1 + FirstLineEnd(t[1..])
  }

  /** Complete lines as the Standard ends them: by CR LF, by LF, or by CR alone. */
  function StandardLines(t: string): seq<string>
    decreases |t|
  {
    var i := FirstLineEnd(t);
    if i == |t| then []
    else if t[i] == '\r' && i + 1 < |t| && t[i + 1] == '\n' then [t[..i]] + StandardLines(t[i + 2..])
    else [t[..i]] + StandardLines(t[i + 1..])
  }

  /** Complete lines as the parser sees them. */
  function ParsedLines(t: string): seq<string>
    decreases |t|
  {
    var i := IndexOf(t, '\n');
    if i == |t| then [] else [ChopEnd(t[..i], '\r')] + ParsedLines(t[i + 1..])
  }

  ghost predicate CrAlwaysBeforeLf(t: string) {
    forall i :: 0 <= i < |t| && t[i] == '\r' ==> i + 1 < |t| && t[i + 1] == '\n'
  }

  /** Line feeds, and carriage returns without one: each ends a line of the Standard. */
  function Feeds(t: string): nat {
    if t == "" then 0 else (if t[0] == '\n' then 1 else 0) + Feeds(t[1..])
  }

  function LoneReturns(t: string): nat {
    if t == "" then 0
    else (if t[0] == '\r' && !(|t| > 1 && t[1] == '\n') then 1 else 0) + LoneReturns(t[1..])
  }

  lemma {:induction false} LoneReturnsZero(t: string)
    ensures LoneReturns(t) == 0 <==> CrAlwaysBeforeLf(t)
  {
    if t != "" {
      LoneReturnsZero(t[1..]);
      assert forall i :: 1 <= i < |t| ==> t[1..][i - 1] == t[i];
      assert CrAlwaysBeforeLf(t) ==> CrAlwaysBeforeLf(t[1..]) by {
        if CrAlwaysBeforeLf(t) {
          forall i | 0 <= i < |t[1..]| && t[1..][i] == '\r' ensures i + 1 < |t[1..]| && t[1..][i + 1] == '\n' {
            assert t[i + 1] == '\r';
          }
        }
      }
      if LoneReturns(t) == 0 {
        forall i | 0 <= i < |t| && t[i] == '\r' ensures i + 1 < |t| && t[i + 1] == '\n' {
          if i > 0 {
            assert t[1..][i - 1] == '\r';
          }
        }
      }
    }
  }

  lemma {:induction false} NoEndsInPrefix(t: string, i: nat)
    requires i <= |t| && forall j :: 0 <= j < i ==> !LineEnd(t[j])
    ensures Feeds(t) == Feeds(t[i..]) && LoneReturns(t) == LoneReturns(t[i..])
  {
    if i == 0 {
      assert t[0..] == t;
    } else {
      NoEndsInPrefix(t[1..], i - 1);
      assert t[1..][i - 1..] == t[i..];
    }
  }

  lemma {:induction false} StandardLineCount(t: string)
    ensures |StandardLines(t)| == Feeds(t) + LoneReturns(t)
    decreases |t|
  {
    var i := FirstLineEnd(t);
    NoEndsInPrefix(t, i);
    if i == |t| {
      assert t[i..] == "";
    } else {
      var r := t[i..];
      assert r[1..] == t[i + 1..];
      if t[i] == '\r' && i + 1 < |t| && t[i + 1] == '\n' {
        assert r[1..][1..] == t[i + 2..];
        StandardLineCount(t[i + 2..]);
      } else {
        StandardLineCount(t[i + 1..]);
      }
    }
  }

  lemma {:induction false} NoFeedsInPrefix(t: string, i: nat)
    requires i <= |t| && forall j :: 0 <= j < i ==> t[j] != '\n'
    ensures Feeds(t) == Feeds(t[i..])
  {
    if i == 0 {
      assert t[0..] == t;
    } else {
      NoFeedsInPrefix(t[1..], i - 1);
      assert t[1..][i - 1..] == t[i..];
    }
  }

  lemma {:induction false} ParsedLineCount(t: string)
    ensures |ParsedLines(t)| == Feeds(t)
    decreases |t|
  {
    var i := IndexOf(t, '\n');
    NoFeedsInPrefix(t, i);
    if i == |t| {
      assert t[i..] == "";
    } else {
      assert t[i..][1..] == t[i + 1..];
      ParsedLineCount(t[i + 1..]);
    }
  }

  lemma CrRuleSuffix(t: string, n: nat)
    requires CrAlwaysBeforeLf(t) && n <= |t|
    ensures CrAlwaysBeforeLf(t[n..])
  {
    forall j | 0 <= j < |t[n..]| && t[n..][j] == '\r' ensures j + 1 < |t[n..]| && t[n..][j + 1] == '\n' {
      assert t[n + j] == '\r';
    }
  }

  /** Where the first line ends for both, and what the line is. */
  lemma FirstLineAgrees(t: string)
    requires CrAlwaysBeforeLf(t)
    ensures var i, k := FirstLineEnd(t), IndexOf(t, '\n');
      && (i == |t| <==> k == |t|)
      && (i < |t| ==> k == (if t[i] == '\r' then i + 1 else i) && ChopEnd(t[..k], '\r') == t[..i])
  {
    var i, k := FirstLineEnd(t), IndexOf(t, '\n');
    if i < |t| {
      if t[i] == '\r' {
        assert t[i + 1] == '\n';
        assert k == i + 1;
        assert t[..k][..k - 1] == t[..i];
      } else {
        assert k == i;
      }
    }
  }

  lemma {:induction false} SameLines(t: string)
    requires CrAlwaysBeforeLf(t)
    ensures ParsedLines(t) == StandardLines(t)
    decreases |t|
  {
    FirstLineAgrees(t);
    var i, k := FirstLineEnd(t), IndexOf(t, '\n');
    if k < |t| {
      CrRuleSuffix(t, k + 1);
      SameLines(t[k + 1..]);
      assert StandardLines(t) == [t[..i]] + StandardLines(t[k + 1..]);
    }
  }

  /** The parser cuts lines as the HTML Standard does exactly when every carriage return is followed by a line feed. */
  lemma StandardLinesIff(t: string)
    ensures ParsedLines(t) == StandardLines(t) <==> CrAlwaysBeforeLf(t)
  {
    LoneReturnsZero(t);
    if CrAlwaysBeforeLf(t) {
      SameLines(t);
    } else {
      StandardLineCount(t);
      ParsedLineCount(t);
    }
  }

  // ----- the field rules of the HTML Standard -----

  /** A field's name: the characters before the first colon. A comment has none, so no rule names it. */
  function NameOf(line: string): string {
    if line == "" || line[0] == ':' then "" else [line[0]] + NameOf(line[1..])
  }

  function AfterColon(line: string): string {
    if line == "" then "" else if line[0] == ':' then line[1..] else AfterColon(line[1..])
  }

  /** A field's value: what follows the colon, less one leading space. */
  function ValueOf(line: string): string {
    var v := AfterColon(line);
    if v != "" && v[0] == ' ' then v[1..] else v
  }

  /** The values of the fields of one name, in order. */
  function Values(lines: seq<string>, name: string): seq<string> {
    if lines == [] then []
    else
      var before, line := lines[..|lines| - 1], lines[|lines| - 1];
      if NameOf(line) == name then Values(before, name) + [ValueOf(line)] else Values(before, name)
  }

  /** The lines since the last blank one. */
  function Block(lines: seq<string>): seq<string> {
    if lines == [] || lines[|lines| - 1] == "" then [] else Block(lines[..|lines| - 1]) + [lines[|lines| - 1]]
  }

  function LastOf(vs: seq<string>): string {
    if vs == [] then "" else vs[|vs| - 1]
  }

  /** Values with a line feed between each two. */
  function Between(vs: seq<string>): string {
    if vs == [] then "" else if |vs| == 1 then vs[0] else Between(vs[..|vs| - 1]) + "\n" + vs[|vs| - 1]
  }

  function NulFree(): string -> bool {
    (v: string) => '\0' !in v
  }

  /** The event a blank line after `lines` dispatches: none without data, and ids holding a NUL do not count. */
  function StandardEvent(lines: seq<string>): seq<Event> {
    var data, name := Values(Block(lines), "data"), LastOf(Values(Block(lines), "event"));
    if data == [] then []
    else [Event(if name == "" then "message" else name, Between(data), LastOf(Filter(Values(lines, "id"), NulFree())))]
  }

  function StandardEvents(lines: seq<string>): seq<Event> {
    if lines == [] then []
    else
      var before, line := lines[..|lines| - 1], lines[|lines| - 1];
      StandardEvents(before) + (if line == "" then StandardEvent(before) else [])
  }

  // ----- the parser against them -----

  /** Interprets a list of lines in turn. */
  function InterpretAll(p: Parser, lines: seq<string>): Outcome {
    if lines == [] then Outcome(p, [])
    else
      var before := InterpretAll(p, lines[..|lines| - 1]);
      var one := Interpret(before.parser, lines[|lines| - 1]);
      Outcome(one.parser, before.events + one.events)
  }

  lemma {:induction false} FieldAgrees(line: string)
    ensures FieldName(line) == NameOf(line)
    ensures FieldValue(line) == ValueOf(line)
  {
    ColonAt(line);
  }

  lemma {:induction false} ColonAt(line: string)
    ensures var c := IndexOf(line, ':');
      line[..c] == NameOf(line) && AfterColon(line) == (if c == |line| then "" else line[c + 1..])
  {
    if line != "" && line[0] != ':' {
      ColonAt(line[1..]);
      var c := IndexOf(line[1..], ':');
      assert line[..c + 1] == [line[0]] + line[1..][..c];
    }
  }

  /** Each value followed by a line feed, as the parser collects them. */
  function Terminated(vs: seq<string>): string {
    if vs == [] then "" else Terminated(vs[..|vs| - 1]) + vs[|vs| - 1] + "\n"
  }

  lemma {:induction false} TerminatedBetween(vs: seq<string>)
    ensures Terminated(vs) == "" <==> vs == []
    ensures vs != [] ==> Terminated(vs) == Between(vs) + "\n" && ChopEnd(Terminated(vs), '\n') == Between(vs)
  {
    if vs != [] {
      TerminatedBetween(vs[..|vs| - 1]);
      if |vs| == 1 {
        assert vs[..0] == [];
        assert "" + vs[0] + "\n" == vs[0] + "\n";
      }
      assert ChopEnd(Between(vs) + "\n", '\n') == Between(vs);
    }
  }

  lemma ValuesPush(lines: seq<string>, line: string, name: string)
    ensures Values(lines + [line], name) ==
      if NameOf(line) == name then Values(lines, name) + [ValueOf(line)] else Values(lines, name)
  {
    assert (lines + [line])[..|lines|] == lines;
  }

  /** What the parser has collected after some lines, in the Standard's terms. */
  ghost predicate Collected(p: Parser, lines: seq<string>) {
    && p.data == Terminated(Values(Block(lines), "data"))
    && p.name == LastOf(Values(Block(lines), "event"))
    && p.lastId == LastOf(Values(lines, "id"))
  }

  lemma TerminatedPush(vs: seq<string>, v: string)
    ensures Terminated(vs + [v]) == Terminated(vs) + v + "\n"
  {
    assert (vs + [v])[..|vs|] == vs;
  }

  lemma CollectsLine(p: Parser, lines: seq<string>, line: string)
    requires Collected(p, lines)
    ensures Collected(Interpret(p, line).parser, lines + [line])
  {
    assert (lines + [line])[..|lines|] == lines;
    ValuesPush(lines, line, "id");
    if line != "" {
      FieldAgrees(line);
      ValuesPush(Block(lines), line, "data");
      ValuesPush(Block(lines), line, "event");
      TerminatedPush(Values(Block(lines), "data"), ValueOf(line));
      assert line[0] == ':' ==> NameOf(line) == "";
    }
  }

  lemma {:induction false} CollectsLines(lines: seq<string>)
    ensures Collected(InterpretAll(INITIAL, lines).parser, lines)
  {
    if lines != [] {
      var before, line := lines[..|lines| - 1], lines[|lines| - 1];
      CollectsLines(before);
      CollectsLine(InterpretAll(INITIAL, before).parser, before, line);
      assert before + [line] == lines;
    }
  }

  /** The id kept is the Standard's exactly when the last id field holds no NUL. */
  lemma {:induction false} IdAgreesIff(ids: seq<string>)
    ensures LastOf(Filter(ids, NulFree())) == LastOf(ids) <==> '\0' !in LastOf(ids)
  {
    var usable := Filter(ids, NulFree());
    if ids != [] && '\0' in LastOf(ids) && usable != [] {
      assert usable[|usable| - 1] in usable;
    }
  }

  /** A blank line dispatches the Standard's event exactly when there is none or the last id holds no NUL. */
  lemma EventAgreesIff(p: Parser, lines: seq<string>)
    requires Collected(p, lines)
    ensures |Interpret(p, "").events| == |StandardEvent(lines)|
    ensures Interpret(p, "").events == StandardEvent(lines) <==>
      Values(Block(lines), "data") == [] || '\0' !in LastOf(Values(lines, "id"))
  {
    TerminatedBetween(Values(Block(lines), "data"));
    IdAgreesIff(Values(lines, "id"));
  }

  /** No event is dispatched while the id last set holds a NUL. */
  ghost predicate NoNulIdSeen(lines: seq<string>) {
    forall n :: 0 <= n < |lines| && lines[n] == "" && Values(Block(lines[..n]), "data") != [] ==>
      '\0' !in LastOf(Values(lines[..n], "id"))
  }

  lemma SplitEqual(a: seq<Event>, b: seq<Event>, x: seq<Event>, y: seq<Event>)
    requires |a| == |b|
    ensures a + x == b + y <==> a == b && x == y
  {
    if a + x == b + y {
      assert a == (a + x)[..|a|] && b == (b + y)[..|b|];
      assert x == (a + x)[|a|..] && y == (b + y)[|b|..];
    }
  }

  lemma NoNulPush(lines: seq<string>, line: string)
    ensures NoNulIdSeen(lines + [line]) <==>
      NoNulIdSeen(lines) && (line == "" && Values(Block(lines), "data") != [] ==> '\0' !in LastOf(Values(lines, "id")))
  {
    var more := lines + [line];
    assert forall n :: 0 <= n <= |lines| ==> more[..n] == lines[..n];
    assert more[..|lines|] == lines;
    assert forall n :: 0 <= n < |lines| ==> more[n] == lines[n];
  }

  /** Events are the Standard's, for every list of lines, exactly when no event is dispatched under an id with a NUL. */
  lemma {:induction false} EventsAgreeIff(lines: seq<string>)
    ensures |InterpretAll(INITIAL, lines).events| == |StandardEvents(lines)|
    ensures InterpretAll(INITIAL, lines).events == StandardEvents(lines) <==> NoNulIdSeen(lines)
  {
    if lines != [] {
      var before, line := lines[..|lines| - 1], lines[|lines| - 1];
      var s := InterpretAll(INITIAL, before);
      EventsAgreeIff(before);
      CollectsLines(before);
      EventAgreesIff(s.parser, before);
      assert before + [line] == lines;
      NoNulPush(before, line);
      SplitEqual(s.events, StandardEvents(before), Interpret(s.parser, line).events,
                 if line == "" then StandardEvent(before) else []);
    }
  }

  lemma {:induction false} InterpretAllBuf(p: Parser, lines: seq<string>, b: string)
    ensures InterpretAll(p.(buf := b), lines)
            == Outcome(InterpretAll(p, lines).parser.(buf := b), InterpretAll(p, lines).events)
  {
    if lines != [] {
      InterpretAllBuf(p, lines[..|lines| - 1], b);
      InterpretBuf(InterpretAll(p, lines[..|lines| - 1]).parser, lines[|lines| - 1], b);
    }
  }

  lemma {:induction false} InterpretFirst(p: Parser, lines: seq<string>)
    requires lines != []
    ensures var one := Interpret(p, lines[0]);
      InterpretAll(p, lines).events == one.events + InterpretAll(one.parser, lines[1..]).events
    ensures InterpretAll(p, lines).parser == InterpretAll(Interpret(p, lines[0]).parser, lines[1..]).parser
  {
    if |lines| == 1 {
      assert lines[..0] == [] && lines[1..] == [];
    } else {
      var before := lines[..|lines| - 1];
      InterpretFirst(p, before);
      assert lines[1..][..|lines| - 2] == before[1..];
    }
  }

  lemma {:induction false} DrainIsInterpretation(p: Parser)
    ensures Drain(p).events == InterpretAll(p, ParsedLines(p.buf)).events
    decreases |p.buf|
  {
    var t := p.buf;
    var i := IndexOf(t, '\n');
    if i < |t| {
      DrainOne(p, i);
      var one := Interpret(p, ChopEnd(t[..i], '\r'));
      DrainIsInterpretation(one.parser.(buf := t[i + 1..]));
      InterpretAllBuf(one.parser, ParsedLines(t[i + 1..]), t[i + 1..]);
      InterpretFirst(p, ParsedLines(t));
      assert ParsedLines(t)[1..] == ParsedLines(t[i + 1..]);
    }
  }

  /**
   For text whose carriage returns all come before line feeds, every chunking dispatches the events of the HTML
   Standard's interpretation of the whole stream exactly when no event is dispatched under an id with a NUL.
   */
  lemma ChunksMeetTheStandard(chunks: seq<string>)
    requires CrAlwaysBeforeLf(Joined(chunks))
    ensures var lines := StandardLines(Joined(chunks));
      FeedAll(INITIAL, chunks).events == StandardEvents(lines) <==> NoNulIdSeen(lines)
  {
    var t := Joined(chunks);
    ChunkingIrrelevant(chunks);
    assert "" + t == t;
    DrainIsInterpretation(INITIAL.(buf := t));
    InterpretAllBuf(INITIAL, ParsedLines(t), t);
    StandardLinesIff(t);
    EventsAgreeIff(ParsedLines(t));
  }
}
