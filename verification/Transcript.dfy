/** The reader of a run's transcript, and the traces of model calls it accepts. */
module Transcript {
  import opened Basics

  /** A message may lack its call id, carry null, or carry the id of a call. */
  datatype CallId = Absent | Null | Id(id: string)

  datatype Event =
    | Message(number: nat, messageId: string, callId: CallId)
    | CallsStart(number: nat)
    | CallsEnd(number: nat)
    | CallStart(number: nat, call: string)
    | CallEnd(number: nat, call: string, messageId: string)

  /** A line of the file: empty, not a valid record, or an event. */
  datatype Line = Blank | Invalid | Record(event: Event)

  // ---- the traces ----

  type Trace = seq<Event>

  /** Sequence numbers are positive and increase. */
  ghost predicate Ordered(q: Trace) {
    (forall i :: 0 <= i < |q| ==> q[i].number > 0) && forall i, j :: 0 <= i < j < |q| ==> q[i].number < q[j].number
  }

  ghost predicate Opened(q: Trace, before: nat) {
    exists i :: 0 <= i < before && i < |q| && q[i].CallsStart?
  }

  /** The call was started before the index. */
  ghost predicate Started(q: Trace, before: nat, call: string) {
    exists i :: 0 <= i < before && i < |q| && q[i].CallStart? && q[i].call == call
  }

  ghost predicate EndedBefore(q: Trace, before: nat, call: string) {
    exists i :: 0 <= i < before && i < |q| && q[i].CallEnd? && q[i].call == call
  }

  ghost predicate Told(q: Trace, before: nat, messageId: string) {
    exists i :: 0 <= i < before && i < |q| && q[i].Message? && q[i].messageId == messageId
  }

  /** A message with this id, for this call, came before the index. */
  ghost predicate Answered(q: Trace, before: nat, messageId: string, call: string) {
    exists i :: 0 <= i < before && i < |q| && q[i].Message? && q[i].messageId == messageId && q[i].callId == Id(call)
  }

  /** The window opens once; it closes only after that, and then nothing follows. */
  ghost predicate OneWindow(q: Trace) {
    (forall i, j :: 0 <= i < j < |q| ==> !(q[i].CallsStart? && q[j].CallsStart?)) &&
    forall i :: 0 <= i < |q| && q[i].CallsEnd? ==> i == |q| - 1 && Opened(q, i)
  }

  ghost predicate UniqueMessages(q: Trace) {
    forall i, j :: 0 <= i < j < |q| && q[i].Message? && q[j].Message? ==> q[i].messageId != q[j].messageId
  }

  /** Calls start inside the window, each at most once. */
  ghost predicate CallsStartOnce(q: Trace) {
    (forall i :: 0 <= i < |q| && q[i].CallStart? ==> Opened(q, i)) &&
    forall i, j :: 0 <= i < j < |q| && q[i].CallStart? && q[j].CallStart? ==> q[i].call != q[j].call
  }

  /** Calls end at most once, after their start and after a message of theirs. */
  ghost predicate CallsEndOnce(q: Trace) {
    (forall i :: 0 <= i < |q| && q[i].CallEnd? ==>
       Opened(q, i) && Started(q, i, q[i].call) && Answered(q, i, q[i].messageId, q[i].call)) &&
    forall i, j :: 0 <= i < j < |q| && q[i].CallEnd? && q[j].CallEnd? ==> q[i].call != q[j].call
  }

  /** Inside the window a message without a call says so by omission; any other names a started call. */
  ghost predicate MessagesBelong(q: Trace) {
    forall i :: 0 <= i < |q| && q[i].Message? && Opened(q, i) && q[i].callId != Absent ==>
      q[i].callId.Id? && Started(q, i, q[i].callId.id)
  }

  ghost predicate WellFormed(q: Trace) {
    Ordered(q) && OneWindow(q) && UniqueMessages(q) && CallsStartOnce(q) && CallsEndOnce(q) && MessagesBelong(q)
  }

  // ---- lines ----

  function EventsOf(lines: seq<Line>): Trace {
    if lines == [] then []
    else EventsOf(lines[..|lines| - 1]) + if lines[|lines| - 1].Record? then [lines[|lines| - 1].event] else []
  }

  ghost predicate NoInvalidLine(lines: seq<Line>) {
    forall i :: 0 <= i < |lines| ==> lines[i] != Invalid
  }

  lemma {:induction false} EventsOfPrefix(lines: seq<Line>, count: nat)
    requires count <= |lines|
    ensures EventsOf(lines[..count]) <= EventsOf(lines)
    decreases |lines| - count
  {
    if count < |lines| {
      EventsOfPrefix(lines, count + 1);
      assert lines[..count + 1][..count] == lines[..count];
    } else {
      assert lines[..count] == lines;
    }
  }

  // ---- one more event ----

  /** What the reader checks of the next event. */
  ghost predicate Fits(q: Trace, e: Event) {
    var n := |q|;
    e.number > (if n == 0 then 0 else q[n - 1].number) &&
    (n > 0 ==> !q[n - 1].CallsEnd?) &&
    match e
    case Message(_, id, callId) =>
      !Told(q, n, id) && (Opened(q, n) && callId != Absent ==> callId.Id? && Started(q, n, callId.id))
    case CallsStart(_) => !Opened(q, n)
    case CallsEnd(_) => Opened(q, n)
    case CallStart(_, call) => Opened(q, n) && !Started(q, n, call)
    case CallEnd(_, call, messageId) =>
      Opened(q, n) && Started(q, n, call) && !EndedBefore(q, n, call) && Answered(q, n, messageId, call)
  }

  /** Conditions on the past do not notice the next event. */
  lemma PastStays(q: Trace, e: Event, before: nat)
    requires before <= |q|
    ensures Opened(q + [e], before) <==> Opened(q, before)
    ensures forall c :: Started(q + [e], before, c) <==> Started(q, before, c)
    ensures forall m, c :: Answered(q + [e], before, m, c) <==> Answered(q, before, m, c)
    ensures forall c :: EndedBefore(q + [e], before, c) <==> EndedBefore(q, before, c)
    ensures forall m :: Told(q + [e], before, m) <==> Told(q, before, m)
  {
    var r := q + [e];
    assert forall i :: 0 <= i < before ==> r[i] == q[i];
  }

  lemma OrderedNext(q: Trace, e: Event)
    ensures Ordered(q + [e]) <==> Ordered(q) && e.number > (if |q| == 0 then 0 else q[|q| - 1].number)
  {
    var r := q + [e];
    assert forall i :: 0 <= i < |q| ==> r[i] == q[i];
    assert r[|q|] == e;
  }

  lemma WindowNext(q: Trace, e: Event)
    ensures OneWindow(q + [e]) <==>
            OneWindow(q) && (|q| > 0 ==> !q[|q| - 1].CallsEnd?) && (e.CallsStart? ==> !Opened(q, |q|)) &&
            (e.CallsEnd? ==> Opened(q, |q|))
  {
    var r := q + [e];
    assert forall i :: 0 <= i < |q| ==> r[i] == q[i];
    assert r[|q|] == e;
    forall i | 0 <= i <= |q| ensures Opened(r, i) <==> Opened(q, i) {
      PastStays(q, e, i);
    }
  }

  lemma MessagesNext(q: Trace, e: Event)
    ensures UniqueMessages(q + [e]) <==> UniqueMessages(q) && (e.Message? ==> !Told(q, |q|, e.messageId))
    ensures MessagesBelong(q + [e]) <==>
            MessagesBelong(q) &&
            (e.Message? && Opened(q, |q|) && e.callId != Absent ==> e.callId.Id? && Started(q, |q|, e.callId.id))
  {
    var r := q + [e];
    assert forall i :: 0 <= i < |q| ==> r[i] == q[i];
    assert r[|q|] == e;
    forall i | 0 <= i <= |q|
      ensures Opened(r, i) <==> Opened(q, i)
      ensures forall c :: Started(r, i, c) <==> Started(q, i, c)
    {
      PastStays(q, e, i);
    }
  }

  lemma StartsNext(q: Trace, e: Event)
    ensures CallsStartOnce(q + [e]) <==>
            CallsStartOnce(q) && (e.CallStart? ==> Opened(q, |q|) && !Started(q, |q|, e.call))
  {
    var r := q + [e];
    assert forall i :: 0 <= i < |q| ==> r[i] == q[i];
    assert r[|q|] == e;
    forall i | 0 <= i <= |q| ensures Opened(r, i) <==> Opened(q, i) {
      PastStays(q, e, i);
    }
  }

  lemma EndsNext(q: Trace, e: Event)
    ensures CallsEndOnce(q + [e]) <==>
            CallsEndOnce(q) &&
            (e.CallEnd? ==> Opened(q, |q|) && Started(q, |q|, e.call) && !EndedBefore(q, |q|, e.call) &&
                            Answered(q, |q|, e.messageId, e.call))
  {
    var r := q + [e];
    assert forall i :: 0 <= i < |q| ==> r[i] == q[i];
    assert r[|q|] == e;
    forall i | 0 <= i <= |q|
      ensures Opened(r, i) <==> Opened(q, i)
      ensures forall c :: Started(r, i, c) <==> Started(q, i, c)
      ensures forall m, c :: Answered(r, i, m, c) <==> Answered(q, i, m, c)
    {
      PastStays(q, e, i);
    }
  }

  /** A trace is well-formed exactly when it was so before its last event and that one fits. */
  lemma WellFormedNext(q: Trace, e: Event)
    ensures WellFormed(q + [e]) <==> WellFormed(q) && Fits(q, e)
  {
    OrderedNext(q, e);
    WindowNext(q, e);
    MessagesNext(q, e);
    StartsNext(q, e);
    EndsNext(q, e);
    hide Ordered, OneWindow, UniqueMessages, CallsStartOnce, CallsEndOnce, MessagesBelong, Opened, Started, EndedBefore,
         Told, Answered;
  }

  /** Cutting a well-formed trace short leaves a well-formed trace. */
  lemma {:induction false} WellFormedIsPrefixClosed(q: Trace, count: nat)
    requires WellFormed(q) && count <= |q|
    ensures WellFormed(q[..count])
    decreases |q| - count
  {
    hide WellFormed, Fits;
    if count < |q| {
      WellFormedIsPrefixClosed(q, count + 1);
      assert q[..count + 1] == q[..count] + [q[count]];
      WellFormedNext(q[..count], q[count]);
    } else {
      assert q[..count] == q;
    }
  }

  /** Two calls that ended were answered by two messages. */
  lemma EndedCallsHaveOwnMessages(q: Trace, i: nat, j: nat)
    requires WellFormed(q) && i < j < |q| && q[i].CallEnd? && q[j].CallEnd?
    ensures q[i].messageId != q[j].messageId
  {
    assert Answered(q, i, q[i].messageId, q[i].call) && Answered(q, j, q[j].messageId, q[j].call);
    var m :| 0 <= m < i && q[m].Message? && q[m].messageId == q[i].messageId && q[m].callId == Id(q[i].call);
    var n :| 0 <= n < j && q[n].Message? && q[n].messageId == q[j].messageId && q[n].callId == Id(q[j].call);
    assert m != n ==> q[m].messageId != q[n].messageId;
  }

  predicate IsStart(q: Trace, i: int, call: string) {
    0 <= i < |q| && q[i].CallStart? && q[i].call == call
  }

  predicate IsMessage(q: Trace, i: int, messageId: string) {
    0 <= i < |q| && q[i].Message? && q[i].messageId == messageId
  }

  /** The events a call's end rests on: the call's start and its message. */
  ghost predicate Explains(q: Trace, end: nat, start: nat, message: nat)
    requires end < |q| && q[end].CallEnd?
  {
    IsStart(q, start, q[end].call) && IsMessage(q, message, q[end].messageId) && q[message].callId == Id(q[end].call) &&
    start < end && message < end && q[start].number < q[end].number && q[message].number < q[end].number &&
    (Opened(q, message) ==> start < message && q[start].number < q[message].number)
  }

  /**
   * Behind the end of a call there are exactly one start of that call and exactly one message with the
   * named id in the whole trace; both come before the end, the message carries the call, and it
   * follows the start if the window was open by then.
   */
  lemma AnswersFollowStarts(q: Trace, end: nat)
    requires WellFormed(q) && end < |q| && q[end].CallEnd?
    ensures exists start, message ::
              Explains(q, end, start, message) &&
              (forall i :: IsStart(q, i, q[end].call) ==> i == start) &&
              (forall i :: IsMessage(q, i, q[end].messageId) ==> i == message)
  {
    assert Started(q, end, q[end].call) && Answered(q, end, q[end].messageId, q[end].call);
    var start :| 0 <= start < end && q[start].CallStart? && q[start].call == q[end].call;
    var message :| 0 <= message < end && q[message].Message? && q[message].messageId == q[end].messageId &&
                   q[message].callId == Id(q[end].call);
    forall i | IsStart(q, i, q[end].call) ensures i == start {
    }
    forall i | IsMessage(q, i, q[end].messageId) ensures i == message {
    }
    if Opened(q, message) {
      assert Started(q, message, q[end].call);
    }
    assert Explains(q, end, start, message);
  }

  // ---- the reader ----

  /** What the reader remembers of the events so far. */
  ghost predicate Remembers(
    q: Trace, messages: map<string, CallId>, starts: set<string>, ends: set<string>, begun: bool, closed: bool, previous: nat)
  {
    (forall id :: id in messages <==> Told(q, |q|, id)) &&
    (forall id, c | id in messages :: messages[id] == Id(c) <==> Answered(q, |q|, id, c)) &&
    (forall c :: c in starts <==> Started(q, |q|, c)) &&
    (forall c :: c in ends <==> EndedBefore(q, |q|, c)) &&
    (begun <==> Opened(q, |q|)) &&
    (closed <==> |q| > 0 && q[|q| - 1].CallsEnd?) &&
    previous == if |q| == 0 then 0 else q[|q| - 1].number
  }

  /** What one event adds to each condition on the past. */
  lemma PastGrows(q: Trace, e: Event)
    ensures Opened(q + [e], |q| + 1) <==> Opened(q, |q|) || e.CallsStart?
    ensures forall c :: Started(q + [e], |q| + 1, c) <==> Started(q, |q|, c) || (e.CallStart? && e.call == c)
    ensures forall c :: EndedBefore(q + [e], |q| + 1, c) <==> EndedBefore(q, |q|, c) || (e.CallEnd? && e.call == c)
    ensures forall id :: Told(q + [e], |q| + 1, id) <==> Told(q, |q|, id) || (e.Message? && e.messageId == id)
    ensures forall id, c :: Answered(q + [e], |q| + 1, id, c) <==>
              Answered(q, |q|, id, c) || (e.Message? && e.messageId == id && e.callId == Id(c))
  {
    forall c ensures Started(q + [e], |q| + 1, c) <==> Started(q, |q|, c) || (e.CallStart? && e.call == c) {
      StartedGrows(q, e, c);
    }
    forall c ensures EndedBefore(q + [e], |q| + 1, c) <==> EndedBefore(q, |q|, c) || (e.CallEnd? && e.call == c) {
      EndedGrows(q, e, c);
    }
    forall id ensures Told(q + [e], |q| + 1, id) <==> Told(q, |q|, id) || (e.Message? && e.messageId == id) {
      ToldGrows(q, e, id);
    }
    forall id, c
      ensures Answered(q + [e], |q| + 1, id, c) <==>
              Answered(q, |q|, id, c) || (e.Message? && e.messageId == id && e.callId == Id(c))
    {
      AnsweredGrows(q, e, id, c);
    }
    OpenedGrows(q, e);
    hide Opened, Started, EndedBefore, Told, Answered;
  }

  lemma OpenedGrows(q: Trace, e: Event)
    ensures Opened(q + [e], |q| + 1) <==> Opened(q, |q|) || e.CallsStart?
  {
    PastStays(q, e, |q|);
    assert (q + [e])[|q|] == e;
  }

  lemma StartedGrows(q: Trace, e: Event, c: string)
    ensures Started(q + [e], |q| + 1, c) <==> Started(q, |q|, c) || (e.CallStart? && e.call == c)
  {
    PastStays(q, e, |q|);
    assert (q + [e])[|q|] == e;
  }

  lemma EndedGrows(q: Trace, e: Event, c: string)
    ensures EndedBefore(q + [e], |q| + 1, c) <==> EndedBefore(q, |q|, c) || (e.CallEnd? && e.call == c)
  {
    PastStays(q, e, |q|);
    assert (q + [e])[|q|] == e;
  }

  lemma ToldGrows(q: Trace, e: Event, id: string)
    ensures Told(q + [e], |q| + 1, id) <==> Told(q, |q|, id) || (e.Message? && e.messageId == id)
  {
    PastStays(q, e, |q|);
    assert (q + [e])[|q|] == e;
  }

  lemma AnsweredGrows(q: Trace, e: Event, id: string, c: string)
    ensures Answered(q + [e], |q| + 1, id, c) <==>
            Answered(q, |q|, id, c) || (e.Message? && e.messageId == id && e.callId == Id(c))
  {
    PastStays(q, e, |q|);
    assert (q + [e])[|q|] == e;
  }

  lemma AnsweredIsTold(q: Trace, before: nat, id: string, c: string)
    requires Answered(q, before, id, c)
    ensures Told(q, before, id)
  {
  }

  lemma RemembersNext(
    q: Trace, e: Event, messages: map<string, CallId>, starts: set<string>, ends: set<string>, begun: bool, closed: bool,
    previous: nat)
    requires Remembers(q, messages, starts, ends, begun, closed, previous) && Fits(q, e)
    ensures Remembers(
              q + [e],
              if e.Message? then messages[e.messageId := e.callId] else messages,
              if e.CallStart? then starts + {e.call} else starts,
              if e.CallEnd? then ends + {e.call} else ends,
              begun || e.CallsStart?,
              closed || e.CallsEnd?,
              e.number)
  {
    PastGrows(q, e);
    var after := if e.Message? then messages[e.messageId := e.callId] else messages;
    forall id, c | id in after ensures after[id] == Id(c) <==> Answered(q + [e], |q| + 1, id, c) {
      if Answered(q, |q|, id, c) {
        AnsweredIsTold(q, |q|, id, c);
      }
    }
    hide Opened, Started, EndedBefore, Told, Answered;
  }

  /** The reader's tests are exactly that the event fits. */
  lemma TestsMeanFits(
    q: Trace, e: Event, messages: map<string, CallId>, starts: set<string>, ends: set<string>, begun: bool, closed: bool,
    previous: nat)
    requires Remembers(q, messages, starts, ends, begun, closed, previous)
    ensures Fits(q, e) <==>
            !closed && e.number > previous &&
            match e
            case Message(_, id, callId) =>
              id !in messages && !(begun && callId != Absent && !(callId.Id? && callId.id in starts))
            case CallsStart(_) => !begun
            case CallsEnd(_) => begun
            case CallStart(_, call) => begun && call !in starts
            case CallEnd(_, call, messageId) =>
              begun && call in starts && call !in ends && messageId in messages && messages[messageId] == Id(call)
  {
    if e.CallEnd? && Answered(q, |q|, e.messageId, e.call) {
      AnsweredIsTold(q, |q|, e.messageId, e.call);
    }
    hide Opened, Started, EndedBefore, Told, Answered;
  }

  /** The reader accepts exactly the files of valid records that form a well-formed trace. */
  method ReadTrajectory(lines: seq<Line>) returns (result: Option<Trace>)
    ensures result.Some? <==> NoInvalidLine(lines) && WellFormed(EventsOf(lines))
    ensures result.Some? ==> result.value == EventsOf(lines)
  {
    hide WellFormed, Fits, Remembers;
    var events: Trace := [];
    var messages: map<string, CallId> := map[];
    var starts: set<string> := {};
    var ends: set<string> := {};
    var begun, closed := false, false;
    var previous: nat := 0;
    NothingRemembered();
    for n := 0 to |lines|
      invariant events == EventsOf(lines[..n]) && WellFormed(events)
      invariant forall i :: 0 <= i < n ==> lines[i] != Invalid
      invariant Remembers(events, messages, starts, ends, begun, closed, previous)
    {
      assert lines[..n + 1][..n] == lines[..n];
      if lines[n] == Blank {
        continue;
      }
      if lines[n] == Invalid {
        return None;
      }
      var event := lines[n].event;
      WellFormedNext(events, event);
      TestsMeanFits(events, event, messages, starts, ends, begun, closed, previous);
      if Fits(events, event) {
        RemembersNext(events, event, messages, starts, ends, begun, closed, previous);
      } else {
        RejectedPrefix(lines, n);
      }
      if closed || event.number <= previous {
        return None;
      }
      previous := event.number;
      match event {
        case Message(_, id, callId) =>
          if id in messages {
            return None;
          }
          if begun && callId != Absent && !(callId.Id? && callId.id in starts) {
            return None;
          }
          messages := messages[id := callId];
        case CallsStart(_) =>
          if begun {
            return None;
          }
          begun := true;
        case CallsEnd(_) =>
          if !begun {
            return None;
          }
          closed := true;
        case CallStart(_, call) =>
          if !begun || call in starts {
            return None;
          }
          starts := starts + {call};
        case CallEnd(_, call, messageId) =>
          if !begun || call !in starts || call in ends || messageId !in messages || messages[messageId] != Id(call) {
            return None;
          }
          ends := ends + {call};
      }
      events := events + [event];
    }
    assert lines[..|lines|] == lines;
    return Some(events);
  }

  lemma NothingRemembered()
    ensures WellFormed([]) && Remembers([], map[], {}, {}, false, false, 0)
  {
  }

  /** If the events up to a line are not well-formed, neither is the file. */
  lemma RejectedPrefix(lines: seq<Line>, n: nat)
    requires n < |lines| && lines[n].Record? && !WellFormed(EventsOf(lines[..n]) + [lines[n].event])
    ensures !WellFormed(EventsOf(lines))
  {
    hide WellFormed;
    assert lines[..n + 1][..n] == lines[..n];
    EventsOfPrefix(lines, n + 1);
    var front := EventsOf(lines[..n + 1]);
    assert EventsOf(lines)[..|front|] == front;
    if WellFormed(EventsOf(lines)) {
      WellFormedIsPrefixClosed(EventsOf(lines), |front|);
    }
  }
}
