/**
 * What a request on a shared key comes to, as a function of the reports that arrive: the first
 * message on its own channel that is not a keepalive. Proved against the events that the channel's
 * own reports bring a receiver, without the loop.
 */
module Session {
  import opened Bytes
  import opened Framing
  import opened FramingTheorems

  /** How waiting for an answer ends. */
  datatype Stop =
    | Got(msg: Message)
    | Broken(error: FrameError)
    | Silent

  datatype Waited = Waited(stop: Stop, rest: seq<Report>)

  datatype Outcome =
    | Reply(data: seq<byte>)
    | Refused(code: byte)
    | OtherCommand(got: byte)
    | BadFraming(error: FrameError)
    | NoAnswer
    | TooLongToSend
    | CannotSend

  /** Waits with a reassembler in state s: other channels' reports and keepalives are passed over. */
  function Await(s: State, inbox: seq<Report>): Waited
    decreases |inbox|
  {
    if inbox == [] then Waited(Silent, [])
    else
      var step := Feed(s, inbox[0]);
      match step.event
      case Rejected(e) => if e.WrongChannel? then Await(step.state, inbox[1..]) else Waited(Broken(e), inbox[1..])
      case Pending => Await(step.state, inbox[1..])
      case Done(m) => if m.cmd == CMD_KEEPALIVE then Await(step.state, inbox[1..]) else Waited(Got(m), inbox[1..])
  }

  function Judge(cmd: byte, stop: Stop): Outcome {
    match stop
    case Silent => NoAnswer
    case Broken(e) => BadFraming(e)
    case Got(m) =>
      if m.cmd == CMD_ERROR then Refused(if m.data == [] then 0 else m.data[0])
      else if m.cmd != cmd then OtherCommand(m.cmd)
      else Reply(m.data)
  }

  // --------------------------------------- the trace, seen from one channel

  /** The trace without the other channels' reports. */
  function Own(ch: uint32, inbox: seq<Report>): seq<Report> {
    if inbox == [] then []
    else (if Foreign(ch, inbox[0]) then [] else [inbox[0]]) + Own(ch, inbox[1..])
  }

  predicate Ends(e: Event) {
    e.Rejected? || (e.Done? && e.msg.cmd != CMD_KEEPALIVE)
  }

  function StopAt(e: Event): Stop
    requires Ends(e)
  {
    if e.Rejected? then Broken(e.error) else Got(e.msg)
  }

  /** The first event that ends the waiting is the last of them all. */
  ghost predicate EndsWith(events: seq<Event>, e: Event) {
    && events != [] && events[|events| - 1] == e && Ends(e)
    && forall i | 0 <= i < |events| - 1 :: !Ends(events[i])
  }

  /** The channel's own reports among those consumed are taken without an error, completing nothing
      but keepalives, until the last one, which brings event e. */
  ghost predicate AnsweredBy(s: State, consumed: seq<Report>, e: Event) {
    && consumed != [] && !Foreign(s.channel, consumed[|consumed| - 1])
    && EndsWith(Events(s, Own(s.channel, consumed)), e)
  }

  lemma {:induction false} AwaitLeavesASuffix(s: State, inbox: seq<Report>)
    ensures var w := Await(s, inbox);
            && |w.rest| <= |inbox| && w.rest == inbox[|inbox| - |w.rest|..]
            && (w.stop.Silent? ==> w.rest == [])
            && (!w.stop.Silent? ==> |w.rest| < |inbox| && !Foreign(s.channel, inbox[|inbox| - |w.rest| - 1]))
    decreases |inbox|
  {
    if inbox != [] {
      AwaitLeavesASuffix(Feed(s, inbox[0]).state, inbox[1..]);
    }
  }

  lemma OwnStep(s: State, r: Report, rest: seq<Report>)
    ensures Foreign(s.channel, r) ==> Own(s.channel, [r] + rest) == Own(s.channel, rest)
    ensures !Foreign(s.channel, r) ==>
              Events(s, Own(s.channel, [r] + rest)) == [Feed(s, r).event] + Events(Feed(s, r).state, Own(s.channel, rest))
  {
    assert ([r] + rest)[1..] == rest;
    if !Foreign(s.channel, r) {
      assert Own(s.channel, [r] + rest) == [r] + Own(s.channel, rest);
      assert ([r] + Own(s.channel, rest))[1..] == Own(s.channel, rest);
    }
  }

  /** AnsweredBy, one report further back. */
  lemma AnsweredStep(s: State, r: Report, rest: seq<Report>, e: Event)
    ensures AnsweredBy(s, [r] + rest, e) <==>
            if Foreign(s.channel, r) || !Ends(Feed(s, r).event) then AnsweredBy(Feed(s, r).state, rest, e)
            else rest == [] && e == Feed(s, r).event
  {
    OwnStep(s, r, rest);
    var events := Events(Feed(s, r).state, Own(s.channel, rest));
    if rest == [] {
      assert events == [];
    } else {
      assert ([r] + rest)[|rest|] == rest[|rest| - 1];
      if !Foreign(s.channel, rest[|rest| - 1]) {
        LastIsOwn(s.channel, rest);
        assert events != [];
        if !Foreign(s.channel, r) {
          FirstAndRest(Feed(s, r).event, events, e);
        }
      }
    }
  }

  lemma FirstAndRest(first: Event, events: seq<Event>, e: Event)
    requires events != []
    ensures EndsWith([first] + events, e) <==> !Ends(first) && EndsWith(events, e)
  {
    var all := [first] + events;
    assert all[0] == first && forall i | 0 <= i < |events| :: all[i + 1] == events[i];
  }

  lemma {:induction false} LastIsOwn(ch: uint32, inbox: seq<Report>)
    requires inbox != [] && !Foreign(ch, inbox[|inbox| - 1])
    ensures Own(ch, inbox) != []
  {
    if |inbox| > 1 {
      LastIsOwn(ch, inbox[1..]);
    }
  }

  /** The receive loop, described by the trace alone: it ends at event e after n reports exactly when
      those n reports, other channels' traffic left out, lead to e through keepalives only. */
  lemma {:induction false} AwaitStopsIff(s: State, inbox: seq<Report>, n: nat, e: Event)
    requires n <= |inbox| && Ends(e) && e != Rejected(WrongChannel)
    ensures Await(s, inbox) == Waited(StopAt(e), inbox[n..]) <==> AnsweredBy(s, inbox[..n], e)
    decreases |inbox|
  {
    if n == 0 {
      AwaitLeavesASuffix(s, inbox);
    } else {
      var r, rest := inbox[0], inbox[1..];
      var step := Feed(s, r);
      assert inbox[..n] == [r] + rest[..n - 1] && inbox[n..] == rest[n - 1..];
      AnsweredStep(s, r, rest[..n - 1], e);
      AwaitStep(s, inbox);
      if Foreign(s.channel, r) || !Ends(step.event) {
        AwaitStopsIff(step.state, rest, n - 1, e);
      } else {
        StopsHere(step.event, e, rest, n - 1);
      }
    }
  }

  lemma StopsHere(now: Event, e: Event, rest: seq<Report>, n: nat)
    requires Ends(now) && Ends(e) && n <= |rest|
    ensures Waited(StopAt(now), rest) == Waited(StopAt(e), rest[n..]) <==> rest[..n] == [] && e == now
  {
    if n > 0 {
      assert |rest[n..]| < |rest|;
    } else {
      assert rest[n..] == rest;
    }
  }

  lemma AwaitStep(s: State, inbox: seq<Report>)
    requires inbox != []
    ensures var step := Feed(s, inbox[0]);
            Await(s, inbox) ==
            if Foreign(s.channel, inbox[0]) || !Ends(step.event) then Await(step.state, inbox[1..])
            else Waited(StopAt(step.event), inbox[1..])
    ensures Foreign(s.channel, inbox[0]) <==> Feed(s, inbox[0]).event == Rejected(WrongChannel)
  {
  }

  /** The first n reports of the trace bring the channel keepalives and then m. */
  ghost predicate BringsAfter(ch: uint32, inbox: seq<Report>, n: nat, m: Message) {
    n <= |inbox| && AnsweredBy(Fresh(ch), inbox[..n], Done(m))
  }

  lemma GotIff(ch: uint32, inbox: seq<Report>, m: Message)
    ensures Await(Fresh(ch), inbox).stop == Got(m) <==> exists n :: BringsAfter(ch, inbox, n, m)
  {
    var w := Await(Fresh(ch), inbox);
    if w.stop == Got(m) {
      AwaitLeavesASuffix(Fresh(ch), inbox);
      GotIsAMessage(Fresh(ch), inbox);
      AwaitStopsIff(Fresh(ch), inbox, |inbox| - |w.rest|, Done(m));
      assert BringsAfter(ch, inbox, |inbox| - |w.rest|, m);
    }
    forall n | BringsAfter(ch, inbox, n, m) ensures w.stop == Got(m) {
      AwaitStopsIff(Fresh(ch), inbox, n, Done(m));
    }
  }

  /** Exactly when a request for cmd is answered with d: some beginning of the trace brings the channel
      keepalives, then a message under that very command with that data; never for the two commands
      that mean "still working" and "refused". */
  lemma ReplyIff(ch: uint32, cmd: byte, inbox: seq<Report>, d: seq<byte>)
    ensures Judge(cmd, Await(Fresh(ch), inbox).stop) == Reply(d) <==>
            && cmd != CMD_KEEPALIVE && cmd != CMD_ERROR
            && exists n: nat, m: Message :: m.cmd == cmd && m.data == d && BringsAfter(ch, inbox, n, m)
  {
    var stop := Await(Fresh(ch), inbox).stop;
    if stop.Got? {
      GotIff(ch, inbox, stop.msg);
      GotIsAMessage(Fresh(ch), inbox);
    }
    forall n: nat, m: Message | BringsAfter(ch, inbox, n, m) ensures stop == Got(m) {
      GotIff(ch, inbox, m);
    }
  }

  /** Its other outcomes, each by what the trace brings: nothing but keepalives and unfinished messages; a
      report of the channel that is not taken; a refusal (0x3F) and its code; a message under another
      command. */
  lemma OutcomeIff(ch: uint32, cmd: byte, inbox: seq<Report>)
    ensures var o := Judge(cmd, Await(Fresh(ch), inbox).stop);
            && (o == NoAnswer <==> forall e | e in Events(Fresh(ch), Own(ch, inbox)) :: !Ends(e))
            && (forall e | e != WrongChannel :: o == BadFraming(e) <==> exists n: nat :: RejectsAfter(ch, inbox, n, e))
            && (forall code :: o == Refused(code) <==>
                  exists n: nat, m: Message :: BringsAfter(ch, inbox, n, m) && m.cmd == 0x3F && code == if m.data == [] then 0 else m.data[0])
            && (forall got :: o == OtherCommand(got) <==>
                  got != cmd && got != 0x3F && got != 0x3B && exists n: nat, m: Message :: BringsAfter(ch, inbox, n, m) && m.cmd == got)
            && !o.TooLongToSend? && !o.CannotSend?
  {
    var stop := Await(Fresh(ch), inbox).stop;
    AwaitIsSilentIff(Fresh(ch), inbox);
    forall e | e != WrongChannel ensures Judge(cmd, stop) == BadFraming(e) <==> exists n: nat :: RejectsAfter(ch, inbox, n, e) {
      BrokenIff(ch, inbox, e);
    }
    if stop.Got? {
      GotIff(ch, inbox, stop.msg);
      GotIsAMessage(Fresh(ch), inbox);
    }
    forall n: nat, m: Message | BringsAfter(ch, inbox, n, m) ensures stop == Got(m) {
      GotIff(ch, inbox, m);
    }
  }

  ghost predicate RejectsAfter(ch: uint32, inbox: seq<Report>, n: nat, e: FrameError) {
    n <= |inbox| && AnsweredBy(Fresh(ch), inbox[..n], Rejected(e))
  }

  lemma BrokenIff(ch: uint32, inbox: seq<Report>, e: FrameError)
    requires e != WrongChannel
    ensures Await(Fresh(ch), inbox).stop == Broken(e) <==> exists n: nat :: RejectsAfter(ch, inbox, n, e)
  {
    var w := Await(Fresh(ch), inbox);
    if w.stop == Broken(e) {
      AwaitLeavesASuffix(Fresh(ch), inbox);
      AwaitStopsIff(Fresh(ch), inbox, |inbox| - |w.rest|, Rejected(e));
      assert RejectsAfter(ch, inbox, |inbox| - |w.rest|, e);
    }
    forall n: nat | RejectsAfter(ch, inbox, n, e) ensures w.stop == Broken(e) {
      AwaitStopsIff(Fresh(ch), inbox, n, Rejected(e));
    }
  }

  lemma {:induction false} GotIsAMessage(s: State, inbox: seq<Report>)
    ensures Await(s, inbox).stop.Got? ==> Await(s, inbox).stop.msg.cmd != CMD_KEEPALIVE
    decreases |inbox|
  {
    if inbox != [] {
      GotIsAMessage(Feed(s, inbox[0]).state, inbox[1..]);
    }
  }

  /** It ends in silence exactly when the whole trace brings the channel nothing but keepalives and
      the beginning of a message. */
  lemma {:induction false} AwaitIsSilentIff(s: State, inbox: seq<Report>)
    ensures Await(s, inbox).stop.Silent? <==> forall e | e in Events(s, Own(s.channel, inbox)) :: !Ends(e)
    decreases |inbox|
  {
    if inbox != [] {
      var step := Feed(s, inbox[0]);
      assert inbox == [inbox[0]] + inbox[1..];
      OwnStep(s, inbox[0], inbox[1..]);
      if Foreign(s.channel, inbox[0]) || !Ends(step.event) {
        AwaitIsSilentIff(step.state, inbox[1..]);
      } else {
        assert Events(s, Own(s.channel, inbox))[0] == step.event;
      }
    }
  }

  /** The trace and the trace without foreign reports answer alike, and leave alike. */
  lemma {:induction false} AwaitIgnoresForeign(s: State, inbox: seq<Report>)
    ensures Await(s, inbox).stop == Await(s, Own(s.channel, inbox)).stop
    ensures Own(s.channel, Await(s, inbox).rest) == Await(s, Own(s.channel, inbox)).rest
    decreases |inbox|
  {
    if inbox != [] {
      var r, rest := inbox[0], inbox[1..];
      AwaitIgnoresForeign(Feed(s, r).state, rest);
      if Foreign(s.channel, r) {
        assert Own(s.channel, inbox) == Own(s.channel, rest);
      } else {
        assert Own(s.channel, inbox)[0] == r && Own(s.channel, inbox)[1..] == Own(s.channel, rest);
      }
    }
  }

  // ------------------------------------------------------ runs of many calls

  /** One call on a key: its request, and how many of its packets the transport takes. */
  datatype Call = Call(cmd: byte, data: seq<byte>, accepts: nat)

  predicate Whole(ch: uint32, c: Call) {
    |c.data| <= MAX_MESSAGE && c.accepts >= |Cut(ch, c.cmd, c.data)|
  }

  function SentBy(ch: uint32, c: Call): seq<Report> {
    if |c.data| > MAX_MESSAGE then []
    else Cut(ch, c.cmd, c.data)[..Min(c.accepts, |Cut(ch, c.cmd, c.data)|)]
  }

  datatype Called = Called(outcome: Outcome, rest: seq<Report>)

  function RoundTrip(ch: uint32, c: Call, inbox: seq<Report>): Called {
    if |c.data| > MAX_MESSAGE then Called(TooLongToSend, inbox)
    else if !Whole(ch, c) then Called(CannotSend, inbox)
    else Called(Judge(c.cmd, Await(Fresh(ch), inbox).stop), Await(Fresh(ch), inbox).rest)
  }

  function Outcomes(ch: uint32, calls: seq<Call>, inbox: seq<Report>): seq<Outcome> {
    if calls == [] then []
    else
      var called := RoundTrip(ch, calls[0], inbox);
      [called.outcome] + Outcomes(ch, calls[1..], called.rest)
  }

  function Rest(ch: uint32, calls: seq<Call>, inbox: seq<Report>): seq<Report> {
    if calls == [] then inbox else Rest(ch, calls[1..], RoundTrip(ch, calls[0], inbox).rest)
  }

  function SentLog(ch: uint32, calls: seq<Call>): seq<Report> {
    if calls == [] then [] else SentBy(ch, calls[0]) + SentLog(ch, calls[1..])
  }

  lemma OneCall(ch: uint32, c: Call, inbox: seq<Report>)
    ensures Outcomes(ch, [c], inbox) == [RoundTrip(ch, c, inbox).outcome]
    ensures Rest(ch, [c], inbox) == RoundTrip(ch, c, inbox).rest
    ensures SentLog(ch, [c]) == SentBy(ch, c)
  {
    assert [c][1..] == [];
    assert Outcomes(ch, [], RoundTrip(ch, c, inbox).rest) == [];
    assert Outcomes(ch, [c], inbox) == [RoundTrip(ch, c, inbox).outcome] + [];
    assert SentLog(ch, [c]) == SentBy(ch, c) + [];
  }

  lemma {:induction false} SentLogConcat(ch: uint32, first: seq<Call>, next: seq<Call>)
    ensures SentLog(ch, first + next) == SentLog(ch, first) + SentLog(ch, next)
    decreases |first|
  {
    if first == [] {
      assert first + next == next;
    } else {
      assert (first + next)[0] == first[0] && (first + next)[1..] == first[1..] + next;
      SentLogConcat(ch, first[1..], next);
    }
  }

  /** A session goes on where its first calls left off. */
  lemma {:induction false} SessionConcat(ch: uint32, first: seq<Call>, next: seq<Call>, inbox: seq<Report>)
    ensures Outcomes(ch, first + next, inbox) == Outcomes(ch, first, inbox) + Outcomes(ch, next, Rest(ch, first, inbox))
    ensures Rest(ch, first + next, inbox) == Rest(ch, next, Rest(ch, first, inbox))
    decreases |first|
  {
    if first == [] {
      assert first + next == next;
    } else {
      var rest := RoundTrip(ch, first[0], inbox).rest;
      SessionConcat(ch, first[1..], next, rest);
      SessionStep(ch, first[0], first[1..] + next, inbox);
      SessionStep(ch, first[0], first[1..], inbox);
      assert first + next == [first[0]] + (first[1..] + next) && first == [first[0]] + first[1..];
    }
  }

  lemma SessionStep(ch: uint32, c: Call, more: seq<Call>, inbox: seq<Report>)
    ensures var rest := RoundTrip(ch, c, inbox).rest;
            && Outcomes(ch, [c] + more, inbox) == [RoundTrip(ch, c, inbox).outcome] + Outcomes(ch, more, rest)
            && Rest(ch, [c] + more, inbox) == Rest(ch, more, rest)
  {
    assert ([c] + more)[1..] == more;
  }

  /** One more call at the end of a session. */
  lemma OneMoreCall(ch: uint32, calls: seq<Call>, c: Call, inbox: seq<Report>)
    ensures Outcomes(ch, calls + [c], inbox) == Outcomes(ch, calls, inbox) + [RoundTrip(ch, c, Rest(ch, calls, inbox)).outcome]
    ensures Rest(ch, calls + [c], inbox) == RoundTrip(ch, c, Rest(ch, calls, inbox)).rest
    ensures SentLog(ch, calls + [c]) == SentLog(ch, calls) + SentBy(ch, c)
  {
    SessionConcat(ch, calls, [c], inbox);
    SentLogConcat(ch, calls, [c]);
    OneCall(ch, c, Rest(ch, calls, inbox));
  }

  /** What a device owes for one request: any number of keepalives, then one message. */
  datatype Answer = Answer(keepalives: seq<seq<byte>>, cmd: byte, data: seq<byte>)

  predicate Proper(a: Answer) {
    && a.cmd < 0x80 && a.cmd != CMD_KEEPALIVE && |a.data| <= MAX_MESSAGE
    && forall i | 0 <= i < |a.keepalives| :: |a.keepalives[i]| <= MAX_MESSAGE
  }

  function AnswerFrames(ch: uint32, a: Answer): seq<Report>
    decreases |a.keepalives|
  {
    if a.keepalives == [] then Cut(ch, a.cmd, a.data)
    else Cut(ch, CMD_KEEPALIVE, a.keepalives[0]) + AnswerFrames(ch, a.(keepalives := a.keepalives[1..]))
  }

  function AllFrames(ch: uint32, answers: seq<Answer>): seq<Report> {
    if answers == [] then [] else AnswerFrames(ch, answers[0]) + AllFrames(ch, answers[1..])
  }

  /** The requests that reach the device, in order. */
  function Delivered(ch: uint32, calls: seq<Call>): seq<Message> {
    if calls == [] then []
    else
      (if Whole(ch, calls[0]) then [Message(ch, ClearHighBit(calls[0].cmd), calls[0].data)] else []) +
      Delivered(ch, calls[1..])
  }

  /** What an answer means to the caller who sent cmd: a refusal and its code, the data of an answer to
      that command, or an answer to something else. */
  function Due(cmd: byte, a: Answer): Outcome
    requires Proper(a)
  {
    if a.cmd == cmd && cmd != CMD_ERROR then Reply(a.data)
    else if a.cmd == CMD_ERROR then Refused((a.data + [0])[0])
    else OtherCommand(a.cmd)
  }

  /** What every call should return when the i-th request delivered is met with the i-th answer. */
  function Expected(ch: uint32, calls: seq<Call>, answers: seq<Answer>): seq<Outcome>
    requires |answers| == |Delivered(ch, calls)| && forall i | 0 <= i < |answers| :: Proper(answers[i])
  {
    if calls == [] then []
    else if Whole(ch, calls[0]) then
      [Due(calls[0].cmd, answers[0])] + Expected(ch, calls[1..], answers[1..])
    else
      [if |calls[0].data| > MAX_MESSAGE then TooLongToSend else CannotSend] + Expected(ch, calls[1..], answers)
  }

  lemma {:induction false} AwaitTakes(s: State, ps: seq<Report>, m: Message, tail: seq<Report>)
    requires ps != [] && Takes(s, ps, m)
    ensures Await(s, ps + tail) ==
            if m.cmd == CMD_KEEPALIVE then Await(Run(s, ps), tail) else Waited(Got(m), tail)
    decreases |ps|
  {
    assert (ps + tail)[1..] == ps[1..] + tail;
    if |ps| > 1 {
      AwaitTakes(Feed(s, ps[0]).state, ps[1..], m, tail);
    } else {
      assert ps[1..] + tail == tail;
    }
  }

  lemma AwaitCut(s: State, cmd: byte, data: seq<byte>, tail: seq<Report>)
    requires |data| <= MAX_MESSAGE && cmd < 0x80
    ensures var ps := Cut(s.channel, cmd, data);
            Await(s, ps + tail) ==
            if cmd == CMD_KEEPALIVE then Await(Run(s, ps), tail) else Waited(Got(Message(s.channel, cmd, data)), tail)
  {
    var ps := Cut(s.channel, cmd, data);
    SelfStabilises(s, cmd, data);
    TakesIsEvents(s, ps, Message(s.channel, cmd, data));
    AwaitTakes(s, ps, Message(s.channel, cmd, data), tail);
  }

  lemma {:induction false} AwaitAnswer(s: State, a: Answer, tail: seq<Report>)
    requires Proper(a)
    ensures Await(s, AnswerFrames(s.channel, a) + tail) == Waited(Got(Message(s.channel, a.cmd, a.data)), tail)
    decreases |a.keepalives|
  {
    if a.keepalives == [] {
      AwaitCut(s, a.cmd, a.data, tail);
    } else {
      var ps := Cut(s.channel, CMD_KEEPALIVE, a.keepalives[0]);
      var a' := a.(keepalives := a.keepalives[1..]);
      assert AnswerFrames(s.channel, a) + tail == ps + (AnswerFrames(s.channel, a') + tail);
      AwaitCut(s, CMD_KEEPALIVE, a.keepalives[0], AnswerFrames(s.channel, a') + tail);
      RunKeepsChannel(s, ps);
      AwaitAnswer(Run(s, ps), a', tail);
    }
  }

  /** Correlation over every session: if the device meets each request delivered to it with keepalives
      and one answer, under any interleaving with other channels' reports, then each call returns
      exactly its own answer's verdict, and the calls together use up exactly those answers. */
  lemma {:induction false} SessionCorrelates(ch: uint32, calls: seq<Call>, answers: seq<Answer>, inbox: seq<Report>, tail: seq<Report>)
    requires |answers| == |Delivered(ch, calls)|
    requires forall i | 0 <= i < |answers| :: Proper(answers[i])
    requires Own(ch, inbox) == AllFrames(ch, answers) + tail
    ensures Outcomes(ch, calls, inbox) == Expected(ch, calls, answers)
    ensures Own(ch, Rest(ch, calls, inbox)) == tail
    decreases |calls|
  {
    if calls != [] {
      if Whole(ch, calls[0]) {
        var after := AllFrames(ch, answers[1..]) + tail;
        assert Own(ch, inbox) == AnswerFrames(ch, answers[0]) + after;
        AwaitAnswer(Fresh(ch), answers[0], after);
        AwaitIgnoresForeign(Fresh(ch), inbox);
        SessionCorrelates(ch, calls[1..], answers[1..], RoundTrip(ch, calls[0], inbox).rest, tail);
      } else {
        SessionCorrelates(ch, calls[1..], answers, inbox, tail);
      }
    }
  }

  /** And on the device's side: from whatever state, it is handed exactly the requests that were sent
      whole, once each and in order; a request cut short by the transport delivers nothing and does not
      harm the next. */
  lemma {:induction false} DeviceReceives(s: State, calls: seq<Call>)
    ensures Outputs(s, SentLog(s.channel, calls)) == Delivered(s.channel, calls)
    decreases |calls|
  {
    if calls != [] {
      var c := calls[0];
      var sent := SentBy(s.channel, c);
      OutputsConcat(s, sent, SentLog(s.channel, calls[1..]));
      RunKeepsChannel(s, sent);
      DeviceReceives(Run(s, sent), calls[1..]);
      if Whole(s.channel, c) {
        assert sent == Cut(s.channel, c.cmd, c.data);
        CutDelivers(s, c.cmd, c.data);
      } else if |c.data| <= MAX_MESSAGE {
        PartialDeliversNothing(s, c.cmd, c.data, c.accepts);
      }
    }
  }

  // ------------------------------------------------------------ independence

  /** The trace without one channel's reports. */
  function Without(ch: uint32, inbox: seq<Report>): seq<Report> {
    if inbox == [] then []
    else (if OnChannel(ch, inbox[0]) then [] else [inbox[0]]) + Without(ch, inbox[1..])
  }

  lemma {:induction false} OwnOfWithout(ch: uint32, other: uint32, inbox: seq<Report>)
    requires ch != other
    ensures Own(ch, Without(other, inbox)) == Own(ch, inbox)
  {
    if inbox != [] {
      OwnOfWithout(ch, other, inbox[1..]);
      if OnChannel(other, inbox[0]) {
        assert Without(other, inbox) == Without(other, inbox[1..]);
        assert Own(ch, inbox) == Own(ch, inbox[1..]);
      } else {
        assert Without(other, inbox)[1..] == Without(other, inbox[1..]);
      }
    }
  }

  /** A session depends on its own channel's reports alone. */
  lemma {:induction false} SessionSeesOnlyItsChannel(ch: uint32, calls: seq<Call>, inbox: seq<Report>, inbox': seq<Report>)
    requires Own(ch, inbox) == Own(ch, inbox')
    ensures Outcomes(ch, calls, inbox) == Outcomes(ch, calls, inbox')
    ensures Own(ch, Rest(ch, calls, inbox)) == Own(ch, Rest(ch, calls, inbox'))
    decreases |calls|
  {
    if calls != [] {
      AwaitIgnoresForeign(Fresh(ch), inbox);
      AwaitIgnoresForeign(Fresh(ch), inbox');
      SessionSeesOnlyItsChannel(ch, calls[1..], RoundTrip(ch, calls[0], inbox).rest, RoundTrip(ch, calls[0], inbox').rest);
    }
  }
}
