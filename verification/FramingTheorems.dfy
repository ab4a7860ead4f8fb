/**
 * What cutting and reassembling promise each other: the packets of a message, and nothing else,
 * produce that message, from whatever state the receiver was left in and under any rejected noise.
 */
module FramingTheorems {
  import opened Bytes
  import opened Framing

  // ------------------------------------------------------------ the packets

  function ContCount(length: nat): nat {
    if length <= INIT_PAYLOAD then 0 else (length - INIT_PAYLOAD + CONT_PAYLOAD - 1) / CONT_PAYLOAD
  }

  lemma {:induction false} ContsCount(ch: uint32, number: nat, data: seq<byte>)
    ensures |Conts(ch, number, data)| == (|data| + CONT_PAYLOAD - 1) / CONT_PAYLOAD
    decreases |data|
  {
    if data != [] {
      ContsCount(ch, number + 1, data[Min(CONT_PAYLOAD, |data|)..]);
    }
  }

  lemma {:induction false} ContsShape(ch: uint32, number: nat, data: seq<byte>, i: nat)
    requires i < |Conts(ch, number, data)|
    ensures var p := Conts(ch, number, data)[i];
            |p| == REPORT_SIZE && OnChannel(ch, p) && p[4] == (number + i) % 0x100
    decreases i
  {
    var n := Min(CONT_PAYLOAD, |data|);
    if i == 0 {
      ReadCont(ch, number, data[..n]);
    } else {
      assert Conts(ch, number, data)[i] == Conts(ch, number + 1, data[n..])[i - 1];
      ContsShape(ch, number + 1, data[n..], i - 1);
    }
  }

  /** The packets of any message: how many, how long, on which channel, and what their fifth bytes say. */
  lemma CutShape(ch: uint32, cmd: byte, data: seq<byte>)
    ensures var ps := Cut(ch, cmd, data);
            && |ps| == 1 + ContCount(|data|)
            && IsInit(ch, ps[0])
            && (forall i | 0 <= i < |ps| :: |ps[i]| == REPORT_SIZE && OnChannel(ch, ps[i]))
            && (forall i | 1 <= i < |ps| :: ps[i][4] == (i - 1) % 0x100)
  {
    var n := Min(INIT_PAYLOAD, |data|);
    ReadInit(ch, cmd, |data|, data[..n]);
    ContsCount(ch, 0, data[n..]);
    var ps := Cut(ch, cmd, data);
    forall i | 1 <= i < |ps|
      ensures |ps[i]| == REPORT_SIZE && OnChannel(ch, ps[i]) && ps[i][4] == (i - 1) % 0x100
    {
      ContsShape(ch, 0, data[n..], i - 1);
      assert ps[i] == Conts(ch, 0, data[n..])[i - 1];
    }
  }

  ghost predicate NumbersStayClear(ch: uint32, ps: seq<Report>) {
    |ps| <= 1 + MAX_CONTINUATIONS && forall i | 1 <= i < |ps| :: IsCont(ch, ps[i]) && ps[i][4] == i - 1
  }

  lemma SmallNumber(n: nat)
    requires n < 0x100
    ensures n % 0x100 == n
  {
  }

  lemma WithinTheLimit(ch: uint32, cmd: byte, data: seq<byte>)
    requires |data| <= MAX_MESSAGE
    ensures NumbersStayClear(ch, Cut(ch, cmd, data))
  {
    CutShape(ch, cmd, data);
    CountIsWithinIff(|data|);
    var ps := Cut(ch, cmd, data);
    forall i | 1 <= i < |ps| ensures IsCont(ch, ps[i]) && ps[i][4] == i - 1 {
      SmallNumber(i - 1);
    }
  }

  lemma PastTheLimit(ch: uint32, cmd: byte, data: seq<byte>)
    requires |data| > MAX_MESSAGE
    ensures |Cut(ch, cmd, data)| > 1 + MAX_CONTINUATIONS && IsInit(ch, Cut(ch, cmd, data)[1 + MAX_CONTINUATIONS])
  {
    CutShape(ch, cmd, data);
    CountIsWithinIff(|data|);
    assert Cut(ch, cmd, data)[1 + MAX_CONTINUATIONS][4] == 0x80;
  }

  /** Within the limit every continuation is numbered by its index and reads as a continuation; past
      it, packet 129 carries 0x80 and reads as an initialisation packet. */
  lemma NumbersStayClearOfCommandsIff(ch: uint32, cmd: byte, data: seq<byte>)
    ensures |data| <= MAX_MESSAGE <==> NumbersStayClear(ch, Cut(ch, cmd, data))
    ensures |data| > MAX_MESSAGE ==>
              |Cut(ch, cmd, data)| > 1 + MAX_CONTINUATIONS && IsInit(ch, Cut(ch, cmd, data)[1 + MAX_CONTINUATIONS])
  {
    if |data| <= MAX_MESSAGE {
      WithinTheLimit(ch, cmd, data);
    } else {
      PastTheLimit(ch, cmd, data);
    }
  }

  lemma CountIsWithinIff(length: nat)
    ensures ContCount(length) <= MAX_CONTINUATIONS <==> length <= MAX_MESSAGE
  {
  }

  // ------------------------------------------------------ self-stabilisation

  lemma FeedCont(s: State, payload: seq<byte>)
    requires s.started && s.next < MAX_CONTINUATIONS && |payload| <= CONT_PAYLOAD
    ensures Feed(s, ContPacket(s.channel, s.next, payload)) ==
            Finish(s.(next := s.next + 1,
                      msg := s.msg.(data := s.msg.data + (payload + Zeros(CONT_PAYLOAD - |payload|)))))
  {
    ReadCont(s.channel, s.next, payload);
  }

  lemma LastConts(ch: uint32, number: nat, data: seq<byte>)
    requires 0 < |data| <= CONT_PAYLOAD
    ensures Conts(ch, number, data) == [ContPacket(ch, number, data)]
  {
    assert data[..|data|] == data && data[|data|..] == [];
  }

  lemma Trimmed(had: seq<byte>, data: seq<byte>, padding: seq<byte>)
    ensures (had + (data + padding))[..|had| + |data|] == had + data
  {
  }

  lemma FeedLastCont(s: State, data: seq<byte>)
    requires s.started && 0 < |data| <= CONT_PAYLOAD && |s.msg.data| + |data| == s.want && s.next < MAX_CONTINUATIONS
    ensures Feed(s, ContPacket(s.channel, s.next, data)).event == Done(s.msg.(data := s.msg.data + data))
  {
    FeedCont(s, data);
    Trimmed(s.msg.data, data, Zeros(CONT_PAYLOAD - |data|));
  }

  lemma FeedFullCont(s: State, here: seq<byte>)
    requires s.started && |here| == CONT_PAYLOAD && |s.msg.data| + CONT_PAYLOAD < s.want && s.next < MAX_CONTINUATIONS
    ensures Feed(s, ContPacket(s.channel, s.next, here)) ==
            Step(s.(next := s.next + 1, msg := s.msg.(data := s.msg.data + here)), Pending)
  {
    FeedCont(s, here);
    assert here + Zeros(0) == here;
  }

  lemma LastContTaken(s: State, data: seq<byte>, whole: Message)
    requires s.started && 0 < |data| <= CONT_PAYLOAD && |s.msg.data| + |data| == s.want && s.next < MAX_CONTINUATIONS
    requires whole == s.msg.(data := s.msg.data + data)
    ensures Conts(s.channel, s.next, data) != [] && Takes(s, Conts(s.channel, s.next, data), whole)
  {
    LastConts(s.channel, s.next, data);
    FeedLastCont(s, data);
  }

  /** The state after a continuation that does not bring the last of the data. */
  function Continued(s: State, here: seq<byte>): State {
    s.(next := s.next + 1, msg := s.msg.(data := s.msg.data + here))
  }

  lemma MoreContsTaken(s: State, data: seq<byte>, whole: Message)
    requires s.started && |data| > CONT_PAYLOAD && |s.msg.data| + |data| == s.want && s.next < MAX_CONTINUATIONS
    requires var more := Conts(s.channel, s.next + 1, data[CONT_PAYLOAD..]);
             more != [] && Takes(Continued(s, data[..CONT_PAYLOAD]), more, whole)
    ensures Conts(s.channel, s.next, data) != [] && Takes(s, Conts(s.channel, s.next, data), whole)
  {
    var here := data[..CONT_PAYLOAD];
    FeedFullCont(s, here);
    MoreConts(s.channel, s.next, data);
    TakesStep(s, ContPacket(s.channel, s.next, here), Conts(s.channel, s.next + 1, data[CONT_PAYLOAD..]), whole);
  }

  lemma Regroup(a: seq<byte>, b: seq<byte>, n: nat)
    requires n <= |b|
    ensures (a + b[..n]) + b[n..] == a + b
  {
  }

  /** Each continuation carries 59 bytes, so the numbers still unused bound what may follow. */
  lemma {:induction false} FeedConts(s: State, data: seq<byte>, whole: Message)
    requires s.started && data != [] && |s.msg.data| + |data| == s.want
    requires |data| + 59 * s.next <= MAX_MESSAGE - INIT_PAYLOAD
    requires whole == s.msg.(data := s.msg.data + data)
    ensures Conts(s.channel, s.next, data) != [] && Takes(s, Conts(s.channel, s.next, data), whole)
    decreases |data|
  {
    if |data| <= CONT_PAYLOAD {
      LastContTaken(s, data, whole);
    } else {
      Regroup(s.msg.data, data, CONT_PAYLOAD);
      FeedConts(Continued(s, data[..CONT_PAYLOAD]), data[CONT_PAYLOAD..], whole);
      MoreContsTaken(s, data, whole);
    }
  }

  lemma MoreConts(ch: uint32, number: nat, data: seq<byte>)
    requires |data| > CONT_PAYLOAD
    ensures Conts(ch, number, data) ==
            [ContPacket(ch, number, data[..CONT_PAYLOAD])] + Conts(ch, number + 1, data[CONT_PAYLOAD..])
  {
  }

  lemma TakesStep(s: State, p: Report, more: seq<Report>, m: Message)
    requires more != [] && Feed(s, p).event == Pending && Takes(Feed(s, p).state, more, m)
    ensures Takes(s, [p] + more, m)
  {
    assert ([p] + more)[1..] == more;
  }

  lemma FeedInit(s: State, cmd: byte, data: seq<byte>)
    requires |data| <= MAX_MESSAGE
    ensures var n := Min(INIT_PAYLOAD, |data|);
            Feed(s, InitPacket(s.channel, cmd, |data|, data[..n])) ==
            var begun := State(s.channel, Message(s.channel, ClearHighBit(cmd), data[..n] + Zeros(INIT_PAYLOAD - n)), |data|, 0, true);
            if n < |data| then Step(begun, Pending)
            else Step(begun.(started := false), Done(Message(s.channel, ClearHighBit(cmd), data)))
  {
    var n := Min(INIT_PAYLOAD, |data|);
    ReadInit(s.channel, cmd, |data|, data[..n]);
    if n == |data| {
      assert (data[..n] + Zeros(INIT_PAYLOAD - n))[..|data|] == data;
    }
  }

  /** From ANY state of a receiver on the channel, the packets of a message are taken one by one,
      complete exactly with the last of them, and give back that message. */
  lemma SelfStabilises(s: State, cmd: byte, data: seq<byte>)
    requires |data| <= MAX_MESSAGE
    ensures var ps := Cut(s.channel, cmd, data);
            Events(s, ps) == Pendings(|ps| - 1) + [Done(Message(s.channel, ClearHighBit(cmd), data))]
  {
    var n := Min(INIT_PAYLOAD, |data|);
    var ps := Cut(s.channel, cmd, data);
    var whole := Message(s.channel, ClearHighBit(cmd), data);
    FeedInit(s, cmd, data);
    if n < |data| {
      var begun := Feed(s, ps[0]).state;
      assert Zeros(INIT_PAYLOAD - n) == [];
      assert begun.msg.data == data[..n];
      assert data[..n] + data[n..] == data;
      FeedConts(begun, data[n..], whole);
      assert ps[1..] == Conts(s.channel, 0, data[n..]);
    }
    TakesIsEvents(s, ps, whole);
  }

  lemma CutDelivers(s: State, cmd: byte, data: seq<byte>)
    requires |data| <= MAX_MESSAGE
    ensures Outputs(s, Cut(s.channel, cmd, data)) == [Message(s.channel, ClearHighBit(cmd), data)]
  {
    SelfStabilises(s, cmd, data);
    CompletedPendings(|Cut(s.channel, cmd, data)| - 1, Message(s.channel, ClearHighBit(cmd), data));
  }

  /** A request whose sending stopped early delivers nothing. */
  lemma PartialDeliversNothing(s: State, cmd: byte, data: seq<byte>, k: nat)
    requires |data| <= MAX_MESSAGE && k < |Cut(s.channel, cmd, data)|
    ensures Outputs(s, Cut(s.channel, cmd, data)[..k]) == []
  {
    var ps := Cut(s.channel, cmd, data);
    SelfStabilises(s, cmd, data);
    RunConcat(s, ps[..k], ps[k..]);
    assert ps == ps[..k] + ps[k..];
    assert Events(s, ps[..k]) == Pendings(k) by {
      assert Events(s, ps[..k]) == Events(s, ps)[..k];
      assert (Pendings(|ps| - 1) + [Done(Message(s.channel, ClearHighBit(cmd), data))])[..k] == Pendings(k);
    }
    CompletedPendings(k, Message(s.channel, cmd, data));
  }

  // ----------------------------------------------------------------- bounds

  /** What holds between calls of a receiver fed reports of at most 64 bytes. */
  predicate Bounded(s: State) {
    && s.next <= MAX_CONTINUATIONS
    && |s.msg.data| <= INIT_PAYLOAD + CONT_PAYLOAD * s.next
    && (s.started ==> |s.msg.data| < s.want && s.msg.channel == s.channel && s.msg.cmd < 0x80)
  }

  predicate ReportSized(trace: seq<Report>) {
    forall i | 0 <= i < |trace| :: |trace[i]| <= REPORT_SIZE
  }

  lemma FeedBounded(s: State, r: Report)
    requires Bounded(s) && |r| <= REPORT_SIZE
    ensures Bounded(Feed(s, r).state)
    ensures Feed(s, r).event.Done? ==> Fits(s.channel, Feed(s, r).event.msg)
  {
  }

  predicate Fits(ch: uint32, m: Message) {
    m.channel == ch && m.cmd < 0x80 && |m.data| <= MAX_MESSAGE
  }

  /** Whatever reports of at most 64 bytes arrive, the buffer and the counter stay within the framing's
      limits, and no message of more than 7609 bytes ever comes out. */
  lemma {:induction false} RunBounded(s: State, trace: seq<Report>)
    requires Bounded(s) && ReportSized(trace)
    ensures Bounded(Run(s, trace))
    ensures forall m | m in Outputs(s, trace) :: Fits(s.channel, m)
    decreases |trace|
  {
    if trace != [] {
      FeedBounded(s, trace[0]);
      RunBounded(Feed(s, trace[0]).state, trace[1..]);
    }
  }

  /** A message announced longer than 7609 bytes never completes, however many continuations follow. */
  lemma {:induction false} OverlongNeverCompletes(s: State, trace: seq<Report>)
    requires Bounded(s) && s.started && s.want > MAX_MESSAGE && ReportSized(trace)
    requires forall i | 0 <= i < |trace| :: !IsInit(s.channel, trace[i])
    ensures Outputs(s, trace) == [] && Run(s, trace).started
    decreases |trace|
  {
    if trace != [] {
      FeedBounded(s, trace[0]);
      OverlongNeverCompletes(Feed(s, trace[0]).state, trace[1..]);
    }
  }

  /** And the next message after such an announcement is received all the same. */
  lemma OverlongIsRecoveredFrom(s: State, trace: seq<Report>, cmd: byte, data: seq<byte>)
    requires Bounded(s) && s.started && s.want > MAX_MESSAGE && ReportSized(trace)
    requires forall i | 0 <= i < |trace| :: !IsInit(s.channel, trace[i])
    requires |data| <= MAX_MESSAGE
    ensures Outputs(s, trace + Cut(s.channel, cmd, data)) == [Message(s.channel, ClearHighBit(cmd), data)]
  {
    OverlongNeverCompletes(s, trace);
    OutputsConcat(s, trace, Cut(s.channel, cmd, data));
    RunKeepsChannel(s, trace);
    CutDelivers(Run(s, trace), cmd, data);
  }

  /** The first packet of a message makes every receiver alike. */
  lemma CutForgetsThePast(s: State, cmd: byte, data: seq<byte>)
    ensures Outputs(s, Cut(s.channel, cmd, data)) == Outputs(Fresh(s.channel), Cut(s.channel, cmd, data))
  {
    CutShape(s.channel, cmd, data);
    var p := Cut(s.channel, cmd, data)[0];
    assert Feed(s, p) == Feed(Fresh(s.channel), p);
  }

  /** Exactly which messages survive the cutting loop (run without its length guard), from any state of
      the receiver: those of at most 7609 bytes under a command below 0x80. */
  lemma RoundTripIff(s: State, cmd: byte, data: seq<byte>)
    ensures Outputs(s, Cut(s.channel, cmd, data)) == [Message(s.channel, cmd, data)]
            <==> |data| <= MAX_MESSAGE && cmd < 0x80
  {
    var ps := Cut(s.channel, cmd, data);
    if |data| <= MAX_MESSAGE {
      CutDelivers(s, cmd, data);
    } else {
      CutShape(s.channel, cmd, data);
      CutForgetsThePast(s, cmd, data);
      RunBounded(Fresh(s.channel), ps);
      var m := Message(s.channel, cmd, data);
      assert m !in Outputs(s, ps) && m in [m];
    }
  }

  // ------------------------------------------------------------------ noise

  /** The messages of a trace, and the state it leaves, depend on the accepted reports alone. */
  lemma {:induction false} OnlyAcceptedMatters(s: State, trace: seq<Report>)
    ensures Outputs(s, trace) == Outputs(s, Accepted(s, trace))
    ensures Run(s, trace) == Run(s, Accepted(s, trace))
    decreases |trace|
  {
    if trace != [] {
      var step := Feed(s, trace[0]);
      var rest := Accepted(step.state, trace[1..]);
      OnlyAcceptedMatters(step.state, trace[1..]);
      if step.event.Rejected? {
        assert Accepted(s, trace) == rest;
        assert Outputs(s, trace) == Outputs(step.state, trace[1..]);
      } else {
        assert Accepted(s, trace)[0] == trace[0] && Accepted(s, trace)[1..] == rest;
        var head := if step.event.Done? then [step.event.msg] else [];
        assert Outputs(s, trace) == head + Outputs(step.state, trace[1..]);
        assert Outputs(s, Accepted(s, trace)) == head + Outputs(step.state, rest);
      }
    }
  }

  /** The packets of a list of messages, one message after another. */
  function Frames(ms: seq<Message>): seq<Report> {
    if ms == [] then [] else Cut(ms[0].channel, ms[0].cmd, ms[0].data) + Frames(ms[1..])
  }

  lemma {:induction false} FramesDeliver(s: State, ms: seq<Message>)
    requires forall i | 0 <= i < |ms| :: Fits(s.channel, ms[i])
    ensures Outputs(s, Frames(ms)) == ms
    decreases |ms|
  {
    if ms != [] {
      var ps := Cut(s.channel, ms[0].cmd, ms[0].data);
      CutDelivers(s, ms[0].cmd, ms[0].data);
      OutputsConcat(s, ps, Frames(ms[1..]));
      RunKeepsChannel(s, ps);
      FramesDeliver(Run(s, ps), ms[1..]);
    }
  }

  /** A stream of messages comes out whole and in order from any trace whose accepted reports are its
      packets: rejected reports may stand anywhere among them. */
  lemma StreamSurvivesNoise(s: State, ms: seq<Message>, trace: seq<Report>)
    requires forall i | 0 <= i < |ms| :: Fits(s.channel, ms[i])
    requires Accepted(s, trace) == Frames(ms)
    ensures Outputs(s, trace) == ms
  {
    OnlyAcceptedMatters(s, trace);
    FramesDeliver(s, ms);
  }

  /** Reports rejected in every state: too short, for another channel, or half an initialisation header. */
  lemma AlwaysRejected(s: State, r: Report)
    ensures (forall t: State | t.channel == s.channel :: Feed(t, r).event.Rejected?)
            <==> |r| < 5 || Foreign(s.channel, r) || (HasHighBit(r[4]) && |r| < 7)
  {
    if |r| >= 5 && !Foreign(s.channel, r) && !(HasHighBit(r[4]) && |r| < 7) {
      var t := State(s.channel, s.msg, 0, r[4], true);
      assert !Feed(t, r).event.Rejected?;
    }
  }

  lemma {:induction false} NumbersOnlyGrow(s: State, trace: seq<Report>)
    requires forall i | 0 <= i < |trace| :: !IsInit(s.channel, trace[i])
    ensures Run(s, trace).next >= s.next
    decreases |trace|
  {
    if trace != [] {
      NumbersOnlyGrow(Feed(s, trace[0]).state, trace[1..]);
    }
  }

  /** A continuation that was accepted once is rejected whenever it comes again, until a new message begins. */
  lemma DuplicateIsRejected(s: State, r: Report, trace: seq<Report>)
    requires IsCont(s.channel, r) && !Feed(s, r).event.Rejected?
    requires forall i | 0 <= i < |trace| :: !IsInit(s.channel, trace[i])
    ensures Feed(Run(Feed(s, r).state, trace), r).event == Rejected(OutOfOrder)
  {
    NumbersOnlyGrow(Feed(s, r).state, trace);
    RunKeepsChannel(Feed(s, r).state, trace);
  }
}
