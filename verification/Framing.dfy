/**
 * CTAPHID framing as pure functions: cutting a message into reports, and the state machine that
 * takes reports one at a time and puts messages back together.
 */
module Framing {
  import opened Bytes

  const REPORT_SIZE := 64
  const INIT_PAYLOAD := REPORT_SIZE - 7
  const CONT_PAYLOAD := REPORT_SIZE - 5
  const MAX_CONTINUATIONS := 128
  const MAX_MESSAGE := INIT_PAYLOAD + MAX_CONTINUATIONS * CONT_PAYLOAD

  const BROADCAST: uint32 := 0xFFFF_FFFF
  const CMD_INIT: byte := 0x06
  const CMD_CBOR: byte := 0x10
  const CMD_KEEPALIVE: byte := 0x3B
  const CMD_ERROR: byte := 0x3F

  type Report = seq<byte>

  datatype Message = Message(channel: uint32, cmd: byte, data: seq<byte>)

  datatype FrameError = ShortPacket | WrongChannel | OutOfOrder

  // ---------------------------------------------------------------- cutting

  function InitPacket(ch: uint32, cmd: byte, length: nat, payload: seq<byte>): (r: Report)
    requires |payload| <= INIT_PAYLOAD
    ensures |r| == REPORT_SIZE
  {
    PutUint32(ch) + [WithHighBit(cmd)] + PutUint16(length % 0x1_0000) + payload + Zeros(INIT_PAYLOAD - |payload|)
  }

  function ContPacket(ch: uint32, number: nat, payload: seq<byte>): (r: Report)
    requires |payload| <= CONT_PAYLOAD
    ensures |r| == REPORT_SIZE
  {
    PutUint32(ch) + [number % 0x100] + payload + Zeros(CONT_PAYLOAD - |payload|)
  }

  function Conts(ch: uint32, number: nat, data: seq<byte>): seq<Report>
    decreases |data|
  {
    if data == [] then []
    else
      var n := Min(CONT_PAYLOAD, |data|);
      [ContPacket(ch, number, data[..n])] + Conts(ch, number + 1, data[n..])
  }

  /** The packets the cutting loop produces for data of ANY length: the length field and the packet
      numbers are truncated to their widths, as the conversions in the loop truncate them. */
  function Cut(ch: uint32, cmd: byte, data: seq<byte>): seq<Report> {
    var n := Min(INIT_PAYLOAD, |data|);
    [InitPacket(ch, cmd, |data|, data[..n])] + Conts(ch, 0, data[n..])
  }

  // ------------------------------------------------------------ reassembling

  datatype State = State(channel: uint32, msg: Message, want: nat, next: nat, started: bool)

  datatype Event =
    | Pending                       // taken, more to come
    | Done(msg: Message)            // taken, and the message is whole
    | Rejected(error: FrameError)   // not taken

  datatype Step = Step(state: State, event: Event)

  function Fresh(ch: uint32): State {
    State(ch, Message(0, 0, []), 0, 0, false)
  }

  predicate OnChannel(ch: uint32, r: Report) {
    |r| >= 5 && Uint32(r[..4]) == ch
  }

  predicate Foreign(ch: uint32, r: Report) {
    |r| >= 5 && Uint32(r[..4]) != ch
  }

  /** A whole initialisation packet for ch. */
  predicate IsInit(ch: uint32, r: Report) {
    OnChannel(ch, r) && HasHighBit(r[4]) && |r| >= 7
  }

  predicate IsCont(ch: uint32, r: Report) {
    OnChannel(ch, r) && !HasHighBit(r[4])
  }

  function Begin(s: State, r: Report): State
    requires IsInit(s.channel, r)
  {
    State(s.channel, Message(s.channel, ClearHighBit(r[4]), r[7..]), Uint16(r[5..7]), 0, true)
  }

  function Extend(s: State, r: Report): State
    requires IsCont(s.channel, r)
  {
    s.(next := s.next + 1, msg := s.msg.(data := s.msg.data + r[5..]))
  }

  function Finish(s: State): Step {
    if |s.msg.data| < s.want then Step(s, Pending)
    else Step(s.(started := false), Done(s.msg.(data := s.msg.data[..s.want])))
  }

  function Feed(s: State, r: Report): Step {
    if |r| < 5 then Step(s, Rejected(ShortPacket))
    else if !OnChannel(s.channel, r) then Step(s, Rejected(WrongChannel))
    else if HasHighBit(r[4]) then
      if |r| < 7 then Step(s, Rejected(ShortPacket)) else Finish(Begin(s, r))
    else if !s.started || r[4] != s.next then Step(s, Rejected(OutOfOrder))
    else Finish(Extend(s, r))
  }

  // -------------------------------------------------------------------- runs

  /** The state after a trace; a caller that is told of a rejection goes on with the next report. */
  function Run(s: State, trace: seq<Report>): State
    decreases |trace|
  {
    if trace == [] then s else Run(Feed(s, trace[0]).state, trace[1..])
  }

  function Events(s: State, trace: seq<Report>): seq<Event>
    decreases |trace|
  {
    if trace == [] then []
    else [Feed(s, trace[0]).event] + Events(Feed(s, trace[0]).state, trace[1..])
  }

  function Completed(events: seq<Event>): seq<Message> {
    if events == [] then []
    else (if events[0].Done? then [events[0].msg] else []) + Completed(events[1..])
  }

  /** The messages handed to the caller along a trace. */
  function Outputs(s: State, trace: seq<Report>): seq<Message> {
    Completed(Events(s, trace))
  }

  /** The reports of a trace that are not rejected. */
  function Accepted(s: State, trace: seq<Report>): seq<Report>
    decreases |trace|
  {
    if trace == [] then []
    else
      var step := Feed(s, trace[0]);
      (if step.event.Rejected? then [] else [trace[0]]) + Accepted(step.state, trace[1..])
  }

  function Pendings(n: nat): seq<Event> {
    seq(n, _ => Pending)
  }

  // ------------------------------------------------------ structure of a run

  lemma {:induction false} RunConcat(s: State, a: seq<Report>, b: seq<Report>)
    ensures Run(s, a + b) == Run(Run(s, a), b)
    ensures Events(s, a + b) == Events(s, a) + Events(Run(s, a), b)
    ensures |Events(s, a)| == |a|
    decreases |a|
  {
    if a == [] {
      assert a + b == b;
    } else {
      assert (a + b)[1..] == a[1..] + b;
      RunConcat(Feed(s, a[0]).state, a[1..], b);
    }
  }

  lemma {:induction false} CompletedConcat(a: seq<Event>, b: seq<Event>)
    ensures Completed(a + b) == Completed(a) + Completed(b)
  {
    if a == [] {
      assert a + b == b;
    } else {
      var head := if a[0].Done? then [a[0].msg] else [];
      calc {
        Completed(a + b);
        { assert (a + b)[0] == a[0] && (a + b)[1..] == a[1..] + b; }
        head + Completed(a[1..] + b);
        { CompletedConcat(a[1..], b); }
        head + (Completed(a[1..]) + Completed(b));
        (head + Completed(a[1..])) + Completed(b);
        Completed(a) + Completed(b);
      }
    }
  }

  lemma OutputsConcat(s: State, a: seq<Report>, b: seq<Report>)
    ensures Outputs(s, a + b) == Outputs(s, a) + Outputs(Run(s, a), b)
  {
    RunConcat(s, a, b);
    CompletedConcat(Events(s, a), Events(Run(s, a), b));
  }

  lemma {:induction false} RunKeepsChannel(s: State, trace: seq<Report>)
    ensures Run(s, trace).channel == s.channel
    decreases |trace|
  {
    if trace != [] {
      RunKeepsChannel(Feed(s, trace[0]).state, trace[1..]);
    }
  }

  lemma {:induction false} CompletedPendings(n: nat, m: Message)
    ensures Completed(Pendings(n)) == []
    ensures Completed(Pendings(n) + [Done(m)]) == [m]
  {
    if n == 0 {
      assert Pendings(n) + [Done(m)] == [Done(m)];
    } else {
      assert Pendings(n)[1..] == Pendings(n - 1);
      CompletedPendings(n - 1, m);
      assert (Pendings(n) + [Done(m)])[1..] == Pendings(n - 1) + [Done(m)];
    }
  }

  /** Every report is taken, and the message completes with the last one. */
  ghost predicate Takes(s: State, rs: seq<Report>, m: Message)
    requires rs != []
    decreases |rs|
  {
    if |rs| == 1 then Feed(s, rs[0]).event == Done(m)
    else Feed(s, rs[0]).event == Pending && Takes(Feed(s, rs[0]).state, rs[1..], m)
  }

  lemma {:induction false} TakesIsEvents(s: State, rs: seq<Report>, m: Message)
    requires rs != []
    ensures Takes(s, rs, m) <==> Events(s, rs) == Pendings(|rs| - 1) + [Done(m)]
    decreases |rs|
  {
    var rest := Events(Feed(s, rs[0]).state, rs[1..]);
    assert Events(s, rs) == [Feed(s, rs[0]).event] + rest;
    if |rs| == 1 {
      assert rest == [];
      assert Pendings(0) + [Done(m)] == [Done(m)] && [Feed(s, rs[0]).event] + rest == [Feed(s, rs[0]).event];
      assert [Feed(s, rs[0]).event][0] == Feed(s, rs[0]).event && [Done(m)][0] == Done(m);
    } else {
      TakesIsEvents(Feed(s, rs[0]).state, rs[1..], m);
      var wanted := Pendings(|rs| - 2) + [Done(m)];
      assert Pendings(|rs| - 1) + [Done(m)] == [Pending] + wanted;
      if [Feed(s, rs[0]).event] + rest == [Pending] + wanted {
        assert ([Feed(s, rs[0]).event] + rest)[0] == Pending;
        assert ([Feed(s, rs[0]).event] + rest)[1..] == rest;
        assert ([Pending] + wanted)[1..] == wanted;
      }
    }
  }

  // -------------------------------------------------- reading packets back

  lemma ReadInit(ch: uint32, cmd: byte, length: nat, payload: seq<byte>)
    requires |payload| <= INIT_PAYLOAD
    ensures var r := InitPacket(ch, cmd, length, payload);
            && IsInit(ch, r)
            && ClearHighBit(r[4]) == ClearHighBit(cmd)
            && Uint16(r[5..7]) == length % 0x1_0000
            && r[7..] == payload + Zeros(INIT_PAYLOAD - |payload|)
  {
    var r := InitPacket(ch, cmd, length, payload);
    Uint32Inverse(ch);
    assert r[..4] == PutUint32(ch);
    assert r[4] == WithHighBit(cmd);
    assert r[5..7] == PutUint16(length % 0x1_0000);
  }

  lemma ReadCont(ch: uint32, number: nat, payload: seq<byte>)
    requires |payload| <= CONT_PAYLOAD
    ensures var r := ContPacket(ch, number, payload);
            && OnChannel(ch, r)
            && r[4] == number % 0x100
            && r[5..] == payload + Zeros(CONT_PAYLOAD - |payload|)
  {
    var r := ContPacket(ch, number, payload);
    Uint32Inverse(ch);
    assert r[..4] == PutUint32(ch);
  }
}
