/**
 * The transport and the key as objects: a request's packets go out one by one, reports come in one by
 * one, and the key owns its transport.
 */
module Keys {
  import opened Bytes
  import opened Wrappers
  import opened Framing
  import opened FramingTheorems
  import opened Reassembly
  import opened Session
  import opened Handshake

  /** How many of the next n sends succeed before one fails; faults says which sends fail. */
  function Accepts(faults: seq<bool>, n: nat): nat
    decreases n
  {
    if n == 0 || (faults != [] && faults[0]) then 0
    else 1 + Accepts(if faults == [] then [] else faults[1..], n - 1)
  }

  /** Which sends are still to fail after n sends, or after the first failure. */
  function Remaining(faults: seq<bool>, n: nat): seq<bool>
    decreases n
  {
    if n == 0 || faults == [] then faults
    else if faults[0] then faults[1..]
    else Remaining(faults[1..], n - 1)
  }

  function RemainingAfter(ch: uint32, cmd: byte, data: seq<byte>, faults: seq<bool>): seq<bool> {
    if |data| > MAX_MESSAGE then faults else Remaining(faults, |Cut(ch, cmd, data)|)
  }

  /** The call that asking for cmd with data makes, given which sends fail. */
  function Attempt(ch: uint32, cmd: byte, data: seq<byte>, faults: seq<bool>): Call {
    Call(cmd, data, if |data| > MAX_MESSAGE then 0 else Accepts(faults, |Cut(ch, cmd, data)|))
  }

  /** One authenticator's transport: what was sent, the reports still to come before it fails, which of
      the coming sends fail, and how often it was closed. */
  class Transport {
    var sent: seq<Report>
    var inbox: seq<Report>
    var faults: seq<bool>
    var closed: nat

    constructor (inbox: seq<Report>, faults: seq<bool>)
      ensures sent == [] && this.inbox == inbox && this.faults == faults && closed == 0
    {
      sent := [];
      this.inbox := inbox;
      this.faults := faults;
      closed := 0;
    }

    method Send(report: Report) returns (ok: bool)
      modifies this`sent, this`faults
      ensures ok <==> !(old(faults) != [] && old(faults)[0])
      ensures sent == if ok then old(sent) + [report] else old(sent)
      ensures faults == if old(faults) == [] then [] else old(faults)[1..]
    {
      ok := faults == [] || !faults[0];
      if faults != [] {
        faults := faults[1..];
      }
      if ok {
        sent := sent + [report];
      }
    }

    method Receive() returns (report: Option<Report>)
      modifies this`inbox
      ensures old(inbox) == [] ==> report == None && inbox == []
      ensures old(inbox) != [] ==> report == Some(old(inbox)[0]) && inbox == old(inbox)[1..]
    {
      if inbox == [] {
        return None;
      }
      report := Some(inbox[0]);
      inbox := inbox[1..];
    }

    method Close()
      modifies this`closed
      ensures closed == old(closed) + 1
    {
      closed := closed + 1;
    }
  }

  /** An authenticator with a negotiated channel. The ghost fields remember the transport it owns, how
      that stood when the channel was negotiated, and every call made since. */
  class Key {
    var t: Transport?
    var channel: uint32
    var version: Version
    var caps: byte

    ghost const owned: Transport
    ghost const closedBefore: nat
    ghost var sentBefore: seq<Report>
    ghost var inboxBefore: seq<Report>
    ghost var calls: seq<Call>
    ghost var outcomes: seq<Outcome>

    /** What every run of calls keeps: the transport has been closed once if the key is closed and not
        at all otherwise, and what went out, what is left and what was returned are those of the calls. */
    ghost predicate Valid()
      reads this, owned
    {
      && (t != null ==> t == owned)
      && owned.closed == closedBefore + (if t == null then 1 else 0)
      && owned.sent == sentBefore + SentLog(channel, calls)
      && owned.inbox == Rest(channel, calls, inboxBefore)
      && outcomes == Outcomes(channel, calls, inboxBefore)
    }

    constructor (t: Transport)
      ensures Valid() && this.t == t && owned == t && channel == BROADCAST && calls == []
      ensures closedBefore == t.closed && sentBefore == t.sent && inboxBefore == t.inbox
    {
      this.t := t;
      channel := BROADCAST;
      version, caps := Version(0, 0, 0, 0), 0;
      owned, closedBefore := t, t.closed;
      sentBefore, inboxBefore := t.sent, t.inbox;
      calls, outcomes := [], [];
    }

    /** Takes on the negotiated channel; the calls counted are those made on it. */
    method Adopt(init: InitReply)
      requires Valid() && t != null
      modifies this
      ensures Valid() && t == old(t) && calls == []
      ensures channel == init.channel && version == init.version && caps == init.caps
      ensures sentBefore == owned.sent && inboxBefore == owned.inbox
    {
      channel, version, caps := init.channel, init.version, init.caps;
      sentBefore, inboxBefore, calls, outcomes := owned.sent, owned.inbox, [], [];
    }

    /** Releases the transport, once. */
    method Close()
      requires Valid()
      modifies this, owned
      ensures Valid() && t == null && owned.closed == closedBefore + 1
      ensures owned.sent == old(owned.sent) && owned.inbox == old(owned.inbox) && owned.faults == old(owned.faults)
      ensures channel == old(channel) && version == old(version) && caps == old(caps)
      ensures sentBefore == old(sentBefore) && inboxBefore == old(inboxBefore) && calls == old(calls) && outcomes == old(outcomes)
    {
      if t == null {
        return;
      }
      var transport := t;
      t := null;
      transport.Close();
    }

    /** Sends one message and waits for its reply. */
    method RoundTrip(cmd: byte, data: seq<byte>) returns (outcome: Outcome)
      requires Valid() && t != null
      modifies this`calls, this`outcomes, t
      ensures Valid() && t.closed == old(t.closed)
      ensures var c := Attempt(channel, cmd, data, old(t.faults));
              && calls == old(calls) + [c]
              && outcome == Session.RoundTrip(channel, c, old(t.inbox)).outcome
              && t.sent == old(t.sent) + SentBy(channel, c)
              && t.inbox == Session.RoundTrip(channel, c, old(t.inbox)).rest
      ensures t.faults == RemainingAfter(channel, cmd, data, old(t.faults))
    {
      ghost var c := Attempt(channel, cmd, data, t.faults);
      OneMoreCall(channel, calls, c, inboxBefore);
      ghost var sent, all := t.sent, calls + [c];
      outcome := Exchange(cmd, data);
      assert sentBefore + SentLog(channel, calls) + SentBy(channel, c) == sentBefore + SentLog(channel, all);
      calls, outcomes := all, outcomes + [outcome];
    }

    method Exchange(cmd: byte, data: seq<byte>) returns (outcome: Outcome)
      requires t != null
      modifies t
      ensures t.closed == old(t.closed)
      ensures var c := Attempt(channel, cmd, data, old(t.faults));
              && outcome == Session.RoundTrip(channel, c, old(t.inbox)).outcome
              && t.sent == old(t.sent) + SentBy(channel, c)
              && t.inbox == Session.RoundTrip(channel, c, old(t.inbox)).rest
      ensures t.faults == RemainingAfter(channel, cmd, data, old(t.faults))
    {
      var split := Split(channel, cmd, data);
      if split.TooLong? {
        return TooLongToSend;
      }
      var ok := SendAll(split.packets);
      if !ok {
        return CannotSend;
      }
      var stop := Listen();
      match stop {
        case Silent => return NoAnswer;
        case Broken(e) => return BadFraming(e);
        case Got(m) =>
          if m.cmd == CMD_ERROR {
            var code: byte := 0;
            if |m.data| > 0 {
              code := m.data[0];
            }
            return Refused(code);
          }
          if m.cmd != cmd {
            return OtherCommand(m.cmd);
          }
          return Reply(m.data);
      }
    }

    method SendAll(packets: seq<Report>) returns (ok: bool)
      requires t != null
      modifies t`sent, t`faults
      ensures var n := Accepts(old(t.faults), |packets|);
              && n <= |packets|
              && (ok <==> n == |packets|)
              && t.sent == old(t.sent) + packets[..n]
      ensures t.faults == Remaining(old(t.faults), |packets|)
    {
      var i := 0;
      while i < |packets|
        invariant 0 <= i <= |packets|
        invariant Accepts(old(t.faults), |packets|) == i + Accepts(t.faults, |packets| - i)
        invariant Remaining(old(t.faults), |packets|) == Remaining(t.faults, |packets| - i)
        invariant t.sent == old(t.sent) + packets[..i]
      {
        ok := t.Send(packets[i]);
        if !ok {
          return;
        }
        i := i + 1;
      }
      ok := true;
    }

    /** The receive loop: waits for the first message on the channel that is not a keepalive. */
    method Listen() returns (stop: Stop)
      requires t != null
      modifies t`inbox
      ensures Waited(stop, t.inbox) == Await(Fresh(channel), old(t.inbox))
    {
      var rc := new Reassembler(channel);
      while true
        invariant fresh(rc) && rc.Valid() && rc.channel == channel
        invariant Await(rc.Current(), t.inbox) == Await(Fresh(channel), old(t.inbox))
        decreases |t.inbox|
      {
        ghost var before := t.inbox;
        var report := t.Receive();
        if report.None? {
          return Silent;
        }
        var event := rc.Feed(report.value);
        match event {
          case Rejected(e) =>
            if e.WrongChannel? {
              continue;
            }
            return Broken(e);
          case Pending =>
            continue;
          case Done(m) =>
            if m.cmd == CMD_KEEPALIVE {
              continue;
            }
            return Got(m);
        }
      }
    }
  }

  predicate Fails(faults: seq<bool>) {
    faults != [] && faults[0]
  }

  /** The INIT request is a single packet: either its one send fails or it is answered. */
  lemma InitRoundTrip(nonce: Nonce, faults: seq<bool>, inbox: seq<Report>)
    ensures Session.RoundTrip(BROADCAST, Attempt(BROADCAST, CMD_INIT, nonce, faults), inbox) ==
            if Fails(faults) then Called(CannotSend, inbox)
            else Called(Judge(CMD_INIT, Await(Fresh(BROADCAST), inbox).stop), AfterOpen(inbox))
  {
    CutShape(BROADCAST, CMD_INIT, nonce);
    assert Accepts(faults, 1) == if Fails(faults) then 0 else 1;
  }

  /** What is sent to open: one report, from its first byte to its last. */
  lemma InitIsSent(nonce: Nonce, faults: seq<bool>)
    ensures SentBy(BROADCAST, Attempt(BROADCAST, CMD_INIT, nonce, faults)) ==
            if Fails(faults) then [] else [[0xFF, 0xFF, 0xFF, 0xFF, 0x86, 0x00, 0x08] + nonce + seq(49, _ => 0)]
  {
    InitRequestBytes(nonce);
    assert Accepts(faults, 1) == if Fails(faults) then 0 else 1;
  }

  /** Every run of a key, whatever calls were made on it: what its calls returned, what they left to be
      received, and what a device that was in any state is handed of what they sent. */
  lemma KeyOnARun(k: Key, answers: seq<Answer>, tail: seq<Report>, device: State)
    requires k.Valid() && device.channel == k.channel
    requires |answers| == |Delivered(k.channel, k.calls)| && forall i | 0 <= i < |answers| :: Proper(answers[i])
    requires Own(k.channel, k.inboxBefore) == AllFrames(k.channel, answers) + tail
    ensures k.outcomes == Expected(k.channel, k.calls, answers)
    ensures Own(k.channel, k.owned.inbox) == tail
    ensures k.sentBefore <= k.owned.sent
    ensures Outputs(device, k.owned.sent[|k.sentBefore|..]) == Delivered(k.channel, k.calls)
  {
    SessionCorrelates(k.channel, k.calls, answers, k.inboxBefore, tail);
    DeviceReceives(device, k.calls);
    assert k.owned.sent[|k.sentBefore|..] == SentLog(k.channel, k.calls);
  }

  /** Negotiates a channel and hands over the key that owns the transport; every failure closes it. */
  method Open(nonce: Option<Nonce>, t: Transport) returns (key: Key?, opening: Opening)
    modifies t
    ensures key != null <==> opening.Opened?
    ensures t.closed == old(t.closed) + if key == null then 1 else 0
    ensures nonce.None? ==> opening == NoNonce && t.sent == old(t.sent) && t.inbox == old(t.inbox)
    ensures nonce.Some? ==>
              var c := Attempt(BROADCAST, CMD_INIT, nonce.value, old(t.faults));
              && t.sent == old(t.sent) + SentBy(BROADCAST, c)
              && (!Fails(old(t.faults)) ==>
                    t.sent == old(t.sent) + [[0xFF, 0xFF, 0xFF, 0xFF, 0x86, 0x00, 0x08] + nonce.value + seq(49, _ => 0)])
              && if Fails(old(t.faults)) then opening == NotAnswered(CannotSend) && t.inbox == old(t.inbox)
                 else opening == Handshake.Open(nonce.value, old(t.inbox)) && t.inbox == AfterOpen(old(t.inbox))
    ensures key != null ==>
              && fresh(key) && key.Valid() && key.t == t && key.owned == t
              && opening == Opened(key.channel, key.version, key.caps)
              && key.closedBefore == old(t.closed)
              && key.calls == [] && key.inboxBefore == t.inbox && key.sentBefore == t.sent
  {
    var k := new Key(t);
    if nonce.None? {
      k.Close();
      return null, NoNonce;
    }
    InitRoundTrip(nonce.value, t.faults, t.inbox);
    InitIsSent(nonce.value, t.faults);
    var outcome := k.RoundTrip(CMD_INIT, nonce.value);
    if !outcome.Reply? {
      k.Close();
      return null, NotAnswered(outcome);
    }
    var parsed := ParseInit(outcome.data);
    if parsed.Truncated? {
      k.Close();
      return null, Malformed;
    }
    var init := parsed.reply;
    if init.nonce != nonce.value {
      k.Close();
      return null, AnotherPrograms(init.nonce);
    }
    k.Adopt(init);
    return k, Opened(k.channel, k.version, k.caps);
  }
}
