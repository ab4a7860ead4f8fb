/**
 * The INIT handshake and what two programs opening one key at the same time can count on.
 */
module Handshake {
  import opened Bytes
  import opened Framing
  import opened FramingTheorems
  import opened Session
  import opened Wire

  const NONCE_SIZE := 8
  const INIT_REPLY_SIZE := 17

  type Nonce = n: seq<byte> | |n| == NONCE_SIZE witness [0, 0, 0, 0, 0, 0, 0, 0]

  datatype Version = Version(ctaphid: byte, major: byte, minor: byte, build: byte)

  datatype InitReply = InitReply(nonce: Nonce, channel: uint32, version: Version, caps: byte)

  datatype Parsed = Parsed(reply: InitReply) | Truncated

  function ParseInit(data: seq<byte>): Parsed {
    if |data| < INIT_REPLY_SIZE then Truncated
    else Parsed(InitReply(data[..8], Uint32(data[8..12]), Version(data[12], data[13], data[14], data[15]), data[16]))
  }

  function InitBytes(r: InitReply): seq<byte> {
    r.nonce + PutUint32(r.channel) + [r.version.ctaphid, r.version.major, r.version.minor, r.version.build, r.caps]
  }

  /** Reading an INIT reply inverts writing one, whatever follows its seventeen bytes; and whatever is
      read accounts for all seventeen. */
  lemma InitReplyInverse(r: InitReply, tail: seq<byte>)
    ensures |InitBytes(r)| == INIT_REPLY_SIZE
    ensures ParseInit(InitBytes(r) + tail) == Parsed(r)
  {
    var b := InitBytes(r) + tail;
    Uint32Inverse(r.channel);
    assert b[..8] == r.nonce && b[8..12] == PutUint32(r.channel);
  }

  lemma ParsedInitAccountsForItsBytes(data: seq<byte>)
    ensures ParseInit(data).Parsed? <==> |data| >= INIT_REPLY_SIZE
    ensures ParseInit(data).Parsed? ==> InitBytes(ParseInit(data).reply) == data[..INIT_REPLY_SIZE]
  {
    if |data| >= INIT_REPLY_SIZE {
      PutUint32Inverse(data[8..12]);
    }
  }

  /** Where each part of an INIT reply stands. */
  lemma InitReplyBytes(data: seq<byte>)
    ensures ParseInit(data).Truncated? <==> |data| < 17
    ensures |data| >= 17 ==>
              var r := ParseInit(data).reply;
              && r.nonce == data[..8] && r.channel == Weigh4(data[8], data[9], data[10], data[11])
              && r.version.ctaphid == data[12] && r.version.major == data[13] && r.version.minor == data[14] && r.version.build == data[15]
              && r.caps == data[16]
  {
    if |data| >= 17 {
      Uint32Weighs(data[8..12]);
    }
  }

  /** The INIT request is one report: the broadcast channel, 0x86, eight bytes announced, the nonce. */
  lemma InitRequestBytes(nonce: Nonce)
    ensures Cut(BROADCAST, CMD_INIT, nonce) == [[0xFF, 0xFF, 0xFF, 0xFF, 0x86, 0x00, 0x08] + nonce + seq(49, _ => 0)]
  {
    PacketBytes(BROADCAST, CMD_INIT, nonce);
    var p: Report := Cut(BROADCAST, CMD_INIT, nonce)[0];
    var q: Report := [0xFF, 0xFF, 0xFF, 0xFF, 0x86, 0x00, 0x08] + nonce + seq(49, _ => 0);
    forall i | 0 <= i < 64 ensures p[i] == q[i] {
      if i >= 7 {
        assert p[i] == ByteAt(nonce, i - 7);
      }
    }
    assert p == q;
  }

  datatype Opening =
    | Opened(channel: uint32, version: Version, caps: byte)
    | NoNonce
    | NotAnswered(outcome: Outcome)
    | Malformed
    | AnotherPrograms(nonce: Nonce)

  /** What the handshake makes of the answer to its INIT request. */
  function Conclude(nonce: Nonce, outcome: Outcome): Opening {
    match outcome
    case Reply(data) =>
      (match ParseInit(data)
       case Truncated => Malformed
       case Parsed(r) => if r.nonce != nonce then AnotherPrograms(r.nonce) else Opened(r.channel, r.version, r.caps))
    case _ => NotAnswered(outcome)
  }

  /** Opening over a transport that takes every packet. */
  function Open(nonce: Nonce, inbox: seq<Report>): Opening {
    Conclude(nonce, Judge(CMD_INIT, Await(Fresh(BROADCAST), inbox).stop))
  }

  function AfterOpen(inbox: seq<Report>): seq<Report> {
    Await(Fresh(BROADCAST), inbox).rest
  }

  /** Exactly what Open makes of ANY trace: it succeeds when keepalives and then an INIT reply with its own
      nonce are what the broadcast channel brings, and names the other program when the nonce is not. */
  lemma OpenIff(nonce: Nonce, inbox: seq<Report>, r: InitReply)
    ensures Open(nonce, inbox) == Opened(r.channel, r.version, r.caps) <==>
            exists n, m :: BringsAfter(BROADCAST, inbox, n, m) && Replies(m, InitReply(nonce, r.channel, r.version, r.caps))
    ensures Open(nonce, inbox) == AnotherPrograms(r.nonce) <==>
            r.nonce != nonce && exists n, m, r' :: BringsAfter(BROADCAST, inbox, n, m) && Replies(m, r') && r'.nonce == r.nonce
    ensures Open(nonce, inbox) == Malformed <==> exists n, m :: BringsAfter(BROADCAST, inbox, n, m) && m.cmd == 0x06 && |m.data| < 17
    ensures Open(nonce, inbox) != NoNonce
    ensures Open(nonce, inbox).NotAnswered? <==> forall n, m :: BringsAfter(BROADCAST, inbox, n, m) ==> m.cmd != 0x06
  {
    var stop := Await(Fresh(BROADCAST), inbox).stop;
    if stop.Got? {
      GotIff(BROADCAST, inbox, stop.msg);
      GotIsAMessage(Fresh(BROADCAST), inbox);
    }
    forall n, m | BringsAfter(BROADCAST, inbox, n, m) ensures stop == Got(m) {
      GotIff(BROADCAST, inbox, m);
    }
    OpenByAnswer(nonce, stop, r);
    if Open(nonce, inbox).Opened? || Open(nonce, inbox).AnotherPrograms? {
      var n :| BringsAfter(BROADCAST, inbox, n, stop.msg);
      assert Replies(stop.msg, ParseInit(stop.msg.data).reply);
    }
  }

  predicate Replies(m: Message, r: InitReply) {
    m.cmd == CMD_INIT && ParseInit(m.data) == Parsed(r)
  }

  lemma OpenByAnswer(nonce: Nonce, stop: Stop, r: InitReply)
    ensures var o := Conclude(nonce, Judge(CMD_INIT, stop));
            && (o == Opened(r.channel, r.version, r.caps) <==>
                stop.Got? && Replies(stop.msg, InitReply(nonce, r.channel, r.version, r.caps)))
            && (o.Opened? || o.AnotherPrograms? ==> stop.Got? && ParseInit(stop.msg.data).Parsed? && stop.msg.cmd == CMD_INIT)
            && (o == AnotherPrograms(r.nonce) <==>
                r.nonce != nonce && stop.Got? && stop.msg.cmd == CMD_INIT && ParseInit(stop.msg.data).Parsed? &&
                ParseInit(stop.msg.data).reply.nonce == r.nonce)
  {
  }

  // ------------------------------------------------- several programs, one key

  /** A report that begins a message under the INIT command on the broadcast channel. */
  predicate IsGrant(r: Report) {
    IsInit(BROADCAST, r) && ClearHighBit(r[4]) == CMD_INIT
  }

  /** Its message is whole in that report, as seventeen bytes are. */
  predicate IsWhole(r: Report)
    requires IsGrant(r)
  {
    Uint16(r[5..7]) <= |r[7..]|
  }

  function GrantIn(r: Report): Parsed
    requires IsGrant(r) && IsWhole(r)
  {
    ParseInit(r[7..][..Uint16(r[5..7])])
  }

  /** All that is asked of the key: an INIT reply is one report, and no two grant the same channel. Every
      other report is arbitrary. */
  ghost predicate GrantsAreFresh(bus: seq<Report>) {
    && (forall i | 0 <= i < |bus| :: IsGrant(bus[i]) ==> IsWhole(bus[i]))
    && (forall i, j | 0 <= i < j < |bus| ::
          IsGrant(bus[i]) && IsGrant(bus[j]) && GrantIn(bus[i]).Parsed? && GrantIn(bus[j]).Parsed? ==>
            GrantIn(bus[i]).reply.channel != GrantIn(bus[j]).reply.channel)
  }

  ghost predicate IssuedAt(bus: seq<Report>, i: nat, nonce: Nonce, ch: uint32) {
    && i < |bus| && IsGrant(bus[i]) && IsWhole(bus[i])
    && GrantIn(bus[i]).Parsed? && GrantIn(bus[i]).reply.nonce == nonce && GrantIn(bus[i]).reply.channel == ch
  }

  /** A receiver is never in the middle of an INIT reply when those are whole reports. */
  predicate NotMidGrant(s: State) {
    s.channel == BROADCAST && (s.started ==> s.msg.cmd != CMD_INIT)
  }

  /** An INIT reply that ends the waiting is a report of the trace. */
  lemma {:induction false} InitReplyIsAReport(s: State, inbox: seq<Report>) returns (i: nat)
    requires NotMidGrant(s) && forall j | 0 <= j < |inbox| :: IsGrant(inbox[j]) ==> IsWhole(inbox[j])
    requires Await(s, inbox).stop.Got? && Await(s, inbox).stop.msg.cmd == CMD_INIT
    ensures i < |inbox| && IsGrant(inbox[i]) && IsWhole(inbox[i])
    ensures ParseInit(Await(s, inbox).stop.msg.data) == GrantIn(inbox[i])
    decreases |inbox|
  {
    var step := Feed(s, inbox[0]);
    if step.event.Done? && step.event.msg.cmd != CMD_KEEPALIVE {
      i := 0;
    } else {
      AwaitGoesOn(s, inbox);
      var j := InitReplyIsAReport(step.state, inbox[1..]);
      i := j + 1;
    }
  }

  lemma AwaitGoesOn(s: State, inbox: seq<Report>)
    requires inbox != [] && NotMidGrant(s) && (IsGrant(inbox[0]) ==> IsWhole(inbox[0]))
    requires Await(s, inbox).stop.Got? && !(Feed(s, inbox[0]).event.Done? && Feed(s, inbox[0]).event.msg.cmd != CMD_KEEPALIVE)
    ensures NotMidGrant(Feed(s, inbox[0]).state)
    ensures Await(s, inbox) == Await(Feed(s, inbox[0]).state, inbox[1..])
  {
  }

  /** Whatever else is on the bus and wherever a program starts listening, a successful Open holds the
      channel issued for its own nonce. */
  lemma GrantBehind(bus: seq<Report>, from: nat, nonce: Nonce) returns (i: nat)
    requires GrantsAreFresh(bus) && from <= |bus| && Open(nonce, bus[from..]).Opened?
    ensures IssuedAt(bus, i, nonce, Open(nonce, bus[from..]).channel)
  {
    var j := InitReplyIsAReport(Fresh(BROADCAST), bus[from..]);
    i := from + j;
    assert bus[i] == bus[from..][j];
  }

  /** Two programs open the key over the same bus, an arbitrary interleaving of reports, each listening
      from its own report on, each with its own nonce. If both succeed they hold different channels, each
      the one issued for its nonce; and whatever either asks afterwards is answered as if the other's
      reports were not on the bus. */
  lemma TwoPrograms(bus: seq<Report>, a: nat, b: nat, nonceA: Nonce, nonceB: Nonce, calls: seq<Call>)
    requires GrantsAreFresh(bus) && a <= |bus| && b <= |bus| && nonceA != nonceB
    requires Open(nonceA, bus[a..]).Opened? && Open(nonceB, bus[b..]).Opened?
    ensures var chA, chB := Open(nonceA, bus[a..]).channel, Open(nonceB, bus[b..]).channel;
            var inboxA, inboxB := AfterOpen(bus[a..]), AfterOpen(bus[b..]);
            && chA != chB && (exists i :: IssuedAt(bus, i, nonceA, chA)) && (exists i :: IssuedAt(bus, i, nonceB, chB))
            && Outcomes(chA, calls, inboxA) == Outcomes(chA, calls, Without(chB, inboxA))
            && Outcomes(chB, calls, inboxB) == Outcomes(chB, calls, Without(chA, inboxB))
  {
    var i := GrantBehind(bus, a, nonceA);
    var j := GrantBehind(bus, b, nonceB);
    var chA, chB := Open(nonceA, bus[a..]).channel, Open(nonceB, bus[b..]).channel;
    DifferentGrants(bus, i, j, nonceA, nonceB, chA, chB);
    SessionIgnores(chA, chB, calls, AfterOpen(bus[a..]));
    SessionIgnores(chB, chA, calls, AfterOpen(bus[b..]));
  }

  lemma DifferentGrants(bus: seq<Report>, i: nat, j: nat, nonceA: Nonce, nonceB: Nonce, chA: uint32, chB: uint32)
    requires GrantsAreFresh(bus) && nonceA != nonceB && IssuedAt(bus, i, nonceA, chA) && IssuedAt(bus, j, nonceB, chB)
    ensures chA != chB
  {
  }

  lemma SessionIgnores(ch: uint32, other: uint32, calls: seq<Call>, inbox: seq<Report>)
    requires ch != other
    ensures Outcomes(ch, calls, inbox) == Outcomes(ch, calls, Without(other, inbox))
  {
    OwnOfWithout(ch, other, inbox);
    SessionSeesOnlyItsChannel(ch, calls, inbox, Without(other, inbox));
  }

  // ------------------------------------------------------------ it can happen

  /** The report that grants a channel. */
  function GrantReport(r: InitReply): Report {
    Cut(BROADCAST, CMD_INIT, InitBytes(r))[0]
  }

  lemma GrantReportGrants(r: InitReply, tail: seq<Report>)
    ensures Cut(BROADCAST, CMD_INIT, InitBytes(r)) == [GrantReport(r)]
    ensures IsGrant(GrantReport(r)) && IsWhole(GrantReport(r)) && GrantIn(GrantReport(r)) == Parsed(r)
    ensures Open(r.nonce, [GrantReport(r)] + tail) == Opened(r.channel, r.version, r.caps)
  {
    var data := InitBytes(r);
    InitReplyInverse(r, []);
    assert data + [] == data;
    CutShape(BROADCAST, CMD_INIT, data);
    ReadInit(BROADCAST, CMD_INIT, |data|, data[..|data|]);
    assert data[..|data|] == data;
    assert (data + Zeros(INIT_PAYLOAD - |data|))[..|data|] == data;
    AwaitCut(Fresh(BROADCAST), CMD_INIT, data, tail);
  }

  /** Two programs can indeed both succeed, when the key answers each after it started listening. */
  lemma BothCanSucceed(ra: InitReply, rb: InitReply)
    requires ra.channel != rb.channel
    ensures var bus := [GrantReport(ra), GrantReport(rb)];
            && GrantsAreFresh(bus)
            && Open(ra.nonce, bus[0..]) == Opened(ra.channel, ra.version, ra.caps)
            && Open(rb.nonce, bus[1..]) == Opened(rb.channel, rb.version, rb.caps)
  {
    var bus := [GrantReport(ra), GrantReport(rb)];
    assert bus[0..] == [GrantReport(ra)] + [GrantReport(rb)] && bus[1..] == [GrantReport(rb)] + [];
    GrantReportGrants(ra, [GrantReport(rb)]);
    GrantReportGrants(rb, []);
  }
}
