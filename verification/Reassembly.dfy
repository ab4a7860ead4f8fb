/** The cutting loop and the reassembler as they run: buffers filled in place, fields updated report by report. */
module Reassembly {
  import opened Bytes
  import opened Framing
  import opened Provenance
  import opened Wire

  datatype SplitResult = Packets(packets: seq<Report>) | TooLong

  /** Writes b at position i of a. */
  method Put(a: array<byte>, i: nat, b: seq<byte>)
    requires i + |b| <= a.Length
    modifies a
    ensures forall j | 0 <= j < a.Length :: a[j] == if i <= j < i + |b| then b[j - i] else old(a[j])
  {
    forall j | 0 <= j < |b| {
      a[i + j] := b[j];
    }
  }

  /** Fills the buffer of an initialisation packet. */
  method FillInit(channel: uint32, cmd: byte, length: nat, payload: seq<byte>) returns (r: Report)
    requires |payload| <= INIT_PAYLOAD
    ensures r == InitPacket(channel, cmd, length, payload)
  {
    var p := new byte[REPORT_SIZE](_ => 0);
    Put(p, 0, PutUint32(channel));
    p[4] := WithHighBit(cmd);
    Put(p, 5, PutUint16(length % 0x1_0000));
    Put(p, 7, payload);
    r := p[..];
    assert r[..4] == PutUint32(channel);
    assert r[5..7] == PutUint16(length % 0x1_0000);
    assert r[7..] == payload + Zeros(INIT_PAYLOAD - |payload|);
    InParts(r, PutUint32(channel), WithHighBit(cmd), PutUint16(length % 0x1_0000), payload, Zeros(INIT_PAYLOAD - |payload|));
  }

  lemma InParts(r: Report, a: seq<byte>, b: byte, c: seq<byte>, d: seq<byte>, e: seq<byte>)
    requires |r| >= 7 && r[..4] == a && r[4] == b && r[5..7] == c && r[7..] == d + e
    ensures r == a + [b] + c + d + e
  {
    assert r == r[..4] + [r[4]] + r[5..7] + r[7..];
    assert a + [b] + c + (d + e) == a + [b] + c + d + e;
  }

  /** Fills the buffer of a continuation packet. */
  method FillCont(channel: uint32, number: nat, payload: seq<byte>) returns (r: Report)
    requires |payload| <= CONT_PAYLOAD
    ensures r == ContPacket(channel, number, payload)
  {
    var p := new byte[REPORT_SIZE](_ => 0);
    Put(p, 0, PutUint32(channel));
    p[4] := number % 0x100;
    Put(p, 5, payload);
    r := p[..];
    assert r[..4] == PutUint32(channel);
    assert r[5..] == payload + Zeros(CONT_PAYLOAD - |payload|);
    assert r == r[..4] + [r[4]] + r[5..];
  }

  /** Cuts a message into its packets, or refuses it for its length. */
  method Split(channel: uint32, cmd: byte, data: seq<byte>) returns (r: SplitResult)
    ensures |data| > MAX_MESSAGE ==> r == TooLong
    ensures |data| <= MAX_MESSAGE ==> r == Packets(Cut(channel, cmd, data))
    ensures r == TooLong <==> |data| > 7609
    ensures r.Packets? ==> Carries(r.packets, channel, cmd, data)
  {
    if |data| > MAX_MESSAGE {
      return TooLong;
    }
    var n: nat := Min(INIT_PAYLOAD, |data|);
    var first := FillInit(channel, cmd, |data|, data[..n]);
    var out := [first];
    var number: nat := 0;
    while n < |data|
      invariant n <= |data|
      invariant Cut(channel, cmd, data) == out + Conts(channel, number, data[n..])
    {
      var copied := Min(CONT_PAYLOAD, |data| - n);
      var p := FillCont(channel, number, data[n..n + copied]);
      assert data[n..][..copied] == data[n..n + copied] && data[n..][copied..] == data[n + copied..];
      assert Conts(channel, number, data[n..]) == [p] + Conts(channel, number + 1, data[n + copied..]);
      n, number := n + copied, number + 1;
      out := out + [p];
    }
    CutCarries(channel, cmd, data);
    assert Conts(channel, number, data[n..]) == [];
    return Packets(out);
  }

  lemma AcceptedSoFar(ch: uint32, log: seq<Report>, report: Report)
    ensures var event := Framing.Feed(Run(Fresh(ch), log), report).event;
            event.Done? ==> exists at :: CompletedBy(ch, log + [report], at, event.msg)
  {
    var event := Framing.Feed(Run(Fresh(ch), log), report).event;
    if event.Done? {
      assert (log + [report])[..|log|] == log;
      NoSplicing(ch, log + [report], event.msg);
    }
  }

  /** Puts messages of one channel back together. The log of everything fed to it is kept as a ghost;
      its fields are always those the log determines. */
  class Reassembler {
    const channel: uint32
    var msg: Message
    var want: nat
    var next: nat
    var started: bool
    ghost var log: seq<Report>

    ghost function Current(): State
      reads this
    {
      State(channel, msg, want, next, started)
    }

    ghost predicate Valid()
      reads this
    {
      && Current() == Run(Fresh(channel), log)
      && (started ==> |msg.data| < want)
    }

    constructor (channel: uint32)
      ensures Valid() && this.channel == channel && log == [] && Current() == Fresh(channel)
    {
      this.channel := channel;
      msg := Message(0, 0, []);
      want, next, started := 0, 0, false;
      log := [];
    }

    method Feed(report: Report) returns (event: Event)
      requires Valid()
      modifies this
      ensures Valid() && log == old(log) + [report]
      ensures event == Framing.Feed(old(Current()), report).event
      ensures Current() == Framing.Feed(old(Current()), report).state
      ensures event.Rejected? ==> Current() == old(Current())
      ensures |report| >= 7 && Addressed(report, channel) && report[4] >= 0x80 ==> BeginsMessage(channel, report, event)
      ensures event.Done? ==> !started && exists at :: CompletedBy(channel, log, at, event.msg)
    {
      AcceptedSoFar(channel, log, report);
      ReportMeans(Current(), report);
      RunConcat(Fresh(channel), log, [report]);
      log := log + [report];
      if |report| < 5 {
        return Rejected(ShortPacket);
      }
      var ch := Uint32(report[..4]);
      if ch != channel {
        return Rejected(WrongChannel);
      }
      if HasHighBit(report[4]) {
        if |report| < 7 {
          return Rejected(ShortPacket);
        }
        msg := Message(ch, ClearHighBit(report[4]), []);
        want := Uint16(report[5..7]);
        next, started := 0, true;
        msg := msg.(data := report[7..]);
        event := Finish();
        return;
      }
      if !started {
        return Rejected(OutOfOrder);
      }
      if report[4] != next {
        return Rejected(OutOfOrder);
      }
      next := next + 1;
      msg := msg.(data := msg.data + report[5..]);
      event := Finish();
    }

    /** Trims the padding once enough bytes have arrived. */
    method Finish() returns (event: Event)
      modifies this`started
      ensures event == Framing.Finish(old(Current())).event
      ensures Current() == Framing.Finish(old(Current())).state
    {
      if |msg.data| < want {
        return Pending;
      }
      var m := msg.(data := msg.data[..want]);
      started := false;
      return Done(m);
    }
  }
}
