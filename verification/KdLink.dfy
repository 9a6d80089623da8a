/** The debugger link: one end sends data packets and waits for each to be acknowledged, the other
    accepts each once, over two first-in first-out channels that lose and damage packets
    (KdSendPacket and KdReceivePacketWithType, kernel/kd.cpp). */
module KdLink {
  import opened Common

  const INITIAL_PACKET_ID := 0x8080_0000
  const SYNC_PACKET_ID := 0x0000_0800

  type Payload = seq<Byte>

  /** A data packet on its way.  Damage the receiver can tell: the body no longer fits the checksum, or
      the packet as a whole cannot be read. */
  datatype Data = Data(id: nat, payload: Payload, intact: bool) | Noise

  /** A control packet that answers data. */
  datatype Control = Ack(id: nat) | Resend

  /** id ^ 1 */
  function Flip(id: nat): nat { if id % 2 == 0 then id + 1 else id - 1 }

  /** id & ~SYNC_PACKET_ID */
  function NoSync(id: nat): nat {
    if id / SYNC_PACKET_ID % 2 == 1 then id - SYNC_PACKET_ID else id
  }

  /** The two ids of a pair differ in their last bit, and NoSync clears the bit that marks a first packet. */
  lemma IdBits(id: nat)
    ensures Flip(id) / 2 == id / 2 && Flip(id) % 2 != id % 2
    ensures NoSync(id) % 0x800 == id % 0x800 && NoSync(id) / 0x1000 == id / 0x1000 && NoSync(id) / 0x800 % 2 == 0
    ensures ValidId(id) <==> id == 0x8080_0000 || id == 0x8080_0001
  {
  }

  predicate ValidId(id: nat) { id == INITIAL_PACKET_ID || id == Flip(INITIAL_PACKET_ID) }

  // ---------------------------------------------------------------- what each end does with a packet

  /** The receiver takes a data packet: what it accepts, what it answers, which id it expects next. */
  function OnData(expected: nat, d: Data): (r: (Option<Payload>, Control, nat)) {
    if d.Noise? || !ValidId(d.id) then (None, Resend, expected)
    else if d.id != expected then (None, Ack(d.id), expected)
    else if !d.intact then (None, Resend, expected)
    else (Some(d.payload), Ack(d.id), Flip(expected))
  }

  datatype Wait = Done | SendAgain | KeepWaiting

  /** The sender, waiting for its acknowledgement, takes a control packet. */
  function OnControl(next: nat, c: Control): (Wait, nat) {
    match c
    case Ack(id) => if id != NoSync(next) then (KeepWaiting, next) else (Done, Flip(next))
    case Resend => (SendAgain, next)
  }

  // ---------------------------------------------------------------- the link

  /** `sent` is every payload handed to KdSendPacket, the last one still under way if `sending`;
      `accepted` every payload KdReceivePacket returned. */
  datatype Link = Link(next: nat, sending: bool, sent: seq<Payload>, expected: nat, accepted: seq<Payload>,
                       data: seq<Data>, control: seq<Control>)

  datatype Event =
    | Send(payload: Payload)
    | TimeOut
    | TakeControl
    | TakeData
    | LoseData(i: nat)
    | LoseControl(i: nat)
    | DamageBody(i: nat, junk: Payload)
    | DamagePacket(i: nat)

  /** Put the packet under way on the wire once more. */
  function Transmitted(l: Link): Link
    requires |l.sent| > 0
  {
    l.(data := l.data + [Data(l.next, l.sent[|l.sent| - 1], true)])
  }

  /** One step; an event that cannot happen changes nothing. */
  function Step(l: Link, e: Event): Link {
    match e
    case Send(p) => if l.sending then l else Transmitted(l.(sending := true, sent := l.sent + [p]))
    case TimeOut => if l.sending && |l.sent| > 0 then Transmitted(l) else l
    case TakeControl =>
      if !l.sending || |l.sent| == 0 || l.control == [] then l
      else
        var (w, next) := OnControl(l.next, l.control[0]);
        var t := l.(control := l.control[1..]);
        (match w
         case Done => t.(next := NoSync(next), sending := false)
         case SendAgain => Transmitted(t)
         case KeepWaiting => t)
    case TakeData =>
      if l.data == [] then l
      else
        var (p, c, expected) := OnData(l.expected, l.data[0]);
        l.(data := l.data[1..], control := l.control + [c], expected := expected,
           accepted := if p.Some? then l.accepted + [p.value] else l.accepted)
    case LoseData(i) => if i < |l.data| then l.(data := Without(l.data, i)) else l
    case LoseControl(i) => if i < |l.control| then l.(control := Without(l.control, i)) else l
    case DamageBody(i, junk) =>
      if i < |l.data| && l.data[i].Data? then l.(data := l.data[i := Data(l.data[i].id, junk, false)]) else l
    case DamagePacket(i) => if i < |l.data| then l.(data := l.data[i := Noise]) else l
  }

  function Run(l: Link, es: seq<Event>): Link
    decreases |es|
  {
    if es == [] then l else Run(Step(l, es[0]), es[1..])
  }

  /** Both ends as a RESET leaves them. */
  const AFTER_RESET := Link(INITIAL_PACKET_ID, false, [], INITIAL_PACKET_ID, [], [], [])

  // ---------------------------------------------------------------- what every run keeps

  /** The id of the n-th packet. */
  function IdOf(n: nat): nat { INITIAL_PACKET_ID + n % 2 }

  /** A packet with this id carries the payload under way, or is an old one. */
  ghost predicate DataOk(l: Link, c: nat, d: Data) {
    d.Data? ==>
      || d.id == IdOf(c + 1)
      || (d.id == IdOf(c) && l.sending && (d.intact ==> |l.sent| > 0 && d.payload == l.sent[|l.sent| - 1]))
  }

  ghost predicate ControlOk(l: Link, c: nat, k: Control) {
    k.Ack? ==> k.id == IdOf(c + 1) || (k.id == IdOf(c) && |l.accepted| == c + 1)
  }

  predicate NewData(c: nat, d: Data) { d.Data? && d.id == IdOf(c) }

  predicate OldData(c: nat, d: Data) { d.Data? && d.id == IdOf(c + 1) }

  /** With c packets completed: old packets come before new ones on both channels, and once the receiver
      is ahead there are no old data packets left that it could take for the next one. */
  ghost predicate Inv(l: Link) {
    var c := |l.sent| - if l.sending then 1 else 0;
    && c >= 0
    && l.next == IdOf(c) && l.expected == IdOf(|l.accepted|)
    && c <= |l.accepted| <= |l.sent| && l.accepted == l.sent[..|l.accepted|]
    && (forall i :: 0 <= i < |l.data| ==> DataOk(l, c, l.data[i]))
    && (forall i :: 0 <= i < |l.control| ==> ControlOk(l, c, l.control[i]))
    && (forall i, j :: 0 <= i < j < |l.data| && NewData(c, l.data[i]) ==> !OldData(c, l.data[j]))
    && (forall i, j :: 0 <= i < j < |l.control| && l.control[i] == Ack(IdOf(c)) ==> l.control[j] != Ack(IdOf(c + 1)))
    && (|l.accepted| > c ==> forall i :: 0 <= i < |l.data| ==> !OldData(c, l.data[i]))
  }

  lemma IdsAlternate(n: nat)
    ensures IdOf(n) != IdOf(n + 1) && IdOf(n + 2) == IdOf(n) && Flip(IdOf(n)) == IdOf(n + 1) && NoSync(IdOf(n)) == IdOf(n)
    ensures ValidId(IdOf(n))
  {
  }

  lemma TransmitKeeps(l: Link)
    requires Inv(l) && l.sending
    ensures Inv(Transmitted(l))
  {
    IdsAlternate(|l.sent| - 1);
    hide IdOf;
  }

  lemma SendKeeps(l: Link, p: Payload)
    requires Inv(l) && !l.sending
    ensures Inv(l.(sending := true, sent := l.sent + [p]))
  {
    IdsAlternate(|l.sent|);
    hide IdOf;
  }

  /** Losing a packet, or taking one that changes nothing else. */
  lemma FewerControls(l: Link, i: nat)
    requires Inv(l) && i < |l.control|
    ensures Inv(l.(control := Without(l.control, i)))
  {
    hide IdOf;
    var t := Without(l.control, i);
    forall j | 0 <= j < |t|
      ensures t[j] == l.control[if j < i then j else j + 1]
    {
    }
  }

  lemma FewerData(l: Link, i: nat)
    requires Inv(l) && i < |l.data|
    ensures Inv(l.(data := Without(l.data, i)))
  {
    hide IdOf;
    var t := Without(l.data, i);
    forall j | 0 <= j < |t|
      ensures t[j] == l.data[if j < i then j else j + 1]
    {
    }
  }

  lemma DamageKeeps(l: Link, i: nat, d: Data)
    requires Inv(l) && i < |l.data| && (d.Noise? || (l.data[i].Data? && d.id == l.data[i].id && !d.intact))
    ensures Inv(l.(data := l.data[i := d]))
  {
    hide IdOf;
    var c := |l.sent| - if l.sending then 1 else 0;
    assert DataOk(l, c, l.data[i]);
  }

  /** The acknowledgement of the packet under way: the receiver has it, and what is left of it on the
      channels is old from now on. */
  lemma AckedKeeps(l: Link, t: Link)
    requires Inv(l) && l.sending && l.control != [] && l.control[0] == Ack(l.next)
    requires t == l.(control := Without(l.control, 0), next := IdOf(|l.sent|), sending := false)
    ensures Inv(t) && t.accepted == t.sent
  {
    var c := |l.sent| - 1;
    IdsAlternate(c);
    IdsAlternate(c + 1);
    FewerControls(l, 0);
    hide IdOf;
    assert ControlOk(l, c, l.control[0]);
    forall i | 0 <= i < |t.data|
      ensures DataOk(t, c + 1, t.data[i])
    {
      assert DataOk(l, c, l.data[i]);
    }
    forall i | 0 <= i < |t.control|
      ensures ControlOk(t, c + 1, t.control[i])
    {
      assert t.control[i] == l.control[i + 1] && ControlOk(l, c, l.control[i + 1]);
    }
  }

  lemma TakeControlKeeps(l: Link)
    requires Inv(l)
    ensures Inv(Step(l, TakeControl))
  {
    if l.sending && l.control != [] {
      var c := |l.sent| - 1;
      IdsAlternate(c);
      IdsAlternate(c + 1);
      FewerControls(l, 0);
      hide IdOf, Flip, NoSync, Inv;
      assert l.control[1..] == Without(l.control, 0);
      InvNext(l);
      if l.control[0] == Ack(l.next) {
        AckedKeeps(l, Step(l, TakeControl));
      } else if l.control[0].Resend? {
        TransmitKeeps(l.(control := Without(l.control, 0)));
      }
    }
  }

  lemma InvNext(l: Link)
    requires Inv(l)
    ensures l.next == IdOf(|l.sent| - if l.sending then 1 else 0) && l.expected == IdOf(|l.accepted|)
  {
  }

  lemma TakeDataKeeps(l: Link)
    requires Inv(l)
    ensures Inv(Step(l, TakeData))
  {
    if l.data != [] {
      FewerData(l, 0);
      assert l.data[1..] == Without(l.data, 0);
      var c := |l.sent| - if l.sending then 1 else 0;
      IdsAlternate(c);
      IdsAlternate(c + 1);
      hide IdOf, Flip;
      var t := l.(data := l.data[1..]);
      assert DataOk(l, c, l.data[0]);
      if l.data[0].Noise? || (l.data[0].id == l.expected && !l.data[0].intact) {
        AnswerKeeps(t, Resend);
      } else if l.data[0].id != l.expected {
        AnswerKeeps(t, Ack(l.data[0].id));
      } else {
        AcceptKeeps(l);
      }
    }
  }

  /** An answer that tells nothing new joins the control channel. */
  lemma AnswerKeeps(l: Link, k: Control)
    requires Inv(l)
    requires var c := |l.sent| - if l.sending then 1 else 0;
      k.Ack? ==> k.id == IdOf(|l.accepted| + 1) && ValidId(k.id)
    ensures Inv(l.(control := l.control + [k]))
  {
    var c := |l.sent| - if l.sending then 1 else 0;
    IdsAlternate(c);
    IdsAlternate(c + 1);
    hide IdOf;
    var t := l.(control := l.control + [k]);
    forall i | 0 <= i < |l.control|
      ensures ControlOk(t, c, t.control[i])
    {
      assert ControlOk(l, c, l.control[i]);
    }
  }

  /** The packet under way arrives for the first time. */
  lemma AcceptKeeps(l: Link)
    requires Inv(l) && l.data != [] && l.data[0].Data? && l.data[0].intact && l.data[0].id == l.expected
    ensures Inv(Step(l, TakeData)) && l.sending && |l.accepted| == |l.sent| - 1
  {
    var c := |l.sent| - if l.sending then 1 else 0;
    IdsAlternate(c);
    IdsAlternate(c + 1);
    hide IdOf, Flip;
    assert DataOk(l, c, l.data[0]);
    assert !(|l.accepted| > c);
  }

  lemma StepKeeps(l: Link, e: Event)
    requires Inv(l)
    ensures Inv(Step(l, e))
  {
    hide Inv;
    match e
    case Send(p) =>
      if !l.sending {
        SendKeeps(l, p);
        TransmitKeeps(l.(sending := true, sent := l.sent + [p]));
      }
    case TimeOut =>
      if l.sending {
        TransmitKeeps(l);
      }
    case TakeControl => TakeControlKeeps(l);
    case TakeData => TakeDataKeeps(l);
    case LoseData(i) =>
      if i < |l.data| {
        FewerData(l, i);
      }
    case LoseControl(i) =>
      if i < |l.control| {
        FewerControls(l, i);
      }
    case DamageBody(i, junk) =>
      if i < |l.data| && l.data[i].Data? {
        DamageKeeps(l, i, Data(l.data[i].id, junk, false));
      }
    case DamagePacket(i) =>
      if i < |l.data| {
        DamageKeeps(l, i, Noise);
      }
  }

  // ---------------------------------------------------------------- every run

  /** Whatever the channels do, what is accepted is a prefix of what was sent, short of it at most by the
      packet under way. */
  lemma {:induction false} RunKeeps(l: Link, es: seq<Event>)
    requires Inv(l)
    ensures Inv(Run(l, es))
    decreases |es|
  {
    hide Inv, Step;
    if es != [] {
      StepKeeps(l, es[0]);
      RunKeeps(Step(l, es[0]), es[1..]);
    }
  }

  lemma AcceptedIsPrefix(es: seq<Event>)
    ensures var l := Run(AFTER_RESET, es); l.accepted <= l.sent && |l.sent| <= |l.accepted| + 1
  {
    hide Step;
    assert Inv(AFTER_RESET);
    RunKeeps(AFTER_RESET, es);
  }

  /** When KdSendPacket returns, every payload sent so far has been accepted exactly once, in order. */
  lemma ReturnMeansAccepted(es: seq<Event>)
    ensures var l := Run(AFTER_RESET, es); var t := Step(l, TakeControl);
      l.sending && !t.sending ==> t.sent == l.sent && t.accepted == t.sent
  {
    var l := Run(AFTER_RESET, es);
    assert Inv(AFTER_RESET) by { hide Step; }
    RunKeeps(AFTER_RESET, es);
    StepKeeps(l, TakeControl);
    hide Inv;
    InvNext(l);
    if l.sending && !Step(l, TakeControl).sending {
      InvIdle(Step(l, TakeControl));
    }
  }

  lemma InvIdle(l: Link)
    requires Inv(l) && !l.sending
    ensures l.accepted == l.sent
  {
  }

  // ---------------------------------------------------------------- no run gets stuck

  lemma {:induction false} RunTwice(l: Link, es: seq<Event>, fs: seq<Event>)
    ensures Run(l, es + fs) == Run(Run(l, es), fs)
    decreases |es|
  {
    hide Step;
    if es == [] {
      assert es + fs == fs;
    } else {
      assert (es + fs)[1..] == es[1..] + fs;
      RunTwice(Step(l, es[0]), es[1..], fs);
    }
  }

  /** The sender reads the control channel until it is done or the channel is empty. */
  lemma {:induction false} DrainControl(l: Link) returns (es: seq<Event>)
    requires Inv(l)
    ensures var t := Run(l, es); Inv(t) && t.sent == l.sent
    ensures Run(l, es).sending ==> Ack(l.next) !in l.control && l.sending && Run(l, es).next == l.next
    decreases |l.control|
  {
    hide Inv;
    if !l.sending || l.control == [] {
      es := [];
    } else {
      InvSize(l);
      InvNext(l);
      StepKeeps(l, TakeControl);
      IdsAlternate(|l.sent| - 1);
      var rest := DrainControl(Step(l, TakeControl));
      es := [TakeControl] + rest;
      assert es[1..] == rest;
      assert l.control == [l.control[0]] + l.control[1..];
    }
  }

  lemma InvSize(l: Link)
    requires Inv(l)
    ensures l.sending ==> |l.sent| > 0
  {
  }

  /** The receiver reads the data channel, which ends with the packet under way. */
  lemma {:induction false} DrainData(l: Link) returns (es: seq<Event>)
    requires Inv(l) && l.sending && |l.data| > 0
    requires l.data[|l.data| - 1].Data? && l.data[|l.data| - 1].intact && l.data[|l.data| - 1].id == l.next
    ensures var t := Run(l, es); Inv(t) && t.sent == l.sent && t.sending && t.next == l.next && Ack(l.next) in t.control
    decreases |l.data|
  {
    StepKeeps(l, TakeData);
    var t := Step(l, TakeData);
    InvSize(l);
    InvNext(l);
    IdsAlternate(|l.sent| - 1);
    if |l.data| == 1 {
      es := [TakeData];
      assert Run(l, es) == t by { assert es[1..] == []; }
      assert t.control[|t.control| - 1] == Ack(l.next);
    } else {
      hide Inv;
      assert t.data[|t.data| - 1] == l.data[|l.data| - 1];
      var rest := DrainData(t);
      es := [TakeData] + rest;
      assert es[1..] == rest;
    }
  }

  /** From every reachable state the send under way can still complete, with everything accepted. */
  lemma CanFinish(l: Link) returns (es: seq<Event>)
    requires Inv(l) && l.sending
    ensures var t := Run(l, es); !t.sending && t.sent == l.sent && t.accepted == l.sent
  {
    hide Inv, Step;
    var first := DrainControl(l);
    var a := Run(l, first);
    if !a.sending {
      es := first;
      InvIdle(a);
      return;
    }
    InvSize(a);
    StepKeeps(a, TimeOut);
    var b := Step(a, TimeOut);
    Retransmits(a);
    var second := DrainData(b);
    var third := DrainControl(Run(b, second));
    es := first + ([TimeOut] + (second + third));
    RunTwice(l, first, [TimeOut] + (second + third));
    assert ([TimeOut] + (second + third))[1..] == second + third;
    RunTwice(b, second, third);
    InvIdle(Run(l, es));
  }

  lemma Retransmits(l: Link)
    requires l.sending && |l.sent| > 0
    ensures Step(l, TimeOut) == l.(data := l.data + [Data(l.next, l.sent[|l.sent| - 1], true)])
  {
  }

  // ---------------------------------------------------------------- before the first RESET

  /** The ends as the kernel starts them: the id to send carries the sync bit. */
  const STARTED := Link(INITIAL_PACKET_ID + SYNC_PACKET_ID, false, [], INITIAL_PACKET_ID, [], [], [])

  ghost predicate Unsynced(l: Link) {
    && l.next == STARTED.next && l.expected == STARTED.expected && l.accepted == []
    && |l.sent| == (if l.sending then 1 else 0)
    && (forall i :: 0 <= i < |l.data| ==> l.data[i].Data? ==> l.data[i].id == l.next)
    && (forall i :: 0 <= i < |l.control| ==> l.control[i] == Resend)
  }

  lemma UnsyncedKeeps(l: Link, e: Event)
    requires Unsynced(l)
    ensures Unsynced(Step(l, e)) && (l.sending ==> Step(l, e).sending)
  {
  }

  /** Until a RESET arrives nothing is ever accepted, and the first send never returns. */
  lemma {:induction false} NothingBeforeReset(l: Link, es: seq<Event>)
    requires Unsynced(l)
    ensures Run(l, es).accepted == [] && (l.sending ==> Run(l, es).sending)
    decreases |es|
  {
    hide Step, Unsynced;
    if es != [] {
      UnsyncedKeeps(l, es[0]);
      NothingBeforeReset(Step(l, es[0]), es[1..]);
    } else {
      UnsyncedAccepts(l);
    }
  }

  lemma UnsyncedAccepts(l: Link)
    requires Unsynced(l)
    ensures l.accepted == []
  {
  }

  lemma StartedNeverDelivers(es: seq<Event>)
    ensures Run(STARTED, es).accepted == []
  {
    hide Step, Run;
    NothingBeforeReset(STARTED, es);
  }
}
