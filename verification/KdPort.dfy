/** One end of the debugger link, byte by byte: frames on the serial port, the search for a packet
    leader, and what each received frame does to the two packet ids (kernel/kd.cpp). */
module KdPort {
  import opened Common
  import opened KdLink

  const PACKET_LEADER_BYTE: Byte := 0x30
  const CONTROL_PACKET_LEADER_BYTE: Byte := 0x69
  const BREAKIN_PACKET_BYTE: Byte := 0x62
  const PACKET_TRAILING_BYTE: Byte := 0xAA
  const PACKET_MAX_SIZE := 4000
  const PACKET_TYPE_KD_ACKNOWLEDGE := 4
  const PACKET_TYPE_KD_RESEND := 5
  const PACKET_TYPE_KD_RESET := 6
  const PACKET_TYPE_KD_POLL_BREAKIN := 8
  const LEADER_SIZE := 4
  const KD_PACKET_SIZE := 16

  // ---------------------------------------------------------------- frames

  /** A KD_PACKET with the bytes behind it. */
  datatype Frame = Frame(control: bool, kind: nat, id: nat, checksum: nat, body: seq<Byte>)

  ghost predicate FrameOk(f: Frame) {
    f.kind < 0x1_0000 && f.id < TWO32 && f.checksum < TWO32 && |f.body| < 0x1_0000 && (f.control ==> f.body == [])
  }

  function Le16(n: nat): (b: seq<Byte>)
    requires n < 0x1_0000
    ensures |b| == 2 && Word16(b, 0) == n
  {
    [n % 0x100, n / 0x100]
  }

  function Le32(n: nat): (b: seq<Byte>)
    requires n < TWO32
    ensures |b| == 4 && Word32(b, 0) == n
  {
    Le16(n % 0x1_0000) + Le16(n / 0x1_0000)
  }

  function LeaderByte(control: bool): Byte {
    if control then CONTROL_PACKET_LEADER_BYTE else PACKET_LEADER_BYTE
  }

  function Header(f: Frame): (b: seq<Byte>)
    requires FrameOk(f)
    ensures |b| == KD_PACKET_SIZE
  {
    seq(LEADER_SIZE, _ => LeaderByte(f.control)) + Le16(f.kind) + Le16(|f.body|) + Le32(f.id) + Le32(f.checksum)
  }

  /** The bytes put on the wire; only data frames have a trailing byte. */
  function Encode(f: Frame): (b: seq<Byte>)
    requires FrameOk(f)
    ensures |b| == KD_PACKET_SIZE + if f.control then 0 else |f.body| + 1
  {
    if f.control then Header(f) else Header(f) + f.body + [PACKET_TRAILING_BYTE]
  }

  function Sum(b: seq<Byte>): nat {
    if b == [] then 0 else Sum(b[..|b| - 1]) + b[|b| - 1]
  }

  /** The sixteen bytes of a KD_PACKET with a control leader and without byte count and checksum. */
  function ControlWire(kind: nat, id: nat): seq<Byte>
    requires kind < 0x1_0000 && id < TWO32
  {
    [0x69, 0x69, 0x69, 0x69, kind % 0x100, kind / 0x100, 0, 0]
    + [id % 0x100, id / 0x100 % 0x100, id / 0x1_0000 % 0x100, id / 0x100_0000, 0, 0, 0, 0]
  }

  lemma ControlBytes(kind: nat, id: nat)
    requires kind < 0x1_0000 && id < TWO32
    ensures Encode(ControlFrame(kind, id)) == ControlWire(kind, id)
  {
    hide Le32;
    Le32Bytes(id);
    Le32Bytes(0);
  }

  /** The bytes of a data packet: leader four times, then type, byte count, id and checksum with the low byte
      first, the body and the trailing byte. */
  function DataWire(kind: nat, id: nat, checksum: nat, body: seq<Byte>): seq<Byte>
    requires kind < 0x1_0000 && id < TWO32 && checksum < TWO32 && |body| < 0x1_0000
  {
    [0x30, 0x30, 0x30, 0x30, kind % 0x100, kind / 0x100, |body| % 0x100, |body| / 0x100]
    + [id % 0x100, id / 0x100 % 0x100, id / 0x1_0000 % 0x100, id / 0x100_0000]
    + [checksum % 0x100, checksum / 0x100 % 0x100, checksum / 0x1_0000 % 0x100, checksum / 0x100_0000]
    + body + [0xAA]
  }

  lemma Le32Bytes(n: nat)
    requires n < TWO32
    ensures Le32(n) == [n % 0x100, n / 0x100 % 0x100, n / 0x1_0000 % 0x100, n / 0x100_0000]
  {
    var low, high := n % 0x1_0000, n / 0x1_0000;
    assert low % 0x100 == n % 0x100 && low / 0x100 == n / 0x100 % 0x100;
    assert high % 0x100 == n / 0x1_0000 % 0x100 && high / 0x100 == n / 0x100_0000;
  }

  lemma DataBytes(kind: nat, id: nat, checksum: nat, body: seq<Byte>)
    requires kind < 0x1_0000 && id < TWO32 && checksum < TWO32 && |body| < 0x1_0000
    ensures Encode(Frame(false, kind, id, checksum, body)) == DataWire(kind, id, checksum, body)
  {
    hide Le32;
    Le32Bytes(id);
    Le32Bytes(checksum);
  }

  lemma {:induction false} SumConcat(a: seq<Byte>, b: seq<Byte>)
    ensures Sum(a + b) == Sum(a) + Sum(b)
    decreases |b|
  {
    if b == [] {
      assert a + b == a;
    } else {
      assert (a + b)[..|a + b| - 1] == a + b[..|b| - 1];
      SumConcat(a, b[..|b| - 1]);
    }
  }

  /** Changing one byte changes the checksum. */
  lemma OneByteChangesSum(b: seq<Byte>, i: nat, x: Byte)
    requires i < |b| && b[i] != x
    ensures Sum(b[i := x]) % TWO32 != Sum(b) % TWO32
  {
    assert b == b[..i] + ([b[i]] + b[i + 1..]);
    assert b[i := x] == b[..i] + ([x] + b[i + 1..]);
    SumConcat(b[..i], [b[i]] + b[i + 1..]);
    SumConcat(b[..i], [x] + b[i + 1..]);
    SumConcat([b[i]], b[i + 1..]);
    SumConcat([x], b[i + 1..]);
    assert Sum([b[i]]) == b[i] && Sum([x]) == x;
    ModDiffers(Sum(b), Sum(b[i := x]));
  }

  lemma ModDiffers(a: nat, b: nat)
    requires a != b && -0x100 < a - b < 0x100
    ensures a % TWO32 != b % TWO32
  {
  }

  // ---------------------------------------------------------------- what a frame does

  datatype Result =
    | Continue
    | Received
    | Accepted(kind: nat, header: seq<Byte>, data: seq<Byte>)
    | TimedOut
    | ResendAsked

  /** After a frame: the two ids, the control frames sent, the result, and how many bytes were read. */
  datatype Effect = Effect(next: nat, expected: nat, replies: seq<Frame>, result: Result, used: nat)

  function ControlFrame(kind: nat, id: nat): Frame { Frame(true, kind, id, 0, []) }

  /** The control frame for an answer of the link. */
  function Answer(c: Control): Frame {
    match c
    case Ack(id) => ControlFrame(PACKET_TYPE_KD_ACKNOWLEDGE, id)
    case Resend => ControlFrame(PACKET_TYPE_KD_RESEND, 0)
  }

  /** One round of KdReceivePacketWithType on a frame that arrives undamaged in form; `want` is the
      packet type asked for, 0 for any, and `headerSize` the size of the message header. */
  function OnFrame(want: nat, headerSize: nat, next: nat, expected: nat, f: Frame): Effect {
    var resend := Answer(Resend);
    var ack := Answer(Ack(f.id));
    var whole := KD_PACKET_SIZE + |f.body| + 1;
    if f.control then
      if f.kind == PACKET_TYPE_KD_RESEND then Effect(next, expected, [], ResendAsked, LEADER_SIZE + 2)
      else if f.kind == PACKET_TYPE_KD_ACKNOWLEDGE then
        if f.id == NoSync(next) && want == PACKET_TYPE_KD_ACKNOWLEDGE then
          Effect(Flip(next), expected, [], Received, KD_PACKET_SIZE)
        else Effect(next, expected, [], Continue, KD_PACKET_SIZE)
      else if f.kind == PACKET_TYPE_KD_RESET then
        Effect(INITIAL_PACKET_ID, INITIAL_PACKET_ID, [ControlFrame(PACKET_TYPE_KD_RESET, 0)], Received, KD_PACKET_SIZE)
      else Effect(next, expected, [], Continue, KD_PACKET_SIZE)
    else if want == PACKET_TYPE_KD_ACKNOWLEDGE then
      if f.id == expected then Effect(Flip(next), Flip(expected), [resend], Received, KD_PACKET_SIZE)
      else Effect(next, expected, [ack], Continue, KD_PACKET_SIZE)
    else if |f.body| > PACKET_MAX_SIZE || |f.body| < headerSize then
      Effect(next, expected, [resend], Continue, KD_PACKET_SIZE)
    else if want != f.kind && want != 0 then Effect(next, expected, [ack], Continue, whole)
    else if !ValidId(f.id) then Effect(next, expected, [resend], Continue, whole)
    else if f.id != expected then Effect(next, expected, [ack], Continue, whole)
    else if Sum(f.body) % TWO32 != f.checksum then Effect(next, expected, [resend], Continue, whole)
    else Effect(next, Flip(expected), [ack], Accepted(f.kind, f.body[..headerSize], f.body[headerSize..]), whole)
  }

  /** Between ends that use one packet type, receiving data frames is the receiver of the link. */
  lemma ReceivingIsOnData(kind: nat, headerSize: nat, next: nat, expected: nat, f: Frame)
    requires !f.control && f.kind == kind != PACKET_TYPE_KD_ACKNOWLEDGE && kind != 0
    requires headerSize <= |f.body| <= PACKET_MAX_SIZE
    ensures var e := OnFrame(kind, headerSize, next, expected, f);
      var (p, c, expected') := OnData(expected, Data(f.id, f.body, Sum(f.body) % TWO32 == f.checksum));
      && e.replies == [Answer(c)] && e.expected == expected' && e.next == next
      && (p == if e.result.Accepted? then Some(e.result.header + e.result.data) else None)
  {
    assert f.body == f.body[..headerSize] + f.body[headerSize..];
  }

  /** Waiting for an acknowledgement is the sender of the link, on the answers the receiver gives. */
  lemma WaitingIsOnControl(headerSize: nat, next: nat, expected: nat, c: Control)
    ensures var e := OnFrame(PACKET_TYPE_KD_ACKNOWLEDGE, headerSize, next, expected, Answer(c));
      var (w, next') := OnControl(next, c);
      && e.next == next' && e.expected == expected && e.replies == []
      && e.result == match w case Done => Received case SendAgain => ResendAsked case KeepWaiting => Continue
  {
  }

  /** Data is accepted exactly if data is wanted, the packet is of the wanted type and of a size that holds the
      message header, its id is the one expected and its checksum fits; it is acknowledged then. */
  lemma AcceptedExactly(want: nat, headerSize: nat, next: nat, expected: nat, f: Frame)
    ensures var e := OnFrame(want, headerSize, next, expected, f);
      && (e.result.Accepted? <==>
           && !f.control && want != PACKET_TYPE_KD_ACKNOWLEDGE && (want == f.kind || want == 0)
           && headerSize <= |f.body| <= PACKET_MAX_SIZE && f.id == expected && expected / 2 == INITIAL_PACKET_ID / 2
           && f.checksum == Sum(f.body) % TWO32)
      && (e.result.Accepted? ==>
           && e.result.kind == f.kind && e.result.header + e.result.data == f.body && |e.result.header| == headerSize
           && e.replies == [ControlFrame(PACKET_TYPE_KD_ACKNOWLEDGE, expected)])
  {
    hide Sum;
  }

  /** The id expected changes, to its other value, when data is accepted, and when data that could have been
      is met while an acknowledgement is awaited; otherwise only a RESET sets it.  The id sent next
      changes for that data too, and when the acknowledgement awaited for it comes. */
  lemma IdsChange(want: nat, headerSize: nat, next: nat, expected: nat, f: Frame)
    requires !IsReset(f) && FrameOk(f)
    ensures var e := OnFrame(want, headerSize, next, expected, f);
      var crossed := !f.control && want == PACKET_TYPE_KD_ACKNOWLEDGE && f.id == expected;
      var acknowledged := f.control && f.kind == want == PACKET_TYPE_KD_ACKNOWLEDGE && f.id == NoSync(next);
      && e.expected == (if e.result.Accepted? || crossed then Flip(expected) else expected)
      && e.next == (if acknowledged || crossed then Flip(next) else next)
      && (e.result == Received <==> acknowledged || crossed)
      && (e.result == ResendAsked <==> f.control && f.kind == PACKET_TYPE_KD_RESEND)
  {
    hide Sum;
  }

  /** A control packet other than RESET is never answered.  A data packet gets one answer: the request to send
      it again if it cannot be used as it is (its size is wrong, its id invalid, its checksum off, or an
      acknowledgement was awaited and it is new), else its acknowledgement.  So a packet that came before
      is acknowledged, and so is one of a type not asked for, which is lost with that. */
  lemma AnsweredHow(want: nat, headerSize: nat, next: nat, expected: nat, f: Frame)
    requires !IsReset(f) && FrameOk(f)
    ensures var e := OnFrame(want, headerSize, next, expected, f);
      var sized := headerSize <= |f.body| <= PACKET_MAX_SIZE;
      var wanted := want == f.kind || want == 0;
      var unusable := !ValidId(f.id) || (f.id == expected && Sum(f.body) % TWO32 != f.checksum);
      if f.control then e.replies == []
      else if want == PACKET_TYPE_KD_ACKNOWLEDGE then
        e.replies == [if f.id == expected then ControlFrame(PACKET_TYPE_KD_RESEND, 0)
                      else ControlFrame(PACKET_TYPE_KD_ACKNOWLEDGE, f.id)]
      else e.replies == [if !sized || (wanted && unusable) then ControlFrame(PACKET_TYPE_KD_RESEND, 0)
                         else ControlFrame(PACKET_TYPE_KD_ACKNOWLEDGE, f.id)]
  {
    hide Sum;
  }

  /** A control frame that asks both ends to start anew. */
  predicate IsReset(f: Frame) {
    f.control && f.kind == PACKET_TYPE_KD_RESET && f.body == [] && f.id < TWO32 && f.checksum < TWO32
  }

  lemma ResetEnds(want: nat, headerSize: nat, next: nat, expected: nat, f: Frame)
    requires IsReset(f)
    ensures FrameOk(f) && Ends(want, headerSize, next, expected, [f]) && EncodeAll([f]) == Encode(f)
    ensures EncodeAll([ControlFrame(PACKET_TYPE_KD_RESET, 0)]) == ControlWire(PACKET_TYPE_KD_RESET, 0)
    ensures OnFrames(want, headerSize, next, expected, [f]) == Effect(AFTER_RESET.next, AFTER_RESET.expected,
      [ControlFrame(PACKET_TYPE_KD_RESET, 0)], Received, KD_PACKET_SIZE)
  {
    ControlBytes(PACKET_TYPE_KD_RESET, 0);
    hide Encode, ControlWire;
  }

  /** Whatever the ids were and whatever was asked for: after a RESET the next intact data frame with the
      initial id is accepted. */
  lemma AcceptedAfterReset(want: nat, headerSize: nat, next: nat, expected: nat, reset: Frame, kind: nat, body: seq<Byte>)
    requires IsReset(reset) && kind < 0x1_0000 && kind != PACKET_TYPE_KD_ACKNOWLEDGE
    requires headerSize <= |body| <= PACKET_MAX_SIZE
    ensures Ends(want, headerSize, next, expected, [reset])
    ensures var e := OnFrames(want, headerSize, next, expected, [reset]);
      var d := OnFrame(kind, headerSize, e.next, e.expected, Frame(false, kind, INITIAL_PACKET_ID, Sum(body) % TWO32, body));
      && d.result == Accepted(kind, body[..headerSize], body[headerSize..])
      && d.replies == [Answer(Ack(INITIAL_PACKET_ID))] && d.expected == Flip(INITIAL_PACKET_ID)
  {
    hide Sum;
    ResetEnds(want, headerSize, next, expected, reset);
  }

  /** A data frame with one byte of its body damaged is never accepted. */
  lemma DamageIsNoticed(want: nat, headerSize: nat, next: nat, expected: nat, f: Frame, i: nat, x: Byte)
    requires f.checksum == Sum(f.body) % TWO32 && i < |f.body| && f.body[i] != x
    ensures !OnFrame(want, headerSize, next, expected, f.(body := f.body[i := x])).result.Accepted?
  {
    OneByteChangesSum(f.body, i, x);
  }

  // ---------------------------------------------------------------- the port

  /** What reading the port gives; behind the last one every read times out. */
  datatype Read = Got(b: Byte) | Error

  datatype PortCode = CP_GET_SUCCESS | CP_GET_NODATA | CP_GET_ERROR

  /** The bytes lie on the wire from position at on, without errors. */
  ghost predicate OnWire(input: seq<Read>, at: nat, b: seq<Byte>) {
    at + |b| <= |input| && forall k :: 0 <= k < |b| ==> input[at + k] == Got(b[k])
  }

  /** Four equal leader bytes end at position j. */
  ghost predicate LeaderEnds(input: seq<Read>, j: nat, control: bool) {
    LEADER_SIZE <= j <= |input| && forall k :: j - LEADER_SIZE <= k < j ==> input[k] == Got(LeaderByte(control))
  }

  predicate IsLeaderByte(r: Read) {
    r == Got(PACKET_LEADER_BYTE) || r == Got(CONTROL_PACKET_LEADER_BYTE)
  }

  /** No packet leader that starts at `from` or behind ends at `to` or before. */
  ghost predicate NoLeader(input: seq<Read>, from: nat, to: int) {
    forall j, c :: from + LEADER_SIZE <= j <= to ==> !LeaderEnds(input, j, c)
  }

  ghost predicate NoBreakin(input: seq<Read>, from: nat, to: nat) {
    forall k :: from <= k < to <= |input| ==> input[k] != Got(BREAKIN_PACKET_BYTE)
  }

  ghost predicate FirstLeader(input: seq<Read>, from: nat, to: nat, control: bool) {
    from + LEADER_SIZE <= to && LeaderEnds(input, to, control) && NoLeader(input, from, to - 1) && NoBreakin(input, from, to)
  }

  ghost predicate FirstBreakin(input: seq<Read>, from: nat, to: nat) {
    && from < to <= |input| && input[to - 1] == Got(BREAKIN_PACKET_BYTE)
    && NoLeader(input, from, to) && NoBreakin(input, from, to - 1)
  }

  datatype Search = Leader(control: bool) | Silence | Breakin

  /** The bytes of the frames, one after the other. */
  ghost function EncodeAll(fs: seq<Frame>): seq<Byte> {
    if fs == [] then [] else (if FrameOk(fs[0]) then Encode(fs[0]) else []) + EncodeAll(fs[1..])
  }

  lemma Answers(id: nat)
    ensures Answer(Ack(id)) == ControlFrame(PACKET_TYPE_KD_ACKNOWLEDGE, id)
    ensures Answer(Resend) == ControlFrame(PACKET_TYPE_KD_RESEND, 0)
  {
  }

  lemma SumsAdd(a: nat, b: nat)
    ensures (a % TWO32 + b % TWO32) % TWO32 == (a + b) % TWO32
  {
  }

  /** The checks a data packet read whole goes through. */
  lemma OnChecked(want: nat, next: nat, expected: nat, kind: nat, id: nat, checksum: nat, header: seq<Byte>, data: seq<Byte>)
    requires want != PACKET_TYPE_KD_ACKNOWLEDGE && |header + data| <= PACKET_MAX_SIZE
    ensures var e := OnFrame(want, |header|, next, expected, Frame(false, kind, id, checksum, header + data));
      var ack := Answer(Ack(id));
      && e.next == next
      && (want != kind && want != 0 ==> e.replies == [ack] && e.result == Continue && e.expected == expected)
      && (want == kind || want == 0 ==>
           && (!ValidId(id) ==> e.replies == [Answer(Resend)] && e.result == Continue && e.expected == expected)
           && (ValidId(id) && id != expected ==> e.replies == [ack] && e.result == Continue && e.expected == expected)
           && (ValidId(id) && id == expected ==>
                if (Sum(header) + Sum(data)) % TWO32 != checksum then
                  e.replies == [Answer(Resend)] && e.result == Continue && e.expected == expected
                else e.replies == [ack] && e.result == Accepted(kind, header, data) && e.expected == Flip(expected)))
  {
    hide Sum, Answer, ValidId, Flip;
    SumConcat(header, data);
    assert (header + data)[..|header|] == header && (header + data)[|header|..] == data;
  }

  lemma NoReplies(out: seq<Byte>)
    ensures out + EncodeAll([]) == out
  {
  }

  /** KdCheckSumPacket, a ULONG sum. */
  method CheckSumPacket(b: seq<Byte>) returns (sum: nat)
    ensures sum == Sum(b) % TWO32
  {
    sum := 0;
    for i := 0 to |b|
      invariant sum == Sum(b[..i]) % TWO32
    {
      assert b[..i + 1][..i] == b[..i];
      sum := (sum + b[i]) % TWO32;
    }
    assert b[..|b|] == b;
  }

  lemma WireSlice(input: seq<Read>, at: nat, b: seq<Byte>, i: nat, j: nat)
    requires OnWire(input, at, b) && i <= j <= |b|
    ensures OnWire(input, at + i, b[i..j])
  {
    forall k | 0 <= k < j - i
      ensures input[at + i + k] == Got(b[i..j][k])
    {
      assert input[at + (i + k)] == Got(b[i + k]);
    }
  }

  /** Where the parts of a frame lie. */
  lemma FrameOnWire(input: seq<Read>, at: nat, f: Frame)
    requires FrameOk(f) && OnWire(input, at, Encode(f))
    ensures LeaderEnds(input, at + LEADER_SIZE, f.control)
    ensures OnWire(input, at + LEADER_SIZE, Le16(f.kind))
    ensures HeaderRest(input, at + LEADER_SIZE + 2, f)
  {
    var b := Encode(f);
    forall k | at <= k < at + LEADER_SIZE
      ensures input[k] == Got(LeaderByte(f.control))
    {
      assert input[at + (k - at)] == Got(b[k - at]);
    }
    WireSlice(input, at, b, LEADER_SIZE, LEADER_SIZE + 2);
    assert b[LEADER_SIZE..LEADER_SIZE + 2] == Le16(f.kind);
    WireSlice(input, at, b, LEADER_SIZE + 2, KD_PACKET_SIZE);
    assert b[LEADER_SIZE + 2..KD_PACKET_SIZE] == Le16(|f.body|) + Le32(f.id) + Le32(f.checksum);
    if !f.control {
      WireSlice(input, at, b, KD_PACKET_SIZE, |b|);
      assert b[KD_PACKET_SIZE..] == f.body + [PACKET_TRAILING_BYTE];
    }
  }

  lemma BodyOnWire(input: seq<Read>, at: nat, body: seq<Byte>, n: nat)
    requires OnWire(input, at, body + [PACKET_TRAILING_BYTE]) && n <= |body|
    ensures OnWire(input, at, body[..n]) && OnWire(input, at + n, body[n..])
    ensures at + |body| < |input| && input[at + |body|] == Got(PACKET_TRAILING_BYTE) && body[..n] + body[n..] == body
  {
    var b := body + [PACKET_TRAILING_BYTE];
    WireSlice(input, at, b, 0, n);
    WireSlice(input, at, b, n, |body|);
    assert b[0..n] == body[..n] && b[n..|body|] == body[n..];
    assert input[at + |body|] == Got(b[|body|]);
  }

  /** The search for a leader ends behind the four bytes that lie there. */
  lemma LeaderThere(input: seq<Read>, from: nat, control: bool, to: nat, c: bool)
    requires LeaderEnds(input, from + LEADER_SIZE, control)
    ensures FirstLeader(input, from, to, c) ==> to == from + LEADER_SIZE && c == control
    ensures !FirstBreakin(input, from, to) && (to == |input| ==> !NoLeader(input, from, to))
  {
    var j := from + LEADER_SIZE;
    assert LeaderEnds(input, j, control) && input[from + 3] == Got(LeaderByte(control));
    assert to >= j ==> !NoLeader(input, from, to);
    assert to > j ==> !NoLeader(input, from, to - 1);
    assert from < to < j ==> input[to - 1] == Got(LeaderByte(control));
  }

  /** The last three fields of a KD_PACKET, as they are read back. */
  lemma FieldsBack(count: nat, id: nat, checksum: nat)
    requires count < 0x1_0000 && id < TWO32 && checksum < TWO32
    ensures var b := Le16(count) + Le32(id) + Le32(checksum);
      |b| == 10 && Word16(b, 0) == count && Word32(b, 2) == id && Word32(b, 6) == checksum
  {
  }

  /** The search for a leader ends in one way only. */
  lemma OneEnd(input: seq<Read>, from: nat, to: nat, found: Search)
    requires from <= to <= |input|
    requires match found
      case Leader(c) => FirstLeader(input, from, to, c)
      case Silence => to == |input| && NoLeader(input, from, to) && NoBreakin(input, from, to)
      case Breakin => FirstBreakin(input, from, to)
    ensures forall j :: FirstBreakin(input, from, j) ==> found.Breakin? && j == to
    ensures NoLeader(input, from, |input|) ==> !found.Leader?
  {
    hide LeaderEnds;
    forall j: nat | FirstBreakin(input, from, j)
      ensures found.Breakin? && j == to
    {
      assert input[j - 1] == Got(BREAKIN_PACKET_BYTE);
      assert found.Breakin? ==> input[to - 1] == Got(BREAKIN_PACKET_BYTE);
    }
  }

  class Port {
    var input: seq<Read>
    var at: nat
    var output: seq<Byte>
    var next: nat              // KdpNextPacketIdToSend
    var expected: nat          // KdpPacketIdExpected
    var controlCPending: bool

    ghost predicate Valid()
      reads this
    {
      at <= |input| && next < TWO32 && expected < TWO32
    }

    /** As the kernel starts. */
    constructor (input: seq<Read>)
      ensures Valid() && this.input == input && at == 0 && output == []
      ensures next == STARTED.next && expected == STARTED.expected
    {
      this.input, at, output, controlCPending := input, 0, [], false;
      next, expected := INITIAL_PACKET_ID + SYNC_PACKET_ID, INITIAL_PACKET_ID;
    }

    method GetByte() returns (code: PortCode, b: Byte)
      requires Valid()
      modifies this`at
      ensures Valid()
      ensures old(at) == |input| ==> code == CP_GET_NODATA && at == old(at)
      ensures old(at) < |input| ==> at == old(at) + 1
      ensures old(at) < |input| ==>
        if input[old(at)].Got? then code == CP_GET_SUCCESS && b == input[old(at)].b else code == CP_GET_ERROR
    {
      b := 0;
      if at == |input| {
        return CP_GET_NODATA, b;
      }
      code := CP_GET_ERROR;
      if input[at].Got? {
        code, b := CP_GET_SUCCESS, input[at].b;
      }
      at := at + 1;
    }

    /** KdpReceiveString: n bytes, passing over bytes received in error; `b` is what may lie on the wire. */
    method ReceiveString(n: nat, ghost b: seq<Byte>) returns (code: PortCode, bytes: seq<Byte>)
      requires Valid()
      modifies this`at
      ensures Valid() && at >= old(at) + |bytes|
      ensures if code == CP_GET_SUCCESS then |bytes| == n else code == CP_GET_NODATA && |bytes| < n && at == |input|
      ensures |b| == n && OnWire(input, old(at), b) ==> code == CP_GET_SUCCESS && bytes == b && at == old(at) + n
    {
      code, bytes := CP_GET_SUCCESS, [];
      while |bytes| < n
        invariant Valid() && at >= old(at) + |bytes| && |bytes| <= n
        invariant |b| == n && OnWire(input, old(at), b) ==> at == old(at) + |bytes| && bytes == b[..|bytes|]
        decreases |input| - at, n - |bytes|
      {
        if |b| == n && OnWire(input, old(at), b) {
          assert input[old(at) + |bytes|] == Got(b[|bytes|]);
        }
        var c, x := GetByte();
        if c == CP_GET_NODATA {
          return CP_GET_NODATA, bytes;
        }
        if c == CP_GET_SUCCESS {
          bytes := bytes + [x];
        }
      }
    }

    /** KdpReceivePacketLeader: the first four equal leader bytes in a row, unless a break-in byte comes
        first. */
    method ReceiveLeader() returns (found: Search)
      requires Valid()
      modifies this`at, this`controlCPending
      ensures Valid() && at >= old(at)
      ensures match found
        case Leader(c) => FirstLeader(input, old(at), at, c)
        case Silence => at == |input| && NoLeader(input, old(at), at) && NoBreakin(input, old(at), at)
        case Breakin => controlCPending && FirstBreakin(input, old(at), at)
      ensures !found.Breakin? ==> controlCPending == old(controlCPending)
    {
      var index, prev := 0, 0;
      while index < LEADER_SIZE
        invariant Valid() && controlCPending == old(controlCPending)
        invariant 0 <= index <= LEADER_SIZE && at >= old(at) + index
        invariant index > 0 ==> prev in {PACKET_LEADER_BYTE, CONTROL_PACKET_LEADER_BYTE}
        invariant forall k :: at - index <= k < at ==> input[k] == Got(prev)
        invariant at - index > old(at) ==> !(index > 0 && input[at - index - 1] == Got(prev))
        invariant index == 0 && at > old(at) ==> !IsLeaderByte(input[at - 1])
        invariant NoBreakin(input, old(at), at) && NoLeader(input, old(at), if index < LEADER_SIZE then at else at - 1)
        decreases |input| - at, LEADER_SIZE - index
      {
        var code, b := GetByte();
        if code == CP_GET_NODATA {
          return Silence;
        } else if code == CP_GET_ERROR {
          index := 0;
        } else if b == PACKET_LEADER_BYTE || b == CONTROL_PACKET_LEADER_BYTE {
          if index == 0 {
            prev, index := b, 1;
          } else if b == prev {
            index := index + 1;
          } else {
            prev, index := b, 1;
          }
        } else {
          index := 0;
          if b == BREAKIN_PACKET_BYTE {
            controlCPending := true;
            return Breakin;
          }
        }
      }
      return Leader(prev == CONTROL_PACKET_LEADER_BYTE);
    }

    /** KdpSendControlPacket: a KD_PACKET without byte count and checksum. */
    method SendControl(kind: nat, id: nat)
      requires Valid() && kind < 0x1_0000 && id < TWO32
      modifies this`output
      ensures output == old(output) + ControlWire(kind, id)
      ensures output == old(output) + EncodeAll([ControlFrame(kind, id)])
    {
      ControlBytes(kind, id);
      output := output + Encode(ControlFrame(kind, id));
    }

    /** The port after a frame that had effect e, read from position at0 with out0 sent before. */
    ghost predicate Does(e: Effect, result: Result, at0: nat, out0: seq<Byte>)
      reads this
    {
      && next == e.next && expected == e.expected && result == e.result && at == at0 + e.used
      && output == out0 + EncodeAll(e.replies)
    }

    /** What holds after a round whatever lay on the wire, damaged or not: the ids only change when something
        was received or accepted; a timeout is the end of the input and, like a RESEND or a break-in, is not
        answered; a round that goes on has sent at most one acknowledgement or request to send again. */
    ghost predicate RoundKeeps(result: Result, next0: nat, expected0: nat, output0: seq<Byte>)
      reads this
    {
      && (result in {Continue, ResendAsked, TimedOut} ==> next == next0 && expected == expected0)
      && (result in {ResendAsked, TimedOut} ==> output == output0)
      && (result == TimedOut ==> at == |input|)
      && (result == Continue ==>
           || output == output0 || output == output0 + ControlWire(PACKET_TYPE_KD_RESEND, 0)
           || exists id: nat :: id < TWO32 && output == output0 + ControlWire(PACKET_TYPE_KD_ACKNOWLEDGE, id))
    }

    /** The branches for a control packet whose header has been read; RESEND is recognised earlier. */
    method TakeControl(want: nat, kind: nat, id: nat) returns (result: Result)
      requires Valid() && kind < 0x1_0000 && id < TWO32 && at >= KD_PACKET_SIZE && kind != PACKET_TYPE_KD_RESEND
      modifies this
      ensures Valid() && input == old(input) && at == old(at) && !result.Accepted?
      ensures Does(OnFrame(want, 0, old(next), old(expected), ControlFrame(kind, id)), result, at - KD_PACKET_SIZE, old(output))
      ensures result in {Continue, Received} && RoundKeeps(result, old(next), old(expected), old(output))
    {
      hide Encode, EncodeAll, ControlWire;
      NoReplies(output);
      if kind == PACKET_TYPE_KD_ACKNOWLEDGE {
        if id != NoSync(next) {
          return Continue;
        } else if want == PACKET_TYPE_KD_ACKNOWLEDGE {
          next := Flip(next);
          return Received;
        } else {
          return Continue;
        }
      } else if kind == PACKET_TYPE_KD_RESET {
        next := INITIAL_PACKET_ID;
        expected := INITIAL_PACKET_ID;
        SendControl(PACKET_TYPE_KD_RESET, 0);
        return Received;
      } else {
        return Continue;
      }
    }

    /** A data packet where an acknowledgement is awaited; its body is not read. */
    method TakeDataForAck(headerSize: nat, id: nat, ghost f: Frame) returns (result: Result)
      requires Valid() && id < TWO32 && at >= KD_PACKET_SIZE
      modifies this
      ensures Valid() && input == old(input) && at == old(at) && !result.Accepted?
      ensures !f.control && f.id == id ==>
        Does(OnFrame(PACKET_TYPE_KD_ACKNOWLEDGE, headerSize, old(next), old(expected), f), result, at - KD_PACKET_SIZE, old(output))
      ensures result in {Continue, Received} && RoundKeeps(result, old(next), old(expected), old(output))
    {
      hide Encode, EncodeAll, ControlWire;
      if id == expected {
        SendControl(PACKET_TYPE_KD_RESEND, 0);
        next := Flip(next);
        expected := Flip(expected);
        return Received;
      }
      SendControl(PACKET_TYPE_KD_ACKNOWLEDGE, id);
      return Continue;
    }

    /** A data packet where data is wanted: read its body and check it. */
    method TakeData(want: nat, headerSize: nat, kind: nat, count: nat, id: nat, checksum: nat, ghost body: seq<Byte>)
      returns (result: Result)
      requires Valid() && id < TWO32 && at >= KD_PACKET_SIZE && want != PACKET_TYPE_KD_ACKNOWLEDGE
      modifies this
      ensures Valid() && input == old(input) && at >= old(at)
      ensures result.Accepted? ==> JustAccepted(result, headerSize, old(expected), old(next), old(output))
      ensures |body| == count && OnWire(input, old(at), body + [PACKET_TRAILING_BYTE]) ==>
        Does(OnFrame(want, headerSize, old(next), old(expected), Frame(false, kind, id, checksum, body)), result,
             old(at) - KD_PACKET_SIZE, old(output))
      ensures (result == Continue || result.Accepted?) && RoundKeeps(result, old(next), old(expected), old(output))
    {
      hide Encode, EncodeAll, Sum, OnWire, ControlWire;
      if count > PACKET_MAX_SIZE || count < headerSize {
        SendControl(PACKET_TYPE_KD_RESEND, 0);
        return Continue;
      }
      var whole, header, data := ReceiveBody(headerSize, count, body);
      if !whole {
        SendControl(PACKET_TYPE_KD_RESEND, 0);
        return Continue;
      }
      result := CheckData(want, kind, id, checksum, header, data);
    }

    /** Message header, data and trailing byte. */
    method ReceiveBody(headerSize: nat, count: nat, ghost body: seq<Byte>) returns (whole: bool, header: seq<Byte>, data: seq<Byte>)
      requires Valid() && headerSize <= count
      modifies this`at
      ensures Valid() && at >= old(at) && (whole ==> |header| == headerSize && |data| == count - headerSize)
      ensures |body| == count && OnWire(input, old(at), body + [PACKET_TRAILING_BYTE]) ==>
        whole && header + data == body && at == old(at) + count + 1
    {
      hide OnWire;
      whole, data := false, [];
      ghost var clean := |body| == count && OnWire(input, at, body + [PACKET_TRAILING_BYTE]);
      if clean {
        BodyOnWire(input, at, body, headerSize);
      }
      var code;
      code, header := ReceiveString(headerSize, if clean then body[..headerSize] else []);
      if code != CP_GET_SUCCESS {
        return;
      }
      code, data := ReceiveString(count - headerSize, if clean then body[headerSize..] else []);
      if code != CP_GET_SUCCESS {
        return;
      }
      var trailing;
      code, trailing := GetByte();
      whole := code == CP_GET_SUCCESS && trailing == PACKET_TRAILING_BYTE;
    }

    /** The checks on a data packet read whole: its type, its id, and last its checksum. */
    method CheckData(want: nat, kind: nat, id: nat, checksum: nat, header: seq<Byte>, data: seq<Byte>) returns (result: Result)
      requires Valid() && id < TWO32 && want != PACKET_TYPE_KD_ACKNOWLEDGE && |header + data| <= PACKET_MAX_SIZE
      modifies this
      ensures Valid() && input == old(input) && at == old(at)
      ensures var e := OnFrame(want, |header|, old(next), old(expected), Frame(false, kind, id, checksum, header + data));
        && next == e.next && expected == e.expected && result == e.result && output == old(output) + EncodeAll(e.replies)
      ensures (result == Continue || result.Accepted?) && RoundKeeps(result, old(next), old(expected), old(output))
    {
      hide Encode, EncodeAll, Sum, Answer, OnFrame, ControlWire, ControlFrame;
      NoReplies(output);
      Answers(id);
      OnChecked(want, next, expected, kind, id, checksum, header, data);
      if want != kind && want != 0 {
        SendControl(PACKET_TYPE_KD_ACKNOWLEDGE, id);
        return Continue;
      }
      if id == INITIAL_PACKET_ID || id == Flip(INITIAL_PACKET_ID) {
        if id != expected {
          SendControl(PACKET_TYPE_KD_ACKNOWLEDGE, id);
          return Continue;
        }
      } else {
        SendControl(PACKET_TYPE_KD_RESEND, 0);
        return Continue;
      }
      var a := CheckSumPacket(header);
      var b := CheckSumPacket(data);
      SumsAdd(Sum(header), Sum(data));
      if (a + b) % TWO32 != checksum {
        SendControl(PACKET_TYPE_KD_RESEND, 0);
        return Continue;
      }
      SendControl(PACKET_TYPE_KD_ACKNOWLEDGE, id);
      expected := Flip(expected);
      return Accepted(kind, header, data);
    }

    /** The header behind the packet type: ByteCount, PacketId and Checksum; then the packet by its kind. */
    method ReceiveRest(want: nat, headerSize: nat, control: bool, kind: nat, ghost f: Frame) returns (result: Result)
      requires Valid() && kind < 0x1_0000 && at >= LEADER_SIZE + 2 && (control ==> kind != PACKET_TYPE_KD_RESEND)
      modifies this
      ensures Valid() && input == old(input) && at >= old(at)
      ensures result.Accepted? ==> JustAccepted(result, headerSize, old(expected), old(next), old(output))
      ensures FrameOk(f) && f.control == control && f.kind == kind && HeaderRest(input, old(at), f) ==>
        Does(OnFrame(want, headerSize, old(next), old(expected), f), result, old(at) - LEADER_SIZE - 2, old(output))
      ensures RoundKeeps(result, old(next), old(expected), old(output)) && result != ResendAsked
    {
      hide RoundKeeps, Does, EncodeAll, Encode, OnWire;
      ghost var clean := FrameOk(f) && f.control == control && f.kind == kind && HeaderRest(input, at, f);
      if clean {
        FieldsBack(|f.body|, f.id, f.checksum);
      }
      var code, rest := ReceiveString(10, if clean then Le16(|f.body|) + Le32(f.id) + Le32(f.checksum) else []);
      if code == CP_GET_NODATA {
        TimedOutKeeps();
        return TimedOut;
      }
      var count, id, checksum := Word16(rest, 0), Word32(rest, 2), Word32(rest, 6);
      if control {
        result := TakeControl(want, kind, id);
        if clean {
          ControlAlike(want, headerSize, old(next), old(expected), f);
        }
      } else if want == PACKET_TYPE_KD_ACKNOWLEDGE {
        result := TakeDataForAck(headerSize, id, f);
      } else {
        result := TakeData(want, headerSize, kind, count, id, checksum, if clean then f.body else []);
      }
    }

    lemma TimedOutKeeps()
      requires at == |input|
      ensures RoundKeeps(TimedOut, next, expected, output)
    {
    }

    ghost predicate JustAccepted(result: Result, headerSize: nat, expected0: nat, next0: nat, output0: seq<Byte>)
      requires result.Accepted?
      reads this
    {
      && expected == Flip(expected0) && next == next0 && |result.header| == headerSize
      && output == output0 + EncodeAll([Answer(Ack(expected0))])
    }

    /** One round of the loop of KdReceivePacketWithType; `f` is a frame that may lie on the wire. */
    method ReceiveOne(want: nat, headerSize: nat, ghost f: Frame) returns (result: Result)
      requires Valid()
      modifies this
      ensures Valid() && input == old(input) && at >= old(at) && (result == Continue ==> at > old(at))
      ensures result.Accepted? ==> JustAccepted(result, headerSize, old(expected), old(next), old(output))
      ensures FrameOk(f) && OnWire(input, old(at), Encode(f)) ==>
        Does(OnFrame(want, headerSize, old(next), old(expected), f), result, old(at), old(output))
      ensures RoundKeeps(result, old(next), old(expected), old(output))
      ensures (forall j :: !FirstBreakin(input, old(at), j)) && NoLeader(input, old(at), |input|) ==> result == TimedOut
      ensures forall j :: FirstBreakin(input, old(at), j) ==>
        && at == j && controlCPending && output == old(output) && next == old(next) && expected == old(expected)
        && result == if want == PACKET_TYPE_KD_POLL_BREAKIN then Received else ResendAsked
    {
      hide ControlWire, EncodeAll, Encode, OnWire, FirstLeader, NoLeader, NoBreakin, FirstBreakin, HeaderRest;
      ghost var clean := FrameOk(f) && OnWire(input, at, Encode(f));
      NoReplies(output);
      var found := ReceiveLeader();
      if clean {
        FrameOnWire(input, old(at), f);
        LeaderThere(input, old(at), f.control, at, found.Leader? && found.control);
      }
      OneEnd(input, old(at), at, found);
      if found.Breakin? {
        return if want == PACKET_TYPE_KD_POLL_BREAKIN then Received else ResendAsked;
      }
      // After silence the packet leader is whatever the stack held; the next read times out.
      var control := found.Leader? && found.control;
      var code, kindBytes := ReceiveString(2, if clean then Le16(f.kind) else []);
      if code == CP_GET_NODATA {
        return TimedOut;
      }
      var kind := Word16(kindBytes, 0);
      if control && kind == PACKET_TYPE_KD_RESEND {
        return ResendAsked;
      }
      result := ReceiveRest(want, headerSize, control, kind, f);
    }

    /** KdReceivePacketWithType: rounds until one has a result; `fs` are the frames that may lie on the wire. */
    method ReceivePacket(want: nat, headerSize: nat, ghost fs: seq<Frame>) returns (result: Result)
      requires Valid()
      modifies this
      ensures Valid() && input == old(input) && result != Continue
      ensures result in {ResendAsked, TimedOut} ==> next == old(next) && expected == old(expected)
      ensures result == TimedOut ==> at == |input|
      ensures result.Accepted? ==> |result.header| == headerSize && next == old(next) && expected == Flip(old(expected))
      ensures Ends(want, headerSize, old(next), old(expected), fs) && OnWire(input, old(at), EncodeAll(fs)) ==>
        Does(OnFrames(want, headerSize, old(next), old(expected), fs), result, old(at), old(output))
      ensures |fs| == 1 && IsReset(fs[0]) && OnWire(input, old(at), Encode(fs[0])) ==>
        && result == Received && at == old(at) + KD_PACKET_SIZE
        && next == AFTER_RESET.next && expected == AFTER_RESET.expected
        && output == old(output) + ControlWire(PACKET_TYPE_KD_RESET, 0)
    {
      hide OnFrame, Encode, EncodeAll, OnWire, Ends, OnFrames, ControlWire;
      if |fs| == 1 && IsReset(fs[0]) {
        ResetEnds(want, headerSize, next, expected, fs[0]);
        assert fs == [fs[0]];
      }
      ghost var clean := Ends(want, headerSize, next, expected, fs) && OnWire(input, at, EncodeAll(fs));
      ghost var e := if clean then OnFrames(want, headerSize, next, expected, fs) else Effect(0, 0, [], Continue, 0);
      ghost var rest, sent := fs, [];
      result := Continue;
      NoReplies(output);
      JoinedNothing(e);
      while result == Continue
        invariant Valid() && input == old(input) && (result == TimedOut ==> at == |input|)
        invariant result in {Continue, ResendAsked, TimedOut} ==> next == old(next) && expected == old(expected)
        invariant result.Accepted? ==> |result.header| == headerSize && next == old(next) && expected == Flip(old(expected))
        invariant clean && result == Continue ==>
          && Ends(want, headerSize, next, expected, rest) && OnWire(input, at, EncodeAll(rest))
          && output == old(output) + EncodeAll(sent)
          && e == Joined(at - old(at), sent, OnFrames(want, headerSize, next, expected, rest))
        invariant clean && result != Continue ==> Does(e, result, old(at), old(output))
        decreases |input| - at, result == Continue
      {
        ghost var n0, x0, at0, first := next, expected, at, ControlFrame(0, 0);
        if clean {
          FirstFrame(want, headerSize, next, expected, rest, input, at);
          AfterFirst(want, headerSize, n0, x0, rest, input, at0);
          first := rest[0];
        }
        result := ReceiveOne(want, headerSize, first);
        if clean {
          ghost var f := OnFrame(want, headerSize, n0, x0, first);
          EncodedAfter(old(output), sent, f.replies);
          if f.result == Continue {
            JoinedTwice(at0 - old(at), sent, f.used, f.replies, OnFrames(want, headerSize, next, expected, rest[1..]));
          }
          sent, rest := sent + f.replies, rest[1..];
        }
      }
    }

    /** The part of KdSendPacket that puts a packet on the wire. */
    method SendData(kind: nat, body: seq<Byte>)
      requires Valid() && kind < 0x1_0000 && |body| < 0x1_0000
      modifies this`output
      ensures output == old(output) + DataWire(kind, next, Sum(body) % TWO32, body)
      ensures output == old(output) + EncodeAll([Frame(false, kind, next, Sum(body) % TWO32, body)])
    {
      DataBytes(kind, next, Sum(body) % TWO32, body);
      var checksum := CheckSumPacket(body);
      output := output + Encode(Frame(false, kind, next, checksum, body));
    }
  }

  /** Some frame of the sequence has a result, and those before it are read to their ends. */
  ghost predicate Ends(want: nat, headerSize: nat, next: nat, expected: nat, fs: seq<Frame>) {
    && fs != [] && (forall f :: f in fs ==> FrameOk(f))
    && var e := OnFrame(want, headerSize, next, expected, fs[0]);
       e.result == Continue ==> e.used == |Encode(fs[0])| && Ends(want, headerSize, e.next, e.expected, fs[1..])
  }

  /** What the frames up to the first with a result do together. */
  ghost function OnFrames(want: nat, headerSize: nat, next: nat, expected: nat, fs: seq<Frame>): Effect
    requires Ends(want, headerSize, next, expected, fs)
  {
    var e := OnFrame(want, headerSize, next, expected, fs[0]);
    if e.result != Continue then e
    else Joined(e.used, e.replies, OnFrames(want, headerSize, e.next, e.expected, fs[1..]))
  }

  /** An effect after `used` bytes were read and some answers sent. */
  function Joined(used: nat, replies: seq<Frame>, e: Effect): Effect {
    Effect(e.next, e.expected, replies + e.replies, e.result, used + e.used)
  }

  lemma JoinedTwice(a: nat, s: seq<Frame>, b: nat, t: seq<Frame>, e: Effect)
    ensures Joined(a, s, Joined(b, t, e)) == Joined(a + b, s + t, e)
  {
    assert s + (t + e.replies) == (s + t) + e.replies;
  }

  lemma JoinedNothing(e: Effect)
    ensures Joined(0, [], e) == e
  {
  }

  lemma EncodedAfter(out: seq<Byte>, sent: seq<Frame>, replies: seq<Frame>)
    ensures out + EncodeAll(sent) + EncodeAll(replies) == out + EncodeAll(sent + replies)
  {
    EncodedConcat(sent, replies);
    hide EncodeAll;
    assert out + EncodeAll(sent) + EncodeAll(replies) == out + (EncodeAll(sent) + EncodeAll(replies));
  }

  lemma {:induction false} EncodedConcat(a: seq<Frame>, b: seq<Frame>)
    ensures EncodeAll(a + b) == EncodeAll(a) + EncodeAll(b)
  {
    hide Encode, FrameOk;
    if a == [] {
      assert a + b == b;
    } else {
      assert (a + b)[1..] == a[1..] + b;
      EncodedConcat(a[1..], b);
      var first := if FrameOk(a[0]) then Encode(a[0]) else [];
      assert first + (EncodeAll(a[1..]) + EncodeAll(b)) == (first + EncodeAll(a[1..])) + EncodeAll(b);
    }
  }

  /** The first frame lies on the wire as it is encoded. */
  lemma FirstFrame(want: nat, headerSize: nat, next: nat, expected: nat, fs: seq<Frame>, input: seq<Read>, at: nat)
    requires Ends(want, headerSize, next, expected, fs) && OnWire(input, at, EncodeAll(fs))
    ensures fs != [] && FrameOk(fs[0]) && OnWire(input, at, Encode(fs[0]))
  {
    hide OnFrame, Encode;
    OnWireParts(input, at, Encode(fs[0]), EncodeAll(fs[1..]));
  }

  lemma OnWireParts(input: seq<Read>, at: nat, a: seq<Byte>, b: seq<Byte>)
    requires OnWire(input, at, a + b)
    ensures OnWire(input, at, a) && OnWire(input, at + |a|, b)
  {
    forall k | 0 <= k < |a|
      ensures input[at + k] == Got(a[k])
    {
      assert (a + b)[k] == a[k];
    }
    forall k | 0 <= k < |b|
      ensures input[at + |a| + k] == Got(b[k])
    {
      assert (a + b)[|a| + k] == b[k];
    }
  }

  /** What is left once the first frame has been read. */
  lemma AfterFirst(want: nat, headerSize: nat, next: nat, expected: nat, fs: seq<Frame>, input: seq<Read>, at: nat)
    requires Ends(want, headerSize, next, expected, fs) && OnWire(input, at, EncodeAll(fs))
    ensures fs != []
    ensures var e := OnFrame(want, headerSize, next, expected, fs[0]); var all := OnFrames(want, headerSize, next, expected, fs);
      if e.result == Continue then
        && Ends(want, headerSize, e.next, e.expected, fs[1..]) && OnWire(input, at + e.used, EncodeAll(fs[1..]))
        && all == Joined(e.used, e.replies, OnFrames(want, headerSize, e.next, e.expected, fs[1..]))
      else all == e
  {
    hide OnFrame, Encode;
    OnWireParts(input, at, Encode(fs[0]), EncodeAll(fs[1..]));
  }

  /** What one port sends and the wire carries unharmed, a port that expects its id accepts as it was. */
  lemma SentIsAccepted(kind: nat, id: nat, body: seq<Byte>, headerSize: nat, next: nat)
    requires kind < 0x1_0000 && kind != PACKET_TYPE_KD_ACKNOWLEDGE && ValidId(id)
    requires headerSize <= |body| <= PACKET_MAX_SIZE
    ensures var f := Frame(false, kind, id, Sum(body) % TWO32, body);
      var e := OnFrame(kind, headerSize, next, id, f);
      && FrameOk(f) && e.result == Accepted(kind, body[..headerSize], body[headerSize..]) && e.used == |Encode(f)|
      && e.expected == Flip(id) && e.replies == [Answer(Ack(id))]
  {
    hide Sum;
  }

  /** A control frame is read alike whatever the fields that are not looked at. */
  lemma ControlAlike(want: nat, headerSize: nat, next: nat, expected: nat, f: Frame)
    requires f.control
    ensures OnFrame(want, headerSize, next, expected, f) == OnFrame(want, 0, next, expected, ControlFrame(f.kind, f.id))
  {
  }

  /** ByteCount, PacketId and Checksum of a frame, and the body of a data frame behind them. */
  ghost predicate HeaderRest(input: seq<Read>, at: nat, f: Frame)
    requires FrameOk(f)
  {
    && OnWire(input, at, Le16(|f.body|) + Le32(f.id) + Le32(f.checksum))
    && (!f.control ==> OnWire(input, at + 10, f.body + [PACKET_TRAILING_BYTE]))
  }
}
