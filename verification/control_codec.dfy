/** The bytes of the control socket. */
module ControlCodec {
  import opened Common
  import opened Messages
  import opened Streams
  import Framing

  // ----- little-endian signed 32-bit numbers -----

  predicate IsI32(x: int) {
    -0x8000_0000 <= x < 0x8000_0000
  }

  function U32ToLe(u: nat): (r: seq<byte>)
    requires u < 0x1_0000_0000
    ensures |r| == 4
  {
    var h := u / 256;
    var i := h / 256;
    [(u % 256) as byte, (h % 256) as byte, (i % 256) as byte, (i / 256) as byte]
  }

  function LeToU32(b: seq<byte>): (u: nat)
    requires |b| == 4
    ensures u < 0x1_0000_0000
  {
    b[0] as int + 256 * (b[1] as int + 256 * (b[2] as int + 256 * b[3] as int))
  }

  function I32ToLe(x: int): (r: seq<byte>)
    requires IsI32(x)
    ensures |r| == 4
  {
    U32ToLe(if x < 0 then x + 0x1_0000_0000 else x)
  }

  function LeToI32(b: seq<byte>): (x: int)
    requires |b| == 4
    ensures IsI32(x)
  {
    var u := LeToU32(b);
    if u >= 0x8000_0000 then u - 0x1_0000_0000 else u
  }

  lemma U32RoundTrip(u: nat)
    requires u < 0x1_0000_0000
    ensures LeToU32(U32ToLe(u)) == u
  {
  }

  lemma BytesRoundTrip(b: seq<byte>)
    requires |b| == 4
    ensures U32ToLe(LeToU32(b)) == b
  {
    var i := b[2] as int + 256 * b[3] as int;
    var h := b[1] as int + 256 * i;
    var u := b[0] as int + 256 * h;
    assert u / 256 == h && u % 256 == b[0] as int;
    assert h / 256 == i && h % 256 == b[1] as int;
  }

  lemma I32RoundTrip(x: int, b: seq<byte>)
    requires IsI32(x) && |b| == 4
    ensures LeToI32(I32ToLe(x)) == x
    ensures I32ToLe(LeToI32(b)) == b
  {
    U32RoundTrip(if x < 0 then x + 0x1_0000_0000 else x);
    BytesRoundTrip(b);
  }

  // The first byte counts least; half of the numbers are negative.
  lemma LeIsPositional(b: seq<byte>)
    requires |b| == 4
    ensures var u := b[0] as int + 0x100 * b[1] as int + 0x1_0000 * b[2] as int + 0x100_0000 * b[3] as int;
            LeToU32(b) == u && LeToI32(b) == if b[3] < 128 then u else u - 0x1_0000_0000
  {
  }

  // ----- requests -----

  predicate InRange(cmd: ControlCmdIn) {
    cmd.TemporaryLightEntry? ==> IsI32(cmd.x) && IsI32(cmd.y)
  }

  type Request = cmd: ControlCmdIn | InRange(cmd) witness IoEntry

  // The bytes of a request as the socket expects them.
  function RequestFrame(cmd: Request): seq<byte> {
    match cmd
    case IoEntry => [1]
    case Shutdown => [2]
    case ForceIoEntry => [3]
    case IoExit => [4]
    case Suspend => [5]
    case TryIoEntry => [6]
    case LightEntry => [7]
    case TemporaryLightEntry(x, y) => [8] + I32ToLe(x) + I32ToLe(y)
    case EnterBackupMode => [9]
    case LeaveBackupMode => [10]
  }

  // The byte that the command line client sends; it cannot enter temporarily.
  function ClientByte(cmd: Request): Option<byte> {
    match cmd
    case IoEntry => Some(1)
    case TryIoEntry => Some(6)
    case LightEntry => Some(7)
    case Shutdown => Some(2)
    case ForceIoEntry => Some(3)
    case IoExit => Some(4)
    case Suspend => Some(5)
    case TemporaryLightEntry(_, _) => None
    case EnterBackupMode => Some(9)
    case LeaveBackupMode => Some(10)
  }

  // Unknown bytes hang the connection: nothing is ever taken from the buffer again.
  function Parse(buf: seq<byte>): Decoded<Request> {
    if buf == [] then Decoded(None, buf)
    else
      match buf[0] as int
      case 1 => Decoded(Some(IoEntry), buf[1..])
      case 2 => Decoded(Some(ControlCmdIn.Shutdown), buf[1..])
      case 3 => Decoded(Some(ForceIoEntry), buf[1..])
      case 4 => Decoded(Some(IoExit), buf[1..])
      case 5 => Decoded(Some(ControlCmdIn.Suspend), buf[1..])
      case 6 => Decoded(Some(TryIoEntry), buf[1..])
      case 7 => Decoded(Some(ControlCmdIn.LightEntry), buf[1..])
      case 8 =>
        if |buf| < 9 then Decoded(None, buf)
        else Decoded(Some(ControlCmdIn.TemporaryLightEntry(LeToI32(buf[1..5]), LeToI32(buf[5..9]))), buf[9..])
      case 9 => Decoded(Some(EnterBackupMode), buf[1..])
      case 10 => Decoded(Some(LeaveBackupMode), buf[1..])
      case _ => Decoded(None, buf)
  }

  const READER: seq<byte> -> Decoded<Request> := buf => Parse(buf)
  const WRITER: Request -> seq<byte> := (cmd: Request) => RequestFrame(cmd)

  lemma ParseFrame(cmd: Request, tail: seq<byte>)
    ensures Parse(RequestFrame(cmd) + tail) == Decoded(Some(cmd), tail)
  {
  }

  // What is parsed is what was written: no bytes but a request's own stand for it.
  lemma ParsedIsFrame(buf: seq<byte>)
    requires Parse(buf).item.Some?
    ensures buf == RequestFrame(Parse(buf).item.value) + Parse(buf).rest
  {
    if buf[0] == 8 {
      I32RoundTrip(0, buf[1..5]);
      I32RoundTrip(0, buf[5..9]);
      assert buf == [buf[0]] + buf[1..5] + buf[5..9] + buf[9..];
    } else {
      assert buf == [buf[0]] + buf[1..];
    }
  }

  // A request is read exactly if its byte is known and, to enter temporarily, both
  // coordinates have arrived; otherwise the buffer stays as it is.
  lemma ParsedIff(buf: seq<byte>)
    ensures Parse(buf).item.Some? <==> buf != [] && 1 <= buf[0] <= 10 && (buf[0] == 8 ==> |buf| >= 9)
    ensures Parse(buf).item.None? ==> Parse(buf).rest == buf
    ensures Parse(buf).item.Some? ==> Parse(buf).rest == buf[if buf[0] == 8 then 9 else 1..]
    ensures Parse(buf).item.Some? && buf[0] == 8 ==>
              Parse(buf).item.value == ControlCmdIn.TemporaryLightEntry(LeToI32(buf[1..5]), LeToI32(buf[5..9]))
  {
  }

  // The numbers of the protocol.
  lemma RequestNumbers(rest: seq<byte>)
    ensures Parse([1] + rest).item == Some(IoEntry) && Parse([2] + rest).item == Some(ControlCmdIn.Shutdown)
    ensures Parse([3] + rest).item == Some(ForceIoEntry) && Parse([4] + rest).item == Some(IoExit)
    ensures Parse([5] + rest).item == Some(ControlCmdIn.Suspend) && Parse([6] + rest).item == Some(TryIoEntry)
    ensures Parse([7] + rest).item == Some(ControlCmdIn.LightEntry)
    ensures Parse([9] + rest).item == Some(EnterBackupMode) && Parse([10] + rest).item == Some(LeaveBackupMode)
  {
  }

  lemma ParseCutFrame(cmd: Request, n: nat)
    requires n < |RequestFrame(cmd)|
    ensures Parse(RequestFrame(cmd)[..n]) == Decoded(None, RequestFrame(cmd)[..n])
  {
    if n > 0 {
      assert RequestFrame(cmd)[..n][0] == 8;
    }
  }

  lemma RequestsAreCodec()
    ensures IsCodec(READER, WRITER)
  {
    forall cmd: Request, n | 0 <= n < |WRITER(cmd)|
      ensures READER(WRITER(cmd)[..n]) == Decoded(None, WRITER(cmd)[..n])
    {
      ParseCutFrame(cmd, n);
    }
    forall cmd: Request, tail: seq<byte>
      ensures WRITER(cmd) != [] && READER(WRITER(cmd) + tail) == Decoded(Whole<Request>()(cmd), tail)
    {
      ParseFrame(cmd, tail);
    }
  }

  lemma RequestsSurviveAnyCut(requests: seq<Request>, chunks: seq<seq<byte>>)
    requires Join(chunks) == Frames(WRITER, requests)
    ensures Progressive(READER) && Feed(READER, [], chunks) == (requests, [])
  {
    RequestsAreCodec();
    AnyCutDecodes(READER, WRITER, requests, chunks);
  }

  // The driver understands what the client sends.
  lemma ClientIsUnderstood(cmd: Request)
    ensures ClientByte(cmd).Some? <==> !cmd.TemporaryLightEntry?
    ensures ClientByte(cmd).Some? ==> Parse([ClientByte(cmd).value]) == Decoded(Some(cmd), [])
  {
  }

  // ----- notifications -----

  predicate OutInRange(cmd: ControlCmdOut) {
    cmd.MouseEdged? ==> IsI32(cmd.x) && IsI32(cmd.y)
  }

  type Notification = cmd: ControlCmdOut | OutInRange(cmd) witness Ack

  function NotificationFrame(cmd: Notification): (r: seq<byte>)
    ensures r != []
  {
    match cmd
    case MouseEdged(x, y) => [1] + I32ToLe(x) + I32ToLe(y)
    case TemporaryLightAttached => [2]
    case TemporaryLightDetached => [3]
    case Ack => [4]
  }

  // The client waits for the byte 4, which is the Ack and nothing else; a movement of the
  // mouse is the byte 1, x and y.
  lemma ClientRecognisesAck(cmd: Notification)
    ensures NotificationFrame(cmd)[0] == 4 <==> cmd.Ack?
    ensures cmd.Ack? ==> NotificationFrame(cmd) == [4]
    ensures cmd.MouseEdged? <==> NotificationFrame(cmd)[0] == 1
    ensures cmd.MouseEdged? ==>
              var bytes := NotificationFrame(cmd);
              |bytes| == 9 && LeToI32(bytes[1..5]) == cmd.x && LeToI32(bytes[5..9]) == cmd.y
    ensures cmd.TemporaryLightAttached? ==> NotificationFrame(cmd) == [2]
    ensures cmd.TemporaryLightDetached? ==> NotificationFrame(cmd) == [3]
  {
    if cmd.MouseEdged? {
      var bytes := NotificationFrame(cmd);
      assert bytes[1..5] == I32ToLe(cmd.x) && bytes[5..9] == I32ToLe(cmd.y);
      I32RoundTrip(cmd.x, bytes[1..5]);
      I32RoundTrip(cmd.y, bytes[5..9]);
    }
  }

  // The first notification of a stream and what follows it are determined.
  lemma FirstIsDetermined(a: Notification, b: Notification, s: seq<byte>, t: seq<byte>)
    requires NotificationFrame(a) + s == NotificationFrame(b) + t
    ensures a == b && s == t
  {
    var u, v := NotificationFrame(a) + s, NotificationFrame(b) + t;
    assert u[0] == NotificationFrame(a)[0] && v[0] == NotificationFrame(b)[0];
    assert s == u[|NotificationFrame(a)|..] && t == v[|NotificationFrame(b)|..];
    if a.MouseEdged? {
      assert u[1..5] == I32ToLe(a.x) && v[1..5] == I32ToLe(b.x);
      assert u[5..9] == I32ToLe(a.y) && v[5..9] == I32ToLe(b.y);
      I32RoundTrip(a.x, u[1..5]);
      I32RoundTrip(b.x, v[1..5]);
      I32RoundTrip(a.y, u[5..9]);
      I32RoundTrip(b.y, v[5..9]);
    }
  }

  function NotificationBytes(cmds: seq<Notification>): seq<byte> {
    if cmds == [] then [] else NotificationFrame(cmds[0]) + NotificationBytes(cmds[1..])
  }

  // Different sequences of notifications never look the same on the socket.
  lemma {:induction false} NotificationsAreDetermined(a: seq<Notification>, b: seq<Notification>)
    requires NotificationBytes(a) == NotificationBytes(b)
    ensures a == b
  {
    if a != [] && b != [] {
      FirstIsDetermined(a[0], b[0], NotificationBytes(a[1..]), NotificationBytes(b[1..]));
      NotificationsAreDetermined(a[1..], b[1..]);
      assert a == [a[0]] + a[1..] && b == [b[0]] + b[1..];
    }
  }

  // ----- the codec on its buffer -----

  class Codec {
    method Decode(buf: Framing.Buffer) returns (item: Option<Request>)
      modifies buf
      ensures Decoded(item, buf.data) == Parse(old(buf.data))
    {
      if buf.data == [] {
        return None;
      }
      var size := 1;
      match buf.data[0] as int {
        case 1 => item := Some(IoEntry);
        case 2 => item := Some(ControlCmdIn.Shutdown);
        case 3 => item := Some(ForceIoEntry);
        case 4 => item := Some(IoExit);
        case 5 => item := Some(ControlCmdIn.Suspend);
        case 6 => item := Some(TryIoEntry);
        case 7 => item := Some(ControlCmdIn.LightEntry);
        case 8 =>
          if |buf.data| < 9 {
            return None;
          }
          var x := LeToI32(buf.data[1..5]);
          var y := LeToI32(buf.data[5..9]);
          size := size + 8;
          item := Some(ControlCmdIn.TemporaryLightEntry(x, y));
        case 9 => item := Some(EnterBackupMode);
        case 10 => item := Some(LeaveBackupMode);
        case _ => return None;
      }
      var skipped := buf.SplitTo(size);
    }

    method Encode(cmd: Notification, buf: Framing.Buffer)
      modifies buf
      ensures buf.data == old(buf.data) + NotificationFrame(cmd)
    {
      match cmd
      case MouseEdged(x, y) =>
        buf.data := buf.data + [1];
        buf.data := buf.data + I32ToLe(x);
        buf.data := buf.data + I32ToLe(y);
      case TemporaryLightAttached => buf.data := buf.data + [2];
      case TemporaryLightDetached => buf.data := buf.data + [3];
      case Ack => buf.data := buf.data + [4];
    }
  }
}
