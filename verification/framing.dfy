/** Length-delimited messages between host and guest: a Base 128 Varint (as in the
    Protocol Buffers Encoding specification, section "Base 128 Varints") and a payload. */
module Framing {
  import opened Common
  import opened Streams

  const TWO_TO_64: nat := 0x1_0000_0000_0000_0000

  // ----- varints -----

  function EncodeVarint(v: nat): seq<byte> {
    if v < 128 then [v as byte] else [(v % 128 + 128) as byte] + EncodeVarint(v / 128)
  }

  function VarintLen(v: nat): nat {
    if v < 128 then 1 else 1 + VarintLen(v / 128)
  }

  datatype Varint = Varint(value: nat, size: nat)

  // The value and the number of its bytes; used counts the bytes read before. At most
  // ten bytes are read, and the tenth holds a single bit.
  function DecodeVarint(buf: seq<byte>, used: nat): (r: Option<Varint>)
    requires used <= 10
    ensures r.Some? ==> 1 <= r.value.size <= |buf|
    decreases 10 - used
  {
    if used == 10 || buf == [] then None
    else
      var b := buf[0] as nat;
      if b < 128 then (if used == 9 && b >= 2 then None else Some(Varint(b, 1)))
      else
        match DecodeVarint(buf[1..], used + 1)
        case None => None
        case Some(high) => Some(Varint(b - 128 + 128 * high.value, high.size + 1))
  }

  // What may still follow after some bytes.
  function Limit(used: nat): nat
    requires used <= 9
  {
    if used == 0 then TWO_TO_64 else Limit(used - 1) / 128
  }

  lemma LimitValues()
    ensures Limit(9) == 2
    ensures forall used :: 0 <= used < 9 ==> Limit(used) == 128 * Limit(used + 1) && Limit(used) > 128
  {
    assert Limit(0) == 0x1_0000_0000_0000_0000;
    assert Limit(1) == 0x200_0000_0000_0000;
    assert Limit(2) == 0x4_0000_0000_0000;
    assert Limit(3) == 0x800_0000_0000;
    assert Limit(4) == 0x10_0000_0000;
    assert Limit(5) == 0x2000_0000;
    assert Limit(6) == 0x40_0000;
    assert Limit(7) == 0x8000;
    assert Limit(8) == 0x100;
  }

  lemma {:induction false} VarintRoundTrip(v: nat, used: nat, tail: seq<byte>)
    requires used <= 9 && v < Limit(used)
    ensures DecodeVarint(EncodeVarint(v) + tail, used) == Some(Varint(v, |EncodeVarint(v)|))
    decreases v
  {
    LimitValues();
    var code := EncodeVarint(v);
    if v >= 128 {
      assert (code + tail)[1..] == EncodeVarint(v / 128) + tail;
      VarintRoundTrip(v / 128, used + 1, tail);
    }
  }

  lemma {:induction false} CutVarintFails(v: nat, used: nat, n: nat)
    requires used <= 10 && n < |EncodeVarint(v)|
    ensures DecodeVarint(EncodeVarint(v)[..n], used) == None
    decreases v
  {
    var code := EncodeVarint(v);
    if n > 0 {
      assert v >= 128;
      if used < 10 {
        assert code[..n][1..] == EncodeVarint(v / 128)[..n - 1];
        CutVarintFails(v / 128, used + 1, n - 1);
      }
    }
  }

  lemma {:induction false} EncodeVarintLen(v: nat)
    ensures |EncodeVarint(v)| == VarintLen(v)
  {
    if v >= 128 { EncodeVarintLen(v / 128); }
  }

  // No encoding of a value, however padded, is shorter than the canonical one; and the
  // only one of that length is the canonical one.
  lemma {:induction false} CanonicalIsShortest(buf: seq<byte>, used: nat)
    requires used <= 10 && DecodeVarint(buf, used).Some?
    ensures var r := DecodeVarint(buf, used).value;
            && VarintLen(r.value) <= r.size
            && (VarintLen(r.value) == r.size <==> buf[..r.size] == EncodeVarint(r.value))
    decreases 10 - used
  {
    var r := DecodeVarint(buf, used).value;
    EncodeVarintLen(r.value);
    if buf[0] as nat < 128 {
      assert buf[..1] == [buf[0]];
    } else {
      CanonicalIsShortest(buf[1..], used + 1);
      var high := DecodeVarint(buf[1..], used + 1).value;
      assert r.value / 128 == high.value && r.value % 128 == buf[0] as nat - 128;
      assert buf[..r.size] == [buf[0]] + buf[1..][..high.size];
      if r.value >= 128 {
        assert EncodeVarint(r.value) == [buf[0]] + EncodeVarint(high.value);
        assert EncodeVarint(r.value)[1..] == EncodeVarint(high.value);
      }
    }
  }

  // The groups of seven bits, the first counting least.
  function Groups(bytes: seq<byte>): nat {
    if bytes == [] then 0 else bytes[0] as nat % 128 + 128 * Groups(bytes[1..])
  }

  // A varint ends with the first byte below 128, which has to be among the first ten and, as
  // the tenth, below 2.
  predicate EndsAt(buf: seq<byte>, used: nat, n: nat) {
    && n < |buf| && used + n < 10 && buf[n] < 128 && (used + n == 9 ==> buf[n] < 2)
    && forall i :: 0 <= i < n ==> buf[i] >= 128
  }

  // Decoding is Base 128 with the first group counting least, and fails exactly if no
  // varint ends.
  lemma {:induction false} DecodedIsBase128(buf: seq<byte>, used: nat)
    requires used <= 10
    ensures forall n: nat :: EndsAt(buf, used, n) ==>
              DecodeVarint(buf, used) == Some(Varint(Groups(buf[..n + 1]), n + 1))
    ensures DecodeVarint(buf, used).Some? ==> EndsAt(buf, used, DecodeVarint(buf, used).value.size - 1)
    decreases 10 - used
  {
    if used < 10 && buf != [] {
      if buf[0] < 128 {
        assert buf[..1] == [buf[0]] && buf[..1][1..] == [];
      } else {
        DecodedIsBase128(buf[1..], used + 1);
        forall n: nat | EndsAt(buf, used, n)
          ensures DecodeVarint(buf, used) == Some(Varint(Groups(buf[..n + 1]), n + 1))
        {
          assert n > 0 && EndsAt(buf[1..], used + 1, n - 1);
          assert buf[..n + 1][1..] == buf[1..][..n];
        }
        if DecodeVarint(buf, used).Some? {
          var n := DecodeVarint(buf, used).value.size - 1;
          assert EndsAt(buf[1..], used + 1, n - 1);
          assert forall i :: 0 < i < n ==> buf[i] == buf[1..][i - 1];
        }
      }
    }
  }

  // ----- frames -----

  datatype Parsed<+M> = Message(message: Option<M>) | Malformed

  // The payload encoding, which this model takes as given.
  datatype Payload<!M> = Payload(encode: M -> seq<byte>, decode: seq<byte> -> Parsed<M>)

  ghost predicate Faithful<M(!new)>(p: Payload<M>) {
    forall m :: p.decode(p.encode(m)) == Message(Some(m)) && |p.encode(m)| < TWO_TO_64
  }

  function Frame<M>(p: Payload<M>, m: M): seq<byte> {
    EncodeVarint(|p.encode(m)|) + p.encode(m)
  }

  // The buffer starts with a length and at least as many bytes.
  predicate HoldsFrame(buf: seq<byte>) {
    DecodeVarint(buf, 0).Some? && |buf| - DecodeVarint(buf, 0).value.size >= DecodeVarint(buf, 0).value.value
  }

  // The bytes to take: their number is computed from the canonical encoding of the
  // length, which is never longer than the encoding that was read.
  function Consumed(buf: seq<byte>): (n: nat)
    requires HoldsFrame(buf)
    ensures 1 <= n <= |buf|
  {
    CanonicalIsShortest(buf, 0);
    DecodeVarint(buf, 0).value.value + VarintLen(DecodeVarint(buf, 0).value.value)
  }

  // The bytes read as payload.
  function PayloadBytes(buf: seq<byte>): seq<byte>
    requires HoldsFrame(buf)
  {
    var length := DecodeVarint(buf, 0).value;
    buf[length.size..length.size + length.value]
  }

  function MessageOf<M>(p: Payload<M>, bytes: seq<byte>): Option<M> {
    match p.decode(bytes)
    case Message(m) => m
    case Malformed => None
  }

  // A complete frame is taken even if its payload makes no sense.
  function Parse<M>(p: Payload<M>, buf: seq<byte>): Decoded<M> {
    if HoldsFrame(buf) then Decoded(MessageOf(p, PayloadBytes(buf)), buf[Consumed(buf)..])
    else Decoded(None, buf)
  }

  lemma DecodeFrame<M>(p: Payload<M>, payload: seq<byte>, tail: seq<byte>)
    requires |payload| < TWO_TO_64
    ensures Parse(p, EncodeVarint(|payload|) + payload + tail) ==
            Decoded(MessageOf(p, payload), tail)
  {
    var len := |payload|;
    var code := EncodeVarint(len);
    var buf := code + payload + tail;
    assert buf == code + (payload + tail);
    VarintRoundTrip(len, 0, payload + tail);
    EncodeVarintLen(len);
    assert buf[|code|..|code| + len] == payload;
    assert buf[len + |code|..] == tail;
  }

  lemma DecodeCutFrame<M>(p: Payload<M>, payload: seq<byte>, n: nat)
    requires |payload| < TWO_TO_64 && n < |EncodeVarint(|payload|) + payload|
    ensures Parse(p, (EncodeVarint(|payload|) + payload)[..n]) ==
            Decoded(None, (EncodeVarint(|payload|) + payload)[..n])
  {
    var code := EncodeVarint(|payload|);
    var cut := (code + payload)[..n];
    if n < |code| {
      assert cut == code[..n];
      CutVarintFails(|payload|, 0, n);
    } else {
      assert cut == code + payload[..n - |code|];
      VarintRoundTrip(|payload|, 0, payload[..n - |code|]);
    }
  }

  function Reader<M>(p: Payload<M>): seq<byte> -> Decoded<M> {
    buf => Parse(p, buf)
  }

  function Writer<M>(p: Payload<M>): M -> seq<byte> {
    m => Frame(p, m)
  }

  // A payload of any content, framed canonically.
  type Bytes = b: seq<byte> | |b| < TWO_TO_64 witness []

  function RawWriter(): Bytes -> seq<byte> {
    payload => EncodeVarint(|payload|) + payload
  }

  function RawView<M>(p: Payload<M>): Bytes -> Option<M> {
    payload => MessageOf(p, payload)
  }

  lemma ReaderProgresses<M(!new)>(p: Payload<M>)
    ensures Progressive(Reader(p))
  {
    forall buf: seq<byte> | Reader(p)(buf).item.Some? ensures |Reader(p)(buf).rest| < |buf| {
      DecodeArbitrary(p, buf);
    }
  }

  lemma RawFramesAreUnderstood<M(!new)>(p: Payload<M>)
    ensures Understands(Reader(p), RawWriter(), RawView(p))
  {
    ReaderProgresses(p);
    forall b: Bytes, tail: seq<byte>
      ensures RawWriter()(b) != [] && Reader(p)(RawWriter()(b) + tail) == Decoded(RawView(p)(b), tail)
    {
      DecodeFrame(p, b, tail);
    }
    forall b: Bytes, n | 0 <= n < |RawWriter()(b)|
      ensures Reader(p)(RawWriter()(b)[..n]) == Decoded(None, RawWriter()(b)[..n])
    {
      DecodeCutFrame(p, b, n);
    }
  }

  // Undecodable payloads among the frames lose nothing and bring nothing out of step, but
  // hold up what has already arrived behind them until more bytes do.
  lemma UndecodableOnlyDelays<M(!new)>(p: Payload<M>, payloads: seq<Bytes>, chunks: seq<seq<byte>>) returns (k: nat)
    requires Join(chunks) == Frames(RawWriter(), payloads)
    ensures Progressive(Reader(p)) && k <= |payloads|
    ensures Feed(Reader(p), [], chunks) == (Seen(RawView(p), payloads[..k]), Frames(RawWriter(), payloads[k..]))
    ensures k < |payloads| ==> k > 0 && MessageOf(p, payloads[k - 1]).None?
  {
    RawFramesAreUnderstood(p);
    k := AnyCutStaysInStep(Reader(p), RawWriter(), RawView(p), payloads, chunks);
  }

  // And they do hold it up.
  lemma UndecodableHoldsUp<M(!new)>(p: Payload<M>, payload: Bytes, tail: seq<byte>)
    requires MessageOf(p, payload).None?
    ensures Progressive(Reader(p)) && Drain(Reader(p), RawWriter()(payload) + tail) == ([], tail)
  {
    ReaderProgresses(p);
    DecodeFrame(p, payload, tail);
  }

  // However the frames arrive, all that have arrived are read if and only if every payload
  // before the last is decodable.
  lemma AllAreReadIffDecodable<M(!new)>(p: Payload<M>, payloads: seq<Bytes>)
    ensures Progressive(Reader(p))
    ensures (forall chunks :: Join(chunks) == Frames(RawWriter(), payloads) ==>
               Feed(Reader(p), [], chunks) == (Seen(RawView(p), payloads), []))
            <==> forall i :: 0 <= i < |payloads| - 1 ==> MessageOf(p, payloads[i]).Some?
  {
    RawFramesAreUnderstood(p);
    AnyCutIsReadIff(Reader(p), RawWriter(), RawView(p), payloads);
    assert forall i :: 0 <= i < |payloads| ==> RawView(p)(payloads[i]) == MessageOf(p, payloads[i]);
  }

  lemma FramingIsCodec<M(!new)>(p: Payload<M>)
    requires Faithful(p)
    ensures IsCodec(Reader(p), Writer(p))
  {
    ReaderProgresses(p);
    forall m, tail: seq<byte>
      ensures Writer(p)(m) != [] && Reader(p)(Writer(p)(m) + tail) == Decoded(Whole<M>()(m), tail)
    {
      assert |p.encode(m)| < TWO_TO_64;
      DecodeFrame(p, p.encode(m), tail);
    }
    forall m, n | 0 <= n < |Writer(p)(m)| ensures Reader(p)(Writer(p)(m)[..n]) == Decoded(None, Writer(p)(m)[..n]) {
      assert |p.encode(m)| < TWO_TO_64;
      DecodeCutFrame(p, p.encode(m), n);
    }
  }

  // Messages survive any fragmentation of their concatenated frames.
  lemma MessagesSurviveAnyCut<M(!new)>(p: Payload<M>, messages: seq<M>, chunks: seq<seq<byte>>)
    requires Faithful(p) && Join(chunks) == Frames(Writer(p), messages)
    ensures Progressive(Reader(p)) && Feed(Reader(p), [], chunks) == (messages, [])
  {
    FramingIsCodec(p);
    AnyCutDecodes(Reader(p), Writer(p), messages, chunks);
  }

  // For arbitrary bytes: the buffer only ever loses a prefix, and none without a frame;
  // and the prefix is exactly the frame if and only if the length was canonical.
  lemma DecodeArbitrary<M>(p: Payload<M>, buf: seq<byte>)
    ensures var rest := Parse(p, buf).rest;
            && |rest| <= |buf| && rest == buf[|buf| - |rest|..]
            && (|rest| < |buf| <==> HoldsFrame(buf))
            && (Parse(p, buf).item.Some? ==> HoldsFrame(buf))
    ensures HoldsFrame(buf) ==>
              var length := DecodeVarint(buf, 0).value;
              && |Parse(p, buf).rest| >= |buf| - length.size - length.value
              && (Parse(p, buf).rest == buf[length.size + length.value..] <==>
                  buf[..length.size] == EncodeVarint(length.value))
  {
    if DecodeVarint(buf, 0).Some? { CanonicalIsShortest(buf, 0); }
  }

  // A zero length in two bytes: only the first is taken, so the rest of the stream is
  // read out of step.
  lemma OverlongIsCutShort<M>(p: Payload<M>)
    ensures HoldsFrame([0x80, 0x00]) && Parse(p, [0x80, 0x00]).rest == [0x00]
  {
    var buf: seq<byte> := [0x80, 0x00];
    assert DecodeVarint(buf[1..], 1) == Some(Varint(0, 1));
    assert DecodeVarint(buf, 0) == Some(Varint(0, 2));
    assert buf[1..] == [0x00];
  }

  // ----- the codec on its buffer -----

  class Buffer {
    var data: seq<byte>

    constructor ()
      ensures data == []
    {
      data := [];
    }

    // Removes and returns the first count bytes.
    method SplitTo(count: nat) returns (taken: seq<byte>)
      requires count <= |data|
      modifies this
      ensures taken == old(data)[..count] && data == old(data)[count..]
    {
      taken, data := data[..count], data[count..];
    }
  }

  class Codec<!M> {
    const payload: Payload<M>

    constructor (payload: Payload<M>)
      ensures this.payload == payload
    {
      this.payload := payload;
    }

    method Decode(buf: Buffer) returns (item: Option<M>)
      modifies buf
      ensures Decoded(item, buf.data) == Parse(payload, old(buf.data))
    {
      item := None;
      var consumed := 0;
      var length := DecodeVarint(buf.data, 0);
      if length.Some? {
        var Varint(len, size) := length.value;
        if |buf.data| - size >= len {
          consumed := len + VarintLen(len);
          assert consumed == Consumed(buf.data);
          match payload.decode(buf.data[size..size + len]) {
            case Message(m) => item := m;
            case Malformed =>
          }
        }
      }
      var skipped := buf.SplitTo(consumed);
    }

    method Encode(m: M, buf: Buffer)
      modifies buf
      ensures buf.data == old(buf.data) + Frame(payload, m)
    {
      var bytes := payload.encode(m);
      var tmp := EncodeVarint(|bytes|);
      tmp := tmp + bytes;
      buf.data := buf.data + tmp;
    }
  }
}
