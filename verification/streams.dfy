/** Decoding a byte stream that arrives in arbitrary pieces. */
module Streams {
  import opened Common

  newtype byte = x: int | 0 <= x < 256

  // What one attempt to decode yields: perhaps an item, and what stays in the buffer.
  datatype Decoded<+T> = Decoded(item: Option<T>, rest: seq<byte>)

  // Every item uses up some bytes.
  ghost predicate Progressive<T(!new)>(decode: seq<byte> -> Decoded<T>) {
    forall buf :: decode(buf).item.Some? ==> |decode(buf).rest| < |buf|
  }

  // The reader asks for items until there is none for now.
  ghost function Drain<T(!new)>(decode: seq<byte> -> Decoded<T>, buf: seq<byte>): (seq<T>, seq<byte>)
    requires Progressive(decode)
    decreases |buf|
  {
    var d := decode(buf);
    if d.item.None? then ([], d.rest)
    else
      var r := Drain(decode, d.rest);
      ([d.item.value] + r.0, r.1)
  }

  // Chunks are appended as they arrive, and the buffer is drained after each.
  ghost function Feed<T(!new)>(
    decode: seq<byte> -> Decoded<T>, buf: seq<byte>, chunks: seq<seq<byte>>): (seq<T>, seq<byte>)
    requires Progressive(decode)
    decreases |chunks|
  {
    if chunks == [] then ([], buf)
    else
      var d := Drain(decode, buf + chunks[0]);
      var r := Feed(decode, d.1, chunks[1..]);
      (d.0 + r.0, r.1)
  }

  function Join(chunks: seq<seq<byte>>): seq<byte> {
    if chunks == [] then [] else chunks[0] + Join(chunks[1..])
  }

  ghost function Frames<T(!new)>(frame: T -> seq<byte>, items: seq<T>): seq<byte> {
    if items == [] then [] else frame(items[0]) + Frames(frame, items[1..])
  }

  // What a reader sees of these items: some of them may mean nothing to it.
  ghost function Seen<T(!new), U>(view: T -> Option<U>, items: seq<T>): seq<U> {
    if items == [] then [] else Glimpse(view(items[0])) + Seen(view, items[1..])
  }

  function Glimpse<U>(item: Option<U>): seq<U> {
    if item.Some? then [item.value] else []
  }

  ghost predicate ReadsFrames<T(!new), U(!new)>(
    decode: seq<byte> -> Decoded<U>, frame: T -> seq<byte>, view: T -> Option<U>)
  {
    forall item, tail :: frame(item) != [] && decode(frame(item) + tail) == Decoded(view(item), tail)
  }

  ghost predicate WaitsForFrames<T(!new), U(!new)>(decode: seq<byte> -> Decoded<U>, frame: T -> seq<byte>) {
    && decode([]) == Decoded(None, [])
    && forall item, n :: 0 <= n < |frame(item)| ==> decode(frame(item)[..n]) == Decoded(None, frame(item)[..n])
  }

  // A decoder for these frames: it yields what it sees of a complete frame and takes
  // exactly the frame, and leaves an incomplete frame alone.
  ghost predicate Understands<T(!new), U(!new)>(
    decode: seq<byte> -> Decoded<U>, frame: T -> seq<byte>, view: T -> Option<U>)
  {
    Progressive(decode) && ReadsFrames(decode, frame, view) && WaitsForFrames(decode, frame)
  }

  function Whole<T>(): T -> Option<T> {
    item => Some(item)
  }

  // A decoder that understands every frame.
  ghost predicate IsCodec<T(!new)>(decode: seq<byte> -> Decoded<T>, frame: T -> seq<byte>) {
    Understands(decode, frame, Whole())
  }

  // The buffer holds no complete frame of what is to come.
  ghost predicate Short<T(!new)>(frame: T -> seq<byte>, items: seq<T>, buf: seq<byte>) {
    if items == [] then buf == [] else |buf| < |frame(items[0])|
  }

  lemma {:induction false} FramesAppend<T(!new)>(frame: T -> seq<byte>, a: seq<T>, b: seq<T>)
    ensures Frames(frame, a + b) == Frames(frame, a) + Frames(frame, b)
  {
    if a == [] {
      assert a + b == b;
    } else {
      assert (a + b)[1..] == a[1..] + b;
      FramesAppend(frame, a[1..], b);
    }
  }

  lemma {:induction false} SeenAppend<T(!new), U>(view: T -> Option<U>, a: seq<T>, b: seq<T>)
    ensures Seen(view, a + b) == Seen(view, a) + Seen(view, b)
  {
    if a == [] {
      assert a + b == b;
    } else {
      assert (a + b)[0] == a[0] && (a + b)[1..] == a[1..] + b;
      SeenAppend(view, a[1..], b);
      var first, x, y := Glimpse(view(a[0])), Seen(view, a[1..]), Seen(view, b);
      assert first + (x + y) == first + x + y;
    }
  }

  lemma {:induction false} WholeIsSeen<T(!new)>(items: seq<T>)
    ensures Seen(Whole(), items) == items
  {
    if items != [] { WholeIsSeen(items[1..]); }
  }

  // The reader was held up by an item that meant nothing to it.
  ghost predicate HeldUp<T(!new), U>(view: T -> Option<U>, items: seq<T>, k: nat) {
    0 < k <= |items| && view(items[k - 1]).None?
  }

  lemma DrainFirst<T(!new), U(!new)>(
    decode: seq<byte> -> Decoded<U>, frame: T -> seq<byte>, view: T -> Option<U>, item: T, tail: seq<byte>)
    requires Understands(decode, frame, view)
    ensures Drain(decode, frame(item) + tail) ==
            if view(item).None? then ([], tail)
            else (Glimpse(view(item)) + Drain(decode, tail).0, Drain(decode, tail).1)
  {
    assert decode(frame(item) + tail) == Decoded(view(item), tail);
  }

  lemma DrainShort<T(!new), U(!new)>(
    decode: seq<byte> -> Decoded<U>, frame: T -> seq<byte>, view: T -> Option<U>, item: T, n: nat)
    requires Understands(decode, frame, view) && n < |frame(item)|
    ensures Drain(decode, frame(item)[..n]) == ([], frame(item)[..n])
  {
    assert decode(frame(item)[..n]) == Decoded(None, frame(item)[..n]);
  }

  // From the buffer, k frames are read, and what is left holds no other complete frame
  // unless the last one held the reader up.
  ghost predicate Drained<T(!new), U(!new)>(
    decode: seq<byte> -> Decoded<U>, frame: T -> seq<byte>, view: T -> Option<U>, items: seq<T>, buf: seq<byte>, k: nat)
    requires Progressive(decode)
  {
    && k <= |items| && Drain(decode, buf).0 == Seen(view, items[..k])
    && buf == Frames(frame, items[..k]) + Drain(decode, buf).1
    && (Short(frame, items[k..], Drain(decode, buf).1) || HeldUp(view, items, k))
  }

  // A first frame that is there is read, and more behind it only if it means something.
  lemma DrainMore<T(!new), U(!new)>(
    decode: seq<byte> -> Decoded<U>, frame: T -> seq<byte>, view: T -> Option<U>, items: seq<T>,
    tail: seq<byte>, j: nat)
    requires Understands(decode, frame, view) && items != []
    requires if view(items[0]).None? then j == 0 else Drained(decode, frame, view, items[1..], tail, j)
    ensures Drained(decode, frame, view, items, frame(items[0]) + tail, j + 1)
  {
    DrainFirst(decode, frame, view, items[0], tail);
    TakeOneMore(frame, view, items, j);
    if view(items[0]).None? {
      assert frame(items[0]) + [] == frame(items[0]);
    } else {
      var left := Drain(decode, tail).1;
      Regroup(frame(items[0]), Frames(frame, items[1..][..j]), left);
    }
  }

  lemma Regroup(f: seq<byte>, g: seq<byte>, left: seq<byte>)
    ensures f + (g + left) == f + g + left
  {
  }

  lemma {:induction false} DrainPrefix<T(!new), U(!new)>(
    decode: seq<byte> -> Decoded<U>, frame: T -> seq<byte>, view: T -> Option<U>, items: seq<T>, buf: seq<byte>)
    returns (k: nat)
    requires Understands(decode, frame, view) && buf <= Frames(frame, items)
    ensures Drained(decode, frame, view, items, buf, k)
    decreases |items|
  {
    if items == [] {
      return 0;
    }
    var f := frame(items[0]);
    if |buf| < |f| {
      assert buf == f[..|buf|];
      DrainShort(decode, frame, view, items[0], |buf|);
      return 0;
    }
    var tail := buf[|f|..];
    assert buf == f + tail;
    assert tail <= Frames(frame, items[1..]);
    var j := 0;
    if view(items[0]).Some? {
      j := DrainPrefix(decode, frame, view, items[1..], tail);
    }
    DrainMore(decode, frame, view, items, tail, j);
    k := j + 1;
  }

  // Taking the first item and then j more is taking j + 1.
  lemma TakeOneMore<T(!new), U>(frame: T -> seq<byte>, view: T -> Option<U>, items: seq<T>, j: nat)
    requires items != [] && j < |items|
    ensures items[j + 1..] == items[1..][j..]
    ensures Frames(frame, items[..j + 1]) == frame(items[0]) + Frames(frame, items[1..][..j])
    ensures Seen(view, items[..j + 1]) == Glimpse(view(items[0])) + Seen(view, items[1..][..j])
  {
    assert items[..j + 1][1..] == items[1..][..j];
  }

  lemma PrefixCancel(head: seq<byte>, a: seq<byte>, b: seq<byte>)
    requires head + a <= head + b
    ensures a <= b
  {
    assert a == (head + a)[|head|..];
    assert b == (head + b)[|head|..];
  }

  lemma Cancel(head: seq<byte>, a: seq<byte>, b: seq<byte>)
    requires head + a == head + b
    ensures a == b
  {
    assert a == (head + a)[|head|..];
    assert b == (head + b)[|head|..];
  }

  lemma SplitFrames<T(!new)>(frame: T -> seq<byte>, items: seq<T>, i: nat)
    requires i <= |items|
    ensures Frames(frame, items) == Frames(frame, items[..i]) + Frames(frame, items[i..])
  {
    FramesAppend(frame, items[..i], items[i..]);
    assert items == items[..i] + items[i..];
  }

  // Taking i items and then j more is taking i + j.
  lemma TakeInTwo<T(!new), U>(frame: T -> seq<byte>, view: T -> Option<U>, items: seq<T>, i: nat, j: nat)
    requires i <= |items| && j <= |items| - i
    ensures items[i + j..] == items[i..][j..]
    ensures Frames(frame, items[..i + j]) == Frames(frame, items[..i]) + Frames(frame, items[i..][..j])
    ensures Seen(view, items[..i + j]) == Seen(view, items[..i]) + Seen(view, items[i..][..j])
  {
    FramesAppend(frame, items[..i], items[i..][..j]);
    SeenAppend(view, items[..i], items[i..][..j]);
    assert items[..i + j] == items[..i] + items[i..][..j];
  }

  // After any cut of any prefix of the stream, what has been read are the frames up to some
  // k, and a complete frame waits behind them only if the reader was held up.
  lemma {:induction false} FeedPrefix<T(!new), U(!new)>(
    decode: seq<byte> -> Decoded<U>, frame: T -> seq<byte>, view: T -> Option<U>, items: seq<T>,
    buf: seq<byte>, chunks: seq<seq<byte>>)
    returns (k: nat)
    requires Understands(decode, frame, view) && buf + Join(chunks) <= Frames(frame, items)
    ensures k <= |items| && Feed(decode, buf, chunks).0 == Seen(view, items[..k])
    ensures buf + Join(chunks) == Frames(frame, items[..k]) + Feed(decode, buf, chunks).1
    ensures Short(frame, items, buf) ==>
              Short(frame, items[k..], Feed(decode, buf, chunks).1) || HeldUp(view, items, k)
    ensures k > 0 ==> Short(frame, items[k..], Feed(decode, buf, chunks).1) || HeldUp(view, items, k)
    decreases |chunks|
  {
    if chunks == [] {
      k := 0;
      assert items[0..] == items;
      assert buf + Join(chunks) == buf;
    } else {
      var later := Join(chunks[1..]);
      var b := buf + chunks[0];
      assert buf + Join(chunks) == b + later;
      var i := DrainPrefix(decode, frame, view, items, b);
      var rest := Drain(decode, b).1;
      RestIsPrefix(frame, items, i, b, rest, later);
      var j := FeedPrefix(decode, frame, view, items[i..], rest, chunks[1..]);
      k := i + j;
      TakeInTwo(frame, view, items, i, j);
      var left := Feed(decode, rest, chunks[1..]).1;
      Rejoin(b, Frames(frame, items[..i]), rest, later, Frames(frame, items[i..][..j]), left);
      assert j > 0 ==> items[i..][j - 1] == items[k - 1];
    }
  }

  lemma Rejoin(b: seq<byte>, f: seq<byte>, rest: seq<byte>, later: seq<byte>, g: seq<byte>, left: seq<byte>)
    requires b == f + rest && rest + later == g + left
    ensures b + later == f + g + left
  {
    assert b + later == f + (rest + later);
  }

  // What was not drained, and what is still to come, belong to the remaining items.
  lemma RestIsPrefix<T(!new)>(
    frame: T -> seq<byte>, items: seq<T>, i: nat, b: seq<byte>, rest: seq<byte>, later: seq<byte>)
    requires i <= |items| && b + later <= Frames(frame, items)
    requires b == Frames(frame, items[..i]) + rest
    ensures rest + later <= Frames(frame, items[i..])
  {
    SplitFrames(frame, items, i);
    var head := Frames(frame, items[..i]);
    assert b + later == head + (rest + later);
    PrefixCancel(head, rest + later, Frames(frame, items[i..]));
  }

  lemma ShortIsIncomplete<T(!new)>(frame: T -> seq<byte>, items: seq<T>, buf: seq<byte>)
    requires Short(frame, items, buf) && buf == Frames(frame, items)
    ensures items == []
  {
  }

  // However a stream of frames is cut, nothing is lost, reordered or read out of step: the
  // frames up to some k have been read, exactly the others are in the buffer, and there
  // are others only if the reader was held up.
  lemma AnyCutStaysInStep<T(!new), U(!new)>(
    decode: seq<byte> -> Decoded<U>, frame: T -> seq<byte>, view: T -> Option<U>, items: seq<T>, chunks: seq<seq<byte>>)
    returns (k: nat)
    requires Understands(decode, frame, view) && Join(chunks) == Frames(frame, items)
    ensures k <= |items| && Feed(decode, [], chunks) == (Seen(view, items[..k]), Frames(frame, items[k..]))
    ensures k < |items| ==> HeldUp(view, items, k)
  {
    assert Short(frame, items, []);
    assert [] + Join(chunks) == Join(chunks);
    k := FeedPrefix(decode, frame, view, items, [], chunks);
    var rest := Feed(decode, [], chunks).1;
    SplitFrames(frame, items, k);
    Cancel(Frames(frame, items[..k]), rest, Frames(frame, items[k..]));
    if Short(frame, items[k..], rest) { ShortIsIncomplete(frame, items[k..], rest); }
  }

  // Only the last item, if any, means nothing to the reader.
  ghost predicate UnderstoodButLast<T(!new), U>(view: T -> Option<U>, items: seq<T>) {
    forall i :: 0 <= i < |items| - 1 ==> view(items[i]).Some?
  }

  // A stream that arrives as one chunk is not read past the first item that means nothing.
  lemma {:induction false} DrainStops<T(!new), U(!new)>(
    decode: seq<byte> -> Decoded<U>, frame: T -> seq<byte>, view: T -> Option<U>, items: seq<T>)
    requires Understands(decode, frame, view) && !UnderstoodButLast(view, items)
    ensures Drain(decode, Frames(frame, items)).1 != []
  {
    DrainFirst(decode, frame, view, items[0], Frames(frame, items[1..]));
    if view(items[0]).None? {
      assert frame(items[1]) != [];
    } else {
      assert forall i :: 0 <= i < |items| - 2 ==> items[1..][i] == items[i + 1];
      DrainStops(decode, frame, view, items[1..]);
    }
  }

  lemma FeedOneChunk<T(!new)>(decode: seq<byte> -> Decoded<T>, chunk: seq<byte>)
    requires Progressive(decode)
    ensures Join([chunk]) == chunk && Feed(decode, [], [chunk]) == Drain(decode, chunk)
  {
    assert [chunk][1..] == [] && [] + chunk == chunk && chunk + [] == chunk;
    var d := Drain(decode, chunk);
    assert d.0 + [] == d.0;
  }

  // Whatever the cut, the whole stream is read once it has arrived if and only if nothing
  // but its last item means nothing to the reader.
  lemma AnyCutIsReadIff<T(!new), U(!new)>(
    decode: seq<byte> -> Decoded<U>, frame: T -> seq<byte>, view: T -> Option<U>, items: seq<T>)
    requires Understands(decode, frame, view)
    ensures (forall chunks :: Join(chunks) == Frames(frame, items) ==>
               Feed(decode, [], chunks) == (Seen(view, items), []))
            <==> UnderstoodButLast(view, items)
  {
    if UnderstoodButLast(view, items) {
      forall chunks | Join(chunks) == Frames(frame, items) ensures Feed(decode, [], chunks) == (Seen(view, items), []) {
        var k := AnyCutStaysInStep(decode, frame, view, items, chunks);
        assert items[..|items|] == items && items[|items|..] == [];
      }
    } else {
      FeedOneChunk(decode, Frames(frame, items));
      DrainStops(decode, frame, view, items);
    }
  }

  // If every frame is understood, exactly the items are decoded, in order, and nothing is
  // left over.
  lemma AnyCutDecodes<T(!new)>(
    decode: seq<byte> -> Decoded<T>, frame: T -> seq<byte>, items: seq<T>, chunks: seq<seq<byte>>)
    requires IsCodec(decode, frame) && Join(chunks) == Frames(frame, items)
    ensures Feed(decode, [], chunks) == (items, [])
  {
    var k := AnyCutStaysInStep(decode, frame, Whole(), items, chunks);
    WholeIsSeen(items);
    assert items[..k] == items && items[k..] == [];
  }
}
