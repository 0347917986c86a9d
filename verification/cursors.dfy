/** A read cursor over several buffers that behaves like one over their concatenation. */
module Cursors {
  import opened Streams

  const TWO_TO_63: nat := 0x8000_0000_0000_0000
  const TWO_TO_64: nat := 0x1_0000_0000_0000_0000

  // Positions are unsigned 64-bit numbers.
  function Wrap(x: int): nat {
    x % TWO_TO_64
  }

  // What lies contiguously at a position.
  function Available(bufs: seq<seq<byte>>, pos: nat): seq<byte> {
    if bufs == [] then []
    else if pos < |bufs[0]| then bufs[0][pos..]
    else Available(bufs[1..], pos - |bufs[0]|)
  }

  datatype SeekFrom = Start(i: nat) | Current(offset: int) | End(offset: int)

  function SeekTarget(length: nat, pos: nat, from: SeekFrom): int {
    match from
    case Start(i) => i
    case Current(offset) => pos + offset
    case End(offset) => length + offset
  }

  function Min(a: nat, b: nat): nat {
    if a < b then a else b
  }

  class MultiCursor {
    const bufs: seq<seq<byte>>
    var position: nat

    ghost predicate Valid()
      reads this
    {
      |Join(bufs)| < TWO_TO_63 && position < TWO_TO_64
    }

    constructor (bufs: seq<seq<byte>>)
      requires |Join(bufs)| < TWO_TO_63
      ensures Valid() && this.bufs == bufs && position == 0
    {
      this.bufs, position := bufs, 0;
    }

    method Read(buf: array<byte>) returns (n: nat)
      requires Valid()
      modifies this, buf
      ensures Valid()
      ensures n == Min(buf.Length, |Available(bufs, old(position))|)
      ensures buf[..n] == Available(bufs, old(position))[..n] && buf[n..] == old(buf[..])[n..]
      ensures position == old(position) + n
    {
      var pos: nat := position;
      var i := 0;
      while i < |bufs|
        invariant i <= |bufs|
        invariant Available(bufs, position) == Available(bufs[i..], pos)
        invariant position == old(position) && buf[..] == old(buf[..])
      {
        var b := bufs[i];
        var blen := |b|;
        assert bufs[i..][0] == b && bufs[i..][1..] == bufs[i + 1..];
        if pos < blen {
          n := Min(buf.Length, blen - pos);
          forall j | 0 <= j < n {
            buf[j] := b[pos + j];
          }
          AvailableIsPrefix(bufs, position);
          Consume(n);
          return;
        }
        pos := pos - blen;
        i := i + 1;
      }
      n := 0;
    }

    method FillBuf() returns (r: seq<byte>)
      requires Valid()
      ensures r == Available(bufs, position)
    {
      var pos: nat := position;
      var i := 0;
      while i < |bufs|
        invariant i <= |bufs|
        invariant Available(bufs, position) == Available(bufs[i..], pos)
      {
        var b := bufs[i];
        assert bufs[i..][0] == b && bufs[i..][1..] == bufs[i + 1..];
        if pos < |b| {
          return b[pos..];
        }
        pos := pos - |b|;
        i := i + 1;
      }
      r := [];
    }

    method Consume(amount: nat)
      requires Valid()
      modifies this
      ensures Valid() && position == Wrap(old(position) + amount)
    {
      position := Wrap(position + amount);
    }

    method Seek(from: SeekFrom) returns (r: nat)
      requires Valid()
      requires from.Start? ==> from.i < TWO_TO_64
      modifies this
      ensures Valid() && r == position == Wrap(SeekTarget(|Join(bufs)|, old(position), from))
    {
      match from {
        case Start(i) => position := i;
        case Current(offset) => position := Wrap(position + offset);
        case End(offset) =>
          var total := 0;
          var i := 0;
          while i < |bufs|
            invariant i <= |bufs|
            invariant total + |Join(bufs[i..])| == |Join(bufs)|
          {
            assert bufs[i..][1..] == bufs[i + 1..];
            total := total + |bufs[i]|;
            i := i + 1;
          }
          position := Wrap(total + offset);
      }
      r := position;
    }
  }

  // ----- the flat cursor -----

  // What is available is a prefix of the rest of the concatenation, and nothing is
  // available only at or past its end, whatever empty buffers lie in between.
  lemma {:induction false} AvailableIsPrefix(bufs: seq<seq<byte>>, pos: nat)
    ensures pos <= |Join(bufs)| ==> Available(bufs, pos) <= Join(bufs)[pos..]
    ensures Available(bufs, pos) == [] <==> pos >= |Join(bufs)|
    ensures Available(bufs, pos) != [] ==> pos + |Available(bufs, pos)| <= |Join(bufs)|
    decreases |bufs|
  {
    if bufs != [] {
      var flat := Join(bufs);
      if pos < |bufs[0]| {
        assert flat[pos..] == bufs[0][pos..] + Join(bufs[1..]);
      } else {
        AvailableIsPrefix(bufs[1..], pos - |bufs[0]|);
        if pos <= |flat| {
          assert flat[pos..] == Join(bufs[1..])[pos - |bufs[0]|..];
        }
      }
    }
  }

  // More precisely, it is the rest of the buffer that the position lies in.
  lemma {:induction false} AvailableIsRestOfBuffer(bufs: seq<seq<byte>>, pos: nat) returns (i: nat)
    requires pos < |Join(bufs)|
    ensures i < |bufs| && |Join(bufs[..i])| <= pos < |Join(bufs[..i])| + |bufs[i]|
    ensures Available(bufs, pos) == bufs[i][pos - |Join(bufs[..i])|..]
    decreases |bufs|
  {
    if pos < |bufs[0]| {
      i := 0;
      assert Join(bufs[..0]) == [];
    } else {
      var k := AvailableIsRestOfBuffer(bufs[1..], pos - |bufs[0]|);
      i := k + 1;
      assert bufs[..i][0] == bufs[0] && bufs[..i][1..] == bufs[1..][..k];
    }
  }

  datatype Op = Read(size: nat) | FillBuf | Consume(amount: nat) | Seek(from: SeekFrom)

  // The position after an operation and the bytes it yields.
  function Step(bufs: seq<seq<byte>>, pos: nat, op: Op): (nat, seq<byte>) {
    match op
    case Read(size) =>
      var n := Min(size, |Available(bufs, pos)|);
      (pos + n, Available(bufs, pos)[..n])
    case FillBuf => (pos, Available(bufs, pos))
    case Consume(amount) => (Wrap(pos + amount), [])
    case Seek(from) => (Wrap(SeekTarget(|Join(bufs)|, pos, from)), [])
  }

  // The results that stay within the range of positions.
  predicate Fits(length: nat, pos: nat, op: Op) {
    match op
    case Consume(amount) => pos + amount < TWO_TO_64
    case Seek(from) => 0 <= SeekTarget(length, pos, from) < TWO_TO_64
    case _ => true
  }

  // What a cursor over one flat buffer may do: a read yields some, but not nothing
  // unless it must, of the bytes at the position and moves past them.
  predicate FlatAllows(flat: seq<byte>, pos: nat, op: Op, r: (nat, seq<byte>)) {
    var rest := if pos <= |flat| then flat[pos..] else [];
    match op
    case Read(size) => r.1 <= rest && |r.1| <= size && r.0 == pos + |r.1| && (r.1 == [] ==> rest == [] || size == 0)
    case FillBuf => r.1 <= rest && r.0 == pos && (r.1 == [] ==> rest == [])
    case Consume(amount) => r == (pos + amount, [])
    case Seek(Start(i)) => r == (i, [])
    case Seek(Current(offset)) => r == (pos + offset, [])
    case Seek(End(offset)) => r == (|flat| + offset, [])
  }

  // Every operation is one of the flat cursor exactly when its result fits.
  lemma StepIsFlat(bufs: seq<seq<byte>>, pos: nat, op: Op)
    ensures FlatAllows(Join(bufs), pos, op, Step(bufs, pos, op)) <==> Fits(|Join(bufs)|, pos, op)
  {
    AvailableIsPrefix(bufs, pos);
  }

  // Seeking before the start does not fail but ends up at the last position there is.
  lemma SeekBelowStart()
    ensures Step([], 0, Seek(Current(-1))).0 == TWO_TO_64 - 1
    ensures !FlatAllows([], 0, Seek(Current(-1)), Step([], 0, Seek(Current(-1))))
  {
  }

  function StepAll(bufs: seq<seq<byte>>, ops: seq<Op>): (nat, seq<seq<byte>>) {
    if ops == [] then (0, [])
    else
      var before := StepAll(bufs, ops[..|ops| - 1]);
      var r := Step(bufs, before.0, ops[|ops| - 1]);
      (r.0, before.1 + [r.1])
  }

  // The flat cursor, started at its beginning, may get to pos by these operations,
  // yielding these results.
  ghost predicate FlatRun(flat: seq<byte>, ops: seq<Op>, pos: nat, results: seq<seq<byte>>) {
    if ops == [] || results == [] then ops == [] && results == [] && pos == 0
    else
      var n, m := |ops| - 1, |results| - 1;
      var init, yielded := ops[..n], results[..m];
      exists before: nat ::
        FlatRun(flat, init, before, yielded) && FlatAllows(flat, before, ops[n], (pos, results[m]))
  }

  // Whole sequences of operations are runs of the flat cursor as long as all fit.
  lemma {:induction false} RunsAreFlat(bufs: seq<seq<byte>>, ops: seq<Op>)
    requires forall i :: 0 <= i < |ops| ==> Fits(|Join(bufs)|, StepAll(bufs, ops[..i]).0, ops[i])
    ensures FlatRun(Join(bufs), ops, StepAll(bufs, ops).0, StepAll(bufs, ops).1)
  {
    if ops != [] {
      var n := |ops| - 1;
      forall i | 0 <= i < n ensures Fits(|Join(bufs)|, StepAll(bufs, ops[..n][..i]).0, ops[..n][i]) {
        assert ops[..n][..i] == ops[..i];
      }
      RunsAreFlat(bufs, ops[..n]);
      var before := StepAll(bufs, ops[..n]);
      StepIsFlat(bufs, before.0, ops[n]);
      FlatRunStep(Join(bufs), ops, before.0, before.1, Step(bufs, before.0, ops[n]));
    }
  }

  lemma FlatRunStep(flat: seq<byte>, ops: seq<Op>, before: nat, yielded: seq<seq<byte>>, r: (nat, seq<byte>))
    requires ops != [] && FlatRun(flat, ops[..|ops| - 1], before, yielded)
    requires FlatAllows(flat, before, ops[|ops| - 1], r)
    ensures FlatRun(flat, ops, r.0, yielded + [r.1])
  {
    assert (yielded + [r.1])[..|yielded|] == yielded;
  }

  // Reading until a read yields nothing, with buffers of any positive sizes.
  function ReadToEnd(bufs: seq<seq<byte>>, pos: nat, size: nat -> nat): seq<byte>
    requires forall p :: size(p) > 0
    decreases |Join(bufs)| - pos
  {
    var r := Step(bufs, pos, Read(size(pos)));
    AvailableIsPrefix(bufs, pos);
    if r.1 == [] then [] else r.1 + ReadToEnd(bufs, r.0, size)
  }

  lemma {:induction false} ReadToEndIsSuffix(bufs: seq<seq<byte>>, pos: nat, size: nat -> nat)
    requires forall p :: size(p) > 0
    ensures ReadToEnd(bufs, pos, size) == if pos <= |Join(bufs)| then Join(bufs)[pos..] else []
    decreases |Join(bufs)| - pos
  {
    var r := Step(bufs, pos, Read(size(pos)));
    AvailableIsPrefix(bufs, pos);
    if r.1 != [] {
      ReadToEndIsSuffix(bufs, r.0, size);
      ReadTakesPrefix(bufs, pos, size(pos));
    }
  }

  lemma ReadTakesPrefix(bufs: seq<seq<byte>>, pos: nat, size: nat)
    requires pos <= |Join(bufs)|
    ensures var r := Step(bufs, pos, Read(size));
            pos <= r.0 <= |Join(bufs)| && Join(bufs)[pos..] == r.1 + Join(bufs)[r.0..]
  {
    AvailableIsPrefix(bufs, pos);
    var rest, n := Join(bufs)[pos..], |Step(bufs, pos, Read(size)).1|;
    assert rest == rest[..n] + rest[n..];
  }
}
