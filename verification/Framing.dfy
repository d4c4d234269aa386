/**
 * Length-prefixed message framing over a chunked stream (src/services/p2p-protocols.service.ts).
 * JSON text is outside the model: a message is its sequence of bytes.
 */
module Framing {
  import opened Sequences

  newtype Byte = x: int | 0 <= x < 256

  type Bytes = seq<Byte>

  const PREFIX := 4
  const WORD := 0x1_0000_0000

  /** `DataView.setUint32(0, n, false)`: big-endian, keeping only the low 32 bits. */
  function SetUint32(n: nat): (r: Bytes)
    ensures |r| == PREFIX
  {
    [(n / 256 / 256 / 256 % 256) as Byte, (n / 256 / 256 % 256) as Byte, (n / 256 % 256) as Byte, (n % 256) as Byte]
  }

  /** `DataView.getUint32(0, false)`. */
  function GetUint32(b: Bytes): (r: nat)
    requires |b| == PREFIX
    ensures r < WORD
  {
    ((b[0] as nat * 256 + b[1] as nat) * 256 + b[2] as nat) * 256 + b[3] as nat
  }

  /** The most significant byte comes first. */
  lemma BigEndianBytes(n: nat)
    ensures var b := SetUint32(n);
            && b[0] as nat == n / 16777216 % 256 && b[1] as nat == n / 65536 % 256
            && b[2] as nat == n / 256 % 256 && b[3] as nat == n % 256
  {
    assert n / 256 / 256 == n / 65536;
    assert n / 256 / 256 / 256 == n / 16777216;
  }

  lemma Uint32RoundTrip(n: nat)
    ensures GetUint32(SetUint32(n)) == n % WORD
  {
    var q1 := n / 256;
    var q2 := q1 / 256;
    var q3 := q2 / 256;
    ModUnique(n, q3 / 256, GetUint32(SetUint32(n)));
  }

  lemma ModUnique(n: nat, q: nat, r: nat)
    requires n == WORD * q + r && r < WORD
    ensures n % WORD == r
  {
  }

  function Less(need: nat, arrived: nat): nat { if arrived >= need then 0 else need - arrived }

  function Min(a: nat, b: nat): nat { if a < b then a else b }

  /** All bytes of a stream, in order. */
  function Flatten(chunks: seq<Bytes>): Bytes
  {
    if chunks == [] then [] else chunks[0] + Flatten(chunks[1..])
  }

  function Zeros(n: nat): (r: Bytes)
    ensures |r| == n
  {
    seq(n, _ => 0)
  }

  /** The frame the writer sends for a payload. */
  function Frame(payload: Bytes): Bytes
  {
    SetUint32(|payload|) + payload
  }

  /**
   * What a reader makes of a byte stream, however it is cut into chunks: nothing if the stream ends inside the
   * prefix; otherwise the announced number of bytes, where a stream that ends early leaves the rest of the buffer zero.
   */
  function Decode(wire: Bytes): (r: Option<Bytes>)
    ensures r.Some? <==> |wire| >= PREFIX
  {
    if |wire| < PREFIX then None
    else
      Some(Padded(wire[PREFIX..], GetUint32(wire[..PREFIX])))
  }

  /** The first `length` bytes of the body, completed with zeros if there are fewer. */
  function Padded(body: Bytes, length: nat): (r: Bytes)
    ensures |r| == length
  {
    if length <= |body| then body[..length] else body + Zeros(length - |body|)
  }

  /** The number of bytes that must arrive before the reader stops asking for chunks. */
  function Demand(wire: Bytes): nat
  {
    if |wire| < PREFIX then PREFIX else PREFIX + GetUint32(wire[..PREFIX])
  }

  /** The chunks left over when chunks are taken, whole, until `need` bytes have arrived. */
  function Consume(chunks: seq<Bytes>, need: nat): seq<Bytes>
  {
    if need == 0 || chunks == [] then chunks
    else Consume(chunks[1..], Less(need, |chunks[0]|))
  }

  /** One end of a libp2p stream: the chunks that have not been taken yet. */
  class Stream {
    var chunks: seq<Bytes>

    constructor (incoming: seq<Bytes>)
      ensures chunks == incoming
    {
      chunks := incoming;
    }

    method Next() returns (chunk: Option<Bytes>)
      modifies this
      ensures old(chunks) == [] ==> chunk == None && chunks == []
      ensures old(chunks) != [] ==> chunk == Some(old(chunks)[0]) && chunks == old(chunks)[1..]
    {
      if chunks == [] {
        chunk := None;
      } else {
        chunk := Some(chunks[0]);
        chunks := chunks[1..];
      }
    }

    method Send(data: Bytes)
      modifies this
      ensures chunks == old(chunks) + [data]
    {
      chunks := chunks + [data];
    }
  }

  /** `Uint8Array.set`. */
  method CopyInto(target: array<Byte>, source: Bytes, offset: nat)
    requires offset + |source| <= target.Length
    modifies target
    ensures forall k :: 0 <= k < target.Length ==>
              target[k] == if offset <= k < offset + |source| then source[k - offset] else old(target[k])
  {
    var i := 0;
    while i < |source|
      invariant i <= |source|
      invariant forall k :: 0 <= k < target.Length ==>
                  target[k] == if offset <= k < offset + i then source[k - offset] else old(target[k])
    {
      target[offset + i] := source[i];
      i := i + 1;
    }
  }

  method WriteMessage(stream: Stream, data: Bytes)
    modifies stream
    ensures stream.chunks == old(stream.chunks) + [Frame(data)]
    ensures var sent, n := stream.chunks[|stream.chunks| - 1], |data|;
            && |sent| == 4 + n && sent[4..] == data
            && sent[0] as nat == n / 16777216 % 256 && sent[1] as nat == n / 65536 % 256
            && sent[2] as nat == n / 256 % 256 && sent[3] as nat == n % 256
  {
    var combined := new Byte[PREFIX + |data|](_ => 0);
    CopyInto(combined, SetUint32(|data|), 0);
    CopyInto(combined, data, PREFIX);
    assert combined[..] == Frame(data);
    BigEndianBytes(|data|);
    stream.Send(combined[..]);
  }

  /** The first `read` bytes of the buffer come from the wire at `base`; the others are still zero. */
  ghost predicate Filled(buffer: array<Byte>, wire: Bytes, base: nat, read: nat)
    reads buffer
  {
    && base + read <= |wire| && read <= buffer.Length
    && (forall k :: 0 <= k < read ==> buffer[k] == wire[base + k])
    && (forall k :: read <= k < buffer.Length ==> buffer[k] == 0)
  }

  /** Copies as much of a chunk as the buffer still needs; `tail` is what the wire holds behind the chunk. */
  method Receive(buffer: array<Byte>, chunk: Bytes, read: nat, ghost wire: Bytes, ghost base: nat, ghost tail: Bytes)
    returns (total: nat)
    requires Filled(buffer, wire, base, read)
    requires wire[base + read..] == chunk + tail
    modifies buffer
    ensures read <= total == Min(buffer.Length, read + |chunk|)
    ensures Filled(buffer, wire, base, total)
    ensures wire[base + total..] == chunk[total - read..] + tail
  {
    var bytesToCopy := Min(buffer.Length - read, |chunk|);
    CopyInto(buffer, chunk[..bytesToCopy], read);
    total := read + bytesToCopy;
    assert wire[base + total..] == wire[base + read..][bytesToCopy..] == chunk[bytesToCopy..] + tail;
    forall k | read <= k < total ensures buffer[k] == wire[base + k] {
      assert buffer[k] == chunk[k - read] == (chunk + tail)[k - read] == wire[base + read..][k - read];
    }
  }

  /**
   * The loop of the reader: takes chunks until the buffer is full or the stream ends. `rest` is what the last chunk
   * held beyond the buffer.
   */
  method Fill(stream: Stream, buffer: array<Byte>, read: nat, ghost wire: Bytes, ghost base: nat)
    returns (total: nat, rest: Bytes)
    requires read < buffer.Length && Filled(buffer, wire, base, read)
    requires wire[base + read..] == Flatten(stream.chunks)
    modifies stream, buffer
    ensures Filled(buffer, wire, base, total)
    ensures wire[base + total..] == rest + Flatten(stream.chunks)
    ensures total < buffer.Length ==> |wire| == base + total
    ensures stream.chunks == Consume(old(stream.chunks), buffer.Length - read)
  {
    total, rest := read, [];
    ghost var left := Consume(stream.chunks, buffer.Length - read);
    while total < buffer.Length && stream.chunks != []
      invariant read <= total && Filled(buffer, wire, base, total)
      invariant wire[base + total..] == rest + Flatten(stream.chunks)
      invariant total < buffer.Length ==> rest == []
      invariant left == Consume(stream.chunks, buffer.Length - total)
      decreases |stream.chunks|
    {
      var chunk := stream.Next();
      var now := Receive(buffer, chunk.value, total, wire, base, Flatten(stream.chunks));
      total, rest := now, chunk.value[now - total..];
    }
  }

  method ReadMessage(stream: Stream) returns (message: Option<Bytes>)
    modifies stream
    ensures message == Decode(Flatten(old(stream.chunks)))
    ensures stream.chunks == Consume(old(stream.chunks), Demand(Flatten(old(stream.chunks))))
  {
    ghost var wire := Flatten(stream.chunks);
    var lengthBytes := new Byte[PREFIX](_ => 0);
    var bytesRead, remainingBytes := Fill(stream, lengthBytes, 0, wire, 0);
    if bytesRead < PREFIX {
      return None;
    }
    var length := GetUint32(lengthBytes[..]);
    PrefixRead(lengthBytes, wire, length);
    ConsumeTwice(old(stream.chunks), PREFIX, length);
    message := ReadBody(stream, length, remainingBytes, wire);
  }

  /** The part of the reader after the prefix. */
  method ReadBody(stream: Stream, length: nat, remainingBytes: Bytes, ghost wire: Bytes)
    returns (message: Option<Bytes>)
    requires |wire| >= PREFIX && wire[PREFIX..] == remainingBytes + Flatten(stream.chunks)
    modifies stream
    ensures message == Some(Padded(wire[PREFIX..], length))
    ensures stream.chunks == Consume(old(stream.chunks), Less(length, |remainingBytes|))
  {
    var messageBytes := new Byte[length](_ => 0);
    var messageBytesRead := Receive(messageBytes, remainingBytes, 0, wire, PREFIX, Flatten(stream.chunks));
    if messageBytesRead < length {
      var total, _ := Fill(stream, messageBytes, messageBytesRead, wire, PREFIX);
      messageBytesRead := total;
    }
    FilledIsPadded(messageBytes, wire, messageBytesRead);
    message := Some(messageBytes[..]);
  }

  /** Taking chunks for `a` bytes and then for the part of `b` more that has not arrived yet. */
  lemma {:induction false} ConsumeTwice(chunks: seq<Bytes>, a: nat, b: nat)
    requires |Flatten(chunks)| >= a
    ensures |Flatten(Consume(chunks, a))| + a <= |Flatten(chunks)|
    ensures var beyond := |Flatten(chunks)| - a - |Flatten(Consume(chunks, a))|;
            Consume(chunks, a + b) == Consume(Consume(chunks, a), Less(b, beyond))
  {
    if a > 0 {
      if |chunks[0]| < a {
        ConsumeTwice(chunks[1..], a - |chunks[0]|, b);
      }
    }
  }

  lemma PrefixRead(buffer: array<Byte>, wire: Bytes, length: nat)
    requires buffer.Length == PREFIX && Filled(buffer, wire, 0, PREFIX) && length == GetUint32(buffer[..])
    ensures Demand(wire) == PREFIX + length && Decode(wire) == Some(Padded(wire[PREFIX..], length))
  {
    assert buffer[..] == wire[..PREFIX];
  }

  lemma FilledIsPadded(buffer: array<Byte>, wire: Bytes, read: nat)
    requires Filled(buffer, wire, PREFIX, read)
    requires read == buffer.Length || PREFIX + read == |wire|
    ensures buffer[..] == Padded(wire[PREFIX..], buffer.Length)
  {
    if read == buffer.Length {
      assert buffer[..] == wire[PREFIX..][..read];
    } else {
      assert buffer[..] == wire[PREFIX..] + Zeros(buffer.Length - read);
    }
  }

  // ---------------------------------------------------------------- main results

  /**
   * A payload survives the wire, for every way of cutting its frame into chunks and whatever follows it, exactly when
   * its length fits the 32-bit prefix.
   */
  lemma RoundTrip(payload: Bytes, trailing: Bytes, chunks: seq<Bytes>)
    requires Flatten(chunks) == Frame(payload) + trailing
    ensures Decode(Flatten(chunks)) == Some(payload) <==> |payload| < WORD
  {
    FrameParts(payload, trailing);
    Uint32RoundTrip(|payload|);
    if |payload| < WORD {
      assert (payload + trailing)[..|payload|] == payload;
    }
  }

  /** A frame cut short inside its prefix is no message; cut short inside its body it is padded with zeros. */
  lemma Truncated(payload: Bytes, kept: nat)
    requires |payload| < WORD && kept <= |Frame(payload)|
    ensures kept < PREFIX ==> Decode(Frame(payload)[..kept]) == None
    ensures kept >= PREFIX ==>
              Decode(Frame(payload)[..kept]) == Some(payload[..kept - PREFIX] + Zeros(PREFIX + |payload| - kept))
  {
    if kept >= PREFIX {
      var body := payload[..kept - PREFIX];
      assert Frame(payload)[..kept] == SetUint32(|payload|) + body;
      assert (SetUint32(|payload|) + body)[..PREFIX] == SetUint32(|payload|);
      assert (SetUint32(|payload|) + body)[PREFIX..] == body;
      Uint32RoundTrip(|payload|);
      assert body[..|body|] == body + Zeros(0);
    }
  }

  /**
   * After the reader has taken its chunks, the rest of the stream is exactly the bytes behind the frame if and only if
   * a chunk ended where the frame ended: bytes that share a chunk with the frame's end are dropped.
   */
  lemma NothingLostIffAligned(payload: Bytes, trailing: Bytes, chunks: seq<Bytes>)
    requires |payload| < WORD && Flatten(chunks) == Frame(payload) + trailing
    ensures Flatten(Consume(chunks, Demand(Flatten(chunks)))) == trailing <==>
            exists i: nat :: i <= |chunks| && Flatten(chunks[..i]) == Frame(payload)
  {
    FrameDemand(payload, trailing);
    ConsumeAligned(chunks, |Frame(payload)|);
    var rest := Flatten(Consume(chunks, |Frame(payload)|));
    if rest == trailing {
      var i: nat :| i <= |chunks| && |Flatten(chunks[..i])| == |Frame(payload)|;
      FlattenPrefix(chunks, i);
    }
  }

  /** Two frames that arrive in one chunk: the first is read, the second is lost. */
  lemma SecondFrameLost(first: Bytes, second: Bytes)
    requires |first| < WORD
    ensures var chunks := [Frame(first) + Frame(second)];
            var left := Consume(chunks, Demand(Flatten(chunks)));
            Decode(Flatten(chunks)) == Some(first) && left == [] && Decode(Flatten(left)) == None
  {
    var chunks := [Frame(first) + Frame(second)];
    assert Flatten(chunks) == Frame(first) + Frame(second);
    RoundTrip(first, Frame(second), chunks);
    FrameDemand(first, Frame(second));
  }

  /** What is left over is a suffix of the stream, short of the bytes asked for unless a chunk ends there. */
  lemma {:induction false} ConsumeAligned(chunks: seq<Bytes>, need: nat)
    requires need <= |Flatten(chunks)|
    ensures var rest := Flatten(Consume(chunks, need));
            && |rest| <= |Flatten(chunks)| - need
            && rest == Flatten(chunks)[|Flatten(chunks)| - |rest|..]
            && (|rest| == |Flatten(chunks)| - need <==>
                exists i: nat :: i <= |chunks| && |Flatten(chunks[..i])| == need)
  {
    if need == 0 {
      assert |Flatten(chunks[..0])| == 0;
    } else {
      ConsumeAligned(chunks[1..], Less(need, |chunks[0]|));
      if i: nat :| i <= |chunks[1..]| && |Flatten(chunks[1..][..i])| == need - |chunks[0]| {
        assert chunks[..i + 1] == [chunks[0]] + chunks[1..][..i];
        assert |Flatten(chunks[..i + 1])| == need;
      }
      if i: nat :| i <= |chunks| && |Flatten(chunks[..i])| == need {
        assert i > 0;
        assert chunks[..i][1..] == chunks[1..][..i - 1];
        assert |Flatten(chunks[1..][..i - 1])| == need - |chunks[0]|;
      }
    }
  }

  lemma {:induction false} FlattenPrefix(chunks: seq<Bytes>, i: nat)
    requires i <= |chunks|
    ensures Flatten(chunks[..i]) <= Flatten(chunks)
  {
    if i > 0 {
      FlattenPrefix(chunks[1..], i - 1);
      assert chunks[..i][1..] == chunks[1..][..i - 1];
    }
  }

  lemma FrameParts(payload: Bytes, trailing: Bytes)
    ensures (Frame(payload) + trailing)[..PREFIX] == SetUint32(|payload|)
    ensures (Frame(payload) + trailing)[PREFIX..] == payload + trailing
  {
  }

  lemma FrameDemand(payload: Bytes, trailing: Bytes)
    requires |payload| < WORD
    ensures Demand(Frame(payload) + trailing) == |Frame(payload)|
  {
    FrameParts(payload, trailing);
    Uint32RoundTrip(|payload|);
  }
}
