/** Cutting a byte string into pieces of one size, the last piece possibly shorter. */
module Chunking {
  import opened Format

  function Chunks(p: Bytes, size: nat): (parts: seq<Bytes>)
    requires size > 0
  {
    if p == [] then []
    else if |p| <= size then [p]
    else [p[..size]] + Chunks(p[size..], size)
  }

  function Concat(parts: seq<Bytes>): (p: Bytes) {
    if parts == [] then [] else parts[0] + Concat(parts[1..])
  }

  lemma {:induction false} ConcatChunks(p: Bytes, size: nat)
    requires size > 0
    ensures Concat(Chunks(p, size)) == p
    decreases |p|
  {
    var parts := Chunks(p, size);
    if |p| > size {
      ConcatChunks(p[size..], size);
      assert parts[1..] == Chunks(p[size..], size);
    } else if p != [] {
      assert parts[1..] == [];
    }
  }

  /** Every piece has the full size except the last, which holds the non-empty remainder. */
  lemma {:induction false} ChunkLengths(p: Bytes, size: nat)
    requires size > 0
    ensures var parts := Chunks(p, size);
            && (parts == [] <==> p == [])
            && (forall i :: 0 <= i < |parts| - 1 ==> |parts[i]| == size)
            && (parts != [] ==> 1 <= |parts[|parts| - 1]| <= size)
            && (parts != [] ==> |p| == size * (|parts| - 1) + |parts[|parts| - 1]|)
    decreases |p|
  {
    if |p| <= size {
    } else {
      ChunkLengths(p[size..], size);
    }
  }

  lemma {:induction false} ConcatSnoc(parts: seq<Bytes>, x: Bytes)
    ensures Concat(parts + [x]) == Concat(parts) + x
  {
    var all := parts + [x];
    if parts == [] {
      assert all[1..] == [];
    } else {
      assert all[1..] == parts[1..] + [x];
      ConcatSnoc(parts[1..], x);
    }
  }

  /** The next piece of what is left is the next piece of the whole. */
  lemma NextChunk(rest: Bytes, size: nat)
    requires size > 0 && rest != []
    ensures var n := if |rest| <= size then |rest| else size;
            Chunks(rest, size) == [rest[..n]] + Chunks(rest[n..], size)
  {
    if |rest| <= size {
      assert rest[..|rest|] == rest && rest[|rest|..] == [];
    }
  }
}

/** Length-prefixed binary stream items of the local protocol. */
module StreamFraming {
  import opened Format
  import opened BigEndian
  import opened Transcripts

  const MAX_FRAME_BYTES: nat := 16 * 1024 * 1024
  const MAX_STREAM_CHUNK_BYTES: nat := 4 * 1024 * 1024
  const STREAM_END: U32 := 0
  const STREAM_ERROR: U32 := 0xffff_ffff

  /** An item of a binary stream; the JSON text of an error response is kept as bytes. */
  datatype StreamItem = Data(bytes: Bytes) | End | Error(body: Bytes)

  /** The items a sender can produce. */
  predicate Sendable(item: StreamItem) {
    match item
    case Data(b) => 1 <= |b| <= MAX_STREAM_CHUNK_BYTES
    case End => true
    case Error(b) => 1 <= |b| <= MAX_FRAME_BYTES
  }

  /** Data up to four mebibytes, error bodies up to sixteen, neither of them empty. */
  lemma SendableExactly(b: Bytes)
    ensures Sendable(Data(b)) <==> 0 < |b| <= 4_194_304
    ensures Sendable(Error(b)) <==> 0 < |b| <= 16_777_216
  {
  }

  function Marker(item: StreamItem): (m: U32)
    requires Sendable(item)
  {
    match item
    case Data(b) => |b|
    case End => STREAM_END
    case Error(_) => STREAM_ERROR
  }

  function Body(item: StreamItem): (b: Bytes)
    requires Sendable(item)
  {
    match item
    case Data(b) => b
    case End => []
    case Error(b) => U32Bytes(|b|) + b
  }

  function ItemBytes(item: StreamItem): (b: Bytes)
    requires Sendable(item)
    ensures |b| >= 4
  {
    U32Bytes(Marker(item)) + Body(item)
  }

  lemma CutFrame(head: Bytes, body: Bytes)
    requires |head| == 4
    ensures (head + body)[..4] == head && (head + body)[4..] == body
  {
  }

  lemma CutFrames(first: Bytes, second: Bytes, body: Bytes)
    requires |first| == |second| == 4
    ensures var b := first + (second + body); b[..4] == first && b[4..8] == second && b[8..] == body
  {
  }

  /** The bytes of each item: a length and the data, four zero bytes, or four times 0xff and a framed body. */
  lemma WireFormat(item: StreamItem)
    requires Sendable(item)
    ensures var b := ItemBytes(item);
            match item
            case Data(data) => FromBytes(b[..4]) == |data| && b[4..] == data
            case End => b == [0, 0, 0, 0]
            case Error(body) => b[..4] == [0xff, 0xff, 0xff, 0xff] && FromBytes(b[4..8]) == |body| && b[8..] == body
  {
    Widths();
    Marks();
    match item
    case Data(data) =>
      FromToBytes(|data|, 4);
      CutFrame(U32Bytes(|data|), data);
    case End =>
    case Error(body) =>
      FromToBytes(|body|, 4);
      CutFrames(U32Bytes(STREAM_ERROR), U32Bytes(|body|), body);
  }

  lemma Marks()
    ensures U32Bytes(STREAM_END) == [0, 0, 0, 0] && U32Bytes(STREAM_ERROR) == [0xff, 0xff, 0xff, 0xff]
  {
    Widths();
    forall i | 0 <= i < 4
      ensures U32Bytes(STREAM_END)[i] == 0 && U32Bytes(STREAM_ERROR)[i] == 0xff
    {
      ByteAt(STREAM_END, 4, i);
      ByteAt(STREAM_ERROR, 4, i);
      assert Pow256(0) == 1 && Pow256(3) == 0x100_0000;
    }
  }

  lemma BodyPrefixFree(a: StreamItem, b: StreamItem, x: Bytes, y: Bytes)
    requires Sendable(a) && Sendable(b) && Marker(a) == Marker(b)
    requires Body(a) + x == Body(b) + y
    ensures a == b && x == y
  {
    match a
    case Data(p) => SplitEqual(p, x, b.bytes, y);
    case End => assert Body(a) + x == x && Body(b) + y == y;
    case Error(p) =>
      var q := b.body;
      Regroup(U32Bytes(|p|), p, x);
      Regroup(U32Bytes(|q|), q, y);
      SplitEqual(U32Bytes(|p|), p + x, U32Bytes(|q|), q + y);
      U32BytesInjective(|p|, |q|);
      SplitEqual(p, x, q, y);
  }

  /** Data, end and error items are never confusable, whatever follows them. */
  lemma ItemPrefixFree(a: StreamItem, b: StreamItem, x: Bytes, y: Bytes)
    requires Sendable(a) && Sendable(b)
    requires ItemBytes(a) + x == ItemBytes(b) + y
    ensures a == b && x == y
  {
    Regroup(U32Bytes(Marker(a)), Body(a), x);
    Regroup(U32Bytes(Marker(b)), Body(b), y);
    SplitEqual(U32Bytes(Marker(a)), Body(a) + x, U32Bytes(Marker(b)), Body(b) + y);
    U32BytesInjective(Marker(a), Marker(b));
    BodyPrefixFree(a, b, x, y);
  }

  ghost predicate StartsWith(wire: Bytes, item: StreamItem, rest: Bytes) {
    Sendable(item) && wire == ItemBytes(item) + rest
  }

  /** The one item at the front of the wire, if there is one. */
  ghost function FirstItem(wire: Bytes): (r: Option<(StreamItem, Bytes)>)
    ensures r.Some? ==> StartsWith(wire, r.value.0, r.value.1) && |r.value.1| < |wire|
    ensures r.None? ==> forall item, rest :: !StartsWith(wire, item, rest)
  {
    if exists item, rest :: StartsWith(wire, item, rest) then
      var item, rest :| StartsWith(wire, item, rest);
      Some((item, rest))
    else
      None
  }

  lemma FirstItemIs(wire: Bytes, item: StreamItem, rest: Bytes)
    requires StartsWith(wire, item, rest)
    ensures FirstItem(wire) == Some((item, rest))
  {
    var f := FirstItem(wire).value;
    ItemPrefixFree(item, f.0, rest, f.1);
  }

  /** The bytes carried by a stream that is completed by an end marker. */
  ghost function Payload(wire: Bytes): (p: Option<Bytes>)
    decreases |wire|
  {
    var first := FirstItem(wire);
    if first.None? || first.value.0.Error? then None
    else if first.value.0.End? then Some([])
    else
      var rest := Payload(first.value.1);
      if rest.None? then None else Some(first.value.0.bytes + rest.value)
  }

  /** A byte pipe. */
  class Pipe {
    var bytes: Bytes

    constructor (bytes: Bytes)
      ensures this.bytes == bytes
    {
      this.bytes := bytes;
    }

    method WriteAll(b: Bytes)
      modifies this
      ensures bytes == old(bytes) + b
    {
      bytes := bytes + b;
    }

    method ReadExact(n: nat) returns (r: Option<Bytes>)
      modifies this
      ensures r.Some? <==> n <= |old(bytes)|
      ensures r.Some? ==> |r.value| == n && old(bytes) == r.value + bytes
      ensures r.None? ==> bytes == []
    {
      if n > |bytes| {
        bytes := [];
        return None;
      }
      r := Some(bytes[..n]);
      bytes := bytes[n..];
    }
  }

  method WriteStreamChunk(pipe: Pipe, chunk: Bytes) returns (ok: bool)
    modifies pipe
    ensures ok <==> Sendable(Data(chunk))
    ensures pipe.bytes == if ok then old(pipe.bytes) + ItemBytes(Data(chunk)) else old(pipe.bytes)
  {
    if chunk == [] || |chunk| > MAX_STREAM_CHUNK_BYTES {
      return false;
    }
    ghost var before := pipe.bytes;
    pipe.WriteAll(U32Bytes(|chunk|));
    pipe.WriteAll(chunk);
    Regroup(before, U32Bytes(|chunk|), chunk);
    ok := true;
  }

  method WriteStreamEnd(pipe: Pipe)
    modifies pipe
    ensures pipe.bytes == old(pipe.bytes) + ItemBytes(End)
  {
    pipe.WriteAll(U32Bytes(STREAM_END));
    assert ItemBytes(End) == U32Bytes(STREAM_END);
  }

  /** Writes the marker first, so a body that is refused leaves the marker alone on the wire. */
  method WriteStreamError(pipe: Pipe, body: Bytes) returns (ok: bool)
    modifies pipe
    ensures ok <==> Sendable(Error(body))
    ensures pipe.bytes == old(pipe.bytes) + if ok then ItemBytes(Error(body)) else U32Bytes(STREAM_ERROR)
  {
    ghost var before := pipe.bytes;
    pipe.WriteAll(U32Bytes(STREAM_ERROR));
    if body == [] || |body| > MAX_FRAME_BYTES {
      return false;
    }
    pipe.WriteAll(U32Bytes(|body|));
    pipe.WriteAll(body);
    Regroup(before + U32Bytes(STREAM_ERROR), U32Bytes(|body|), body);
    Regroup(before, U32Bytes(STREAM_ERROR), U32Bytes(|body|) + body);
    ok := true;
  }

  /** Nothing sendable starts with a marker whose body is missing or whose length is out of bounds. */
  lemma NoItem(wire: Bytes, marker: U32, rest: Bytes)
    requires wire == U32Bytes(marker) + rest
    requires forall item, tail :: Sendable(item) && Marker(item) == marker ==> rest != Body(item) + tail
    ensures FirstItem(wire).None?
  {
    if FirstItem(wire).Some? {
      var (item, tail) := FirstItem(wire).value;
      Regroup(U32Bytes(Marker(item)), Body(item), tail);
      SplitEqual(U32Bytes(marker), rest, U32Bytes(Marker(item)), Body(item) + tail);
      U32BytesInjective(marker, Marker(item));
    }
  }

  lemma Item(wire: Bytes, item: StreamItem, rest: Bytes, tail: Bytes)
    requires Sendable(item) && wire == U32Bytes(Marker(item)) + rest && rest == Body(item) + tail
    ensures FirstItem(wire) == Some((item, tail))
  {
    Regroup(U32Bytes(Marker(item)), Body(item), tail);
    FirstItemIs(wire, item, tail);
  }

  /** Reads the plain frame that carries an error response. */
  method ReadFrame(pipe: Pipe) returns (r: Option<Bytes>)
    modifies pipe
    ensures r.Some? ==> Sendable(Error(r.value)) && old(pipe.bytes) == Body(Error(r.value)) + pipe.bytes
    ensures r.None? ==> forall b, tail :: Sendable(Error(b)) ==> old(pipe.bytes) != Body(Error(b)) + tail
    ensures |pipe.bytes| <= |old(pipe.bytes)|
  {
    ghost var wire := pipe.bytes;
    var lengthBytes := pipe.ReadExact(4);
    if lengthBytes.None? {
      return None;
    }
    Widths();
    var length := FromBytes(lengthBytes.value);
    ToFromBytes(lengthBytes.value);
    ghost var rest := pipe.bytes;
    assert wire == U32Bytes(length) + rest;
    forall b, tail | Sendable(Error(b)) && wire == Body(Error(b)) + tail
      ensures |b| == length && |rest| >= length
    {
      Regroup(U32Bytes(|b|), b, tail);
      SplitEqual(U32Bytes(length), rest, U32Bytes(|b|), b + tail);
      U32BytesInjective(length, |b|);
    }
    if length == 0 || length > MAX_FRAME_BYTES {
      return None;
    }
    r := pipe.ReadExact(length);
    if r.Some? {
      Regroup(U32Bytes(length), r.value, pipe.bytes);
    }
  }

  /** Reads exactly the item at the front of the wire, or fails when there is none. */
  method ReadStreamItem(pipe: Pipe) returns (r: Option<StreamItem>)
    modifies pipe
    ensures r.Some? ==> FirstItem(old(pipe.bytes)) == Some((r.value, pipe.bytes))
    ensures r.None? ==> FirstItem(old(pipe.bytes)).None?
    ensures |pipe.bytes| <= |old(pipe.bytes)|
  {
    ghost var wire := pipe.bytes;
    var lengthBytes := pipe.ReadExact(4);
    if lengthBytes.None? {
      return None;
    }
    Widths();
    var length := FromBytes(lengthBytes.value);
    ToFromBytes(lengthBytes.value);
    ghost var rest := pipe.bytes;
    assert wire == U32Bytes(length) + rest;
    if length == STREAM_END {
      assert rest == Body(End) + rest;
      Item(wire, End, rest, rest);
      return Some(End);
    }
    if length == STREAM_ERROR {
      var body := ReadFrame(pipe);
      if body.None? {
        NoItem(wire, length, rest);
        return None;
      }
      Item(wire, Error(body.value), rest, pipe.bytes);
      return Some(Error(body.value));
    }
    if length > MAX_STREAM_CHUNK_BYTES {
      NoItem(wire, length, rest);
      return None;
    }
    var data := pipe.ReadExact(length);
    if data.None? {
      NoItem(wire, length, rest);
      return None;
    }
    Item(wire, Data(data.value), rest, pipe.bytes);
    r := Some(Data(data.value));
  }
}

/** The adapters between framed streams and the vault's readers and writers. */
module StreamIo {
  import opened Format
  import opened Chunking
  import opened StreamFraming
  import opened BigEndian

  datatype ReadResult = Bytes(data: Format.Bytes) | Interrupted | Failed

  /** What a reader does on its next call: give at most `limit` bytes, be interrupted, or fail. */
  datatype ReadEvent = Give(limit: nat) | Interrupt | Fail

  /** Any reader whose end of input is sticky, driven by an arbitrary schedule. */
  class ScheduledReader {
    var remaining: Format.Bytes
    var schedule: seq<ReadEvent>

    constructor (remaining: Format.Bytes, schedule: seq<ReadEvent>)
      ensures this.remaining == remaining && this.schedule == schedule
    {
      this.remaining, this.schedule := remaining, schedule;
    }

    method Read(max: nat) returns (r: ReadResult)
      requires max > 0
      modifies this
      ensures schedule == if old(schedule) == [] then [] else old(schedule)[1..]
      ensures r.Bytes? ==> old(remaining) == r.data + remaining && |r.data| <= max
      ensures r.Bytes? ==> (r.data == [] <==> old(remaining) == [])
      ensures !r.Bytes? ==> remaining == old(remaining) && old(schedule) != []
      ensures r.Interrupted? ==> old(schedule)[0].Interrupt?
      ensures r.Failed? ==> old(schedule)[0].Fail?
    {
      var limit := max;
      if schedule != [] {
        var event := schedule[0];
        schedule := schedule[1..];
        match event {
          case Interrupt => return Interrupted;
          case Fail => return Failed;
          case Give(n) => limit := if n == 0 then 1 else if n < max then n else max;
        }
      }
      var count := if limit < |remaining| then limit else |remaining|;
      r := Bytes(remaining[..count]);
      remaining := remaining[count..];
    }
  }

  /** Reads the data frames of an upload as one byte string. */
  class StreamReader {
    const stream: Pipe
    var current: Format.Bytes
    var offset: nat
    var finished: bool

    ghost predicate Valid()
      reads this
    {
      offset <= |current|
    }

    /** The rest of the upload, if its frames are well formed up to the end marker. */
    ghost function Rest(): (p: Option<Format.Bytes>)
      requires Valid()
      reads this, stream
    {
      if finished then Some(current[offset..])
      else
        var p := Payload(stream.bytes);
        if p.None? then None else Some(current[offset..] + p.value)
    }

    /** Bytes still held, counting frame headers: an upper bound on what can still be delivered. */
    ghost function Size(): (n: nat)
      requires Valid()
      reads this, stream
    {
      |current| - offset + |stream.bytes|
    }

    constructor (stream: Pipe)
      ensures Valid() && this.stream == stream && Rest() == Payload(stream.bytes)
    {
      this.stream := stream;
      current, offset, finished := [], 0, false;
      new;
      assert Payload(stream.bytes).Some? ==> [] + Payload(stream.bytes).value == Payload(stream.bytes).value;
    }

    /** Loads frames until there is a byte to deliver, or says why there is none. */
    method Refill() returns (done: Option<ReadResult>)
      requires Valid()
      modifies this, stream
      ensures Valid() && Size() <= old(Size())
      ensures done.None? ==> offset < |current| && Rest() == old(Rest())
      ensures done.Some? ==> || (done.value == Failed && old(Rest()).None?)
                             || (done.value == Bytes([]) && old(Rest()) == Rest() == Some([]))
    {
      while offset == |current|
        invariant Valid()
        invariant Rest() == old(Rest())
        invariant Size() <= old(Size())
        decreases |stream.bytes|
      {
        assert current[offset..] == [];
        current, offset := [], 0;
        assert current[offset..] == [];
        if finished {
          return Some(Bytes([]));
        }
        ghost var payload := Payload(stream.bytes);
        assert payload.Some? ==> [] + payload.value == payload.value;
        var item := ReadStreamItem(stream);
        if item.None? || item.value.Error? {
          return Some(Failed);
        }
        if item.value.End? {
          assert payload == Some([]);
          finished := true;
          return Some(Bytes([]));
        }
        current := item.value.bytes;
        assert current[0..] == current;
        if Payload(stream.bytes).Some? {
          assert [] + (current + Payload(stream.bytes).value) == current + Payload(stream.bytes).value;
        }
      }
      done := None;
    }

    method Read(max: nat) returns (r: ReadResult)
      requires Valid()
      modifies this, stream
      ensures Valid() && !r.Interrupted?
      ensures r.Failed? ==> old(Rest()).None?
      ensures r.Bytes? ==> |r.data| <= max && Size() + |r.data| <= old(Size())
      ensures r.Bytes? ==> (Rest().Some? <==> old(Rest()).Some?)
      ensures r.Bytes? && old(Rest()).Some? ==> old(Rest()).value == r.data + Rest().value
      ensures r.Bytes? && r.data == [] && max > 0 ==> old(Rest()) == Some([])
      ensures max == 0 ==> r == Bytes([]) && Rest() == old(Rest())
    {
      if max == 0 {
        return Bytes([]);
      }
      var done := Refill();
      if done.Some? {
        return done.value;
      }
      var available := |current| - offset;
      var copied := if available < max then available else max;
      ghost var left := current[offset..];
      r := Bytes(current[offset..offset + copied]);
      offset := offset + copied;
      assert left == r.data + current[offset..];
      if !finished && Payload(stream.bytes).Some? {
        Regroup(r.data, current[offset..], Payload(stream.bytes).value);
      }
    }
  }

  /** Frames whatever is written to it, at most four mebibytes per frame. */
  class StreamWriter {
    const stream: Pipe

    constructor (stream: Pipe)
      ensures this.stream == stream
    {
      this.stream := stream;
    }

    method Write(buffer: Format.Bytes)
      modifies stream
      ensures AllSendable(Chunks(buffer, MAX_STREAM_CHUNK_BYTES))
      ensures stream.bytes == old(stream.bytes) + DataFrames(Chunks(buffer, MAX_STREAM_CHUNK_BYTES))
    {
      var size := MAX_STREAM_CHUNK_BYTES;
      var position := 0;
      ghost var sent: seq<Format.Bytes> := [];
      assert buffer[0..] == buffer;
      while position < |buffer|
        invariant 0 <= position <= |buffer|
        invariant AllSendable(sent)
        invariant Chunks(buffer, size) == sent + Chunks(buffer[position..], size)
        invariant stream.bytes == old(stream.bytes) + DataFrames(sent)
      {
        ghost var rest := buffer[position..];
        var end := if |buffer| - position <= size then |buffer| else position + size;
        var chunk := buffer[position..end];
        NextChunk(rest, size);
        assert chunk == rest[..end - position] && buffer[end..] == rest[end - position..];
        var ok := WriteStreamChunk(stream, chunk);
        DataFramesSnoc(sent, chunk);
        Regroup(old(stream.bytes), DataFrames(sent), ItemBytes(Data(chunk)));
        MoveOne(sent, chunk, Chunks(buffer[end..], size));
        sent := sent + [chunk];
        position := end;
      }
      assert buffer[position..] == [];
      assert Chunks(buffer, size) == sent;
    }
  }

  lemma MoveOne(a: seq<Format.Bytes>, x: Format.Bytes, b: seq<Format.Bytes>)
    ensures a + ([x] + b) == (a + [x]) + b
  {
  }

  ghost predicate AllSendable(frames: seq<Format.Bytes>) {
    forall i :: 0 <= i < |frames| ==> Sendable(Data(frames[i]))
  }

  /** The wire form of a list of data frames. */
  ghost function DataFrames(frames: seq<Format.Bytes>): (wire: Format.Bytes)
    requires AllSendable(frames)
  {
    if frames == [] then [] else ItemBytes(Data(frames[0])) + DataFrames(frames[1..])
  }

  lemma {:induction false} DataFramesSnoc(frames: seq<Format.Bytes>, x: Format.Bytes)
    requires AllSendable(frames) && Sendable(Data(x))
    ensures DataFrames(frames + [x]) == DataFrames(frames) + ItemBytes(Data(x))
  {
    var all := frames + [x];
    if frames == [] {
      assert all[1..] == [];
    } else {
      assert all[1..] == frames[1..] + [x];
      DataFramesSnoc(frames[1..], x);
      Regroup(ItemBytes(Data(frames[0])), DataFrames(frames[1..]), ItemBytes(Data(x)));
    }
  }

  ghost function Prepend(p: Format.Bytes, q: Option<Format.Bytes>): (r: Option<Format.Bytes>) {
    if q.None? then None else Some(p + q.value)
  }

  /** Data frames put their bytes in front of whatever the rest of the wire carries. */
  lemma {:induction false} FramesPrepend(frames: seq<Format.Bytes>, wire: Format.Bytes)
    requires AllSendable(frames)
    ensures Payload(DataFrames(frames) + wire) == Prepend(Concat(frames), Payload(wire))
  {
    if frames == [] {
      assert DataFrames(frames) + wire == wire;
      assert Payload(wire).Some? ==> Concat(frames) + Payload(wire).value == Payload(wire).value;
    } else {
      var first, rest := ItemBytes(Data(frames[0])), DataFrames(frames[1..]);
      FramesPrepend(frames[1..], wire);
      Regroup(first, rest, wire);
      assert Sendable(Data(frames[0]));
      FirstItemIs(first + (rest + wire), Data(frames[0]), rest + wire);
      if Payload(wire).Some? {
        Regroup(frames[0], Concat(frames[1..]), Payload(wire).value);
      }
    }
  }

  lemma PayloadOfEnd(after: Format.Bytes)
    ensures Payload(ItemBytes(End) + after) == Some([])
  {
    FirstItemIs(ItemBytes(End) + after, End, after);
  }

  /** For any split of a byte string into upload frames, the completed stream carries the string. */
  lemma UploadCarries(frames: seq<Format.Bytes>, after: Format.Bytes)
    requires AllSendable(frames)
    ensures Payload(DataFrames(frames) + (ItemBytes(End) + after)) == Some(Concat(frames))
  {
    FramesPrepend(frames, ItemBytes(End) + after);
    PayloadOfEnd(after);
    assert Concat(frames) + [] == Concat(frames);
  }

  lemma ChunksSendable(p: Format.Bytes)
    ensures AllSendable(Chunks(p, MAX_STREAM_CHUNK_BYTES))
  {
    ChunkLengths(p, MAX_STREAM_CHUNK_BYTES);
  }

  /** What a sequence of writes leaves on the wire. */
  ghost function Written(writes: seq<Format.Bytes>): (wire: Format.Bytes) {
    if writes == [] then []
    else
      ChunksSendable(writes[0]);
      DataFrames(Chunks(writes[0], MAX_STREAM_CHUNK_BYTES)) + Written(writes[1..])
  }

  /** Any sequence of writes followed by the end marker decodes to their concatenation. */
  lemma {:induction false} DownloadCarries(writes: seq<Format.Bytes>, after: Format.Bytes)
    ensures Payload(Written(writes) + (ItemBytes(End) + after)) == Some(Concat(writes))
  {
    var tail := ItemBytes(End) + after;
    if writes == [] {
      assert Written(writes) + tail == tail;
      PayloadOfEnd(after);
    } else {
      ChunksSendable(writes[0]);
      var parts := Chunks(writes[0], MAX_STREAM_CHUNK_BYTES);
      DownloadCarries(writes[1..], after);
      FramesPrepend(parts, Written(writes[1..]) + tail);
      Regroup(DataFrames(parts), Written(writes[1..]), tail);
      ConcatChunks(writes[0], MAX_STREAM_CHUNK_BYTES);
    }
  }

  // ----- Reading chunks of an exact size -----

  /** The readers that a streaming publication may be given. */
  datatype Reader = Scheduled(scheduled: ScheduledReader) | Upload(upload: StreamReader)
  {
    ghost predicate Valid()
      reads Footprint()
    {
      Upload? ==> upload.Valid()
    }

    ghost function Footprint(): (f: set<object>) {
      match this
      case Scheduled(s) => {s}
      case Upload(u) => {u, u.stream}
    }

    /** The input that is still to come, where it is defined. */
    ghost function Rest(): (p: Option<Format.Bytes>)
      requires Valid()
      reads Footprint()
    {
      match this
      case Scheduled(s) => Some(s.remaining)
      case Upload(u) => u.Rest()
    }

    /** Reading on to the end meets no failure. */
    ghost predicate Healthy()
      requires Valid()
      reads Footprint()
    {
      match this
      case Scheduled(s) => Fail !in s.schedule
      case Upload(u) => u.Rest().Some?
    }

    ghost function Size(): (n: nat)
      requires Valid()
      reads Footprint()
    {
      match this
      case Scheduled(s) => |s.remaining| + |s.schedule|
      case Upload(u) => u.Size()
    }
  }

  method Read(reader: Reader, max: nat) returns (r: ReadResult)
    requires reader.Valid() && max > 0
    modifies reader.Footprint()
    ensures reader.Valid()
    ensures old(reader.Healthy()) ==> reader.Healthy() && !r.Failed?
    ensures r.Bytes? ==> |r.data| <= max && reader.Size() + |r.data| <= old(reader.Size())
    ensures r.Bytes? ==> (reader.Rest().Some? <==> old(reader.Rest()).Some?)
    ensures r.Bytes? && old(reader.Rest()).Some? ==> old(reader.Rest()).value == r.data + reader.Rest().value
    ensures r.Bytes? && r.data == [] ==> old(reader.Rest()) == Some([])
    ensures r.Interrupted? ==> reader.Rest() == old(reader.Rest()) && reader.Size() < old(reader.Size())
  {
    match reader {
      case Scheduled(s) => r := s.Read(max);
      case Upload(u) => r := u.Read(max);
    }
  }

  /** Fills one buffer: delivers exactly the next `size` bytes, or all that is left. */
  method ReadNextChunk(reader: Reader, size: nat) returns (r: Result<Format.Bytes>)
    requires reader.Valid() && size > 0
    modifies reader.Footprint()
    ensures reader.Valid()
    ensures old(reader.Healthy()) ==> reader.Healthy() && r.Ok?
    ensures r.Err? ==> r.error == StorageError
    ensures r.Ok? ==> |r.value| <= size && reader.Size() + |r.value| <= old(reader.Size())
    ensures r.Ok? ==> (reader.Rest().Some? <==> old(reader.Rest()).Some?)
    ensures r.Ok? && old(reader.Rest()).Some? ==> old(reader.Rest()).value == r.value + reader.Rest().value
    ensures r.Ok? && |r.value| < size ==> old(reader.Rest()) == Some(r.value)
  {
    var filled: Format.Bytes := [];
    while |filled| < size
      invariant reader.Valid() && |filled| <= size
      invariant old(reader.Healthy()) ==> reader.Healthy()
      invariant reader.Size() + |filled| <= old(reader.Size())
      invariant reader.Rest().Some? <==> old(reader.Rest()).Some?
      invariant old(reader.Rest()).Some? ==> old(reader.Rest()).value == filled + reader.Rest().value
      decreases reader.Size()
    {
      var next := Read(reader, size - |filled|);
      match next {
        case Bytes(data) =>
          if data == [] {
            assert filled + [] == filled;
            return Ok(filled);
          }
          if old(reader.Rest()).Some? {
            Regroup(filled, data, reader.Rest().value);
          }
          filled := filled + data;
        case Interrupted =>
        case Failed =>
          return Err(StorageError);
      }
    }
    r := Ok(filled);
  }
}
