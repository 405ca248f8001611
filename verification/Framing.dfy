/** Length-framed relay files, read incrementally while they grow. */
module Framing {
  import opened Events
  import opened Sequences

  type Byte = b: int | 0 <= b < 256
  type Bytes = seq<Byte>

  const SIZE_LIMIT: nat := 0x1_0000_0000

  /** Big-endian unsigned 32-bit. */
  function PackSize(n: nat): (r: Bytes)
    requires n < SIZE_LIMIT
    ensures |r| == 4 && UnpackSize(r) == n
  {
    var high := n / 0x100;
    var higher := high / 0x100;
    assert higher / 0x100 < 0x100;
    [higher / 0x100, higher % 0x100, high % 0x100, n % 0x100]
  }

  function UnpackSize(b: Bytes): nat
    requires |b| == 4
  {
    b[0] as int * 0x100_0000 + b[1] as int * 0x1_0000 + b[2] as int * 0x100 + b[3] as int
  }

  /** A frame is the size of its payload in four bytes, the highest first, and the payload. */
  lemma FrameBytes(payload: Bytes)
    requires |payload| < 0x1_0000_0000
    ensures var b, n := Frame(payload), |payload|;
            && b[0] as int == n / 0x100_0000 && b[1] as int == n / 0x1_0000 % 0x100
            && b[2] as int == n / 0x100 % 0x100 && b[3] as int == n % 0x100 && b[4..] == payload
  {
  }

  function Frame(payload: Bytes): Bytes
    requires |payload| < SIZE_LIMIT
  {
    PackSize(|payload|) + payload
  }

  function Frames(payloads: seq<Bytes>): Bytes
    requires forall p :: p in payloads ==> |p| < SIZE_LIMIT
  {
    if payloads == [] then [] else Frame(payloads[0]) + Frames(payloads[1..])
  }

  /** Length of the frame at the front, when its size field is there. */
  function FrameLength(b: Bytes): nat
    requires 4 <= |b|
  {
    4 + UnpackSize(b[..4])
  }

  predicate StartsWithFrame(b: Bytes) {
    4 <= |b| && FrameLength(b) <= |b|
  }

  /** The complete frames at the front of some bytes; a torn frame at the end is not one. */
  function ParseFrames(b: Bytes): seq<Bytes> {
    if !StartsWithFrame(b) then [] else [b[4..FrameLength(b)]] + ParseFrames(b[FrameLength(b)..])
  }

  /** Writing frames and parsing them back gives the payloads, whatever torn bytes follow. */
  lemma {:induction false} ParseWritten(payloads: seq<Bytes>, torn: Bytes)
    requires forall p :: p in payloads ==> |p| < SIZE_LIMIT
    requires !StartsWithFrame(torn)
    ensures ParseFrames(Frames(payloads) + torn) == payloads
  {
    if payloads == [] {
      assert [] + torn == torn;
    } else {
      var p, rest := payloads[0], Frames(payloads[1..]) + torn;
      var b := Frames(payloads) + torn;
      assert b == PackSize(|p|) + p + rest;
      assert b[..4] == PackSize(|p|);
      assert b[4..FrameLength(b)] == p && b[FrameLength(b)..] == rest;
      ParseWritten(payloads[1..], torn);
    }
  }

  /** More bytes never change the frames already complete. */
  lemma {:induction false} ParseGrows(b: Bytes, more: Bytes)
    ensures ParseFrames(b) <= ParseFrames(b + more)
    decreases |b|
  {
    if StartsWithFrame(b) {
      var c, n := b + more, FrameLength(b);
      SlicesOfConcat(b, more, 4, n);
      ParseGrows(b[n..], more);
    }
  }

  /** Frames appended at a frame boundary are exactly the new ones. */
  lemma {:induction false} ParseAppend(b: Bytes, payload: Bytes)
    requires |payload| < SIZE_LIMIT && Whole(b)
    ensures Whole(b + Frame(payload)) && ParseFrames(b + Frame(payload)) == ParseFrames(b) + [payload]
    decreases |b|
  {
    if b == [] {
      assert [] + Frame(payload) == Frame(payload) == Frames([payload]) + [];
      ParseWritten([payload], []);
      assert Frame(payload)[..4] == PackSize(|payload|);
      assert Frame(payload)[FrameLength(Frame(payload))..] == [];
    } else {
      var c, n := b + Frame(payload), FrameLength(b);
      SlicesOfConcat(b, Frame(payload), 4, n);
      ParseAppend(b[n..], payload);
      assert [b[4..n]] + (ParseFrames(b[n..]) + [payload]) == ParseFrames(b) + [payload];
    }
  }

  /** The bytes are complete frames and nothing else. */
  predicate Whole(b: Bytes) {
    b == [] || (StartsWithFrame(b) && Whole(b[FrameLength(b)..]))
  }

  lemma PackUnpacked(b: Bytes)
    requires |b| == 4
    ensures UnpackSize(b) < SIZE_LIMIT && PackSize(UnpackSize(b)) == b
  {
    var higher := b[0] as int * 0x100 + b[1] as int;
    var high := higher * 0x100 + b[2] as int;
    var n := high * 0x100 + b[3] as int;
    assert n == UnpackSize(b);
    assert n / 0x100 == high && high / 0x100 == higher && higher / 0x100 == b[0] as int;
  }

  lemma {:induction false} ParseConcat(front: Bytes, rest: Bytes)
    requires Whole(front)
    ensures ParseFrames(front + rest) == ParseFrames(front) + ParseFrames(rest)
    decreases |front|
  {
    if front == [] {
      assert front + rest == rest;
    } else {
      var m := FrameLength(front);
      SlicesOfConcat(front, rest, 4, m);
      ParseConcat(front[m..], rest);
      Associative([front[4..m]], ParseFrames(front[m..]), ParseFrames(rest));
    }
  }

  /** Parsing may stop and resume at any boundary between frames. */
  lemma ParseSplit(b: Bytes, n: nat)
    requires n <= |b| && Whole(b[..n])
    ensures ParseFrames(b) == ParseFrames(b[..n]) + ParseFrames(b[n..])
  {
    assert b == b[..n] + b[n..];
    ParseConcat(b[..n], b[n..]);
  }

  /** A frame found at the front is the next one delivered. */
  lemma FrameStep(content: Bytes, from: nat, end: nat, payload: Bytes)
    requires from <= end <= |content| && |payload| < SIZE_LIMIT && content[from..end] == Frame(payload)
    ensures ParseFrames(content[from..]) == [payload] + ParseFrames(content[end..])
  {
    var rest := content[from..];
    assert rest[..4] == content[from..end][..4] == PackSize(|payload|);
    assert rest[4..FrameLength(rest)] == content[from..end][4..] == payload;
    assert rest[FrameLength(rest)..] == content[end..];
  }

  /** A frame that follows whole frames is the next one delivered. */
  lemma WholeStep(content: Bytes, start: nat, end: nat, payload: Bytes)
    requires start <= end <= |content| && |payload| < SIZE_LIMIT
    requires Whole(content[..start]) && content[start..end] == Frame(payload)
    ensures Whole(content[..end]) && ParseFrames(content[..end]) == ParseFrames(content[..start]) + [payload]
  {
    assert content[..end] == content[..start] + Frame(payload);
    ParseAppend(content[..start], payload);
  }

  /** Bytes as long as their size field says are a frame, and the next one delivered. */
  lemma TakeFrame(content: Bytes, start: nat, end: nat)
    requires start + 4 <= end <= |content| && end - start == FrameLength(content[start..end]) && Whole(content[..start])
    ensures var payload := content[start..end][4..];
            && |payload| < SIZE_LIMIT && content[start..end] == Frame(payload) && Whole(content[..end])
            && ParseFrames(content[start..]) == [payload] + ParseFrames(content[end..])
  {
    var b := content[start..end];
    PackUnpacked(b[..4]);
    assert b == b[..4] + b[4..];
    FrameStep(content, start, end, b[4..]);
    WholeStep(content, start, end, b[4..]);
  }

  /** A read delivers the first of the frames ahead, or there is none. */
  ghost predicate Advances(before: seq<Bytes>, r: Option<Bytes>, after: seq<Bytes>) {
    if r.None? then after == before else before == [r.value] + after
  }

  class FileReader {
    const fileNum: nat
    var pos: nat
    var currentBuffer: Bytes

    constructor (fileNum: nat)
      ensures this.fileNum == fileNum && pos == 0 && currentBuffer == []
    {
      this.fileNum := fileNum;
      pos := 0;
      currentBuffer := [];
    }

    /** The buffer holds the bytes of the file just before `pos`: the beginning of a frame not yet delivered.
        Before it there are the frames delivered so far. */
    ghost predicate Valid(content: Bytes)
      reads this
    {
      && |currentBuffer| <= pos <= |content|
      && currentBuffer == content[Start()..pos]
      && !StartsWithFrame(currentBuffer)
      && Whole(content[..Start()])
    }

    ghost function Start(): int
      reads this
    {
      pos - |currentBuffer|
    }

    /** The frames of the file still to be delivered. */
    ghost function Remaining(content: Bytes): seq<Bytes>
      requires Valid(content)
      reads this
    {
      ParseFrames(content[Start()..])
    }

    /** The reader stands at the end of the frames delivered so far. */
    ghost predicate Delivered(content: Bytes, delivered: seq<Bytes>)
      requires Valid(content)
      reads this
    {
      ParseFrames(content[..Start()]) == delivered
    }

    /** file.read: at most `n` of the bytes now in the file, appended to the buffer. */
    method FillTo(content: Bytes, n: nat)
      requires |currentBuffer| <= pos <= |content| && currentBuffer == content[Start()..pos] && |currentBuffer| <= n
      modifies this
      ensures |currentBuffer| <= pos <= |content| && Start() == old(Start()) && currentBuffer == content[Start()..pos]
      ensures |currentBuffer| <= n && (|currentBuffer| < n ==> pos == |content|)
      ensures old(currentBuffer) <= currentBuffer
    {
      var end := if pos + (n - |currentBuffer|) <= |content| then pos + (n - |currentBuffer|) else |content|;
      var data := content[pos..end];
      assert content[Start()..pos] + data == content[Start()..end];
      currentBuffer := currentBuffer + data;
      pos := end;
    }

    /** Delivers the next frame when the file holds all of it, and otherwise keeps what it has got so far. */
    method ReadNextEvent(content: Bytes) returns (r: Option<Bytes>)
      requires Valid(content)
      modifies this
      ensures Valid(content)
      ensures r.None? <==> old(Remaining(content)) == []
      ensures Advances(old(Remaining(content)), r, Remaining(content))
      ensures r.None? ==> Start() == old(Start())
      ensures r.Some? ==>
                |r.value| < SIZE_LIMIT && old(Start()) <= Start() && content[old(Start())..Start()] == Frame(r.value)
    {
      var complete := FillFrame(content);
      if !complete {
        assert content[Start()..] == currentBuffer;
        return None;
      }
      TakeFrame(content, Start(), pos);
      var payload := TakeBuffer(content);
      r := Some(payload);
    }

    /** Hands out the payload of a complete frame and empties the buffer. */
    method TakeBuffer(content: Bytes) returns (payload: Bytes)
      requires 4 <= |currentBuffer| && pos <= |content| && Whole(content[..pos])
      modifies this
      ensures Valid(content) && Start() == old(pos) && payload == old(currentBuffer)[4..]
    {
      payload := currentBuffer[4..];
      currentBuffer := [];
    }

    /** Reads the size of the next frame and then the rest of it, as far as the file goes. */
    method FillFrame(content: Bytes) returns (complete: bool)
      requires |currentBuffer| <= pos <= |content| && currentBuffer == content[Start()..pos]
               && !StartsWithFrame(currentBuffer)
      modifies this
      ensures |currentBuffer| <= pos <= |content| && Start() == old(Start()) && currentBuffer == content[Start()..pos]
      ensures complete ==> 4 <= |currentBuffer| == FrameLength(currentBuffer)
      ensures !complete ==> pos == |content| && !StartsWithFrame(currentBuffer)
    {
      if |currentBuffer| < 4 {
        FillTo(content, 4);
      }
      if |currentBuffer| < 4 {
        return false;
      }
      ghost var sizeData := currentBuffer[..4];
      var size := UnpackSize(currentBuffer[..4]);
      if |currentBuffer| != size + 4 {
        FillTo(content, size + 4);
      }
      assert currentBuffer[..4] == sizeData;
      return |currentBuffer| == size + 4;
    }

    /** A reader of a file is a reader of the file after it has grown. */
    lemma Grown(content: Bytes, more: Bytes)
      requires Valid(content)
      ensures Valid(content + more) && Remaining(content) <= Remaining(content + more)
    {
      assert (content + more)[Start()..pos] == content[Start()..pos];
      assert (content + more)[Start()..] == content[Start()..] + more;
      assert (content + more)[..Start()] == content[..Start()];
      ParseGrows(content[Start()..], more);
    }
  }

  function Concat(chunks: seq<Bytes>): Bytes {
    if chunks == [] then [] else Concat(chunks[..|chunks| - 1]) + chunks[|chunks| - 1]
  }

  /** However the bytes of a file become visible, the frames are delivered once each, whole and in order. */
  method ReadInChunks(chunks: seq<Bytes>) returns (delivered: seq<Bytes>)
    ensures delivered == ParseFrames(Concat(chunks))
  {
    var reader := new FileReader(1);
    var content: Bytes := [];
    delivered := [];
    WholeSlices(chunks);
    for i := 0 to |chunks|
      invariant content == Concat(chunks[..i]) && fresh(reader)
      invariant reader.Valid(content) && reader.Delivered(content, delivered)
      invariant delivered == ParseFrames(content)
    {
      SliceLast(chunks, 0, i + 1);
      SlicesOfSnoc(chunks[..i], chunks[i], i);
      reader.Grown(content, chunks[i]);
      assert (content + chunks[i])[..reader.Start()] == content[..reader.Start()];
      content := content + chunks[i];
      delivered := Drain(reader, content, delivered);
    }
  }

  /** Reads until there is nothing more to read. */
  method Drain(reader: FileReader, content: Bytes, already: seq<Bytes>) returns (delivered: seq<Bytes>)
    requires reader.Valid(content) && reader.Delivered(content, already)
    modifies reader
    ensures reader.Valid(content) && reader.Delivered(content, delivered)
    ensures delivered == ParseFrames(content)
  {
    delivered := already;
    while true
      invariant reader.Valid(content) && reader.Delivered(content, delivered)
      decreases |reader.Remaining(content)|
    {
      ghost var start := reader.Start();
      var r := reader.ReadNextEvent(content);
      if r.None? {
        ParseSplit(content, start);
        return;
      }
      WholeStep(content, start, reader.Start(), r.value);
      delivered := delivered + [r.value];
    }
  }
}
