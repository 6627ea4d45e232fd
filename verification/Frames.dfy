/** The worker's frame stream (worker_protocol.rs): four length bytes, then a payload. */
module Frames {
  import opened Prelude
  import opened Bytes
  import opened Records

  const MAX_FRAME_BYTES: nat := 1024 * 1024

  /** Serialization as the framing sees it. */
  datatype Json<!V> = Json(encode: V -> Option<seq<byte>>, decode: seq<byte> -> Option<V>)

  datatype ProtocolError = UnexpectedEof | FrameTooLarge(actual: nat, maximum: nat) | Malformed

  function FrameBytes<V>(json: Json<V>, value: V): Result<seq<byte>, ProtocolError> {
    var payload := json.encode(value);
    if payload.None? then Err(Malformed)
    else if |payload.value| > MAX_FRAME_BYTES then Err(FrameTooLarge(|payload.value|, MAX_FRAME_BYTES))
    else Ok(PutField(payload.value, 4))
  }

  function ReadFrame<V>(json: Json<V>, rest: seq<byte>): Result<(V, seq<byte>), ProtocolError> {
    if |rest| < 4 then Err(UnexpectedEof)
    else if FromLe(rest[..4]) > MAX_FRAME_BYTES then Err(FrameTooLarge(FromLe(rest[..4]), MAX_FRAME_BYTES))
    else
      var field := TakeField(rest, 4);
      if field.None? then Err(UnexpectedEof)
      else
        var value := json.decode(field.value.0);
        if value.None? then Err(Malformed) else Ok((value.value, field.value.1))
  }

  function FrameReader<V>(json: Json<V>): Records.Read<V, ProtocolError> { (rest: seq<byte>) => ReadFrame(json, rest) }

  /** The frame of a value that has one. */
  function FrameWriter<V>(json: Json<V>): V -> seq<byte> {
    (v: V) => if FrameBytes(json, v).Ok? then FrameBytes(json, v).value else []
  }

  method EncodeFrame<V>(json: Json<V>, value: V) returns (r: Result<seq<byte>, ProtocolError>)
    ensures r == FrameBytes(json, value)
  {
    var payload := json.encode(value);
    if payload.None? {
      return Err(Malformed);
    }
    if |payload.value| > MAX_FRAME_BYTES {
      return Err(FrameTooLarge(|payload.value|, MAX_FRAME_BYTES));
    }
    var frame := Le(|payload.value|, 4);
    frame := frame + payload.value;
    r := Ok(frame);
  }

  /** An oversized declared length is refused with the reader still right behind the length. */
  method DecodeFrame<V>(json: Json<V>, reader: Reader) returns (r: Result<V, ProtocolError>)
    requires reader.Valid()
    modifies reader
    ensures reader.Valid()
    ensures r.Ok? ==> ReadFrame(json, old(reader.Rest())) == Ok((r.value, reader.Rest()))
    ensures r.Err? ==> ReadFrame(json, old(reader.Rest())) == Err(r.error)
    ensures r.Err? && r.error.FrameTooLarge? ==> reader.pos == old(reader.pos) + 4
  {
    ghost var rest := reader.Rest();
    var lengthBytes := reader.ReadExact(4);
    if lengthBytes.None? {
      return Err(UnexpectedEof);
    }
    var length := FromLe(lengthBytes.value);
    if length > MAX_FRAME_BYTES {
      return Err(FrameTooLarge(length, MAX_FRAME_BYTES));
    }
    var payload := reader.ReadExact(length);
    if payload.None? {
      return Err(UnexpectedEof);
    }
    assert payload.value == rest[4..4 + length] && reader.Rest() == rest[4 + length..];
    var value := json.decode(payload.value);
    if value.None? {
      return Err(Malformed);
    }
    r := Ok(value.value);
  }

  /** The value has a frame, and its serialization can be read back. */
  predicate Framable<V(==)>(json: Json<V>, value: V) {
    && FrameBytes(json, value).Ok?
    && json.decode(json.encode(value).value) == Some(value)
  }

  lemma FrameReadsBack<V>(json: Json<V>, value: V, rest: seq<byte>)
    requires Framable(json, value)
    ensures ReadFrame(json, FrameBytes(json, value).value + rest) == Ok((value, rest))
  {
    WidthsFit();
    var payload := json.encode(value).value;
    FieldReadsBack(payload, 4, rest);
    LeRoundTrip(|payload|, 4);
    assert (PutField(payload, 4) + rest)[..4] == Le(|payload|, 4);
  }

  /** Frames are self-delimiting: a stream of them, whatever follows, reads back exactly
      and leaves what follows. */
  lemma StreamReadsBack<V>(json: Json<V>, values: seq<V>, tail: seq<byte>)
    requires forall v <- values :: Framable(json, v)
    ensures ReadMany(FrameReader(json), WriteMany(FrameWriter(json), values) + tail, |values|) == Ok((values, tail))
  {
    var read, write := FrameReader(json), FrameWriter(json);
    forall v <- values, r: seq<byte>
      ensures read(write(v) + r) == Ok((v, r))
    {
      FrameReadsBack(json, v, r);
    }
    ReadsBack(read, write, values, tail);
  }

  /** So no stream can be mistaken for another of as many frames. */
  lemma StreamsAreUnambiguous<V>(json: Json<V>, a: seq<V>, s: seq<byte>, b: seq<V>, t: seq<byte>)
    requires forall v <- a :: Framable(json, v)
    requires forall v <- b :: Framable(json, v)
    requires |a| == |b|
    requires WriteMany(FrameWriter(json), a) + s == WriteMany(FrameWriter(json), b) + t
    ensures a == b && s == t
  {
    StreamReadsBack(json, a, s);
    StreamReadsBack(json, b, t);
  }

  /** Every proper prefix of a frame is an end-of-file error. */
  lemma CutFrame<V>(json: Json<V>, value: V, cut: nat)
    requires FrameBytes(json, value).Ok? && cut < |FrameBytes(json, value).value|
    ensures ReadFrame(json, FrameBytes(json, value).value[..cut]) == Err(UnexpectedEof)
  {
    WidthsFit();
    var payload := json.encode(value).value;
    if cut >= 4 {
      LeRoundTrip(|payload|, 4);
      assert PutField(payload, 4)[..cut][..4] == Le(|payload|, 4);
      FieldNeedsAll(payload, 4, cut);
    }
  }

  /** A stream cut short anywhere never reads as the whole of it. */
  lemma {:induction false} CutStream<V>(json: Json<V>, values: seq<V>, cut: nat)
    requires forall v <- values :: Framable(json, v)
    requires cut < |WriteMany(FrameWriter(json), values)|
    ensures ReadMany(FrameReader(json), WriteMany(FrameWriter(json), values)[..cut], |values|) == Err(UnexpectedEof)
  {
    var first := FrameWriter(json)(values[0]);
    var more := WriteMany(FrameWriter(json), values[1..]);
    assert values[0] in values;
    if cut < |first| {
      CutFrame(json, values[0], cut);
      assert (first + more)[..cut] == first[..cut];
    } else {
      FrameReadsBack(json, values[0], more[..cut - |first|]);
      assert (first + more)[..cut] == first + more[..cut - |first|];
      CutStream(json, values[1..], cut - |first|);
    }
  }

  /** A value has a frame exactly if it serializes to at most a mebibyte; the frame is four
      length bytes, least significant first, and the payload; a longer one is named with its
      length. */
  lemma FrameLayout<V>(json: Json<V>, value: V)
    ensures json.encode(value).None? ==> FrameBytes(json, value) == Err(Malformed)
    ensures json.encode(value).Some? && |json.encode(value).value| > 1_048_576 ==>
      FrameBytes(json, value) == Err(FrameTooLarge(|json.encode(value).value|, 1_048_576))
    ensures json.encode(value).Some? && |json.encode(value).value| <= 1_048_576 ==>
      && FrameBytes(json, value).Ok?
      && var x, payload := FrameBytes(json, value).value, json.encode(value).value;
         |x| == 4 + |payload| && FourBytes(x[..4]) == |payload| && x[4..] == payload
  {
    if json.encode(value).Some? {
      var payload := json.encode(value).value;
      LeBytes(|payload|);
      assert PutField(payload, 4)[..4] == Le(|payload|, 4) && PutField(payload, 4)[4..] == payload;
    }
  }

  /** What any bytes read as: oversized exactly if four bytes say more than a mebibyte, cut short
      exactly if they say no more than that and less is there, and otherwise what the payload
      decodes to and what follows it. */
  lemma FrameReadsExactly<V>(json: Json<V>, rest: seq<byte>)
    ensures ReadFrame(json, rest) ==
      if |rest| < 4 then Err(UnexpectedEof)
      else
        var n := FourBytes(rest[..4]);
        if n > 1_048_576 then Err(FrameTooLarge(n, 1_048_576))
        else if |rest| < 4 + n then Err(UnexpectedEof)
        else if json.decode(rest[4..4 + n]).None? then Err(Malformed)
        else Ok((json.decode(rest[4..4 + n]).value, rest[4 + n..]))
  {
    if |rest| >= 4 { FromLeIsFourBytes(rest[..4]); }
  }
}
