/** The retrying writer of ext/io_util.c. */
module RetryingWriter {
  import opened Basics

  const ENOSPC := 28
  const VARHDRSZ := 4

  /** What an Avro write callback does: produce these bytes, or fail for a reason of its own. */
  datatype Encoder = Produces(bytes: Bytes) | Fails(error: int)

  /** The memory writer: copies the bytes if they fit after the first `pos` ones. */
  method AvroWrite(buf: array<Byte>, pos: nat, bytes: Bytes) returns (err: int)
    requires pos <= buf.Length
    modifies buf
    ensures err == if pos + |bytes| <= buf.Length then 0 else ENOSPC
    ensures buf[..pos] == old(buf[..pos])
    ensures err == 0 ==> buf[pos..pos + |bytes|] == bytes
  {
    if pos + |bytes| > buf.Length { return ENOSPC; }
    for i := 0 to |bytes|
      invariant buf[..pos] == old(buf[..pos])
      invariant buf[pos..pos + i] == bytes[..i]
    {
      buf[pos + i] := bytes[i];
    }
    err := 0;
  }

  /** The largest output that leaves room for the header and the terminating zero. */
  predicate FitsMax(bytes: Bytes) {
    |bytes| + 1 <= 1048576 - VARHDRSZ
  }

  /**
   Doubles the buffer twice at a time until the output and a zero byte after it fit. On
   success `output` holds the bytes and the zero; `length` excludes the zero.
   */
  method TryWriting(enc: Encoder) returns (err: int, output: array<Byte>, length: nat)
    ensures enc.Produces? ==> err == if FitsMax(enc.bytes) then 0 else ENOSPC
    ensures enc.Fails? && enc.error != 0 ==> err == enc.error
    ensures enc.Produces? && err == 0 ==> length == |enc.bytes| && length < output.Length
                                          && output[..length] == enc.bytes && output[length] == 0
  {
    var size := 16384;
    err, length := ENOSPC, 0;
    output := new Byte[0];
    while err == ENOSPC && size <= 1048576
      invariant size in {16384, 65536, 262144, 1048576, 4194304}
      invariant enc.Produces? && err == ENOSPC && size > 16384 ==> |enc.bytes| + 1 > size / 4 - VARHDRSZ
      invariant enc.Produces? && err != ENOSPC ==> err == 0 && FitsMax(enc.bytes)
      invariant enc.Fails? && enc.error != 0 ==> err == ENOSPC || err == enc.error
      invariant enc.Fails? && enc.error != 0 && size > 16384 ==> enc.error == ENOSPC
      invariant enc.Produces? && err == 0 ==> length == |enc.bytes| && length < output.Length
                                              && output[..length] == enc.bytes && output[length] == 0
      decreases 4194304 - size, err == ENOSPC
    {
      output := new Byte[size - VARHDRSZ];
      match enc {
        case Produces(bytes) => err := AvroWrite(output, 0, bytes);
        case Fails(e) => err := e;
      }
      if err == 0 {
        length := if enc.Produces? then |enc.bytes| else 0;
        err := AvroWrite(output, length, [0]);
        assert err == 0 ==> output[length..length + 1][0] == 0;
      }
      if err == ENOSPC {
        size := size * 4;
      }
    }
  }

  /** What the writer's callers get: the bytes, unless they are too many. */
  function Written(bytes: Bytes): (r: Option<Bytes>)
    ensures r.Some? <==> FitsMax(bytes)
    ensures r.Some? ==> r.value == bytes
  {
    if FitsMax(bytes) then Some(bytes) else None
  }
}
