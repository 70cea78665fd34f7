/**
 * The `/picture.jpg` handler: capture at 800x600 and answer either with a
 * chunked JPEG response or with 503 "capture failed". The chunk callback is
 * asked, for each chunk, to fill a buffer of `maxLen` bytes with the frame
 * bytes from position `index` and to return how many it wrote; the response
 * ends when it returns 0. `size_t` is 32 bits wide on the target, so
 * `size - index` is taken modulo 2^32.
 */
module Picture {
  import opened Millis

  type Byte = b: int | 0 <= b < 256

  const PICTURE_WIDTH: nat := 800
  const PICTURE_HEIGHT: nat := 600

  /**
   * The chunk length as the callback computes it: it compares the remaining
   * byte count with the buffer capacity the wrong way round and returns the
   * LARGER of the two.
   */
  function ChunkLength(size: U32, index: U32, maxLen: U32): (r: U32)
    ensures r >= maxLen && r >= Sub(size, index)
    ensures r == maxLen || r == Sub(size, index)
  {
    if Sub(size, index) > maxLen then Sub(size, index) else maxLen
  }

  /** A frame larger than the buffer is written in one go, past the buffer's end. */
  lemma AsWrittenOverrunsBuffer(size: U32, index: U32, maxLen: U32)
    requires index <= size && size - index > maxLen
    ensures ChunkLength(size, index, maxLen) > maxLen
  {
  }

  /** A 1000-byte frame offered a 100-byte buffer gets 1000 bytes written into it. */
  lemma AsWrittenOverrunExample()
    ensures ChunkLength(1000, 0, 100) == 1000
  {
  }

  /**
   * Near the end of the frame `maxLen` bytes are copied although fewer remain,
   * so the copy reads past the frame; and since the result is never 0 for a
   * non-empty buffer, the response never ends.
   */
  lemma AsWrittenNeverEnds(size: U32, index: U32, maxLen: U32)
    requires maxLen > 0
    ensures ChunkLength(size, index, maxLen) > 0
    ensures index <= size && size - index < maxLen ==> index + ChunkLength(size, index, maxLen) > size
  {
  }

  /**
   * The callback as evidently intended: clamp to the buffer capacity, so a
   * chunk is the smaller of `maxLen` and the bytes remaining.
   */
  function ChunkLengthClamped(size: U32, index: U32, maxLen: U32): (r: U32)
    ensures r <= maxLen && r <= Sub(size, index)
    ensures r == maxLen || r == Sub(size, index)
    ensures index <= size ==> index + r <= size
    ensures index <= size && maxLen > 0 ==> (r == 0 <==> index == size)
  {
    if Sub(size, index) < maxLen then Sub(size, index) else maxLen
  }

  /**
   * The buffer capacity the server offers on each call, as a function of the
   * number of bytes already sent; since that number grows on every call that
   * does not end the response, this covers a different capacity per call.
   */
  type Capacity = nat -> U32

  ghost predicate NonEmptyBuffers(capacity: Capacity)
  {
    forall sent: nat :: capacity(sent) > 0
  }

  /**
   * The body the server assembles from the clamped callback, starting at
   * `index`: copy a chunk, advance, and stop on a chunk of length 0.
   */
  function Stream(data: seq<Byte>, index: nat, capacity: Capacity): seq<Byte>
    requires |data| < MODULUS && index <= |data|
    requires NonEmptyBuffers(capacity)
    decreases |data| - index
  {
    var len := ChunkLengthClamped(|data|, index, capacity(index));
    if len == 0 then [] else data[index..index + len] + Stream(data, index + len, capacity)
  }

  /**
   * The chunks, in order, are exactly the frame bytes from `index` on,
   * whatever non-zero capacity the server offers on each call.
   */
  lemma {:induction false} StreamIsFrame(data: seq<Byte>, index: nat, capacity: Capacity)
    requires |data| < MODULUS && index <= |data|
    requires NonEmptyBuffers(capacity)
    ensures Stream(data, index, capacity) == data[index..]
    decreases |data| - index
  {
    var len := ChunkLengthClamped(|data|, index, capacity(index));
    if len != 0 {
      StreamIsFrame(data, index + len, capacity);
      assert data[index..] == data[index..index + len] + data[index + len..];
    }
  }

  /** What `esp32cam::capture()` returned: a null pointer or the JPEG bytes of a frame. */
  datatype CaptureResult = NoFrame | Frame(bytes: seq<Byte>)

  /** What the handler sends. */
  datatype Response =
    | Chunked(contentType: string, body: seq<Byte>)
    | Plain(status: nat, contentType: string, text: string)

  /** The handler's steps, in order. */
  datatype Effect = SetResolution(width: nat, height: nat) | WarnResolution | Capture | Send(response: Response)

  /**
   * One request to `/picture.jpg`: a failed resolution change only warns; a
   * captured frame is streamed through the (clamped) chunk callback, a failed
   * capture answers 503.
   */
  function PictureHandler(resolutionChanged: bool, frame: CaptureResult, capacity: Capacity): (effects: seq<Effect>)
    requires frame.Frame? ==> |frame.bytes| < MODULUS
    requires NonEmptyBuffers(capacity)
    ensures |effects| == (if resolutionChanged then 3 else 4)
    ensures effects[0] == SetResolution(PICTURE_WIDTH, PICTURE_HEIGHT)
    ensures effects[1] == (if resolutionChanged then Capture else WarnResolution)
    ensures effects[|effects| - 2] == Capture
    ensures var sent := effects[|effects| - 1];
      && sent.Send?
      && (sent.response.Chunked? <==> frame.Frame?)
      && (frame.Frame? ==> sent.response == Chunked("image/jpeg", frame.bytes))
      && (frame.NoFrame? ==> sent.response == Plain(503, "text/plain", "capture failed"))
  {
    var head := if resolutionChanged then [SetResolution(PICTURE_WIDTH, PICTURE_HEIGHT)]
                else [SetResolution(PICTURE_WIDTH, PICTURE_HEIGHT), WarnResolution];
    var response :=
      if frame.Frame? then
        StreamIsFrame(frame.bytes, 0, capacity);
        Chunked("image/jpeg", Stream(frame.bytes, 0, capacity))
      else Plain(503, "text/plain", "capture failed");
    head + [Capture, Send(response)]
  }
}
