/**
 * The file-facing decisions of the web servers module: the leading-slash
 * normalisation of the `/delete` handler and of `handleUpload`, the delete
 * handler's replies, the per-chunk open/write/close sequencing of
 * `handleUpload`, and the unit that `readableSize` picks.
 *
 * The flash filesystem is a set of file names; an open file is a handle
 * that is either closed (a falsy `File`) or open on a path.
 */
module Files {

  /** A path that begins with '/'. */
  predicate IsRooted(path: string)
  {
    |path| > 0 && path[0] == '/'
  }

  /** A path not beginning with '/' gets one prepended; a rooted path is kept. */
  function RootPath(path: string): (r: string)
    ensures IsRooted(r)
    ensures IsRooted(path) ==> r == path
    ensures r == path || r == "/" + path
  {
    if IsRooted(path) then path else "/" + path
  }

  /** Normalising twice is normalising once. */
  lemma RootPathIdempotent(path: string)
    ensures RootPath(RootPath(path)) == RootPath(path)
  {
  }

  /** The `path` query parameter of a `/delete` request. */
  datatype Param = Missing | Given(value: string)

  /** Replies of `/delete`: "ok", "Not found", and the usage text. */
  datatype DeleteReply = Deleted | NotFound | Usage

  datatype DeleteOutcome = DeleteOutcome(reply: DeleteReply, files: set<string>)

  /**
   * The `/delete` handler: without a `path` parameter it answers with the
   * usage text; otherwise it removes the rooted path when that file exists.
   */
  function DeleteHandler(pathParam: Param, files: set<string>): (r: DeleteOutcome)
    ensures pathParam.Missing? ==> r == DeleteOutcome(Usage, files)
    ensures pathParam.Given? ==>
      && (r.reply == Deleted <==> RootPath(pathParam.value) in files)
      && r.reply != Usage
      && r.files == files - {RootPath(pathParam.value)}
  {
    match pathParam
    case Missing => DeleteOutcome(Usage, files)
    case Given(p) =>
      var path := RootPath(p);
      if path in files then DeleteOutcome(Deleted, files - {path}) else DeleteOutcome(NotFound, files)
  }

  /**
   * The path `handleUpload` opens: "/" prepended to the already rooted file
   * name, so it always begins with "//".
   */
  function UploadPath(filename: string): (p: string)
    ensures |p| >= 2 && p[..2] == "//"
    ensures p[1..] == RootPath(filename)
  {
    "/" + RootPath(filename)
  }

  /**
   * An uploaded file can be reached by `/delete` only when the query names
   * the doubled-slash path itself: neither "name" nor "/name" finds it.
   */
  lemma DeleteFindsUploadOnlyByUploadPath(filename: string, query: string)
    ensures RootPath(query) == UploadPath(filename) <==> query == UploadPath(filename)
  {
    if !IsRooted(query) {
      assert RootPath(query)[1..] == query;
      assert IsRooted(UploadPath(filename)[1..]);
    }
  }

  /** The request's `_tempFile`. */
  datatype FileHandle = Closed | OpenFile(path: string)

  /** One call of `handleUpload`; whether `SPIFFS.open` succeeds is an input. */
  datatype Chunk = Chunk(filename: string, index: nat, len: nat, final: bool, openSucceeds: bool)

  /** What a call does to the filesystem and the client, in order. */
  datatype UploadEffect =
    | Open(path: string)
    | Write(path: string, len: nat)
    | HandleClosedError
    | Close(path: string)
    | Respond200

  /** The handle after the first step of a call: a new file at index 0, else the old one. */
  function HandleAfterOpen(handle: FileHandle, c: Chunk): FileHandle
  {
    if c.index != 0 then handle
    else if c.openSucceeds then OpenFile(UploadPath(c.filename))
    else Closed
  }

  datatype UploadOutcome = UploadOutcome(handle: FileHandle, effects: seq<UploadEffect>)

  /** At index 0 the call first opens the upload path. */
  function Opening(c: Chunk): seq<UploadEffect>
  {
    if c.index == 0 then [Open(UploadPath(c.filename))] else []
  }

  /** A non-empty chunk is written to the handle, or an error is logged when it is closed. */
  function Writing(h: FileHandle, c: Chunk): seq<UploadEffect>
  {
    if c.len == 0 then [] else if h.OpenFile? then [Write(h.path, c.len)] else [HandleClosedError]
  }

  /** On the final chunk the handle is closed (or an error logged when it is closed), then 200 is sent. */
  function Closing(h: FileHandle, c: Chunk): seq<UploadEffect>
  {
    if !c.final then [] else if h.OpenFile? then [Close(h.path), Respond200] else [HandleClosedError, Respond200]
  }

  /**
   * One call of `handleUpload`. It opens "//name" first exactly at index 0,
   * writes a non-empty chunk to the handle then open (and only then), and
   * closes that handle and answers 200 exactly on the final chunk; the handle
   * it leaves is closed after the final chunk.
   */
  function UploadStep(handle: FileHandle, c: Chunk): (r: UploadOutcome)
    ensures r.handle == if c.final then Closed else HandleAfterOpen(handle, c)
    ensures var h := HandleAfterOpen(handle, c);
      && (c.index == 0 <==> |r.effects| > 0 && r.effects[0] == Open(UploadPath(c.filename)))
      && (forall e :: e in r.effects && e.Open? ==> c.index == 0)
      && (forall e :: e in r.effects && e.Write? ==> c.len > 0 && h == OpenFile(e.path) && e.len == c.len)
      && (c.len > 0 && h.OpenFile? ==> Write(h.path, c.len) in r.effects)
      && (Respond200 in r.effects <==> c.final)
      && (forall e :: e in r.effects && e.Close? ==> c.final && h == OpenFile(e.path))
      && (c.final && h.OpenFile? ==> Close(h.path) in r.effects)
  {
    var h := HandleAfterOpen(handle, c);
    var o, w, k := Opening(c), Writing(h, c), Closing(h, c);
    PartEffects(h, c);
    assert c.index != 0 && |o + w + k| > 0 ==> (o + w + k)[0] in w + k;
    UploadOutcome(if c.final then Closed else h, o + w + k)
  }

  /** What each of the three parts of a call may emit. */
  lemma PartEffects(h: FileHandle, c: Chunk)
    ensures forall e :: e in Opening(c) ==> e == Open(UploadPath(c.filename)) && c.index == 0
    ensures c.index == 0 ==> Opening(c) == [Open(UploadPath(c.filename))]
    ensures forall e :: e in Writing(h, c) ==> !e.Open? && !e.Close? && e != Respond200
    ensures forall e :: e in Writing(h, c) && e.Write? ==> c.len > 0 && h == OpenFile(e.path) && e.len == c.len
    ensures c.len > 0 && h.OpenFile? ==> Write(h.path, c.len) in Writing(h, c)
    ensures forall e :: e in Closing(h, c) ==> !e.Open? && !e.Write?
    ensures forall e :: e in Closing(h, c) && e.Close? ==> c.final && h == OpenFile(e.path)
    ensures Respond200 in Closing(h, c) <==> c.final
    ensures c.final && h.OpenFile? ==> Close(h.path) in Closing(h, c)
  {
  }

  /** A sequence of calls for the same request. */
  function UploadSession(handle: FileHandle, chunks: seq<Chunk>): UploadOutcome
    decreases |chunks|
  {
    if chunks == [] then UploadOutcome(handle, [])
    else
      var first := UploadStep(handle, chunks[0]);
      var rest := UploadSession(first.handle, chunks[1..]);
      UploadOutcome(rest.handle, first.effects + rest.effects)
  }

  /** The writes of the non-empty chunks, in order. */
  function Writes(path: string, chunks: seq<Chunk>): seq<UploadEffect>
    decreases |chunks|
  {
    if chunks == [] then []
    else (if chunks[0].len > 0 then [Write(path, chunks[0].len)] else []) + Writes(path, chunks[1..])
  }

  /** A chunk that opens its file successfully. */
  lemma OpeningChunk(handle: FileHandle, c: Chunk)
    requires c.index == 0 && c.openSucceeds
    ensures var p := UploadPath(c.filename);
      UploadStep(handle, c) == UploadOutcome(
        if c.final then Closed else OpenFile(p),
        [Open(p)] + (if c.len > 0 then [Write(p, c.len)] else []) + (if c.final then [Close(p), Respond200] else []))
  {
  }

  /** A later chunk on an open file. */
  lemma ContinuingChunk(path: string, c: Chunk)
    requires c.index != 0
    ensures UploadStep(OpenFile(path), c) == UploadOutcome(
        if c.final then Closed else OpenFile(path),
        (if c.len > 0 then [Write(path, c.len)] else []) + (if c.final then [Close(path), Respond200] else []))
  {
    var h := OpenFile(path);
    assert HandleAfterOpen(h, c) == h && Opening(c) == [];
    var w, k := Writing(h, c), Closing(h, c);
    assert UploadStep(h, c).effects == [] + w + k;
    assert [] + w + k == w + k;
  }

  /** Only the last of the chunks is final, and none of them starts a new file. */
  predicate ContinuesUpload(chunks: seq<Chunk>)
  {
    && chunks != []
    && (forall i :: 0 < i < |chunks| ==> chunks[i].index != 0)
    && (forall i :: 0 <= i < |chunks| - 1 ==> !chunks[i].final)
    && chunks[|chunks| - 1].final
  }

  /** The chunks after the first of an upload continue it. */
  lemma ContinuesUploadTail(chunks: seq<Chunk>)
    requires ContinuesUpload(chunks) && |chunks| > 1
    ensures ContinuesUpload(chunks[1..]) && chunks[1].index != 0 && !chunks[0].final
  {
    var rest := chunks[1..];
    assert forall i :: 0 <= i < |rest| ==> rest[i] == chunks[i + 1];
  }

  /** The writes of a chunk sequence: those of its first chunk, then the rest. */
  lemma WritesCons(path: string, chunks: seq<Chunk>)
    requires chunks != []
    ensures Writes(path, chunks) == Writes(path, [chunks[0]]) + Writes(path, chunks[1..])
  {
    assert [chunks[0]][1..] == [];
  }

  /** A final chunk on an open file writes, closes and answers. */
  lemma LastChunkSession(path: string, c: Chunk)
    requires c.index != 0 && c.final
    ensures UploadSession(OpenFile(path), [c]) == UploadOutcome(Closed, Writes(path, [c]) + [Close(path), Respond200])
  {
    ContinuingChunk(path, c);
    assert [c][1..] == [];
  }

  /** A non-final chunk on an open file writes and leaves the file open for the rest. */
  lemma NextChunkSession(path: string, chunks: seq<Chunk>)
    requires chunks != [] && chunks[0].index != 0 && !chunks[0].final
    ensures var later := UploadSession(OpenFile(path), chunks[1..]);
      UploadSession(OpenFile(path), chunks) == UploadOutcome(later.handle, Writes(path, [chunks[0]]) + later.effects)
  {
    var c := chunks[0];
    ContinuingChunk(path, c);
    assert [c][1..] == [];
    assert UploadStep(OpenFile(path), c) == UploadOutcome(OpenFile(path), Writes(path, [c]));
  }

  lemma {:induction false} ContinueUploadWritesAll(path: string, chunks: seq<Chunk>)
    requires ContinuesUpload(chunks)
    requires chunks[0].index != 0
    ensures UploadSession(OpenFile(path), chunks)
      == UploadOutcome(Closed, Writes(path, chunks) + [Close(path), Respond200])
    decreases |chunks|
  {
    if |chunks| == 1 {
      assert chunks == [chunks[0]];
      LastChunkSession(path, chunks[0]);
    } else {
      var rest := chunks[1..];
      var done := [Close(path), Respond200];
      ContinuesUploadTail(chunks);
      NextChunkSession(path, chunks);
      ContinueUploadWritesAll(path, rest);
      WritesCons(path, chunks);
      SeqAssoc(Writes(path, [chunks[0]]), Writes(path, rest), done);
    }
  }

  /**
   * A complete upload, whose first chunk opens the file successfully and
   * whose last chunk alone is final, opens "//name", writes every non-empty
   * chunk to it in order, closes it and answers 200 once, whatever handle the
   * request held before.
   */
  lemma UploadWritesWholeFile(handle: FileHandle, chunks: seq<Chunk>)
    requires ContinuesUpload(chunks)
    requires chunks[0].index == 0 && chunks[0].openSucceeds
    ensures var p := UploadPath(chunks[0].filename);
      UploadSession(handle, chunks)
      == UploadOutcome(Closed, [Open(p)] + Writes(p, chunks) + [Close(p), Respond200])
  {
    var c := chunks[0];
    var p := UploadPath(c.filename);
    var rest := chunks[1..];
    var first := UploadStep(handle, c);
    var later := UploadSession(first.handle, rest);
    var wc := if c.len > 0 then [Write(p, c.len)] else [];
    var done := [Close(p), Respond200];
    assert UploadSession(handle, chunks) == UploadOutcome(later.handle, first.effects + later.effects);
    assert Writes(p, chunks) == wc + Writes(p, rest);
    OpeningChunk(handle, c);
    if |chunks| == 1 {
      assert c.final && rest == [];
      assert first == UploadOutcome(Closed, [Open(p)] + wc + done);
      assert later == UploadOutcome(Closed, []);
      assert Writes(p, chunks) == wc;
      assert first.effects + later.effects == [Open(p)] + Writes(p, chunks) + done;
    } else {
      assert !c.final;
      assert first == UploadOutcome(OpenFile(p), [Open(p)] + wc + []);
      ContinuesUploadTail(chunks);
      ContinueUploadWritesAll(p, rest);
      assert later == UploadOutcome(Closed, Writes(p, rest) + done);
      assert first.effects + later.effects == [Open(p)] + Writes(p, chunks) + done by {
        assert first.effects == [Open(p)] + wc;
        SeqRegroup([Open(p)], wc, Writes(p, rest), done);
      }
    }
  }

  /*
   * Regrouping of concatenations over abstract sequences. Stated apart so
   * that the proofs using them do not reason about associativity on the
   * concrete effect sequences, which is much more expensive for the solver.
   */

  lemma SeqAssoc<T>(a: seq<T>, b: seq<T>, c: seq<T>)
    ensures a + (b + c) == (a + b) + c
  {
  }

  lemma SeqRegroup<T>(a: seq<T>, b: seq<T>, c: seq<T>, d: seq<T>)
    ensures (a + b) + (c + d) == a + (b + c) + d
  {
  }

  /** The `_tempFile` that `handleUpload` keeps on the request between calls. */
  class UploadRequest {
    var tempFile: FileHandle

    constructor ()
      ensures tempFile == Closed
    {
      tempFile := Closed;
    }

    /** `handleUpload(request, filename, index, data, len, final)`. */
    method HandleUpload(c: Chunk) returns (effects: seq<UploadEffect>)
      modifies this
      ensures tempFile == UploadStep(old(tempFile), c).handle
      ensures effects == UploadStep(old(tempFile), c).effects
    {
      effects := [];
      if c.index == 0 {
        var filename := RootPath(c.filename);
        var path := "/" + filename;
        tempFile := if c.openSucceeds then OpenFile(path) else Closed;
        effects := effects + [Open(path)];
      }
      if c.len > 0 {
        if tempFile.OpenFile? {
          effects := effects + [Write(tempFile.path, c.len)];
        } else {
          effects := effects + [HandleClosedError];
        }
      }
      if c.final {
        if tempFile.OpenFile? {
          effects := effects + [Close(tempFile.path)];
          tempFile := Closed;
        } else {
          effects := effects + [HandleClosedError];
        }
        effects := effects + [Respond200];
      }
    }
  }

  /** The unit `readableSize` prints a size in. */
  datatype SizeUnit = Bytes | KiB | MiB

  /** The unit chosen by `readableSize`: exactly 1024 and 1048576 stay in the lower unit. */
  function ReadableUnit(size: int): (u: SizeUnit)
    ensures u == MiB <==> size > 1048576
    ensures u == KiB <==> 1024 < size <= 1048576
    ensures u == Bytes <==> size <= 1024
  {
    if size > 1024 * 1024 then MiB
    else if size > 1024 then KiB
    else Bytes
  }
}
