# wall-e-cam firmware core in Dafny

This project models the timing and decision logic of the wall-e-cam ESP32-CAM firmware. The firmware streams camera frames to websocket clients and serves a small HTTP API over a flash filesystem. The model covers:

- **Millisecond counter** (`Millis`): `uint32_t` arithmetic modulo 2^32 and the wrap-safe deadline test `(int32_t)(now - deadline) > 0`. One lemma proves the test exact across a counter overflow.
- **Blink pattern** (`Blink`, and `MainLoop.Firmware.Blink`):
  - The catch-up loop of `blink(high_ms, low_ms)` is a pure function `CatchUp`.
  - An in-place method over the static state is proved equal to it.
  - A trace lemma proves catch-up completeness.
- **Main loop gating** (`MainLoop`):
  - `loop()` runs `blink(50, 950)`, then the 10 s liveness report, then, while a websocket client is connected, the 100 ms capture-and-broadcast cycle.
  - The cycle captures at 640x480 and broadcasts only when the frame is non-null and more than 60000 bytes of heap are free.
  - `periodicTrigger` is declared in a header that is not part of this model. It is a parameter: a function from (now, stored deadline, period) to whether it fired and the deadline it stores.
- **Web servers housekeeping and websocket events** (`Servers`):
  - `serversLoop` with its one-step 1000 ms cleanup deadline.
  - `websocketEventHandler`: the global `lastClient` (-1 for none) and the fragmented/binary/text frame classification.
- **File handling** (`Files`):
  - the leading-slash normalisation of `/delete` and of `handleUpload`;
  - the `/delete` replies;
  - the per-chunk open/write/close steps of `handleUpload`, and whole uploads built from them;
  - the unit that `readableSize` picks.
- **Directory JSON** (`JsonDirectory`): the recursive `jsonDirectory`, a do-while loop proved equal to a recursive text definition. The model pins down its trailing comma.
- **Picture endpoint** (`Picture`): the `/picture.jpg` handler and the chunk-length callback of its chunked response. The callback's clamp is inverted (see Findings).

Three behaviours of the code worth stating plainly:

- The deadlines of `blink` and `serversLoop` fire only when they are strictly past: the test is `> 0`, not `>= 0`.
- The frame is captured before the heap is checked. A capture therefore happens even when the heap is too low to broadcast it.
- `loop()` sets a fixed 640x480 and the picture handler a fixed 800x600. No resolution is negotiated.

## Model

| member | source | states |
|---|---|---|
| Millis.Sub | src/main.cpp:201 | `now - deadline` on `uint32_t`: the plain difference when no borrow occurs, otherwise the difference plus 2^32 |
| Millis.Add | src/main.cpp:204 | `deadline += step` on `uint32_t`: subtracting the step again gives back the old deadline; no wrap occurs below 2^32 |
| Millis.ToInt32 | src/main.cpp:201 | the `(int32_t)` cast keeps the bit pattern (converting back gives the same `uint32_t`) and is negative exactly for values of 2^31 and above |
| Millis.Int32RoundTrip | src/servers.cpp:165-170 | storing a `uint32_t` client id in the `int lastClient` and comparing it back as unsigned loses nothing, and neither does the reverse conversion |
| Millis.IsPastMatchesTrueTime | src/main.cpp:201 | for any two true times less than 2^31 ms apart, the wrapped test `(int32_t)(now - deadline) > 0` holds exactly when the deadline is strictly earlier, across counter overflow |
| Millis.AdvancePastDeadline | src/main.cpp:201-204 | advancing a past deadline by a step below 2^31 leaves it past exactly when the step is smaller than the lag, and then the lag shrinks by exactly the step |
| Blink.LedLevel | src/main.cpp:203 | the pin is driven LOW exactly when `state` is true (active-low LED) |
| Blink.CatchUp | src/main.cpp:197-205 | after the catch-up the stored deadline is no longer past; when `now` is not strictly past the deadline, neither the deadline nor the state changes and nothing is written |
| Blink.CatchUpTrace | src/main.cpp:201-205 | every toggle happens at a deadline that had passed, starting at the stored one; each deadline is the previous one plus `high_ms` when the new state is true and `low_ms` otherwise; states alternate; the final state reflects the parity of the toggle count and the final deadline follows the last toggle |
| Blink.LevelsAt | src/main.cpp:203 | the i-th level written to the pin is the active-low level of the i-th state entered |
| MainLoop.FrameCycle | src/main.cpp:168-185 | a frame cycle sets 640x480, captures, then broadcasts the frame's size exactly when the frame is non-null and free heap exceeds 60000, and otherwise warns; the capture always precedes the heap check |
| MainLoop.BroadcastsOfFrameCycle | src/main.cpp:172-185 | a frame cycle broadcasts once when admitted and never otherwise |
| MainLoop.TriggerPass | src/main.cpp:160-187 | the report trigger always runs and its log line, stamped with its own `millis()` read, is the first action exactly when it fires; the pass then has exactly one more block of actions, the whole frame cycle, when a client is connected and the frame trigger fires, and nothing else; with no client the frame deadline is untouched and no capture is made; a capture happens exactly when a client is connected and the frame trigger fires; a broadcast happens exactly when, in addition, the frame is admitted |
| MainLoop.NoClientsNoCapture | src/main.cpp:165-172 | over any number of passes with no websocket client, the frame deadline never moves and no capture is made, whatever the trigger does |
| MainLoop.Firmware.constructor | src/main.cpp:198-199 | the blink statics start at 0 and false; the report and frame deadlines (`next_report_ms`, main.cpp:160, and `next_frame_ms`, main.cpp:166) start at 0; the LED pin has been driven LOW once, as `setup` does at main.cpp:69 |
| MainLoop.Firmware.Blink | src/main.cpp:197-205 | the in-place loop over the static deadline and state leaves them equal to `CatchUp`'s result and appends one pin level per toggle |
| MainLoop.Firmware.Triggers | src/main.cpp:160-187 | the report and frame triggers in place give the deadlines and actions of `TriggerPass` |
| MainLoop.Firmware.Loop | src/main.cpp:157-188 | one pass of `loop` is `blink(50, 950)` followed by the trigger part, each as specified above |
| Servers.Housekeeping | src/servers.cpp:140-146 | cleanup runs exactly when the deadline is strictly past, and the deadline then moves by exactly 1000 ms, otherwise not at all |
| Servers.HousekeepingLagsBehind | src/servers.cpp:142-145 | there is no catch-up: when more than 1000 ms behind, one call cleans up once and leaves the deadline still past |
| Servers.Classify | src/servers.cpp:183-189 | a data frame is fragmented exactly when it is not final, not at index 0, or not of the event's length; otherwise it is binary exactly when its opcode is not TEXT, and text exactly when it is |
| Servers.NextLastClient | src/servers.cpp:162-199 | CONNECT and DATA store the client's id; DISCONNECT resets to -1 exactly when the stored value, converted to unsigned, equals the departing id, and otherwise leaves it; PONG, ERROR and other events leave it |
| Servers.ReplayKeepsRemembered | src/servers.cpp:162-199 | over any event stream in which data comes only from connected clients, `lastClient` is always -1 or the id of a connected client |
| Servers.Servers.constructor | src/servers.cpp:26 | the cleanup deadline starts at 0 and no client is remembered |
| Servers.Servers.ServersLoop | src/servers.cpp:140-146 | the in-place housekeeping step matches `Housekeeping` |
| Servers.Servers.WebsocketEventHandler | src/servers.cpp:157-200 | the in-place handler updates `lastClient` as `NextLastClient` and reports a data frame's kind as `Classify` |
| Files.RootPath | src/servers.cpp:61-63 | the result begins with '/', a path that already does is kept, and otherwise '/' is prepended |
| Files.RootPathIdempotent | src/servers.cpp:106-108 | normalising an already normalised path changes nothing |
| Files.DeleteHandler | src/servers.cpp:57-76 | without `path` the usage text is sent and nothing changes; otherwise the reply is "ok" exactly when the rooted path exists, never the usage text, and exactly that path is removed |
| Files.UploadPath | src/servers.cpp:106-109 | the path opened for an upload is '/' before the rooted file name, so it always begins with "//" |
| Files.DeleteFindsUploadOnlyByUploadPath | src/servers.cpp:61-64 | a `/delete` query reaches an uploaded file exactly when it names the doubled-slash path itself |
| Files.UploadStep | src/servers.cpp:103-133 | a call opens `//<filename>` as its first effect exactly when the chunk index is 0, and opens nothing otherwise; it writes only a non-empty chunk, only to the open handle, with the chunk's length, and writes it whenever a handle is open; it closes only the open handle, only on the final chunk, and always then; it answers 200 exactly on the final chunk; afterwards the handle is closed after the final chunk and otherwise is the newly opened file at index 0 or the previous handle |
| Files.ContinueUploadWritesAll | src/servers.cpp:113-132 | continuing an upload on an open file writes every non-empty chunk in order, then closes the file and answers 200 |
| Files.UploadWritesWholeFile | src/servers.cpp:103-133 | an upload whose first chunk opens its file and whose last chunk alone is final opens "//name", writes every non-empty chunk in order, closes it and answers 200 once, whatever handle the request held before |
| Files.UploadRequest.constructor | src/servers.cpp:104-109 | a request holds no file until its index-0 call opens one |
| Files.UploadRequest.HandleUpload | src/servers.cpp:103-133 | the in-place handler updates the request's file handle and emits effects as `UploadStep` |
| Files.ReadableUnit | src/servers.cpp:268-279 | MiB exactly above 1048576 bytes, kiB exactly above 1024 up to 1048576, bytes at 1024 and below |
| JsonDirectory.ItemsJsonEndsWithComma | src/servers.cpp:244-257 | the text of a non-empty listing ends with a comma, since a comma is added on the pass that finds no further file |
| JsonDirectory.DirJsonShape | src/servers.cpp:238-259 | a directory's text opens with its name and the content bracket and ends with "]}"; an empty directory lists nothing; any other ends its list with ",]}" |
| JsonDirectory.JsonDirectoryText | src/servers.cpp:236-261 | the recursive do-while serialiser returns exactly the recursive text definition of the directory tree |
| Picture.ChunkLength | src/main.cpp:137-141 | as written, the chunk length is the larger of the buffer capacity and the bytes remaining, so it is never below the capacity |
| Picture.AsWrittenOverrunsBuffer | src/main.cpp:137-141 | when more bytes remain than fit, the callback writes more than the buffer holds |
| Picture.AsWrittenOverrunExample | src/main.cpp:137-141 | a 1000-byte frame offered a 100-byte buffer at index 0 gets 1000 bytes |
| Picture.AsWrittenNeverEnds | src/main.cpp:137-141 | for a non-empty buffer the callback never returns 0, and near the end of the frame it copies past the frame |
| Picture.ChunkLengthClamped | src/main.cpp:137-141 | corrected: the chunk is the smaller of the capacity and the bytes remaining, never runs past the frame, and is 0 exactly at its end |
| Picture.StreamIsFrame | src/main.cpp:136-142 | with the corrected callback, the chunks of the response, in order, are exactly the frame's bytes, whatever non-zero buffer capacity the server offers on each call |
| Picture.PictureHandler | src/main.cpp:124-150 | the handler requests 800x600 and only warns if that fails; it captures in either case, then streams the whole frame as `image/jpeg` exactly when the capture succeeded, and otherwise answers 503 "capture failed" |

## Left out

- WiFi configuration and connection, the brownout register, serial logging, `micros()` timings and the log texts: I/O with no effect on the modelled state.
- HTTP route registration and the routes other than `/delete`, `/upload`, `/picture.jpg` and the directory listing (`/heap`, not-found, file serving): framework wiring.
- `jsonVersion` and `jsonFileSystem`: fixed build strings and filesystem totals with no logic.
- `periodicTrigger`: its header is not part of this model, so it is a parameter and no property depends on its body.
- `setup()` and the connect loop's `blink(450, 50)`: only its pin initialisation is in `MainLoop.Firmware.constructor`.
- Camera driver internals, `AsyncWebSocket` message buffers, `cleanupClients` and SPIFFS internals: foreign code. Capture results, free heap, client counts, the outcome of `SPIFFS.open` and `changeResolution` are inputs.
- Each `millis()` read is an input of its own. In a pass, blink, the report trigger, the report's log line and the frame trigger each see their own clock.
- Concurrency: websocket and HTTP callbacks run in another task than `loop()`. Each handler is modelled as one atomic step.
- `serversLoop` is not called from `loop()` in this source. It is modelled on its own, and the model does not claim that cleanup ever runs.
- Picture.PictureHandler: it uses the corrected callback. It does not model that the callback captures `frame` by reference while `frame` is released when the handler returns, before the response is streamed.
- Files.HandleAfterOpen: a chunk with index 0 that arrives while a file is still open replaces the handle without a `Close` effect; the filesystem library's handle destructor is not modelled, so `Files.UploadWritesWholeFile` says nothing about the previous file being closed.
- Picture.ChunkLength: for `index` beyond `size` the unsigned difference wraps; the lemmas state behaviour for `index <= size` only.
- Files.ReadableUnit: the `%.1f` text of the size is floating point and is not modelled; only the unit choice is. `JsonDirectory` takes the size text as opaque.
- Files.DeleteHandler: the filesystem is a set of full path names; how SPIFFS maps a doubled-slash path onto a name is not modelled. It also assumes that `SPIFFS.remove` succeeds; the source answers "ok" without looking at its result.
- Blink.CatchUp: it requires `high_ms + low_ms > 0` and both below 2^31, which every caller meets; the code does not check this, and with other arguments the catch-up loop need not terminate.

## Findings

| source | as written | input that shows it | evidently intended | confidence | as-written member | corrected member |
|---|---|---|---|---|---|---|
| src/main.cpp:137-141 | the chunk callback raises `maxLen` to the bytes remaining when more remain, returning the larger of the two, and copies that many bytes | frame of 1000 bytes, index 0, maxLen 100: 1000 bytes are copied into a 100-byte buffer; at index == size it returns maxLen > 0, so the response never ends | clamp to the smaller of `maxLen` and the bytes remaining, returning 0 at the end of the frame | high; not executed | Picture.AsWrittenOverrunExample | Picture.StreamIsFrame |
