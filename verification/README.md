# sts-systran pipeline, modelled in Dafny

sts-systran is a speech-to-speech translation server. A speaker opens a
WebSocket at `/ws/{target_lang}/{client_id}` and streams audio chunks. Each
chunk passes through four stages, linked by four unbounded FIFO queues:

1. recognition: ffmpeg decodes the chunk and Whisper transcribes it as Korean;
2. translation: a Google Translate POST with linear back-off;
3. synthesis: Coqui TTS, with one voice model per target language;
4. the broadcaster.

The broadcaster base64-encodes the synthesized audio into a JSON payload and
hands it to the connection registry. As written, that call names a method the
registry lacks, so nothing is delivered (see Findings). With the corrected
broadcaster, the registry sends the payload to every socket subscribed to the
response's language channel.

This project models the following sequentially, as pure functions and short
methods over immutable data:

- the registry: `connect`, `disconnect`, `broadcast_json` and `broadcast_bytes`;
- the four queues, with `put`, `get` and `task_done`;
- one turn of each worker loop, and the recognition loop run to completion;
- the payload encoding, following section 4 of RFC 4648;
- the ingest handler.

Speech recognition, translation, synthesis, serialisation and the socket
transport are oracles passed in as function parameters. The proofs cover
several properties:

- the registry invariant and that `disconnect` undoes `connect`;
- per-recipient failure isolation in the broadcast sweep;
- FIFO order, and `task_done` called once per item;
- that the transcript is forwarded exactly when it is non-blank after stripping;
- the retry and back-off schedule of the translation call, and its three outcomes;
- the base64 round trip in both directions;
- end-to-end correlation: with the corrected broadcaster, the payload carries the chunk's client id and goes only to sockets on the chunk's channel.

Files, one module each:

- `wrappers.dfy`: `Option`, `Result`
- `schemas.dfy`: the request and response records
- `queues.dfy`: the queues
- `connection_manager.dfy`: the registry
- `stt.dfy`: recognition
- `translate.dfy`: translation
- `tts.dfy`: synthesis
- `base64.dfy`: the payload encoding
- `broadcaster.dfy`: the broadcaster
- `sts_router.dfy`: ingest
- `pipeline.dfy`: the stages composed

Behaviour of the code that a reader may not expect, all of it modelled as written:

- The registry is keyed by channel alone. There is no client-id key, and a
  socket is known only by the channel it joined.
- `disconnect` of a socket missing from a channel that is present raises
  `KeyError` from `set.remove`. For an absent channel it does nothing.
- A recipient whose send failed stays subscribed.
- An exception other than `WebSocketDisconnect` and `ConnectionResetError`
  escapes the sweep, so later members are not tried.
- A translation whose attempts are all retried forwards `""` to synthesis.
- A back-off sleep also follows the last failed attempt.
- A missing API key is checked per item, and the `ValueError` ends the
  translation loop, which has no `try`.
- Every received frame is queued, an empty one included.
- The broadcaster calls `send_personal_json`, which the registry does not
  define (see Findings). The corrected broadcaster sends on the response's
  channel through `broadcast_json`.

## Model

| member | source | states |
|---|---|---|
| ConnectionManager.Connect | backend/services/ConnectionManager.py:13-17 | the channel becomes a key; the handle joins that channel's members and no other channel changes; no channel is left with an empty set |
| ConnectionManager.Disconnect | backend/services/ConnectionManager.py:20-25 | an absent channel leaves the registry unchanged; a present channel lacking the handle raises KeyError; otherwise the handle leaves only its own channel, the channel is deleted exactly when it becomes empty, and no channel is left with an empty set |
| ConnectionManager.ConnectIdempotent | backend/services/ConnectionManager.py:15-17 | connecting the same handle twice is the same as connecting it once |
| ConnectionManager.ConnectThenDisconnect | backend/services/ConnectionManager.py:13-25 | on a registry with no empty channel, disconnecting a freshly connected handle restores the original registry exactly |
| ConnectionManager.Sweep | backend/services/ConnectionManager.py:36-41 | each member is tried at most once, and only members are tried; delivered is exactly the tried handles whose send succeeded; a disconnect or reset is skipped; any other exception ends the sweep at that handle; without one, every member is tried |
| ConnectionManager.BroadcastJson | backend/services/ConnectionManager.py:28-41 | an absent channel sends nothing; otherwise one text frame of the serialised data goes to the channel's members, each tried at most once; no handle before the last tried raised an uncaught failure; without an abort every member is tried, and every member whose send succeeds receives it; if every send succeeds, every member receives it |
| ConnectionManager.BroadcastBytes | backend/services/ConnectionManager.py:43-52 | as BroadcastJson, with the bytes unchanged in one binary frame |
| Queues.Put | backend/services/queues.py:3-15 | the item goes behind all pending items, which keep their order; the unfinished count rises by one |
| Queues.Get | backend/services/queues.py:3-15 | it waits exactly when the queue is empty; otherwise it removes exactly the oldest item and leaves the rest in order and the unfinished count unchanged |
| Queues.TaskDone | backend/services/queues.py:3-15 | raises ValueError exactly when no put is unfinished; otherwise the count drops by one and the items are untouched |
| Queues.PutAll | backend/services/queues.py:3-15 | putting a run of items appends them in order and raises the count by their number |
| Queues.GetN | backend/services/queues.py:3-15 | n gets return the n oldest items in order and leave the rest |
| Queues.FifoOrder | backend/services/queues.py:3-15 | strict FIFO: draining returns the pending items, then the newly put ones, in put order |
| Queues.FifoTwo | backend/services/queues.py:3-15 | put A, put B, get, get yields A then B |
| Stt.TrimStartSpec | backend/workers/stt.py:45 | the leading-strip keeps a suffix, removes only whitespace, and leaves no leading whitespace |
| Stt.TrimEndSpec | backend/workers/stt.py:45 | the trailing-strip keeps a prefix, removes only whitespace, and leaves no trailing whitespace |
| Stt.StripNonEmptyIff | backend/workers/stt.py:45 | `strip()` leaves a non-empty string exactly when the text has a non-whitespace character |
| Stt.JoinAppend | backend/workers/stt.py:25 | the joined transcript is the segments' texts concatenated in segment order |
| Stt.TranscribeAudio | backend/workers/stt.py:14-28 | segments give their join; an ffmpeg error gives None; any other exception propagates |
| Stt.Process | backend/workers/stt.py:37-47 | a forwarded tuple carries the request's client id and channel and the unstripped joined text, and only a successful recognition is forwarded |
| Stt.ForwardsIff | backend/workers/stt.py:41-47 | a request is forwarded exactly when recognition succeeds and the stripped join is non-empty |
| Stt.Step | backend/workers/stt.py:35-52 | one turn waits on an empty queue, stops on None, and otherwise forwards at most one tuple; it consumes exactly the head item and calls task_done once for it, stop signal included; too many task_done calls are an error; no other queue changes |
| Translate.Attempts | backend/workers/translate.py:37-49 | at most `retries` identical requests are sent; each back-off follows a retried attempt and lasts its attempt number in half-seconds; failure is only the propagated non-retryable exception |
| Translate.TranslateText | backend/workers/translate.py:13-49 | an empty key raises before any request; every request carries the text, the target, source "ko", format "text" and the key; the back-offs are 1, 2, ... half-seconds after retried attempts |
| Translate.FirstAnswerWins | backend/workers/translate.py:37-46 | if attempt k is the first to answer, its text is returned after exactly k requests and k-1 back-offs |
| Translate.OtherErrorPropagates | backend/workers/translate.py:37-46 | a non-retryable exception at attempt k propagates after exactly k requests and k-1 back-offs |
| Translate.ExhaustedGivesEmpty | backend/workers/translate.py:37-49 | when every attempt is retried, all attempts are made, each followed by its back-off, and "" is returned |
| Translate.BackoffTotal | backend/workers/translate.py:46 | the back-offs after n failed attempts add up to n(n+1)/2 half-seconds |
| Translate.DefaultExhaustion | backend/workers/translate.py:13-49 | with the default three retries all failing, three requests are sent, the waits are 0.5, 1.0 and 1.5 s (3 s in total), and "" is returned |
| Translate.TranslateLoop | backend/workers/translate.py:23-49 | the early-return for loop computes exactly the recursive definition |
| Translate.Step | backend/workers/translate.py:58-78 | one turn consumes the head transcript; a None text stops the loop; otherwise the turn continues exactly when `_translate` returns, and then puts exactly one synthesis request with the same client and channel, even for ""; it ends the loop exactly when `_translate` raises, with that fault; task_done is never called; no other queue changes |
| Tts.Process | backend/workers/tts.py:35-57 | a response is forwarded exactly when the channel has a model and synthesis yields non-empty audio; it carries the request's ids and text and exactly those bytes; channels other than "en" and "es" are skipped |
| Tts.Step | backend/workers/tts.py:33-63 | one turn consumes the head item and calls task_done once, including on the stop signal and on the unsupported-channel `continue`; it forwards at most one response; no other queue changes |
| Base64.Encode | backend/core/broadcaster.py:22 | the encoding is 4 characters for every started group of 3 bytes |
| Base64.DecodeEncode | backend/core/broadcaster.py:22 | decoding the encoding gives back exactly the original bytes |
| Base64.EncodeDecode | backend/core/broadcaster.py:22 | every string the strict decoder accepts is the encoding of what it decodes to |
| Base64.EncodeAlphabet | backend/core/broadcaster.py:22 | the encoding is ASCII, from the standard alphabet, with '=' only in the last two positions |
| Base64.ExampleTwoBytes | backend/core/broadcaster.py:22 | the bytes 00 01 encode as "AAE=" |
| Broadcaster.MakePayload | backend/core/broadcaster.py:22-29 | the payload keeps the speaker's id and the text and holds base64 of the audio that decodes back to exactly those bytes |
| Broadcaster.PersonalSendUndefined | backend/core/broadcaster.py:32-36 | the delivery method called is not one the registry defines; `StepAsWritten` states this of every handled turn |
| Broadcaster.StepAsWritten | backend/core/broadcaster.py:15-47 | as written, a handled response is addressed to (channel, client); the method called is not among the registry's, and its lookup raises AttributeError, which is logged; nothing is delivered and task_done is skipped; cancellation ends the loop |
| Broadcaster.AsWrittenDeliversNothing | backend/core/broadcaster.py:32-39 | after one response nobody has received anything and the queue still counts it unfinished |
| Broadcaster.Step | backend/core/broadcaster.py:15-47 | corrected: the response's payload goes to its channel; only members whose send succeeded receive it; nothing is logged exactly when no member's send raised an uncaught failure and task_done succeeds, and then task_done is called once; a logged send failure names a member whose send raised; whenever something is logged, task_done is skipped; if every send succeeds, every member receives it |
| StsRouter.Requests | backend/router/sts.py:24-33 | one recognition request per frame, in frame order, each with the path's client id and channel |
| StsRouter.StartStream | backend/router/sts.py:15-38 | while frames arrive the registry is the `connect` of the socket, so every other listener stays subscribed; every frame is queued in order behind what was pending; on exit the socket is unsubscribed and other channels are unchanged; with the registry invariant, the registry is restored exactly; an exception escapes exactly when the stream ended other than by WebSocketDisconnect |
| Pipeline.SttOutputsCorrelate | backend/workers/stt.py:35-52 | over a run of requests, recognition forwards no more transcripts than requests, each with some request's client and channel |
| Pipeline.SttOutputsAppend | backend/workers/stt.py:35-52 | forwarding is per request and in order: one more request appends just its own output |
| Pipeline.Leading | backend/workers/stt.py:37-38 | the requests ahead of the first stop signal, in queue order |
| Pipeline.SttWorker | backend/workers/stt.py:35-52 | run until it blocks or stops, the loop consumes exactly the requests ahead of the first stop signal, oldest first, with one task_done each; it appends their transcripts in the same order and touches no other queue; it ends idle exactly when the queue is empty, otherwise on the stop signal |
| Pipeline.LeadingRequests | backend/router/sts.py:24-33 | a stream's queued requests contain no stop signal, so the recognition loop consumes all of them |
| Pipeline.StreamThenRecognize | backend/router/sts.py:24-33 | a streamed run of frames yields at most one transcript per frame, in frame order, each with the speaker's client id and channel |
| Pipeline.Correlation | backend/workers/tts.py:51-57 | whatever the oracles do, a response for a chunk carries that chunk's client id and channel, and its payload carries the client id |
| Pipeline.SttStage | backend/workers/stt.py:35-52 | a lone chunk's recognition turn forwards exactly its transcript, if any |
| Pipeline.TranslateStage | backend/workers/translate.py:58-78 | a lone transcript's translation turn forwards exactly one request, exactly when the translation does not raise |
| Pipeline.TtsStage | backend/workers/tts.py:33-63 | a lone request's synthesis turn forwards exactly its response, if any |
| Pipeline.RunStages | backend/workers/tts.py:33-63 | after one turn of the first three loops on a chunk, the response queue holds exactly the composed per-stage result |
| Pipeline.SingleChunk | backend/core/broadcaster.py:15-47 | with the corrected broadcaster, one chunk through all four loops gives the composed payload, delivered only to the chunk's channel, and to every member of it when all sends succeed |
| Pipeline.HelloChain | backend/workers/tts.py:50-57 | one Korean segment translated as "Hello" and synthesized as 00 01 gives the response ("c1", "en", "Hello", 00 01) |
| Pipeline.HelloScenario | backend/core/broadcaster.py:22-36 | with the corrected broadcaster, every listener on "en" receives client "c1", text "Hello", audio "AAE=" |

## Left out

- WebSocket `accept`, `receive_bytes` and `send_*` are I/O. A handle is an opaque id. Each send's outcome is an oracle. A stream is a finite list of frames plus how it ended.
- ffmpeg decoding, Whisper transcription, Coqui TTS and soundfile are oracles: `Recognition`, `Synthesis`.
- The Google Translate HTTP call is an oracle per attempt: `Attempt`. The 5.0 s per-request timeout is folded into the retryable outcome.
- `json.dumps` is an opaque function parameter.
- The asyncio scheduling is concurrency and is not modelled: `run_in_executor`, event-loop interleaving, and the worker startup in `backend/core/lifespan.py`. The stages are modelled as their evident sequential get/put, one turn at a time. That is the intent, not what the plumbing does. It has two defects:
  - `backend/core/lifespan.py:19,22` pass the coroutine functions `stt_worker` and `tts_worker` to `run_in_executor`. The thread only creates a coroutine object that nobody awaits, so those two workers never run.
  - `await` on the result of the blocking `queue.Queue.get()` (backend/workers/stt.py:37, backend/workers/tts.py:35, backend/core/broadcaster.py:18) raises `TypeError` on every item. So does `await` on `put` (backend/workers/stt.py:47, backend/workers/tts.py:57), after the item is queued. The item is taken off the queue, and the `except Exception` logs the error.
- A set mutated while a broadcast iterates over it is concurrency. A broadcast sweeps a fixed membership.
- `CancelledError` is modelled only between items, as a flag on a broadcaster turn. Cancellation in the middle of an item is not modelled.
- The broadcaster's `asyncio.sleep(0.1)` after a logged error has no effect on the queues and is left out. The translation back-offs are integer half-second units, not floats.
- Logging is left out, as are `backend/main.py`, `backend/config/settings.py` and `backend/services/triton_client.py`. The API key is a plain string parameter.
- Stt.Process: checks `Visible` (some character is not whitespace), not `strip() != ""`. `Stt.ForwardsIff` proves the two tests agree.
- Pipeline.SttWorker: models the recognition loop only until it blocks or stops. The translation, synthesis and broadcaster loops are modelled one turn at a time (`Step`), and composed for a single chunk (`RunStages`, `SingleChunk`).
- Base64.Encode: its ensures states only the length. The round trip (`DecodeEncode`, `EncodeDecode`) and the alphabet (`EncodeAlphabet`) are separate lemmas. `Decode` is a strict decoder written as the partner; the source never decodes.

## Findings

| source | as written | input that shows it | evidently intended | confidence | as-written member | corrected member |
|---|---|---|---|---|---|---|
| backend/core/broadcaster.py:32-36 | delivers through `manager.send_personal_json(target_lang, client_id, payload)`, a method `ConnectionManager` does not define; the `AttributeError` is caught and logged, so nothing is delivered and `task_done` is skipped | any response on the synthesis output queue, e.g. ("c1", "en", "Hello", 00 01) | the comment on line 31 asks for a personal message to that client alone, but the registry has no client-id key and so holds no per-client socket to send to; the smallest fix that uses what the registry offers is `manager.broadcast_json(target_lang, payload)`, so every listener on the channel (the speaker included) receives the payload and the item is marked done | not executed | Broadcaster.AsWrittenDeliversNothing | Broadcaster.Step |
