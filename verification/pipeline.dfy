/** The stages run one after another over the shared queues: what each stage's
    loop does to a whole run of queued items, and what reaches a listener for one
    spoken chunk. */
module Pipeline {
  import opened Wrappers
  import opened Schemas
  import opened Queues
  import opened ConnectionManager
  import Stt
  import Translate
  import Tts
  import Broadcaster
  import StsRouter
  import Base64

  /** What the recognition stage forwards for one request: nothing or one tuple. */
  /** The value held by an option, as a sequence of zero or one items. */
  function Listed<T>(x: Option<T>): seq<T> {
    match x case None => [] case Some(v) => [v]
  }

  function SttForwarded(req: STTRequest, recognize: seq<byte> -> Stt.Recognition): seq<Transcript> {
    Listed(Stt.Process(req, recognize))
  }

  /** What the recognition stage forwards for a run of requests. */
  function SttOutputs(reqs: seq<STTRequest>, recognize: seq<byte> -> Stt.Recognition): (r: seq<Transcript>)
    decreases |reqs|
  {
    if reqs == [] then [] else SttForwarded(reqs[0], recognize) + SttOutputs(reqs[1..], recognize)
  }

  /** Every forwarded transcript belongs to some request of the run, with its
      client and channel unchanged; there are never more outputs than inputs. */
  lemma {:induction false} SttOutputsCorrelate(reqs: seq<STTRequest>, recognize: seq<byte> -> Stt.Recognition)
    ensures |SttOutputs(reqs, recognize)| <= |reqs|
    ensures forall t :: t in SttOutputs(reqs, recognize) ==>
      exists i :: 0 <= i < |reqs| && t.clientId == reqs[i].clientId && t.targetLang == reqs[i].targetLang
    decreases |reqs|
  {
    if reqs != [] {
      SttOutputsCorrelate(reqs[1..], recognize);
      var head := SttForwarded(reqs[0], recognize);
      forall t | t in SttOutputs(reqs, recognize)
        ensures exists i :: 0 <= i < |reqs| && t.clientId == reqs[i].clientId && t.targetLang == reqs[i].targetLang
      {
        if t in head {
          assert t.clientId == reqs[0].clientId && t.targetLang == reqs[0].targetLang;
        } else {
          assert t in SttOutputs(reqs[1..], recognize);
          var j :| 0 <= j < |reqs[1..]| && t.clientId == reqs[1..][j].clientId && t.targetLang == reqs[1..][j].targetLang;
          assert reqs[1..][j] == reqs[j + 1];
        }
      }
    }
  }

  /** Forwarding is per request: a longer run forwards what the shorter one did,
      then what the new request yields. */
  lemma {:induction false} SttOutputsAppend(reqs: seq<STTRequest>, req: STTRequest,
                                            recognize: seq<byte> -> Stt.Recognition)
    ensures SttOutputs(reqs + [req], recognize) == SttOutputs(reqs, recognize) + SttForwarded(req, recognize)
    decreases |reqs|
  {
    if reqs == [] {
      assert [] + [req] == [req];
    } else {
      assert (reqs + [req])[1..] == reqs[1..] + [req];
      SttOutputsAppend(reqs[1..], req, recognize);
      var head := SttForwarded(reqs[0], recognize);
      assert (head + SttOutputs(reqs[1..], recognize)) + SttForwarded(req, recognize)
          == head + (SttOutputs(reqs[1..], recognize) + SttForwarded(req, recognize));
    }
  }

  /** The requests queued ahead of the first stop signal, oldest first. */
  function Leading(items: seq<Option<STTRequest>>): (r: seq<STTRequest>)
    ensures |r| <= |items|
    ensures forall i :: 0 <= i < |r| ==> items[i] == Some(r[i])
    ensures |r| < |items| ==> items[|r|].None?
    decreases |items|
  {
    if items == [] || items[0].None? then [] else [items[0].value] + Leading(items[1..])
  }

  /** After the recognition loop has handled the requests `done` from the head of
      `c0`'s input queue, the queues stand as in `c`: those requests consumed in
      order, `task_done` called once each, their transcripts appended in the same
      order, and no other queue touched. */
  ghost predicate Progress(c0: Conduits, c: Conduits, done: seq<STTRequest>, recognize: seq<byte> -> Stt.Recognition) {
    && Accounted(c.sttInput)
    && |done| <= |c0.sttInput.items|
    && c.sttInput.items == c0.sttInput.items[|done|..]
    && done + Leading(c.sttInput.items) == Leading(c0.sttInput.items)
    && c.sttOutput.items == c0.sttOutput.items + SttOutputs(done, recognize)
    && c.sttInput.unfinished == c0.sttInput.unfinished - |done|
    && c.ttsInput == c0.ttsInput && c.ttsOutput == c0.ttsOutput
  }

  /** What one turn on a queued request does, in the terms `Progress` uses. */
  lemma SttTurn(c: Conduits, recognize: seq<byte> -> Stt.Recognition)
    requires Stt.Step(c, recognize).Continued?
    ensures var a := Stt.Step(c, recognize).after; var req := c.sttInput.items[0].value;
      && c.sttInput.items[0].Some?
      && a.sttInput == Queue(c.sttInput.items[1..], c.sttInput.unfinished - 1)
      && a.sttOutput.items == c.sttOutput.items + SttForwarded(req, recognize)
      && a.ttsInput == c.ttsInput && a.ttsOutput == c.ttsOutput
  {
    match Stt.Process(c.sttInput.items[0].value, recognize)
    case None =>
    case Some(t) =>
  }

  /** One more turn on a queued request keeps `Progress`, with that request done. */
  lemma ProgressStep(c0: Conduits, c: Conduits, a: Conduits, done: seq<STTRequest>, req: STTRequest,
                     recognize: seq<byte> -> Stt.Recognition)
    requires Progress(c0, c, done, recognize)
    requires c.sttInput.items != [] && c.sttInput.items[0] == Some(req)
    requires a.sttInput == Queue(c.sttInput.items[1..], c.sttInput.unfinished - 1)
    requires a.sttOutput.items == c.sttOutput.items + SttForwarded(req, recognize)
    requires a.ttsInput == c.ttsInput && a.ttsOutput == c.ttsOutput
    ensures Progress(c0, a, done + [req], recognize)
  {
    assert Leading(c.sttInput.items) == [req] + Leading(c.sttInput.items[1..]);
    assert c0.sttInput.items[|done|..][1..] == c0.sttInput.items[|done| + 1..];
    SttOutputsAppend(done, req, recognize);
    AppendAssoc(c0.sttOutput.items, SttOutputs(done, recognize), SttForwarded(req, recognize));
    AppendAssoc(done, [req], Leading(c.sttInput.items[1..]));
  }

  /** `stt_worker`'s `while True` loop, run until it blocks on an empty queue or
      leaves on the stop signal: it consumes the requests queued ahead of the first
      stop signal, oldest first, calls `task_done` once for each, and appends their
      transcripts to the next queue in the same order, touching no other queue.
      `last` is the turn that ended the run. */
  method SttWorker(c0: Conduits, recognize: seq<byte> -> Stt.Recognition) returns (c: Conduits, last: WorkerStep)
    requires Accounted(c0.sttInput)
    ensures var reqs := Leading(c0.sttInput.items);
      && c.sttOutput.items == c0.sttOutput.items + SttOutputs(reqs, recognize)
      && c.sttInput.items == c0.sttInput.items[|reqs|..]
      && c.sttInput.unfinished == c0.sttInput.unfinished - |reqs|
      && c.ttsInput == c0.ttsInput && c.ttsOutput == c0.ttsOutput
    ensures last == Stt.Step(c, recognize)
    ensures last.Idle? <==> c.sttInput.items == []
    ensures last.Stopped? <==> c.sttInput.items != []
  {
    c := c0;
    ghost var done: seq<STTRequest> := [];
    assert c0.sttInput.items[0..] == c0.sttInput.items;
    last := Stt.Step(c, recognize);
    while last.Continued?
      invariant Progress(c0, c, done, recognize)
      invariant last == Stt.Step(c, recognize)
      decreases |c.sttInput.items|
    {
      var req := c.sttInput.items[0].value;
      SttTurn(c, recognize);
      ProgressStep(c0, c, last.after, done, req, recognize);
      done := done + [req];
      c := last.after;
      last := Stt.Step(c, recognize);
    }
    assert Leading(c.sttInput.items) == [];
    assert done + [] == done;
  }

  /** The requests `start_stream` queues for a stream are all ahead of any stop
      signal: each frame, in order, with the path's client and channel. */
  lemma {:induction false} LeadingRequests(clientId: string, targetLang: string, frames: seq<seq<byte>>)
    ensures Leading(StsRouter.Requests(clientId, targetLang, frames)) ==
      seq(|frames|, i requires 0 <= i < |frames| => STTRequest(clientId, targetLang, frames[i]))
    decreases |frames|
  {
    var qs := StsRouter.Requests(clientId, targetLang, frames);
    if frames != [] {
      LeadingRequests(clientId, targetLang, frames[1..]);
      assert qs[1..] == StsRouter.Requests(clientId, targetLang, frames[1..]);
    }
  }

  /** One client streams `frames` into an idle pipeline, then the recognition loop
      runs: every transcript it forwards belongs to that client's channel, there
      are at most as many as frames, and they are exactly the per-frame results
      in the order the frames arrived. */
  method StreamThenRecognize(reg: Registry, clientId: string, targetLang: string, ws: Handle,
                             frames: seq<seq<byte>>, end: StsRouter.StreamEnd,
                             recognize: seq<byte> -> Stt.Recognition)
    returns (transcripts: seq<Transcript>)
    ensures transcripts == SttOutputs(seq(|frames|, i requires 0 <= i < |frames| => STTRequest(clientId, targetLang, frames[i])), recognize)
    ensures |transcripts| <= |frames|
    ensures forall t :: t in transcripts ==> t.clientId == clientId && t.targetLang == targetLang
  {
    var during, after, queued, raised := StsRouter.StartStream(reg, NewQueue(), targetLang, clientId, ws, frames, end);
    assert queued.items == StsRouter.Requests(clientId, targetLang, frames);
    var c, last := SttWorker(NewConduits().(sttInput := queued), recognize);
    var reqs := seq(|frames|, i requires 0 <= i < |frames| => STTRequest(clientId, targetLang, frames[i]));
    LeadingRequests(clientId, targetLang, frames);
    assert c.sttOutput.items == SttOutputs(reqs, recognize);
    SttOutputsCorrelate(reqs, recognize);
    transcripts := c.sttOutput.items;
  }

  lemma AppendAssoc<T>(a: seq<T>, b: seq<T>, c: seq<T>)
    ensures (a + b) + c == a + (b + c)
  {
  }

  /** The response the first three stages produce for one chunk, composed from
      their per-item functions: the reference for `SingleChunk`. */
  function Chain(req: STTRequest, recognize: seq<byte> -> Stt.Recognition, apiKey: string,
                 server: nat -> Translate.Attempt, synthesize: (string, string) -> Tts.Synthesis): Option<StsResponse>
  {
    match Stt.Process(req, recognize)
    case None => None
    case Some(t) =>
      var run := Translate.TranslateText(t.text.value, t.targetLang, apiKey, Translate.DefaultRetries, server);
      if run.result.Failure? then None
      else Tts.Process(TTSRequest(t.clientId, t.targetLang, run.result.value), synthesize)
  }

  /** The end-to-end correlation: whatever reaches the broadcaster for a chunk
      carries that chunk's client id and channel, whatever the oracles did. */
  lemma Correlation(req: STTRequest, recognize: seq<byte> -> Stt.Recognition, apiKey: string,
                    server: nat -> Translate.Attempt, synthesize: (string, string) -> Tts.Synthesis)
    ensures var resp := Chain(req, recognize, apiKey, server, synthesize);
      resp.Some? ==>
        && resp.value.clientId == req.clientId && resp.value.targetLang == req.targetLang
        && Broadcaster.MakePayload(resp.value).clientId == req.clientId
  {
  }

  /** The queues holding just the one chunk, as `start_stream` leaves them. */
  function Start(req: STTRequest): Conduits {
    NewConduits().(sttInput := Put(NewQueue(), Some(req)))
  }

  /** A queue holding exactly the items of `xs`, none of them finished. */
  function Holding<T>(xs: seq<T>): Queue<T> {
    Queue(xs, |xs|)
  }

  /** The recognition turn on the chunk forwards its transcript, if any. */
  lemma SttStage(req: STTRequest, recognize: seq<byte> -> Stt.Recognition)
    ensures var s := Stt.Step(Start(req), recognize);
      && s.Continued?
      && s.after.sttOutput == Holding(Listed(Stt.Process(req, recognize)))
      && s.after.ttsInput == NewQueue() && s.after.ttsOutput == NewQueue()
  {
  }

  /** The translation turn on a lone transcript forwards one synthesis request
      exactly when the translation does not raise. */
  lemma TranslateStage(c: Conduits, t: Transcript, apiKey: string, server: nat -> Translate.Attempt)
    requires c.sttOutput == Holding([t]) && t.text.Some?
    requires c.ttsInput == NewQueue() && c.ttsOutput == NewQueue()
    ensures var s := Translate.Step(c, apiKey, server);
      var run := Translate.TranslateText(t.text.value, t.targetLang, apiKey, Translate.DefaultRetries, server);
      && (s.Continued? <==> run.result.Success?)
      && (s.Continued? ==>
           && s.after.ttsInput == Holding([Some(TTSRequest(t.clientId, t.targetLang, run.result.value))])
           && s.after.ttsOutput == NewQueue())
  {
  }

  /** The synthesis turn on a lone request forwards its response, if any. */
  lemma TtsStage(c: Conduits, tr: TTSRequest, synthesize: (string, string) -> Tts.Synthesis)
    requires c.ttsInput == Holding([Some(tr)]) && c.ttsOutput == NewQueue()
    ensures var s := Tts.Step(c, synthesize);
      && s.Continued?
      && s.after.ttsOutput == Holding(Listed(Tts.Process(tr, synthesize)))
  {
  }

  /** The first three worker loops, one turn each, on the chunk: the response
      queue then holds exactly what `Chain` computes. */
  method RunStages(req: STTRequest, recognize: seq<byte> -> Stt.Recognition, apiKey: string,
                   server: nat -> Translate.Attempt, synthesize: (string, string) -> Tts.Synthesis)
    returns (c: Conduits)
    ensures c.ttsOutput == Holding(Listed(Chain(req, recognize, apiKey, server, synthesize)))
  {
    var s1 := Stt.Step(Start(req), recognize);
    SttStage(req, recognize);
    c := s1.after;
    match Stt.Process(req, recognize)
    case None =>
    case Some(t) =>
      var s2 := Translate.Step(c, apiKey, server);
      TranslateStage(c, t, apiKey, server);
      if s2.Continued? {
        var run := Translate.TranslateText(t.text.value, t.targetLang, apiKey, Translate.DefaultRetries, server);
        var s3 := Tts.Step(s2.after, synthesize);
        TtsStage(s2.after, TTSRequest(t.clientId, t.targetLang, run.result.value), synthesize);
        c := s3.after;
      } else {
        c := s2.after;
      }
  }

  /** One spoken chunk through all four worker loops over the shared queues, from
      an empty pipeline: what reaches the broadcaster is exactly what `Chain`
      computes, and the (corrected) broadcast reaches the chunk's channel. */
  method SingleChunk(req: STTRequest, recognize: seq<byte> -> Stt.Recognition, apiKey: string,
                     server: nat -> Translate.Attempt, synthesize: (string, string) -> Tts.Synthesis,
                     reg: Registry, dumps: Broadcaster.Payload -> string,
                     transport: (Handle, Frame) -> SendOutcome)
    returns (payload: Option<Broadcaster.Payload>, delivered: set<Handle>)
    ensures var resp := Chain(req, recognize, apiKey, server, synthesize);
      payload == (if resp.Some? then Some(Broadcaster.MakePayload(resp.value)) else None)
    ensures payload.None? ==> delivered == {}
    ensures delivered <= Members(reg, req.targetLang)
    ensures payload.Some? && (forall h :: h in Members(reg, req.targetLang) ==> transport(h, Text(dumps(payload.value))) == Sent)
            ==> delivered == Members(reg, req.targetLang)
  {
    payload, delivered := None, {};
    var c := RunStages(req, recognize, apiKey, server, synthesize);
    Correlation(req, recognize, apiKey, server, synthesize);
    if c.ttsOutput.items == [] {
      return;
    }
    var resp := Chain(req, recognize, apiKey, server, synthesize).value;
    assert c.ttsOutput.items[0] == resp && resp.targetLang == req.targetLang;
    var s4 := Broadcaster.Step(c, false, reg, dumps, transport);
    assert s4.Handled?;
    payload := Some(s4.payload);
    delivered := s4.delivered;
  }

  /** The oracles of the scenario below: the chunk is recognized as one Korean
      segment, every translation attempt answers "Hello", and synthesis yields the
      two bytes 00 01. */
  const Korean: string := "\U{C548}\U{B155}\U{D558}\U{C138}\U{C694}"

  function HelloRecognize(chunk: seq<byte>): Stt.Recognition {
    Stt.Segments([Korean])
  }

  function HelloServer(attempt: nat): Translate.Attempt {
    Translate.Answered("Hello")
  }

  function HelloSynthesize(model: string, text: string): Tts.Synthesis {
    Tts.Audio([0, 1])
  }

  function AllSent(h: Handle, f: Frame): SendOutcome {
    Sent
  }

  lemma HelloRecognized(chunk: seq<byte>)
    ensures Stt.Process(STTRequest("c1", "en", chunk), HelloRecognize) == Some(Transcript("c1", "en", Some(Korean)))
  {
    assert Stt.Join([Korean]) == Korean;
    assert !Stt.IsSpace(Korean[0]);
  }

  lemma HelloTranslated()
    ensures Translate.TranslateText(Korean, "en", "key", Translate.DefaultRetries, HelloServer).result == Success("Hello")
  {
  }

  lemma HelloSynthesized()
    ensures Tts.Process(TTSRequest("c1", "en", "Hello"), HelloSynthesize) == Some(StsResponse("c1", "en", "Hello", [0, 1]))
  {
  }

  lemma HelloChain(chunk: seq<byte>)
    ensures Chain(STTRequest("c1", "en", chunk), HelloRecognize, "key", HelloServer, HelloSynthesize)
         == Some(StsResponse("c1", "en", "Hello", [0, 1]))
  {
    HelloRecognized(chunk);
    HelloTranslated();
    HelloSynthesized();
  }

  /** A listener `c1` on channel "en" speaks one chunk: every socket on "en"
      (c1's own included) is sent client "c1", text "Hello", audio "AAE=". */
  method HelloScenario(reg: Registry, dumps: Broadcaster.Payload -> string, chunk: seq<byte>)
    returns (payload: Option<Broadcaster.Payload>, delivered: set<Handle>)
    ensures payload == Some(Broadcaster.Payload("c1", "Hello", "AAE="))
    ensures delivered == Members(reg, "en")
  {
    HelloChain(chunk);
    Base64.ExampleTwoBytes();
    payload, delivered := SingleChunk(STTRequest("c1", "en", chunk), HelloRecognize, "key",
                                      HelloServer, HelloSynthesize, reg, dumps, AllSent);
  }
}
