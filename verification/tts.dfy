/** The synthesis stage of backend/workers/tts.py: look up the voice model for the
    request's channel, synthesize, and forward a response only for non-empty audio. */
module Tts {
  import opened Wrappers
  import opened Schemas
  import opened Queues

  /** `tts_models_map`: the only supported channels and the model each loads. */
  const ModelNames: map<string, string> := map[
    "en" := "tts_models/en/ljspeech/vits",
    "es" := "tts_models/es/css10/vits"]

  /** What `_synthesize_audio` does (an oracle): the WAV bytes it wrote, or an
      exception from the model or from `soundfile`. */
  datatype Synthesis = Audio(bytes: seq<byte>) | SynthesisFailure

  /** The body of the `try` for one request: the response to forward, if any. An
      unsupported channel is skipped with `continue`; an exception and empty
      audio (falsy `bytes`) both forward nothing. */
  function Process(req: TTSRequest, synthesize: (string, string) -> Synthesis): (r: Option<StsResponse>)
    ensures req.targetLang != "en" && req.targetLang != "es" ==> r.None?
    ensures r.Some? <==>
      && req.targetLang in ModelNames
      && synthesize(ModelNames[req.targetLang], req.translated).Audio?
      && |synthesize(ModelNames[req.targetLang], req.translated).bytes| > 0
    ensures r.Some? ==>
      && r.value.clientId == req.clientId && r.value.targetLang == req.targetLang
      && r.value.translatedText == req.translated
      && r.value.audioBytes == synthesize(ModelNames[req.targetLang], req.translated).bytes
  {
    if req.targetLang !in ModelNames then None
    else
      match synthesize(ModelNames[req.targetLang], req.translated)
      case SynthesisFailure => None
      case Audio(bytes) =>
        if |bytes| == 0 then None
        else Some(StsResponse(req.clientId, req.targetLang, req.translated, bytes))
  }

  /** One turn of `tts_worker`: take one item; a `None` leaves the loop, a request
      yields at most one response; `task_done` runs once in the `finally`, on the
      stop signal and the unsupported-channel `continue` as well. */
  function Step(c: Conduits, synthesize: (string, string) -> Synthesis): (r: WorkerStep)
    ensures r.Idle? <==> c.ttsInput.items == []
    ensures r.Crashed? <==> c.ttsInput.items != [] && c.ttsInput.unfinished == 0
    ensures r.Crashed? ==> r.fault == TaskDoneTooOften
    ensures r.Stopped? <==> c.ttsInput.items != [] && c.ttsInput.items[0].None? && c.ttsInput.unfinished > 0
    ensures !r.Idle? ==> r.after.ttsInput.items == c.ttsInput.items[1..]
    ensures r.Stopped? || r.Continued? ==> r.after.ttsInput.unfinished + 1 == c.ttsInput.unfinished
    ensures !r.Idle? ==> r.after.sttInput == c.sttInput && r.after.sttOutput == c.sttOutput
    ensures r.Stopped? ==> r.after.ttsOutput == c.ttsOutput
    ensures r.Continued? ==> var req := c.ttsInput.items[0].value;
      r.after.ttsOutput == (match Process(req, synthesize)
                            case None => c.ttsOutput
                            case Some(resp) => Put(c.ttsOutput, resp))
  {
    match Get(c.ttsInput)
    case Waiting => Idle
    case Taken(item, rest) =>
      var forwarded :=
        if item.None? then c.ttsOutput
        else match Process(item.value, synthesize)
             case None => c.ttsOutput
             case Some(resp) => Put(c.ttsOutput, resp);
      match TaskDone(rest)
      case None => Crashed(c.(ttsInput := rest, ttsOutput := forwarded), TaskDoneTooOften)
      case Some(done) =>
        if item.None? then Stopped(c.(ttsInput := done))
        else Continued(c.(ttsInput := done, ttsOutput := forwarded))
  }
}
