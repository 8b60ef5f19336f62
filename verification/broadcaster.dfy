/** The delivery loop of backend/core/broadcaster.py: each synthesized response
    becomes a JSON payload with the audio in base64, handed to the registry. */
module Broadcaster {
  import opened Wrappers
  import opened Schemas
  import opened Queues
  import opened ConnectionManager
  import Base64

  /** The dictionary sent to listeners (serialised by `json.dumps`). */
  datatype Payload = Payload(clientId: string, translatedText: string, audioBytesB64: string)

  /** The payload of one response: the speaker's id and the text unchanged, and
      the audio as RFC 4648 base64 text that decodes back to exactly those bytes. */
  function MakePayload(resp: StsResponse): (p: Payload)
    ensures p.clientId == resp.clientId && p.translatedText == resp.translatedText
    ensures Base64.Decode(p.audioBytesB64) == Some(resp.audioBytes)
    ensures |p.audioBytesB64| == 4 * ((|resp.audioBytes| + 2) / 3)
    ensures forall i :: 0 <= i < |p.audioBytesB64| ==>
      Base64.IsAlphabetChar(p.audioBytesB64[i]) || p.audioBytesB64[i] == Base64.Pad
  {
    Base64.DecodeEncode(resp.audioBytes);
    Base64.EncodeAlphabet(resp.audioBytes);
    Payload(resp.clientId, resp.translatedText, Base64.Encode(resp.audioBytes))
  }

  /** Whom a delivery is addressed to: one client on a channel, or a whole channel. */
  datatype Addressee = Personal(lang: string, clientId: string) | Channel(lang: string)

  /** An exception caught and logged by the loop's `except Exception`. */
  datatype LoggedError =
    | AttributeError(name: string)   // calling a method the registry lacks
    | SendFailure                    // an exception `broadcast_json` let escape
    | TaskDoneFailure                // `task_done` raising `ValueError`

  /** One turn of the loop: blocked on an empty queue, leaving on `CancelledError`, or
      handling one response (with the error logged, if any). */
  datatype Turn =
    | Pending
    | Cancelled
    | Handled(after: Conduits, payload: Payload, addressee: Addressee,
              delivered: set<Handle>, logged: Option<LoggedError>)

  /** The registry methods `ConnectionManager` defines. */
  const ManagerMethods: set<string> := {"connect", "disconnect", "broadcast_json", "broadcast_bytes"}

  /** The method the source calls to deliver. */
  const PersonalSend: string := "send_personal_json"

  /** Attribute lookup on the registry fails: the method called is not among those defined. */
  lemma PersonalSendUndefined()
    ensures PersonalSend !in ManagerMethods
  {
  }

  /** The loop as written: the delivery call is addressed to the response's
      `(target_lang, client_id)` through `manager.send_personal_json`, which the
      registry does not define. The `AttributeError` is caught and logged, nothing
      is delivered, and `task_done` is skipped. */
  function StepAsWritten(c: Conduits, cancelled: bool): (r: Turn)
    ensures cancelled ==> r == Cancelled
    ensures r.Cancelled? <==> cancelled
    ensures !cancelled ==> (r.Pending? <==> c.ttsOutput.items == [])
    ensures r.Handled? ==> var resp := c.ttsOutput.items[0];
      && r.payload == MakePayload(resp)
      && r.addressee == Personal(resp.targetLang, resp.clientId)
      && r.delivered == {}
      && r.logged == Some(AttributeError(PersonalSend)) && PersonalSend !in ManagerMethods
      && r.after == c.(ttsOutput := Queue(c.ttsOutput.items[1..], c.ttsOutput.unfinished))
  {
    if cancelled then Cancelled
    else
      match Get(c.ttsOutput)
      case Waiting => Pending
      case Taken(resp, rest) =>
        PersonalSendUndefined();
        Handled(c.(ttsOutput := rest), MakePayload(resp), Personal(resp.targetLang, resp.clientId),
                {}, Some(AttributeError(PersonalSend)))
  }

  /** The defect the as-written loop shows on any input: after one response,
      nobody has received anything and the queue counts an unfinished item that is
      no longer pending, so `tts_output_queue.join()` could never return. */
  lemma AsWrittenDeliversNothing(resp: StsResponse)
    ensures var c := NewConduits().(ttsOutput := Put(NewQueue(), resp));
      var r := StepAsWritten(c, false);
      && r.Handled? && r.delivered == {}
      && r.after.ttsOutput.items == [] && r.after.ttsOutput.unfinished == 1
  {
  }

  /** The loop with the delivery call the registry provides: the payload goes to
      every listener on the response's channel through `broadcast_json`. An
      exception escaping the broadcast is caught and logged with `task_done`
      skipped, as for any exception in the source's loop. */
  method Step(c: Conduits, cancelled: bool, reg: Registry, dumps: Payload -> string,
              transport: (Handle, Frame) -> SendOutcome) returns (r: Turn)
    ensures cancelled ==> r == Cancelled
    ensures r.Cancelled? <==> cancelled
    ensures !cancelled ==> (r.Pending? <==> c.ttsOutput.items == [])
    ensures r.Handled? ==> var resp := c.ttsOutput.items[0];
      && r.payload == MakePayload(resp)
      && r.addressee == Channel(resp.targetLang)
      && r.delivered <= Members(reg, resp.targetLang)
      && (forall h :: h in r.delivered ==> transport(h, Text(dumps(r.payload))) == Sent)
      && r.after.sttInput == c.sttInput && r.after.sttOutput == c.sttOutput && r.after.ttsInput == c.ttsInput
      && r.after.ttsOutput.items == c.ttsOutput.items[1..]
    ensures r.Handled? && r.logged.None? ==>
      var resp := c.ttsOutput.items[0];
      && r.delivered == set h | h in Members(reg, resp.targetLang) && transport(h, Text(dumps(r.payload))) == Sent
      && r.after.ttsOutput.unfinished + 1 == c.ttsOutput.unfinished
    ensures r.Handled? && c.ttsOutput.unfinished > 0
            && (forall h :: h in Members(reg, c.ttsOutput.items[0].targetLang) ==>
                 transport(h, Text(dumps(MakePayload(c.ttsOutput.items[0])))) != OtherFailure)
            ==> r.logged.None?
    ensures r.Handled? && c.ttsOutput.unfinished > 0
            && (forall h :: h in Members(reg, c.ttsOutput.items[0].targetLang) ==>
                 transport(h, Text(dumps(MakePayload(c.ttsOutput.items[0])))) == Sent)
            ==> r.logged.None? && r.delivered == Members(reg, c.ttsOutput.items[0].targetLang)
    ensures r.Handled? && r.logged.None? ==>
      forall h :: h in Members(reg, c.ttsOutput.items[0].targetLang) ==> transport(h, Text(dumps(r.payload))) != OtherFailure
    ensures r.Handled? && r.logged == Some(SendFailure) ==>
      exists h :: h in Members(reg, c.ttsOutput.items[0].targetLang) && transport(h, Text(dumps(r.payload))) == OtherFailure
    ensures r.Handled? && r.logged.Some? ==> r.after.ttsOutput.unfinished == c.ttsOutput.unfinished
  {
    if cancelled {
      return Cancelled;
    }
    match Get(c.ttsOutput)
    case Waiting =>
      r := Pending;
    case Taken(resp, rest) =>
      var payload := MakePayload(resp);
      var f := BroadcastJson(reg, resp.targetLang, payload, dumps, transport);
      if f.aborted {
        assert f.attempted[|f.attempted| - 1] in Members(reg, resp.targetLang);
        r := Handled(c.(ttsOutput := rest), payload, Channel(resp.targetLang), f.delivered, Some(SendFailure));
      } else {
        match TaskDone(rest)
        case None =>
          r := Handled(c.(ttsOutput := rest), payload, Channel(resp.targetLang), f.delivered, Some(TaskDoneFailure));
        case Some(done) =>
          r := Handled(c.(ttsOutput := done), payload, Channel(resp.targetLang), f.delivered, None);
      }
  }
}
