/** The ingest endpoint of backend/router/sts.py: `/ws/{target_lang}/{client_id}`
    subscribes the socket to its channel, queues every received frame for
    recognition, and unsubscribes the socket when the handler exits. */
module StsRouter {
  import opened Wrappers
  import opened Schemas
  import opened Queues
  import opened ConnectionManager

  /** How `receive_bytes` stopped producing frames: `WebSocketDisconnect`, which
      the handler catches, or any other exception, which escapes it. */
  datatype StreamEnd = ClientClosed | ReceiveError

  /** The recognition requests for a run of frames, one per frame, in order. */
  function Requests(clientId: string, targetLang: string, frames: seq<seq<byte>>): (r: seq<Option<STTRequest>>)
    ensures |r| == |frames|
    ensures forall i :: 0 <= i < |frames| ==> r[i] == Some(STTRequest(clientId, targetLang, frames[i]))
  {
    seq(|frames|, i requires 0 <= i < |frames| => Some(STTRequest(clientId, targetLang, frames[i])))
  }

  /** `start_stream` for a client that sends `frames` and then ends the stream.
      `during` is the registry while frames are read, `after` the result of the
      `disconnect` in the `finally`, `raised` whether an exception escapes. */
  method StartStream(reg: Registry, input: Queue<Option<STTRequest>>, targetLang: string,
                     clientId: string, ws: Handle, frames: seq<seq<byte>>, end: StreamEnd)
    returns (during: Registry, after: Result<Registry, RegistryError>,
             queued: Queue<Option<STTRequest>>, raised: bool)
    ensures during == Connect(reg, targetLang, ws)
    ensures ws in Members(during, targetLang)
    ensures forall l :: l != targetLang ==> Members(during, l) == Members(reg, l)
    ensures |queued.items| == |input.items| + |frames|
    ensures queued.items[..|input.items|] == input.items
    ensures forall i :: 0 <= i < |frames| ==>
      queued.items[|input.items| + i] == Some(STTRequest(clientId, targetLang, frames[i]))
    ensures queued.unfinished == input.unfinished + |frames|
    ensures after.Success? && ws !in Members(after.value, targetLang)
    ensures forall l :: l != targetLang ==> Members(after.value, l) == Members(reg, l)
    ensures NoEmptyChannel(reg) && ws !in Members(reg, targetLang) ==> after == Success(reg)
    ensures raised <==> end == ReceiveError
  {
    during := Connect(reg, targetLang, ws);
    queued := input;
    var i := 0;
    while i < |frames|
      invariant 0 <= i <= |frames|
      invariant queued.items == input.items + Requests(clientId, targetLang, frames[..i])
      invariant queued.unfinished == input.unfinished + i
    {
      var req := STTRequest(clientId, targetLang, frames[i]);
      queued := Put(queued, Some(req));
      assert frames[..i + 1] == frames[..i] + [frames[i]];
      assert Requests(clientId, targetLang, frames[..i + 1])
          == Requests(clientId, targetLang, frames[..i]) + [Some(req)];
      i := i + 1;
    }
    assert frames[..i] == frames;
    after := Disconnect(during, targetLang, ws);
    if NoEmptyChannel(reg) && ws !in Members(reg, targetLang) {
      ConnectThenDisconnect(reg, targetLang, ws);
    }
    raised := end == ReceiveError;
  }
}
