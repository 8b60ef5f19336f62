/** The listener registry of backend/services/ConnectionManager.py: for each
    target-language channel, the set of open WebSocket handles subscribed to it.
    There is no client-id key; a handle is known only by the channel it joined. */
module ConnectionManager {
  import opened Wrappers
  import opened Schemas

  /** An opaque WebSocket connection, compared by identity. */
  datatype Handle = Handle(id: nat)

  /** `active_channels: dict[str, set[WebSocket]]`. */
  type Registry = map<string, set<Handle>>

  /** The exception `disconnect` lets escape. */
  datatype RegistryError = KeyError

  /** The handles subscribed to `lang`; empty for an absent channel. */
  function Members(reg: Registry, lang: string): set<Handle> {
    if lang in reg then reg[lang] else {}
  }

  /** The registry invariant: no channel maps to an empty set. */
  ghost predicate NoEmptyChannel(reg: Registry) {
    forall lang :: lang in reg ==> reg[lang] != {}
  }

  /** `connect`: creates the channel's set if absent and adds the handle to it. */
  function Connect(reg: Registry, lang: string, ws: Handle): (r: Registry)
    ensures r.Keys == reg.Keys + {lang}
    ensures forall l :: Members(r, l) == Members(reg, l) + (if l == lang then {ws} else {})
    ensures NoEmptyChannel(reg) ==> NoEmptyChannel(r)
  {
    reg[lang := Members(reg, lang) + {ws}]
  }

  /** `disconnect`: a no-op for an absent channel, `KeyError` (from `set.remove`)
      for a handle missing from a present channel; otherwise the handle leaves its
      channel, and a channel left empty is deleted. */
  function Disconnect(reg: Registry, lang: string, ws: Handle): (r: Result<Registry, RegistryError>)
    ensures lang !in reg ==> r == Success(reg)
    ensures lang in reg && ws !in reg[lang] ==> r == Failure(KeyError)
    ensures lang in reg && ws in reg[lang] ==> r.Success?
    ensures r.Success? ==> forall l :: Members(r.value, l) == Members(reg, l) - (if l == lang then {ws} else {})
    ensures r.Success? ==> (lang in r.value <==> Members(reg, lang) - {ws} != {})
    ensures r.Success? ==> forall l :: l != lang ==> (l in r.value <==> l in reg)
    ensures r.Success? && NoEmptyChannel(reg) ==> NoEmptyChannel(r.value)
  {
    if lang !in reg then Success(reg)
    else if ws !in reg[lang] then Failure(KeyError)
    else
      var remaining := reg[lang] - {ws};
      if remaining == {} then Success(reg - {lang}) else Success(reg[lang := remaining])
  }

  /** Connecting the same handle twice is the same as connecting it once. */
  lemma ConnectIdempotent(reg: Registry, lang: string, ws: Handle)
    ensures Connect(Connect(reg, lang, ws), lang, ws) == Connect(reg, lang, ws)
  {
  }

  /** `disconnect` undoes `connect` of a handle that was not yet subscribed, on a
      registry that keeps its invariant. */
  lemma ConnectThenDisconnect(reg: Registry, lang: string, ws: Handle)
    requires NoEmptyChannel(reg)
    requires ws !in Members(reg, lang)
    ensures Disconnect(Connect(reg, lang, ws), lang, ws) == Success(reg)
  {
    var c := Connect(reg, lang, ws);
    if lang in reg {
      assert c[lang] - {ws} == reg[lang];
      assert c[lang := reg[lang]] == reg;
    } else {
      assert c[lang] - {ws} == {};
      assert c - {lang} == reg;
    }
  }

  /** What a send to one connection does: it succeeds, raises one of the two
      exceptions the sweep catches per recipient (`WebSocketDisconnect`,
      `ConnectionResetError`), or raises anything else. */
  datatype SendOutcome = Sent | ClientDisconnected | ConnectionReset | OtherFailure

  /** A WebSocket message: `send_text` or `send_bytes`. */
  datatype Frame = Text(text: string) | Binary(data: seq<byte>)

  /** What one broadcast did: the handles it tried, in the order tried, those
      that accepted the frame, and whether an uncaught exception ended it. */
  datatype Fanout = Fanout(attempted: seq<Handle>, delivered: set<Handle>, aborted: bool)

  /** Every handle appears at most once. */
  ghost predicate Distinct(hs: seq<Handle>) {
    forall i, j :: 0 <= i < j < |hs| ==> hs[i] != hs[j]
  }

  /** The loop of both broadcast methods: sends `frame` to every member in the set's
      (unspecified) iteration order. A caught failure moves on to the next member;
      any other exception ends the sweep at that member. */
  method Sweep(members: set<Handle>, frame: Frame, transport: (Handle, Frame) -> SendOutcome)
    returns (f: Fanout)
    ensures Distinct(f.attempted)
    ensures forall i :: 0 <= i < |f.attempted| ==> f.attempted[i] in members
    ensures f.delivered == set h | h in f.attempted && transport(h, frame) == Sent
    ensures forall i :: 0 <= i < |f.attempted| - 1 ==> transport(f.attempted[i], frame) != OtherFailure
    ensures f.aborted <==> |f.attempted| > 0 && transport(f.attempted[|f.attempted| - 1], frame) == OtherFailure
    ensures !f.aborted ==> forall h :: h in members ==> h in f.attempted
    ensures !f.aborted ==> f.delivered == set h | h in members && transport(h, frame) == Sent
    ensures (forall h :: h in members ==> transport(h, frame) != OtherFailure) ==> !f.aborted
  {
    var remaining := members;
    var attempted: seq<Handle> := [];
    var delivered: set<Handle> := {};
    while remaining != {}
      invariant remaining <= members
      invariant forall h :: h in members ==> (h in remaining <==> h !in attempted)
      invariant forall i :: 0 <= i < |attempted| ==> attempted[i] in members
      invariant Distinct(attempted)
      invariant forall i :: 0 <= i < |attempted| ==> transport(attempted[i], frame) != OtherFailure
      invariant delivered == set h | h in attempted && transport(h, frame) == Sent
      decreases remaining
    {
      var h :| h in remaining;
      attempted := attempted + [h];
      remaining := remaining - {h};
      match transport(h, frame)
      case Sent =>
        delivered := delivered + {h};
      case ClientDisconnected =>
      case ConnectionReset =>
      case OtherFailure =>
        return Fanout(attempted, delivered, true);
    }
    f := Fanout(attempted, delivered, false);
  }

  /** `broadcast_json`: nothing for an absent channel; otherwise the serialised
      data goes to every member as one text frame. The registry is not an output:
      a failed recipient stays subscribed. */
  method BroadcastJson<D>(reg: Registry, lang: string, data: D, dumps: D -> string,
                          transport: (Handle, Frame) -> SendOutcome)
    returns (f: Fanout)
    ensures lang !in reg ==> f == Fanout([], {}, false)
    ensures forall i :: 0 <= i < |f.attempted| ==> f.attempted[i] in Members(reg, lang)
    ensures Distinct(f.attempted)
    ensures f.delivered == set h | h in f.attempted && transport(h, Text(dumps(data))) == Sent
    ensures forall i :: 0 <= i < |f.attempted| - 1 ==> transport(f.attempted[i], Text(dumps(data))) != OtherFailure
    ensures !f.aborted ==> forall h :: h in Members(reg, lang) ==> h in f.attempted
    ensures !f.aborted ==> f.delivered == set h | h in Members(reg, lang) && transport(h, Text(dumps(data))) == Sent
    ensures f.aborted <==> |f.attempted| > 0 && transport(f.attempted[|f.attempted| - 1], Text(dumps(data))) == OtherFailure
    ensures (forall h :: h in Members(reg, lang) ==> transport(h, Text(dumps(data))) != OtherFailure) ==> !f.aborted
    ensures (forall h :: h in Members(reg, lang) ==> transport(h, Text(dumps(data))) == Sent) ==>
      !f.aborted && f.delivered == Members(reg, lang)
  {
    if lang !in reg {
      return Fanout([], {}, false);
    }
    var json := dumps(data);
    f := Sweep(reg[lang], Text(json), transport);
  }

  /** `broadcast_bytes`: as `broadcast_json`, with the bytes sent as a binary frame. */
  method BroadcastBytes(reg: Registry, lang: string, data: seq<byte>,
                        transport: (Handle, Frame) -> SendOutcome)
    returns (f: Fanout)
    ensures lang !in reg ==> f == Fanout([], {}, false)
    ensures forall i :: 0 <= i < |f.attempted| ==> f.attempted[i] in Members(reg, lang)
    ensures Distinct(f.attempted)
    ensures f.delivered == set h | h in f.attempted && transport(h, Binary(data)) == Sent
    ensures forall i :: 0 <= i < |f.attempted| - 1 ==> transport(f.attempted[i], Binary(data)) != OtherFailure
    ensures !f.aborted ==> forall h :: h in Members(reg, lang) ==> h in f.attempted
    ensures !f.aborted ==> f.delivered == set h | h in Members(reg, lang) && transport(h, Binary(data)) == Sent
    ensures f.aborted <==> |f.attempted| > 0 && transport(f.attempted[|f.attempted| - 1], Binary(data)) == OtherFailure
    ensures (forall h :: h in Members(reg, lang) ==> transport(h, Binary(data)) != OtherFailure) ==> !f.aborted
    ensures (forall h :: h in Members(reg, lang) ==> transport(h, Binary(data)) == Sent) ==>
      !f.aborted && f.delivered == Members(reg, lang)
  {
    if lang in reg {
      f := Sweep(reg[lang], Binary(data), transport);
    } else {
      f := Fanout([], {}, false);
    }
  }
}
