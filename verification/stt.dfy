/** The recognition stage of backend/workers/stt.py: transcribe each queued audio
    chunk and forward the transcript only when it has a non-whitespace character. */
module Stt {
  import opened Wrappers
  import opened Schemas
  import opened Queues

  /** Python's `str.isspace` for one character: the characters `str.strip()`
      removes when called without arguments. */
  predicate IsSpace(c: char) {
    var n := c as int;
    || 0x09 <= n <= 0x0D || 0x1C <= n <= 0x20 || n == 0x85 || n == 0xA0
    || n == 0x1680 || 0x2000 <= n <= 0x200A || n == 0x2028 || n == 0x2029
    || n == 0x202F || n == 0x205F || n == 0x3000
  }

  /** `s` with its leading whitespace removed. */
  function TrimStart(s: string): string
    decreases |s|
  {
    if |s| > 0 && IsSpace(s[0]) then TrimStart(s[1..]) else s
  }

  /** `s` with its trailing whitespace removed. */
  function TrimEnd(s: string): string
    decreases |s|
  {
    if |s| > 0 && IsSpace(s[|s| - 1]) then TrimEnd(s[..|s| - 1]) else s
  }

  /** `str.strip()`. */
  function Strip(s: string): string {
    TrimEnd(TrimStart(s))
  }

  /** `TrimStart` removes a whitespace prefix and exactly that: what is left is a
      suffix of `s` that does not start with whitespace. */
  lemma {:induction false} TrimStartSpec(s: string)
    ensures var r := TrimStart(s);
      && |r| <= |s| && r == s[|s| - |r|..]
      && (forall i :: 0 <= i < |s| - |r| ==> IsSpace(s[i]))
      && (r == [] || !IsSpace(r[0]))
    decreases |s|
  {
    if |s| > 0 && IsSpace(s[0]) {
      TrimStartSpec(s[1..]);
      var r := TrimStart(s[1..]);
      assert s[1..][|s| - 1 - |r|..] == s[|s| - |r|..];
      forall i | 0 <= i < |s| - |r|
        ensures IsSpace(s[i])
      {
        if i > 0 {
          assert s[i] == s[1..][i - 1];
        }
      }
    }
  }

  /** `TrimEnd` removes a whitespace suffix and exactly that: what is left is a
      prefix of `s` that does not end with whitespace. */
  lemma {:induction false} TrimEndSpec(s: string)
    ensures var r := TrimEnd(s);
      && |r| <= |s| && r == s[..|r|]
      && (forall i :: |r| <= i < |s| ==> IsSpace(s[i]))
      && (r == [] || !IsSpace(r[|r| - 1]))
    decreases |s|
  {
    if |s| > 0 && IsSpace(s[|s| - 1]) {
      TrimEndSpec(s[..|s| - 1]);
      var r := TrimEnd(s[..|s| - 1]);
      assert s[..|s| - 1][..|r|] == s[..|r|];
      forall i | |r| <= i < |s|
        ensures IsSpace(s[i])
      {
        if i < |s| - 1 {
          assert s[i] == s[..|s| - 1][i];
        }
      }
    }
  }

  /** Some character of `s` is not whitespace. */
  predicate Visible(s: string) {
    exists i | 0 <= i < |s| :: !IsSpace(s[i])
  }

  /** Stripping leaves something exactly when the text has a non-whitespace character. */
  lemma StripNonEmptyIff(s: string)
    ensures Strip(s) != [] <==> Visible(s)
  {
    var t := TrimStart(s);
    var u := TrimEnd(t);
    TrimStartSpec(s);
    TrimEndSpec(t);
    if u != [] {
      assert !IsSpace(u[0]);
      assert u[0] == t[0] == s[|s| - |t|];
    } else {
      assert t == [];
    }
  }

  /** `"".join(seg.text for seg in segments)`. */
  function Join(texts: seq<string>): string
    decreases |texts|
  {
    if texts == [] then "" else texts[0] + Join(texts[1..])
  }

  /** Joining is in order: the text of earlier segments precedes that of later ones. */
  lemma {:induction false} JoinAppend(a: seq<string>, b: seq<string>)
    ensures Join(a + b) == Join(a) + Join(b)
    decreases |a|
  {
    if a == [] {
      assert a + b == b;
    } else {
      assert (a + b)[1..] == a[1..] + b;
      JoinAppend(a[1..], b);
    }
  }

  /** What the decoder and the speech model do with one chunk (an oracle):
      the recognized segments, an `ffmpeg.Error`, or another exception. */
  datatype Recognition = Segments(texts: seq<string>) | FfmpegError | ModelFailure

  /** `_transcribe_audio`: the joined segments, `None` on an ffmpeg error, and any
      other exception left to propagate (`Failure`). */
  function TranscribeAudio(rec: Recognition): (r: Result<Option<string>, Recognition>)
    ensures rec.Segments? <==> r.Success? && r.value.Some?
    ensures rec.FfmpegError? <==> r == Success(None)
    ensures rec.Segments? ==> r.value.value == Join(rec.texts)
  {
    match rec
    case Segments(texts) => Success(Some(Join(texts)))
    case FfmpegError => Success(None)
    case ModelFailure => Failure(rec)
  }

  /** The body of the `try` for one request: the tuple to forward, if any. An
      exception from `_transcribe_audio` is caught and the item dropped; an empty
      or whitespace-only text is dropped too (the test `Strip` makes, stated
      directly: see `ForwardsIff`). The forwarded text is the unstripped join. */
  function Process(req: STTRequest, recognize: seq<byte> -> Recognition): (r: Option<Transcript>)
    ensures r.Some? ==> recognize(req.chunk).Segments?
    ensures r.Some? ==> r.value == Transcript(req.clientId, req.targetLang, Some(Join(recognize(req.chunk).texts)))
  {
    match TranscribeAudio(recognize(req.chunk))
    case Failure(_) => None
    case Success(text) =>
      if text.Some? && text.value != "" && Visible(text.value) then
        Some(Transcript(req.clientId, req.targetLang, Some(text.value)))
      else None
  }

  /** A request is forwarded exactly when recognition succeeds and the joined text
      is non-empty once stripped: silence, whitespace-only output, an ffmpeg error
      and a model failure are all dropped. */
  lemma ForwardsIff(req: STTRequest, recognize: seq<byte> -> Recognition)
    ensures Process(req, recognize).Some? <==>
      recognize(req.chunk).Segments? && Strip(Join(recognize(req.chunk).texts)) != ""
  {
    if recognize(req.chunk).Segments? {
      StripNonEmptyIff(Join(recognize(req.chunk).texts));
    }
  }

  /** One turn of `stt_worker`: take one item; a `None` leaves the loop, a request is
      processed and at most one tuple forwarded; `task_done` runs once in the
      `finally`, the stop signal included. */
  function Step(c: Conduits, recognize: seq<byte> -> Recognition): (r: WorkerStep)
    ensures r.Idle? <==> c.sttInput.items == []
    ensures r.Crashed? <==> c.sttInput.items != [] && c.sttInput.unfinished == 0
    ensures r.Crashed? ==> r.fault == TaskDoneTooOften
    ensures r.Stopped? <==> c.sttInput.items != [] && c.sttInput.items[0].None? && c.sttInput.unfinished > 0
    ensures !r.Idle? ==> r.after.sttInput.items == c.sttInput.items[1..]
    ensures r.Stopped? || r.Continued? ==> r.after.sttInput.unfinished + 1 == c.sttInput.unfinished
    ensures !r.Idle? ==> r.after.ttsInput == c.ttsInput && r.after.ttsOutput == c.ttsOutput
    ensures r.Stopped? ==> r.after.sttOutput == c.sttOutput
    ensures r.Continued? ==> var req := c.sttInput.items[0].value;
      r.after.sttOutput == (match Process(req, recognize)
                            case None => c.sttOutput
                            case Some(t) => Put(c.sttOutput, t))
  {
    match Get(c.sttInput)
    case Waiting => Idle
    case Taken(item, rest) =>
      var forwarded :=
        if item.None? then c.sttOutput
        else match Process(item.value, recognize)
             case None => c.sttOutput
             case Some(t) => Put(c.sttOutput, t);
      match TaskDone(rest)
      case None => Crashed(c.(sttInput := rest, sttOutput := forwarded), TaskDoneTooOften)
      case Some(done) =>
        if item.None? then Stopped(c.(sttInput := done))
        else Continued(c.(sttInput := done, sttOutput := forwarded))
  }
}
