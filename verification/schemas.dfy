/** The event records that travel between the pipeline stages
    (backend/schemas/request.py and backend/schemas/response.py). */
module Schemas {
  import opened Wrappers

  /** One element of a Python `bytes` value. */
  type byte = x: int | 0 <= x < 256

  /** An audio frame received from a speaking client, bound for recognition. */
  datatype STTRequest = STTRequest(clientId: string, targetLang: string, chunk: seq<byte>)

  /** The tuple `(client_id, target_lang, stt_text)` carried from recognition to
      translation; a `None` text is the translation loop's stop signal. */
  datatype Transcript = Transcript(clientId: string, targetLang: string, text: Option<string>)

  /** A translated sentence, bound for synthesis. */
  datatype TTSRequest = TTSRequest(clientId: string, targetLang: string, translated: string)

  /** Synthesized speech, bound for the broadcaster. */
  datatype StsResponse = StsResponse(clientId: string, targetLang: string, translatedText: string, audioBytes: seq<byte>)
}
