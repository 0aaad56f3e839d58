/** The contract of the local completion endpoint and the signals the workers
    emit. */
module Completion {
  import opened Wrappers
  import opened Text

  /** A POST of `{"prompt": prompt, "n_predict": nPredict}`, with the
      client-side timeout in seconds, if any. */
  datatype Request = Request(prompt: string, nPredict: nat, timeout: Option<nat>)

  /** What one request comes back with: the reply's `content` field (the empty
      string when the JSON object has none), or the text of the exception
      raised by the POST or by decoding the reply. */
  datatype Reply = Ok(content: string) | Failed(reason: string)

  /** `r.json().get("content", "").strip()` */
  function Answer(content: string): string {
    Strip(content)
  }

  /** The Qt signals of the workers, in the order they are emitted. */
  datatype Signal = Progress(text: string) | Finished | Done(text: string) | AnswerReady(text: string)

  /** The status glyphs exactly as the source spells them: the UTF-8 bytes of
      an arrow, a tick and a cross read back as Windows-1252. */
  const Arrow: string := "\U{E2}\U{2020}\U{2019}"
  const Tick: string := "\U{E2}\U{153}\U{201C}"
  const Cross: string := "\U{E2}\U{153}\U{2014}"

  /** `f"[{glyph}] {text}"` */
  function Marked(glyph: string, text: string): string {
    "[" + glyph + "] " + text
  }

  /** `f"[✗] Error: {str(e)}"` */
  function ErrorText(reason: string): string {
    Marked(Cross, "Error: " + reason)
  }
}
