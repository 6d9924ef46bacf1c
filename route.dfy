/**
 * The outcome decision of `POST /api/transcribe`. Reading the multipart body
 * and calling the speech-to-text provider are I/O; the model takes their
 * results as inputs: the parsed form (or the error reading it threw) and the
 * provider as a function from the uploaded entry to its reply (segments, or
 * the error it threw). The returned exchange records which entries were sent
 * to the provider, so that "the provider is not called" can be stated.
 */
module TranscribeRoute {

  import opened Wrappers
  import opened Transcript

  /** An uploaded audio file: its name and bytes. */
  datatype Upload = Upload(name: string, bytes: seq<bv8>)

  /** What `formData.get("file")` finds under the name "file": a file or a plain text value. */
  datatype FormEntry = FileEntry(upload: Upload) | TextEntry(value: string)

  /** The outcome of `req.formData()`: the error it threw, or the entry named "file" if any. */
  datatype Form = UnreadableBody(message: string) | Fields(file: Option<FormEntry>)

  /** The provider's reply: a transcription whose segment list may be missing, or the error it threw. */
  datatype ProviderReply = Transcription(segments: Option<seq<Segment>>) | ProviderError(message: string)

  /** A JSON body: `{text}` (an undefined text is dropped by JSON) or `{error}`. */
  datatype Body = TextBody(text: Option<string>) | ErrorBody(error: string)

  datatype Response = Response(status: nat, body: Body)

  /** The response together with the entries handed to the provider, in order. */
  datatype Exchange = Exchange(providerCalls: seq<FormEntry>, response: Response)

  const NoFileMessage: string := "No file uploaded"

  /**
   * JavaScript truthiness of a form entry: a `File` object is truthy whatever its
   * name and size, a string only when it is not empty.
   */
  predicate Truthy(e: FormEntry): (b: bool)
    ensures e.FileEntry? ==> b
    ensures e == TextEntry("") ==> !b
    ensures e.TextEntry? && e.value != "" ==> b
  {
    e.FileEntry? || |e.value| > 0
  }

  /**
   * The entry the handler sends to the provider (`if (!file)` guards the call):
   * nothing when the body could not be read, when there is no `file` entry or
   * when it is the empty string; the entry itself when it is a non-empty string
   * or any file, an empty one included.
   */
  function Submitted(form: Form): (e: Option<FormEntry>)
    ensures form.UnreadableBody? ==> e == None
    ensures form == Fields(None) ==> e == None
    ensures form == Fields(Some(TextEntry(""))) ==> e == None
    ensures form.Fields? && form.file.Some? && form.file.value.TextEntry? && form.file.value.value != ""
            ==> e == form.file
    ensures form.Fields? && form.file.Some? && form.file.value.FileEntry? ==> e == form.file
  {
    if form.Fields? && form.file.Some? && Truthy(form.file.value) then form.file else None
  }

  /** The handler: 400 without a file, 500 with the thrown message on any failure, 200 with the transcript. */
  function Post(form: Form, provider: FormEntry -> ProviderReply): (x: Exchange)
    ensures x.response.status in {200, 400, 500}
    // the provider is called exactly once with the submitted entry, and otherwise never
    ensures x.providerCalls == if Submitted(form).Some? then [Submitted(form).value] else []
    // no "file" entry, or an empty text value under that name
    ensures x.response.status == 400 <==> form.Fields? && Submitted(form).None?
    ensures x.response.status == 400 ==> x.response.body == ErrorBody(NoFileMessage)
    // a failure reading the body or inside the provider, reported with its message
    ensures form.UnreadableBody? ==> x.response == Response(500, ErrorBody(form.message))
    ensures Submitted(form).Some? && provider(Submitted(form).value).ProviderError?
            ==> x.response == Response(500, ErrorBody(provider(Submitted(form).value).message))
    // success: the formatted transcript of the provider's segments
    ensures x.response.status == 200 <==> Submitted(form).Some? && provider(Submitted(form).value).Transcription?
    ensures x.response.status == 200
            ==> x.response.body == TextBody(FormatTranscript(provider(Submitted(form).value).segments))
  {
    match form
    case UnreadableBody(message) => Exchange([], Response(500, ErrorBody(message)))
    case Fields(file) =>
      if file.None? || !Truthy(file.value) then
        Exchange([], Response(400, ErrorBody(NoFileMessage)))
      else
        match provider(file.value)
        case ProviderError(message) => Exchange([file.value], Response(500, ErrorBody(message)))
        case Transcription(segments) => Exchange([file.value], Response(200, TextBody(FormatTranscript(segments))))
  }

  /** Without a submitted file the exchange is the same whatever the provider would do: it is never consulted. */
  lemma NoFileIgnoresProvider(form: Form, p: FormEntry -> ProviderReply, q: FormEntry -> ProviderReply)
    requires Submitted(form).None?
    ensures Post(form, p) == Post(form, q)
    ensures Post(form, p).providerCalls == []
  {
  }

  /**
   * The handler keeps no state between requests: two requests whose providers
   * reply alike get the same response, whatever was uploaded.
   */
  lemma ResponseDependsOnlyOnReply(f: Form, p: FormEntry -> ProviderReply, g: Form, q: FormEntry -> ProviderReply)
    requires Submitted(f).Some? && Submitted(g).Some?
    requires p(Submitted(f).value) == q(Submitted(g).value)
    ensures Post(f, p).response == Post(g, q).response
  {
  }

  /** An empty upload is still a file, so it reaches the provider, while an empty text value is answered with 400. */
  lemma EmptyUploadSubmitted(p: FormEntry -> ProviderReply)
    ensures Post(Fields(Some(FileEntry(Upload("", [])))), p).providerCalls == [FileEntry(Upload("", []))]
    ensures Post(Fields(Some(TextEntry(""))), p) == Exchange([], Response(400, ErrorBody(NoFileMessage)))
  {
  }

  /** An empty segment list yields 200 with the empty text; a missing one yields 200 with no text. */
  lemma EmptyAndMissingSegments(form: Form, p: FormEntry -> ProviderReply)
    requires Submitted(form).Some?
    ensures p(Submitted(form).value) == Transcription(Some([]))
            ==> Post(form, p).response == Response(200, TextBody(Some("")))
    ensures p(Submitted(form).value) == Transcription(None)
            ==> Post(form, p).response == Response(200, TextBody(None))
  {
  }
}
