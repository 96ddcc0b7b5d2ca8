/** The request the form sends to the generation backend and what the form shows
    for the backend's answer. The transport itself is not modelled: the status
    code and the body of the answer are parameters. */
module Backend {
  import opened Strings
  import opened Composer

  newtype byte = x: int | 0 <= x < 256

  /** The multipart request: the uploaded image as the file part, and the form
      fields `prompt` and `lora`. */
  datatype Request = Request(image: seq<byte>, prompt: string, lora: string)

  /** The download offered for a generated image. */
  datatype Download = Download(buttonLabel: string, data: seq<byte>, fileName: string, mime: string)

  /** What the form shows once the backend has answered. */
  datatype Outcome =
    | Shown(image: seq<byte>, download: Download)
    | Failed(message: string)

  const SuccessStatus: int := 200
  const DownloadLabel: string := "📥 Download Result"
  const ResultFileName: string := "redesigned_interior.png"
  const ResultMime: string := "image/png"
  const FailureMessage: string := "❌ Generation failed. Check backend."

  /** The request for the selections `s` and the uploaded image. */
  function RequestFor(s: Selections, image: seq<byte>): Request
  {
    Request(image, Prompt(s), s.style)
  }

  /** Composes the prompt and builds the request around it. */
  method BuildRequest(s: Selections, image: seq<byte>) returns (req: Request)
    ensures req == RequestFor(s, image)
  {
    var prompt := ComposePrompt(s);
    req := Request(image, prompt, s.style);
  }

  /** The `lora` field carries the style exactly as selected, hyphens included,
      while the prompt's style hint carries it with spaces; the file part is the
      image the request was built with. */
  lemma RequestCarriesRawStyle(s: Selections, image: seq<byte>)
    requires s.style != NoStyle
    ensures RequestFor(s, image).lora == s.style
    ensures RequestFor(s, image).image == image
    ensures EndsWith(RequestFor(s, image).prompt, StylePrefix + ReplaceHyphens(s.style))
    ensures '-' in s.style ==> RequestFor(s, image).lora != ReplaceHyphens(s.style)
  {
    StyleHintLast(s);
  }

  /** Every style the form offers other than "None" is hyphenated, so for each of
      them the field and the hint differ. */
  lemma OfferedStylesDiffer(s: Selections, image: seq<byte>)
    requires InRange(s) && s.style != NoStyle
    ensures '-' in RequestFor(s, image).lora
    ensures '-' !in ReplaceHyphens(RequestFor(s, image).lora)
  {
    if s.style == "interior-studio-lora" {
      assert s.style[8] == '-';
    } else {
      assert s.style == "pastel-mix-lora" || s.style == "modern-architecture-lora";
      assert s.style[6] == '-';
    }
    ReplaceHyphensSpec(s.style);
  }

  /** With no style the `lora` field is "None" and the prompt closes with the
      realism phrase. */
  lemma RequestWithoutStyle(s: Selections, image: seq<byte>)
    requires s.style == NoStyle
    ensures RequestFor(s, image).lora == "None"
    ensures EndsWith(RequestFor(s, image).prompt, RealismPhrase)
  {
    NoStyleNoHint(s);
  }

  /** The form's reaction to the backend's answer: status 200 shows the returned
      bytes and offers them as a PNG download; any other status shows the failure
      message. */
  function Respond(status: int, content: seq<byte>): (o: Outcome)
    ensures o.Shown? <==> status == SuccessStatus
    ensures o.Shown? ==> o.image == content && o.download.data == content
    ensures o.Shown? ==> o.download.fileName == ResultFileName && o.download.mime == ResultMime
    ensures o.Failed? ==> o.message == FailureMessage
  {
    if status == SuccessStatus then Shown(content, Download(DownloadLabel, content, ResultFileName, ResultMime))
    else Failed(FailureMessage)
  }

  /** A failure depends on nothing but the status: the body of a failed answer is ignored. */
  lemma FailureIgnoresBody(status: int, a: seq<byte>, b: seq<byte>)
    requires status != SuccessStatus
    ensures Respond(status, a) == Respond(status, b)
  {
  }

  /** On success the shown image and the download hold the same bytes, so the
      bytes shown can be told apart exactly when the answers differ. */
  lemma SuccessKeepsBody(a: seq<byte>, b: seq<byte>)
    ensures Respond(SuccessStatus, a) == Respond(SuccessStatus, b) <==> a == b
  {
  }
}
