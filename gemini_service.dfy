/** The current Gemini service: every request goes through the key pool's rotating
    `makeApiCall`. It adds quotes around on-image text in a prompt, engineers a
    structured prompt from the user's prompt and images, fetches a grounding image for a
    real-world entity, and generates the final image. */
module GeminiService {
  import opened Js
  import opened Types
  import opened Parts
  import opened KeyRotation

  /** The model endpoint as an oracle: the outcome of attempt `j` of a call that sends
      `request` with `key`. */
  type Backend = (Request, nat, string) -> Outcome<Response>

  /** The operation handed to `makeApiCall`: send `request` with the attempt's key. */
  function Bind(backend: Backend, request: Request): (nat, string) -> Outcome<Response>
  {
    (j: nat, key: string) => backend(request, j, key)
  }

  // ---------------------------------------------------------------------------------------
  // addQuotesToPrompt

  const QuoteModel := "gemini-2.5-flash"

  /** `User Prompt: ${userPrompt}`. */
  function QuoteRequest(userPrompt: string): Request
  {
    Request(QuoteModel, None, [TextPart("User Prompt: " + userPrompt)],
            Config(Some(QuoteAdder), Some("text/plain"), Some(0), false))
  }

  /** What `addQuotesToPrompt` returns once the model has answered: the trimmed reply, or
      the original prompt when the reply trims to nothing, when the reply has no text
      (`.trim()` of `undefined` throws inside the `try`) or when the call failed. */
  function QuoteFallback(userPrompt: string, o: Outcome<Response>): string
  {
    match o
    case Threw(_) => userPrompt
    case Returned(response) =>
      match response.text
      case None => userPrompt
      case Some(t) => if Trim(t) != [] then Trim(t) else userPrompt
  }

  /** The result is either the original prompt or the model's non-empty trimmed reply, which
      trimming again leaves alone. The trimmed reply is used exactly when the call returned
      text that does not trim to nothing; a failed call, a reply without text and a blank
      reply give back the original prompt. */
  lemma {:induction false} QuoteFallbackSpec(userPrompt: string, o: Outcome<Response>)
    ensures var r := QuoteFallback(userPrompt, o);
      || r == userPrompt
      || (o.Returned? && o.value.text.Some? && r == Trim(o.value.text.value) && r != [] && Trim(r) == r)
    ensures o.Threw? ==> QuoteFallback(userPrompt, o) == userPrompt
    ensures o.Returned? && o.value.text.Some? && Trim(o.value.text.value) != [] ==>
      QuoteFallback(userPrompt, o) == Trim(o.value.text.value)
    ensures o.Returned? && (o.value.text.None? || Trim(o.value.text.value) == []) ==>
      QuoteFallback(userPrompt, o) == userPrompt
  {
    if o.Returned? && o.value.text.Some? {
      TrimIdempotent(o.value.text.value);
    }
  }

  /** A prompt that is not all whitespace never comes back blank, whatever the model does. */
  lemma {:induction false} QuoteFallbackNeverBlank(userPrompt: string, o: Outcome<Response>)
    requires !IsBlank(userPrompt)
    ensures !IsBlank(QuoteFallback(userPrompt, o))
  {
    var r := QuoteFallback(userPrompt, o);
    if r != userPrompt {
      TrimEmptyIffBlank(o.value.text.value);
      assert !IsJsWhitespace(r[0]);
    }
  }

  /** `addQuotesToPrompt`: a prompt that trims to nothing comes back unchanged without any
      call; anything else goes through the pool, and the outcome, success or failure, is
      turned into a prompt by `QuoteFallback`, so the operation never fails. */
  method AddQuotesToPrompt(pool: KeyPool, backend: Backend, userPrompt: string) returns (r: string)
    requires pool.Valid()
    modifies pool
    ensures pool.Valid()
    ensures Trim(userPrompt) == [] ==> r == userPrompt && pool.cursor == old(pool.cursor)
    ensures Trim(userPrompt) != [] ==>
      var call := Rotate(pool.keys, old(pool.cursor), Bind(backend, QuoteRequest(userPrompt)));
      r == QuoteFallback(userPrompt, call.outcome) && pool.cursor == call.cursor
  {
    if Trim(userPrompt) == [] {
      return userPrompt;
    }
    var response, tried := pool.Call(Bind(backend, QuoteRequest(userPrompt)));
    r := QuoteFallback(userPrompt, response);
  }

  // ---------------------------------------------------------------------------------------
  // engineerPrompt

  /** `User's simple prompt: ${userPrompt}\nDesired Aspect Ratio: ${aspectRatio}`. */
  function EngineerHeader(userPrompt: string, aspectRatio: AspectRatio): string
  {
    "User's simple prompt: " + userPrompt + "\nDesired Aspect Ratio: " + AspectRatioValue(aspectRatio)
  }

  /** The video instruction for a video target, the image instruction otherwise. */
  function SystemInstructionFor(target: TargetModel): (i: Instruction)
    ensures i == VideoEngineer <==> target.Video?
    ensures i == ImageEngineer <==> target.Image?
  {
    if target.Video? then VideoEngineer else ImageEngineer
  }

  /** The request `engineerPrompt` sends. */
  function EngineerPromptRequest(userPrompt: string, target: TargetModel, plates: seq<ImageFile>,
                                 refs: seq<ImageFile>, aspectRatio: AspectRatio): Request
  {
    EngineerRequest(EngineerParts(EngineerHeader(userPrompt, aspectRatio), plates, refs), SystemInstructionFor(target))
  }

  /** The request goes to the pro model with a JSON reply, and its parts are the header with
      the prompt and the aspect ratio, a label/data pair per text plate, a pair per reference
      image and the closing text: `2 + 2 * (|plates| + |refs|)` parts. */
  lemma {:induction false} EngineerPromptRequestLayout(userPrompt: string, target: TargetModel, plates: seq<ImageFile>,
                                                       refs: seq<ImageFile>, aspectRatio: AspectRatio)
    ensures var request := EngineerPromptRequest(userPrompt, target, plates, refs, aspectRatio);
      var p := request.parts;
      && request.model == EngineerModel
      && request.config.responseMimeType == Some("application/json")
      && |p| == 2 + 2 * (|plates| + |refs|)
      && p[0] == TextPart("User's simple prompt: " + userPrompt + "\nDesired Aspect Ratio: " + AspectRatioValue(aspectRatio))
      && p[|p| - 1] == TextPart(ClosingText)
      && (forall i :: 0 <= i < |plates| ==>
            p[1 + 2 * i] == TextPart(Label(PlateLabel, i, plates[i])) && p[2 + 2 * i] == InlinePart(plates[i]))
      && (forall i :: 0 <= i < |refs| ==>
            p[1 + 2 * |plates| + 2 * i] == TextPart(Label(ReferenceLabel, i, refs[i]))
            && p[2 + 2 * |plates| + 2 * i] == InlinePart(refs[i]))
  {
    var header := EngineerHeader(userPrompt, aspectRatio);
    EngineerPartsEnds(header, plates, refs);
    EngineerPartsPlates(header, plates, refs);
    EngineerPartsReferences(header, plates, refs);
  }

  /** `engineerPrompt`: assembles the parts, sends them through the pool and reads the
      JSON reply; a failure of the call propagates unchanged. */
  method EngineerPrompt(pool: KeyPool, backend: Backend, decode: string -> Option<EngineeredPrompt>,
                        userPrompt: string, target: TargetModel, plates: seq<ImageFile>,
                        refs: seq<ImageFile>, aspectRatio: AspectRatio)
    returns (r: Outcome<EngineeredPrompt>)
    requires pool.Valid()
    modifies pool
    ensures pool.Valid()
    ensures var request := EngineerPromptRequest(userPrompt, target, plates, refs, aspectRatio);
      var call := Rotate(pool.keys, old(pool.cursor), Bind(backend, request));
      r == ParseEngineered(call.outcome, decode) && pool.cursor == call.cursor
  {
    var parts := BuildEngineerParts(EngineerHeader(userPrompt, aspectRatio), plates, refs);
    var response, tried := pool.Call(Bind(backend, EngineerRequest(parts, SystemInstructionFor(target))));
    r := ParseEngineered(response, decode);
  }

  // ---------------------------------------------------------------------------------------
  // getGroundingImage

  const GroundingFileName := "grounding_reference.png"
  const GroundingFailedMessage := "Failed to generate grounding image."

  /** The image-generation prompt for `query`: a fixed request for a studio photograph of
      the query, followed by fixed framing, lighting and exclusion sentences. */
  function GroundingPrompt(query: string): string
  {
    "Create a high-resolution, photorealistic, studio-quality photograph of: " + query + GroundingPromptTail
  }

  const GroundingPromptTail :=
    ".\nThe subject should be clearly visible, centered, and isolated on a neutral gray or white background."
    + "\nShow the object from a standard, clear angle (e.g., a 3/4 view or side profile for a car)."
    + "\nEnsure professional, even lighting with no harsh shadows."
    + "\nABSOLUTE NEGATIVES: No people, no other objects, no text, no watermarks, no blurry backgrounds,"
    + " no artistic filters, no unusual angles."

  function GroundingRequest(query: string): Request
  {
    ImageRequest([TextPart(GroundingPrompt(query))])
  }

  /** The grounding image built from the first inline payload: a PNG file named
      `grounding_reference.png`, whose name is also the image's name. */
  function GroundingFile(data: string): ImageFile
  {
    ImageFile(FileRef(GroundingFileName, "image/png"), data, GroundingFileName)
  }

  /** `getGroundingImage`'s answer to the model's outcome. */
  function GroundingFrom(o: Outcome<Response>): Outcome<ImageFile>
  {
    match o
    case Threw(e) => Threw(e)
    case Returned(response) =>
      match FirstInline(response.parts)
      case Some(blob) => Returned(GroundingFile(blob.data))
      case None => Threw(Fail(GroundingFailedMessage))
  }

  /** A reply yields an image exactly when one of its parts has inline data; the image
      carries the first such payload, is a PNG named `grounding_reference.png` and has the
      file's name; a reply without one fails with the fixed message. */
  lemma {:induction false} GroundingFromSpec(o: Outcome<Response>)
    ensures o.Threw? ==> GroundingFrom(o) == Threw(o.error)
    ensures o.Returned? ==>
      (GroundingFrom(o).Returned? <==> exists i :: 0 <= i < |o.value.parts| && o.value.parts[i].inlineData.Some?)
    ensures o.Returned? && GroundingFrom(o).Returned? ==>
      var image := GroundingFrom(o).value;
      && image.base64 == FirstInline(o.value.parts).value.data
      && image.file.name == GroundingFileName && image.file.mimeType == "image/png"
      && image.name == image.file.name
    ensures o.Returned? && GroundingFrom(o).Threw? ==> GroundingFrom(o).error == Fail(GroundingFailedMessage)
  {
    if o.Returned? {
      FirstInlineSpec(o.value.parts);
    }
  }

  /** `getGroundingImage`: one image request through the pool, read with the `for ... of`
      scan. */
  method GetGroundingImage(pool: KeyPool, backend: Backend, query: string) returns (r: Outcome<ImageFile>)
    requires pool.Valid()
    modifies pool
    ensures pool.Valid()
    ensures var call := Rotate(pool.keys, old(pool.cursor), Bind(backend, GroundingRequest(query)));
      r == GroundingFrom(call.outcome) && pool.cursor == call.cursor
  {
    var response, tried := pool.Call(Bind(backend, GroundingRequest(query)));
    if response.Threw? {
      return Threw(response.error);
    }
    var found := ScanFirstInline(response.value.parts);
    match found
    case Some(blob) => r := Returned(GroundingFile(blob.data));
    case None => r := Threw(Fail(GroundingFailedMessage));
  }

  // ---------------------------------------------------------------------------------------
  // generateImage

  /** `generateImage`: the prompt and every text plate, then every reference image, inline;
      one request through the pool; the first inline part of the reply as a PNG data URL. */
  method GenerateImage(pool: KeyPool, backend: Backend, prompt: string, plates: seq<ImageFile>,
                       refs: seq<ImageFile>)
    returns (r: Outcome<string>)
    requires pool.Valid()
    modifies pool
    ensures pool.Valid()
    ensures var call := Rotate(pool.keys, old(pool.cursor), Bind(backend, ImageRequest(ImageParts(prompt, plates + refs))));
      r == ImageUrlFrom(call.outcome) && pool.cursor == call.cursor
  {
    var parts := BuildImageParts(prompt, plates + refs);
    var response, tried := pool.Call(Bind(backend, ImageRequest(parts)));
    r := ReadImageUrl(response);
  }
}
