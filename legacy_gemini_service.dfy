/** The older Gemini service: one client built from the environment's API key, no
    rotation and no retry. It engineers a structured prompt and generates an image with
    the same part layouts and response reading as the current service, except that the
    prompt header carries no aspect ratio and the system instructions are its own. */
module LegacyGeminiService {
  import opened Js
  import opened Types
  import opened Parts

  /** The model endpoint, reached with the environment's key, as an oracle: the outcome of
      sending `request`. */
  type Generate = Request -> Outcome<Response>

  /** `User's simple prompt: ${userPrompt}`. */
  function Header(userPrompt: string): string
  {
    "User's simple prompt: " + userPrompt
  }

  /** The older video instruction for a video target, the older image instruction otherwise. */
  function SystemInstructionFor(target: TargetModel): (i: Instruction)
    ensures i == LegacyVideoEngineer <==> target.Video?
    ensures i == LegacyImageEngineer <==> target.Image?
  {
    if target.Video? then LegacyVideoEngineer else LegacyImageEngineer
  }

  /** The request `engineerPrompt` sends. */
  function EngineerPromptRequest(userPrompt: string, target: TargetModel, plates: seq<ImageFile>,
                                 refs: seq<ImageFile>): Request
  {
    EngineerRequest(EngineerParts(Header(userPrompt), plates, refs), SystemInstructionFor(target))
  }

  /** The request's first part is exactly the header, each text plate's label is followed
      by its data, then each reference's, and the closing text is the last part. */
  lemma {:induction false} EngineerPromptRequestLayout(userPrompt: string, target: TargetModel,
                                                       plates: seq<ImageFile>, refs: seq<ImageFile>)
    ensures var p := EngineerPromptRequest(userPrompt, target, plates, refs).parts;
      && |p| == 2 + 2 * (|plates| + |refs|)
      && p[0] == TextPart("User's simple prompt: " + userPrompt)
      && p[|p| - 1] == TextPart(ClosingText)
      && (forall i :: 0 <= i < |plates| ==>
            p[1 + 2 * i] == TextPart(Label(PlateLabel, i, plates[i])) && p[2 + 2 * i] == InlinePart(plates[i]))
      && (forall i :: 0 <= i < |refs| ==>
            p[1 + 2 * |plates| + 2 * i] == TextPart(Label(ReferenceLabel, i, refs[i]))
            && p[2 + 2 * |plates| + 2 * i] == InlinePart(refs[i]))
  {
    EngineerPartsEnds(Header(userPrompt), plates, refs);
    EngineerPartsPlates(Header(userPrompt), plates, refs);
    EngineerPartsReferences(Header(userPrompt), plates, refs);
  }

  /** `engineerPrompt`: assembles the parts, sends them once and reads the JSON reply; a
      failure of the call propagates unchanged. */
  method EngineerPrompt(generate: Generate, decode: string -> Option<EngineeredPrompt>, userPrompt: string,
                        target: TargetModel, plates: seq<ImageFile>, refs: seq<ImageFile>)
    returns (r: Outcome<EngineeredPrompt>)
    ensures r == ParseEngineered(generate(EngineerPromptRequest(userPrompt, target, plates, refs)), decode)
  {
    var parts := BuildEngineerParts(Header(userPrompt), plates, refs);
    var response := generate(EngineerRequest(parts, SystemInstructionFor(target)));
    r := ParseEngineered(response, decode);
  }

  /** `generateImage`: the prompt, then every image inline in the given order; one request;
      the first inline part of the reply as a PNG data URL. */
  method GenerateImage(generate: Generate, prompt: string, images: seq<ImageFile>) returns (r: Outcome<string>)
    ensures r == ImageUrlFrom(generate(ImageRequest(ImageParts(prompt, images))))
  {
    var parts := BuildImageParts(prompt, images);
    var response := generate(ImageRequest(parts));
    r := ReadImageUrl(response);
  }
}
