/** The request and response shapes that both generations of the Gemini service exchange
    with the model, and the pieces of request assembly and response reading that they
    share: labelled image parts, inline image parts, the closing instruction, the
    first-inline-part scan and the JSON-reply parse. */
module Parts {
  import opened Js
  import opened Types

  /** `inlineData` of a content part: a MIME type and a base64 payload. */
  datatype Blob = Blob(mimeType: string, data: string)

  /** A content part. Requests only build parts with exactly one of the two fields set;
      a response part may carry either. */
  datatype Part = Part(text: Option<string>, inlineData: Option<Blob>)

  /** `{text: t}`. */
  function TextPart(t: string): Part
  {
    Part(Some(t), None)
  }

  /** `{inlineData: {mimeType: image.file.type, data: image.base64}}`. */
  function InlinePart(image: ImageFile): Part
  {
    Part(None, Some(Blob(image.file.mimeType, image.base64)))
  }

  /** The long system-instruction texts, by name: the quote adder, the prompt engineers
      for image and for video, and the older service's two prompt engineers. */
  datatype Instruction = QuoteAdder | ImageEngineer | VideoEngineer | LegacyImageEngineer | LegacyVideoEngineer

  /** The `config` of a `generateContent` request, as far as the code sets it. */
  datatype Config = Config(systemInstruction: Option<Instruction>, responseMimeType: Option<string>,
                           temperature: Option<int>, imageOutput: bool)

  /** A `generateContent` request: the model name, the role of the single content entry
      (if the code names one), its parts and the config. */
  datatype Request = Request(model: string, role: Option<string>, parts: seq<Part>, config: Config)

  /** What the code reads from a response: `response.text` (absent when the reply has no
      text) and the parts of its first candidate. */
  datatype Response = Response(text: Option<string>, parts: seq<Part>)

  const EngineerModel := "gemini-2.5-pro"
  const ImageModel := "gemini-2.5-flash-image"

  const PlateLabel := "Text Plate"
  const ReferenceLabel := "User Reference Image"

  /** The fixed last part of a prompt-engineering request. */
  const ClosingText := "Now, generate the professional prompt JSON based on all inputs and the system instruction."

  // ---------------------------------------------------------------------------------------
  // Labelled image parts: `images.forEach((image, index) => { push(label); push(inline) })`

  /** `${kind} ${index + 1} (${image.file.name}):`. */
  function Label(kind: string, index: nat, image: ImageFile): string
  {
    kind + " " + NatToString(index + 1) + " (" + image.file.name + "):"
  }

  /** The parts the `forEach` pushes for `images`: a label, then the image, per image. */
  function LabelledPairs(kind: string, images: seq<ImageFile>): (r: seq<Part>)
    ensures |r| == 2 * |images|
    decreases |images|
  {
    if images == [] then []
    else
      var k := |images| - 1;
      LabelledPairs(kind, images[..k]) + [TextPart(Label(kind, k, images[k])), InlinePart(images[k])]
  }

  /** Image `i`'s label sits at position `2i` and the image itself right after it. */
  lemma {:induction false} LabelledPairsAt(kind: string, images: seq<ImageFile>, i: nat)
    requires i < |images|
    ensures LabelledPairs(kind, images)[2 * i] == TextPart(Label(kind, i, images[i]))
    ensures LabelledPairs(kind, images)[2 * i + 1] == InlinePart(images[i])
    decreases |images|
  {
    var k := |images| - 1;
    if i < k {
      LabelledPairsAt(kind, images[..k], i);
    }
  }

  /** The `forEach` loop: pushes the label and the inline part of every image, in order. */
  method AppendLabelled(parts: seq<Part>, kind: string, images: seq<ImageFile>) returns (out: seq<Part>)
    ensures out == parts + LabelledPairs(kind, images)
  {
    out := parts;
    var index := 0;
    while index < |images|
      invariant 0 <= index <= |images|
      invariant out == parts + LabelledPairs(kind, images[..index])
    {
      assert images[..index + 1][..index] == images[..index];
      out := out + [TextPart(Label(kind, index, images[index]))];
      out := out + [InlinePart(images[index])];
      index := index + 1;
    }
    assert images[..|images|] == images;
  }

  // ---------------------------------------------------------------------------------------
  // Unlabelled image parts: `images.forEach((image) => push(inline))`

  function InlineParts(images: seq<ImageFile>): (r: seq<Part>)
    ensures |r| == |images|
    decreases |images|
  {
    if images == [] then [] else InlineParts(images[..|images| - 1]) + [InlinePart(images[|images| - 1])]
  }

  /** Image `i` becomes part `i`. */
  lemma {:induction false} InlinePartsAt(images: seq<ImageFile>, i: nat)
    requires i < |images|
    ensures InlineParts(images)[i] == InlinePart(images[i])
    decreases |images|
  {
    if i < |images| - 1 {
      InlinePartsAt(images[..|images| - 1], i);
    }
  }

  /** The `forEach` loop: pushes the inline part of every image, in order. */
  method AppendInline(parts: seq<Part>, images: seq<ImageFile>) returns (out: seq<Part>)
    ensures out == parts + InlineParts(images)
  {
    out := parts;
    var index := 0;
    while index < |images|
      invariant 0 <= index <= |images|
      invariant out == parts + InlineParts(images[..index])
    {
      assert images[..index + 1][..index] == images[..index];
      out := out + [InlinePart(images[index])];
      index := index + 1;
    }
    assert images[..|images|] == images;
  }

  // ---------------------------------------------------------------------------------------
  // The two part layouts

  /** A prompt-engineering request's parts: the header, a label/image pair per text
      plate, a pair per reference image, and the closing text. */
  function EngineerParts(header: string, plates: seq<ImageFile>, refs: seq<ImageFile>): seq<Part>
  {
    [TextPart(header)] + LabelledPairs(PlateLabel, plates) + LabelledPairs(ReferenceLabel, refs) + [TextPart(ClosingText)]
  }

  /** Text plate `i`'s label and data, at positions `1 + 2i` and `2 + 2i`. */
  lemma {:induction false} EngineerPlateAt(header: string, plates: seq<ImageFile>, refs: seq<ImageFile>, i: nat)
    requires i < |plates|
    ensures var p := EngineerParts(header, plates, refs);
      p[1 + 2 * i] == TextPart(Label(PlateLabel, i, plates[i])) && p[2 + 2 * i] == InlinePart(plates[i])
  {
    var lp := LabelledPairs(PlateLabel, plates);
    var rest := LabelledPairs(ReferenceLabel, refs) + [TextPart(ClosingText)];
    assert EngineerParts(header, plates, refs) == [TextPart(header)] + lp + rest;
    LabelledPairsAt(PlateLabel, plates, i);
  }

  /** Reference image `i`'s label and data, at positions `1 + 2|plates| + 2i` and the next. */
  lemma {:induction false} EngineerReferenceAt(header: string, plates: seq<ImageFile>, refs: seq<ImageFile>, i: nat)
    requires i < |refs|
    ensures var p := EngineerParts(header, plates, refs);
      && p[1 + 2 * |plates| + 2 * i] == TextPart(Label(ReferenceLabel, i, refs[i]))
      && p[2 + 2 * |plates| + 2 * i] == InlinePart(refs[i])
  {
    var front := [TextPart(header)] + LabelledPairs(PlateLabel, plates);
    var lr := LabelledPairs(ReferenceLabel, refs);
    assert EngineerParts(header, plates, refs) == front + lr + [TextPart(ClosingText)];
    LabelledPairsAt(ReferenceLabel, refs, i);
  }

  /** The header comes first, the closing text last, `2 + 2 * (|plates| + |refs|)` parts in all. */
  lemma {:induction false} EngineerPartsEnds(header: string, plates: seq<ImageFile>, refs: seq<ImageFile>)
    ensures var p := EngineerParts(header, plates, refs);
      && |p| == 2 + 2 * (|plates| + |refs|)
      && p[0] == TextPart(header)
      && p[|p| - 1] == TextPart(ClosingText)
  {
  }

  /** Text plate `i`'s label is part `1 + 2i`, immediately followed by the plate itself. */
  lemma {:induction false} EngineerPartsPlates(header: string, plates: seq<ImageFile>, refs: seq<ImageFile>)
    ensures var p := EngineerParts(header, plates, refs);
      forall i :: 0 <= i < |plates| ==>
        p[1 + 2 * i] == TextPart(Label(PlateLabel, i, plates[i])) && p[2 + 2 * i] == InlinePart(plates[i])
  {
    forall i | 0 <= i < |plates| {
      EngineerPlateAt(header, plates, refs, i);
    }
  }

  /** Reference image `i`'s label is part `1 + 2|plates| + 2i`, immediately followed by the
      image itself. */
  lemma {:induction false} EngineerPartsReferences(header: string, plates: seq<ImageFile>, refs: seq<ImageFile>)
    ensures var p := EngineerParts(header, plates, refs);
      forall i :: 0 <= i < |refs| ==>
        p[1 + 2 * |plates| + 2 * i] == TextPart(Label(ReferenceLabel, i, refs[i]))
        && p[2 + 2 * |plates| + 2 * i] == InlinePart(refs[i])
  {
    forall i | 0 <= i < |refs| {
      EngineerReferenceAt(header, plates, refs, i);
    }
  }

  /** Builds `EngineerParts` the way the services do: start with the header, run the two
      `forEach` loops, push the closing text. */
  method BuildEngineerParts(header: string, plates: seq<ImageFile>, refs: seq<ImageFile>) returns (parts: seq<Part>)
    ensures parts == EngineerParts(header, plates, refs)
  {
    parts := [TextPart(header)];
    parts := AppendLabelled(parts, PlateLabel, plates);
    parts := AppendLabelled(parts, ReferenceLabel, refs);
    parts := parts + [TextPart(ClosingText)];
  }

  /** An image-generation request's parts: the prompt, then every image inline. */
  function ImageParts(prompt: string, images: seq<ImageFile>): seq<Part>
  {
    [TextPart(prompt)] + InlineParts(images)
  }

  lemma {:induction false} ImagePartsLayout(prompt: string, images: seq<ImageFile>)
    ensures var p := ImageParts(prompt, images);
      && |p| == 1 + |images|
      && p[0] == TextPart(prompt)
      && (forall i :: 0 <= i < |images| ==> p[1 + i] == InlinePart(images[i]))
  {
    var p := ImageParts(prompt, images);
    forall i | 0 <= i < |images| ensures p[1 + i] == InlinePart(images[i]) {
      InlinePartsAt(images, i);
    }
  }

  /** With the images given as text plates followed by reference images, the plates come
      first and the references after them, each group in its own order. */
  lemma {:induction false} ImagePartsPlatesFirst(prompt: string, plates: seq<ImageFile>, refs: seq<ImageFile>)
    ensures var p := ImageParts(prompt, plates + refs);
      && |p| == 1 + |plates| + |refs|
      && (forall i :: 0 <= i < |plates| ==> p[1 + i] == InlinePart(plates[i]))
      && (forall i :: 0 <= i < |refs| ==> p[1 + |plates| + i] == InlinePart(refs[i]))
  {
    var all := plates + refs;
    ImagePartsLayout(prompt, all);
    forall i | 0 <= i < |plates| ensures ImageParts(prompt, all)[1 + i] == InlinePart(plates[i]) {
      assert all[i] == plates[i];
    }
    forall i | 0 <= i < |refs| ensures ImageParts(prompt, all)[1 + |plates| + i] == InlinePart(refs[i]) {
      assert all[|plates| + i] == refs[i];
    }
  }

  /** Builds `ImageParts` the way the services do. */
  method BuildImageParts(prompt: string, images: seq<ImageFile>) returns (parts: seq<Part>)
    ensures parts == ImageParts(prompt, images)
  {
    parts := [TextPart(prompt)];
    parts := AppendInline(parts, images);
  }

  /** The request both services send to generate an image from a prompt and images. */
  function ImageRequest(parts: seq<Part>): Request
  {
    Request(ImageModel, None, parts, Config(None, None, None, true))
  }

  /** The request both services send to engineer a prompt; only the instruction differs. */
  function EngineerRequest(parts: seq<Part>, instruction: Instruction): Request
  {
    Request(EngineerModel, Some("user"), parts, Config(Some(instruction), Some("application/json"), None, false))
  }

  // ---------------------------------------------------------------------------------------
  // Reading the response: `for (const part of parts) if (part.inlineData) return ...`

  /** The index of the first part at or after `from` that has inline data, or `|parts|`. */
  function FirstInlineFrom(parts: seq<Part>, from: nat): (k: nat)
    requires from <= |parts|
    ensures from <= k <= |parts|
    ensures forall i :: from <= i < k ==> parts[i].inlineData.None?
    ensures k < |parts| ==> parts[k].inlineData.Some?
    decreases |parts| - from
  {
    if from == |parts| || parts[from].inlineData.Some? then from else FirstInlineFrom(parts, from + 1)
  }

  /** The inline data of the first part that has any. */
  function FirstInline(parts: seq<Part>): Option<Blob>
  {
    var k := FirstInlineFrom(parts, 0);
    if k < |parts| then parts[k].inlineData else None
  }

  /** `FirstInline` finds nothing exactly when no part has inline data; otherwise it finds
      the data of a part that has some, and every part before that one has none. */
  lemma {:induction false} FirstInlineSpec(parts: seq<Part>)
    ensures FirstInline(parts).None? <==> forall i :: 0 <= i < |parts| ==> parts[i].inlineData.None?
    ensures FirstInline(parts).Some? ==>
      exists k :: 0 <= k < |parts| && parts[k].inlineData == FirstInline(parts) && FirstInlineFrom(parts, 0) == k
  {
    var k := FirstInlineFrom(parts, 0);
    if k < |parts| {
      assert parts[k].inlineData == FirstInline(parts);
    }
  }

  /** The `for ... of` loop with its early return. */
  method ScanFirstInline(parts: seq<Part>) returns (found: Option<Blob>)
    ensures found == FirstInline(parts)
  {
    var i := 0;
    while i < |parts|
      invariant 0 <= i <= |parts|
      invariant FirstInlineFrom(parts, 0) == FirstInlineFrom(parts, i)
    {
      if parts[i].inlineData.Some? {
        return parts[i].inlineData;
      }
      i := i + 1;
    }
    return None;
  }

  /** `data:image/png;base64,${data}`. */
  function PngDataUrl(data: string): string
  {
    "data:image/png;base64," + data
  }

  const NoImageMessage := "No image was generated by the model."

  /** `generateImage`'s answer to the model's outcome: a failed call fails the same way,
      the first inline part becomes a PNG data URL, and a reply without one is an error. */
  function ImageUrlFrom(o: Outcome<Response>): Outcome<string>
  {
    match o
    case Threw(e) => Threw(e)
    case Returned(response) =>
      match FirstInline(response.parts)
      case Some(blob) => Returned(PngDataUrl(blob.data))
      case None => Threw(Fail(NoImageMessage))
  }

  lemma {:induction false} ImageUrlFromSpec(o: Outcome<Response>)
    ensures o.Threw? ==> ImageUrlFrom(o) == Threw(o.error)
    ensures o.Returned? ==>
      (ImageUrlFrom(o).Returned? <==> exists i :: 0 <= i < |o.value.parts| && o.value.parts[i].inlineData.Some?)
    ensures o.Returned? && ImageUrlFrom(o).Returned? ==> ImageUrlFrom(o).value == PngDataUrl(FirstInline(o.value.parts).value.data)
    ensures o.Returned? && ImageUrlFrom(o).Threw? ==> ImageUrlFrom(o).error == Fail(NoImageMessage)
  {
    if o.Returned? {
      FirstInlineSpec(o.value.parts);
    }
  }

  /** Reads the model's outcome with the `for ... of` scan. */
  method ReadImageUrl(o: Outcome<Response>) returns (r: Outcome<string>)
    ensures r == ImageUrlFrom(o)
  {
    if o.Threw? {
      return Threw(o.error);
    }
    var found := ScanFirstInline(o.value.parts);
    match found
    case Some(blob) => r := Returned(PngDataUrl(blob.data));
    case None => r := Threw(Fail(NoImageMessage));
  }

  // ---------------------------------------------------------------------------------------
  // Reading the JSON reply of a prompt-engineering request

  const InvalidResponsePrefix := "The AI returned an invalid response. Please try again. Raw response: "

  /** The text that `JSON.parse` and the string concatenation see: `response.text`, or
      `undefined` (which both render as the word) when the reply has no text. */
  function RawText(text: Option<string>): string
  {
    text.GetOr("undefined")
  }

  /** `engineerPrompt`'s answer to the model's outcome: a failed call fails the same way;
      otherwise the reply's text is decoded by `decode` (`JSON.parse` with the cast to
      `EngineeredPrompt`, `None` where it throws), and a reply it rejects becomes an
      error carrying the raw text. `JSON.parse(undefined)` always throws, so a reply
      without text is rejected without decoding. */
  function ParseEngineered(o: Outcome<Response>, decode: string -> Option<EngineeredPrompt>): Outcome<EngineeredPrompt>
  {
    match o
    case Threw(e) => Threw(e)
    case Returned(response) =>
      var raw := RawText(response.text);
      var decoded := if response.text.Some? then decode(response.text.value) else None;
      match decoded
      case Some(p) => Returned(p)
      case None => Threw(Fail(InvalidResponsePrefix + raw))
  }

  /** A failed call passes through unchanged; a reply succeeds exactly when it has text and
      that text decodes, with the decoded value; any other reply fails with a message that
      starts with the fixed prefix and ends with the raw reply (the word `undefined` for a
      reply without text), so the reply can be read back from it. */
  lemma {:induction false} ParseEngineeredSpec(o: Outcome<Response>, decode: string -> Option<EngineeredPrompt>)
    ensures o.Threw? ==> ParseEngineered(o, decode) == Threw(o.error)
    ensures o.Returned? ==>
      var raw := RawText(o.value.text);
      var r := ParseEngineered(o, decode);
      && (r.Returned? <==> o.value.text.Some? && decode(raw).Some?)
      && (r.Returned? ==> r.value == decode(raw).value)
      && (o.value.text.None? ==> r == Threw(Fail(InvalidResponsePrefix + "undefined")))
      && (r.Threw? ==>
            && r.error.message.Some?
            && var m := r.error.message.value;
            && |m| == |InvalidResponsePrefix| + |raw|
            && m[..|InvalidResponsePrefix|] == InvalidResponsePrefix
            && m[|InvalidResponsePrefix|..] == raw)
  {
    if o.Returned? {
      var raw := RawText(o.value.text);
      var m := InvalidResponsePrefix + raw;
      assert m[..|InvalidResponsePrefix|] == InvalidResponsePrefix;
      assert m[|InvalidResponsePrefix|..] == raw;
    }
  }
}
