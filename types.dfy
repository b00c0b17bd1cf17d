/** The records and enumerations that the service and utility code exchange. */
module Types {
  import opened Js

  /** A browser `File`, reduced to what the code reads from it: its name and MIME type.
      The bytes it wraps are not modelled. */
  datatype FileRef = FileRef(name: string, mimeType: string)

  /** An image ready to be sent to the model: the file, its payload in base64 and its name. */
  datatype ImageFile = ImageFile(file: FileRef, base64: string, name: string)

  datatype TargetModel = Image | Video

  datatype AspectRatio = Square | Landscape | Portrait

  /** The string value each `AspectRatio` member carries, as interpolated into prompts. */
  function AspectRatioValue(a: AspectRatio): (v: string)
    ensures v in {"1:1", "16:9", "9:16"}
  {
    match a
    case Square => "1:1"
    case Landscape => "16:9"
    case Portrait => "9:16"
  }

  /** The three aspect ratios print as three different values. */
  lemma {:induction false} AspectRatioValueInjective(a: AspectRatio, b: AspectRatio)
    requires AspectRatioValue(a) == AspectRatioValue(b)
    ensures a == b
  {
    assert AspectRatioValue(a)[..2] == AspectRatioValue(b)[..2];
  }

  /** The structured prompt that the prompt-engineering model returns as JSON. */
  datatype EngineeredPrompt = EngineeredPrompt(
    analysisNotes: string,
    stylisticNotes: string,
    professionalPrompt: string,
    textReplicationInstruction: string,
    negativePrompt: string,
    targetModel: string,
    groundingSearchQuery: Option<string>)
}
