# Shenobanana core, modelled in Dafny

Shenobanana is a browser app that turns a short prompt into an image. It works in four
steps:

1. It puts quotes around any text that should appear literally in the image.
2. It renders each quoted span onto a "text plate" PNG.
3. It asks a Gemini model to engineer a structured, professional prompt from the user's prompt, the plates and optional reference images.
4. It sends that prompt and the images to an image model.

Every Gemini call of the current service goes through `makeApiCall`. This wrapper keeps a pool of API keys and one cursor that persists across calls:

- On a success, the cursor moves on by one key.
- On a key-related failure (invalid key, quota), it moves on and tries again.
- On any other failure, the error is rethrown at once.
- After one retryable failure per key, the call fails with the "pool exhausted" error. The app's quota dialog recognises that error.

This project models that core and proves what it promises:

- `js.dfy` (module `Js`) models the JavaScript runtime pieces the code depends on:
  - the settled outcome of a promise and `Promise.all`;
  - `Array.prototype.slice(0, n)`;
  - `String.prototype.includes`, `trim` and `split`;
  - the decimal rendering of an index.
- `types.dfy` (module `Types`) holds the records and enumerations of `src/types.ts`.
- `key_rotation.dfy` (module `KeyRotation`) models `makeApiCall`:
  - `Rotate` is the reference definition of one call: its outcome, the cursor it leaves behind and the key indices it tried;
  - the class `KeyPool` holds the persistent cursor; its method `Call` runs the `while` loop and is proved equal to `Rotate` in all three: the outcome, the cursor and the key indices tried.
- `parts.dfy` (module `Parts`) builds the request part lists that both service files use, plus the shared reading of a model reply:
  - the engineer layout: a header, a label/data pair per plate and per reference, and the closing text;
  - the image layout: the prompt, then every image inline;
  - the `for ... of` scan for the first inline part;
  - the data URL of the generated image;
  - the JSON reply, with its error message.
- `gemini_service.dfy` (module `GeminiService`) models the current service: `addQuotesToPrompt`, `engineerPrompt`, `getGroundingImage` and `generateImage`, each through a `KeyPool`.
- `legacy_gemini_service.dfy` (module `LegacyGeminiService`) models the older service. It makes one call with no rotation, and its header has no aspect ratio.
- `plate_utils.dfy` (module `PlateUtils`) models `components/utils.ts`:
  - the regular expression `"([^"]+)"|'([^']+)'` scanned left to right without overlap;
  - the `match[1] || match[2]` / `filter(Boolean)` step;
  - plate names;
  - the `split(',')[1]` of `fileToBase64`;
  - the error branches of `generatePlate`;
  - `extractTextAndGeneratePlates`.
- `reference_images.dfy` (module `ReferenceImages`) models the reference-image list of `ReferenceImageUploader.tsx`: appending selected files and cutting the list to ten, then removing by position. The two copies of the component (`src/components/` and `components/`) have the same list logic, and both are modelled by these members.

Parts of the code that have no Dafny counterpart become parameters:

- The model endpoint is an oracle:
  - `(request, attempt, key) -> outcome` for the current service;
  - `request -> outcome` for the older one.
- `JSON.parse` with its cast is a function `decode: string -> Option<EngineeredPrompt>`.
- The canvas is a function from a text to a `Rendering` (no context, no blob, or a blob whose read settles with some outcome).
- A `FileReader` is the outcome of its read.

## Model

| member | source | states |
|---|---|---|
| Js.All | components/utils.ts:99 | resolves exactly when every promise resolves, with all their values in order; otherwise rejects with the error of one of the rejected promises |
| Js.Take | src/components/ReferenceImageUploader.tsx:27 | `slice(0, n)` has length `min(|s|, n)` and is a prefix of `s` |
| Js.PrefixIsContained | src/App.tsx:82 | `Contains` (`includes`): a string includes each of its prefixes |
| Js.EmptyContainsOnlyEmpty | src/services/geminiService.ts:82-86 | `Contains` (`includes`): the empty string includes no non-empty string |
| Js.Trim | src/services/geminiService.ts:155 | the trimmed string is the input with only a whitespace prefix and a whitespace suffix removed, and it neither starts nor ends with whitespace |
| Js.TrimEmptyIffBlank | src/services/geminiService.ts:138-140 | `trim()` gives the empty string exactly when the input is all whitespace |
| Js.TrimIdempotent | src/services/geminiService.ts:155-157 | trimming a trimmed string changes nothing |
| Js.Split | components/utils.ts:16 | `split(sep)` yields at least one field and no field contains the separator |
| Js.JoinSplit | components/utils.ts:16 | joining the fields of a split with the separator gives the string back |
| Js.SplitJoin | components/utils.ts:16 | splitting a joined list of separator-free fields gives the fields back |
| Js.NatToString | components/utils.ts:61 | `${n}` is a non-empty run of decimal digits, a single digit exactly when `n < 10` |
| Js.NatToStringValue | components/utils.ts:61 | `NatToString`: the digits of `${n}` denote `n` in decimal, and there is no leading zero unless `n` is zero |
| Js.NatToStringInjective | components/utils.ts:61 | different numbers print differently |
| Types.AspectRatioValue | src/types.ts:49-53 | the aspect ratio's value is one of `1:1`, `16:9`, `9:16` |
| Types.AspectRatioValueInjective | src/types.ts:49-53 | `AspectRatioValue` (square `1:1`, landscape `16:9`, portrait `9:16`): different aspect ratios print different values |
| KeyRotation.MessageOf | src/services/geminiService.ts:77 | `error.message \|\| ''` is the message when there is one and the empty string otherwise |
| KeyRotation.NoMessageIsNotRetryable | src/services/geminiService.ts:77-86 | `IsRetryable` (a message that `includes` one of the four key-related signatures): an error without a message, or with an empty one, is never key-related |
| KeyRotation.ExhaustedError | src/services/geminiService.ts:103-106 | the exhausted error carries the fixed message and the last failure as its cause |
| KeyRotation.ExhaustedErrorIsRecognised | src/App.tsx:82 | the exhausted error's message contains the marker the app's quota check looks for |
| KeyRotation.Next | src/services/geminiService.ts:73 | moving the cursor on stays in the pool and wraps from the last key to the first |
| KeyRotation.KeyIndexIsMod | src/services/geminiService.ts:91 | the cursor moved on `j` times from `start` is `(start + j) % n` |
| KeyRotation.KeyIndexFullTurn | src/services/geminiService.ts:63-67 | after one move per key the cursor is back where it started |
| KeyRotation.KeyIndexDistinct | src/services/geminiService.ts:63-67 | fewer than `n` moves from the same start never reach the same key twice |
| KeyRotation.KeyIndexAvoids | src/services/geminiService.ts:73 | starting just after key `a`, fewer than `n - 1` further moves never land on `a` |
| KeyRotation.FirstStop | src/services/geminiService.ts:67-98 | the first attempt that does not fail retryably: every earlier attempt failed retryably, and it did not (or every attempt did) |
| KeyRotation.Rotate | src/services/geminiService.ts:60-108 | one call leaves the cursor in the pool and tries between one key and one key per pool entry |
| KeyRotation.RotateTriesEachKeyAtMostOnce | src/services/geminiService.ts:63-92 | the keys tried are consecutive from the cursor, `(start + j) % n`, and pairwise distinct |
| KeyRotation.RotateSucceedsAfterRetries | src/services/geminiService.ts:71-74 | after `k` retryable failures a success returns its value unchanged and leaves the cursor on the key after it |
| KeyRotation.RotateStopsOnFatalError | src/services/geminiService.ts:93-96 | a failure that is not key-related is rethrown as it is, with no further attempt, and leaves the cursor on the key that failed |
| KeyRotation.RotateExhaustsPool | src/services/geminiService.ts:100-107 | when every key fails retryably, each is tried once; the call fails with the exhausted error, whose cause is the last failure, and the cursor is back at its start |
| KeyRotation.RotateOutcomeIsLastAttempt | src/services/geminiService.ts:67-98 | a call's outcome is that of its last attempt, unless the pool was exhausted |
| KeyRotation.RotateSuccessAdvancesCursor | src/services/geminiService.ts:72-73 | a successful call leaves the cursor on the key after the one that succeeded |
| KeyRotation.SuccessiveCallsUseDifferentKeys | src/services/geminiService.ts:72-73 | with two or more keys, two successive successful calls succeed with different keys unless the second went all the way round |
| KeyRotation.KeyPool.constructor | src/services/geminiService.ts:58 | a new pool has its cursor on the first key |
| KeyRotation.KeyPool.TryKey | src/services/geminiService.ts:68-92 | one attempt is made with the key under the cursor; a success or a retryable failure moves the cursor on, and any other failure leaves it |
| KeyRotation.KeyPool.Call | src/services/geminiService.ts:60-108 | the loop returns exactly the outcome of `Rotate`, leaves the cursor where `Rotate` says, and its attempts use exactly the key indices `Rotate` lists as tried |
| Parts.LabelledPairs | src/services/geminiService.ts:233-243 | the `forEach` pushes exactly two parts per image |
| Parts.LabelledPairsAt | src/services/geminiService.ts:233-255 | `Label` and `LabelledPairs`: image `i`'s label `${kind} ${i + 1} (${name}):` is at position `2i` and its data right after it |
| Parts.AppendLabelled | src/services/geminiService.ts:233-243 | the loop appends the label and data parts of every image, in order, to what was there |
| Parts.InlineParts | src/services/geminiService.ts:337-344 | one inline part per image |
| Parts.InlinePartsAt | src/services/geminiService.ts:337-344 | image `i` becomes inline part `i`, with its MIME type and base64 data |
| Parts.AppendInline | src/services/geminiService.ts:337-344 | the loop appends the inline part of every image, in order |
| Parts.EngineerPlateAt | src/services/geminiService.ts:233-243 | plate `i`'s label is part `1 + 2i` and the plate itself part `2 + 2i` |
| Parts.EngineerReferenceAt | src/services/geminiService.ts:245-255 | reference `i`'s label is part `1 + 2|plates| + 2i` and the image the part after it |
| Parts.EngineerPartsEnds | src/services/geminiService.ts:227-259 | `EngineerParts`: the header comes first, the closing text last, `2 + 2(|plates| + |refs|)` parts in all |
| Parts.EngineerPartsPlates | src/services/geminiService.ts:233-243 | every plate's label is immediately followed by that plate's data |
| Parts.EngineerPartsReferences | src/services/geminiService.ts:245-255 | every reference's label is immediately followed by that image's data, after all plates |
| Parts.BuildEngineerParts | src/services/geminiService.ts:227-259 | the pushes build exactly the engineer layout |
| Parts.ImagePartsLayout | src/services/geminiService.ts:336-344 | `ImageParts`: the prompt is the first part and image `i` is part `1 + i`: `1 + |images|` parts |
| Parts.ImagePartsPlatesFirst | src/services/geminiService.ts:335-344 | with `[...plates, ...refs]`, every plate precedes every reference, both in their own order |
| Parts.BuildImageParts | src/services/geminiService.ts:336-344 | the pushes build exactly the image layout |
| Parts.FirstInlineFrom | src/services/geminiService.ts:356-357 | the index found has inline data and no part before it (from the start point) has any |
| Parts.FirstInlineSpec | src/services/geminiService.ts:356-362 | the scan finds nothing exactly when no part has inline data; otherwise it finds the earliest part's data |
| Parts.ScanFirstInline | src/services/geminiService.ts:356-362 | the `for ... of` loop with its early return finds exactly the first inline payload |
| Parts.ImageUrlFromSpec | src/services/geminiService.ts:356-364 | `ImageUrlFrom`: a failed call fails the same way; a reply gives a URL exactly when some part has inline data, and the URL is `data:image/png;base64,` followed by the first payload; otherwise the fixed "No image" error |
| Parts.ReadImageUrl | src/services/geminiService.ts:356-364 | reading a reply with the loop gives the answer above |
| Parts.ParseEngineeredSpec | src/services/geminiService.ts:277-287 | `ParseEngineered`: a failed call passes through; a reply succeeds exactly when it has text and that text decodes, and otherwise fails with the fixed prefix followed by the raw text (`undefined` for a reply with no text, which `JSON.parse` always rejects) |
| GeminiService.QuoteFallbackSpec | src/services/geminiService.ts:155-165 | `QuoteFallback` returns the model's trimmed reply exactly when the call returned text that does not trim to nothing; a failed call, a reply without text or a blank reply gives the original prompt |
| GeminiService.QuoteFallbackNeverBlank | src/services/geminiService.ts:138-165 | a prompt that is not all whitespace never comes back blank, whatever the model does |
| GeminiService.AddQuotesToPrompt | src/services/geminiService.ts:135-166 | a blank prompt returns unchanged with no call and the cursor untouched; anything else goes through the pool with the quote request, and the reply is read by the fallback rule |
| GeminiService.SystemInstructionFor | src/services/geminiService.ts:261-264 | the video instruction exactly for a video target, the image instruction exactly for an image target |
| GeminiService.EngineerPromptRequestLayout | src/services/geminiService.ts:227-275 | the request goes to `gemini-2.5-pro` with a JSON reply; its first part carries the prompt and the aspect ratio, a pair per plate and per reference follows, and the closing text is last |
| GeminiService.EngineerPrompt | src/services/geminiService.ts:220-288 | the result is the JSON reading of the outcome of one pooled call with that request, and the cursor is that call's cursor |
| GeminiService.GroundingFromSpec | src/services/geminiService.ts:309-327 | `GroundingFrom`: a reply yields an image exactly when some part has inline data; the image carries the first payload and is a PNG named `grounding_reference.png`; otherwise the fixed error; a failed call passes through |
| GeminiService.GetGroundingImage | src/services/geminiService.ts:290-328 | one pooled image request with the grounding prompt, its reply read as above |
| GeminiService.GenerateImage | src/services/geminiService.ts:330-365 | one pooled image request whose parts are the prompt, the plates and then the references; the result is the first inline payload as a PNG data URL |
| LegacyGeminiService.SystemInstructionFor | services/geminiService.ts:98-101 | the older video instruction exactly for a video target, the older image instruction exactly for an image target |
| LegacyGeminiService.EngineerPromptRequestLayout | services/geminiService.ts:68-96 | the first part is exactly `User's simple prompt: ` and the prompt; then a label/data pair per plate and per reference; the closing text is last |
| LegacyGeminiService.EngineerPrompt | services/geminiService.ts:60-123 | one call with that request, read as JSON; a failure propagates |
| LegacyGeminiService.GenerateImage | services/geminiService.ts:125-158 | one call with the prompt and every image inline in the given order; the first inline payload as a PNG data URL |
| PlateUtils.NextIndexOf | components/utils.ts:86 | the index found holds the character and none before it (from the start point) does |
| PlateUtils.QuotedAt | components/utils.ts:86 | a match of one alternative starts at the position, uses that quote and closes inside the string at least two characters later |
| PlateUtils.QuotedAtSpec | components/utils.ts:86 | the alternative `q([^q]+)q` matches exactly the span starting there that is a quote, one or more non-quote characters and a quote |
| PlateUtils.MatchAt | components/utils.ts:86 | a match of the whole expression starts at the position and ends before the string does |
| PlateUtils.MatchAtSpec | components/utils.ts:86 | the expression matches at a position exactly when a double- or single-quoted span starts there; the text is non-empty, lies between the quotes and has no quote of its kind |
| PlateUtils.ScanFrom | components/utils.ts:86-87 | `matchAll`'s matches start at or after the start position and close inside the string |
| PlateUtils.ScanMatchAt | components/utils.ts:86-87 | each match found is exactly what the expression matches at its start |
| PlateUtils.ScanFromMatches | components/utils.ts:86-87 | every match found is what the expression matches at its start |
| PlateUtils.ScanOrderedAt | components/utils.ts:86-87 | each match starts after the closing quote of the one before it |
| PlateUtils.ScanFromOrdered | components/utils.ts:86-87 | the matches come left to right without overlapping |
| PlateUtils.ScanCovers | components/utils.ts:86-87 | a position where the expression matches lies within one of the matches found |
| PlateUtils.ScanFromComplete | components/utils.ts:86-87 | leftmost-first scanning skips no match outside the ones it found |
| PlateUtils.ScanTextsNonEmpty | components/utils.ts:86-89 | every captured text is non-empty and free of its own quote |
| PlateUtils.ScanEmptyIffNoSpan | components/utils.ts:86-93 | there are no matches exactly when the expression matches at no position |
| PlateUtils.EmptyPairSkipped | components/utils.ts:86 | an adjacent `""` captures nothing and the scan moves on by one character |
| PlateUtils.FilterKeepsEveryCapture | components/utils.ts:89 | `match[1] \|\| match[2]` picks the matching alternative's text and `filter(Boolean)` removes nothing |
| PlateUtils.ExtractTextsSpec | components/utils.ts:86-93 | `ExtractTexts`: the texts are the matches' captures in order, each non-empty and free of its own quote, and there are none exactly when no quoted span exists |
| PlateUtils.PlateNamesDistinct | components/utils.ts:61 | `PlateName`: different plate positions give different `text_plate_${i + 1}.png` names |
| PlateUtils.FileToBase64Spec | components/utils.ts:15-23 | `FileToBase64`: a read succeeds exactly when the reader succeeded and the data URL has a non-empty field after its first comma; the image carries that field, the file and its name; a reader failure passes through unchanged, and a bad data URL gives the fixed error |
| PlateUtils.FileToBase64ReadsPayload | components/utils.ts:15-18 | reading back `data:${type};base64,${payload}` gives exactly the payload |
| PlateUtils.GeneratePlateSpec | components/utils.ts:34-75 | `GeneratePlate` and `PlateName`: no context and no blob fail with their fixed messages; a rendered blob is read back by `FileToBase64` as the file `text_plate_${index + 1}.png` of type `image/png` |
| PlateUtils.PlateOutcomes | components/utils.ts:96 | one plate promise per text, plate `i` from text `i` at index `i` |
| PlateUtils.NoQuotesNoPlates | components/utils.ts:91-93 | `ExtractTextAndGeneratePlates`: a prompt with no quoted span yields the empty list, not an error |
| PlateUtils.PlatesFollowTexts | components/utils.ts:82-100 | `ExtractTextAndGeneratePlates`: on success there is one plate per text, in order, plate `i` being the plate generated from text `i` at position `i` and named `text_plate_${i + 1}.png`, with pairwise distinct names; a failure is one plate's failure |
| ReferenceImages.AddImagesSpec | src/components/ReferenceImageUploader.tsx:25-27 | `AddImages`: the new list is the first `min(10, |old| + |new|)` entries of old then new: never more than ten, the old list kept as a prefix and followed by the new images in selection order |
| ReferenceImages.FullListUnchanged | components/ReferenceImageUploader.tsx:27 | adding to a list of ten leaves it unchanged |
| ReferenceImages.AddNothingKeepsList | components/ReferenceImageUploader.tsx:20-27 | adding no files to a list of at most ten leaves it unchanged |
| ReferenceImages.ReadOutcomes | src/components/ReferenceImageUploader.tsx:21-23 | one read per selected file, in selection order |
| ReferenceImages.HandleImageChangeSpec | src/components/ReferenceImageUploader.tsx:19-30 | `HandleImageChange`: if some read fails the list stays as it was; if every read succeeds the new images, image `i` being file `i` as its own reader read it, are appended in order and the list is cut to ten; it never grows past ten, and a missing file list changes nothing |
| ReferenceImages.KeepOthersSpec | src/components/ReferenceImageUploader.tsx:33 | the index filter drops exactly the entry at the position, if it is in range, and keeps the rest in order |
| ReferenceImages.RemoveImageSpec | components/ReferenceImageUploader.tsx:32-34 | `RemoveImage`: removing an index in range deletes exactly that entry and keeps the others in order; an index out of range leaves the list unchanged |
| ReferenceImages.AtMostTenPreserved | src/components/ReferenceImageUploader.tsx:19-34 | from a list of at most ten, both handlers keep it at most ten long |

## Left out

- The Gemini SDK, the network and the models themselves are oracles: the outcome of each request (with its attempt and key) is a parameter.
- The long system-instruction texts are represented by tags (`Instruction`). Their wording is prose for the model and has no behaviour of its own.
- The 37 API keys in the source are not reproduced. `KeyPool` works for any non-empty pool.
- The older service reads its key from `process.env.API_KEY`, which is not modelled.
- `console.warn`, `console.log` and `console.error` output is left out.
- A reply is modelled by its `text` and the parts of its first candidate. A reply with no candidates makes `candidates[0].content` throw a `TypeError`, and that case is not modelled.
- `JSON.parse` and the unchecked `as EngineeredPrompt` cast are the `decode` parameter. Whether a decoded object really has the fields is not checked, just as in the source.
- The pixel drawing in `generatePlate` is the `render` parameter, which states only whether a context and a blob were obtained. This covers the canvas size, font and right-to-left text, and the separate Persian plate generator component.
- The `fetch`/`blob` round trip in `getGroundingImage` builds a `File` whose bytes are not modelled. Only its name and type are kept.
- `FileReader` is replaced by the outcome of its read.
- Concurrency is not modelled. Calls on the shared key cursor are taken one at a time; interleaved `makeApiCall`s are not, nor are the React state updates.
- The UI components and `App.tsx` are not modelled, beyond the quota-marker check at `src/App.tsx:82`.
- Js.All: which rejection `Promise.all` reports depends on timing. The model takes the lowest-indexed rejection, and its contract promises only that the error is one of the rejections.
- ReferenceImages.RemoveImage: the index is an integer. A fractional JavaScript number matches no position and so leaves the list unchanged; it is not modelled.
- Strings are sequences of characters. JavaScript's UTF-16 code units differ only for characters outside the Basic Multilingual Plane, which the quote expression does not treat specially.
