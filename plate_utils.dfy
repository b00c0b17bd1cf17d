/** Text plates: the quoted spans of a prompt are found by the regular expression
    `"([^"]+)"|'([^']+)'` (global, left to right), each span is drawn on a canvas and
    saved as a PNG named after its position, and each PNG is read back as base64 from the
    data URL a `FileReader` produces. */
module PlateUtils {
  import opened Js
  import opened Types

  const DoubleQuote := '"'
  const SingleQuote := '\''

  // ---------------------------------------------------------------------------------------
  // The regular expression, position by position

  /** The index of the first `c` at or after `from`, or `|s|` if there is none. */
  function NextIndexOf(s: string, c: char, from: nat): (j: nat)
    requires from <= |s|
    ensures from <= j <= |s|
    ensures forall k :: from <= k < j ==> s[k] != c
    ensures j < |s| ==> s[j] == c
    decreases |s| - from
  {
    if from == |s| || s[from] == c then from else NextIndexOf(s, c, from + 1)
  }

  /** `s[i..j + 1]` is `q`, at least one character other than `q`, then `q`: a span that
      the alternative `q([^q]+)q` matches at `i`. */
  predicate Span(s: string, i: nat, q: char, j: nat)
  {
    && i + 2 <= j < |s|
    && s[i] == q && s[j] == q
    && forall k :: i < k < j ==> s[k] != q
  }

  /** A match of the expression: where it starts, which quote it used, and the index of its
      closing quote. The captured text lies strictly between the two. */
  datatype Match = Match(start: nat, quote: char, close: nat)

  /** The match lies inside `s`, with at least one character between its quotes. */
  predicate Within(s: string, m: Match)
  {
    m.start + 2 <= m.close < |s|
  }

  /** The captured text of a match. */
  function Text(s: string, m: Match): string
    requires Within(s, m)
  {
    s[m.start + 1..m.close]
  }

  /** The alternative `q([^q]+)q` tried at `i`. Since `[^q]+` cannot cross `q`, it can only
      end at the next `q`, and it needs at least one character before it. */
  function QuotedAt(s: string, q: char, i: nat): (r: Option<Match>)
    requires i < |s|
    ensures r.Some? ==> r.value.start == i && r.value.quote == q && Within(s, r.value)
  {
    if s[i] != q then None
    else
      var j := NextIndexOf(s, q, i + 1);
      if j < |s| && i + 2 <= j then Some(Match(i, q, j)) else None
  }

  /** The alternative matches at `i` exactly the spans that start there: a match is such a
      span, and no match means no such span. */
  lemma {:induction false} QuotedAtSpec(s: string, q: char, i: nat)
    requires i < |s|
    ensures var r := QuotedAt(s, q, i);
      && (r.Some? ==> Span(s, i, q, r.value.close))
      && (r.None? ==> forall j :: !Span(s, i, q, j))
  {
    if s[i] == q {
      var j := NextIndexOf(s, q, i + 1);
      forall j' | Span(s, i, q, j') ensures j' == j { }
    }
  }

  /** The whole expression tried at `i`: the double-quote alternative first, then the
      single-quote one. */
  function MatchAt(s: string, i: nat): (r: Option<Match>)
    requires i < |s|
    ensures r.Some? ==> r.value.start == i && Within(s, r.value)
  {
    match QuotedAt(s, DoubleQuote, i)
    case Some(m) => Some(m)
    case None => QuotedAt(s, SingleQuote, i)
  }

  /** The expression matches at `i` exactly when a span of either quote starts there; the
      match is that span, and its text is non-empty and free of its quote. */
  lemma {:induction false} MatchAtSpec(s: string, i: nat)
    requires i < |s|
    ensures var r := MatchAt(s, i);
      && (r.Some? ==> && (r.value.quote == DoubleQuote || r.value.quote == SingleQuote)
                      && Span(s, i, r.value.quote, r.value.close)
                      && |Text(s, r.value)| >= 1 && r.value.quote !in Text(s, r.value))
      && (r.None? ==> forall j :: !Span(s, i, DoubleQuote, j) && !Span(s, i, SingleQuote, j))
  {
    QuotedAtSpec(s, DoubleQuote, i);
    QuotedAtSpec(s, SingleQuote, i);
    var r := MatchAt(s, i);
    if r.Some? {
      var m := r.value;
      var t := Text(s, m);
      forall k | 0 <= k < |t| ensures t[k] != m.quote {
        assert t[k] == s[i + 1 + k];
      }
    }
  }

  /** `matchAll` from position `i`: at each position try the expression; after a match go on
      just past its closing quote, otherwise one character further. The matches found start
      at or after `i` and lie inside `s`. */
  function ScanFrom(s: string, i: nat): (ms: seq<Match>)
    ensures forall k :: 0 <= k < |ms| ==> i <= ms[k].start && Within(s, ms[k])
    decreases |s| - i
  {
    if i >= |s| then []
    else
      match MatchAt(s, i)
      case Some(m) => [m] + ScanFrom(s, m.close + 1)
      case None => ScanFrom(s, i + 1)
  }

  /** Match `k` of the scan from `i` is what the expression matches at its start. */
  lemma {:induction false} ScanMatchAt(s: string, i: nat, k: nat)
    requires k < |ScanFrom(s, i)|
    ensures var m := ScanFrom(s, i)[k]; m.start < |s| && MatchAt(s, m.start) == Some(m)
    decreases |s| - i
  {
    var ms := ScanFrom(s, i);
    if MatchAt(s, i).Some? {
      var m := MatchAt(s, i).value;
      var rest := ScanFrom(s, m.close + 1);
      assert ms == [m] + rest;
      if k > 0 {
        ScanMatchAt(s, m.close + 1, k - 1);
        assert ms[k] == rest[k - 1];
      }
    } else {
      assert ms == ScanFrom(s, i + 1);
      ScanMatchAt(s, i + 1, k);
    }
  }

  /** Every match found is what the expression matches at its start. */
  lemma {:induction false} ScanFromMatches(s: string, i: nat)
    ensures var ms := ScanFrom(s, i);
      forall k :: 0 <= k < |ms| ==> ms[k].start < |s| && MatchAt(s, ms[k].start) == Some(ms[k])
  {
    forall k | 0 <= k < |ScanFrom(s, i)|
      ensures ScanFrom(s, i)[k].start < |s| && MatchAt(s, ScanFrom(s, i)[k].start) == Some(ScanFrom(s, i)[k])
    {
      ScanMatchAt(s, i, k);
    }
  }

  /** Match `k + 1` of the scan from `i` starts after the closing quote of match `k`. */
  lemma {:induction false} ScanOrderedAt(s: string, i: nat, k: nat)
    requires k + 1 < |ScanFrom(s, i)|
    ensures ScanFrom(s, i)[k].close < ScanFrom(s, i)[k + 1].start
    decreases |s| - i
  {
    var ms := ScanFrom(s, i);
    if MatchAt(s, i).Some? {
      var m := MatchAt(s, i).value;
      var rest := ScanFrom(s, m.close + 1);
      assert ms == [m] + rest;
      if k > 0 {
        ScanOrderedAt(s, m.close + 1, k - 1);
        assert ms[k] == rest[k - 1] && ms[k + 1] == rest[k];
      } else {
        assert ms[1] == rest[0];
      }
    } else {
      assert ms == ScanFrom(s, i + 1);
      ScanOrderedAt(s, i + 1, k);
    }
  }

  /** The matches come in order and do not overlap: each starts after the previous one's
      closing quote. */
  lemma {:induction false} ScanFromOrdered(s: string, i: nat)
    ensures var ms := ScanFrom(s, i);
      forall k :: 0 <= k < |ms| - 1 ==> ms[k].close < ms[k + 1].start
  {
    forall k | 0 <= k < |ScanFrom(s, i)| - 1 ensures ScanFrom(s, i)[k].close < ScanFrom(s, i)[k + 1].start {
      ScanOrderedAt(s, i, k);
    }
  }

  /** Position `p` lies within one of the matches (from its opening to its closing quote). */
  predicate Covered(ms: seq<Match>, p: nat)
  {
    exists k :: 0 <= k < |ms| && ms[k].start <= p <= ms[k].close
  }

  lemma CoveredCons(m: Match, rest: seq<Match>, p: nat)
    requires Covered(rest, p)
    ensures Covered([m] + rest, p)
  {
    var k :| 0 <= k < |rest| && rest[k].start <= p <= rest[k].close;
    assert ([m] + rest)[k + 1] == rest[k];
  }

  /** A position `p` from `i` on where the expression matches lies within one of the
      matches found from `i`. */
  lemma {:induction false} ScanCovers(s: string, i: nat, p: nat)
    requires i <= p < |s| && MatchAt(s, p).Some?
    ensures Covered(ScanFrom(s, i), p)
    decreases |s| - i
  {
    var ms := ScanFrom(s, i);
    if MatchAt(s, i).Some? {
      var m := MatchAt(s, i).value;
      var rest := ScanFrom(s, m.close + 1);
      assert ms == [m] + rest;
      if p <= m.close {
        assert ms[0].start <= p <= ms[0].close;
      } else {
        ScanCovers(s, m.close + 1, p);
        CoveredCons(m, rest, p);
      }
    } else {
      assert p != i;
      assert ms == ScanFrom(s, i + 1);
      ScanCovers(s, i + 1, p);
    }
  }

  /** Leftmost-first scanning skips nothing: every position from `i` on where the expression
      matches lies within one of the matches found. */
  lemma {:induction false} ScanFromComplete(s: string, i: nat)
    ensures var ms := ScanFrom(s, i);
      forall p :: i <= p < |s| && MatchAt(s, p).Some? ==> Covered(ms, p)
  {
    forall p | i <= p < |s| && MatchAt(s, p).Some? ensures Covered(ScanFrom(s, i), p) {
      ScanCovers(s, i, p);
    }
  }

  /** The matches' texts are non-empty and free of their own quote. */
  lemma {:induction false} ScanTextsNonEmpty(s: string, i: nat)
    ensures var ms := ScanFrom(s, i);
      forall k :: 0 <= k < |ms| ==> |Text(s, ms[k])| >= 1 && ms[k].quote !in Text(s, ms[k])
  {
    var ms := ScanFrom(s, i);
    forall k | 0 <= k < |ms| ensures |Text(s, ms[k])| >= 1 && ms[k].quote !in Text(s, ms[k]) {
      ScanMatchAt(s, i, k);
      MatchAtSpec(s, ms[k].start);
    }
  }

  /** No match at all exactly when the expression matches at no position. */
  lemma {:induction false} ScanEmptyIffNoSpan(s: string)
    ensures ScanFrom(s, 0) == [] <==> forall p :: 0 <= p < |s| ==> MatchAt(s, p).None?
  {
    var ms := ScanFrom(s, 0);
    ScanFromComplete(s, 0);
    if ms != [] {
      ScanMatchAt(s, 0, 0);
      assert MatchAt(s, ms[0].start).Some?;
    }
  }

  /** An empty pair `""` captures nothing: scanning moves on by one character. */
  lemma {:induction false} EmptyPairSkipped(s: string, i: nat)
    requires i + 1 < |s| && s[i] == DoubleQuote && s[i + 1] == DoubleQuote
    ensures ScanFrom(s, i) == ScanFrom(s, i + 1)
  {
    assert NextIndexOf(s, DoubleQuote, i + 1) == i + 1;
  }

  // ---------------------------------------------------------------------------------------
  // From matches to texts: `matches.map((match) => match[1] || match[2]).filter(Boolean)`

  /** The matches all lie inside `s`. */
  predicate AllWithin(s: string, ms: seq<Match>)
  {
    forall k :: 0 <= k < |ms| ==> Within(s, ms[k])
  }

  /** `match[1]`: the double-quote group, undefined for a single-quote match. */
  function Group1(s: string, m: Match): Option<string>
    requires Within(s, m)
  {
    if m.quote == DoubleQuote then Some(Text(s, m)) else None
  }

  /** `match[2]`: the single-quote group, undefined for a double-quote match. */
  function Group2(s: string, m: Match): Option<string>
    requires Within(s, m)
  {
    if m.quote == DoubleQuote then None else Some(Text(s, m))
  }

  /** `a || b` on a string that may be undefined: `a` unless it is undefined or empty. */
  function OrElse(a: Option<string>, b: Option<string>): Option<string>
  {
    if a.Some? && a.value != [] then a else b
  }

  function Captured(s: string, ms: seq<Match>): (r: seq<Option<string>>)
    requires AllWithin(s, ms)
    ensures |r| == |ms|
    decreases |ms|
  {
    if ms == [] then [] else [OrElse(Group1(s, ms[0]), Group2(s, ms[0]))] + Captured(s, ms[1..])
  }

  /** `filter(Boolean)`: keeps the defined, non-empty texts, in order. */
  function FilterBoolean(xs: seq<Option<string>>): seq<string>
    decreases |xs|
  {
    if xs == [] then []
    else if xs[0].Some? && xs[0].value != [] then [xs[0].value] + FilterBoolean(xs[1..])
    else FilterBoolean(xs[1..])
  }

  /** The texts `extractTextAndGeneratePlates` draws. */
  function ExtractTexts(prompt: string): seq<string>
  {
    FilterBoolean(Captured(prompt, ScanFrom(prompt, 0)))
  }

  /** The captured texts of the matches. */
  function TextsOf(s: string, ms: seq<Match>): (r: seq<string>)
    requires AllWithin(s, ms)
    ensures |r| == |ms|
    ensures forall k :: 0 <= k < |ms| ==> r[k] == Text(s, ms[k])
    decreases |ms|
  {
    if ms == [] then [] else [Text(s, ms[0])] + TextsOf(s, ms[1..])
  }

  /** With non-empty captures, `||` picks the group of the matching alternative and
      `filter(Boolean)` drops nothing. */
  lemma {:induction false} FilterKeepsEveryCapture(s: string, ms: seq<Match>)
    requires AllWithin(s, ms)
    requires forall k :: 0 <= k < |ms| ==> |Text(s, ms[k])| >= 1
    ensures FilterBoolean(Captured(s, ms)) == TextsOf(s, ms)
    decreases |ms|
  {
    if ms != [] {
      FilterKeepsEveryCapture(s, ms[1..]);
      assert Captured(s, ms)[1..] == Captured(s, ms[1..]);
    }
  }

  /** The extracted texts are the captures of the matches, in order: each non-empty and
      free of its own quote, and there are none exactly when no quoted span exists. */
  lemma {:induction false} ExtractTextsSpec(prompt: string)
    ensures var ms := ScanFrom(prompt, 0);
      var texts := ExtractTexts(prompt);
      && texts == TextsOf(prompt, ms)
      && (forall k :: 0 <= k < |texts| ==> |texts[k]| >= 1 && ms[k].quote !in texts[k])
      && (texts == [] <==> forall p :: 0 <= p < |prompt| ==> MatchAt(prompt, p).None?)
  {
    var ms := ScanFrom(prompt, 0);
    ScanTextsNonEmpty(prompt, 0);
    assert ms == ScanFrom(prompt, 0);
    FilterKeepsEveryCapture(prompt, ms);
    ScanEmptyIffNoSpan(prompt);
  }

  // ---------------------------------------------------------------------------------------
  // Plate naming

  /** `text_plate_${index + 1}.png`. */
  function PlateName(index: nat): string
  {
    "text_plate_" + NatToString(index + 1) + ".png"
  }

  /** Different positions give different file names. */
  lemma {:induction false} PlateNamesDistinct(i: nat, j: nat)
    requires i != j
    ensures PlateName(i) != PlateName(j)
  {
    var a, b := NatToString(i + 1), NatToString(j + 1);
    if PlateName(i) == PlateName(j) {
      var n := PlateName(i);
      assert |a| == |b|;
      assert a == n[11..11 + |a|];
      assert b == n[11..11 + |b|];
      NatToStringInjective(i + 1, j + 1);
    }
  }

  // ---------------------------------------------------------------------------------------
  // fileToBase64

  const ReadFailedMessage := "Failed to read file as base64."

  /** `fileToBase64(file)` once the reader has settled: `read` is the data URL it loaded or
      the error it reported. The base64 is the second comma-separated field, and a missing
      or empty one is an error. */
  function FileToBase64(file: FileRef, read: Outcome<string>): Outcome<ImageFile>
  {
    match read
    case Threw(e) => Threw(e)
    case Returned(dataUrl) =>
      var fields := Split(dataUrl, ',');
      if |fields| >= 2 && fields[1] != [] then Returned(ImageFile(file, fields[1], file.name))
      else Threw(Fail(ReadFailedMessage))
  }

  /** A successful read carries the file and its name and a base64 that is non-empty and
      free of commas; the read fails exactly when the reader failed, with the reader's own
      error, or the data URL has no non-empty field after its first comma, with the fixed
      message. */
  lemma {:induction false} FileToBase64Spec(file: FileRef, read: Outcome<string>)
    ensures var r := FileToBase64(file, read);
      && (r.Returned? <==> read.Returned? && |Split(read.value, ',')| >= 2 && Split(read.value, ',')[1] != [])
      && (r.Returned? ==> && r.value.file == file && r.value.name == file.name
                          && r.value.base64 == Split(read.value, ',')[1]
                          && r.value.base64 != [] && ',' !in r.value.base64)
      && (read.Returned? && r.Threw? ==> r.error == Fail(ReadFailedMessage))
      && (read.Threw? ==> r == Threw(read.error))
  {
  }

  /** `data:${mimeType};base64,${payload}`, the form `readAsDataURL` produces. */
  function DataUrl(mimeType: string, payload: string): string
  {
    "data:" + mimeType + ";base64," + payload
  }

  /** Reading back a data URL gives exactly its payload, for a MIME type and a base64
      payload, which contain no commas. */
  lemma {:induction false} FileToBase64ReadsPayload(file: FileRef, mimeType: string, payload: string)
    requires ',' !in mimeType && ',' !in payload && payload != []
    ensures FileToBase64(file, Returned(DataUrl(mimeType, payload))) == Returned(ImageFile(file, payload, file.name))
  {
    var head := "data:" + mimeType + ";base64";
    assert ',' !in head by {
      assert head == "data:" + mimeType + ";base64";
      forall k | 0 <= k < |head| ensures head[k] != ',' {
        if 5 <= k < 5 + |mimeType| {
          assert head[k] == mimeType[k - 5];
        }
      }
    }
    assert Join([head, payload], ',') == DataUrl(mimeType, payload);
    SplitJoin([head, payload], ',');
  }

  // ---------------------------------------------------------------------------------------
  // generatePlate and extractTextAndGeneratePlates

  /** How drawing a text on a fresh canvas ends: no 2D context, `toBlob` yielding `null`,
      or a PNG blob whose reading as a data URL settles with `read`. */
  datatype Rendering = NoContext | NoBlob | Rendered(read: Outcome<string>)

  const NoContextMessage := "Could not get canvas context"
  const NoBlobMessage := "Canvas toBlob failed."

  /** `generatePlate(text, index)`, with `render` standing for the canvas. */
  function GeneratePlate(text: string, index: nat, render: string -> Rendering): Outcome<ImageFile>
  {
    match render(text)
    case NoContext => Threw(Fail(NoContextMessage))
    case NoBlob => Threw(Fail(NoBlobMessage))
    case Rendered(read) => FileToBase64(FileRef(PlateName(index), "image/png"), read)
  }

  /** A plate is a PNG named after its position; it fails with the fixed message when there
      is no context or no blob, and otherwise it is the reading of the rendered blob as the
      file `text_plate_${index + 1}.png` of type `image/png`. */
  lemma {:induction false} GeneratePlateSpec(text: string, index: nat, render: string -> Rendering)
    ensures var r := GeneratePlate(text, index, render);
      && (render(text).NoContext? ==> r == Threw(Fail(NoContextMessage)))
      && (render(text).NoBlob? ==> r == Threw(Fail(NoBlobMessage)))
      && (r.Returned? ==> && render(text).Rendered?
                          && r.value.file == FileRef(PlateName(index), "image/png")
                          && r.value.name == PlateName(index))
      && (render(text).Rendered? ==> r == FileToBase64(FileRef(PlateName(index), "image/png"), render(text).read))
  {
  }

  /** One plate promise per text, in order, each named after its position. */
  function PlateOutcomes(texts: seq<string>, render: string -> Rendering): (r: seq<Outcome<ImageFile>>)
    ensures |r| == |texts|
    ensures forall i :: 0 <= i < |texts| ==> r[i] == GeneratePlate(texts[i], i, render)
  {
    seq(|texts|, i requires 0 <= i < |texts| => GeneratePlate(texts[i], i, render))
  }

  /** `extractTextAndGeneratePlates(prompt)`: no texts give no plates; otherwise
      `Promise.all` over the plate promises. */
  function ExtractTextAndGeneratePlates(prompt: string, render: string -> Rendering): Outcome<seq<ImageFile>>
  {
    var texts := ExtractTexts(prompt);
    if |texts| == 0 then Returned([]) else All(PlateOutcomes(texts, render))
  }

  /** A prompt without quoted spans yields no plates and no error. */
  lemma {:induction false} NoQuotesNoPlates(prompt: string, render: string -> Rendering)
    requires forall p :: 0 <= p < |prompt| ==> MatchAt(prompt, p).None?
    ensures ExtractTextAndGeneratePlates(prompt, render) == Returned([])
  {
    ExtractTextsSpec(prompt);
  }

  /** On success there is one plate per extracted text, in order, plate `i` being the plate
      generated from text `i` at position `i` and named
      `text_plate_${i + 1}.png`, so the names are pairwise distinct; on failure the error is
      that of one of the plates. */
  lemma {:induction false} PlatesFollowTexts(prompt: string, render: string -> Rendering)
    ensures var texts := ExtractTexts(prompt);
      var r := ExtractTextAndGeneratePlates(prompt, render);
      && (r.Returned? ==>
            && |r.value| == |texts|
            && (forall i :: 0 <= i < |texts| ==> GeneratePlate(texts[i], i, render) == Returned(r.value[i]))
            && (forall i :: 0 <= i < |texts| ==>
                  r.value[i].file == FileRef(PlateName(i), "image/png") && r.value[i].name == PlateName(i))
            && (forall i, j :: 0 <= i < j < |texts| ==> r.value[i].name != r.value[j].name))
      && (r.Threw? ==> exists i :: 0 <= i < |texts| && GeneratePlate(texts[i], i, render) == Threw(r.error))
  {
    var texts := ExtractTexts(prompt);
    var r := ExtractTextAndGeneratePlates(prompt, render);
    if r.Returned? && |texts| > 0 {
      var outcomes := PlateOutcomes(texts, render);
      forall i | 0 <= i < |texts|
        ensures r.value[i].file == FileRef(PlateName(i), "image/png") && r.value[i].name == PlateName(i)
      {
        GeneratePlateSpec(texts[i], i, render);
        assert outcomes[i] == Returned(r.value[i]);
      }
      forall i, j | 0 <= i < j < |texts| ensures r.value[i].name != r.value[j].name {
        PlateNamesDistinct(i, j);
      }
    }
  }
}
