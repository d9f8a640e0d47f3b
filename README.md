# Datagen: input validation and comment-header readers

This project models two small, deterministic parts of the Datagen test
harnesses for the NearTree nearest-neighbour index. Both are written in
Dafny and proved.

- **The input-dimension validator** of the radius benchmark
  (`testInputVector`, module `InputCheck`). It scans the vectors read from
  the CSV input and keeps the largest and smallest dimension seen so far. It
  accepts the data set only when the two agree and are positive. Each vector
  is modelled only by its `dim`, a 32-bit C++ `int` (newtype `Int32`).
  The `vecN` header is not part of this model; `int` is inferred from the
  `%d` that prints `v[0].dim` at src/NNStat.cpp:68-69. The
  `INT_MIN`/`INT_MAX` starting values are explicit. The method is proved
  against the spec functions `MaxDim`/`MinDim`, and against the direct
  characterisation `Consistent`. `Consistent` says "non-empty, every dimension
  equal to the first, and that dimension positive". The verdict is proved
  independent of the order of the vectors.
- **The comment-header readers** of the 2-D SVG plotter (`GetRadius`,
  `GetMinValue`, `GetMaxValue`, `GetType`, module `CommentHeader`). Each reader
  runs the same steps:
  1. Scan the comment lines for the first one that contains a key
     (`"Radius"`, `"min"`, `"max"`, `"Delone"`). The match is a case-sensitive
     substring test, as in `std::string::find`.
  2. Read that line with an input string stream. The stream is a class,
     `InputStringStream`, with fields for the read position and the fail flag.
     `Extract` models `>> std::string`: it skips white space (C locale) and
     reads a maximal run of non-blank characters. When there is none, the
     stream fails and the target keeps its old value.
  3. Skip a fixed number of tokens, then keep the next one (or the next two
     for `GetType`).

  The pure function `Tokens` gives what a sequence of extractions delivers.
  `FirstContaining` gives the first matching line. The methods are proved
  equal to spec functions built from these two.

The numeric conversion `>> double` is abstracted. A numeric reader returns
`Some(token)` for the token the number would be read from. It returns `None`
when no line matches or the matching line is too short. In the source, `None`
corresponds to one of two things:

- `DBL_MAX`, which `GetRadius` starts with;
- the uninitialised local of `GetMinValue`/`GetMaxValue`.

In both cases the C++ extraction fails before it stores anything.

The documented header lines (src/svg_2D.cpp:116-118) are modelled as
`DeloneLine`, `RadiusLine` and `SellaLine`. Each is built from its fixed words
and its values, and lemmas prove the fixed part equal to the quoted text. The
model assumes that a comment line is stored with its leading `#`, as printed.
That is the only reading under which the fixed token positions select the
values, and the one under which the readers actually called, `GetRadius` and
`GetType` (src/svg_2D.cpp:145-146), work. There is evidence the other way:
`OutputComments` (src/svg_2D.cpp:27) prints every stored comment behind
`"# "`, which hints that the `#` is stripped on input. Under either reading
`GetMinValue` and `GetMaxValue` read the same field
(`MinAndMaxShareTheirField`). So the finding below, that one of them reads the
wrong field, does not depend on the assumption; only which one is wrong does.

## Model

| member | source | states |
|---|---|---|
| `InputCheck.TestInputVector` | src/RadiusTest.cpp:94-108 | returns true exactly when the input is non-empty, every `dim` equals the first element's `dim`, and it is positive; equivalently when the running maximum equals the running minimum and is positive; loop invariant: the accumulators are the max/min of the prefix seen so far |
| `InputCheck.MaxDim` | src/RadiusTest.cpp:97-103 | the running maximum bounds every `dim`, is attained for a non-empty input, and is INT_MIN for an empty one |
| `InputCheck.MinDim` | src/RadiusTest.cpp:98-104 | the running minimum is below every `dim`, is attained for a non-empty input, and is INT_MAX for an empty one |
| `InputCheck.AcceptsIffConsistent` | src/RadiusTest.cpp:97-107 | both directions: `maxDim == minDim && maxDim > 0` holds iff the input is non-empty with all dimensions equal and positive, so the sentinels never cause acceptance |
| `InputCheck.EmptyRejected` | src/RadiusTest.cpp:97-98 | on an empty input the two accumulators stay INT_MIN and INT_MAX, so they differ and the input is rejected |
| `InputCheck.SingleAcceptedIffPositive` | src/RadiusTest.cpp:100-107 | a one-vector input is accepted iff its dimension is positive |
| `InputCheck.PermutationInvariant` | src/RadiusTest.cpp:100-107 | two inputs with the same multiset of vectors get the same verdict |
| `CommentHeader.FirstContaining` | src/svg_2D.cpp:74-75 | None iff no line contains the key; otherwise the index of a line that contains it, with no earlier line containing it |
| `CommentHeader.FirstLineContaining` | src/svg_2D.cpp:74-81 | the scan with `break` stops at exactly the first line containing the key, or finds none |
| `CommentHeader.InputStringStream.constructor` | src/svg_2D.cpp:76 | a fresh stream over the line will deliver exactly `Tokens(line)` |
| `CommentHeader.InputStringStream.Extract` | src/svg_2D.cpp:129-131 | `>> std::string`: delivers the next whitespace-separated token and consumes it; when none is left the stream fails and the target keeps its value |
| `CommentHeader.InputStringStream.SkipWhiteSpace` | src/svg_2D.cpp:129 | the skipping of leading white space changes no token still to come and stops at a non-blank or the end |
| `CommentHeader.InputStringStream.ScanWord` | src/svg_2D.cpp:129 | advances over one maximal run of non-blank characters |
| `CommentHeader.InputStringStream.Skip` | src/svg_2D.cpp:78 | `n` extractions drop the first `n` tokens still to come, or all of them |
| `CommentHeader.InputStringStream.ExtractNumber` | src/svg_2D.cpp:79 | `>> double` with the conversion abstracted: the next token, or the old value when there is none; the stream state afterwards is left unspecified |
| `CommentHeader.ReadField` | src/svg_2D.cpp:71-83 | the shared shape of the numeric readers: the token at a fixed position of the first line containing the key, else None |
| `CommentHeader.GetRadius` | src/svg_2D.cpp:71-83 | token 4 of the first line containing "Radius"; None (the DBL_MAX sentinel) without such a line or token |
| `CommentHeader.GetMinValue` | src/svg_2D.cpp:85-97 | token 5 of the first line containing "min"; None (unassigned) otherwise |
| `CommentHeader.GetMaxValue` | src/svg_2D.cpp:99-113 | token 5 of the first line containing "max", as written; None (unassigned) otherwise |
| `CommentHeader.GetMaxValueCorrected` | src/svg_2D.cpp:104-108 | token 6 of the first line containing "max": the field that follows the minimum |
| `CommentHeader.GetType` | src/svg_2D.cpp:121-135 | tokens 7 and 8 of the first line containing "Delone", joined by one blank, each empty when missing |
| `CommentHeader.FirstMatchDecides` | src/svg_2D.cpp:74-81 | any comment list agreeing up to and including the first matching line has the same first match |
| `CommentHeader.LaterLinesIgnored` | src/svg_2D.cpp:71-135 | all four readers consult only the first matching line: changing the lines after it changes nothing |
| `CommentHeader.AppendedLinesIgnored` | src/svg_2D.cpp:71-135 | appending lines after a matching one leaves every reader's result unchanged |
| `CommentHeader.NoMatchingLine` | src/svg_2D.cpp:71-135 | without a matching line a numeric reader gives None and `GetType` gives exactly " " |
| `CommentHeader.ShortMatchingLine` | src/svg_2D.cpp:121-134 | a matching line with too few tokens is not an error: None for a numeric field, empty strings for missing `GetType` tokens |
| `CommentHeader.MinAndMaxShareTheirField` | src/svg_2D.cpp:85-113 | when "min" and "max" first occur on the same line, `GetMinValue` and `GetMaxValue` deliver the same token |
| `CommentHeader.KeyFoundAnywhere` | src/svg_2D.cpp:75 | the key is found wherever it sits in the line, not only as a whole token |
| `CommentHeader.KeyInsideWord` | src/svg_2D.cpp:89 | a key that is part of a longer word (as "min" in "min/max") is found |
| `CommentHeader.KeyNeedsItsFirstCharacter` | src/svg_2D.cpp:75 | matching is case-sensitive: a line lacking the key's first character, in that case, does not match |
| `CommentHeader.LowerCaseRadiusIgnored` | src/svg_2D.cpp:75 | a line spelled "# radius of confusion ..." does not match "Radius" |
| `CommentHeader.DeloneHeadText` | src/svg_2D.cpp:116 | the fixed words of the Delone line spell "# Title Delone variety and input centering " |
| `CommentHeader.RadiusHeadText` | src/svg_2D.cpp:117 | the fixed words of the radius line spell "# Radius of confusion " |
| `CommentHeader.SellaHeadText` | src/svg_2D.cpp:118 | the fixed words of the min/max line spell "# min/max best Sella values " |
| `CommentHeader.DeloneLineTokens` | src/svg_2D.cpp:116 | the documented Delone line splits into its seven fixed words, the variety and the centering |
| `CommentHeader.RadiusLineTokens` | src/svg_2D.cpp:117 | the documented radius line splits into its four fixed words and the radius |
| `CommentHeader.SellaLineTokens` | src/svg_2D.cpp:118 | the documented min/max line splits into its five fixed words, the minimum and the maximum |
| `CommentHeader.TypeOfDeloneLine` | src/svg_2D.cpp:115-135 | on the documented Delone line, the first such line, `GetType` yields "<variety> <centering>" |
| `CommentHeader.RadiusOfRadiusLine` | src/svg_2D.cpp:71-119 | on the documented radius line, the first such line, `GetRadius` reads the radius value |
| `CommentHeader.SellaLineHasKeys` | src/svg_2D.cpp:118 | the documented min/max line contains both "min" and "max" |
| `CommentHeader.MinAndMaxOfSellaLine` | src/svg_2D.cpp:85-118 | on the documented min/max line both `GetMinValue` and `GetMaxValue` read the minimum |
| `CommentHeader.MaxReadsMinimumExample` | src/svg_2D.cpp:99-118 | on "# min/max best Sella values 1.5  2.5" `GetMaxValue` gives "1.5" and the corrected reader "2.5" |
| `CommentHeader.IntendedMaxOfSellaLine` | src/svg_2D.cpp:99-118 | on the documented min/max line the corrected reader yields the maximum |
| `CommentHeader.TokensSkipSpace` | src/svg_2D.cpp:78 | leading white space never changes the tokens a stream delivers |
| `CommentHeader.WordLength` | src/svg_2D.cpp:129 | the length of the longest blank-free prefix: all characters before it are non-blank and the one at it, if any, is blank |
| `CommentHeader.Tokens` | src/svg_2D.cpp:129-131 | every token delivered is a non-empty run of non-blank characters |

## Left out

- The nearest-neighbour tree `CNearTree` (insertion, delayed and random insertion, the nearest, k-nearest and farthest queries, depth and the dimension, diameter and spacing estimators). Its implementation, `tnear.h`, is not part of this model. The files here only call it.
- `testGeneral` and every `main`: benchmark loops, timing, printf reports and argument parsing. These are I/O drivers.
- SVG output (`OutputComments`, `OutputData_2D`, `SVG_Line_Output`, `SVG_Color_Output`). It is standard-output I/O plus double-precision scaling.
- `SetColors`, `ColorRange` and the Cividis colour map. They are float-to-colour mapping, and their bodies are not part of this model.
- The quasi-random generators declared in src/hammersley.h. They are declarations only, and floating point.
- The CSV readers `ReadGeneralFile`, `ReadXYZColor` and `ReadXYColor`. `Data2CSV.h` is not part of this model. So the text of a stored comment line is assumed, as described above.
- CommentHeader.GetRadius: the `double` conversion of the selected token is not modelled. That includes the C++11 rule that stores 0 for a non-numeric token. The result is the token it would be read from.
- CommentHeader.GetMinValue: as for GetRadius, the token is returned in place of the number. The unassigned result is `None`.
- CommentHeader.GetMaxValue: as for GetMinValue.
- CommentHeader.InputStringStream.ExtractNumber: the stream state after the numeric read is not modelled. C++ `num_get` may consume only a numeric prefix of the token, or store 0 and set the fail flag. No reader extracts anything after the number.
- InputCheck.TestInputVector: the 32-bit `unsigned int` loop index is not modelled. The model's index is unbounded, so it always ends with the verdict over every vector. With more than 4294967295 vectors the source's `++i` wraps to 0 and its loop never ends.
- The input vectors' coordinates. Only `dim` is read by the validator. The read-only `const &` parameter is a Dafny value, so the input plainly cannot change.

## Findings

| source | as written | input that shows it | evidently intended | confidence | as-written member | corrected member |
|---|---|---|---|---|---|---|
| src/svg_2D.cpp:107 | `GetMaxValue` skips five tokens, exactly like `GetMinValue`, so on the documented line "# min/max best Sella values minbest  maxbest" (src/svg_2D.cpp:118) it reads `minbest` | comment line `# min/max best Sella values 1.5  2.5`: `GetMaxValue` reads 1.5 | skip six tokens and read `maxbest` (2.5) | medium (`GetMaxValue` has no caller in the file), not executed | `CommentHeader.MinAndMaxOfSellaLine` | `CommentHeader.IntendedMaxOfSellaLine` |

The as-written reader is `CommentHeader.GetMaxValue`, specified by `MaxValueField`.
The corrected reader is `CommentHeader.GetMaxValueCorrected`, specified by
`IntendedMaxValueField`. `MaxReadsMinimumExample` shows both on the concrete
line above.
