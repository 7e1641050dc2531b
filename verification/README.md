# SehatAI clinic demo — verified model of the decision logic

The SehatAI demo is a single browser script (`docs/script.js`) that looks up a
patient by national ID (NIC), computes a mock risk score from a fixed rule
table, and prints a report. Almost all of it is DOM and file handling. This
project models the three pieces that decide anything, and proves what they
guarantee:

- **Risk evaluator** (`computeRiskScore`, module `Risk`): base 10, an age-band
  addend (+30 from 50, +20 from 40, +10 from 30), +30 when the lowercased
  medical history contains "diabetes" and, independently, +20 when it contains
  "hypertension", a clamp at 95, then a label and colour read off the score.
  `Risk.ComputeRiskScore` is written step by step like the script (successive
  additions, the clamp, label and colour overwritten) and is proved against the
  specification function `Risk.Score`. The raw sum never exceeds
  10 + 30 + 30 + 20 = 90 and is always a multiple of 10, so the clamp never fires.
  The explanation text embeds the same score, and reading it back gives the score.
- **Record lookup** (module `Lookup`): the fetch button trims the typed NIC,
  refuses an empty result before the dataset is read, and otherwise reads the
  dataset under exactly the trimmed text (`Lookup.FetchPatient`). The QR path
  uses the decoded text as it is, with no trimming (`Lookup.QrLookup`). The
  dataset is an immutable `map<string, Patient>` parameter.
- **HTML escaping** (`escapeHtml`, module `Escape`): three chained global
  replaces (`&`, then `<`, then `>`). They are proved equal to the per-character
  map `Escape.Escape`. Its output holds no `<` or `>`, every `&` in it begins
  `&amp;`, `&lt;` or `&gt;`, and `Escape.Unescape` undoes it. Every text of that
  shape is the escaping of its unescaping.

The JavaScript built-ins the logic calls are modelled in module `Text`:
`trim` strips a fixed set of white-space characters, `toLowerCase` lowercases
ASCII letters, `includes` is substring search, and a template literal prints a
number in decimal.

Files: `wrappers.dfy` (Option), `text.dfy`, `risk.dfy`, `lookup.dfy`, `escape.dfy`.

## Model

| member | source | states |
|---|---|---|
| Risk.ComputeRiskScore | docs/script.js:93-109 | The step-by-step evaluator returns the patient's score with the clamp at 95 changing nothing. The score is a multiple of 10 in [10, 90]. The label is the one the score calls for, the colour is that label's, and the explanation is exactly the template with the score printed in decimal, so it reads back as the returned score. |
| Risk.AgeAddend | docs/script.js:95-97 | +30 exactly when age >= 50, +20 exactly for 40..49, +10 exactly for 30..39, 0 exactly below 30; the boundary ages 30, 40 and 50 take the higher band. |
| Risk.HistoryText | docs/script.js:99 | The fallback of `p.medical_history` to `''`: a missing history reads as the empty string. What that means for the score is stated by Risk.EmptyHistoryAddsNothing. |
| Risk.HistoryAddend | docs/script.js:99-101 | The history addend is one of 0, 20, 30, 50. |
| Risk.HistoryAddendByOccurrence | docs/script.js:99-101 | The history adds 30 exactly when "diabetes" occurs somewhere in the lowercased history, plus 20 exactly when "hypertension" occurs; the two checks are independent and can both apply. |
| Risk.HistoryIgnoresCase | docs/script.js:99-101 | Histories with the same lowercase form add the same amount, and a history adds as much as its lowercase form. |
| Risk.EmptyHistoryAddsNothing | docs/script.js:99-101 | A missing or empty history adds nothing. |
| Risk.Score | docs/script.js:94-103 | Base plus both addends is a multiple of 10 between 10 and 90, so the clamp at 95 never changes it. |
| Risk.ScoreMonotoneInAge | docs/script.js:94-101 | With the history fixed, an older patient never scores lower. |
| Risk.LabelFor | docs/script.js:105-107 | Urgent exactly when score >= 70, Attention exactly for 40..69, Normal exactly below 40; 70 and 40 take the more severe label. |
| Risk.LabelMonotone | docs/script.js:105-107 | A higher score never gets a less severe label. |
| Risk.LabelText | docs/script.js:105-107 | The label is spelled "Normal", "Attention" or "Urgent". |
| Risk.ColorOf | docs/script.js:105-107 | Each label's colour is a `#rrggbb` token: `#` followed by six lower-case hexadecimal digits. |
| Risk.ColorAndTextAreInjective | docs/script.js:105-107 | Two labels have the same colour, or the same spelling, exactly when they are the same label. |
| Risk.Explanation | docs/script.js:108 | The template `Simple rule-based demo score (${score}%)`. Its meaning, that the score can be read back from it, is stated by Risk.ExplanationEmbedsScore, and Text.NatToString gives the digits without padding. |
| Risk.ExplanationEmbedsScore | docs/script.js:108 | Reading the score back out of the explanation text gives exactly the score it was built from. |
| Risk.ScenarioOlderDiabeticHypertensive | docs/script.js:93-109 | Age 55 with "Diabetes, Hypertension" scores 90: Urgent, red. |
| Risk.ScenarioYoungHealthy | docs/script.js:93-109 | Age 25 with an empty history scores 10: Normal, green. |
| Risk.ScenarioMiddleAgedHypertensive | docs/script.js:93-109 | Age 45 with "Hypertension" scores 50: Attention, amber. |
| Lookup.FetchPatient | docs/script.js:18-23 | A blank input, and only a blank one, is refused. Otherwise a record is found exactly when the trimmed input is a key, and it is the record under that key; "not found" carries the trimmed, non-empty, absent key. |
| Lookup.QrLookup | docs/script.js:34-38 | Nothing decoded or an empty text gives no lookup. Otherwise a record is found exactly when the decoded text, untrimmed, is a key, and it is the record under that key. |
| Lookup.BlankInputIgnoresDataset | docs/script.js:19-20 | A blank input gives the empty-input outcome whatever the dataset holds. |
| Lookup.FetchIgnoresPadding | docs/script.js:19-21 | White space typed around a NIC does not change the outcome. |
| Lookup.TypedAndScannedAgree | docs/script.js:19-37 | On an already-trimmed non-empty text, the typed and the scanned path find the same record. |
| Lookup.PaddedKeyOnlyScannable | docs/script.js:19-37 | A key that starts or ends with white space is never what a typed input trims to, yet the QR path finds it. |
| Text.IsSpace | docs/script.js:19 | The fixed ECMAScript white-space and line-terminator set that `trim` removes. Its use is stated by Text.Trim, Text.TrimIsInfix and Text.TrimIgnoresPadding. |
| Text.TrimStart | docs/script.js:19 | The result is a suffix of the input, what was cut is white space, and the result does not start with white space. |
| Text.TrimEnd | docs/script.js:19 | The result is a prefix of the input, what was cut is white space, and the result does not end with white space. |
| Text.Trim | docs/script.js:19 | The result is empty exactly when the input is blank, and otherwise starts and ends with a non-space. |
| Text.TrimIsInfix | docs/script.js:19 | The trimmed text is a contiguous slice of the input, and all that was cut on both sides is white space. |
| Text.TrimIgnoresPadding | docs/script.js:19 | Trimming a text with any white space added on either side gives the same result as trimming the text. |
| Text.TrimIdempotent | docs/script.js:19 | Trimming twice is trimming once. |
| Text.LowerChar | docs/script.js:99 | Upper-case ASCII letters move to lower case, every other character is kept, and no upper-case ASCII letter is left. |
| Text.ToLower | docs/script.js:99 | Lowercasing keeps the length and lowercases each character in place. |
| Text.ToLowerIdempotent | docs/script.js:99 | Lowercasing twice is lowercasing once. |
| Text.Contains | docs/script.js:100-101 | `includes` as a left-to-right scan. Its meaning, an occurrence at some index, is stated by Text.ContainsIffOccurs. |
| Text.ContainsIffOccurs | docs/script.js:100-101 | Substring search succeeds exactly when the keyword occurs at some position. |
| Text.AbsentFirstCharMeansAbsent | docs/script.js:100-101 | A keyword whose first character does not appear in the text is not found. |
| Text.EmptyContainsNothing | docs/script.js:99-101 | No non-empty keyword is found in the empty string. |
| Text.NatToString | docs/script.js:108 | The decimal rendering is a non-empty string of digits with no leading zero unless the number is 0. |
| Text.NatToStringRoundTrip | docs/script.js:108 | Reading back the decimal rendering of a number gives the number. |
| Escape.ReplaceAll | docs/script.js:160 | `replace(/c/g, rep)`: each occurrence of `c` replaced by `rep`. Its meaning is stated by Escape.ReplaceAllAbsent, Escape.ReplaceAllRemoves and Escape.ReplaceAllAppend. |
| Escape.ReplaceAllAbsent | docs/script.js:160 | A global replace leaves a text that does not contain the character unchanged. |
| Escape.ReplaceAllRemoves | docs/script.js:160 | After a global replace the character is gone, unless the replacement contains it. |
| Escape.ReplaceAllAppend | docs/script.js:160 | A global replace of a concatenation is the concatenation of the replaces. |
| Escape.ChainedReplacesOneChar | docs/script.js:160 | On a single character the three chained replaces give exactly that character's entity. |
| Escape.EscapeHtml | docs/script.js:160 | `escapeHtml` as written, three chained replaces, equals the per-character map Escape.Escape. |
| Escape.EscapeChar | docs/script.js:160 | Each character's entity is non-empty, free of `<` and `>`, and starts with `&` exactly for `&`, `<` and `>`. |
| Escape.Escape | docs/script.js:160 | The per-character escaping holds no `<` or `>`, and every `&` in it begins `&amp;`, `&lt;` or `&gt;`. |
| Escape.ChainedReplacesAreEscape | docs/script.js:160 | The three chained replaces, `&` first, equal the per-character map, so nothing is escaped twice. |
| Escape.EscapeHtmlRemovesMarkup | docs/script.js:160 | The output of `escapeHtml` holds no `<` or `>`, and every `&` in it begins an entity. |
| Escape.EscapeHtmlKeepsPlainText | docs/script.js:160 | A text free of `&`, `<` and `>` comes back unchanged. |
| Escape.UnescapeEscape | docs/script.js:160 | Unescaping the escaped text gives back the original. |
| Escape.EscapeUnescape | docs/script.js:160 | A text free of `<` and `>` whose every `&` begins an entity is the escaping of its unescaping. |
| Escape.EscapeHtmlRoundTrip | docs/script.js:160 | Unescaping the output of `escapeHtml` recovers its input. |
| Escape.AmpersandLastDoubleEscapes | docs/script.js:160 | Replacing `&` last instead would turn `<` into `&amp;lt;`, while `escapeHtml` turns it into `&lt;`. |

## Left out

- Loading the dataset (`loadPatients`, docs/script.js:4-12) is network I/O. The dataset is a given immutable map parameter; after a failed load the script keeps an empty map, which is simply the empty map here.
- Reading the image file, drawing it and decoding the QR code with the jsQR library (docs/script.js:26-73, including the 150 ms `setTimeout`) are asynchronous browser and library calls. `Lookup.QrLookup` takes their result as an `Option<string>`.
- `displayPatient`, `renderAIResult` and `generateReport` (docs/script.js:75-91, 111-158) build HTML, open a window, print and read the clock. Only `escapeHtml` from that area is modelled.
- The scroll spy (docs/script.js:180-197) is DOM geometry driven by UI events. The commented-out OCR block (docs/script.js:162-176) is dead code.
- The alerts and messages shown to the user are not modelled. The outcome datatypes `FetchOutcome` and `QrOutcome` name which one is shown.
- Risk.AgeAddend: age is an integer. A JSON age that is a string, fractional or NaN, and JavaScript's coercion in `>=`, are not modelled.
- Text.ToLower: lowercases ASCII letters only. JavaScript's `toLowerCase` also maps non-ASCII letters, which can matter only for histories whose non-ASCII letters lowercase to the ASCII letters of a keyword.
- Text.Trim: strips the fixed ECMAScript white-space and line-terminator set listed in `Text.IsSpace`, taken as a fixed table rather than from a Unicode database.
- Plain JavaScript objects also answer inherited property names (`patients["toString"]`); the map model has only the dataset's own keys.
- Strings are sequences of Unicode scalar values, not UTF-16 code units.
