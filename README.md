# Contract recommendation service: response parser and report plan

The service takes a contract, given as the URL of a PDF or of an image,
and extracts its text. It detects the contract's language: English,
French or Arabic. It asks a language model to analyse the contract along
three rubric sections: missing articles or clauses, a description of the
problem, and recommendations. The model's free-form answer is turned into
an ordered list of header and content items, and from those items the
service lays out a PDF report.

This project models the deterministic core of that service in Dafny:

- `Config` holds the per-language table of section names and report
  titles, and the choice of a language from the classifier's answer.
- `Text` holds the Python string built-ins the parser depends on:
  `strip`, `lower`, the substring test, `split('\n')` and the bullet-marker
  substitution.
- `Parser` is the response formatter's line-by-line state machine. The
  transition function `Step` and its left fold `Fold` specify it. The
  methods `FormatContent`, `FormatLines` and `FormatLine` implement the
  loop and are proved equal to the fold.
- `Styles` holds the three paragraph styles and how they mirror between
  left-to-right and right-to-left layouts.
- `Render` builds the element list handed to the document builder. The
  method `CreatePdf` is proved equal to the function `DocumentPlan`.
  `Recover` reads the items back from a plan, which shows that the plan
  keeps every item in order.
- `Service` covers the request: choosing the URL, the extraction errors,
  and the whole pipeline from form to reply.

Everything outside the process is a parameter of the operations that use
it:

- the two text extractors;
- the language classifier, which yields `None` when it raises;
- the completion call, which yields the answer or the error's message;
- the Arabic shaping function, `arabic_reshaper` followed by `bidi`;
- whether the logo file exists.

## Model

| member | source | states |
|---|---|---|
| Config.DetectLanguage | app.py:135-142 | The chosen language is always a key of the configuration table. A supported detected code is kept. A failed detection or an unsupported code gives `en`. |
| Config.ConfigsWellFormed | app.py:41-92 | Each language has three section names. None has whitespace at either end. Each name is more than one character longer than every name declared after it. |
| Text.Strip | app.py:325 | `strip()` is empty exactly when the line is all whitespace. Otherwise it starts and ends with a non-whitespace character. |
| Text.TrimStart | app.py:325 | The result is a suffix of the input. Everything dropped is whitespace, and the result does not start with whitespace. |
| Text.TrimEnd | app.py:325 | The result is a prefix of the input. Everything dropped is whitespace, and the result does not end with whitespace. |
| Text.StripUnchanged | app.py:325 | A string with no whitespace at either end is its own strip, so stripping is idempotent on the parser's lines. |
| Text.LowerChar | app.py:331 | A capital letter becomes the small letter whose upper-case form is that capital. Any other character is kept. No capital remains, and whitespace stays whitespace. |
| Text.Lower | app.py:331 | `lower()` keeps the length and lower-cases each character independently of the others. |
| Text.LowerIdempotent | app.py:331 | Lower-casing twice is the same as lower-casing once. |
| Text.LowerAppend | app.py:331 | Lower-casing commutes with concatenation. |
| Text.Contains | app.py:331 | The substring test holds exactly when the needle occurs at some index of the haystack. |
| Text.ContainsLower | app.py:331 | An exact occurrence is still an occurrence after both strings are lower-cased. |
| Text.SplitLines | app.py:323 | Splitting at newlines yields at least one piece, and no piece holds a newline. |
| Text.JoinSplit | app.py:323 | Joining the pieces with newlines gives back the original text, so no character is lost or reordered. |
| Text.SplitJoin | app.py:323 | Splitting undoes joining for newline-free pieces, so the two are inverse bijections. |
| Text.StripMarker | app.py:338 | When the line starts with `-`, `•` or `*`, exactly that marker and the whitespace run after it are removed. Otherwise the line is returned unchanged. |
| Parser.FirstMatch | app.py:330-335 | The result is the least index of a section the line names: the lower-cased name occurs in the lower-cased line, or, for Arabic, the name occurs as is. It is `None` exactly when no section matches. |
| Parser.FormatContent | app.py:319-340 | The loop computes the fold of `Step` over the text's lines from the initial state. |
| Parser.FormatLines | app.py:323-340 | The loop invariant says the open section and the items so far equal the fold over the lines already read. |
| Parser.FormatLine | app.py:324-340 | One turn of the loop, including the inner search that breaks at the first matching section, equals one `Step`. |
| Parser.FoldAppend | app.py:323-340 | Running the loop over two blocks of lines equals running it over the second block from where the first stopped. |
| Parser.FoldOutput | app.py:323-340 | Items are only appended, never changed or removed, and each non-blank line adds at most one. |
| Parser.ParseCount | app.py:323-340 | A response yields at most one item per line that is non-blank after stripping. |
| Parser.StepConsistent | app.py:324-340 | One step keeps the parser invariant: headers are configured names, content is non-empty and trimmed, the first item is a header, and the open section is the last header emitted. |
| Parser.FoldConsistent | app.py:323-340 | The parser invariant holds after any number of lines. |
| Parser.ParseConsistent | app.py:330-340 | Every parsed header is the canonical name of a configured section, never the raw line. Every content item is non-empty with no whitespace at either end, and the list opens with a header. |
| Parser.HeaderLine | app.py:330-337 | A line that names a section yields exactly one header item, with the canonical name of the first section it names. That section becomes the open one, and the rest of the line is discarded. |
| Parser.ContentLine | app.py:337-340 | Inside a section, a non-blank line that names no section yields one content item: the line without its marker, unless nothing is left. Outside any section it yields nothing, and the open section is unchanged. |
| Parser.BlankLine | app.py:325-327 | A line that is empty or all whitespace changes neither the open section nor the items. |
| Parser.PreambleDropped | app.py:337 | Lines before the first header yield nothing. The text after them parses as if they were absent. |
| Parser.ArabicExactMatchSubsumed | app.py:331 | A name matches a line exactly when its lower-cased form occurs in the lower-cased line. The Arabic exact-substring test never decides a match on its own. |
| Parser.PromptHeaderRecognised | app.py:41-92 | A line that is exactly a configured section name, or that name followed by a colon (the form the model is told to use), is recognised as that section and no earlier one. |
| Styles.GetStyles | app.py:144-198 | The title is right-aligned (code 2) for Arabic and centred (code 1) otherwise. Section headers and content are aligned with code 2 for Arabic and code 0 otherwise. Section headers and content face the reading direction, indented 10 and 20 on the reading side and 0 on the other. The Arabic font is used for all three styles exactly when the language is Arabic. |
| Styles.AlignmentCode | app.py:151 | Each alignment has a code from 0 to 2, and decoding the code gives the alignment back. |
| Styles.StylesMirror | app.py:175-194 | The right-to-left section and content styles are the mirror images of the left-to-right ones, apart from the font. |
| Render.CreatePdf | app.py:218-247 | The element list built by successive appends is the document plan: the shaped title and a spacer, the item elements in item order, and the logo block. |
| Render.AppendItems | app.py:229-240 | The loop appends, per header, one section paragraph and, per content item, a `"• "` paragraph and a 5-point spacer. |
| Render.BodyAppend | app.py:229-240 | The item elements of two lists of items are the elements of the first followed by those of the second. |
| Render.PlanKeepsItems | app.py:221-247 | After the title block, the items can be read back from the plan exactly, in order, with their displayed texts. |
| Render.DisplayItems | app.py:229-233 | Each displayed item keeps its kind, and its text is the item's text shaped for Arabic or unchanged otherwise. |
| Render.PlanKeepsItemsLtr | app.py:221-247 | For English and French, reading the items back from the plan gives the parsed items themselves. |
| Render.RecoverBody | app.py:229-240 | The item elements followed by a non-paragraph tail read back as the displayed items. |
| Render.PlanLength | app.py:221-247 | The plan has two title elements, one element per header, two per content item, and two more exactly when the logo exists. |
| Render.BodyHasNoLogo | app.py:229-240 | Item elements never include the logo. |
| Render.LogoIffPresent | app.py:241-247 | The logo is in the plan exactly when the logo file exists, and then it is the last element. |
| Service.SelectSource | app.py:374-390 | With neither URL the request fails with the no-URL error. A PDF URL is always chosen when given. The image URL is chosen only when no PDF URL is given. |
| Service.ExtractText | app.py:374-397 | Without a URL the result is the no-URL error. An empty extraction gives the error of its source. A successful result is exactly the text the chosen extractor returned, and it is never empty. |
| Service.ErrorMessagesDistinct | app.py:377-397 | The three rejection messages are pairwise different, so each rejection can be identified by its message. |
| Service.NoUrlNoExtraction | app.py:374-377 | With neither URL the result does not depend on either extractor, so neither one is consulted. |
| Service.PdfTakesPrecedence | app.py:381-388 | With a PDF URL the result does not depend on the image extractor, even when an image URL is also given. |
| Service.ImageOnlyWithoutPdf | app.py:390-397 | With only an image URL the result does not depend on the PDF extractor. |
| Service.FormatResponse | app.py:315-348 | The reply carries the model's answer unchanged, together with the plan of the items parsed from it in the language's sections. |
| Service.PredictSuggestions | app.py:257-278 | A failed completion gives its error message. A successful one gives the formatted answer. |
| Service.GetPdfSuggestions | app.py:366-404 | The reply is the function `Respond` of the form and the collaborators. It is a rejection exactly when extraction fails. A rejection carries status 400 and the message of its error. |

## Left out

- HTTP plumbing is not modelled: Flask routing, form decoding, `jsonify`, CORS, status codes and the catch-all that turns any exception into a 500 reply. A rejection carries the status and the `error` message of the 400 reply.
- The completion call to the hosted model is the parameter `complete`. The `system_prompt` texts of the configuration table only travel to that call, so they are not carried.
- Downloading and extraction are the parameters `extractPdf` and `extractImage`. They cover PDF decryption, `PyPDF2` and OCR through `pytesseract`, and they report any failure as the empty string, as the source does.
- The language classifier is the parameter `classify`.
- Arabic shaping (`arabic_reshaper` and `bidi`) is the parameter `shape`.
- Font download and registration are not modelled, nor are page size, margins, colours, borders, the image's centring, `doc.build` and the PDF metadata. Arabic styles name the `NotoArabic` font whether or not its registration succeeded; the source has no fallback there either.
- The fixed output file name, the file write and `url_for` are not modelled. The reply carries the planned element list in place of the link to the written file.
- Decoding a `bytes` answer as UTF-8 is not modelled. The answer is a string.
- Text.LowerChar: covers the ASCII and Latin-1 upper-case letters only, not the rest of Unicode case mapping. The configured section names use only these ranges and Arabic, which has no case.
- Text.Strip: the contract characterises the result by its ends and by blankness. It does not state that the result is the middle slice of the input.
- Service.GetPdfSuggestions: the endpoint's logging is not modelled.
- Service.PredictSuggestions: in the source, exceptions raised while formatting a successful answer also become the `error` reply. Such exceptions can come from paragraph construction, `doc.build` or the file write, for instance when the Arabic font was never registered. The model always returns the formatted answer after a successful completion, because rendering is not modelled.
- The script `test.py` is a stand-alone OCR call on a local file, so it is not part of this model.
- The code has no "not a contract" sentinel, no capture of text after a header's colon on the same line, no separate bullet and plain item kinds, no MIME-based choice of extractor, no Word extractor and no OCR retry. The model follows the code.
