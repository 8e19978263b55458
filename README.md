# AWS Cloud Club badge generator — verified model of its sequential logic

The badge generator is a browser page. The user uploads a photo and types a
name. The page composes a badge from a fixed template, the photo and the name,
and then offers it as a PNG download. All of this lives in one script,
`script.js`. This project models the four parts of that script whose behaviour
can be stated exactly, and proves properties of each:

- **Download file name** (module `FileName`, built on `Text`). `downloadBadge`
  turns the stored `userName` into a file name. An empty name becomes
  `AWS-Community`. The name is then trimmed. Each whitespace run becomes `-`.
  Every character outside `[A-Za-z0-9-_]` is deleted. The result is cut to 50
  characters, and `Guest` replaces it if it came out empty. The final name is
  `AWS-Badge-<name>.png`. The model proves that the middle part is always a
  non-empty safe name, and that a name is a fixpoint of sanitising exactly when
  it is already safe (hence sanitising is idempotent). It also proves that any
  whitespace run between two words becomes a single hyphen, and it works
  through the example cases.
- **Responsive font size** (module `FontFit`). `generateBadge` measures the
  name at 34px and lowers the size one pixel at a time while the text is wider
  than 520px and the size is above 16px. The browser's `measureText` is a
  parameter `width(name, size)`, so every property holds for any font metrics.
  The loop is proved to stop at the largest size in [16, 34] at which the name
  fits, or at 16 when it fits at none. A width of exactly 520px counts as
  fitting.
- **Upload gate** (`Badge.Session.SelectFile`, `FinishUpload`, `Upload`). A
  chosen file is rejected unless its MIME type starts with `image/`. After
  that, it is rejected if it is larger than 5 × 1024 × 1024 = 5 242 880 bytes.
  The type is checked first, and a file of exactly 5 MiB is accepted. The
  asynchronous read and decode are an event with three outcomes. Only a
  decoded image replaces `uploadedImage`; rejections and failures keep the
  previous photo.
- **Generate gate** (`Badge.Session.GenerateAndPreview`). Three checks run in
  order: the trimmed name is non-empty, a photo is present, and the template
  has loaded. Any failure leaves `userName` untouched. On success `userName`
  becomes the trimmed name, and the badge is composed at the size the font
  search chooses.

The module-level variables `uploadedImage`, `badgeTemplate` and `userName`
become the fields of the class `Badge.Session`. The template's `onload` is the
method `TemplateLoaded`. Alerts are error values: `UploadError`,
`PreviewError` and `DownloadError`.

Two edges of the code are easy to misread:

- The size limit is `size > 5*1024*1024` (script.js:37), so a file of exactly
  5 MiB is accepted, although the alert says "less than 5MB".
- An empty `userName` yields `AWS-Badge-AWS-Community.png`, not `Guest`
  (script.js:173). Only a non-empty name that sanitises to nothing falls back
  to `Guest`.

## Model

| member | source | states |
|---|---|---|
| `Text.Trim` | script.js:174 | `trim` removes exactly the whitespace at both ends. The result is the substring that starts after the leading whitespace, and only whitespace follows it. It neither starts nor ends with whitespace. It is empty iff the input is all whitespace. A string with no whitespace at either end is returned unchanged. |
| `Text.TrimIdempotent` | script.js:67 | Trimming the already trimmed name again changes nothing. |
| `FileName.Strip` | script.js:176 | The `[^a-zA-Z0-9-_]` deletion leaves only letters, digits, `-` and `_`. Each of these characters in the input still occurs in the result. The text never gets longer, and text made only of safe characters is returned unchanged. |
| `FileName.StripCounts` | script.js:176 | The deletion only deletes. Each safe character occurs in the result exactly as often as in the input, and no other character occurs at all. |
| `FileName.NothingSafeStrips` | script.js:176 | Text with no safe character strips to the empty string. |
| `FileName.StripAppend` | script.js:176 | The deletion works piece by piece, so the characters that survive keep their order: stripping `a + b` gives the stripped `a` followed by the stripped `b`. |
| `FileName.Truncate` | script.js:177 | `substring(0, 50)` gives a prefix of the input. That prefix is the input itself when the input has at most 50 characters, and exactly its first 50 characters otherwise. |
| `FileName.NameOrCommunity` | script.js:173 | `userName \|\| 'AWS-Community'` is `AWS-Community` for the empty name and the name itself otherwise, so it is never empty. |
| `FileName.Hyphenate` | script.js:175 | `replace(/\s+/g, '-')` never makes the text longer. It gives the empty text exactly when the input is empty. |
| `FileName.HyphenateRemovesSpace` | script.js:175 | After `replace(/\s+/g, '-')` no whitespace is left. |
| `FileName.HyphenateNoSpace` | script.js:175 | Text without whitespace passes through the hyphenation unchanged. |
| `FileName.HyphenateNoSpacePrefix` | script.js:175 | A whitespace-free prefix passes through the hyphenation unchanged, in front of the hyphenated rest. |
| `FileName.HyphenateSpaceRun` | script.js:175 | A whitespace run of any length before a word becomes exactly one `-`. |
| `FileName.HyphenateJoin` | script.js:175 | Two whitespace-free words separated by a whitespace run are joined by a single `-`. |
| `FileName.Sanitize` | script.js:173-177 | The sanitised name has at most 50 characters, all from `[A-Za-z0-9-_]`. |
| `FileName.SafeNameOrGuest` | script.js:173-179 | The name placed in the file name is never empty and is always a safe name. |
| `FileName.BadgeFileName` | script.js:179 | The file name is `AWS-Badge-`, then a non-empty safe name of at most 50 characters, then `.png`. |
| `FileName.SanitizeFixpoint` | script.js:173-177 | Sanitising leaves a name unchanged iff it has at most 50 characters, all safe. Trim, hyphenation, stripping and truncation then all leave it alone. |
| `FileName.SanitizeIdempotent` | script.js:173-177 | Sanitising a sanitised name gives the same name. |
| `FileName.SafeNameFileName` | script.js:173-179 | A non-empty safe name `s` is saved as exactly `AWS-Badge-` + `s` + `.png`. |
| `FileName.JoinWords` | script.js:174-177 | For two safe words separated by any whitespace run, the sanitised name is the two words joined by one `-`, cut to 50 characters. |
| `FileName.EmptyNameFileName` | script.js:173-179 | An empty `userName` is saved as `AWS-Badge-AWS-Community.png`. |
| `FileName.BlankNameFileName` | script.js:173-179 | A non-empty name made only of whitespace is saved as `AWS-Badge-Guest.png`. |
| `FileName.HyphenateKeepsSafe` | script.js:175 | For a safe or whitespace character at position `i` of the input, the hyphenated text has, at some position, that very character when it is safe, or `-` when it is whitespace. Either way that character is safe. |
| `FileName.SanitizeEmpty` | script.js:174-177 | A name sanitises to the empty string iff its trimmed form contains no safe character and no whitespace. |
| `FileName.InvalidNameFileName` | script.js:173-179 | A non-empty name whose trimmed form has no safe character and no whitespace is saved as `AWS-Badge-Guest.png`. This includes names with whitespace only at their ends. |
| `FileName.AdaLovelaceFileName` | script.js:173-179 | `"Ada Lovelace"` is saved as `AWS-Badge-Ada-Lovelace.png`. |
| `FileName.TrimmedNameFileName` | script.js:173-179 | The trimmed name stored by `generateAndPreview` gives the same file name as the name as typed. |
| `FontFit.FitFontSize` | script.js:145-154 | The loop ends at a size in [16, 34]. The name fits at that size (width ≤ 520) or the size is 16, and the name is wider than 520 at every larger size up to 34. The width returned is the one measured at that size. The size was lowered 34 − size ≤ 18 times. |
| `FontFit.ChosenSizeUnique` | script.js:145-154 | The measurements determine the chosen size uniquely. |
| `FontFit.ChosenIsLargestFit` | script.js:142-154 | If the name fits at some size in [16, 34], it fits at the chosen size, which is then the largest size that fits. If it fits at none, the chosen size is 16. |
| `FontFit.FitsAtLargest` | script.js:145-150 | A name that fits at 34px is drawn at 34px. |
| `FontFit.ExactWidthFits` | script.js:150 | A size whose width is exactly 520 counts as fitting, because the comparison is strict `>`. No size above the chosen one has that width. |
| `Badge.Session.constructor` | script.js:1-3 | The session starts with no photo, the template not yet loaded and an empty name. |
| `Badge.Session.TemplateLoaded` | script.js:9-12 | The template's `onload` marks the template as available. |
| `Badge.Session.SelectFile` | script.js:28-42 | With no file, nothing happens. A type that does not start with `image/` is rejected as not an image. An image over 5 242 880 bytes is rejected as too large. Anything else starts reading. Each case holds iff its condition holds, and the type is tested before the size. |
| `Badge.Session.FinishUpload` | script.js:44-61 | A decoded image becomes `uploadedImage`. A decode failure or a read failure reports its error and keeps the previous photo. |
| `Badge.Session.Upload` | script.js:27-63 | Across a whole upload, the photo changes iff the file was present, an image, at most 5 MiB and decoded. Otherwise it keeps its old value. No error is reported iff there was no file or the upload succeeded. |
| `Badge.Session.GenerateAndPreview` | script.js:66-88 | A blank name fails with `NameMissing`. Otherwise a missing photo fails with `PhotoMissing`. Otherwise a template that is still loading fails with `TemplateLoading`. Every failure leaves `userName` unchanged. It succeeds iff all three checks pass. On success `userName` is the non-empty trimmed name and the badge uses the current photo and the font size the search chooses for that name. |
| `Badge.Session.DownloadFileName` | script.js:163-179 | A missing canvas reports `CanvasMissing`. Otherwise the export is named by the file-name derivation from the current `userName`, the same on the blob path and the fallback path. |

## Left out

- Canvas drawing is not modelled: clearing, drawing the template or the white fallback, the shadow, the circular clip, the photo and the name (script.js:95-133, 156-159). These are rendering side effects with nothing to state beyond the calls themselves.
- The scale-to-cover computation (script.js:126-130) is not modelled. It is floating-point geometry on the browser's doubles, and Dafny `real`s would not match it.
- `measureText` and font metrics are a parameter of `FitFontSize`. Widths are `real`s and are compared with 520 exactly as given. IEEE rounding of the measured widths is not modelled.
- The `FileReader` and `Image` callbacks (script.js:44-61) and the template's asynchronous load (script.js:6-15) are modelled only by their outcomes: the `LoadOutcome` event given to `FinishUpload`, and `TemplateLoaded`. The template's `onerror` only logs, so it is no event. Overlapping uploads whose callbacks interleave are not modelled.
- `Badge.Session.FinishUpload`: nothing ties this event to an earlier accepted `SelectFile`. `Upload` composes the two in the order the browser runs them.
- Page navigation (`goToPage`, script.js:18-24), the file-name label and the preview image (script.js:42, 50-51), the focus call, and all `alert` and `console` calls are left out. Alerts become error values.
- Export mechanics are left out: `toBlob`, `toDataURL`, object URLs, the anchor click, `setTimeout` cleanup and the success alerts (script.js:181-241). These are browser I/O and timers. Only the file name they share is modelled.
- Whitespace is a fixed ASCII set: space, tab, line feed, vertical tab, form feed and carriage return. JavaScript's `trim` and `\s` also treat Unicode spaces, such as no-break space and line separator, as whitespace. Those are not modelled.
- `substring(0, 50)` counts UTF-16 code units. This does not matter here, because only ASCII characters remain after stripping.
- The page-load listener (script.js:244-246) only logs and is left out.
