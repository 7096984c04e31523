# Newsletter and calendar core of the ai-app mobile app, in Dafny

This project models four parts of the app and proves properties of them:

- **The webhook client** (`services/webhookService.ts`). It talks to four automation webhooks:
  - fetch the newsletter variables and the tone list, applying the `??` and `||` defaults;
  - save the variables;
  - test keywords;
  - send a comment on the generated text, after removing the matches of `/!\[.*?\]\(data:image\/[^)]+\)/g` from that text, exactly as that pattern matches.

  The newsletter text is extracted from a reply in `processResponseContent`:
  - the first truthy candidate of an `||` chain is taken, with different chains for array and object replies;
  - every image token is removed from it with a lazy regular expression, and the result is trimmed;
  - a generated image token is appended when an image is present.
- **The markdown preview** (`components/newsletter/MarkdownPreview.tsx`):
  - `split` of the content on the image pattern, with the captured references interleaved;
  - the `match`/`map` that lists the references;
  - the per-index decision to show a part as text and `images[index]` as an image.
- **The calendar grid** (`components/calendar/CalendarView.tsx`):
  - JavaScript's `new Date(year, month, day)` arithmetic, including month carry, day 0 and the two-digit-year rule;
  - the three loops that lay out a Monday-first grid of whole weeks;
  - month navigation;
  - the per-cell tests.
- **The bounded stepper** (`components/newsletter/NumberInput.tsx`):
  - the plus and minus handlers and their disabled states;
  - the text handler with a model of `parseInt`;
  - the defaults 1/100/1, and the 1..50 bounds that the newsletter screen passes.

Module layout:

| file | contents |
|---|---|
| `wrappers.dfy` | Option and Result |
| `js_text.dfy` | ECMAScript white space, `trim`, `includes`, integer to text |
| `json.dfy` | parsed JSON values with JavaScript truthiness, `?.`, `\|\|`, `??`, `String(v)` and `data[0]` |
| `image_token.dfy` | the pattern `/!\[.*?\]\((.*?)\)/` as the RegExp engine matches it (leftmost start, lazy groups, no line terminators), and the global `replace`, `split` and `match` built on it |
| `data_image.dfy` | the pattern `/!\[.*?\]\(data:image\/[^)]+\)/` as written (which the comment request uses), and the removal it is meant to perform (see Findings) |
| `webhook.dfy` | the four operations, each with the HTTP exchange as a parameter |
| `webhook_properties.dfy` | round trips and the precedence rules of the client |
| `markdown_preview.dfy` | the preview |
| `calendar.dfy` | dates, the grid generator (imperative, three loops), navigation and the `CalendarView` class |
| `number_input.dfy` | the stepper and `parseInt` |

Four behaviours of the code are easy to misread, and the model states each as the code has it:

- **Text precedence for an object reply.** The array branch tries the nested `response.body.post` first. The object branch tries the top-level `post` and `verification` first (`Webhook.TextCandidates`).
- **Image precedence for an array reply.** The object branch tries the top-level `image` first. The array branch tries `response.body.image` first.
- **When a fetch reply is an invalid format.** The code tests only `!data || !data[0]`, not that the reply is an array. A non-empty JSON string passes and decodes to the defaults (`WebhookProperties.StringReplyDecodesToDefaults`).
- **What the preview shows.** `split` with a capturing group interleaves each captured reference into `parts`, so a URL also shows as text (`MarkdownPreview.ReferenceShownAsText`). The preview shows `images[index]` next to `parts[index]`, so images take the first indices rather than the places of their tokens (`MarkdownPreview.ImagesShownByIndex`).

## Model

| member | source | states |
|---|---|---|
| JsText.Trim | services/webhookService.ts:106 | the result is the input with a run of white space cut from each end, and it neither starts nor ends with JavaScript white space; it is empty exactly when the input is all white space |
| JsText.TrimIdempotent | services/webhookService.ts:106 | trimming twice is trimming once |
| JsText.Includes | components/newsletter/MarkdownPreview.tsx:28 | true exactly when the needle occurs at some index of the text |
| JsText.NatToString | components/newsletter/NumberInput.tsx:53 | the text of a natural number is non-empty, all decimal digits, and starts with `0` only for zero |
| Json.FirstTruthy | services/webhookService.ts:83-87 | an `\|\|` chain yields one of its operands, which is truthy or else the last operand |
| Json.FirstTruthyPicks | services/webhookService.ts:83-87 | when operand i is the first truthy one, the chain yields it |
| Json.FirstTruthyFallsBack | services/webhookService.ts:83-87 | when no operand before the last is truthy, the chain yields the last one |
| Json.OrElse | services/webhookService.ts:37-40 | `v \|\| d` keeps a truthy v and otherwise gives d |
| Json.Coalesce | services/webhookService.ts:34-36 | `v ?? d` replaces only undefined and null and keeps every other value, false and 0 included |
| Json.Truthy | services/webhookService.ts:26 | definition of JavaScript truthiness; its properties are in Json.FirstTruthy, Json.OrElse, WebhookProperties.InvalidFormatExactly and WebhookProperties.DefaultsRule |
| Json.IsNullish | services/webhookService.ts:34-36 | definition; its properties are in Json.Coalesce and WebhookProperties.DefaultsRule |
| Json.Member | services/webhookService.ts:34-40 | definition of `v?.key`; its properties are in WebhookProperties.DefaultsRule, WebhookProperties.SavedVariablesFetchBack and WebhookProperties.EmptyObjectHasNothing |
| Json.Path | services/webhookService.ts:83-87 | definition of a `?.` chain; its properties are in WebhookProperties.TextPrecedence, WebhookProperties.ImagePrecedence and WebhookProperties.ArrayPrefersNestedPost |
| Json.ToJsString | services/webhookService.ts:110 | definition of `String(v)` as concatenation applies it; its properties are in WebhookProperties.GeneratedImageIsRecognised |
| Json.Index0 | services/webhookService.ts:26-30 | definition of `data[0]`; its properties are in WebhookProperties.InvalidFormatExactly, WebhookProperties.FetchReadsFirstElementOnly and WebhookProperties.StringReplyDecodesToDefaults |
| Webhook.DecodeTones | services/webhookService.ts:40 | a decoded tone list has one tone per element; the only failure is a mistyped `list_ton` |
| Webhook.DecodeWebhookData | services/webhookService.ts:30-41 | decoding the first element fails only on a mistyped field |
| Webhook.IsOk | services/webhookService.ts:21 | definition of `response.ok` (a 2xx status); its properties are in Webhook.FetchNewsletterVariables, Webhook.UpdateNewsletterVariables and Webhook.NewsletterReply |
| Webhook.DecodeTone | services/webhookService.ts:40 | definition; its properties are in Webhook.DecodeTones and WebhookProperties.TonesDecodeBack |
| Webhook.DecodeFetched | services/webhookService.ts:25-41 | definition of how the fetch reads a parsed reply; its properties are in Webhook.FetchNewsletterVariables, WebhookProperties.InvalidFormatExactly, WebhookProperties.FetchReadsFirstElementOnly, WebhookProperties.StringReplyDecodesToDefaults, WebhookProperties.SavedVariablesFetchBack and WebhookProperties.StoredRecordFetchesBack |
| Webhook.SaveBody | services/webhookService.ts:57-63 | definition; its properties are in Webhook.UpdateNewsletterVariables and WebhookProperties.SavedVariablesFetchBack |
| Webhook.TextCandidates | services/webhookService.ts:81-98 | definition; its properties are in WebhookProperties.TextPrecedence, WebhookProperties.TextDefaultsToEmpty, WebhookProperties.ArrayPrefersNestedPost, WebhookProperties.ObjectPrefersTopLevelVerification and WebhookProperties.EmptyObjectHasNothing |
| Webhook.ImageCandidates | services/webhookService.ts:81-102 | definition; its properties are in WebhookProperties.ImagePrecedence, WebhookProperties.NoImageWithoutTruthyCandidate and WebhookProperties.EmptyObjectHasNothing |
| Webhook.ExtractedText | services/webhookService.ts:81-98 | definition; its properties are in WebhookProperties.TextPrecedence, WebhookProperties.TextDefaultsToEmpty, WebhookProperties.ArrayPrefersNestedPost, WebhookProperties.ObjectPrefersTopLevelVerification and WebhookProperties.ScalarReplyGivesEmptyText |
| Webhook.ExtractedImage | services/webhookService.ts:81-102 | definition; its properties are in WebhookProperties.ImagePrecedence and WebhookProperties.NoImageWithoutTruthyCandidate |
| Webhook.ShowsImage | services/webhookService.ts:109 | definition; its properties are in WebhookProperties.PlainPostAndImage and WebhookProperties.NoImageWithoutTruthyCandidate |
| Webhook.GeneratedImage | services/webhookService.ts:110 | definition; its properties are in WebhookProperties.GeneratedImageIsRecognised and WebhookProperties.GeneratedAltIsPlain |
| Webhook.ImageSuffix | services/webhookService.ts:110 | definition; its properties are in Webhook.SuffixIsToken and WebhookProperties.PlainPostAndImage |
| Webhook.ResponseContent | services/webhookService.ts:77-113 | definition of processResponseContent; its properties are in Webhook.ProcessResponseContent (the imperative version computes it), WebhookProperties.TextPrecedence, WebhookProperties.ImagePrecedence, WebhookProperties.PlainPostAndImage, WebhookProperties.ResponseReadsFirstElementOnly, WebhookProperties.ScalarReplyGivesEmptyText and WebhookProperties.EmptyReplyRejected |
| Webhook.KeywordsBody | services/webhookService.ts:125 | definition of the `{ keywords }` body; its properties are in Webhook.TestKeywords |
| Webhook.CommentBody | services/webhookService.ts:158-165 | definition; its properties are in Webhook.SendComment and WebhookProperties.CommentCarriesVariables |
| Webhook.CommentText | services/webhookService.ts:149 | definition; its properties are in Webhook.SendComment, WebhookProperties.CommentTextWithoutInlineImages and WebhookProperties.CommentTextWithoutMarker |
| Webhook.FetchNewsletterVariables | services/webhookService.ts:8-46 | a rejected request is a network error; a non-2xx status is an HTTP error with that status; a body that is not JSON is its own error; otherwise the result is the decoding of the reply |
| Webhook.UpdateNewsletterVariables | services/webhookService.ts:48-75 | the request body is the five variables under their wire names; any 2xx status is success and the reply body is not read; other statuses and a rejected request are failures |
| Webhook.SuffixIsToken | services/webhookService.ts:109-111 | the appended text is a blank line followed by one image token with alternative text `Generated Image` |
| Webhook.ProcessResponseContent | services/webhookService.ts:77-114 | the imperative extraction computes the extraction function |
| Webhook.NewsletterReply | services/webhookService.ts:116-141 | no response is a network error; a non-2xx status is an HTTP error; a 2xx reply whose body is not JSON fails; an extraction failure is passed on; an empty extracted text is an invalid format; otherwise the result is the extracted text, and a success comes from no other case |
| Webhook.ReadNewsletter | services/webhookService.ts:128-139 | the imperative reply handling computes the reply function |
| Webhook.TestKeywords | services/webhookService.ts:116-144 | sends `{keywords}` and returns the reply handling's result |
| Webhook.SendComment | services/webhookService.ts:146-184 | sends the comment, the text with the matches of the line-149 pattern removed as written and trimmed, and the variables other than the text; succeeds exactly when the reply handling does, with its text, and otherwise fails with the one error 'Failed to send comment' |
| WebhookProperties.SavedVariablesFetchBack | services/webhookService.ts:57-63 | a saved record, fetched back as the first element of an array, yields the same variables and no tones |
| WebhookProperties.TonesDecodeBack | services/webhookService.ts:40 | a stored tone list decodes back to the same tones in the same order |
| WebhookProperties.StoredRecordFetchesBack | services/webhookService.ts:30-41 | a stored record with a tone list fetches back as exactly those variables and tones |
| WebhookProperties.CommentCarriesVariables | services/webhookService.ts:158-165 | the comment body carries the variables; read as a record it yields them with the commented text in place of theirs |
| WebhookProperties.DefaultsRule | services/webhookService.ts:34-40 | a missing or null ton, n_lignes or image becomes -1, 10 or true, while 0 and false are kept; any falsy keywords, verification or list_ton becomes empty |
| WebhookProperties.InvalidFormatExactly | services/webhookService.ts:26-28 | a fetch is an invalid format exactly when the reply or its first element is falsy |
| WebhookProperties.FetchReadsFirstElementOnly | services/webhookService.ts:30 | elements after the first do not change a fetch |
| WebhookProperties.StringReplyDecodesToDefaults | services/webhookService.ts:26-41 | a non-empty JSON string passes the format check and decodes to the defaults |
| WebhookProperties.TextPrecedence | services/webhookService.ts:81-98 | the extracted text is the first truthy candidate in the source's order for arrays and for objects |
| WebhookProperties.TextDefaultsToEmpty | services/webhookService.ts:83-98 | with no truthy candidate the text is empty |
| WebhookProperties.ImagePrecedence | services/webhookService.ts:89-102 | the image is the first truthy image candidate in the source's order |
| WebhookProperties.NoImageWithoutTruthyCandidate | services/webhookService.ts:100-109 | with no truthy image candidate nothing is appended |
| WebhookProperties.ResponseReadsFirstElementOnly | services/webhookService.ts:81-91 | elements after the first do not change the extracted content |
| WebhookProperties.ScalarReplyGivesEmptyText | services/webhookService.ts:77-103 | a reply that is neither an array nor an object yields the empty text |
| WebhookProperties.PlainPostAndImage | services/webhookService.ts:94-113 | a plain post with a shown image yields the post, a blank line and the image token; with a falsy image or the string "false", the post alone |
| WebhookProperties.EmptyReplyRejected | services/webhookService.ts:133-137 | a 2xx reply with no text and no image gives the empty text, which is rejected as an invalid format |
| WebhookProperties.EmptyObjectHasNothing | services/webhookService.ts:93-103 | `{}` offers no text candidate and no image |
| WebhookProperties.ArrayPrefersNestedPost | services/webhookService.ts:83-87 | in an array reply `response.body.post` wins over `verification` |
| WebhookProperties.ObjectPrefersTopLevelVerification | services/webhookService.ts:94-98 | in an object reply `verification` wins over `response.body.post` |
| WebhookProperties.GeneratedImageIsRecognised | services/webhookService.ts:110 | the preview's pattern captures the appended image's reference back when it holds no `)` and no line break |
| WebhookProperties.GeneratedAltIsPlain | services/webhookService.ts:110 | the generated alternative text holds no line break and no `]`, so no `](` pair |
| WebhookProperties.CommentTextWithoutInlineImages | services/webhookService.ts:149 | text where the pattern matches nowhere is sent only trimmed; text where it matches is shortened before it is trimmed |
| WebhookProperties.CommentTextWithoutMarker | services/webhookService.ts:149 | text in which `](data:image/` never occurs is sent only trimmed |
| ImageToken.FindAltEndSpec | services/webhookService.ts:106 | the alternative text ends at the first `](` on its line, and one is found whenever one is reachable |
| ImageToken.FindRefEndSpec | services/webhookService.ts:106 | the reference ends at the first `)` on its line, and one is found whenever one is reachable |
| ImageToken.TokenAtSpec | services/webhookService.ts:106 | a match found at i is a match of the pattern, holds what the text holds there, and is lazy |
| ImageToken.TokenParts | services/webhookService.ts:106 | the delimiters found by the scan cut out a lazy match whose text is the slice they enclose |
| ImageToken.LazyMatch | services/webhookService.ts:106 | whenever the pattern can match at i, the scanner finds a match there with the least alternative text and, for it, the least reference |
| ImageToken.FindToken | services/webhookService.ts:106 | the leftmost match: none starts before it, and none at all when the result is None |
| ImageToken.ScanFrom | services/webhookService.ts:106 | a global search cuts the text into gaps and lazy matches that weave back to the text |
| ImageToken.ScanGapsHoldNoToken | services/webhookService.ts:106 | no gap of a global search holds a match of its own, so the search skips no match |
| ImageToken.GapBeforeMatch | services/webhookService.ts:106 | when the leftmost match is at i, the first gap is the text up to i and the search goes on after the match |
| ImageToken.TokenAtText | services/webhookService.ts:106 | wherever a lazy token's text stands, the match at its start is that token |
| ImageToken.ScanFromMatch | services/webhookService.ts:106 | a global search that starts on a match takes it with an empty gap and goes on after it |
| ImageToken.ScanOfTwoTokens | services/webhookService.ts:106 | two tokens written back to back are found as two matches with empty gaps |
| ImageToken.GapHoldsNoToken | services/webhookService.ts:106 | a stretch where no match starts holds no match of its own |
| ImageToken.NoBangNoToken | services/webhookService.ts:106 | text without `!` has no match and is left unchanged by the removal |
| ImageToken.Text | services/webhookService.ts:106 | definition of a token's text `![alt](ref)`; its properties are in ImageToken.TokenParts, ImageToken.TokenAtText and ImageToken.RematchToken |
| ImageToken.MatchesAt | services/webhookService.ts:106 | definition of a match of the pattern at an index; its properties are in ImageToken.TokenAtSpec, ImageToken.LazyMatch and ImageToken.FindToken |
| ImageToken.TokenAt | services/webhookService.ts:106 | definition of one match attempt at an index; its properties are in ImageToken.TokenAtSpec, ImageToken.LazyMatch and ImageToken.TokenAtText |
| ImageToken.Weave | services/webhookService.ts:106 | definition; its properties are in ImageToken.ScanFrom, DataImage.WeaveEmptySeparators and MarkdownPreview.SplitRoundTrip |
| ImageToken.ScanAll | services/webhookService.ts:106 | definition of the global search from the start; its properties are in ImageToken.ScanFrom and ImageToken.ScanGapsHoldNoToken |
| ImageToken.StripTokens | services/webhookService.ts:106 | definition of the global replace with the empty string; its properties are in ImageToken.NoBangNoToken, DataImage.WeaveEmptySeparators and DataImage.AllDataTokensStripLikeResponse |
| ImageToken.Split | components/newsletter/MarkdownPreview.tsx:11 | definition; its properties are in ImageToken.Interleave, MarkdownPreview.PartsShape and MarkdownPreview.SplitRoundTrip |
| ImageToken.MatchAll | components/newsletter/MarkdownPreview.tsx:14 | definition; its properties are in MarkdownPreview.ImagesAreReferences and MarkdownPreview.PartsShape |
| ImageToken.FirstCapture | components/newsletter/MarkdownPreview.tsx:15-16 | definition; its properties are in ImageToken.RematchToken, MarkdownPreview.ImagesAreReferences and WebhookProperties.GeneratedImageIsRecognised |
| ImageToken.Interleave | components/newsletter/MarkdownPreview.tsx:11 | `split` with a capturing group puts the gaps at even indices and each captured reference at odd ones |
| ImageToken.RematchToken | components/newsletter/MarkdownPreview.tsx:14-17 | matching a matched token's text again finds it at 0 and captures the same reference |
| DataImage.DataTokenFrom | services/webhookService.ts:149 | an attempt that succeeds returns an alternative length no less than where it started, and a match of the pattern |
| DataImage.MatchFixesPayload | services/webhookService.ts:149 | the alternative length of a match determines its payload: `[^)]+` runs to the first `)` |
| DataImage.DataTokenFromSpec | services/webhookService.ts:149 | the attempt finds the least alternative length that matches, and at that length the only payload |
| DataImage.DataTokenAt | services/webhookService.ts:149 | the match at i is a match of the pattern, and there is none when the result is None |
| DataImage.FindDataToken | services/webhookService.ts:149 | the leftmost match of the pattern as written |
| DataImage.NoMarkerNoDataToken | services/webhookService.ts:149 | text in which `](data:image/` never occurs holds no match of the pattern |
| DataImage.MatchHoldsMarker | services/webhookService.ts:149 | a match of the pattern implies that `](data:image/` occurs in the text |
| DataImage.AsWrittenLength | services/webhookService.ts:149 | the global replace as written never lengthens the text, and shortens it exactly when the pattern matches somewhere |
| DataImage.StripStep | services/webhookService.ts:149 | one step of the global replace keeps the text before the leftmost match and drops the match |
| DataImage.StripDataFrom | services/webhookService.ts:149 | definition of the global replace as written, from a position on; its properties are in DataImage.AsWrittenLength and DataImage.StripStep |
| DataImage.StripDataImagesAsWritten | services/webhookService.ts:149 | definition; its properties are in DataImage.AsWrittenLength, DataImage.AsWrittenSwallowsPrecedingToken, DataImage.NoMarkerNoDataToken and WebhookProperties.CommentTextWithoutInlineImages |
| DataImage.StripDataImageTokens | services/webhookService.ts:149 | definition of the intended removal; its properties are in DataImage.NoDataTokenKeepsText, DataImage.AllDataTokensStripLikeResponse and DataImage.CorrectedKeepsOrdinaryToken |
| DataImage.NoDataTokenKeepsText | services/webhookService.ts:149 | text holding no inline-image token is left unchanged by the intended removal |
| DataImage.AllDataTokensStripLikeResponse | services/webhookService.ts:149 | when every token is an inline image, the intended removal equals the removal of all tokens |
| DataImage.AsWrittenSwallowsPrecedingToken | services/webhookService.ts:149 | the pattern as written removes `![](u)![](data:image/x)` entirely, including the ordinary token |
| DataImage.CorrectedKeepsOrdinaryToken | services/webhookService.ts:149 | the intended removal keeps an ordinary image token that an inline image follows, and drops only the inline image |
| DataImage.WeaveEmptySeparators | services/webhookService.ts:149 | replacing every token with nothing concatenates the gaps |
| MarkdownPreview.Parts | components/newsletter/MarkdownPreview.tsx:11 | definition; its properties are in MarkdownPreview.PartsShape, MarkdownPreview.SplitRoundTrip and MarkdownPreview.NoTokenSingleBlock |
| MarkdownPreview.Images | components/newsletter/MarkdownPreview.tsx:14-17 | definition; its properties are in MarkdownPreview.ImagesAreReferences, MarkdownPreview.PartsShape and MarkdownPreview.NoTokenSingleBlock |
| MarkdownPreview.PartText | components/newsletter/MarkdownPreview.tsx:28-29 | definition; its properties are in MarkdownPreview.ReferenceShownAsText and MarkdownPreview.NoTokenSingleBlock |
| MarkdownPreview.ImageAt | components/newsletter/MarkdownPreview.tsx:32-37 | definition; its properties are in MarkdownPreview.ImagesShownByIndex |
| MarkdownPreview.Render | components/newsletter/MarkdownPreview.tsx:25-38 | definition; its properties are in MarkdownPreview.RenderAt, MarkdownPreview.ImagesShownByIndex, MarkdownPreview.ReferenceShownAsText and MarkdownPreview.NoTokenSingleBlock |
| MarkdownPreview.RenderAt | components/newsletter/MarkdownPreview.tsx:25-38 | unfolding lemma: block j of the rendering is built from part j and `images[j]` with the tests of lines 28 and 32 (what those tests show is stated by `ImagesShownByIndex` and `ReferenceShownAsText`) |
| MarkdownPreview.EvenParts | components/newsletter/MarkdownPreview.tsx:11 | the even-indexed parts, one more than the odd ones |
| MarkdownPreview.PartsShape | components/newsletter/MarkdownPreview.tsx:11-17 | with k matches there are 2k+1 parts and k images; image i is part 2i+1, and the even parts hold no match |
| MarkdownPreview.ImagesAreReferences | components/newsletter/MarkdownPreview.tsx:14-17 | `images` lists each match's reference in document order |
| MarkdownPreview.SplitRoundTrip | components/newsletter/MarkdownPreview.tsx:11 | weaving the even parts with the matched texts gives back the content |
| MarkdownPreview.NoTokenSingleBlock | components/newsletter/MarkdownPreview.tsx:11-38 | content without a match is one part, no image and one block |
| MarkdownPreview.ImagesShownByIndex | components/newsletter/MarkdownPreview.tsx:32-38 | block j shows an image exactly when the j-th match has a non-empty reference, and it is that reference |
| MarkdownPreview.ReferenceShownAsText | components/newsletter/MarkdownPreview.tsx:25-30 | the reference of match i is also offered as text, at block 2i+1 |
| NumberInput.PropsOf | components/newsletter/NumberInput.tsx:15-17 | a given bound or step is used as given, and each omitted one takes its own default: `min` 1, `max` 100, `step` 1 |
| NumberInput.Increment | components/newsletter/NumberInput.tsx:19-23 | plus proposes value + step exactly when that does not pass the maximum |
| NumberInput.Decrement | components/newsletter/NumberInput.tsx:25-29 | minus proposes value - step exactly when that does not pass the minimum |
| NumberInput.HandleTextChange | components/newsletter/NumberInput.tsx:31-38 | a value is proposed exactly when parseInt gives a number within the bounds, and it is that number |
| NumberInput.MinusDisabled | components/newsletter/NumberInput.tsx:44-46 | definition; its properties are in NumberInput.ButtonsMatchHandlers |
| NumberInput.PlusDisabled | components/newsletter/NumberInput.tsx:60-62 | definition; its properties are in NumberInput.ButtonsMatchHandlers |
| NumberInput.DigitRun | components/newsletter/NumberInput.tsx:32 | the run is a prefix of the text made only of digits of the radix, and the character after it, if any, is not one |
| NumberInput.DigitsValue | components/newsletter/NumberInput.tsx:32 | definition; its properties are in NumberInput.NatToStringValue and NumberInput.MagnitudeOfNumeral |
| NumberInput.Magnitude | components/newsletter/NumberInput.tsx:32 | what is read after the sign is never negative; its further properties are in NumberInput.MagnitudeOfNumeral |
| NumberInput.ParseInt | components/newsletter/NumberInput.tsx:32 | definition of `parseInt` without a radix; its properties are in NumberInput.ParseIntReadsLeadingInteger, NumberInput.LeadingWhitespaceIgnored, NumberInput.TrailingLettersIgnored, NumberInput.LettersAreNaN and NumberInput.NoLeadingDigitIsNaN |
| NumberInput.EmittedValuesStayInRange | components/newsletter/NumberInput.tsx:19-38 | from a value within the bounds and with a positive step, every proposed value is within the bounds |
| NumberInput.ButtonsMatchHandlers | components/newsletter/NumberInput.tsx:43-63 | a greyed-out button is inert; with step 1 a button is greyed out exactly when it is inert |
| NumberInput.IncrementThenDecrement | components/newsletter/NumberInput.tsx:19-29 | plus then minus returns to the starting value |
| NumberInput.NatToStringValue | components/newsletter/NumberInput.tsx:53 | the shown decimal text of a number is digits that denote that number |
| NumberInput.MagnitudeOfNumeral | components/newsletter/NumberInput.tsx:32 | the digit run of a numeral followed by a non-digit reads as that numeral's value |
| NumberInput.DigitRunOfPrefix | components/newsletter/NumberInput.tsx:32 | a digit run stops where the digits end |
| NumberInput.ParseIntReadsLeadingInteger | components/newsletter/NumberInput.tsx:32 | parseInt of an integer's text followed by anything that does not continue the numeral gives that integer |
| NumberInput.ShownValueTypedBack | components/newsletter/NumberInput.tsx:31-38 | typing the shown value back is accepted exactly when it is within the bounds |
| NumberInput.NoLeadingDigitIsNaN | components/newsletter/NumberInput.tsx:32-33 | text starting with no white space, sign or digit is NaN and ignored |
| NumberInput.LeadingWhitespaceIgnored | components/newsletter/NumberInput.tsx:32 | leading white space does not change what parseInt reads |
| NumberInput.TrailingLettersIgnored | components/newsletter/NumberInput.tsx:32 | parseInt("12abc") is 12 |
| NumberInput.LettersAreNaN | components/newsletter/NumberInput.tsx:32-33 | parseInt("abc") is NaN |
| NumberInput.DefaultsApply | components/newsletter/NumberInput.tsx:15-17 | without props the stepper runs from 1 to 100 by one |
| NumberInput.MaxLinesBounds | components/newsletter/NumberInput.tsx:15-38 | the newsletter screen (`app/(tabs)/newsletter.tsx`, lines 151-156) passes min 1 and max 50 and omits step, which gives the props 1, 50 and 1; with them the number-of-lines field accepts 1 and 50 typed in, ignores 0 and 51, and its buttons stop at 50 and at 1 |
| Calendar.DaysInMonth | components/calendar/CalendarView.tsx:26 | a month has 28 to 31 days, and 29 exactly for February of a leap year |
| Calendar.IsLeapYear | components/calendar/CalendarView.tsx:26 | definition of the Gregorian leap-year rule; its properties are in Calendar.DaysInMonth and Calendar.YearLength |
| Calendar.ValidDate | components/calendar/CalendarView.tsx:24-26 | definition of a real date; its properties are in Calendar.MakeDate, Calendar.PreviousMonth, Calendar.NextMonth and Calendar.CellDayNumber |
| Calendar.JsYear | components/calendar/CalendarView.tsx:24-26 | definition of the two-digit-year rule of `new Date(y, …)`; its properties are in Calendar.MakeDate, Calendar.MonthEnds and Calendar.NavigationLandsOnAdjacentMonth |
| Calendar.DayNumber | components/calendar/CalendarView.tsx:29 | definition; its properties are in Calendar.YearBoundary, Calendar.MonthBoundary, Calendar.CellDayNumber, Calendar.SundayByNumber and Calendar.MondayByNumber |
| Calendar.GetDay | components/calendar/CalendarView.tsx:29 | definition of `getDay()`; its properties are in Calendar.SundayByNumber and Calendar.MondayByNumber |
| Calendar.IsoWeekday | components/calendar/CalendarView.tsx:29-30 | definition; its properties are in Calendar.StepBackToMonday, Calendar.LeadIsWeekdayOfFirst and Calendar.FrameParts |
| Calendar.FirstOfMonth | components/calendar/CalendarView.tsx:24 | definition; its properties are in Calendar.MonthEnds and Calendar.FrameParts |
| Calendar.Lead | components/calendar/CalendarView.tsx:29-30 | definition; its properties are in Calendar.StepBackToMonday, Calendar.LeadIsWeekdayOfFirst and Calendar.FrameParts |
| Calendar.LastOfPreviousMonth | components/calendar/CalendarView.tsx:38 | definition; its properties are in Calendar.PreviousMonthFacts and Calendar.MonthEnds |
| Calendar.FirstOfNextMonth | components/calendar/CalendarView.tsx:52 | definition; its properties are in Calendar.NextMonthFacts and Calendar.MonthEnds |
| Calendar.GridLength | components/calendar/CalendarView.tsx:49-50 | definition; its properties are in Calendar.WholeWeeks, Calendar.CalendarGrid and Calendar.GridIsWholeWeeks |
| Calendar.Cell | components/calendar/CalendarView.tsx:37-54 | definition; its properties are in Calendar.CellDayNumber and Calendar.CellsFormGrid |
| Calendar.IsCalendarGrid | components/calendar/CalendarView.tsx:19-57 | definition of the month grid; its properties are in Calendar.CalendarGridIsGrid, Calendar.GridIsWholeWeeks, Calendar.GridEdges and Calendar.GridHoldsMonthOnce |
| Calendar.SameDay | components/calendar/CalendarView.tsx:71-91 | definition; its properties are in Calendar.CalendarView.IsToday, Calendar.CalendarView.IsSelectedDate and Calendar.AnyOnDay |
| Calendar.MakeDate | components/calendar/CalendarView.tsx:24-26 | `new Date(y, m, d)` for the months and days the screen passes is a real date |
| Calendar.YearLength | components/calendar/CalendarView.tsx:26 | a year has 366 days when it is a leap year and 365 otherwise |
| Calendar.YearBoundary | components/calendar/CalendarView.tsx:52 | 1 January follows 31 December |
| Calendar.MonthBoundary | components/calendar/CalendarView.tsx:38 | the first of a month follows the last day of the month before |
| Calendar.MonthEnds | components/calendar/CalendarView.tsx:24-26 | `new Date(y, m, 1)`, `new Date(y, m, 0)` and `new Date(y, m + 1, …)` land on the first of the month, the last day of the month before and the month after |
| Calendar.PreviousMonthFacts | components/calendar/CalendarView.tsx:38 | day 0 of the month is the last day of the month before, one day before the first |
| Calendar.NextMonthFacts | components/calendar/CalendarView.tsx:52 | the first of the month after falls the month's length after the first of the month |
| Calendar.CellDayNumber | components/calendar/CalendarView.tsx:37-54 | every cell is a real date, one day after the cell before it |
| Calendar.CellsFormGrid | components/calendar/CalendarView.tsx:37-54 | cells laid out month before, month, month after form the grid of the month |
| Calendar.WholeWeeks | components/calendar/CalendarView.tsx:49-50 | topping up by `7 - length % 7`, unless that is 7, ends on whole weeks |
| Calendar.CalendarGrid | components/calendar/CalendarView.tsx:19-57 | the grid's length is the lead and the month topped up to whole weeks |
| Calendar.CalendarGridIsGrid | components/calendar/CalendarView.tsx:19-57 | the grid of a month is a calendar grid: whole weeks of consecutive real days from the Monday on or before the first, with the month's days in place |
| Calendar.PreviousMonthDay | components/calendar/CalendarView.tsx:40 | `new Date(year, month - 1, d)` is day d of the month before |
| Calendar.MonthDay | components/calendar/CalendarView.tsx:45 | `new Date(year, month, d)` is day d of the month |
| Calendar.NextMonthDay | components/calendar/CalendarView.tsx:52 | `new Date(year, month + 1, d)` is day d of the month after |
| Calendar.GeneratorSetup | components/calendar/CalendarView.tsx:24-38 | the month's length and the last day of the month before, read off the generator's dates |
| Calendar.FrameParts | components/calendar/CalendarView.tsx:24-32 | the lead is the first's weekday minus one, with Sunday as 7 |
| Calendar.DayRun | components/calendar/CalendarView.tsx:44-46 | a run of `new Date(year, month, from + k)` has the requested length |
| Calendar.PreviousMonthSegment | components/calendar/CalendarView.tsx:38-41 | the first loop's days are the leading cells of the grid |
| Calendar.MonthSegment | components/calendar/CalendarView.tsx:44-46 | the second loop's days are the month's cells |
| Calendar.NextMonthSegment | components/calendar/CalendarView.tsx:49-54 | the third loop's days are the trailing cells |
| Calendar.GeneratedDaysAreGrid | components/calendar/CalendarView.tsx:37-54 | the three loops' days together are the grid of the month |
| Calendar.PreviousMonthTail | components/calendar/CalendarView.tsx:38-41 | the counting-down loop pushes the last `dayOfWeek - 1` days of the month before, in order |
| Calendar.AppendMonthHead | components/calendar/CalendarView.tsx:44-46 | the counting-up loop appends days 1 to count of the month |
| Calendar.GenerateCalendarDays | components/calendar/CalendarView.tsx:19-57 | the generator produces exactly the grid of the month |
| Calendar.StepBackToMonday | components/calendar/CalendarView.tsx:29-30 | turning Sunday's 0 into 7 makes the lead 0 to 6 and puts the grid's start on a Monday |
| Calendar.WeeksFromMonday | components/calendar/CalendarView.tsx:49-54 | whole weeks from a Monday end on a Sunday, and there are at most six |
| Calendar.SundayByNumber | components/calendar/CalendarView.tsx:29 | a day one short of a multiple of 7 is a Sunday |
| Calendar.MondayByNumber | components/calendar/CalendarView.tsx:29 | a day at a multiple of 7 is a Monday |
| Calendar.LeadIsWeekdayOfFirst | components/calendar/CalendarView.tsx:29-30 | the lead is 0 to 6, and stepping back by it from the first reaches a Monday |
| Calendar.GridIsWholeWeeks | components/calendar/CalendarView.tsx:19-57 | a grid has 28 to 42 cells in whole weeks, from a Monday to a Sunday |
| Calendar.GridEdges | components/calendar/CalendarView.tsx:37-54 | the lead ends on the last day of the month before, and the month after contributes at most six days from its first |
| Calendar.GridHoldsMonthOnce | components/calendar/CalendarView.tsx:43-46 | each day of the month appears once, in order, and exactly those cells carry the month's number |
| Calendar.PreviousMonth | components/calendar/CalendarView.tsx:59-61 | the month before is a real date |
| Calendar.NextMonth | components/calendar/CalendarView.tsx:63-65 | the month after is a real date |
| Calendar.NavigationLandsOnAdjacentMonth | components/calendar/CalendarView.tsx:59-65 | navigation lands on the first of the adjacent month, across year ends, and the two moves undo each other |
| Calendar.AnyOnDay | components/calendar/CalendarView.tsx:84-91 | true exactly when some event falls on the day |
| Calendar.CalendarView.constructor | components/calendar/CalendarView.tsx:12-17 | the view opens on today's month with that month's grid on screen |
| Calendar.CalendarView.GoToPreviousMonth | components/calendar/CalendarView.tsx:59-61 | shows the month before and keeps the grid on screen equal to the grid of the month shown |
| Calendar.CalendarView.GoToNextMonth | components/calendar/CalendarView.tsx:63-65 | shows the month after and keeps the grid on screen equal to the grid of the month shown |
| Calendar.CalendarView.IsCurrentMonth | components/calendar/CalendarView.tsx:67-69 | true exactly when the month number equals the shown month's, whatever the year |
| Calendar.CalendarView.CurrentMonthCellsAreTheMonth | components/calendar/CalendarView.tsx:67-69 | within the grid, exactly the month's own days count as the current month |
| Calendar.CalendarView.IsToday | components/calendar/CalendarView.tsx:71-76 | true exactly when the day is today |
| Calendar.CalendarView.IsSelectedDate | components/calendar/CalendarView.tsx:78-82 | true exactly when the day is the selected day |
| Calendar.CalendarView.HasEvents | components/calendar/CalendarView.tsx:84-91 | true exactly when some event falls on the day |

## Left out

- HTTP itself is not modelled: URLs, headers, `fetch`, `console.error` and the wording of error messages (each failure is a named case). `fetchNewsletterVariables` and `updateNewsletterVariables` rethrow every failure from their `catch` as one generic error (lines 42-45 and 71-74); the model keeps the cause that the `catch` logs, and the screen only logs the error. Each exchange is a parameter: no response, or a status with the body parsed as JSON or not.
- JSON numbers are integers. Fractions, NaN and very large numbers are not modelled, nor the order of object keys, which nothing in the core reads.
- Strings are sequences of Unicode scalar values. UTF-16 surrogate pairs are not modelled.
- Webhook.DecodeWebhookData: a present field of the wrong JSON type (a string `ton`, say) is reported as `Mistyped`. The TypeScript code passes such a value through unchecked, and the model does not carry ill-typed variables.
- Webhook.ResponseContent: a truthy text candidate that is not a string makes `.replace` throw; the model reports this as `NotAString` and does not model which JavaScript error it would be.
- ImageToken.StripTokens: removal is a single pass, like the source's global `replace`. A token formed by the removal itself stays in the text; no lemma is stated about that case.
- Calendar.MakeDate: models `new Date(y, m, d)` only for the month offsets the screen passes (one month before to one month after) and for days 0 up to the month's length. Times of day and time zones are not modelled; a date is its calendar day.
- Calendar.NavigationLandsOnAdjacentMonth: stated only for years from 101 on. For years 0 to 99, `new Date` reads the year as 1900 to 1999, and `MakeDate` models that rule, so the two moves do not undo each other there. Year 100 is excluded for the same reason: going back from January 100 gives `new Date(100, -1, 1)`, which is December of year 99, and going forward from there reads 99 as 1999 and lands in January 2000. Of the negative years, which the requirement also leaves out, only year -1 would break the round trip, because going forward from its December reaches year 0, which is then read as 1900.
- Calendar.CalendarView.IsToday: the clock is a parameter, and so is today's date for the constructor.
- The rendering is left out: React state hooks, styles, the month title and the cell touch handlers. The calendar grid is kept as the field the hook would hold.
- NumberInput.Props: the value, `min`, `max` and `step` are integers. JavaScript numbers are floating point, so a fractional step or value is not modelled; the newsletter screen passes only integers.
- NumberInput.ParseInt: exact integers only. Precision loss above 2^53 is not modelled, nor the `Infinity` that a very long numeral gives.

## Findings

| source | as written | input that shows it | evidently intended | confidence | as-written member | corrected member |
|---|---|---|---|---|---|---|
| services/webhookService.ts:149 | the lazy `.*?` of `/!\[.*?\]\(data:image\/[^)]+\)/g` may grow past an earlier token's `](` until `](data:image/` follows, so the match starts at an ordinary image token on the same line and removes it too | `![](u)![](data:image/x)` becomes the empty text | remove only the inline-image token and keep `![](u)`; the comment request itself (`Webhook.SendComment`) is modelled with the pattern as written | not executed | DataImage.AsWrittenSwallowsPrecedingToken | DataImage.CorrectedKeepsOrdinaryToken |
