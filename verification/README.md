# Web AI Chat: a verified model of the session logic

The Web AI Chat feature lets a user load a web page, see it in a preview
frame, and ask a Gemini model questions about the page's text. This project
models the logic behind one such session in Dafny. It covers two revisions
of the same feature.

- **The workbench service** (`WebAiChatService`). Fetching a page does the
  following:
  - it cancels any fetch still in flight;
  - it checks the HTTP status;
  - it cleans the HTML into plain text, which becomes the page text used in
    prompts;
  - it prepares the HTML for the preview, injecting a `<base>` tag and the
    sandbox script;
  - it classifies failures into user-facing messages.

  Asking a question checks the page text and the API key, then builds a
  prompt from at most 15000 characters of the page text.
- **The earlier extension** (`aichat.startSession`). Its webview message
  handler covers `loadWebsite`, `cancelLoadWebsite` and `askLLM`. The
  abort controller is kept at module level. The page text is stored per
  panel. It decides whether a page can be shown in a frame from its
  `X-Frame-Options` and `Content-Security-Policy` headers.

Modules:

| file | module | what |
|---|---|---|
| `wrappers.dfy` | `Wrappers`, `Notifications` | `Option`; a notification (severity and text) |
| `text.dfy` | `Text` | JavaScript's `\s` set, ASCII case folding of the `i` flag, `includes`, and the decimal printing of numbers |
| `html_clean.dfy` | `HtmlClean` | the five-step cleaning chain, as global regular-expression replacements scanned left to right |
| `html_inject.dfy` | `HtmlInject` | injection of the `<base>` tag and the sandbox script into the page |
| `web_ai_chat_service.dfy` | `WebAiChatService` | the service class: status check, fetch, cancellation, prompt, error classification, question |
| `ai_chat_extension.dfy` | `AiChatExtension` | the extension's message handler and its embeddability rule |

How the two stateful objects are modelled:

- The service and the chat panel are classes whose fields change in place.
  `siteContent` is the page text. The cancellation handle is a
  `CancellationSource`, or an `AbortController` in the extension.
- Every state-changing method keeps the invariant `Valid()`: the page text
  is always text the cleaner could have produced (`IsCleanText`).
- The outcome of a network call is a parameter (`RequestOutcome`,
  `ApiReply`, `LoadOutcome`, `GenerateOutcome`).
- What the code shows or posts is an out-parameter: a `Notice`, a
  `PanelMessage`, or the request sent to the model.

## Model

| member | source | states |
|---|---|---|
| Text.Lower | src/vs/workbench/contrib/webAIChat/common/webAiChatService.ts:172-173 | the `i` flag folds each of `A`-`Z` onto its own lower-case letter (32 code points on) and leaves every other character as it is; nothing else becomes a lower-case ASCII letter |
| Text.Contains | src/vs/workbench/contrib/webAIChat/common/webAiChatService.ts:337 | `includes` holds exactly when the pattern occurs at some position |
| Text.DecimalString | src/vs/workbench/contrib/webAIChat/common/webAiChatService.ts:70 | a status prints as a non-empty run of digits with no leading zero |
| Text.DecimalRoundTrip | src/vs/workbench/contrib/webAIChat/common/webAiChatService.ts:70 | the printed status reads back as the same number |
| HtmlClean.BlockLen | src/vs/workbench/contrib/webAIChat/common/webAiChatService.ts:172-173 | a `<style…>…</style>` or `<script…>…</script>` match is never empty and never runs past the text |
| HtmlClean.BlockLenIsRegexMatch | src/vs/workbench/contrib/webAIChat/common/webAiChatService.ts:172-173 | `BlockLen` finds a regex match at the position when there is one: an opening tag up to its first `>`, then the nearest closing tag, case-insensitively (lazy `[\s\S]*?`) |
| HtmlClean.BlockLenFinds | src/vs/workbench/contrib/webAIChat/common/webAiChatService.ts:172-173 | every prefix that is such a block is the one found, so the match is unique |
| HtmlClean.RemoveBlocks | src/vs/workbench/contrib/webAIChat/common/webAiChatService.ts:172-173 | removing blocks never lengthens the text; which text is kept and which deleted is stated by `RemoveBlocksPlainPrefix`, `RemoveBlocksDropsBlock`, `RemoveBlocksDropsInnerBlock` and `RemoveBlocksKeepsUnclosed` |
| HtmlClean.RemoveBlocksKeepsUnclosed | src/vs/workbench/contrib/webAIChat/common/webAiChatService.ts:172-173 | where no complete block starts (an opening such as `<style>` with no close tag after it), the first character is kept and the scan goes on at the next one, so the unclosed tag is left for the tag stage |
| HtmlClean.RemoveBlocksDropsBlock | src/vs/workbench/contrib/webAIChat/common/webAiChatService.ts:172-173 | a complete block at the front disappears entirely |
| HtmlClean.RemoveBlocksPlainPrefix | src/vs/workbench/contrib/webAIChat/common/webAiChatService.ts:172-173 | text in which `<style` (or `<script`) begins nowhere passes through unchanged and in order, even when it holds other tags such as `<p>`; the scan then goes on after it |
| HtmlClean.RemoveBlocksDropsInnerBlock | src/vs/workbench/contrib/webAIChat/common/webAiChatService.ts:172-173 | a complete block after text in which the expression does not begin (and whose last character, if any, folds onto no character of `<tag`, as a `>`, a line break or a space do not) is deleted, and the text around it is handled as if the block had never been there |
| HtmlClean.RemoveBlocksTagFree | src/vs/workbench/contrib/webAIChat/common/webAiChatService.ts:172-173 | text with no complete tag is left as it is |
| HtmlClean.ReplaceTags | src/vs/workbench/contrib/webAIChat/common/webAiChatService.ts:174 | replacing tags never lengthens the text; `ReplaceTagsNoCompleteTag`, `ReplaceTagsAtTag` and `ReplaceTagsSplit` state what it keeps and what it replaces |
| HtmlClean.ReplaceTagsNoCompleteTag | src/vs/workbench/contrib/webAIChat/common/webAiChatService.ts:174 | after `/<[^>]*>/g` → space, no `<` is followed by a `>` |
| HtmlClean.ReplaceTagsChars | src/vs/workbench/contrib/webAIChat/common/webAiChatService.ts:174 | the replacement adds no character other than a space |
| HtmlClean.ReplaceTagsTagFree | src/vs/workbench/contrib/webAIChat/common/webAiChatService.ts:174 | text with no complete tag is left as it is |
| HtmlClean.ReplaceTagsAtTag | src/vs/workbench/contrib/webAIChat/common/webAiChatService.ts:174 | a tag at the front, up to its first `>`, becomes a single space |
| HtmlClean.ReplaceTagsSplit | src/vs/workbench/contrib/webAIChat/common/webAiChatService.ts:174 | the first tag, from `<` to the first `>`, becomes one space and the text before it is kept |
| HtmlClean.CollapseWs | src/vs/workbench/contrib/webAIChat/common/webAiChatService.ts:175 | `/\s+/g` → space empties nothing, and keeps whether the text starts with white space; `CollapseWsSplit` states that each run becomes exactly one space |
| HtmlClean.CollapseWsSplit | src/vs/workbench/contrib/webAIChat/common/webAiChatService.ts:175 | a run of white space between visible text becomes exactly one space: it neither vanishes nor joins the words on either side |
| HtmlClean.CollapseBlankLine | src/vs/workbench/contrib/webAIChat/common/webAiChatService.ts:175 | a blank line between two words, `a\n\nb`, becomes `a b` |
| HtmlClean.TagSeparatesWords | src/vs/workbench/contrib/webAIChat/common/webAiChatService.ts:174-175 | after the tag and white-space stages, a word before a tag is followed by exactly one space and then the collapsed rest with its leading white space dropped, whatever tags and line breaks follow; so `foo</p>\n<p>bar` cannot run together as `foobar` |
| HtmlClean.CollapseWsShape | src/vs/workbench/contrib/webAIChat/common/webAiChatService.ts:175 | the result has only single spaces as white space |
| HtmlClean.CollapseWsVisible | src/vs/workbench/contrib/webAIChat/common/webAiChatService.ts:175 | the non-white-space characters are kept in order |
| HtmlClean.CollapseWsChars | src/vs/workbench/contrib/webAIChat/common/webAiChatService.ts:175 | the collapsing adds no character other than a space |
| HtmlClean.CollapseWsKeepsNoTag | src/vs/workbench/contrib/webAIChat/common/webAiChatService.ts:175 | collapsing white space creates no tag |
| HtmlClean.CollapseWsCollapsed | src/vs/workbench/contrib/webAIChat/common/webAiChatService.ts:175 | already-collapsed text is a fixed point |
| HtmlClean.TrimStart | src/vs/workbench/contrib/webAIChat/common/webAiChatService.ts:176 | removes exactly the leading white space: a suffix, every removed character white space, the result starting with a non-space |
| HtmlClean.TrimEnd | src/vs/workbench/contrib/webAIChat/common/webAiChatService.ts:176 | removes exactly the trailing white space |
| HtmlClean.Trim | src/vs/workbench/contrib/webAIChat/common/webAiChatService.ts:176 | the trimmed text starts and ends with a non-white-space character, or is empty |
| HtmlClean.TrimStartVisible | src/vs/workbench/contrib/webAIChat/common/webAiChatService.ts:176 | trimming the front keeps every non-white-space character |
| HtmlClean.TrimEndVisible | src/vs/workbench/contrib/webAIChat/common/webAiChatService.ts:176 | trimming the end keeps every non-white-space character |
| HtmlClean.TrimResult | src/vs/workbench/contrib/webAIChat/common/webAiChatService.ts:176 | `trim` leaves no white space at either end and loses no visible character |
| HtmlClean.TrimKeepsShape | src/vs/workbench/contrib/webAIChat/common/webAiChatService.ts:176 | trimming keeps collapsed, tag-free text so, and does not change already trimmed text |
| HtmlClean.Clean | src/vs/workbench/contrib/webAIChat/common/webAiChatService.ts:170-177 | the cleaned text has no complete tag, no white space at the ends, and single spaces as its only white space |
| HtmlClean.CleanIdempotent | src/vs/workbench/contrib/webAIChat/common/webAiChatService.ts:170-177 | cleaning cleaned text changes nothing |
| HtmlClean.CleanPlainText | src/vs/workbench/contrib/webAIChat/common/webAiChatService.ts:170-177 | on text without `<` the cleaner only collapses and trims white space, and keeps every visible character |
| HtmlClean.CleanDropsStyleBlock | src/vs/workbench/contrib/webAIChat/common/webAiChatService.ts:172 | after any text in which no `<style` begins and whose last character folds onto no character of `<style` (such as `<html><head>`, `<p>`, or either followed by a line break and indentation), a complete style block leaves no trace in the cleaned text, not even a space |
| HtmlClean.CleanDropsScriptBlock | src/vs/workbench/contrib/webAIChat/common/webAiChatService.ts:173 | likewise for a complete script block after text in which neither `<script` nor `<style` begins, when no `<style` begins before the block's end either |
| HtmlClean.CleanDropsStyleInHead | src/vs/workbench/contrib/webAIChat/common/webAiChatService.ts:172 | a style block in a head laid out over lines (`<html>`, line break, `<head>`, line break, indentation) leaves no trace |
| HtmlInject.FirstTag | src/vs/workbench/contrib/webAIChat/common/webAiChatService.ts:185-188 | finds the leftmost case-insensitive `<head[^>]*>` (or `<html[^>]*>`) match, and reports none only when there is no match at all |
| HtmlInject.FirstTagIsLeftmost | src/vs/workbench/contrib/webAIChat/common/webAiChatService.ts:185-188 | any match with no match before it is the one found |
| HtmlInject.InjectScripts | src/vs/workbench/contrib/webAIChat/common/webAiChatService.ts:179-194 | no contract of its own; `InjectAfterHead`, `InjectAfterHtml`, `InjectWraps` and `InjectCarriesBaseAndScript` state its three cases and what every case carries |
| HtmlInject.InjectAfterHead | src/vs/workbench/contrib/webAIChat/common/webAiChatService.ts:185-186 | with a head tag, a newline, the base tag, a newline and the script go right after the first one; the rest of the page is untouched |
| HtmlInject.InjectAfterHtml | src/vs/workbench/contrib/webAIChat/common/webAiChatService.ts:187-188 | without a head tag but with an html tag, a `<head>` holding the base tag and script follows the first html tag |
| HtmlInject.InjectWraps | src/vs/workbench/contrib/webAIChat/common/webAiChatService.ts:189-190 | otherwise the page is wrapped whole in a new document whose head holds both |
| HtmlInject.InjectCarriesBaseAndScript | src/vs/workbench/contrib/webAIChat/common/webAiChatService.ts:179-194 | in every case the prepared page contains the base tag and the script |
| HtmlInject.HeaderCountsAsHead | src/vs/workbench/contrib/webAIChat/common/webAiChatService.ts:185-186 | `<head[^>]*>` also matches a `<header…>` tag: on any page where such a tag comes before every real head match, the newline, base tag, newline and script go right after it, and the rest of the page is kept |
| WebAiChatService.HttpErrorText | src/vs/workbench/contrib/webAIChat/common/webAiChatService.ts:70 | no contract of its own; `StatusErrorMessage`, `ServerErrorStatuses`, `ClientErrorStatuses` and `MissingStatus` state how its text is classified, and `DecimalRoundTrip` that the status reads back from it |
| WebAiChatService.CheckStatus | src/vs/workbench/contrib/webAIChat/common/webAiChatService.ts:68-71 | a response passes exactly when its status is in [200, 300); a missing status fails as `HTTP 0` |
| WebAiChatService.Truncate | src/vs/workbench/contrib/webAIChat/common/webAiChatService.ts:300 | the prompt's text is the first min(15000, length) characters of the page text |
| WebAiChatService.BuildPrompt | src/vs/workbench/contrib/webAIChat/common/webAiChatService.ts:299-307 | no contract of its own; `PromptCarriesTruncatedContent` states what the prompt carries and where |
| WebAiChatService.PromptCarriesTruncatedContent | src/vs/workbench/contrib/webAIChat/common/webAiChatService.ts:299-307 | the truncated page text and the question can be read back from their places in the prompt; nothing after the limit affects the prompt |
| WebAiChatService.ReplyText | src/vs/workbench/contrib/webAIChat/common/webAiChatService.ts:134-135 | the answer is never empty: a missing or empty text gives the default |
| WebAiChatService.GetErrorMessage | src/vs/workbench/contrib/webAIChat/common/webAiChatService.ts:332-334 | the message is never empty; an error without a message gets the generic text |
| WebAiChatService.FirstTrue | src/vs/workbench/contrib/webAIChat/common/webAiChatService.ts:337-353 | picks the first keyword test that fires, or none |
| WebAiChatService.GetErrorMessageIsFirstMatch | src/vs/workbench/contrib/webAIChat/common/webAiChatService.ts:332-354 | the classifier equals a first-match search over the fixed order of keyword tests |
| WebAiChatService.StatusErrorMessage | src/vs/workbench/contrib/webAIChat/common/webAiChatService.ts:345-353 | for a failed status check, no network or certificate keyword can fire; the status digits alone decide between 403, 404, server error and generic |
| WebAiChatService.ServerErrorStatuses | src/vs/workbench/contrib/webAIChat/common/webAiChatService.ts:349-350 | every 5xx status is reported as a server error |
| WebAiChatService.ClientErrorStatuses | src/vs/workbench/contrib/webAIChat/common/webAiChatService.ts:345-353 | 403 and 404 get their own texts; a 4xx with a 5 among its digits (405, 450) is reported as a server error; other 4xx get the generic text |
| WebAiChatService.MissingStatus | src/vs/workbench/contrib/webAIChat/common/webAiChatService.ts:68-70 | a response without a status ends in the generic `Failed to fetch: HTTP 0` text |
| WebAiChatService.WebAiChatService.constructor | src/vs/workbench/contrib/webAIChat/common/webAiChatService.ts:33-34 | a new service has no page text and no fetch in flight |
| WebAiChatService.WebAiChatService.CancelLoadWebsite | src/vs/workbench/contrib/webAIChat/common/webAiChatService.ts:46-52 | the handle in flight is cancelled, disposed and forgotten; with none, nothing changes; the page text is kept |
| WebAiChatService.WebAiChatService.Dispose | src/vs/workbench/contrib/webAIChat/common/webAiChatService.ts:356-358 | disposing the service cancels the fetch in flight |
| WebAiChatService.WebAiChatService.FetchWebsite | src/vs/workbench/contrib/webAIChat/common/webAiChatService.ts:54-108 | the earlier handle is cancelled and no handle remains; see below |
| WebAiChatService.WebAiChatService.AskAI | src/vs/workbench/contrib/webAIChat/common/webAiChatService.ts:110-148 | no page text: the no-content answer, no request; no key: an error notice and the not-configured answer; otherwise exactly one request with the key and the built prompt; the answer is the reply text (not an error) or the fixed apology (an error); the answer is never empty |
| AiChatExtension.UpperChar | extensions/ai-chat/extension.js:48-50 | `a`-`z` become their capitals and `A`-`Z` stay; an ASCII capital comes only from an ASCII letter or from dotless i / long s, as `toUpperCase` makes them |
| AiChatExtension.IsEmbeddable | extensions/ai-chat/extension.js:47-62 | no contract of its own; `EmbeddableExactly` states when it forbids framing, both ways |
| AiChatExtension.UpperCaseIsCapitals | extensions/ai-chat/extension.js:48-56 | the upper-cased value equals DENY (or SAMEORIGIN) exactly when each character folds onto the lower-case word in ASCII case, or is a dotless i or long s standing for an i or an s |
| AiChatExtension.EmbeddableExactly | extensions/ai-chat/extension.js:47-62 | framing is forbidden exactly when the X-Frame-Options value folds to `deny` or `sameorigin`, or the CSP contains `frame-ancestors 'none'` or `frame-ancestors 'self'`; no other value, `ALLOW-FROM` included, forbids it |
| AiChatExtension.EmbeddableReadsOnlyFramingHeaders | extensions/ai-chat/extension.js:47-62 | only `x-frame-options` and `content-security-policy` decide; with neither, the page is embeddable |
| AiChatExtension.XFrameOptionsIgnoresCase | extensions/ai-chat/extension.js:48-56 | a value that is `deny` in any mix of ASCII case forbids framing |
| AiChatExtension.XFrameOptionsSameOriginIgnoresCase | extensions/ai-chat/extension.js:48-56 | a value that is `sameorigin` in any mix of ASCII case forbids framing |
| AiChatExtension.XFrameOptionsLongS | extensions/ai-chat/extension.js:48-56 | `ſameorigin`, with a long s, also forbids framing, since `toUpperCase` turns it into SAMEORIGIN |
| AiChatExtension.FrameAncestorsForbid | extensions/ai-chat/extension.js:57-62 | a CSP that contains `frame-ancestors 'none'` or `frame-ancestors 'self'` anywhere forbids framing |
| AiChatExtension.XFrameOptionsNotTrimmed | extensions/ai-chat/extension.js:48-56 | the value is compared exactly: `DENY ` with a trailing space does not forbid framing |
| AiChatExtension.Prompt | extensions/ai-chat/extension.js:133-139 | no contract of its own; `PromptCarriesTruncatedContent` states what the prompt carries and where |
| AiChatExtension.PromptCarriesTruncatedContent | extensions/ai-chat/extension.js:133-139 | the extension's prompt carries the first min(15000, length) characters of the page text and the question at fixed places, indentation included |
| AiChatExtension.ExtensionState.constructor | extensions/ai-chat/extension.js:10 | no load is in flight when the extension starts |
| AiChatExtension.ChatPanel.constructor | extensions/ai-chat/extension.js:29 | a new panel has no page text |
| AiChatExtension.ChatPanel.LoadWebsite | extensions/ai-chat/extension.js:35-94 | see below |
| AiChatExtension.ChatPanel.CancelLoadWebsite | extensions/ai-chat/extension.js:96-101 | the controller in flight is aborted and dropped; with none, nothing changes |
| AiChatExtension.ChatPanel.AskLlm | extensions/ai-chat/extension.js:103-156 | exactly one message is posted: the no-content text with no page text; with no key, an error notice and the not-configured text; otherwise the model's text, or the fixed apology if anything fails; the prompt is sent exactly when both checks pass |

`WebAiChatService.WebAiChatService.FetchWebsite` ensures the following:

- A 2xx response:
  - the page text becomes `Clean(body)`;
  - the result holds the injected page and that text;
  - the success notice is shown.
- A bad or missing status:
  - the page text is emptied;
  - an `Error` carrying `HTTP <status>: Failed to fetch` is rethrown;
  - its classified message is shown.
- An error named `Canceled`: the result is `null`, nothing is shown, and the
  page text is kept.
- Any other error: the page text is emptied, the error is rethrown, and its
  classified message is shown.
- The page text always satisfies `IsCleanText`.

`AiChatExtension.ChatPanel.LoadWebsite` ensures the following:

- The previous controller is aborted, and none remains afterwards.
- `loadComplete` is always posted.
- A response:
  - the page text becomes `Clean(data)`, the same cleaning chain as the
    service (extension.js:74-79);
  - the success notice is shown if `IsEmbeddable` allows framing,
    otherwise the not-embeddable warning.
- A cancelled request: the page text is kept and nothing is shown.
- Any other failure: the page text is emptied and the failure notice is
  shown.

## Left out

- HTTP, streams, JSON and the Gemini SDK are not modelled.
  - How a request ends is a parameter of each method: status and body, or
    a thrown error; reply text or failure.
  - `callGeminiAPI`, `getBrowserHeaders`, the URL parsing with `new URL`
    and the axios/Gemini client setup are left out. A malformed URL
    throws before the request; it is one of the "other error" outcomes.
- The JavaScript of `getSandboxFixScript` (webAiChatService.ts:196-297) is
  not modelled.
  - `SandboxFixScript` is a stand-in text. Every property about injection
    holds for any script text without `$`.
- WebAiChatService.FetchWebsite: requires the URL to contain no `$`.
  - The source passes the base tag through `String.prototype.replace`,
    where `$$`, `$&`, `` $` ``, `$'` and `$n` in the URL or script would be
    expanded.
  - `InjectScripts` models the replacement only for text without `$`.
- Localisation (`localize`) is taken to return the English default text with
  `{0}` substituted.
- Notifications and webview messages are returned as values; the
  notification and webview services are not modelled.
- Console logging in `extensions/ai-chat/extension.js` is not modelled. This
  covers the activation message (line 13), the cancellation message (line
  82) and the two `console.error` calls for failed loads and failed model
  calls (lines 88 and 150). None of them changes state or what is sent to
  the webview.
- Concurrency is not modelled.
  - Each method runs to completion, with the network outcome already known.
  - Interleavings are left out: a second `fetchWebsite` or `loadWebsite`
    can start while an earlier one awaits. In that case the earlier call's
    `finally` clears the newer call's handle.
- `siteContent.substring(0, 15000)` counts UTF-16 code units; `Truncate`
  counts Dafny characters, which are Unicode scalar values.
- AiChatExtension.ChatPanel.LoadWebsite: assumes `response.data` is a
  string. Non-string data would make the cleaning chain throw, and that
  path is not modelled.
- AiChatExtension.UpperChar: maps only `a`-`z`, dotless i (U+0131) and
  long s (U+017F); every other character is kept as it is, where
  `toUpperCase` would map it by the full Unicode case tables.
  - Upper-casing is only ever compared with DENY and SAMEORIGIN, so this
    cannot change the result.
  - `toUpperCase` either keeps any other character too, or turns it into
    text that holds a non-ASCII character or a letter pair (SS from ß, and
    FF, FI, FL, ST from the ligatures) that neither word contains.
  - No such value can therefore become DENY or SAMEORIGIN, in JavaScript or
    in the model.
  - Because of the expansions, the model keeps the length where
    `toUpperCase` need not.
- The trivial getter `getSiteContent` is not modelled.
- The webview and editor user interface (the preview frame, the resizer,
  the chat view) is not modelled. Neither are the extension's
  `getWebviewContent` HTML or its activation.
