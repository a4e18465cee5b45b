/**
 * `WebAiChatService`: the session behind the workbench "Web AI Chat" editor.
 * It fetches a page (cancelling any fetch still in flight), keeps the page's
 * cleaned text, and answers questions about it through the model API.
 * The network, the stream reader, `JSON.parse` and the settings store are not
 * modelled: what they produce is given to each operation as a parameter.
 */
module WebAiChatService {
  import opened Wrappers
  import opened Notifications
  import opened Text
  import opened HtmlClean
  import opened HtmlInject

  // ---------------------------------------------------------------------------
  // Constants (webAiChatConstants.ts)

  const MaxSiteContentLength: nat := 15000
  const HttpOkMin: nat := 200
  const HttpOkMax: nat := 300

  // ---------------------------------------------------------------------------
  // User-facing texts

  const NoContentText := "Error: Please load a website first or check if the URL is correct."
  const ApiKeyMissingText := "Please set your Google AI API Key in the settings."
  const ApiKeyNotConfiguredText := "API Key not configured."
  const NoAiResponseText := "No response from AI"
  const AiErrorText := "Sorry, I encountered an error with the AI model."
  const FetchSuccessText := "Website content fetched successfully!"

  const FetchFailedText := "Failed to fetch website content."
  const WebsiteNotFoundText := "Cannot find the website. Please check the URL."
  const ConnectionRefusedText := "Connection refused. The website may be down."
  const TimeoutText := "Request timeout. The website is taking too long to respond."
  const CertErrorText := "SSL certificate error. The website may have security issues."
  const ForbiddenText := "Access forbidden (403). The website may be blocking automated requests."
  const NotFoundText := "Page not found (404). Please check the URL."

  function ServerErrorText(message: string): string {
    "Server error (" + message + "). The website may be experiencing issues."
  }

  function FetchErrorText(message: string): string {
    "Failed to fetch: " + message
  }

  /**
   * The script that stops the page from breaking out of the preview frame. Its
   * JavaScript is not part of this model; every property below holds for any
   * script text without `$`.
   */
  function SandboxFixScript(): (script: string)
    ensures '$' !in script
  {
    var script := "<script>/* sandbox fix */</script>";
    assert forall i :: 0 <= i < |script| ==> script[i] != '$';
    script
  }

  // ---------------------------------------------------------------------------
  // The status check

  /** `response.res.statusCode || 0`: a missing status reads as 0. */
  function StatusCode(status: Option<nat>): nat {
    status.GetOr(0)
  }

  /** The fixed parts around the digits of a status error text. */
  const StatusPrefix := "HTTP "
  const StatusSuffix := ": Failed to fetch"

  function HttpErrorText(code: nat): string {
    StatusPrefix + DecimalString(code) + StatusSuffix
  }

  /**
   * The error the status check throws, if any: only a status in [200, 300)
   * passes, and a missing status fails as status 0.
   */
  function CheckStatus(status: Option<nat>): (r: Option<string>)
    ensures r.None? <==> status.Some? && 200 <= status.value < 300
    ensures status.None? ==> r == Some(HttpErrorText(0))
    ensures r.Some? ==> r.value == HttpErrorText(status.GetOr(0))
  {
    var code := StatusCode(status);
    if code < HttpOkMin || code >= HttpOkMax then Some(HttpErrorText(code)) else None
  }

  // ---------------------------------------------------------------------------
  // Prompt and reply

  /** `siteContent.substring(0, MAX_SITE_CONTENT_LENGTH)`. */
  function Truncate(content: string): (r: string)
    ensures |r| == if |content| < 15000 then |content| else 15000
    ensures r == content[..|r|]
  {
    if |content| <= MaxSiteContentLength then content else content[..MaxSiteContentLength]
  }

  const PromptIntro := "Based ONLY on the following website content, answer the user's question.\nWebsite Content: \""
  const PromptMiddle := "\"\n\nUser Question: \""
  const PromptEnd := "\""

  /** `buildPrompt`: the fixed instructions, the page text cut to its limit, and the question. */
  function BuildPrompt(siteContent: string, question: string): string {
    PromptIntro + Truncate(siteContent) + PromptMiddle + question + PromptEnd
  }

  /**
   * The prompt carries exactly the first min(15000, |siteContent|) characters
   * of the page text: they can be read back from between the fixed parts once
   * the question is known, and nothing after them influences the prompt.
   */
  lemma PromptCarriesTruncatedContent(siteContent: string, question: string)
    ensures var p := BuildPrompt(siteContent, question);
            && |p| == |PromptIntro| + |Truncate(siteContent)| + |PromptMiddle| + |question| + |PromptEnd|
            && p[|PromptIntro|..|p| - |PromptMiddle| - |question| - |PromptEnd|] == Truncate(siteContent)
            && p[|p| - |PromptEnd| - |question|..|p| - |PromptEnd|] == question
    ensures |siteContent| <= 15000 ==> Truncate(siteContent) == siteContent
    ensures |siteContent| > 15000 ==> BuildPrompt(siteContent, question) == BuildPrompt(siteContent[..15000], question)
  {
    var p := BuildPrompt(siteContent, question);
    var t := Truncate(siteContent);
    assert p == PromptIntro + t + (PromptMiddle + question + PromptEnd);
    assert p[|PromptIntro|..|PromptIntro| + |t|] == t;
    assert p == (PromptIntro + t + PromptMiddle) + question + PromptEnd;
  }

  /**
   * `candidates?.[0]?.content?.parts?.[0]?.text || 'No response from AI'`:
   * `text` is what that path reaches, if anything.
   */
  function ReplyText(text: Option<string>): (r: string)
    ensures r != ""
    ensures text.Some? && text.value != "" ==> r == text.value
    ensures text.None? || text.value == "" ==> r == NoAiResponseText
  {
    if text.Some? && text.value != "" then text.value else NoAiResponseText
  }

  // ---------------------------------------------------------------------------
  // Error classification

  /** `getErrorMessage`: the first matching keyword test decides the text. */
  function GetErrorMessage(message: Option<string>): (r: string)
    ensures r != ""
    ensures message.None? || message.value == "" ==> r == FetchFailedText
  {
    if message.None? || message.value == "" then FetchFailedText
    else
      var m := message.value;
      if Contains(m, "ENOTFOUND") || Contains(m, "getaddrinfo") then WebsiteNotFoundText
      else if Contains(m, "ECONNREFUSED") then ConnectionRefusedText
      else if Contains(m, "ETIMEDOUT") || Contains(m, "timeout") then TimeoutText
      else if Contains(m, "CERT") || Contains(m, "certificate") then CertErrorText
      else if Contains(m, "403") then ForbiddenText
      else if Contains(m, "404") then NotFoundText
      else if Contains(m, "5") then ServerErrorText(m)
      else FetchErrorText(m)
  }

  /** Whether each keyword test of the classifier fires on `m`, in the order they are tried. */
  function KeywordTests(m: string): (tests: seq<bool>)
    ensures |tests| == 7
  {
    [ Contains(m, "ENOTFOUND") || Contains(m, "getaddrinfo"),
      Contains(m, "ECONNREFUSED"),
      Contains(m, "ETIMEDOUT") || Contains(m, "timeout"),
      Contains(m, "CERT") || Contains(m, "certificate"),
      Contains(m, "403"),
      Contains(m, "404"),
      Contains(m, "5") ]
  }

  /** The index of the first test that fires (|tests| when none does). */
  function FirstTrue(tests: seq<bool>): (r: nat)
    ensures r <= |tests|
    ensures forall i :: 0 <= i < r ==> !tests[i]
    ensures r < |tests| ==> tests[r]
  {
    if tests == [] then 0
    else if tests[0] then 0
    else 1 + FirstTrue(tests[1..])
  }

  /** The text each test stands for; the last two quote the message. */
  function RuleText(rule: nat, m: string): string {
    if rule == 0 then WebsiteNotFoundText
    else if rule == 1 then ConnectionRefusedText
    else if rule == 2 then TimeoutText
    else if rule == 3 then CertErrorText
    else if rule == 4 then ForbiddenText
    else if rule == 5 then NotFoundText
    else if rule == 6 then ServerErrorText(m)
    else FetchErrorText(m)
  }

  /** The classifier is a first match over the fixed order of keyword tests. */
  lemma GetErrorMessageIsFirstMatch(m: string)
    requires m != ""
    ensures GetErrorMessage(Some(m)) == RuleText(FirstTrue(KeywordTests(m)), m)
  {
    var t := KeywordTests(m);
    var r := FirstTrue(t);
    assert r == 0 ==> t[0];
    assert r == 1 ==> !t[0] && t[1];
    assert r == 2 ==> !t[0] && !t[1] && t[2];
    assert r == 3 ==> !t[0] && !t[1] && !t[2] && t[3];
    assert r == 4 ==> !t[0] && !t[1] && !t[2] && !t[3] && t[4];
    assert r == 5 ==> !t[0] && !t[1] && !t[2] && !t[3] && !t[4] && t[5];
    assert r == 6 ==> !t[0] && !t[1] && !t[2] && !t[3] && !t[4] && !t[5] && t[6];
    assert r == 7 ==> !t[0] && !t[1] && !t[2] && !t[3] && !t[4] && !t[5] && !t[6];
  }

  /**
   * None of the first four keyword groups (missing host, refused connection,
   * timeout, certificate) fires on a message that lacks the letters E, g, m, C
   * and r: each of their keywords holds one of them.
   */
  lemma NoNetworkKeyword(m: string)
    requires 'E' !in m && 'g' !in m && 'm' !in m && 'C' !in m && 'r' !in m
    ensures !KeywordTests(m)[0] && !KeywordTests(m)[1] && !KeywordTests(m)[2] && !KeywordTests(m)[3]
  {
    MissingCharNotContained(m, "ENOTFOUND", 0);
    MissingCharNotContained(m, "getaddrinfo", 0);
    MissingCharNotContained(m, "ECONNREFUSED", 0);
    MissingCharNotContained(m, "ETIMEDOUT", 0);
    MissingCharNotContained(m, "timeout", 2);
    MissingCharNotContained(m, "CERT", 0);
    MissingCharNotContained(m, "certificate", 2);
  }

  /** The fixed parts of a status error text hold none of the letters the network keywords need. */
  lemma StatusFixedPartsLetters()
    ensures 'E' !in StatusPrefix && 'g' !in StatusPrefix && 'm' !in StatusPrefix && 'C' !in StatusPrefix && 'r' !in StatusPrefix
    ensures 'E' !in StatusSuffix && 'g' !in StatusSuffix && 'm' !in StatusSuffix && 'C' !in StatusSuffix && 'r' !in StatusSuffix
  {
  }

  /** The text of a status error holds no letter of the network keywords. */
  lemma StatusTextLetters(code: nat)
    ensures var m := HttpErrorText(code);
            'E' !in m && 'g' !in m && 'm' !in m && 'C' !in m && 'r' !in m
  {
    var d := DecimalString(code);
    StatusFixedPartsLetters();
    assert 'E' !in d && 'g' !in d && 'm' !in d && 'C' !in d && 'r' !in d;
  }

  /** A status error text contains a digit pattern exactly when the status's digits do. */
  lemma StatusTextDigits(code: nat, pat: string)
    requires pat != [] && IsDigit(pat[0]) && IsDigit(pat[|pat| - 1])
    ensures Contains(HttpErrorText(code), pat) <==> Contains(DecimalString(code), pat)
  {
    assert forall i :: 0 <= i < |StatusPrefix| ==> !IsDigit(StatusPrefix[i]);
    assert forall i :: 0 <= i < |StatusSuffix| ==> !IsDigit(StatusSuffix[i]);
    ContainsDigitsOnlyInMiddle(StatusPrefix, DecimalString(code), StatusSuffix, pat);
  }

  /**
   * How a failed status check reaches the user: none of the network or
   * certificate keywords can fire on its text, so the status digits alone
   * decide between the 403, 404, server-error and generic texts.
   */
  lemma StatusErrorMessage(code: nat)
    ensures var d := DecimalString(code);
            var m := HttpErrorText(code);
            GetErrorMessage(Some(m)) ==
              if Contains(d, "403") then ForbiddenText
              else if Contains(d, "404") then NotFoundText
              else if Contains(d, "5") then ServerErrorText(m)
              else FetchErrorText(m)
  {
    StatusTextLetters(code);
    NoNetworkKeyword(HttpErrorText(code));
    StatusTextDigits(code, "403");
    StatusTextDigits(code, "404");
    StatusTextDigits(code, "5");
  }

  /** The decimal text of a three-digit status. */
  lemma ThreeDigits(code: nat)
    requires 100 <= code < 1000
    ensures DecimalString(code) == [DigitChar(code / 100), DigitChar(code / 10 % 10), DigitChar(code % 10)]
  {
    assert DecimalString(code / 10) == DecimalString(code / 100) + [DigitChar(code / 10 % 10)];
  }

  /** A 5xx status holds a 5 but neither 403 nor 404. */
  lemma ServerStatusDigits(code: nat)
    requires 500 <= code < 600
    ensures var d := DecimalString(code);
            !Contains(d, "403") && !Contains(d, "404") && Contains(d, "5")
  {
    var d := DecimalString(code);
    ThreeDigits(code);
    ContainsSameLength(d, "403");
    ContainsSameLength(d, "404");
    ContainsOneChar(d, '5');
    assert d[0] == '5';
  }

  /** Every 5xx status gets the server-error text. */
  lemma ServerErrorStatuses(code: nat)
    requires 500 <= code < 600
    ensures GetErrorMessage(CheckStatus(Some(code))) == ServerErrorText(HttpErrorText(code))
  {
    StatusErrorMessage(code);
    ServerStatusDigits(code);
  }

  /** Which of the classifier's digit patterns a 4xx status holds. */
  lemma ClientStatusDigits(code: nat)
    requires 400 <= code < 500
    ensures var d := DecimalString(code);
            && (Contains(d, "403") <==> code == 403)
            && (Contains(d, "404") <==> code == 404)
            && (Contains(d, "5") <==> code / 10 % 10 == 5 || code % 10 == 5)
  {
    var d := DecimalString(code);
    ThreeDigits(code);
    ContainsSameLength(d, "403");
    ContainsSameLength(d, "404");
    ContainsOneChar(d, '5');
    var tens, units := code / 10 % 10, code % 10;
    assert code == 400 + 10 * tens + units;
    assert d == "403" <==> tens == 0 && units == 3;
    assert d == "404" <==> tens == 0 && units == 4;
  }

  /**
   * Among the 4xx statuses, 403 and 404 get their own texts, those with a 5
   * among their digits (405, 450 ...) the server-error text, and the rest the
   * generic one.
   */
  lemma ClientErrorStatuses(code: nat)
    requires 400 <= code < 500
    ensures var m := HttpErrorText(code);
            GetErrorMessage(CheckStatus(Some(code))) ==
              if code == 403 then ForbiddenText
              else if code == 404 then NotFoundText
              else if code / 10 % 10 == 5 || code % 10 == 5 then ServerErrorText(m)
              else FetchErrorText(m)
  {
    StatusErrorMessage(code);
    ClientStatusDigits(code);
  }

  /** A response without a status falls through every keyword to the generic text. */
  lemma MissingStatus()
    ensures GetErrorMessage(CheckStatus(None)) == FetchErrorText(HttpErrorText(0))
  {
    var code := 0;
    StatusErrorMessage(code);
    var d := DecimalString(code);
    assert d == "0";
    ContainsOneChar(d, '5');
  }

  // ---------------------------------------------------------------------------
  // What the outside world hands to the service

  /** A thrown JavaScript error: its `name` and its `message` (if it has one). */
  datatype JsError = JsError(name: string, message: Option<string>)

  const CanceledName := "Canceled"

  /** What `requestService.request` and reading its stream end in. */
  datatype RequestOutcome =
    | Response(status: Option<nat>, body: string)
    | Threw(error: JsError)

  /** What `callGeminiAPI` ends in: the reply's text at the expected path, or a thrown error. */
  datatype ApiReply = Answered(text: Option<string>) | ApiFailed

  datatype ApiRequest = ApiRequest(apiKey: string, prompt: string)

  datatype WebsiteFetchResult = WebsiteFetchResult(htmlContent: string, cleanedContent: string)

  /** How `fetchWebsite` ends: a result, `null`, or a rethrown error. */
  datatype FetchReturn = Loaded(result: WebsiteFetchResult) | Null | Rethrown(error: JsError)

  datatype AiResponse = AiResponse(text: string, error: bool)

  /** `!apiKey`: an absent or empty key counts as not configured. */
  predicate HasApiKey(apiKey: Option<string>) {
    apiKey.Some? && apiKey.value != ""
  }

  // ---------------------------------------------------------------------------
  // The cancellation handle

  /** `CancellationTokenSource`, reduced to the two facts the service changes. */
  class CancellationSource {
    var isCancelled: bool
    var isDisposed: bool

    constructor()
      ensures !isCancelled && !isDisposed
    {
      isCancelled, isDisposed := false, false;
    }

    method Cancel()
      modifies this
      ensures isCancelled && isDisposed == old(isDisposed)
    {
      isCancelled := true;
    }

    method Dispose()
      modifies this
      ensures isDisposed && isCancelled == old(isCancelled)
    {
      isDisposed := true;
    }
  }

  // ---------------------------------------------------------------------------
  // The service

  class WebAiChatService {
    var siteContent: string
    var loadRequestCancellation: CancellationSource?

    /** The page text is always the output of the cleaner (or empty). */
    ghost predicate Valid()
      reads this
    {
      IsCleanText(siteContent)
    }

    constructor()
      ensures Valid() && siteContent == "" && loadRequestCancellation == null
    {
      siteContent, loadRequestCancellation := "", null;
    }

    /**
     * Cancels and disposes the handle of the fetch in flight and forgets it;
     * with no handle it does nothing, so a second call never changes anything.
     */
    method CancelLoadWebsite()
      modifies this, loadRequestCancellation
      ensures loadRequestCancellation == null
      ensures siteContent == old(siteContent)
      ensures old(loadRequestCancellation) != null ==>
                old(loadRequestCancellation).isCancelled && old(loadRequestCancellation).isDisposed
      ensures old(loadRequestCancellation) == null ==> unchanged(this)
    {
      if loadRequestCancellation != null {
        loadRequestCancellation.Cancel();
        loadRequestCancellation.Dispose();
        loadRequestCancellation := null;
      }
    }

    /** `dispose`: the same as cancelling the fetch in flight. */
    method Dispose()
      modifies this, loadRequestCancellation
      ensures loadRequestCancellation == null
      ensures siteContent == old(siteContent)
      ensures old(loadRequestCancellation) != null ==>
                old(loadRequestCancellation).isCancelled && old(loadRequestCancellation).isDisposed
    {
      CancelLoadWebsite();
    }

    /**
     * `fetchWebsite`: cancels any earlier fetch, installs a fresh handle for
     * this one and drops it again however the fetch ends.
     *  - A 2xx response: the page text becomes the cleaned body and is returned
     *    with the page prepared for the preview.
     *  - A cancelled request: `null`, and the page text is kept.
     *  - Any other error, a bad status included: the page text is emptied, the
     *    classified message is shown and the error is rethrown.
     */
    method FetchWebsite(url: string, outcome: RequestOutcome) returns (r: FetchReturn, notice: Option<Notice>)
      requires Valid()
      requires '$' !in url
      modifies this, loadRequestCancellation
      ensures Valid()
      ensures loadRequestCancellation == null
      ensures old(loadRequestCancellation) != null ==>
                old(loadRequestCancellation).isCancelled && old(loadRequestCancellation).isDisposed
      ensures outcome.Response? && CheckStatus(outcome.status).None? ==>
                && siteContent == Clean(outcome.body)
                && r == Loaded(WebsiteFetchResult(InjectScripts(outcome.body, url, SandboxFixScript()), siteContent))
                && notice == Some(Notice(Info, FetchSuccessText))
      ensures outcome.Response? && CheckStatus(outcome.status).Some? ==>
                && siteContent == ""
                && r == Rethrown(JsError("Error", CheckStatus(outcome.status)))
                && notice == Some(Notice(Error, GetErrorMessage(CheckStatus(outcome.status))))
      ensures outcome.Threw? && outcome.error.name == CanceledName ==>
                r == Null && notice == None && siteContent == old(siteContent)
      ensures outcome.Threw? && outcome.error.name != CanceledName ==>
                && siteContent == ""
                && r == Rethrown(outcome.error)
                && notice == Some(Notice(Error, GetErrorMessage(outcome.error.message)))
    {
      CancelLoadWebsite();
      var source := new CancellationSource();
      loadRequestCancellation := source;

      var thrown: Option<JsError> := None;
      r, notice := Null, None;
      match outcome {
        case Response(status, body) =>
          var failure := CheckStatus(status);
          if failure.Some? {
            thrown := Some(JsError("Error", failure));
          } else {
            siteContent := Clean(body);
            notice := Some(Notice(Info, FetchSuccessText));
            var modifiedHtml := InjectScripts(body, url, SandboxFixScript());
            r := Loaded(WebsiteFetchResult(modifiedHtml, siteContent));
          }
        case Threw(error) =>
          thrown := Some(error);
      }

      if thrown.Some? {
        var error := thrown.value;
        if error.name == CanceledName {
          r := Null;
        } else {
          siteContent := "";
          notice := Some(Notice(Error, GetErrorMessage(error.message)));
          r := Rethrown(error);
        }
      }

      assert Valid();
      // finally
      source.Dispose();
      loadRequestCancellation := null;
    }

    /**
     * `askAI`: without page text, or without an API key, a fixed error answer
     * and no request; otherwise one request with the built prompt, whose reply
     * text (or the default) is the answer, and any failure a fixed error answer.
     */
    method AskAI(question: string, apiKey: Option<string>, reply: ApiReply)
      returns (response: AiResponse, request: Option<ApiRequest>, notice: Option<Notice>)
      ensures request.Some? <==> siteContent != "" && HasApiKey(apiKey)
      ensures request.Some? ==> request.value == ApiRequest(apiKey.value, BuildPrompt(siteContent, question))
      ensures siteContent == "" ==> response == AiResponse(NoContentText, true) && notice == None
      ensures siteContent != "" && !HasApiKey(apiKey) ==>
                response == AiResponse(ApiKeyNotConfiguredText, true)
                && notice == Some(Notice(Error, ApiKeyMissingText))
      ensures request.Some? ==> notice == None
      ensures request.Some? && reply.ApiFailed? ==> response == AiResponse(AiErrorText, true)
      ensures request.Some? && reply.Answered? ==> response == AiResponse(ReplyText(reply.text), false)
      ensures !response.error <==> request.Some? && reply.Answered?
      ensures response.text != ""
    {
      if siteContent == "" {
        return AiResponse(NoContentText, true), None, None;
      }
      if !HasApiKey(apiKey) {
        return AiResponse(ApiKeyNotConfiguredText, true), None, Some(Notice(Error, ApiKeyMissingText));
      }
      var prompt := BuildPrompt(siteContent, question);
      request, notice := Some(ApiRequest(apiKey.value, prompt)), None;
      match reply {
        case Answered(text) => response := AiResponse(ReplyText(text), false);
        case ApiFailed => response := AiResponse(AiErrorText, true);
      }
    }
  }
}
