/**
 * The earlier revision of the feature: the `aichat.startSession` command of the
 * standalone extension. Its message handler holds the same session logic as
 * the service: a module-level abort controller for the load in flight, and
 * one page text per chat panel.
 */
module AiChatExtension {
  import opened Wrappers
  import opened Notifications
  import opened Text
  import opened HtmlClean
  import Service = WebAiChatService

  // ---------------------------------------------------------------------------
  // Frame embeddability

  /**
   * `String.prototype.toUpperCase` on one character, as far as it can matter
   * for a comparison with an ASCII word: `a`-`z`, and the two other characters
   * whose upper case is a single ASCII letter (dotless i and long s). Every
   * other character is kept; in JavaScript it maps to text that still holds
   * a non-ASCII character or a letter pair (SS, FF, FI, FL, ST) that neither
   * DENY nor SAMEORIGIN contains.
   */
  function UpperChar(c: char): (r: char)
    ensures 'A' <= r <= 'Z' ==> ('A' <= c <= 'Z' || 'a' <= c <= 'z' || c == '\U{0131}' || c == '\U{017F}')
    ensures 'a' <= c <= 'z' ==> r as int == c as int - 32
    ensures 'A' <= c <= 'Z' ==> r == c
  {
    if 'a' <= c <= 'z' then (c as int - 32) as char
    else if c == '\U{0131}' then 'I'
    else if c == '\U{017F}' then 'S'
    else c
  }

  function UpperCase(s: string): string {
    seq(|s|, i requires 0 <= i < |s| => UpperChar(s[i]))
  }

  /** `headers[name] || ''`; the HTTP client hands header names over in lower case. */
  function HeaderOrEmpty(headers: map<string, string>, name: string): string {
    if name in headers then headers[name] else ""
  }

  const XFrameOptions := "x-frame-options"
  const ContentSecurityPolicy := "content-security-policy"

  /**
   * The `isEmbeddable` flag: it starts true and is cleared when the upper-cased
   * X-Frame-Options value is exactly DENY or SAMEORIGIN, or when the CSP value
   * contains `frame-ancestors 'none'` or `frame-ancestors 'self'`.
   */
  function IsEmbeddable(headers: map<string, string>): bool {
    var xFrameOptions := UpperCase(HeaderOrEmpty(headers, XFrameOptions));
    var csp := HeaderOrEmpty(headers, ContentSecurityPolicy);
    var blockedByXfo := xFrameOptions == "DENY" || xFrameOptions == "SAMEORIGIN";
    var blockedByCsp := Contains(csp, "frame-ancestors 'none'") || Contains(csp, "frame-ancestors 'self'");
    !blockedByXfo && !blockedByCsp
  }

  /** Only the two framing headers count; with neither present the page is embeddable. */
  lemma EmbeddableReadsOnlyFramingHeaders(h1: map<string, string>, h2: map<string, string>)
    requires HeaderOrEmpty(h1, XFrameOptions) == HeaderOrEmpty(h2, XFrameOptions)
    requires HeaderOrEmpty(h1, ContentSecurityPolicy) == HeaderOrEmpty(h2, ContentSecurityPolicy)
    ensures IsEmbeddable(h1) == IsEmbeddable(h2)
    ensures XFrameOptions !in h1 && ContentSecurityPolicy !in h1 ==> IsEmbeddable(h1)
  {
    if XFrameOptions !in h1 && ContentSecurityPolicy !in h1 {
      assert UpperCase("") == "";
      assert !Contains("", "frame-ancestors 'none'") && !Contains("", "frame-ancestors 'self'");
    }
  }

  /** A character that folds onto a lower-case ASCII letter upper-cases onto that letter's capital. */
  lemma UpperOfFolded(c: char, l: char)
    requires 'a' <= l <= 'z' && Lower(c) == l
    ensures UpperChar(c) as int == l as int - 32
  {
  }

  /** X-Frame-Options is compared without regard to ASCII case: deny, Deny and DENY all forbid framing. */
  lemma XFrameOptionsIgnoresCase(headers: map<string, string>)
    requires XFrameOptions in headers
    requires |headers[XFrameOptions]| == 4
    requires forall i :: 0 <= i < 4 ==> Lower(headers[XFrameOptions][i]) == "deny"[i]
    ensures !IsEmbeddable(headers)
  {
    var v := headers[XFrameOptions];
    forall i | 0 <= i < 4
      ensures UpperCase(v)[i] == "DENY"[i]
    {
      UpperOfFolded(v[i], "deny"[i]);
    }
    assert UpperCase(v) == "DENY";
  }

  /** The same for SAMEORIGIN: sameorigin, SameOrigin and SAMEORIGIN all forbid framing. */
  lemma XFrameOptionsSameOriginIgnoresCase(headers: map<string, string>)
    requires XFrameOptions in headers
    requires |headers[XFrameOptions]| == 10
    requires forall i :: 0 <= i < 10 ==> Lower(headers[XFrameOptions][i]) == "sameorigin"[i]
    ensures !IsEmbeddable(headers)
  {
    var v := headers[XFrameOptions];
    forall i | 0 <= i < 10
      ensures UpperCase(v)[i] == "SAMEORIGIN"[i]
    {
      UpperOfFolded(v[i], "sameorigin"[i]);
    }
    assert UpperCase(v) == "SAMEORIGIN";
  }

  /**
   * Upper-casing goes beyond ASCII folding: with a long s in place of the s,
   * the value still reads SAMEORIGIN and still forbids framing.
   */
  lemma XFrameOptionsLongS()
    ensures !IsEmbeddable(map[XFrameOptions := "\U{017F}ameorigin"])
  {
    assert UpperCase("\U{017F}ameorigin") == "SAMEORIGIN";
  }

  /**
   * A CSP that forbids all framers (`'none'`), or every framer but the page's
   * own origin (`'self'`), forbids embedding whatever else it says.
   */
  lemma FrameAncestorsForbid(headers: map<string, string>, before: string, source: string, after: string)
    requires source == "'none'" || source == "'self'"
    requires headers[ContentSecurityPolicy := before + "frame-ancestors " + source + after] == headers
    ensures !IsEmbeddable(headers)
  {
    assert ContentSecurityPolicy in headers;
    var directive := "frame-ancestors " + source;
    assert before + "frame-ancestors " + source + after == before + directive + after;
    assert directive == "frame-ancestors 'none'" || directive == "frame-ancestors 'self'";
    ContainsMiddle(before, directive, after);
  }

  /**
   * `v` upper-cases to the capitals of the lower-case word `w`: each character
   * folds onto the letter of `w` in ASCII case, or is the dotless i or long s
   * standing for an i or an s.
   */
  predicate FoldsTo(v: string, w: string) {
    && |v| == |w|
    && forall i :: 0 <= i < |v| ==>
         || Lower(v[i]) == w[i]
         || (v[i] == '\U{0131}' && w[i] == 'i')
         || (v[i] == '\U{017F}' && w[i] == 's')
  }

  /** Upper-casing a value gives the capitals of a lower-case ASCII word exactly when the value folds to it. */
  lemma UpperCaseIsCapitals(v: string, w: string, cap: string)
    requires |cap| == |w|
    requires forall i :: 0 <= i < |w| ==> 'a' <= w[i] <= 'z' && cap[i] as int == w[i] as int - 32
    ensures UpperCase(v) == cap <==> FoldsTo(v, w)
  {
    if UpperCase(v) == cap {
      forall i | 0 <= i < |v|
        ensures || Lower(v[i]) == w[i]
                || (v[i] == '\U{0131}' && w[i] == 'i')
                || (v[i] == '\U{017F}' && w[i] == 's')
      {
        assert UpperChar(v[i]) == cap[i];
      }
    }
    if FoldsTo(v, w) {
      forall i | 0 <= i < |v|
        ensures UpperCase(v)[i] == cap[i]
      {
        assert UpperCase(v)[i] == UpperChar(v[i]);
      }
    }
  }

  /**
   * Embedding is forbidden exactly when the X-Frame-Options value folds to
   * `deny` or `sameorigin`, or the CSP holds `frame-ancestors 'none'` or
   * `frame-ancestors 'self'`; no other header value forbids it.
   */
  lemma EmbeddableExactly(headers: map<string, string>)
    ensures var v, csp := HeaderOrEmpty(headers, XFrameOptions), HeaderOrEmpty(headers, ContentSecurityPolicy);
            !IsEmbeddable(headers) <==>
              || FoldsTo(v, "deny") || FoldsTo(v, "sameorigin")
              || Contains(csp, "frame-ancestors 'none'") || Contains(csp, "frame-ancestors 'self'")
  {
    var v := HeaderOrEmpty(headers, XFrameOptions);
    UpperCaseIsCapitals(v, "deny", "DENY");
    UpperCaseIsCapitals(v, "sameorigin", "SAMEORIGIN");
  }

  /** The values are matched exactly, not parsed: a trailing space in the header lets the page be framed. */
  lemma XFrameOptionsNotTrimmed()
    ensures IsEmbeddable(map[XFrameOptions := "DENY "])
  {
    var h := map[XFrameOptions := "DENY "];
    assert |UpperCase("DENY ")| == 5;
    assert !Contains("", "frame-ancestors 'none'") && !Contains("", "frame-ancestors 'self'");
  }

  // ---------------------------------------------------------------------------
  // Prompt

  const PromptIntro := "Based ONLY on the following website content, answer the user's question.\n                              Website Content: \""
  const PromptMiddle := "\"\n\n                              User Question: \""
  const PromptEnd := "\""

  /** The template literal of the `askLLM` case, indentation included. */
  function Prompt(siteContent: string, question: string): string {
    PromptIntro + Service.Truncate(siteContent) + PromptMiddle + question + PromptEnd
  }

  /**
   * Same shape as the service's prompt, with the template's indentation: the
   * first min(15000, |siteContent|) characters of the page text sit between
   * the fixed parts, followed by the question, and nothing after them counts.
   */
  lemma PromptCarriesTruncatedContent(siteContent: string, question: string)
    ensures var p := Prompt(siteContent, question);
            var t := Service.Truncate(siteContent);
            && |p| == |PromptIntro| + |t| + |PromptMiddle| + |question| + |PromptEnd|
            && p[|PromptIntro|..|PromptIntro| + |t|] == t
            && p[|p| - |PromptEnd| - |question|..|p| - |PromptEnd|] == question
    ensures |siteContent| > 15000 ==> Prompt(siteContent, question) == Prompt(siteContent[..15000], question)
  {
    var p := Prompt(siteContent, question);
    var t := Service.Truncate(siteContent);
    assert p == PromptIntro + t + (PromptMiddle + question + PromptEnd);
    assert p[|PromptIntro|..|PromptIntro| + |t|] == t;
    assert p == (PromptIntro + t + PromptMiddle) + question + PromptEnd;
  }

  // ---------------------------------------------------------------------------
  // What the outside world hands to the handler

  /** How `axios.get` ends: a response, or a rejection that `axios.isCancel` does or does not recognise. */
  datatype LoadOutcome =
    | Fetched(headers: map<string, string>, data: string)
    | Rejected(isCancel: bool)

  /** How `model.generateContent(prompt)` and `response.text()` end. */
  datatype GenerateOutcome = Generated(text: string) | GenerateFailed

  /** Messages the handler posts back to the panel's webview. */
  datatype PanelMessage = LoadComplete | LlmResponse(text: string)

  const NotEmbeddableWarning := "N\U{1ED9}i dung web \U{0111}\U{00E3} \U{0111}\U{01B0}\U{1EE3}c t\U{1EA3}i cho AI, nh\U{01B0}ng kh\U{00F4}ng th\U{1EC3} hi\U{1EC3}n th\U{1ECB} do ch\U{00ED}nh s\U{00E1}ch b\U{1EA3}o m\U{1EAD}t c\U{1EE7}a trang web."

  // ---------------------------------------------------------------------------
  // State

  /** `AbortController`, reduced to whether it has been aborted. */
  class AbortController {
    var aborted: bool

    constructor()
      ensures !aborted
    {
      aborted := false;
    }

    method Abort()
      modifies this
      ensures aborted
    {
      aborted := true;
    }
  }

  /** The extension module's own state, shared by every panel. */
  class ExtensionState {
    var loadRequestController: AbortController?

    constructor()
      ensures loadRequestController == null
    {
      loadRequestController := null;
    }
  }

  /** One chat panel: its page text, and the module whose controller it shares. */
  class ChatPanel {
    const ext: ExtensionState
    var siteContent: string

    /** The page text is always the output of the cleaner (or empty). */
    ghost predicate Valid()
      reads this
    {
      IsCleanText(siteContent)
    }

    constructor(ext: ExtensionState)
      ensures this.ext == ext && siteContent == "" && Valid()
    {
      this.ext := ext;
      siteContent := "";
    }

    /**
     * The `loadWebsite` case: abort the load in flight, install a fresh
     * controller, load; keep the page text on a cancelled load, clear it on any
     * other failure; always post `loadComplete` and drop the controller.
     * The URL itself only reaches the HTTP client.
     */
    method LoadWebsite(url: string, outcome: LoadOutcome) returns (posted: seq<PanelMessage>, shown: seq<Notice>)
      requires Valid()
      modifies this, ext, ext.loadRequestController
      ensures Valid()
      ensures ext.loadRequestController == null
      ensures old(ext.loadRequestController) != null ==> old(ext.loadRequestController).aborted
      ensures posted == [LoadComplete]
      ensures outcome.Fetched? ==>
                && siteContent == Clean(outcome.data)
                && shown == [if IsEmbeddable(outcome.headers) then Notice(Info, Service.FetchSuccessText)
                             else Notice(Warning, NotEmbeddableWarning)]
      ensures outcome.Rejected? && outcome.isCancel ==> siteContent == old(siteContent) && shown == []
      ensures outcome.Rejected? && !outcome.isCancel ==>
                siteContent == "" && shown == [Notice(Error, Service.FetchFailedText)]
    {
      if ext.loadRequestController != null {
        ext.loadRequestController.Abort();
      }
      ext.loadRequestController := new AbortController();

      match outcome {
        case Fetched(headers, data) =>
          var isEmbeddable := IsEmbeddable(headers);
          if !isEmbeddable {
            shown := [Notice(Warning, NotEmbeddableWarning)];
          } else {
            shown := [Notice(Info, Service.FetchSuccessText)];
          }
          siteContent := Clean(data);
        case Rejected(isCancel) =>
          shown := [];
          if !isCancel {
            siteContent := "";
            shown := [Notice(Error, Service.FetchFailedText)];
          }
      }

      assert Valid();
      // finally
      posted := [LoadComplete];
      ext.loadRequestController := null;
    }

    /** The `cancelLoadWebsite` case: abort and forget the controller if there is one, otherwise nothing. */
    method CancelLoadWebsite()
      modifies ext, ext.loadRequestController
      ensures ext.loadRequestController == null
      ensures old(ext.loadRequestController) != null ==> old(ext.loadRequestController).aborted
      ensures old(ext.loadRequestController) == null ==> unchanged(ext)
    {
      if ext.loadRequestController != null {
        ext.loadRequestController.Abort();
        ext.loadRequestController := null;
      }
    }

    /**
     * The `askLLM` case: without page text a fixed answer and nothing else;
     * without a key an error notice and a fixed answer; otherwise one prompt to
     * the model and its text, or a fixed apology if anything fails.
     */
    method AskLlm(question: string, apiKey: Option<string>, outcome: GenerateOutcome)
      returns (posted: seq<PanelMessage>, shown: seq<Notice>, prompt: Option<string>)
      ensures |posted| == 1
      ensures prompt.Some? <==> siteContent != "" && Service.HasApiKey(apiKey)
      ensures prompt.Some? ==> prompt.value == Prompt(siteContent, question) && shown == []
      ensures siteContent == "" ==> posted == [LlmResponse(Service.NoContentText)] && shown == []
      ensures siteContent != "" && !Service.HasApiKey(apiKey) ==>
                posted == [LlmResponse(Service.ApiKeyNotConfiguredText)]
                && shown == [Notice(Error, Service.ApiKeyMissingText)]
      ensures prompt.Some? && outcome.Generated? ==> posted == [LlmResponse(outcome.text)]
      ensures prompt.Some? && outcome.GenerateFailed? ==> posted == [LlmResponse(Service.AiErrorText)]
    {
      if siteContent == "" {
        return [LlmResponse(Service.NoContentText)], [], None;
      }
      if !Service.HasApiKey(apiKey) {
        return [LlmResponse(Service.ApiKeyNotConfiguredText)], [Notice(Error, Service.ApiKeyMissingText)], None;
      }
      var text := Prompt(siteContent, question);
      prompt, shown := Some(text), [];
      match outcome {
        case Generated(answer) => posted := [LlmResponse(answer)];
        case GenerateFailed => posted := [LlmResponse(Service.AiErrorText)];
      }
    }
  }
}
