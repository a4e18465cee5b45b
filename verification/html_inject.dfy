/**
 * `injectScriptsToHtml`: puts a `<base href>` tag and the sandbox-fix script
 * into the fetched page before it is shown in the preview frame.
 */
module HtmlInject {
  import opened Wrappers
  import opened Text

  const HeadOpen := "<head"
  const HtmlOpen := "<html"

  /** Where a tag match starts and the position just after its `>`. */
  datatype Span = Span(start: nat, end: nat)

  /**
   * `/<open[^>]*>/i` matches `s` from `i` to `e`: the opening text ignoring case,
   * then everything up to the first `>` after it. Like the expression, `<head`
   * also matches the start of `<header>`.
   */
  ghost predicate TagAt(s: string, i: nat, e: nat, open: string) {
    && MatchesCI(s, i, open)
    && i + |open| < e <= |s|
    && s[e - 1] == '>'
    && forall k :: i + |open| <= k < e - 1 ==> s[k] != '>'
  }

  /** The leftmost match of `/<open[^>]*>/i` at or after `from`. */
  function FirstTag(s: string, open: string, from: nat): (r: Option<Span>)
    decreases |s| - from
    ensures r.Some? ==> from <= r.value.start && TagAt(s, r.value.start, r.value.end, open)
    ensures r.Some? ==> forall i, e :: from <= i < r.value.start ==> !TagAt(s, i, e, open)
    ensures r.None? ==> forall i, e :: from <= i ==> !TagAt(s, i, e, open)
  {
    if from >= |s| then None
    else if MatchesCI(s, from, open) && FindChar(s, '>', from + |open|).Some? then
      Some(Span(from, FindChar(s, '>', from + |open|).value + 1))
    else FirstTag(s, open, from + 1)
  }

  /** A match is determined by where it starts. */
  lemma TagAtUnique(s: string, i: nat, e1: nat, e2: nat, open: string)
    requires TagAt(s, i, e1, open) && TagAt(s, i, e2, open)
    ensures e1 == e2
  {
  }

  /** The `FirstTag` result is the leftmost match in the sense of `TagAt`. */
  lemma FirstTagIsLeftmost(s: string, open: string, i: nat, e: nat)
    requires TagAt(s, i, e, open)
    requires forall i', e' :: 0 <= i' < i ==> !TagAt(s, i', e', open)
    ensures FirstTag(s, open, 0) == Some(Span(i, e))
  {
    var r := FirstTag(s, open, 0);
    assert r.Some?;
    assert r.value.start == i;
    TagAtUnique(s, i, r.value.end, e, open);
  }

  function BaseTag(url: string): string {
    "<base href=\"" + url + "\">"
  }

  /**
   * Right after the first `<head...>`; failing that, a new `<head>` element
   * right after the first `<html...>`; failing that, the page wrapped in a new
   * document. The source builds the first two with `String.prototype.replace`,
   * whose replacement text would expand `$` patterns: they are excluded here.
   */
  function InjectScripts(html: string, url: string, script: string): (r: string)
    requires '$' !in url && '$' !in script
  {
    match FirstTag(html, HeadOpen, 0)
    case Some(head) =>
      html[..head.end] + "\n" + BaseTag(url) + "\n" + script + html[head.end..]
    case None =>
      match FirstTag(html, HtmlOpen, 0)
      case Some(root) =>
        html[..root.end] + "\n<head>" + BaseTag(url) + script + "</head>" + html[root.end..]
      case None =>
        "<!DOCTYPE html><html><head>" + BaseTag(url) + script + "</head><body>" + html + "</body></html>"
  }

  /** With a `<head...>` tag: the insertion goes right after the first one, the rest is kept as it was. */
  lemma InjectAfterHead(html: string, url: string, script: string, i: nat, e: nat)
    requires '$' !in url && '$' !in script
    requires TagAt(html, i, e, HeadOpen)
    requires forall i', e' :: 0 <= i' < i ==> !TagAt(html, i', e', HeadOpen)
    ensures InjectScripts(html, url, script) == html[..e] + "\n" + BaseTag(url) + "\n" + script + html[e..]
  {
    FirstTagIsLeftmost(html, HeadOpen, i, e);
  }

  /** No `<head...>` but an `<html...>` tag: a new head element goes right after the first one. */
  lemma InjectAfterHtml(html: string, url: string, script: string, i: nat, e: nat)
    requires '$' !in url && '$' !in script
    requires forall i', e' :: !TagAt(html, i', e', HeadOpen)
    requires TagAt(html, i, e, HtmlOpen)
    requires forall i', e' :: 0 <= i' < i ==> !TagAt(html, i', e', HtmlOpen)
    ensures InjectScripts(html, url, script)
         == html[..e] + "\n<head>" + BaseTag(url) + script + "</head>" + html[e..]
  {
    FirstTagIsLeftmost(html, HtmlOpen, i, e);
  }

  /** Neither tag: the page becomes the body of a new document. */
  lemma InjectWraps(html: string, url: string, script: string)
    requires '$' !in url && '$' !in script
    requires forall i, e :: !TagAt(html, i, e, HeadOpen)
    requires forall i, e :: !TagAt(html, i, e, HtmlOpen)
    ensures InjectScripts(html, url, script)
         == "<!DOCTYPE html><html><head>" + BaseTag(url) + script + "</head><body>" + html + "</body></html>"
  {
  }

  lemma ContainsBothParts(a: string, b: string, c: string, d: string, e: string)
    ensures Contains(a + b + c + d + e, b) && Contains(a + b + c + d + e, d)
  {
    assert a + b + c + d + e == a + b + (c + d + e);
    ContainsMiddle(a, b, c + d + e);
    ContainsMiddle(a + b + c, d, e);
  }

  lemma ContainsAdjacentParts(a: string, b: string, d: string, f: string, g: string)
    ensures Contains(a + b + d + f + g, b) && Contains(a + b + d + f + g, d)
  {
    assert a + b + d + f + g == a + b + (d + f + g);
    ContainsMiddle(a, b, d + f + g);
    assert a + b + d + f + g == (a + b) + d + (f + g);
    ContainsMiddle(a + b, d, f + g);
  }

  /** The result carries `<base href="url">` and the script. */
  ghost predicate CarriesBaseAndScript(r: string, url: string, script: string) {
    Contains(r, BaseTag(url)) && Contains(r, script)
  }

  lemma CarriesWhenHead(html: string, url: string, script: string)
    requires '$' !in url && '$' !in script
    requires FirstTag(html, HeadOpen, 0).Some?
    ensures CarriesBaseAndScript(InjectScripts(html, url, script), url, script)
  {
    var e := FirstTag(html, HeadOpen, 0).value.end;
    ContainsBothParts(html[..e] + "\n", BaseTag(url), "\n", script, html[e..]);
  }

  lemma CarriesWhenHtml(html: string, url: string, script: string)
    requires '$' !in url && '$' !in script
    requires FirstTag(html, HeadOpen, 0).None? && FirstTag(html, HtmlOpen, 0).Some?
    ensures CarriesBaseAndScript(InjectScripts(html, url, script), url, script)
  {
    var e := FirstTag(html, HtmlOpen, 0).value.end;
    ContainsAdjacentParts(html[..e] + "\n<head>", BaseTag(url), script, "</head>", html[e..]);
  }

  lemma CarriesWhenWrapped(html: string, url: string, script: string)
    requires '$' !in url && '$' !in script
    requires FirstTag(html, HeadOpen, 0).None? && FirstTag(html, HtmlOpen, 0).None?
    ensures CarriesBaseAndScript(InjectScripts(html, url, script), url, script)
  {
    var r := InjectScripts(html, url, script);
    var pre, post := "<!DOCTYPE html><html><head>", "</head><body>" + html + "</body></html>";
    assert r == pre + BaseTag(url) + script + post + "";
    ContainsAdjacentParts(pre, BaseTag(url), script, post, "");
  }

  /** Whatever the page, the result carries `<base href="url">` and the script. */
  lemma InjectCarriesBaseAndScript(html: string, url: string, script: string)
    requires '$' !in url && '$' !in script
    ensures Contains(InjectScripts(html, url, script), BaseTag(url))
    ensures Contains(InjectScripts(html, url, script), script)
  {
    if FirstTag(html, HeadOpen, 0).Some? {
      CarriesWhenHead(html, url, script);
    } else if FirstTag(html, HtmlOpen, 0).Some? {
      CarriesWhenHtml(html, url, script);
    } else {
      CarriesWhenWrapped(html, url, script);
    }
  }

  /**
   * `<head[^>]*>` also matches a `<header…>` tag: when one comes before any
   * real head, the insertion lands right after it, inside the page header.
   */
  lemma HeaderCountsAsHead(html: string, url: string, script: string, i: nat, e: nat)
    requires '$' !in url && '$' !in script
    requires TagAt(html, i, e, "<header")
    requires forall i', e' :: 0 <= i' < i ==> !TagAt(html, i', e', HeadOpen)
    ensures InjectScripts(html, url, script) == html[..e] + "\n" + BaseTag(url) + "\n" + script + html[e..]
  {
    MatchesPatternPrefix(html, i, "<header", |HeadOpen|);
    assert "<header"[..|HeadOpen|] == HeadOpen;
    MatchedChar(html, i, "<header", 5);
    MatchedChar(html, i, "<header", 6);
    assert TagAt(html, i, e, HeadOpen);
    InjectAfterHead(html, url, script, i, e);
  }

}
