/** The controller scaffold (common_core/controllers/scaffold.py): template
    paths and a page title written into one context dict shared by every
    controller. */
module Scaffold {
  import opened Wrappers
  import opened Text

  // ---------------------------------------------------------------------------
  // Slug and title derivation.

  /** tpl_node.split("/")[-1]: the text after the last '/', or all of it. */
  function Slug(node: string): (r: string)
    ensures Free(r, '/')
    ensures EndsWith(node, r)
    ensures |r| < |node| ==> node[|node| - |r| - 1] == '/'
    ensures Free(node, '/') ==> r == node
  {
    if node == [] then []
    else if node[|node| - 1] == '/' then []
    else
      var r := Slug(node[..|node| - 1]) + [node[|node| - 1]];
      assert node[..|node| - 1][|node| - |r|..] == node[|node| - |r|..|node| - 1];
      r
  }

  /** str.replace(a, b) for single characters. */
  function ReplaceChar(s: string, a: char, b: char): (r: string)
    ensures |r| == |s|
    ensures forall i :: 0 <= i < |s| ==> r[i] == (if s[i] == a then b else s[i])
    ensures a != b ==> Free(r, a)
  {
    if s == [] then [] else [if s[0] == a then b else s[0]] + ReplaceChar(s[1..], a, b)
  }

  predicate IsUpper(c: char) { 'A' <= c <= 'Z' }
  predicate IsLower(c: char) { 'a' <= c <= 'z' }
  predicate IsLetter(c: char) { IsUpper(c) || IsLower(c) }

  function Upper(c: char): (r: char)
    ensures IsLetter(c) ==> IsUpper(r)
    ensures IsLetter(r) == IsLetter(c)
    ensures IsUpper(c) ==> r == c
  {
    if IsLower(c) then (c as int - 'a' as int + 'A' as int) as char else c
  }

  function Lower(c: char): (r: char)
    ensures IsLetter(c) ==> IsLower(r)
    ensures IsLetter(r) == IsLetter(c)
    ensures IsLower(c) ==> r == c
  {
    if IsUpper(c) then (c as int - 'A' as int + 'a' as int) as char else c
  }

  /** str.title() on ASCII text, scanning with the caseness of the character
      before: a letter after a letter is lowered, any other letter is raised,
      and everything else is kept. */
  function TitleAfter(s: string, prevCased: bool): string
  {
    if s == [] then []
    else
      var c := if IsLetter(s[0]) then (if prevCased then Lower(s[0]) else Upper(s[0])) else s[0];
      [c] + TitleAfter(s[1..], IsLetter(s[0]))
  }

  function Title(s: string): string
  {
    TitleAfter(s, false)
  }

  /** The character that title() puts at position i, stated on its own. */
  function TitleChar(s: string, i: nat): char
    requires i < |s|
  {
    if !IsLetter(s[i]) then s[i]
    else if i > 0 && IsLetter(s[i - 1]) then Lower(s[i])
    else Upper(s[i])
  }

  lemma {:induction false} TitleAfterChars(s: string, prevCased: bool)
    ensures |TitleAfter(s, prevCased)| == |s|
    ensures forall i :: 0 < i < |s| ==> TitleAfter(s, prevCased)[i] == TitleChar(s, i)
    ensures |s| > 0 ==>
      TitleAfter(s, prevCased)[0] == (if !IsLetter(s[0]) then s[0] else if prevCased then Lower(s[0]) else Upper(s[0]))
  {
    if s != [] {
      TitleAfterChars(s[1..], IsLetter(s[0]));
      var t := TitleAfter(s, prevCased);
      forall i | 0 < i < |s| ensures t[i] == TitleChar(s, i) {
        assert t[i] == TitleAfter(s[1..], IsLetter(s[0]))[i - 1];
        if i > 1 {
          assert TitleChar(s[1..], i - 1) == TitleChar(s, i);
        }
      }
    }
  }

  /** title() keeps the length, and each character is the word-start or
      in-word case of the one it replaces. */
  lemma TitleSpec(s: string)
    ensures |Title(s)| == |s|
    ensures forall i :: 0 <= i < |s| ==> Title(s)[i] == TitleChar(s, i)
  {
    TitleAfterChars(s, false);
  }

  /** title() is idempotent. */
  lemma TitleIdempotent(s: string)
    ensures Title(Title(s)) == Title(s)
  {
    var t := Title(s);
    TitleSpec(s);
    TitleSpec(t);
    forall i | 0 <= i < |t| ensures Title(t)[i] == t[i] {
      assert IsLetter(t[i]) == IsLetter(s[i]);
      if i > 0 { assert IsLetter(t[i - 1]) == IsLetter(s[i - 1]); }
    }
  }

  /** page_title: "- " and the slug, dashes and underscores turned into
      spaces, title-cased. */
  function PageTitle(slug: string): (r: string)
    ensures StartsWith(r, "- ") && |r| == |slug| + 2
    ensures forall i :: 2 <= i < |r| ==> r[i] != '-' && r[i] != '_'
    ensures forall i :: 0 <= i < |slug| ==> r[i + 2] == TitleChar(ReplaceChar(ReplaceChar(slug, '-', ' '), '_', ' '), i)
  {
    var spaced := ReplaceChar(ReplaceChar(slug, '-', ' '), '_', ' ');
    TitleSpec(spaced);
    "- " + Title(spaced)
  }

  /** The path of a template under directory node, with the given infix
      between them and the suffix after the slug. */
  function TemplatePath(node: string, infix: string, suffix: string): (r: string)
    ensures StartsWith(r, node + infix) && EndsWith(r, Slug(node) + suffix)
    ensures |r| == |node| + |infix| + |Slug(node)| + |suffix|
  {
    var slug := Slug(node);
    var r := node + infix + slug + suffix;
    assert r[..|node + infix|] == node + infix;
    assert r[|r| - |slug + suffix|..] == slug + suffix;
    r
  }

  function TplPath(node: string): string { TemplatePath(node, "/", ".html") }
  function TplJsPath(node: string): string { TemplatePath(node, "/assets/", ".js.html") }
  function TplCssPath(node: string): string { TemplatePath(node, "/assets/", ".css.html") }

  /** The template keys get_context_scaffold may write. */
  const TemplateKeys: set<string> := {"tpl_base", "tpl_node", "tpl", "tpl_js", "tpl_css", "page_title"}

  /** The csrf step: the token is written only when force_csrf_to_context is
      set and truthy and the request gives a token. */
  function WithCsrf(entries: map<string, string>, forceCsrf: Option<bool>, csrfToken: Option<string>): (r: map<string, string>)
    ensures forceCsrf == Some(true) && csrfToken.Some? ==> r == entries["csrf_token" := csrfToken.value]
    ensures !(forceCsrf == Some(true) && csrfToken.Some?) ==> r == entries
  {
    if forceCsrf == Some(true) && csrfToken.Some? then entries["csrf_token" := csrfToken.value] else entries
  }

  /** The template step, taken only for a non-empty tpl_node. */
  function WithTemplates(entries: map<string, string>, tplBase: string, tplNode: string): (r: map<string, string>)
    ensures tplNode == "" ==> r == entries
    ensures tplNode != "" ==> r.Keys == entries.Keys + TemplateKeys
    ensures forall k :: k in entries && k !in TemplateKeys ==> r[k] == entries[k]
  {
    if tplNode != "" then
      entries["tpl_base" := tplBase]["tpl_node" := tplNode]
        ["tpl" := TplPath(tplNode)]["tpl_js" := TplJsPath(tplNode)]["tpl_css" := TplCssPath(tplNode)]
        ["page_title" := PageTitle(Slug(tplNode))]
    else entries
  }

  /** The shared dict after one get_context_scaffold call. */
  function Scaffolded(entries: map<string, string>, forceCsrf: Option<bool>, csrfToken: Option<string>,
                      baseUrl: string, siteUrl: string, tplBase: string, tplNode: string): (r: map<string, string>)
    ensures r.Keys == entries.Keys + {"base_url", "site_url"}
      + (if forceCsrf == Some(true) && csrfToken.Some? then {"csrf_token"} else {})
      + (if tplNode != "" then TemplateKeys else {})
  {
    WithTemplates(WithCsrf(entries, forceCsrf, csrfToken)["base_url" := baseUrl]["site_url" := siteUrl], tplBase, tplNode)
  }

  /** base_url and site_url are always written. */
  lemma ScaffoldedUrls(entries: map<string, string>, forceCsrf: Option<bool>, csrfToken: Option<string>,
                       baseUrl: string, siteUrl: string, tplBase: string, tplNode: string)
    ensures var r := Scaffolded(entries, forceCsrf, csrfToken, baseUrl, siteUrl, tplBase, tplNode);
      "base_url" in r && r["base_url"] == baseUrl && "site_url" in r && r["site_url"] == siteUrl
  {
    assert "base_url" !in TemplateKeys && "site_url" !in TemplateKeys;
  }

  /** A non-empty tpl_node writes tpl_base, tpl_node, the three template paths
      and the page title. */
  lemma ScaffoldedTemplates(entries: map<string, string>, forceCsrf: Option<bool>, csrfToken: Option<string>,
                            baseUrl: string, siteUrl: string, tplBase: string, tplNode: string)
    requires tplNode != ""
    ensures var r := Scaffolded(entries, forceCsrf, csrfToken, baseUrl, siteUrl, tplBase, tplNode);
      TemplateKeys <= r.Keys && r["tpl_base"] == tplBase && r["tpl_node"] == tplNode
      && r["tpl"] == tplNode + "/" + Slug(tplNode) + ".html"
      && r["tpl_js"] == tplNode + "/assets/" + Slug(tplNode) + ".js.html"
      && r["tpl_css"] == tplNode + "/assets/" + Slug(tplNode) + ".css.html"
      && r["page_title"] == PageTitle(Slug(tplNode))
  {
  }

  /** An empty tpl_node leaves every template key and the page title as it
      was in the shared dict. */
  lemma ScaffoldedEmptyNode(entries: map<string, string>, forceCsrf: Option<bool>, csrfToken: Option<string>,
                            baseUrl: string, siteUrl: string, tplBase: string)
    ensures var r := Scaffolded(entries, forceCsrf, csrfToken, baseUrl, siteUrl, tplBase, "");
      forall k :: k in TemplateKeys ==> (k in r <==> k in entries) && (k in entries ==> r[k] == entries[k])
  {
    var r := Scaffolded(entries, forceCsrf, csrfToken, baseUrl, siteUrl, tplBase, "");
    forall k | k in TemplateKeys ensures (k in r <==> k in entries) && (k in entries ==> r[k] == entries[k]) {
      assert k != "base_url" && k != "site_url" && k != "csrf_token";
    }
  }

  /** csrf_token is written exactly when force_csrf_to_context is truthy and
      there is a token; otherwise it is as it was, and no error arises. */
  lemma ScaffoldedCsrf(entries: map<string, string>, forceCsrf: Option<bool>, csrfToken: Option<string>,
                       baseUrl: string, siteUrl: string, tplBase: string, tplNode: string)
    ensures var r := Scaffolded(entries, forceCsrf, csrfToken, baseUrl, siteUrl, tplBase, tplNode);
      if forceCsrf == Some(true) && csrfToken.Some? then "csrf_token" in r && r["csrf_token"] == csrfToken.value
      else ("csrf_token" in r <==> "csrf_token" in entries) && ("csrf_token" in entries ==> r["csrf_token"] == entries["csrf_token"])
  {
    assert "csrf_token" !in TemplateKeys;
  }

  /** Every other key of the shared dict is kept. */
  lemma ScaffoldedKeepsOthers(entries: map<string, string>, forceCsrf: Option<bool>, csrfToken: Option<string>,
                              baseUrl: string, siteUrl: string, tplBase: string, tplNode: string, k: string)
    requires k in entries && k != "base_url" && k != "site_url" && k != "csrf_token" && k !in TemplateKeys
    ensures var r := Scaffolded(entries, forceCsrf, csrfToken, baseUrl, siteUrl, tplBase, tplNode);
      k in r && r[k] == entries[k]
  {
  }

  /** The class-level context dict: one object that every controller holds. */
  class SharedContext {
    var entries: map<string, string>

    /** context = {"page_title": ""} */
    constructor ()
      ensures entries == map["page_title" := ""]
    {
      entries := map["page_title" := ""];
    }
  }

  class ControllerScaffold {
    const context: SharedContext
    const app: string
    const submodule: string
    const tplBase: string
    const tplNode: string
    /** force_csrf_to_context: None when the attribute is not defined. */
    const forceCsrf: Option<bool>

    constructor (context: SharedContext, app: string, submodule: string, tplBase: string, tplNode: string, forceCsrf: Option<bool>)
      ensures this.context == context && this.app == app && this.submodule == submodule
      ensures this.tplBase == tplBase && this.tplNode == tplNode && this.forceCsrf == forceCsrf
    {
      this.context := context;
      this.app := app;
      this.submodule := submodule;
      this.tplBase := tplBase;
      this.tplNode := tplNode;
      this.forceCsrf := forceCsrf;
    }

    /** get_context_scaffold. csrfToken is the unmasked token for the request,
        None when the controller has no request attribute; either missing
        attribute ends the csrf step without an error. The dict returned is
        the shared one, so the writes are seen through every controller. */
    method GetContextScaffold(csrfToken: Option<string>, baseUrl: string, siteUrl: string) returns (c: SharedContext)
      modifies context
      ensures c == context
      ensures context.entries == Scaffolded(old(context.entries), forceCsrf, csrfToken, baseUrl, siteUrl, tplBase, tplNode)
    {
      if forceCsrf == Some(true) && csrfToken.Some? {
        context.entries := context.entries["csrf_token" := csrfToken.value];
      }
      context.entries := context.entries["base_url" := baseUrl];
      context.entries := context.entries["site_url" := siteUrl];
      ghost var written := context.entries;
      assert written == WithCsrf(old(context.entries), forceCsrf, csrfToken)["base_url" := baseUrl]["site_url" := siteUrl];
      if tplNode != "" {
        context.entries := context.entries["tpl_base" := tplBase];
        context.entries := context.entries["tpl_node" := tplNode];
        var tplSlug := Slug(tplNode);
        context.entries := context.entries["tpl" := tplNode + "/" + tplSlug + ".html"];
        context.entries := context.entries["tpl_js" := tplNode + "/assets/" + tplSlug + ".js.html"];
        context.entries := context.entries["tpl_css" := tplNode + "/assets/" + tplSlug + ".css.html"];
        var pageTitle := Title(ReplaceChar(ReplaceChar(tplSlug, '-', ' '), '_', ' '));
        context.entries := context.entries["page_title" := "- " + pageTitle];
        assert context.entries == WithTemplates(written, tplBase, tplNode);
      }
      c := context;
    }
  }

  /** Two controllers over the shared dict: what the second one reads back
      includes what the first one wrote. */
  method SharedAcrossControllers(context: SharedContext, a: ControllerScaffold, b: ControllerScaffold, baseUrl: string, siteUrl: string)
    returns (ca: map<string, string>, cb: map<string, string>)
    requires a.context == context && b.context == context
    requires a.tplNode != "" && b.tplNode == ""
    modifies context
    ensures "tpl_node" in ca && ca["tpl_node"] == a.tplNode
    ensures "tpl_node" in cb && cb["tpl_node"] == a.tplNode
  {
    var c1 := a.GetContextScaffold(None, baseUrl, siteUrl);
    ca := c1.entries;
    ScaffoldedTemplates(old(context.entries), a.forceCsrf, None, baseUrl, siteUrl, a.tplBase, a.tplNode);
    var c2 := b.GetContextScaffold(None, baseUrl, siteUrl);
    cb := c2.entries;
    ScaffoldedEmptyNode(ca, b.forceCsrf, None, baseUrl, siteUrl, b.tplBase);
  }

}
