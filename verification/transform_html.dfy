/** `transformHTML` and `traverse` of worker/src/transform-html.ts: the
    rewrite that turns the scaffolding index page into the application
    shell. */
module HtmlRewrite {
  import opened Wrappers
  import opened Text
  import opened Http

  datatype Attr = Attr(name: string, value: string)

  /** A parse5 node: an element or document with attributes and children, a
      text node with its value, or a node with neither (comment, doctype). */
  datatype Node =
    | Element(nodeName: string, attrs: seq<Attr>, childNodes: seq<Node>)
    | TextNode(value: string)
    | Leaf(nodeName: string)

  /** parse5's `parse` and `serialize`, not interpreted here. */
  datatype HtmlCodec = HtmlCodec(parse: string -> Node, serialize: Node -> string)

  /** The placeholder in script and stylesheet URLs, and what replaces it. */
  const RootUrlPlaceholder := "{{rootURL}}"
  const RootUrl := "/"

  /** The classic application bundle, and the module entry that supersedes it. */
  const AppScript := "/assets/ember-app.js"
  const EntryScript := Element("script", [Attr("src", "./_entry_/index.js"), Attr("type", "module")], [])

  /** The URL-encoded application configuration carried by the meta tag. */
  const EnvironmentConfig := "%7B%22modulePrefix%22%3A%22ember-app%22%2C%22environment%22%3A%22development%22%2C%22rootURL%22%3A%22%2F%22%2C%22locationType%22%3A%22auto%22%2C%22EmberENV%22%3A%7B%22FEATURES%22%3A%7B%7D%2C%22EXTEND_PROTOTYPES%22%3A%7B%22Date%22%3Afalse%7D%2C%22_APPLICATION_TEMPLATE_WRAPPER%22%3Afalse%2C%22_DEFAULT_ASYNC_OBSERVERS%22%3Atrue%2C%22_JQUERY_INTEGRATION%22%3Afalse%2C%22_TEMPLATE_ONLY_GLIMMER_COMPONENTS%22%3Atrue%7D%2C%22APP%22%3A%7B%22name%22%3A%22ember-app%22%2C%22version%22%3A%220.0.0%2Bf4c67075%22%7D%2C%22exportApplicationGlobal%22%3Atrue%7D"

  /** The meta element appended to every `head`. */
  const EnvironmentMeta := Element("meta", [Attr("name", "ember-app/config/environment"),
                                            Attr("content", EnvironmentConfig)], [])

  /** `attrs.find(a => a.name === name)`: the first attribute with that name. */
  function FindAttr(attrs: seq<Attr>, name: string): (r: Option<nat>)
    ensures r.Some? ==> r.value < |attrs| && attrs[r.value].name == name
    ensures r.Some? ==> forall k :: 0 <= k < r.value ==> attrs[k].name != name
    ensures r.None? ==> forall k :: 0 <= k < |attrs| ==> attrs[k].name != name
  {
    if |attrs| == 0 then None
    else if attrs[0].name == name then Some(0)
    else match FindAttr(attrs[1..], name)
      case Some(k) => Some(k + 1)
      case None => None
  }

  /** The value of the first attribute named `name`. */
  function AttrValue(attrs: seq<Attr>, name: string): Option<string> {
    match FindAttr(attrs, name)
    case Some(k) => Some(attrs[k].value)
    case None => None
  }

  /** Replace the first `{{rootURL}}` in the first attribute named `name`. */
  function RewriteRootUrl(attrs: seq<Attr>, name: string): (r: seq<Attr>)
    ensures |r| == |attrs|
    ensures forall k :: 0 <= k < |r| ==> r[k].name == attrs[k].name
    ensures FindAttr(attrs, name).None? ==> r == attrs
    ensures FindAttr(attrs, name).Some? ==>
              var k := FindAttr(attrs, name).value;
              r == attrs[k := Attr(name, ReplaceFirst(attrs[k].value, RootUrlPlaceholder, RootUrl))]
  {
    match FindAttr(attrs, name)
    case Some(k) => attrs[k := Attr(name, ReplaceFirst(attrs[k].value, RootUrlPlaceholder, RootUrl))]
    case None => attrs
  }

  /** A script's `src` after the rewrite. */
  function RewrittenSrc(attrs: seq<Attr>): Option<string> {
    AttrValue(RewriteRootUrl(attrs, "src"), "src")
  }

  /** A script element whose rewritten `src` is the classic bundle: it is
      replaced in its parent's children by the module entry. */
  predicate Superseded(n: Node) {
    n.Element? && n.nodeName == "script" && RewrittenSrc(n.attrs) == Some(AppScript)
  }

  /** `attrs.find(a => a.name === 'rel' && a.value === 'stylesheet')`. */
  predicate IsStylesheet(attrs: seq<Attr>) {
    exists k :: 0 <= k < |attrs| && attrs[k] == Attr("rel", "stylesheet")
  }

  /** The start of a `{{content-for "section"}}` directive. */
  const DirectiveOpen := "{{content-for \""
  const DirectiveClose := "\"}}"

  /** The directive for `section`. */
  function ContentFor(section: string): string {
    DirectiveOpen + section + DirectiveClose
  }

  /** Where a directive starting at `i` ends, if one does: the section runs to
      the first `"` and must be followed by `}}`, as the pattern
      `{{content-for "([^"]*)"}}` demands. */
  function DirectiveEnd(s: string, i: nat): (e: Option<nat>)
    ensures e.Some? ==> i + |DirectiveOpen| + |DirectiveClose| <= e.value <= |s|
  {
    if !OccursAt(s, DirectiveOpen, i) then None
    else
      var rest := s[i + |DirectiveOpen|..];
      if '"' !in rest then None
      else
        var j := i + |DirectiveOpen| + FirstIndex(rest, '"');
        if OccursAt(s, DirectiveClose, j) then Some(j + |DirectiveClose|) else None
  }

  /** `value.replace(/{{content-for "([^"]*)"}}/g, () => '')`: scanning left
      to right, every directive is removed and every other character kept. */
  function StripContentFor(s: string): (r: string)
    ensures |r| <= |s|
    decreases |s|
  {
    if |s| == 0 then ""
    else match DirectiveEnd(s, 0)
      case Some(e) => StripContentFor(s[e..])
      case None => [s[0]] + StripContentFor(s[1..])
  }

  /** `traverse(node)`, as the node its parent holds afterwards in its place. */
  function Visit(n: Node): (r: Node)
    ensures Superseded(n) ==> r == EntryScript
    ensures !Superseded(n) && n.Element? ==>
              && r.Element? && r.nodeName == n.nodeName
              && |r.childNodes| == |n.childNodes| + (if n.nodeName == "head" then 1 else 0)
              && (forall k :: 0 <= k < |n.childNodes| ==> r.childNodes[k] == Visit(n.childNodes[k]))
              && (n.nodeName == "head" ==> r.childNodes[|n.childNodes|] == EnvironmentMeta)
    ensures !Superseded(n) && n.Element? ==>
              r.attrs == (if n.nodeName == "script" then RewriteRootUrl(n.attrs, "src")
                          else if n.nodeName == "link" && IsStylesheet(n.attrs) then RewriteRootUrl(n.attrs, "href")
                          else n.attrs)
    ensures n.TextNode? ==> r == TextNode(StripContentFor(n.value))
    ensures n.Leaf? ==> r == n
  {
    match n
    case TextNode(v) => TextNode(StripContentFor(v))
    case Leaf(_) => n
    case Element(name, attrs, children) =>
      if Superseded(n) then EntryScript
      else
        var attrs' :=
          if name == "script" then RewriteRootUrl(attrs, "src")
          else if name == "link" && IsStylesheet(attrs) then RewriteRootUrl(attrs, "href")
          else attrs;
        var visited := seq(|children|, k requires 0 <= k < |children| => Visit(children[k]));
        // the meta element is pushed before the children are copied, so it is
        // visited too; `MetaIsFixed` shows that visit changes nothing
        Element(name, attrs', if name == "head" then visited + [EnvironmentMeta] else visited)
  }

  /** `transformHTML(filename, response, forwardHeaders)`. A response other
      than 200 passes through as it is; otherwise the body is parsed,
      rewritten and served with the original status and status text and the
      forwarded headers. A document whose root is itself a superseded script
      has no parent to splice into, and the rewrite throws. */
  function TransformHtml(codec: HtmlCodec, filename: string, response: Response, forwardHeaders: Headers)
    : (r: Result<Response, string>)
    ensures response.status != 200 ==> r == Success(response)
    ensures response.status == 200 && Superseded(codec.parse(response.body)) ==> r.Failure?
    ensures response.status == 200 && !Superseded(codec.parse(response.body)) ==>
              && r.Success?
              && r.value.status == response.status && r.value.statusText == response.statusText
              && r.value.body == codec.serialize(Visit(codec.parse(response.body)))
              && (forall k :: k != "content-type" ==> Header(r.value.headers, k) == Header(forwardHeaders, k))
              && ("content-type" in forwardHeaders ==> r.value.headers == forwardHeaders)
  {
    if response.status != 200 then Success(response)
    else
      var document := codec.parse(response.body);
      if Superseded(document) then Failure("TypeError: Cannot read properties of null (reading 'childNodes')")
      else
        var rewritten := NewResponse(codec.serialize(Visit(document)), response.status, forwardHeaders);
        Success(rewritten.(statusText := response.statusText))
  }

  /** Visiting the appended meta element changes nothing, so the copy of the
      children taken after the push and the copy taken before it, plus the
      meta element, agree. */
  lemma MetaIsFixed()
    ensures Visit(EnvironmentMeta) == EnvironmentMeta
  {
    assert !Superseded(EnvironmentMeta);
    assert Visit(EnvironmentMeta).childNodes == [];
  }

  /** A script element with the classic bundle: no such script survives the
      rewrite anywhere in the tree. */
  predicate IsAppScript(n: Node) {
    n.Element? && n.nodeName == "script" && AttrValue(n.attrs, "src") == Some(AppScript)
  }

  /** The node or one of its descendants is a classic bundle script. */
  predicate HasAppScript(n: Node) {
    IsAppScript(n) || (n.Element? && exists k :: 0 <= k < |n.childNodes| && HasAppScript(n.childNodes[k]))
  }

  /** A kept script's `src` is the rewritten one, so it is not the bundle. */
  lemma KeptScriptIsNotBundle(n: Node)
    requires n.Element? && n.nodeName == "script" && !Superseded(n)
    ensures !IsAppScript(Visit(n))
  {
    var attrs' := RewriteRootUrl(n.attrs, "src");
    assert Visit(n).attrs == attrs';
  }

  /** After the rewrite, no classic bundle script is left in the tree: every
      one was replaced by the module entry. */
  lemma {:induction false} NoBundleSurvives(n: Node)
    ensures !HasAppScript(Visit(n))
    decreases n
  {
    var r := Visit(n);
    match n
    case TextNode(_) =>
    case Leaf(_) =>
    case Element(name, attrs, children) =>
      if Superseded(n) {
        assert !IsAppScript(EntryScript);
        assert |EntryScript.childNodes| == 0;
      } else {
        if name == "script" {
          KeptScriptIsNotBundle(n);
        } else {
          assert !IsAppScript(r);
        }
        forall k | 0 <= k < |r.childNodes|
          ensures !HasAppScript(r.childNodes[k])
        {
          if k < |children| {
            NoBundleSurvives(children[k]);
          } else {
            assert r.childNodes[k] == EnvironmentMeta;
            assert !HasAppScript(EnvironmentMeta) by {
              assert |EnvironmentMeta.childNodes| == 0;
            }
          }
        }
      }
  }

  /** The first `"` in `a + "\"" + b` is the one after `a`, when `a` has none. */
  lemma {:induction false} FirstQuoteAfter(a: string, b: string)
    requires '"' !in a
    ensures '"' in a + ['"'] + b
    ensures FirstIndex(a + ['"'] + b, '"') == |a|
    decreases |a|
  {
    var s := a + ['"'] + b;
    assert s[|a|] == '"';
    if |a| > 0 {
      assert s[1..] == a[1..] + ['"'] + b;
      FirstQuoteAfter(a[1..], b);
    }
  }

  /** A directive at the front of a text is removed whole. */
  lemma DirectiveRemoved(section: string, rest: string)
    requires '"' !in section
    ensures StripContentFor(ContentFor(section) + rest) == StripContentFor(rest)
  {
    var s := ContentFor(section) + rest;
    var n := |DirectiveOpen|;
    assert OccursAt(s, DirectiveOpen, 0) by {
      assert s[..n] == DirectiveOpen;
    }
    var tail := s[n..];
    assert tail == section + ['"'] + ("}}" + rest);
    FirstQuoteAfter(section, "}}" + rest);
    var j := n + |section|;
    assert OccursAt(s, DirectiveClose, j) by {
      assert s[j..j + |DirectiveClose|] == DirectiveClose;
    }
    assert DirectiveEnd(s, 0) == Some(j + |DirectiveClose|);
    assert s[j + |DirectiveClose|..] == rest;
  }

  /** A text not starting with `{` has no directive at its front. */
  lemma NoDirectiveAtFront(s: string)
    requires |s| > 0 && s[0] != '{'
    ensures DirectiveEnd(s, 0).None?
    ensures StripContentFor(s) == [s[0]] + StripContentFor(s[1..])
  {
  }

  /** Text without a `{` cannot hold a directive and passes through. */
  lemma {:induction false} PlainTextKept(s: string)
    requires '{' !in s
    ensures StripContentFor(s) == s
    decreases |s|
  {
    if |s| > 0 {
      NoDirectiveAtFront(s);
      PlainTextKept(s[1..]);
      assert s == [s[0]] + s[1..];
    }
  }

  /** Text without a `{` in front of anything is kept as it is. */
  lemma {:induction false} PlainPrefixKept(before: string, t: string)
    requires '{' !in before
    ensures StripContentFor(before + t) == before + StripContentFor(t)
    decreases |before|
  {
    if |before| > 0 {
      var s := before + t;
      assert s[0] == before[0];
      NoDirectiveAtFront(s);
      assert s[1..] == before[1..] + t;
      PlainPrefixKept(before[1..], t);
      assert before == [before[0]] + before[1..];
    } else {
      assert before + t == t;
    }
  }

  /** Text before the first directive is kept, and the directive itself is
      replaced by the empty string. */
  lemma DirectiveReplacedByNothing(before: string, section: string, rest: string)
    requires '{' !in before && '"' !in section
    ensures StripContentFor(before + ContentFor(section) + rest) == before + StripContentFor(rest)
  {
    assert before + ContentFor(section) + rest == before + (ContentFor(section) + rest);
    PlainPrefixKept(before, ContentFor(section) + rest);
    DirectiveRemoved(section, rest);
  }
}
