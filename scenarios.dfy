/**
 * Small documents and the exact Markdown they produce.
 */
module Scenarios {
  import opened Text
  import opened Tree
  import opened Assets
  import opened Markdown
  import opened Footnotes

  function Leaf(tag: string, text: string, tail: string): Node {
    Node(tag, [], text, tail, [])
  }

  const NoEnv := Env(map[], map[], false, "")

  /** Emphasis inside a paragraph is starred, and the text around it and its tail are kept. */
  lemma EmphasisShape(t: string, w: string, tail: string, env: Env, order: seq<string>)
    ensures ParagraphMd(Node("p", [], t, "", [Leaf("emphasis", w, tail)]), env, order).text
            == t + "*" + w + "*" + tail + "\n\n"
  {
    var em := Leaf("emphasis", w, tail);
    var p := Node("p", [], t, "", [em]);
    assert InlineMd(em, env, order) == Out(w + "", order);
    assert Marker("emphasis") == "*";
    assert InlineChildBody(em, env, order) == Wrap("*", InlineMd(em, env, order), "*");
    var c := InlineChildMd(em, env, order);
    assert c == Out("*" + (w + "") + "*" + tail, order);
    assert InlineChildren(p, 1, env, order) == Out("" + c.text, order);
    assert "" + (t + ("" + c.text)) + "\n\n" == t + "*" + w + "*" + tail + "\n\n";
  }

  /** An epigraph of two children quotes the first, then the second, then ends the block. */
  lemma EpigraphOfTwo(ep: Node, env: Env, order: seq<string>)
    requires |ep.children| == 2
    ensures var a := EpigraphChildMd(ep.children[0], env, order);
            var b := EpigraphChildMd(ep.children[1], env, a.order);
            EpigraphMd(ep, env, order) == Out(a.text + b.text + "\n", b.order)
  {
    var a := EpigraphChildMd(ep.children[0], env, order);
    var b := EpigraphChildMd(ep.children[1], env, a.order);
    assert Items(EpigraphParts, ep) == ep.children;
    assert Item(EpigraphParts, ep, 0, env, order) == a;
    assert Item(EpigraphParts, ep, 1, env, a.order) == b;
    var f0 := Fold(EpigraphParts, ep, 0, env, order);
    var f1 := Fold(EpigraphParts, ep, 1, env, order);
    assert f1 == Out(f0.text + a.text, a.order);
    assert f0.text + a.text == a.text;
    var f2 := Fold(EpigraphParts, ep, 2, env, order);
    assert f2 == Out(f1.text + b.text, b.order);
    assert "" + f2.text + "\n" == f2.text + "\n";
  }

  /** A paragraph in an epigraph is one quote line. */
  lemma QuotedParagraph(t: string, env: Env, order: seq<string>)
    ensures EpigraphChildMd(Leaf("p", t, ""), env, order) == Out("> " + t + "\n", order)
  {
    assert InlineMd(Leaf("p", t, ""), env, order) == Out(t + "", order);
  }

  /** The author of an epigraph comes after an empty quote line, behind a dash. */
  lemma QuotedAuthor(t: string, env: Env, order: seq<string>)
    ensures EpigraphChildMd(Leaf("text-author", t, ""), env, order) == Out(">\n> \U{2014} " + t + "\n", order)
  {
    assert InlineMd(Leaf("text-author", t, ""), env, order) == Out(t + "", order);
  }

  /**
   * An epigraph of a paragraph and its author is a block quote whose author
   * line follows an empty quote line, and which a blank line ends.
   */
  lemma EpigraphShape(t: string, who: string, env: Env, order: seq<string>)
    ensures EpigraphMd(Node("epigraph", [], "", "", [Leaf("p", t, ""), Leaf("text-author", who, "")]), env, order).text
            == "> " + t + "\n" + ">\n> \U{2014} " + who + "\n" + "\n"
  {
    var p := Leaf("p", t, "");
    var a := Leaf("text-author", who, "");
    var ep := Node("epigraph", [], "", "", [p, a]);
    EpigraphOfTwo(ep, env, order);
    assert ep.children[0] == p && ep.children[1] == a;
    QuotedParagraph(t, env, order);
    QuotedAuthor(who, env, order);
    var l1 := "> " + t + "\n";
    var l2 := ">\n> \U{2014} " + who + "\n";
    assert l1 + l2 + "\n" == "> " + t + "\n" + ">\n> \U{2014} " + who + "\n" + "\n";
  }

  function NoteLink(href: string, text: string): Node {
    Node("a", [Attr("l", "href", href), Attr("", "type", "note")], text, "", [])
  }

  /** The attributes of a note link read back as written. */
  lemma NoteLinkAttrs(href: string, text: string)
    ensures AttrValue(NoteLink(href, text), "l", "href", "") == href
    ensures AttrValue(NoteLink(href, text), "", "type", "") == "note"
  {
    var attrs := NoteLink(href, text).attrs;
    assert Matches(attrs[0], "l", "href");
    assert !Matches(attrs[0], "", "type") && Matches(attrs[1], "", "type");
  }

  const Notes1: map<string, string> := map["n1" := "Note"]

  /** A note link to a collected note resolves to that note. */
  lemma KnownNoteRef()
    ensures NoteRef(NoteLink("#n1", "1"), Notes1) == Some("n1")
  {
    NoteLinkAttrs("#n1", "1");
    assert "#n1"[1..] == "n1";
  }

  /** A note link to an id without a note does not resolve; it has no text, so its label is "Link". */
  lemma UnknownNoteRef()
    ensures NoteRef(NoteLink("#n9", ""), Notes1) == None
    ensures Href(NoteLink("#n9", "")) == "#n9"
    ensures LinkLabel(NoteLink("#n9", "")) == "Link"
  {
    NoteLinkAttrs("#n9", "");
    assert "#n9"[1..] == "n9";
  }

  /** A tail-less link to note n1 inside a paragraph writes its marker and records n1. */
  lemma NoteChild(link: Node, env: Env, order: seq<string>)
    requires link.tag == "a" && link.tail == "" && NoteRef(link, env.notes) == Some("n1")
    ensures InlineChildMd(link, env, order) == Out("[^n1]", Record(order, "n1"))
  {
    assert InlineChildBody(link, env, order) == LinkMd(link, env, order);
    assert "[^" + "n1" + "]" + "" == "[^n1]";
  }

  /** The inline loop over two children: the first, then the second after it. */
  lemma TwoChildren(e: Node, env: Env, order: seq<string>)
    requires |e.children| == 2
    ensures var a := InlineChildMd(e.children[0], env, order);
            var b := InlineChildMd(e.children[1], env, a.order);
            InlineChildren(e, 2, env, order) == Out(a.text + b.text, b.order)
  {
    var a := InlineChildMd(e.children[0], env, order);
    var b := InlineChildMd(e.children[1], env, a.order);
    var c0 := InlineChildren(e, 0, env, order);
    var c1 := InlineChildren(e, 1, env, order);
    assert c1 == Out(c0.text + a.text, a.order);
    assert c0.text + a.text == a.text;
    assert InlineChildren(e, 2, env, order) == Out(c1.text + b.text, b.order);
  }

  /** The two links of "See" followed by two references to n1, one at a time. */
  lemma TwoNoteChildren(link: Node, env: Env)
    requires link.tag == "a" && link.tail == "" && NoteRef(link, env.notes) == Some("n1")
    ensures InlineChildren(Node("p", [], "See", "", [link, link]), 2, env, []) == Out("[^n1]" + "[^n1]", ["n1"])
  {
    var p := Node("p", [], "See", "", [link, link]);
    assert p.children[0] == link && p.children[1] == link;
    TwoChildren(p, env, []);
    NoteChild(link, env, []);
    var m := "[^n1]";
    var a := InlineChildMd(link, env, []);
    assert a == Out(m, ["n1"]);
    NoteChild(link, env, ["n1"]);
    var b := InlineChildMd(link, env, a.order);
    assert b == Out(m, ["n1"]);
  }

  /** Two references to one note after "See": one marker each, one order entry. */
  lemma TwoNoteRefs(link: Node, env: Env)
    requires link.tag == "a" && link.tail == "" && NoteRef(link, env.notes) == Some("n1")
    ensures ParagraphMd(Node("p", [], "See", "", [link, link]), env, []).text == "See[^n1][^n1]\n\n"
    ensures ParagraphMd(Node("p", [], "See", "", [link, link]), env, []).order == ["n1"]
  {
    TwoNoteChildren(link, env);
    assert "" + ("See" + ("[^n1]" + "[^n1]")) + "\n\n" == "See[^n1][^n1]\n\n";
  }

  /** A note link to a collected note: "[^n1]" each time, recorded once. */
  lemma NoteLinkExample()
    ensures var p := Node("p", [], "See", "", [NoteLink("#n1", "1"), NoteLink("#n1", "1")]);
            var o := ParagraphMd(p, Env(Notes1, map[], false, ""), []);
            o.text == "See[^n1][^n1]\n\n" && o.order == ["n1"]
  {
    KnownNoteRef();
    TwoNoteRefs(NoteLink("#n1", "1"), Env(Notes1, map[], false, ""));
  }

  /** A link that names no known note is written as a plain Markdown link. */
  lemma PlainLink(link: Node, env: Env)
    requires NoteRef(link, env.notes) == None && Href(link) == "#n9" && LinkLabel(link) == "Link"
    ensures LinkMd(link, env, []).text == "[Link](#n9)"
    ensures LinkMd(link, env, []).order == []
  {
  }

  /** A link to an unknown note falls back to a plain link, labelled "Link" when it has no text. */
  lemma UnknownNoteExample()
    ensures var o := LinkMd(NoteLink("#n9", ""), Env(Notes1, map[], false, ""), []);
            o.text == "[Link](#n9)" && o.order == []
  {
    UnknownNoteRef();
    PlainLink(NoteLink("#n9", ""), Env(Notes1, map[], false, ""));
  }

  /** References [2, 1, 3, 1] give the appendix order [2, 1, 3]. */
  lemma FirstSeenExample()
    ensures RecordAll([], ["2", "1", "3", "1"]) == ["2", "1", "3"]
  {
    assert ["2", "1", "3", "1"][..3] == ["2", "1", "3"];
    assert ["2", "1", "3"][..2] == ["2", "1"];
    assert ["2", "1"][..1] == ["2"];
    assert ["2"][..0] == [];
  }

  /** The appendix lists only referenced notes, in reference order: note 3 is left out. */
  lemma AppendixExample()
    ensures Appendix(["2", "1"], map["1" := "a", "2" := "b", "3" := "c"])
            == "\n---\n\n" + Line("2", "b") + Line("1", "a")
  {
    var notes := map["1" := "a", "2" := "b", "3" := "c"];
    assert ["2", "1"][..1] == ["2"];
    assert ["2"][..0] == [];
    assert Definitions(["2"], notes) == "" + Line("2", "b");
    assert Definitions(["2", "1"], notes) == Definitions(["2"], notes) + Line("1", "a");
  }
}
