/**
 * The Converter of converter.go as a class: the active output sink, the
 * section depth, the image options and names, and the footnote state, with
 * one method per process* function. Every rendering method is proved to
 * append exactly what the matching function of module Markdown describes,
 * to leave the footnote order where that function says and to restore the
 * section depth it found.
 */
module Converter {
  import opened Text
  import opened Tree
  import opened Assets
  import opened Markdown
  import opened Footnotes
  import opened Description
  import opened Book

  /** One more child in processInlineElement's loop. */
  lemma InlineChildrenStep(e: Node, i: nat, env: Env, order: seq<string>)
    requires i < |e.children|
    ensures var a := InlineChildren(e, i, env, order);
            var b := InlineChildMd(e.children[i], env, a.order);
            && InlineChildren(e, i + 1, env, order).text == a.text + b.text
            && InlineChildren(e, i + 1, env, order).order == b.order
  {
  }

  /** The ids of an order, as the footnoteSeen set holds them. */
  function Elems(s: seq<string>): set<string> {
    if s == [] then {} else Elems(s[..|s| - 1]) + {s[|s| - 1]}
  }

  lemma {:induction false} ElemsIn(s: seq<string>, x: string)
    ensures x in Elems(s) <==> x in s
  {
    if s != [] {
      ElemsIn(s[..|s| - 1], x);
      assert s == s[..|s| - 1] + [s[|s| - 1]];
    }
  }

  /** One more child in extractAllText's buffer. */
  lemma RawTextStep(e: Node, i: nat)
    requires i < |e.children|
    ensures RawText(e, i + 1) == RawText(e, i) + AllText(e.children[i]) + e.children[i].tail
  {
  }

  /** Appending to a sink in two steps appends the concatenation. */
  lemma AppendAssoc(a: string, b: string, c: string)
    ensures a + b + c == a + (b + c)
  {
  }

  /** Wrapping with no opening marker appends the content, then the closing one. */
  lemma UnmarkedWrap(c: string, post: string)
    ensures "" + c + post == c + post
  {
  }

  /** Appending to a sink in three steps appends the concatenation. */
  lemma AppendAssoc3(a: string, b: string, c: string, d: string)
    ensures a + b + c + d == a + (b + c + d)
  {
  }

  /** Appending to a sink in four steps appends the concatenation. */
  lemma AppendAssoc4(a: string, b: string, c: string, d: string, e: string)
    ensures a + b + c + d + e == a + (b + c + d + e)
  {
  }

  /** One more verse of processStanza's loop: its inline text, then a line break or the stanza's last newline. */
  lemma VerseFoldStep(e: Node, i: nat, env: Env, order: seq<string>)
    requires i < |SelectElements(e, "v")|
    ensures var done := Fold(VersesOf, e, i, env, order);
            var v := InlineMd(SelectElements(e, "v")[i], env, done.order);
            var sep := if i < |SelectElements(e, "v")| - 1 then "  \n" else "\n";
            Fold(VersesOf, e, i + 1, env, order) == Out(done.text + v.text + sep, v.order)
  {
    var done := Fold(VersesOf, e, i, env, order);
    var v := InlineMd(SelectElements(e, "v")[i], env, done.order);
    var sep := if i < |SelectElements(e, "v")| - 1 then "  \n" else "\n";
    assert Item(VersesOf, e, i, env, done.order) == Out(v.text + sep, v.order);
  }

  /** TableMd of a table whose first row has no th cell: blank header, delimiter, every row as data. */
  lemma HeaderlessTableMd(e: Node, k: nat, env: Env, order: seq<string>)
    requires |SelectElements(e, "tr")| > 0 && 0 < k == ColumnCount(SelectElements(e, "tr")[0])
    requires |SelectElements(SelectElements(e, "tr")[0], "th")| == 0
    ensures var data := Fold(RowsFrom(0), e, |SelectElements(e, "tr")|, env, order);
            TableMd(e, env, order) == Out(BlankHeaderRow(k) + SeparatorRow(k) + data.text + "\n", data.order)
  {
  }

  class Converter {
    /** The active sink: the main buffer, or the private buffer of extractInlineText. */
    var output: string
    var sectionLevel: nat
    var extractImages: bool
    var imagesDir: string
    var imageFiles: map<string, string>
    var footnotes: map<string, string>
    var footnoteSeen: set<string>
    var footnoteOrder: seq<string>

    /** footnoteSeen marks exactly the ids of footnoteOrder, which is well-formed. */
    ghost predicate Valid()
      reads this`footnoteSeen, this`footnoteOrder, this`footnotes
    {
      && footnoteSeen == Elems(footnoteOrder)
      && OrderOk(footnoteOrder, footnotes)
    }

    /** What rendering reads from the converter without changing it. */
    function Ctx(): Env
      reads this`footnotes, this`imageFiles, this`extractImages, this`imagesDir
    {
      Env(footnotes, imageFiles, extractImages, imagesDir)
    }

    /** The rendering options without the footnote table, which collection fills. */
    function Opts(): Env
      reads this`imageFiles, this`extractImages, this`imagesDir
    {
      Env(map[], imageFiles, extractImages, imagesDir)
    }

    /** The fields Convert reads and writes. */
    function Snapshot(): State
      reads this
    {
      State(output, sectionLevel, extractImages, imagesDir, imageFiles, footnotes, footnoteOrder)
    }

    /** NewConverter (converter.go:80-88). */
    constructor ()
      ensures output == "" && sectionLevel == 0
      ensures !extractImages && imagesDir == ""
      ensures imageFiles == map[] && footnotes == map[]
      ensures footnoteSeen == {} && footnoteOrder == []
      ensures Valid()
    {
      output := "";
      sectionLevel := 0;
      extractImages := false;
      imagesDir := "";
      imageFiles := map[];
      footnotes := map[];
      footnoteSeen := {};
      footnoteOrder := [];
    }

    // -------------------------------------------------------------------
    // Text extraction
    // -------------------------------------------------------------------

    /** extractAllText (converter.go:802-817): reads no converter state. */
    method ExtractAllText(e: Node) returns (r: string)
      decreases e, 1
      ensures r == AllText(e)
      ensures r == "" <==> Blank(e)
    {
      var text := "";
      if e.text != "" {
        text := text + e.text;
      }
      assert text == e.text;
      var i := 0;
      while i < |e.children|
        invariant 0 <= i <= |e.children|
        invariant text == RawText(e, i)
      {
        text := AppendChildText(e, i, text);
        i := i + 1;
      }
      r := TrimSpace(text);
      AllTextEmptyIff(e);
    }

    /** The body of extractAllText's loop (converter.go:809-814): a child's text, then its tail. */
    method AppendChildText(e: Node, i: nat, text: string) returns (text': string)
      requires i < |e.children| && text == RawText(e, i)
      decreases e, 0
      ensures text' == RawText(e, i + 1)
    {
      var child := e.children[i];
      var t := ExtractAllText(child);
      RawTextStep(e, i);
      text' := text + t;
      if child.tail != "" {
        text' := text' + child.tail;
      } else {
        assert text' + child.tail == text';
      }
    }

    /**
     * extractInlineText (converter.go:755-763): the inline rendering of e,
     * captured in a private buffer; the sink active on entry gets it back
     * unchanged, while note references inside e still enter the footnote order.
     */
    method ExtractInlineText(e: Node) returns (s: string)
      requires Valid()
      modifies this`output, this`footnoteSeen, this`footnoteOrder
      decreases e, 3, 0
      ensures Valid()
      ensures output == old(output)
      ensures var o := InlineMd(e, Ctx(), old(footnoteOrder));
              s == o.text && footnoteOrder == o.order
    {
      var saved := output;
      output := "";
      ProcessInlineElement(e);
      s := output;
      output := saved;
    }

    // -------------------------------------------------------------------
    // Inline content
    // -------------------------------------------------------------------

    /** processLink (converter.go:765-800). */
    method ProcessLink(link: Node)
      requires Valid()
      modifies this`output, this`footnoteSeen, this`footnoteOrder
      ensures Valid()
      ensures var o := LinkMd(link, Ctx(), old(footnoteOrder));
              output == old(output) + o.text && footnoteOrder == o.order
    {
      var href := AttrValue(link, "l", "href", "");
      if href == "" {
        href := AttrValue(link, "", "href", "");
      }
      assert href == Href(link);
      var linkType := AttrValue(link, "", "type", "");
      if linkType == "note" && HasPrefix(href, "#") {
        var noteId := href[1..];
        if noteId in footnotes {
          assert NoteRef(link, footnotes) == Some(noteId);
          output := output + ("[^" + noteId + "]");
          RecordNote(noteId);
          return;
        }
      }
      assert NoteRef(link, footnotes) == None;
      var linkText := ExtractAllText(link);
      if linkText == "" {
        linkText := "Link";
      }
      output := output + ("[" + linkText + "](" + href + ")");
    }

    /** The footnoteSeen check of processLink (converter.go:783-786): a note enters the order on its first reference only. */
    method RecordNote(id: string)
      requires Valid() && id in footnotes
      modifies this`footnoteSeen, this`footnoteOrder
      ensures Valid()
      ensures footnoteOrder == Record(old(footnoteOrder), id)
    {
      ElemsIn(footnoteOrder, id);
      if id !in footnoteSeen {
        footnoteSeen := footnoteSeen + {id};
        footnoteOrder := footnoteOrder + [id];
        assert footnoteOrder[..|footnoteOrder| - 1] == old(footnoteOrder);
      }
    }

    /** processImage (converter.go:819-846). */
    method ProcessImage(img: Node)
      modifies this`output
      ensures output == old(output) + ImageMd(img, Ctx())
    {
      var href := AttrValue(img, "l", "href", "");
      if href == "" {
        href := AttrValue(img, "", "href", "");
      }
      var ref;
      if HasPrefix(href, "#") {
        var imageId := href[1..];
        if extractImages {
          var filename := ImageTarget(imageId);
          ref := "![" + imageId + "](" + JoinPath(imagesDir, filename) + ")";
        } else {
          ref := "![Image: " + imageId + "]";
        }
      } else {
        ref := "![Image](" + href + ")";
      }
      assert href == Href(img);
      assert ref == ImageRef(href, Ctx());
      output := output + ref;
      output := output + "\n\n";
      AppendAssoc(old(output), ref, "\n\n");
    }

    /** The file an extracted image links to (converter.go:827-836): its assigned name, else its sanitized id, else the id. */
    method ImageTarget(id: string) returns (filename: string)
      ensures filename == ImageFile(id, Ctx())
    {
      filename := id;
      if id in imageFiles && imageFiles[id] != "" {
        filename := imageFiles[id];
      } else {
        var safe := SanitizeFilename(id);
        if safe != "" {
          filename := safe;
        }
      }
    }

    /** processInlineElement (converter.go:705-753): the element's text, then each child with its tail. */
    method ProcessInlineElement(e: Node)
      requires Valid()
      modifies this`output, this`footnoteSeen, this`footnoteOrder
      decreases e, 2, 0
      ensures Valid()
      ensures var o := InlineMd(e, Ctx(), old(footnoteOrder));
              output == old(output) + o.text && footnoteOrder == o.order
    {
      if e.text != "" {
        output := output + e.text;
      } else {
        assert output + e.text == output;
      }
      ProcessInlineChildren(e);
      ghost var c := InlineChildren(e, |e.children|, Ctx(), old(footnoteOrder));
      AppendAssoc(old(output), e.text, c.text);
      assert InlineMd(e, Ctx(), old(footnoteOrder)) == Out(e.text + c.text, c.order);
    }

    /** The loop of processInlineElement (converter.go:713-752) over e's children. */
    method ProcessInlineChildren(e: Node)
      requires Valid()
      modifies this`output, this`footnoteSeen, this`footnoteOrder
      decreases e, 1, 0
      ensures Valid()
      ensures var o := InlineChildren(e, |e.children|, Ctx(), old(footnoteOrder));
              output == old(output) + o.text && footnoteOrder == o.order
    {
      ghost var env := Ctx();
      ghost var start := output;
      ghost var ord0 := footnoteOrder;
      var i := 0;
      assert output == start + InlineChildren(e, 0, env, ord0).text by {
        assert start + "" == start;
      }
      while i < |e.children|
        invariant 0 <= i <= |e.children|
        invariant Valid() && Ctx() == env
        invariant output == start + InlineChildren(e, i, env, ord0).text
        invariant footnoteOrder == InlineChildren(e, i, env, ord0).order
      {
        InlineStep(e, i, env, start, ord0);
        i := i + 1;
      }
    }

    /** One pass of processInlineElement's loop. */
    method InlineStep(e: Node, i: nat, ghost env: Env, ghost start: string, ghost ord0: seq<string>)
      requires i < |e.children|
      requires Valid() && Ctx() == env
      requires output == start + InlineChildren(e, i, env, ord0).text
      requires footnoteOrder == InlineChildren(e, i, env, ord0).order
      modifies this`output, this`footnoteSeen, this`footnoteOrder
      decreases e, 0, 0
      ensures Valid()
      ensures output == start + InlineChildren(e, i + 1, env, ord0).text
      ensures footnoteOrder == InlineChildren(e, i + 1, env, ord0).order
    {
      ghost var done := InlineChildren(e, i, env, ord0);
      var x := e.children[i];
      ghost var b := InlineChildMd(x, env, done.order);
      ProcessInlineChild(x);
      InlineChildrenStep(e, i, env, ord0);
      AppendAssoc(start, done.text, b.text);
    }

    /** The body of processInlineElement's loop (converter.go:713-751): one child by its tag, then its tail. */
    method ProcessInlineChild(x: Node)
      requires Valid()
      modifies this`output, this`footnoteSeen, this`footnoteOrder
      decreases x, 5, 0
      ensures Valid()
      ensures var o := InlineChildMd(x, Ctx(), old(footnoteOrder));
              output == old(output) + o.text && footnoteOrder == o.order
    {
      ProcessInlineChildBody(x);
      ghost var body := InlineChildBody(x, Ctx(), old(footnoteOrder)).text;
      if x.tail != "" {
        output := output + x.tail;
      } else {
        assert output + x.tail == output;
      }
      AppendAssoc(old(output), body, x.tail);
    }

    /** The switch of processInlineElement's loop (converter.go:714-749): a link, an image, a line break or marked-up content. */
    method ProcessInlineChildBody(x: Node)
      requires Valid()
      modifies this`output, this`footnoteSeen, this`footnoteOrder
      decreases x, 4, 0
      ensures Valid()
      ensures var o := InlineChildBody(x, Ctx(), old(footnoteOrder));
              output == old(output) + o.text && footnoteOrder == o.order
    {
      match x.tag
      case "a" => ProcessLink(x);
      case "image" => ProcessImage(x);
      case "empty-line" => output := output + "\n";
      case _ => WrapInline(Marker(x.tag), x, Marker(x.tag));
    }

    /** Writes pre, the inline rendering of e, then post: the shape of most quoted and wrapped lines. */
    method WrapInline(pre: string, e: Node, post: string)
      requires Valid()
      modifies this`output, this`footnoteSeen, this`footnoteOrder
      decreases e, 3, 0
      ensures Valid()
      ensures var o := Wrap(pre, InlineMd(e, Ctx(), old(footnoteOrder)), post);
              output == old(output) + o.text && footnoteOrder == o.order
    {
      output := output + pre;
      ProcessInlineElement(e);
      ghost var inner := InlineMd(e, Ctx(), old(footnoteOrder)).text;
      AppendAssoc(old(output), pre, inner);
      output := output + post;
      AppendAssoc(old(output), pre + inner, post);
    }

    /** processParagraph (converter.go:672-676). */
    method ProcessParagraph(p: Node)
      requires Valid()
      modifies this`output, this`footnoteSeen, this`footnoteOrder
      decreases p, 4, 0
      ensures Valid()
      ensures var o := ParagraphMd(p, Ctx(), old(footnoteOrder));
              output == old(output) + o.text && footnoteOrder == o.order
    {
      WrapInline("", p, "\n\n");
    }

    /** processSubtitle (converter.go:666-670). */
    method ProcessSubtitle(s: Node)
      requires Valid()
      modifies this`output, this`footnoteSeen, this`footnoteOrder
      decreases s, 4, 0
      ensures Valid()
      ensures var o := SubtitleMd(s, Ctx(), old(footnoteOrder));
              output == old(output) + o.text && footnoteOrder == o.order
    {
      WrapInline("**", s, "**\n\n");
    }

    /** processEpigraph's loop over the epigraph's children (converter.go:408-437). */
    method ProcessEpigraphChildren(e: Node)
      requires Valid()
      modifies this`output, this`footnoteSeen, this`footnoteOrder, this`sectionLevel
      decreases e, 1, 0
      ensures Valid() && sectionLevel == old(sectionLevel)
      ensures var o := Fold(EpigraphParts, e, |e.children|, Ctx(), old(footnoteOrder));
              output == old(output) + o.text && footnoteOrder == o.order
    {
      ghost var env := Ctx();
      ghost var start := output;
      ghost var ord0 := footnoteOrder;
      assert output == start + Fold(EpigraphParts, e, 0, env, ord0).text by {
        assert start + "" == start;
      }
      var i := 0;
      while i < |e.children|
        invariant 0 <= i <= |e.children|
        invariant Valid() && Ctx() == env && sectionLevel == old(sectionLevel)
        invariant output == start + Fold(EpigraphParts, e, i, env, ord0).text
        invariant footnoteOrder == Fold(EpigraphParts, e, i, env, ord0).order
      {
        ProcessEpigraphChildrenStep(e, i, env, start, ord0);
        i := i + 1;
      }
    }

    /** One pass of the loop of ProcessEpigraphChildren. */
    method ProcessEpigraphChildrenStep(e: Node, i: nat, ghost env: Env, ghost start: string, ghost ord0: seq<string>)
      requires i < |e.children|
      requires Valid() && Ctx() == env
      requires output == start + Fold(EpigraphParts, e, i, env, ord0).text
      requires footnoteOrder == Fold(EpigraphParts, e, i, env, ord0).order
      modifies this`output, this`footnoteSeen, this`footnoteOrder, this`sectionLevel
      decreases e, 0, 0
      ensures Valid() && sectionLevel == old(sectionLevel)
      ensures output == start + Fold(EpigraphParts, e, i + 1, env, ord0).text
      ensures footnoteOrder == Fold(EpigraphParts, e, i + 1, env, ord0).order
    {
      ghost var done := Fold(EpigraphParts, e, i, env, ord0);
      var x := e.children[i];
      ghost var b := Item(EpigraphParts, e, i, env, done.order);
      ProcessEpigraphChild(x);
      AppendAssoc(start, done.text, b.text);
    }

    /** The loop over the children of a cite nested in an epigraph (converter.go:417-430). */
    method ProcessQuoteLines(e: Node)
      requires Valid()
      modifies this`output, this`footnoteSeen, this`footnoteOrder
      decreases e, 1, 0
      ensures Valid()
      ensures var o := Fold(NestedCiteParts, e, |e.children|, Ctx(), old(footnoteOrder));
              output == old(output) + o.text && footnoteOrder == o.order
    {
      ghost var env := Ctx();
      ghost var start := output;
      ghost var ord0 := footnoteOrder;
      assert output == start + Fold(NestedCiteParts, e, 0, env, ord0).text by {
        assert start + "" == start;
      }
      var i := 0;
      while i < |e.children|
        invariant 0 <= i <= |e.children|
        invariant Valid() && Ctx() == env
        invariant output == start + Fold(NestedCiteParts, e, i, env, ord0).text
        invariant footnoteOrder == Fold(NestedCiteParts, e, i, env, ord0).order
      {
        ProcessQuoteLinesStep(e, i, env, start, ord0);
        i := i + 1;
      }
    }

    /** One pass of the loop of ProcessQuoteLines. */
    method ProcessQuoteLinesStep(e: Node, i: nat, ghost env: Env, ghost start: string, ghost ord0: seq<string>)
      requires i < |e.children|
      requires Valid() && Ctx() == env
      requires output == start + Fold(NestedCiteParts, e, i, env, ord0).text
      requires footnoteOrder == Fold(NestedCiteParts, e, i, env, ord0).order
      modifies this`output, this`footnoteSeen, this`footnoteOrder
      decreases e, 0, 0
      ensures Valid()
      ensures output == start + Fold(NestedCiteParts, e, i + 1, env, ord0).text
      ensures footnoteOrder == Fold(NestedCiteParts, e, i + 1, env, ord0).order
    {
      ghost var done := Fold(NestedCiteParts, e, i, env, ord0);
      var x := e.children[i];
      ghost var b := Item(NestedCiteParts, e, i, env, done.order);
      ProcessQuoteLine(x);
      AppendAssoc(start, done.text, b.text);
    }

    /** The epigraph loops of processSection and processPoem (converter.go:370-372, 455-457). */
    method ProcessEpigraphs(e: Node)
      requires Valid()
      modifies this`output, this`footnoteSeen, this`footnoteOrder, this`sectionLevel
      decreases e, 1, 0
      ensures Valid() && sectionLevel == old(sectionLevel)
      ensures var o := Fold(EpigraphsOf, e, |SelectElements(e, "epigraph")|, Ctx(), old(footnoteOrder));
              output == old(output) + o.text && footnoteOrder == o.order
    {
      ghost var env := Ctx();
      ghost var start := output;
      ghost var ord0 := footnoteOrder;
      assert output == start + Fold(EpigraphsOf, e, 0, env, ord0).text by {
        assert start + "" == start;
      }
      var i := 0;
      while i < |SelectElements(e, "epigraph")|
        invariant 0 <= i <= |SelectElements(e, "epigraph")|
        invariant Valid() && Ctx() == env && sectionLevel == old(sectionLevel)
        invariant output == start + Fold(EpigraphsOf, e, i, env, ord0).text
        invariant footnoteOrder == Fold(EpigraphsOf, e, i, env, ord0).order
      {
        ProcessEpigraphsStep(e, i, env, start, ord0);
        i := i + 1;
      }
    }

    /** One pass of the loop of ProcessEpigraphs. */
    method ProcessEpigraphsStep(e: Node, i: nat, ghost env: Env, ghost start: string, ghost ord0: seq<string>)
      requires i < |SelectElements(e, "epigraph")|
      requires Valid() && Ctx() == env
      requires output == start + Fold(EpigraphsOf, e, i, env, ord0).text
      requires footnoteOrder == Fold(EpigraphsOf, e, i, env, ord0).order
      modifies this`output, this`footnoteSeen, this`footnoteOrder, this`sectionLevel
      decreases e, 0, 0
      ensures Valid() && sectionLevel == old(sectionLevel)
      ensures output == start + Fold(EpigraphsOf, e, i + 1, env, ord0).text
      ensures footnoteOrder == Fold(EpigraphsOf, e, i + 1, env, ord0).order
    {
      ghost var done := Fold(EpigraphsOf, e, i, env, ord0);
      var x := SelectElements(e, "epigraph")[i];
      ghost var b := Item(EpigraphsOf, e, i, env, done.order);
      ProcessEpigraph(x);
      AppendAssoc(start, done.text, b.text);
    }

    /** processPoem's loop over stanzas and subtitles (converter.go:460-469). */
    method ProcessPoemChildren(e: Node)
      requires Valid()
      modifies this`output, this`footnoteSeen, this`footnoteOrder, this`sectionLevel
      decreases e, 1, 0
      ensures Valid() && sectionLevel == old(sectionLevel)
      ensures var o := Fold(PoemParts, e, |e.children|, Ctx(), old(footnoteOrder));
              output == old(output) + o.text && footnoteOrder == o.order
    {
      ghost var env := Ctx();
      ghost var start := output;
      ghost var ord0 := footnoteOrder;
      assert output == start + Fold(PoemParts, e, 0, env, ord0).text by {
        assert start + "" == start;
      }
      var i := 0;
      while i < |e.children|
        invariant 0 <= i <= |e.children|
        invariant Valid() && Ctx() == env && sectionLevel == old(sectionLevel)
        invariant output == start + Fold(PoemParts, e, i, env, ord0).text
        invariant footnoteOrder == Fold(PoemParts, e, i, env, ord0).order
      {
        ProcessPoemChildrenStep(e, i, env, start, ord0);
        i := i + 1;
      }
    }

    /** One pass of the loop of ProcessPoemChildren. */
    method ProcessPoemChildrenStep(e: Node, i: nat, ghost env: Env, ghost start: string, ghost ord0: seq<string>)
      requires i < |e.children|
      requires Valid() && Ctx() == env
      requires output == start + Fold(PoemParts, e, i, env, ord0).text
      requires footnoteOrder == Fold(PoemParts, e, i, env, ord0).order
      modifies this`output, this`footnoteSeen, this`footnoteOrder, this`sectionLevel
      decreases e, 0, 0
      ensures Valid() && sectionLevel == old(sectionLevel)
      ensures output == start + Fold(PoemParts, e, i + 1, env, ord0).text
      ensures footnoteOrder == Fold(PoemParts, e, i + 1, env, ord0).order
    {
      ghost var done := Fold(PoemParts, e, i, env, ord0);
      var x := e.children[i];
      ghost var b := Item(PoemParts, e, i, env, done.order);
      ProcessPoemChild(x);
      AppendAssoc(start, done.text, b.text);
    }

    /** processPoem's loop over the text-authors (converter.go:472-476). */
    method ProcessPoemAuthors(e: Node)
      requires Valid()
      modifies this`output, this`footnoteSeen, this`footnoteOrder
      decreases e, 1, 0
      ensures Valid()
      ensures var o := Fold(PoemAuthorsOf, e, |SelectElements(e, "text-author")|, Ctx(), old(footnoteOrder));
              output == old(output) + o.text && footnoteOrder == o.order
    {
      ghost var env := Ctx();
      ghost var start := output;
      ghost var ord0 := footnoteOrder;
      assert output == start + Fold(PoemAuthorsOf, e, 0, env, ord0).text by {
        assert start + "" == start;
      }
      var i := 0;
      while i < |SelectElements(e, "text-author")|
        invariant 0 <= i <= |SelectElements(e, "text-author")|
        invariant Valid() && Ctx() == env
        invariant output == start + Fold(PoemAuthorsOf, e, i, env, ord0).text
        invariant footnoteOrder == Fold(PoemAuthorsOf, e, i, env, ord0).order
      {
        ProcessPoemAuthorsStep(e, i, env, start, ord0);
        i := i + 1;
      }
    }

    /** One pass of the loop of ProcessPoemAuthors. */
    method ProcessPoemAuthorsStep(e: Node, i: nat, ghost env: Env, ghost start: string, ghost ord0: seq<string>)
      requires i < |SelectElements(e, "text-author")|
      requires Valid() && Ctx() == env
      requires output == start + Fold(PoemAuthorsOf, e, i, env, ord0).text
      requires footnoteOrder == Fold(PoemAuthorsOf, e, i, env, ord0).order
      modifies this`output, this`footnoteSeen, this`footnoteOrder
      decreases e, 0, 0
      ensures Valid()
      ensures output == start + Fold(PoemAuthorsOf, e, i + 1, env, ord0).text
      ensures footnoteOrder == Fold(PoemAuthorsOf, e, i + 1, env, ord0).order
    {
      ghost var done := Fold(PoemAuthorsOf, e, i, env, ord0);
      var x := SelectElements(e, "text-author")[i];
      ghost var b := Item(PoemAuthorsOf, e, i, env, done.order);
      WrapInline("*\U{2014} ", x, "*\n\n");
      AppendAssoc(start, done.text, b.text);
    }

    /** processQuotedPoem's loop over stanzas and subtitles (converter.go:501-517). */
    method ProcessQuotedPoemChildren(e: Node)
      requires Valid()
      modifies this`output, this`footnoteSeen, this`footnoteOrder
      decreases e, 1, 0
      ensures Valid()
      ensures var o := Fold(QuotedPoemParts, e, |e.children|, Ctx(), old(footnoteOrder));
              output == old(output) + o.text && footnoteOrder == o.order
    {
      ghost var env := Ctx();
      ghost var start := output;
      ghost var ord0 := footnoteOrder;
      assert output == start + Fold(QuotedPoemParts, e, 0, env, ord0).text by {
        assert start + "" == start;
      }
      var i := 0;
      while i < |e.children|
        invariant 0 <= i <= |e.children|
        invariant Valid() && Ctx() == env
        invariant output == start + Fold(QuotedPoemParts, e, i, env, ord0).text
        invariant footnoteOrder == Fold(QuotedPoemParts, e, i, env, ord0).order
      {
        ProcessQuotedPoemChildrenStep(e, i, env, start, ord0);
        i := i + 1;
      }
    }

    /** One pass of the loop of ProcessQuotedPoemChildren. */
    method ProcessQuotedPoemChildrenStep(e: Node, i: nat, ghost env: Env, ghost start: string, ghost ord0: seq<string>)
      requires i < |e.children|
      requires Valid() && Ctx() == env
      requires output == start + Fold(QuotedPoemParts, e, i, env, ord0).text
      requires footnoteOrder == Fold(QuotedPoemParts, e, i, env, ord0).order
      modifies this`output, this`footnoteSeen, this`footnoteOrder
      decreases e, 0, 0
      ensures Valid()
      ensures output == start + Fold(QuotedPoemParts, e, i + 1, env, ord0).text
      ensures footnoteOrder == Fold(QuotedPoemParts, e, i + 1, env, ord0).order
    {
      ghost var done := Fold(QuotedPoemParts, e, i, env, ord0);
      var x := e.children[i];
      ghost var b := Item(QuotedPoemParts, e, i, env, done.order);
      ProcessQuotedPoemChild(x);
      AppendAssoc(start, done.text, b.text);
    }

    /** processQuotedPoem's loop over the verses of a stanza (converter.go:505-509). */
    method ProcessQuotedVerses(e: Node)
      requires Valid()
      modifies this`output, this`footnoteSeen, this`footnoteOrder
      decreases e, 1, 0
      ensures Valid()
      ensures var o := Fold(QuotedVersesOf, e, |SelectElements(e, "v")|, Ctx(), old(footnoteOrder));
              output == old(output) + o.text && footnoteOrder == o.order
    {
      ghost var env := Ctx();
      ghost var start := output;
      ghost var ord0 := footnoteOrder;
      assert output == start + Fold(QuotedVersesOf, e, 0, env, ord0).text by {
        assert start + "" == start;
      }
      var i := 0;
      while i < |SelectElements(e, "v")|
        invariant 0 <= i <= |SelectElements(e, "v")|
        invariant Valid() && Ctx() == env
        invariant output == start + Fold(QuotedVersesOf, e, i, env, ord0).text
        invariant footnoteOrder == Fold(QuotedVersesOf, e, i, env, ord0).order
      {
        ProcessQuotedVersesStep(e, i, env, start, ord0);
        i := i + 1;
      }
    }

    /** One pass of the loop of ProcessQuotedVerses. */
    method ProcessQuotedVersesStep(e: Node, i: nat, ghost env: Env, ghost start: string, ghost ord0: seq<string>)
      requires i < |SelectElements(e, "v")|
      requires Valid() && Ctx() == env
      requires output == start + Fold(QuotedVersesOf, e, i, env, ord0).text
      requires footnoteOrder == Fold(QuotedVersesOf, e, i, env, ord0).order
      modifies this`output, this`footnoteSeen, this`footnoteOrder
      decreases e, 0, 0
      ensures Valid()
      ensures output == start + Fold(QuotedVersesOf, e, i + 1, env, ord0).text
      ensures footnoteOrder == Fold(QuotedVersesOf, e, i + 1, env, ord0).order
    {
      ghost var done := Fold(QuotedVersesOf, e, i, env, ord0);
      var x := SelectElements(e, "v")[i];
      ghost var b := Item(QuotedVersesOf, e, i, env, done.order);
      WrapInline("> ", x, "\n");
      AppendAssoc(start, done.text, b.text);
    }

    /** processQuotedPoem's loop over the text-authors (converter.go:519-523). */
    method ProcessQuotedAuthors(e: Node)
      requires Valid()
      modifies this`output, this`footnoteSeen, this`footnoteOrder
      decreases e, 1, 0
      ensures Valid()
      ensures var o := Fold(QuotedAuthorsOf, e, |SelectElements(e, "text-author")|, Ctx(), old(footnoteOrder));
              output == old(output) + o.text && footnoteOrder == o.order
    {
      ghost var env := Ctx();
      ghost var start := output;
      ghost var ord0 := footnoteOrder;
      assert output == start + Fold(QuotedAuthorsOf, e, 0, env, ord0).text by {
        assert start + "" == start;
      }
      var i := 0;
      while i < |SelectElements(e, "text-author")|
        invariant 0 <= i <= |SelectElements(e, "text-author")|
        invariant Valid() && Ctx() == env
        invariant output == start + Fold(QuotedAuthorsOf, e, i, env, ord0).text
        invariant footnoteOrder == Fold(QuotedAuthorsOf, e, i, env, ord0).order
      {
        ProcessQuotedAuthorsStep(e, i, env, start, ord0);
        i := i + 1;
      }
    }

    /** One pass of the loop of ProcessQuotedAuthors. */
    method ProcessQuotedAuthorsStep(e: Node, i: nat, ghost env: Env, ghost start: string, ghost ord0: seq<string>)
      requires i < |SelectElements(e, "text-author")|
      requires Valid() && Ctx() == env
      requires output == start + Fold(QuotedAuthorsOf, e, i, env, ord0).text
      requires footnoteOrder == Fold(QuotedAuthorsOf, e, i, env, ord0).order
      modifies this`output, this`footnoteSeen, this`footnoteOrder
      decreases e, 0, 0
      ensures Valid()
      ensures output == start + Fold(QuotedAuthorsOf, e, i + 1, env, ord0).text
      ensures footnoteOrder == Fold(QuotedAuthorsOf, e, i + 1, env, ord0).order
    {
      ghost var done := Fold(QuotedAuthorsOf, e, i, env, ord0);
      var x := SelectElements(e, "text-author")[i];
      ghost var b := Item(QuotedAuthorsOf, e, i, env, done.order);
      WrapInline("> *\U{2014} ", x, "*\n");
      AppendAssoc(start, done.text, b.text);
    }

    /** processCite's loop over the cite's children (converter.go:559-582). */
    method ProcessCiteChildren(e: Node)
      requires Valid()
      modifies this`output, this`footnoteSeen, this`footnoteOrder, this`sectionLevel
      decreases e, 1, 0
      ensures Valid() && sectionLevel == old(sectionLevel)
      ensures var o := Fold(CiteParts, e, |e.children|, Ctx(), old(footnoteOrder));
              output == old(output) + o.text && footnoteOrder == o.order
    {
      ghost var env := Ctx();
      ghost var start := output;
      ghost var ord0 := footnoteOrder;
      assert output == start + Fold(CiteParts, e, 0, env, ord0).text by {
        assert start + "" == start;
      }
      var i := 0;
      while i < |e.children|
        invariant 0 <= i <= |e.children|
        invariant Valid() && Ctx() == env && sectionLevel == old(sectionLevel)
        invariant output == start + Fold(CiteParts, e, i, env, ord0).text
        invariant footnoteOrder == Fold(CiteParts, e, i, env, ord0).order
      {
        ProcessCiteChildrenStep(e, i, env, start, ord0);
        i := i + 1;
      }
    }

    /** One pass of the loop of ProcessCiteChildren. */
    method ProcessCiteChildrenStep(e: Node, i: nat, ghost env: Env, ghost start: string, ghost ord0: seq<string>)
      requires i < |e.children|
      requires Valid() && Ctx() == env
      requires output == start + Fold(CiteParts, e, i, env, ord0).text
      requires footnoteOrder == Fold(CiteParts, e, i, env, ord0).order
      modifies this`output, this`footnoteSeen, this`footnoteOrder, this`sectionLevel
      decreases e, 0, 0
      ensures Valid() && sectionLevel == old(sectionLevel)
      ensures output == start + Fold(CiteParts, e, i + 1, env, ord0).text
      ensures footnoteOrder == Fold(CiteParts, e, i + 1, env, ord0).order
    {
      ghost var done := Fold(CiteParts, e, i, env, ord0);
      var x := e.children[i];
      ghost var b := Item(CiteParts, e, i, env, done.order);
      ProcessCiteChild(x);
      AppendAssoc(start, done.text, b.text);
    }

    /** renderTableRow's loop over the row's children (converter.go:656-662). */
    method ProcessRowCells(e: Node)
      requires Valid()
      modifies this`output, this`footnoteSeen, this`footnoteOrder
      decreases e, 1, 0
      ensures Valid()
      ensures var o := Fold(CellsOf, e, |e.children|, Ctx(), old(footnoteOrder));
              output == old(output) + o.text && footnoteOrder == o.order
    {
      ghost var env := Ctx();
      ghost var start := output;
      ghost var ord0 := footnoteOrder;
      assert output == start + Fold(CellsOf, e, 0, env, ord0).text by {
        assert start + "" == start;
      }
      var i := 0;
      while i < |e.children|
        invariant 0 <= i <= |e.children|
        invariant Valid() && Ctx() == env
        invariant output == start + Fold(CellsOf, e, i, env, ord0).text
        invariant footnoteOrder == Fold(CellsOf, e, i, env, ord0).order
      {
        ProcessRowCellsStep(e, i, env, start, ord0);
        i := i + 1;
      }
    }

    /** One pass of the loop of ProcessRowCells. */
    method ProcessRowCellsStep(e: Node, i: nat, ghost env: Env, ghost start: string, ghost ord0: seq<string>)
      requires i < |e.children|
      requires Valid() && Ctx() == env
      requires output == start + Fold(CellsOf, e, i, env, ord0).text
      requires footnoteOrder == Fold(CellsOf, e, i, env, ord0).order
      modifies this`output, this`footnoteSeen, this`footnoteOrder
      decreases e, 0, 0
      ensures Valid()
      ensures output == start + Fold(CellsOf, e, i + 1, env, ord0).text
      ensures footnoteOrder == Fold(CellsOf, e, i + 1, env, ord0).order
    {
      ghost var done := Fold(CellsOf, e, i, env, ord0);
      var x := e.children[i];
      ghost var b := Item(CellsOf, e, i, env, done.order);
      ProcessCell(x);
      AppendAssoc(start, done.text, b.text);
    }

    /** processSection's loop over the section's children (converter.go:380-404). */
    method ProcessSectionChildren(e: Node)
      requires Valid()
      modifies this`output, this`footnoteSeen, this`footnoteOrder, this`sectionLevel
      decreases e, 1, 0
      ensures Valid() && sectionLevel == old(sectionLevel)
      ensures var o := Fold(SectionParts(sectionLevel), e, |e.children|, Ctx(), old(footnoteOrder));
              output == old(output) + o.text && footnoteOrder == o.order
    {
      ghost var env := Ctx();
      ghost var start := output;
      ghost var ord0 := footnoteOrder;
      assert output == start + Fold(SectionParts(sectionLevel), e, 0, env, ord0).text by {
        assert start + "" == start;
      }
      var i := 0;
      while i < |e.children|
        invariant 0 <= i <= |e.children|
        invariant Valid() && Ctx() == env && sectionLevel == old(sectionLevel)
        invariant output == start + Fold(SectionParts(sectionLevel), e, i, env, ord0).text
        invariant footnoteOrder == Fold(SectionParts(sectionLevel), e, i, env, ord0).order
      {
        ProcessSectionChildrenStep(e, i, env, start, ord0);
        i := i + 1;
      }
    }

    /** One pass of the loop of ProcessSectionChildren. */
    method ProcessSectionChildrenStep(e: Node, i: nat, ghost env: Env, ghost start: string, ghost ord0: seq<string>)
      requires i < |e.children|
      requires Valid() && Ctx() == env
      requires output == start + Fold(SectionParts(sectionLevel), e, i, env, ord0).text
      requires footnoteOrder == Fold(SectionParts(sectionLevel), e, i, env, ord0).order
      modifies this`output, this`footnoteSeen, this`footnoteOrder, this`sectionLevel
      decreases e, 0, 0
      ensures Valid() && sectionLevel == old(sectionLevel)
      ensures output == start + Fold(SectionParts(sectionLevel), e, i + 1, env, ord0).text
      ensures footnoteOrder == Fold(SectionParts(sectionLevel), e, i + 1, env, ord0).order
    {
      ghost var done := Fold(SectionParts(sectionLevel), e, i, env, ord0);
      var x := e.children[i];
      ghost var b := Item(SectionParts(sectionLevel), e, i, env, done.order);
      ProcessSectionChild(x);
      AppendAssoc(start, done.text, b.text);
    }

    /** processBlockContent (converter.go:678-703): every child by its tag. */
    method ProcessBlockContent(e: Node)
      requires Valid()
      modifies this`output, this`footnoteSeen, this`footnoteOrder, this`sectionLevel
      decreases e, 1, 0
      ensures Valid() && sectionLevel == old(sectionLevel)
      ensures var o := Fold(BlockParts(sectionLevel), e, |e.children|, Ctx(), old(footnoteOrder));
              output == old(output) + o.text && footnoteOrder == o.order
    {
      ghost var env := Ctx();
      ghost var start := output;
      ghost var ord0 := footnoteOrder;
      assert output == start + Fold(BlockParts(sectionLevel), e, 0, env, ord0).text by {
        assert start + "" == start;
      }
      var i := 0;
      while i < |e.children|
        invariant 0 <= i <= |e.children|
        invariant Valid() && Ctx() == env && sectionLevel == old(sectionLevel)
        invariant output == start + Fold(BlockParts(sectionLevel), e, i, env, ord0).text
        invariant footnoteOrder == Fold(BlockParts(sectionLevel), e, i, env, ord0).order
      {
        ProcessBlockContentStep(e, i, env, start, ord0);
        i := i + 1;
      }
    }

    /** One pass of the loop of ProcessBlockContent. */
    method ProcessBlockContentStep(e: Node, i: nat, ghost env: Env, ghost start: string, ghost ord0: seq<string>)
      requires i < |e.children|
      requires Valid() && Ctx() == env
      requires output == start + Fold(BlockParts(sectionLevel), e, i, env, ord0).text
      requires footnoteOrder == Fold(BlockParts(sectionLevel), e, i, env, ord0).order
      modifies this`output, this`footnoteSeen, this`footnoteOrder, this`sectionLevel
      decreases e, 0, 0
      ensures Valid() && sectionLevel == old(sectionLevel)
      ensures output == start + Fold(BlockParts(sectionLevel), e, i + 1, env, ord0).text
      ensures footnoteOrder == Fold(BlockParts(sectionLevel), e, i + 1, env, ord0).order
    {
      ghost var done := Fold(BlockParts(sectionLevel), e, i, env, ord0);
      var x := e.children[i];
      ghost var b := Item(BlockParts(sectionLevel), e, i, env, done.order);
      ProcessBlockChild(x);
      AppendAssoc(start, done.text, b.text);
    }

    /** processBody (converter.go:321-351): every child by its tag. */
    method ProcessBody(e: Node)
      requires Valid()
      modifies this`output, this`footnoteSeen, this`footnoteOrder, this`sectionLevel
      decreases e, 1, 0
      ensures Valid() && sectionLevel == old(sectionLevel)
      ensures var o := Fold(BodyParts(sectionLevel), e, |e.children|, Ctx(), old(footnoteOrder));
              output == old(output) + o.text && footnoteOrder == o.order
    {
      ghost var env := Ctx();
      ghost var start := output;
      ghost var ord0 := footnoteOrder;
      assert output == start + Fold(BodyParts(sectionLevel), e, 0, env, ord0).text by {
        assert start + "" == start;
      }
      var i := 0;
      while i < |e.children|
        invariant 0 <= i <= |e.children|
        invariant Valid() && Ctx() == env && sectionLevel == old(sectionLevel)
        invariant output == start + Fold(BodyParts(sectionLevel), e, i, env, ord0).text
        invariant footnoteOrder == Fold(BodyParts(sectionLevel), e, i, env, ord0).order
      {
        ProcessBodyStep(e, i, env, start, ord0);
        i := i + 1;
      }
    }

    /** One pass of the loop of ProcessBody. */
    method ProcessBodyStep(e: Node, i: nat, ghost env: Env, ghost start: string, ghost ord0: seq<string>)
      requires i < |e.children|
      requires Valid() && Ctx() == env
      requires output == start + Fold(BodyParts(sectionLevel), e, i, env, ord0).text
      requires footnoteOrder == Fold(BodyParts(sectionLevel), e, i, env, ord0).order
      modifies this`output, this`footnoteSeen, this`footnoteOrder, this`sectionLevel
      decreases e, 0, 0
      ensures Valid() && sectionLevel == old(sectionLevel)
      ensures output == start + Fold(BodyParts(sectionLevel), e, i + 1, env, ord0).text
      ensures footnoteOrder == Fold(BodyParts(sectionLevel), e, i + 1, env, ord0).order
    {
      ghost var done := Fold(BodyParts(sectionLevel), e, i, env, ord0);
      var x := e.children[i];
      ghost var b := Item(BodyParts(sectionLevel), e, i, env, done.order);
      ProcessBodyChild(x);
      AppendAssoc(start, done.text, b.text);
    }

    // -------------------------------------------------------------------
    // Quotes: processEpigraph, processCite, processQuotedPoem
    // -------------------------------------------------------------------

    /** processEpigraph (converter.go:407-442): each child as a quoted line, then a blank line. */
    method ProcessEpigraph(e: Node)
      requires Valid()
      modifies this`output, this`footnoteSeen, this`footnoteOrder, this`sectionLevel
      decreases e, 8, 0
      ensures Valid() && sectionLevel == old(sectionLevel)
      ensures var o := EpigraphMd(e, Ctx(), old(footnoteOrder));
              output == old(output) + o.text && footnoteOrder == o.order
    {
      ProcessEpigraphChildren(e);
      ghost var c := Fold(EpigraphParts, e, |e.children|, Ctx(), old(footnoteOrder)).text;
      output := output + "\n";
      UnmarkedWrap(c, "\n");
    }

    /** The switch of processEpigraph's loop (converter.go:409-437). */
    method ProcessEpigraphChild(x: Node)
      requires Valid()
      modifies this`output, this`footnoteSeen, this`footnoteOrder, this`sectionLevel
      decreases x, 7, 0
      ensures Valid() && sectionLevel == old(sectionLevel)
      ensures var o := EpigraphChildMd(x, Ctx(), old(footnoteOrder));
              output == old(output) + o.text && footnoteOrder == o.order
    {
      match x.tag
      case "poem" => ProcessQuotedPoem(x);
      case "cite" => ProcessQuoteLines(x);
      case _ => ProcessQuoteLine(x);
    }

    /** The p, text-author and empty-line arms of processEpigraph and of a cite nested in it (converter.go:410-436). */
    method ProcessQuoteLine(x: Node)
      requires Valid()
      modifies this`output, this`footnoteSeen, this`footnoteOrder
      decreases x, 4, 0
      ensures Valid()
      ensures var o := QuoteLineMd(x, Ctx(), old(footnoteOrder));
              output == old(output) + o.text && footnoteOrder == o.order
    {
      match x.tag
      case "p" => WrapInline("> ", x, "\n");
      case "text-author" => WrapInline(">\n> \U{2014} ", x, "\n");
      case "empty-line" => output := output + ">\n";
      case _ => assert output + "" == output;
    }

    /** processCite (converter.go:558-584): each child as a quoted block, then a blank line. */
    method ProcessCite(e: Node)
      requires Valid()
      modifies this`output, this`footnoteSeen, this`footnoteOrder, this`sectionLevel
      decreases e, 8, 0
      ensures Valid() && sectionLevel == old(sectionLevel)
      ensures var o := CiteMd(e, Ctx(), old(footnoteOrder));
              output == old(output) + o.text && footnoteOrder == o.order
    {
      ProcessCiteChildren(e);
      ghost var c := Fold(CiteParts, e, |e.children|, Ctx(), old(footnoteOrder)).text;
      output := output + "\n";
      UnmarkedWrap(c, "\n");
    }

    /** The switch of processCite's loop (converter.go:560-581). */
    method ProcessCiteChild(x: Node)
      requires Valid()
      modifies this`output, this`footnoteSeen, this`footnoteOrder, this`sectionLevel
      decreases x, 7, 0
      ensures Valid() && sectionLevel == old(sectionLevel)
      ensures var o := CiteChildMd(x, Ctx(), old(footnoteOrder));
              output == old(output) + o.text && footnoteOrder == o.order
    {
      match x.tag
      case "p" => WrapInline("> ", x, "\n>\n");
      case "poem" => ProcessQuotedPoem(x);
      case "subtitle" => WrapInline("> **", x, "**\n>\n");
      case "empty-line" => output := output + ">\n";
      case "table" => ProcessTable(x);
      case "text-author" => WrapInline(">\n> \U{2014} ", x, "\n");
      case _ => assert output + "" == output;
    }

    /** The flattened title of e between pre and post, when it has a non-empty one (processPoem, processQuotedPoem, processStanza). */
    method WriteTitle(e: Node, pre: string, post: string)
      modifies this`output
      ensures output == old(output) + TitleLine(e, pre, post)
    {
      var title := SelectElement(e, "title");
      if title.Some? {
        var text := ExtractAllText(title.value);
        if text != "" {
          output := output + pre;
          output := output + text;
          output := output + post;
          AppendAssoc3(old(output), pre, text, post);
          return;
        }
      }
      assert output + "" == output;
    }

    /** processQuotedPoem (converter.go:491-525): title, stanzas and subtitles, then authors, all quoted. */
    method ProcessQuotedPoem(e: Node)
      requires Valid()
      modifies this`output, this`footnoteSeen, this`footnoteOrder, this`sectionLevel
      decreases e, 6, 0
      ensures Valid() && sectionLevel == old(sectionLevel)
      ensures var o := QuotedPoemMd(e, Ctx(), old(footnoteOrder));
              output == old(output) + o.text && footnoteOrder == o.order
    {
      ghost var env := Ctx();
      ghost var title := TitleLine(e, "> **", "**\n>\n");
      ghost var body := Fold(QuotedPoemParts, e, |e.children|, env, footnoteOrder);
      ghost var authors := Fold(QuotedAuthorsOf, e, |SelectElements(e, "text-author")|, env, body.order);
      WriteTitle(e, "> **", "**\n>\n");
      ProcessQuotedPoemChildren(e);
      ProcessQuotedAuthors(e);
      AppendAssoc3(old(output), title, body.text, authors.text);
    }

    /** The switch of processQuotedPoem's loop (converter.go:502-516). */
    method ProcessQuotedPoemChild(x: Node)
      requires Valid()
      modifies this`output, this`footnoteSeen, this`footnoteOrder
      decreases x, 4, 0
      ensures Valid()
      ensures var o := QuotedPoemChildMd(x, Ctx(), old(footnoteOrder));
              output == old(output) + o.text && footnoteOrder == o.order
    {
      match x.tag
      case "stanza" => ProcessQuotedStanza(x);
      case "subtitle" => WrapInline("> **", x, "**\n");
      case _ => assert output + "" == output;
    }

    /** A stanza of a quoted poem (converter.go:503-510): its verses, then a quoted blank line. */
    method ProcessQuotedStanza(x: Node)
      requires Valid()
      modifies this`output, this`footnoteSeen, this`footnoteOrder
      decreases x, 3, 0
      ensures Valid()
      ensures var o := Wrap("", Fold(QuotedVersesOf, x, |SelectElements(x, "v")|, Ctx(), old(footnoteOrder)), ">\n");
              output == old(output) + o.text && footnoteOrder == o.order
    {
      ProcessQuotedVerses(x);
      ghost var c := Fold(QuotedVersesOf, x, |SelectElements(x, "v")|, Ctx(), old(footnoteOrder)).text;
      output := output + ">\n";
      UnmarkedWrap(c, ">\n");
    }

    // -------------------------------------------------------------------
    // processPoem and processStanza
    // -------------------------------------------------------------------

    /** processPoem (converter.go:444-489): title, epigraphs, stanzas and subtitles, authors, date. */
    method ProcessPoem(e: Node)
      requires Valid()
      modifies this`output, this`footnoteSeen, this`footnoteOrder, this`sectionLevel
      decreases e, 8, 0
      ensures Valid() && sectionLevel == old(sectionLevel)
      ensures var o := PoemMd(e, Ctx(), old(footnoteOrder));
              output == old(output) + o.text && footnoteOrder == o.order
    {
      ghost var env := Ctx();
      ghost var title := TitleLine(e, "**", "**\n\n");
      ghost var eps := Fold(EpigraphsOf, e, |SelectElements(e, "epigraph")|, env, footnoteOrder);
      ghost var rest := PoemBody(e, env, eps.order);
      WriteTitle(e, "**", "**\n\n");
      ProcessEpigraphs(e);
      ProcessPoemBody(e);
      AppendAssoc3(old(output), title, eps.text, rest.text);
    }

    /** processPoem after its epigraphs (converter.go:459-487): stanzas and subtitles, text-authors, the date. */
    method ProcessPoemBody(e: Node)
      requires Valid()
      modifies this`output, this`footnoteSeen, this`footnoteOrder, this`sectionLevel
      decreases e, 7, 0
      ensures Valid() && sectionLevel == old(sectionLevel)
      ensures var o := PoemBody(e, Ctx(), old(footnoteOrder));
              output == old(output) + o.text && footnoteOrder == o.order
    {
      ghost var env := Ctx();
      ghost var body := Fold(PoemParts, e, |e.children|, env, footnoteOrder);
      ghost var authors := Fold(PoemAuthorsOf, e, |SelectElements(e, "text-author")|, env, body.order);
      ProcessPoemChildren(e);
      ProcessPoemTail(e);
      AppendAssoc3(old(output), body.text, authors.text, PoemDate(e));
    }

    /** The close of processPoem (converter.go:471-487): the text-authors, then the date. */
    method ProcessPoemTail(e: Node)
      requires Valid()
      modifies this`output, this`footnoteSeen, this`footnoteOrder
      decreases e, 7, 0
      ensures Valid()
      ensures var authors := Fold(PoemAuthorsOf, e, |SelectElements(e, "text-author")|, Ctx(), old(footnoteOrder));
              output == old(output) + authors.text + PoemDate(e) && footnoteOrder == authors.order
    {
      ProcessPoemAuthors(e);
      WritePoemDate(e);
    }

    /** The date line of processPoem (converter.go:479-487). */
    method WritePoemDate(e: Node)
      modifies this`output
      ensures output == old(output) + PoemDate(e)
    {
      var date := SelectElement(e, "date");
      if date.Some? && date.value.text != "" {
        output := output + "*";
        output := output + date.value.text;
        output := output + "*\n\n";
        AppendAssoc3(old(output), "*", date.value.text, "*\n\n");
      } else {
        assert output + "" == output;
      }
    }

    /** The switch of processPoem's loop (converter.go:461-468). */
    method ProcessPoemChild(x: Node)
      requires Valid()
      modifies this`output, this`footnoteSeen, this`footnoteOrder, this`sectionLevel
      decreases x, 7, 0
      ensures Valid() && sectionLevel == old(sectionLevel)
      ensures var o := PoemChildMd(x, Ctx(), old(footnoteOrder));
              output == old(output) + o.text && footnoteOrder == o.order
    {
      match x.tag
      case "stanza" => ProcessPoemStanza(x);
      case "subtitle" => ProcessSubtitle(x);
      case _ => assert output + "" == output;
    }

    /** A stanza of processPoem (converter.go:462-464): the stanza, then a blank line. */
    method ProcessPoemStanza(x: Node)
      requires Valid()
      modifies this`output, this`footnoteSeen, this`footnoteOrder, this`sectionLevel
      decreases x, 7, 0
      ensures Valid() && sectionLevel == old(sectionLevel)
      ensures var o := Wrap("", StanzaMd(x, Ctx(), old(footnoteOrder)), "\n");
              output == old(output) + o.text && footnoteOrder == o.order
    {
      ghost var env := Ctx();
      ghost var st := StanzaMd(x, env, footnoteOrder);
      ProcessStanza(x);
      assert output == old(output) + st.text && footnoteOrder == st.order;
      output := output + "\n";
      UnmarkedWrap(st.text, "\n");
      AppendAssoc(old(output), st.text, "\n");
      assert Ctx() == env;
    }

    /** processStanza (converter.go:527-556): title, subtitle, then the verses. */
    method ProcessStanza(e: Node)
      requires Valid()
      modifies this`output, this`footnoteSeen, this`footnoteOrder, this`sectionLevel
      decreases e, 6, 0
      ensures Valid() && sectionLevel == old(sectionLevel)
      ensures var o := StanzaMd(e, Ctx(), old(footnoteOrder));
              output == old(output) + o.text && footnoteOrder == o.order
    {
      ghost var env := Ctx();
      ghost var title := TitleLine(e, "**", "**\n");
      ghost var sub :=
        match SelectElement(e, "subtitle")
        case Some(s) => Wrap("**", InlineMd(s, env, footnoteOrder), "**\n")
        case None => Out("", footnoteOrder);
      ghost var verses := Fold(VersesOf, e, |SelectElements(e, "v")|, env, sub.order);
      WriteTitle(e, "**", "**\n");
      var subtitle := SelectElement(e, "subtitle");
      if subtitle.Some? {
        WrapInline("**", subtitle.value, "**\n");
      } else {
        assert output + "" == output;
      }
      ProcessVerses(e);
      AppendAssoc3(old(output), title, sub.text, verses.text);
    }

    /** processStanza's loop over the verses (converter.go:546-555). */
    method ProcessVerses(e: Node)
      requires Valid()
      modifies this`output, this`footnoteSeen, this`footnoteOrder
      decreases e, 1, 0
      ensures Valid()
      ensures var o := Fold(VersesOf, e, |SelectElements(e, "v")|, Ctx(), old(footnoteOrder));
              output == old(output) + o.text && footnoteOrder == o.order
    {
      ghost var env := Ctx();
      ghost var start := output;
      ghost var ord0 := footnoteOrder;
      var verses := SelectElements(e, "v");
      assert output == start + Fold(VersesOf, e, 0, env, ord0).text by {
        assert start + "" == start;
      }
      var i := 0;
      while i < |verses|
        invariant 0 <= i <= |verses|
        invariant Valid() && Ctx() == env
        invariant output == start + Fold(VersesOf, e, i, env, ord0).text
        invariant footnoteOrder == Fold(VersesOf, e, i, env, ord0).order
      {
        VerseStep(e, i, env, start, ord0);
        i := i + 1;
      }
    }

    /** One verse: its inline content, then a Markdown line break unless it is the last one (converter.go:547-554). */
    method VerseStep(e: Node, i: nat, ghost env: Env, ghost start: string, ghost ord0: seq<string>)
      requires i < |SelectElements(e, "v")|
      requires Valid() && Ctx() == env
      requires output == start + Fold(VersesOf, e, i, env, ord0).text
      requires footnoteOrder == Fold(VersesOf, e, i, env, ord0).order
      modifies this`output, this`footnoteSeen, this`footnoteOrder
      decreases e, 0, 0
      ensures Valid()
      ensures output == start + Fold(VersesOf, e, i + 1, env, ord0).text
      ensures footnoteOrder == Fold(VersesOf, e, i + 1, env, ord0).order
    {
      var verses := SelectElements(e, "v");
      ghost var done := Fold(VersesOf, e, i, env, ord0);
      ghost var v := InlineMd(verses[i], env, done.order);
      VerseFoldStep(e, i, env, ord0);
      ProcessInlineElement(verses[i]);
      var sep := if i < |verses| - 1 then "  \n" else "\n";
      output := output + sep;
      AppendAssoc3(start, done.text, v.text, sep);
    }

    // -------------------------------------------------------------------
    // processTable and renderTableRow
    // -------------------------------------------------------------------

    /** processTable (converter.go:586-652). */
    method ProcessTable(e: Node)
      requires Valid()
      modifies this`output, this`footnoteSeen, this`footnoteOrder
      decreases e, 6, 0
      ensures Valid()
      ensures var o := TableMd(e, Ctx(), old(footnoteOrder));
              output == old(output) + o.text && footnoteOrder == o.order
    {
      var rows := SelectElements(e, "tr");
      if |rows| == 0 {
        assert output + "" == output;
        return;
      }
      var first := rows[0];
      var cells := SelectElements(first, "th");
      if |cells| == 0 {
        cells := SelectElements(first, "td");
      }
      if |cells| == 0 {
        cells := first.children;
      }
      var colCount := |cells|;
      assert colCount == ColumnCount(first);
      if colCount == 0 {
        assert output + "" == output;
        return;
      }
      var hasHeader := |SelectElements(first, "th")| > 0;
      if hasHeader {
        WriteHeaderTable(e, colCount);
      } else {
        WriteHeaderlessTable(e, colCount);
      }
    }

    /** processTable's branch for a first row with th cells (converter.go:611-632): that row as header, the others as data. */
    method WriteHeaderTable(e: Node, k: nat)
      requires Valid()
      requires |SelectElements(e, "tr")| > 0 && 0 < k == ColumnCount(SelectElements(e, "tr")[0])
      requires |SelectElements(SelectElements(e, "tr")[0], "th")| > 0
      modifies this`output, this`footnoteSeen, this`footnoteOrder
      decreases e, 5, 0
      ensures Valid()
      ensures var o := TableMd(e, Ctx(), old(footnoteOrder));
              output == old(output) + o.text && footnoteOrder == o.order
    {
      var rows := SelectElements(e, "tr");
      ghost var env := Ctx();
      ghost var head := RowMd(rows[0], env, footnoteOrder);
      ghost var data := Fold(RowsFrom(1), e, |rows| - 1, env, head.order);
      assert TableMd(e, env, footnoteOrder) == Out(head.text + SeparatorRow(k) + data.text + "\n", data.order);
      RenderTableRow(rows[0]);
      WriteRule(" --- |", k);
      AppendAssoc(old(output), head.text, SeparatorRow(k));
      ghost var mid := output;
      ProcessTableRows(e, 1);
      assert output == mid + data.text && footnoteOrder == data.order;
      output := output + "\n";
      AppendAssoc3(old(output), head.text + SeparatorRow(k), data.text, "\n");
    }

    /** processTable's branch without th cells (converter.go:633-648): a blank header, then every row as data. */
    method WriteHeaderlessTable(e: Node, k: nat)
      requires Valid()
      requires |SelectElements(e, "tr")| > 0 && 0 < k == ColumnCount(SelectElements(e, "tr")[0])
      requires |SelectElements(SelectElements(e, "tr")[0], "th")| == 0
      modifies this`output, this`footnoteSeen, this`footnoteOrder
      decreases e, 5, 0
      ensures Valid()
      ensures var o := TableMd(e, Ctx(), old(footnoteOrder));
              output == old(output) + o.text && footnoteOrder == o.order
    {
      var rows := SelectElements(e, "tr");
      ghost var data := Fold(RowsFrom(0), e, |rows| - 0, Ctx(), footnoteOrder);
      HeaderlessTableMd(e, k, Ctx(), footnoteOrder);
      WriteBlankHeader(k);
      ProcessTableRows(e, 0);
      output := output + "\n";
      AppendAssoc3(old(output), BlankHeaderRow(k) + SeparatorRow(k), data.text, "\n");
    }

    /** The synthesized header of a table without th cells and its delimiter row (converter.go:638-647, 623-627). */
    method WriteBlankHeader(k: nat)
      modifies this`output
      ensures output == old(output) + (BlankHeaderRow(k) + SeparatorRow(k))
    {
      WriteRule("  |", k);
      WriteRule(" --- |", k);
      AppendAssoc(old(output), BlankHeaderRow(k), SeparatorRow(k));
    }

    /** A row of k copies of cell between "|" and a line end: the separator row and the synthesized header (converter.go:623-627, 638-647). */
    method WriteRule(cell: string, k: nat)
      modifies this`output
      ensures output == old(output) + ("|" + Repeat(cell, k) + "\n")
    {
      output := output + "|";
      var i := 0;
      while i < k
        invariant 0 <= i <= k
        invariant output == old(output) + "|" + Repeat(cell, i)
      {
        output := output + cell;
        i := i + 1;
      }
      output := output + "\n";
      AppendAssoc3(old(output), "|", Repeat(cell, k), "\n");
    }

    /** The loops of processTable over the rows from lo on (converter.go:630-632, 648-650). */
    method ProcessTableRows(e: Node, lo: nat)
      requires lo <= |SelectElements(e, "tr")|
      requires Valid()
      modifies this`output, this`footnoteSeen, this`footnoteOrder
      decreases e, 1, 0
      ensures Valid()
      ensures var o := Fold(RowsFrom(lo), e, |SelectElements(e, "tr")| - lo, Ctx(), old(footnoteOrder));
              output == old(output) + o.text && footnoteOrder == o.order
    {
      ghost var env := Ctx();
      ghost var start := output;
      ghost var ord0 := footnoteOrder;
      var rows := SelectElements(e, "tr");
      assert output == start + Fold(RowsFrom(lo), e, 0, env, ord0).text by {
        assert start + "" == start;
      }
      var i := lo;
      ghost var done := Fold(RowsFrom(lo), e, 0, env, ord0);
      while i < |rows|
        invariant lo <= i <= |rows|
        invariant Valid() && Ctx() == env
        invariant done == Fold(RowsFrom(lo), e, i - lo, env, ord0)
        invariant output == start + done.text && footnoteOrder == done.order
      {
        TableRowStep(e, lo, i, env, start, ord0);
        done := Fold(RowsFrom(lo), e, i + 1 - lo, env, ord0);
        i := i + 1;
      }
    }

    /** One pass of processTable's row loops. */
    method TableRowStep(e: Node, lo: nat, i: nat, ghost env: Env, ghost start: string, ghost ord0: seq<string>)
      requires lo <= i < |SelectElements(e, "tr")|
      requires Valid() && Ctx() == env
      requires output == start + Fold(RowsFrom(lo), e, i - lo, env, ord0).text
      requires footnoteOrder == Fold(RowsFrom(lo), e, i - lo, env, ord0).order
      modifies this`output, this`footnoteSeen, this`footnoteOrder
      decreases e, 0, 0
      ensures Valid()
      ensures output == start + Fold(RowsFrom(lo), e, i + 1 - lo, env, ord0).text
      ensures footnoteOrder == Fold(RowsFrom(lo), e, i + 1 - lo, env, ord0).order
    {
      ghost var done := Fold(RowsFrom(lo), e, i - lo, env, ord0);
      var row := SelectElements(e, "tr")[i];
      ghost var b := Item(RowsFrom(lo), e, i - lo, env, done.order);
      RenderTableRow(row);
      AppendAssoc(start, done.text, b.text);
    }

    /** renderTableRow (converter.go:654-664). */
    method RenderTableRow(row: Node)
      requires Valid()
      modifies this`output, this`footnoteSeen, this`footnoteOrder
      decreases row, 2, 0
      ensures Valid()
      ensures var o := RowMd(row, Ctx(), old(footnoteOrder));
              output == old(output) + o.text && footnoteOrder == o.order
    {
      output := output + "| ";
      ProcessRowCells(row);
      ghost var c := Fold(CellsOf, row, |row.children|, Ctx(), old(footnoteOrder)).text;
      output := output + "\n";
      AppendAssoc3(old(output), "| ", c, "\n");
    }

    /** One child of a table row: a th or td cell's inline text, captured by extractInlineText, then " | " (converter.go:657-661). */
    method ProcessCell(x: Node)
      requires Valid()
      modifies this`output, this`footnoteSeen, this`footnoteOrder
      decreases x, 4, 0
      ensures Valid()
      ensures var o := CellMd(x, Ctx(), old(footnoteOrder));
              output == old(output) + o.text && footnoteOrder == o.order
    {
      if x.tag == "th" || x.tag == "td" {
        var text := ExtractInlineText(x);
        output := output + text;
        output := output + " | ";
        UnmarkedWrap(text, " | ");
      } else {
        assert output + "" == output;
      }
    }

    // -------------------------------------------------------------------
    // processSection, processBlockContent and processBody
    // -------------------------------------------------------------------

    /**
     * processSection (converter.go:353-405): one level deeper for the heading
     * and everything inside, and back to the entry depth afterwards.
     */
    method ProcessSection(e: Node)
      requires Valid()
      modifies this`output, this`footnoteSeen, this`footnoteOrder, this`sectionLevel
      decreases e, 10, 0
      ensures Valid() && sectionLevel == old(sectionLevel)
      ensures var o := SectionMd(e, old(sectionLevel) + 1, Ctx(), old(footnoteOrder));
              output == old(output) + o.text && footnoteOrder == o.order
    {
      sectionLevel := sectionLevel + 1;
      ProcessSectionContent(e);
      sectionLevel := sectionLevel - 1;
    }

    /** The body of processSection (converter.go:356-404), run at the incremented sectionLevel. */
    method ProcessSectionContent(e: Node)
      requires Valid()
      modifies this`output, this`footnoteSeen, this`footnoteOrder, this`sectionLevel
      decreases e, 9, 0
      ensures Valid() && sectionLevel == old(sectionLevel)
      ensures var o := SectionMd(e, sectionLevel, Ctx(), old(footnoteOrder));
              output == old(output) + o.text && footnoteOrder == o.order
    {
      ghost var env := Ctx();
      ghost var head := SectionHead(e, sectionLevel, env, footnoteOrder);
      ghost var rest := Fold(SectionParts(sectionLevel), e, |e.children|, env, head.order);
      ProcessSectionHead(e);
      ghost var mid := output;
      ProcessSectionChildren(e);
      assert output == mid + rest.text;
      AppendAssoc(old(output), head.text, rest.text);
    }

    /** processSection up to its child loop (converter.go:358-377). */
    method ProcessSectionHead(e: Node)
      requires Valid()
      modifies this`output, this`footnoteSeen, this`footnoteOrder, this`sectionLevel
      decreases e, 8, 0
      ensures Valid() && sectionLevel == old(sectionLevel)
      ensures var o := SectionHead(e, sectionLevel, Ctx(), old(footnoteOrder));
              output == old(output) + o.text && footnoteOrder == o.order
    {
      ghost var env := Ctx();
      ghost var head := SectionHeading(e, sectionLevel);
      ghost var eps := Fold(EpigraphsOf, e, |SelectElements(e, "epigraph")|, env, footnoteOrder);
      ghost var ann := AnnotationMd(e, sectionLevel, env, eps.order);
      WriteHeading(e);
      ProcessEpigraphs(e);
      ProcessAnnotation(e);
      AppendAssoc3(old(output), head, eps.text, ann.text);
    }

    /** The heading of processSection (converter.go:358-368). */
    method WriteHeading(e: Node)
      modifies this`output
      ensures output == old(output) + SectionHeading(e, sectionLevel)
    {
      var title := SelectElement(e, "title");
      if title.Some? {
        var level := sectionLevel + 1;
        if level > 6 {
          level := 6;
        }
        output := output + Repeat("#", level);
        output := output + " ";
        var text := ExtractAllText(title.value);
        output := output + text;
        output := output + "\n\n";
        AppendAssoc3(old(output), Repeat("#", level) + " ", text, "\n\n");
      } else {
        assert output + "" == output;
      }
    }

    /** The annotation of processSection (converter.go:375-377): its first annotation child as block content. */
    method ProcessAnnotation(e: Node)
      requires Valid()
      modifies this`output, this`footnoteSeen, this`footnoteOrder, this`sectionLevel
      decreases e, 2, 0
      ensures Valid() && sectionLevel == old(sectionLevel)
      ensures var o := AnnotationMd(e, sectionLevel, Ctx(), old(footnoteOrder));
              output == old(output) + o.text && footnoteOrder == o.order
    {
      var annotation := SelectElement(e, "annotation");
      if annotation.Some? {
        ProcessBlockContent(annotation.value);
      } else {
        assert output + "" == output;
      }
    }

    /** The switch of processSection's child loop (converter.go:381-403): title, epigraphs and annotation were written already. */
    method ProcessSectionChild(x: Node)
      requires Valid()
      modifies this`output, this`footnoteSeen, this`footnoteOrder, this`sectionLevel
      decreases x, 11, 0
      ensures Valid() && sectionLevel == old(sectionLevel)
      ensures var o := SectionChildMd(x, sectionLevel, Ctx(), old(footnoteOrder));
              output == old(output) + o.text && footnoteOrder == o.order
    {
      match x.tag
      case "title" | "epigraph" | "annotation" => assert output + "" == output;
      case "section" => ProcessSection(x);
      case "p" => ProcessParagraph(x);
      case "subtitle" => ProcessSubtitle(x);
      case "empty-line" => output := output + "\n";
      case "image" => ProcessImage(x);
      case "poem" => ProcessPoem(x);
      case "cite" => ProcessCite(x);
      case "table" => ProcessTable(x);
      case _ => ProcessBlockContent(x);
    }

    /** The switch of processBlockContent (converter.go:680-701): unknown tags are rendered inline. */
    method ProcessBlockChild(x: Node)
      requires Valid()
      modifies this`output, this`footnoteSeen, this`footnoteOrder, this`sectionLevel
      decreases x, 11, 0
      ensures Valid() && sectionLevel == old(sectionLevel)
      ensures var o := BlockChildMd(x, sectionLevel, Ctx(), old(footnoteOrder));
              output == old(output) + o.text && footnoteOrder == o.order
    {
      match x.tag
      case "epigraph" => ProcessEpigraph(x);
      case "section" => ProcessSection(x);
      case "p" => ProcessParagraph(x);
      case "subtitle" => ProcessSubtitle(x);
      case "empty-line" => output := output + "\n";
      case "image" => ProcessImage(x);
      case "poem" => ProcessPoem(x);
      case "cite" => ProcessCite(x);
      case "table" => ProcessTable(x);
      case _ => ProcessInlineElement(x);
    }

    /** The switch of processBody (converter.go:323-348): a body title becomes a level-2 heading. */
    method ProcessBodyChild(x: Node)
      requires Valid()
      modifies this`output, this`footnoteSeen, this`footnoteOrder, this`sectionLevel
      decreases x, 11, 0
      ensures Valid() && sectionLevel == old(sectionLevel)
      ensures var o := BodyChildMd(x, sectionLevel, Ctx(), old(footnoteOrder));
              output == old(output) + o.text && footnoteOrder == o.order
    {
      match x.tag
      case "title" =>
        output := output + "\n## ";
        var text := ExtractAllText(x);
        output := output + text;
        output := output + "\n\n";
        AppendAssoc3(old(output), "\n## ", text, "\n\n");
      case "epigraph" => ProcessEpigraph(x);
      case "section" => ProcessSection(x);
      case "p" => ProcessParagraph(x);
      case "subtitle" => ProcessSubtitle(x);
      case "empty-line" => output := output + "\n";
      case "image" => ProcessImage(x);
      case "poem" => ProcessPoem(x);
      case "cite" => ProcessCite(x);
      case "table" => ProcessTable(x);
      case _ => ProcessBlockContent(x);
    }

    // -------------------------------------------------------------------
    // Footnote collection and the appendix
    // -------------------------------------------------------------------

    /**
     * collectFootnotes (converter.go:171-209): the notes of e's sections enter
     * the footnote table. Their paragraphs are rendered with the table as
     * collected so far, so a note referring to an earlier note records it.
     */
    method CollectFootnotes(e: Node)
      requires Valid()
      modifies this`output, this`footnotes, this`footnoteSeen, this`footnoteOrder
      decreases e, 2, 0
      ensures Valid() && output == old(output)
      ensures Notes(footnotes, footnoteOrder) == Footnotes.CollectFootnotes(e, Opts(), Notes(old(footnotes), old(footnoteOrder)))
    {
      var secs := SelectElements(e, "section");
      ghost var st0 := Notes(footnotes, footnoteOrder);
      for i := 0 to |secs|
        invariant Valid() && output == old(output)
        invariant Notes(footnotes, footnoteOrder) == CollectIn(e, secs, i, Opts(), st0)
      {
        CollectStep(e, secs, i, st0);
      }
    }

    /** One section of collectFootnotes' loop. */
    method CollectStep(e: Node, secs: seq<Node>, i: nat, ghost st0: Notes)
      requires Valid() && i < |secs| && secs == SelectElements(e, "section")
      requires Notes(footnotes, footnoteOrder) == CollectIn(e, secs, i, Opts(), st0)
      modifies this`output, this`footnotes, this`footnoteSeen, this`footnoteOrder
      decreases e, 0, 1
      ensures Valid() && output == old(output)
      ensures Notes(footnotes, footnoteOrder) == CollectIn(e, secs, i + 1, Opts(), st0)
    {
      assert secs[i] in e.children;
      CollectSection(secs[i]);
    }

    /** One section of a notes body (converter.go:172-208): a container without id, or a note. */
    method CollectSection(s: Node)
      requires Valid()
      modifies this`output, this`footnotes, this`footnoteSeen, this`footnoteOrder
      decreases s, 3, 0
      ensures Valid() && output == old(output)
      ensures Notes(footnotes, footnoteOrder) == Footnotes.CollectSection(s, Opts(), Notes(old(footnotes), old(footnoteOrder)))
    {
      var id := AttrValue(s, "", "id", "");
      if id == "" {
        CollectFootnotes(s);
        return;
      }
      var noteText := NoteText(s);
      if noteText != "" {
        OrderOkMoreNotes(footnoteOrder, footnotes, footnotes[id := noteText]);
        footnotes := footnotes[id := noteText];
      }
    }

    /** The text of one note (converter.go:180-204), built up child by child. */
    method NoteText(s: Node) returns (noteText: string)
      requires Valid()
      modifies this`output, this`footnotes, this`footnoteSeen, this`footnoteOrder
      decreases s, 1, 0
      ensures Valid() && output == old(output)
      ensures NoteBody(s, |s.children|, Opts(), Notes(old(footnotes), old(footnoteOrder)))
              == Draft(noteText, Notes(footnotes, footnoteOrder))
    {
      noteText := "";
      ghost var st0 := Notes(footnotes, footnoteOrder);
      for i := 0 to |s.children|
        invariant Valid() && output == old(output)
        invariant NoteBody(s, i, Opts(), st0) == Draft(noteText, Notes(footnotes, footnoteOrder))
      {
        noteText := NoteStep(s, i, noteText, st0);
      }
    }

    /** One child of a note: skipped, rendered inline, searched for notes, or flattened. */
    method NoteStep(s: Node, i: nat, acc: string, ghost st0: Notes) returns (noteText: string)
      requires Valid() && i < |s.children|
      requires NoteBody(s, i, Opts(), st0) == Draft(acc, Notes(footnotes, footnoteOrder))
      modifies this`output, this`footnotes, this`footnoteSeen, this`footnoteOrder
      decreases s, 0, 0
      ensures Valid() && output == old(output)
      ensures NoteBody(s, i + 1, Opts(), st0) == Draft(noteText, Notes(footnotes, footnoteOrder))
    {
      noteText := acc;
      var child := s.children[i];
      match child.tag
      case "title" =>
      case "p" =>
        var text := ExtractInlineText(child);
        noteText := AppendPiece(noteText, text);
      case "section" =>
        CollectFootnotes(child);
      case _ =>
        var text := ExtractAllText(child);
        noteText := AppendPiece(noteText, text);
    }

    /** The note builder's write (converter.go:189-194): a space before every piece but the first. */
    static method AppendPiece(noteText: string, text: string) returns (r: string)
      ensures r == AddPiece(noteText, text)
    {
      r := noteText;
      if text != "" {
        if |r| > 0 {
          r := r + " ";
        }
        r := r + text;
      }
    }

    /** Convert's first pass (converter.go:133-139): the notes of every notes body. */
    method CollectNotes(bodies: seq<Node>)
      requires Valid()
      modifies this`output, this`footnotes, this`footnoteSeen, this`footnoteOrder
      ensures Valid() && output == old(output)
      ensures Notes(footnotes, footnoteOrder) == CollectBodies(bodies, |bodies|, Opts(), Notes(old(footnotes), old(footnoteOrder)))
    {
      ghost var st0 := Notes(footnotes, footnoteOrder);
      for i := 0 to |bodies|
        invariant Valid() && output == old(output)
        invariant Notes(footnotes, footnoteOrder) == CollectBodies(bodies, i, Opts(), st0)
      {
        var name := AttrValue(bodies[i], "", "name", "");
        if name == "notes" || name == "footnotes" || name == "comments" {
          CollectFootnotes(bodies[i]);
        }
      }
    }

    /** writeFootnotes (converter.go:212-222). */
    method WriteFootnotes()
      modifies this`output
      ensures output == old(output) + Appendix(footnoteOrder, footnotes)
    {
      if |footnoteOrder| == 0 {
        return;
      }
      output := output + "\n---\n\n";
      ghost var head := output;
      for i := 0 to |footnoteOrder|
        invariant output == head + Definitions(footnoteOrder[..i], footnotes)
      {
        ghost var done := Definitions(footnoteOrder[..i], footnotes);
        var id := footnoteOrder[i];
        if id in footnotes {
          output := output + ("[^" + id + "]: " + footnotes[id] + "\n\n");
        }
        assert output == head + done + Definition(id, footnotes);
        DefinitionsSnoc(footnoteOrder, i, footnotes);
        AppendAssoc(head, done, Definition(id, footnotes));
      }
      assert footnoteOrder[..|footnoteOrder|] == footnoteOrder;
    }

    // -------------------------------------------------------------------
    // Image names, description and Convert
    // -------------------------------------------------------------------

    /**
     * collectBinaryImageFilenames (converter.go:889-928): the loop runs over a
     * copy of the table that replaces imageFiles once every binary is named.
     */
    method CollectBinaryImageFilenames(root: Node)
      modifies this`imageFiles
      ensures imageFiles == ImageNames(root, old(imageFiles))
    {
      var bins := SelectElements(root, "binary");
      RequestsAre(bins);
      imageFiles := NameBinaries(bins, Requests(bins), imageFiles);
    }

    /** processDescription (converter.go:224-300): nothing without a title-info. */
    method ProcessDescription(desc: Node)
      requires Valid()
      modifies this`output, this`footnoteSeen, this`footnoteOrder, this`sectionLevel
      ensures Valid() && sectionLevel == old(sectionLevel)
      ensures var o := DescriptionMd(desc, sectionLevel, Ctx(), old(footnoteOrder));
              output == old(output) + o.text && footnoteOrder == o.order
    {
      match SelectElement(desc, "title-info")
      case None =>
      case Some(ti) => ProcessTitleInfo(ti);
    }

    /** The header of a present title-info (converter.go:230-299). */
    method ProcessTitleInfo(ti: Node)
      requires Valid()
      modifies this`output, this`footnoteSeen, this`footnoteOrder, this`sectionLevel
      ensures Valid() && sectionLevel == old(sectionLevel)
      ensures var o := TitleInfoMd(ti, sectionLevel, Ctx(), old(footnoteOrder));
              output == old(output) + o.text && footnoteOrder == o.order
    {
      WriteHeadLines(ti);
      ghost var mid := output;
      ghost var ann := AnnotationPart(ti, sectionLevel, Ctx(), footnoteOrder);
      ProcessTitleAnnotation(ti);
      assert output == mid + ann.text;
      WriteDate(ti);
      output := output + "---\n\n";
      AppendAssoc3(old(output), HeadLines(ti), ann.text, DateLine(ti));
      AppendAssoc(old(output), HeadLines(ti) + ann.text + DateLine(ti), "---\n\n");
    }

    /** The title, authors, genres and series lines of processDescription (converter.go:230-280). */
    method WriteHeadLines(ti: Node)
      modifies this`output
      ensures output == old(output) + HeadLines(ti)
    {
      WriteBookTitle(ti);
      ghost var o1 := output;
      var authors := SelectElements(ti, "author");
      WriteAuthors(authors);
      ghost var o2 := output;
      var genres := SelectElements(ti, "genre");
      WriteGenres(genres);
      ghost var o3 := output;
      var seqs := SelectElements(ti, "sequence");
      WriteSeries(seqs);
      AppendAssoc4(old(output), BookTitleLine(ti), AuthorsLine(authors), GenresLine(genres), SeriesLines(seqs, |seqs|));
    }

    /** The book title line (converter.go:230-235). */
    method WriteBookTitle(ti: Node)
      modifies this`output
      ensures output == old(output) + BookTitleLine(ti)
    {
      match SelectElement(ti, "book-title")
      case Some(t) =>
        output := output + "# ";
        output := output + t.text;
        output := output + "\n\n";
        AppendAssoc3(old(output), "# ", t.text, "\n\n");
      case None =>
    }

    /** The authors line (converter.go:238-251): written for any author, listing the non-empty names. */
    method WriteAuthors(authors: seq<Node>)
      modifies this`output
      ensures output == old(output) + AuthorsLine(authors)
    {
      if |authors| > 0 {
        output := output + "**Authors:** ";
        var authorNames := CollectAuthorNames(authors);
        output := output + Join(authorNames, ", ");
        output := output + "\n\n";
        AppendAssoc3(old(output), "**Authors:** ", Join(authorNames, ", "), "\n\n");
      }
    }

    /** The loop of processDescription over the authors (converter.go:242-247). */
    static method CollectAuthorNames(authors: seq<Node>) returns (authorNames: seq<string>)
      ensures authorNames == AuthorNames(authors, |authors|)
    {
      authorNames := [];
      for i := 0 to |authors|
        invariant authorNames == AuthorNames(authors, i)
      {
        var name := AuthorName(authors[i]);
        if name != "" {
          authorNames := authorNames + [name];
        }
      }
    }

    /** The genres line (converter.go:254-264): written for any genre, listing the non-empty texts. */
    method WriteGenres(genres: seq<Node>)
      modifies this`output
      ensures output == old(output) + GenresLine(genres)
    {
      if |genres| > 0 {
        output := output + "**Genres:** ";
        var genreNames := CollectGenreNames(genres);
        output := output + Join(genreNames, ", ");
        output := output + "\n\n";
        AppendAssoc3(old(output), "**Genres:** ", Join(genreNames, ", "), "\n\n");
      }
    }

    /** The loop of processDescription over the genres (converter.go:257-261). */
    static method CollectGenreNames(genres: seq<Node>) returns (genreNames: seq<string>)
      ensures genreNames == GenreNames(genres, |genres|)
    {
      genreNames := [];
      for i := 0 to |genres|
        invariant genreNames == GenreNames(genres, i)
      {
        var text := genres[i].text;
        if text != "" {
          genreNames := genreNames + [text];
        }
      }
    }

    /** The series lines (converter.go:267-280): one per sequence with a name. */
    method WriteSeries(seqs: seq<Node>)
      modifies this`output
      ensures output == old(output) + SeriesLines(seqs, |seqs|)
    {
      for i := 0 to |seqs|
        invariant output == old(output) + SeriesLines(seqs, i)
      {
        WriteSeriesLine(seqs[i]);
        AppendAssoc(old(output), SeriesLines(seqs, i), SeriesLine(seqs[i]));
      }
    }

    /** One sequence of that loop. */
    method WriteSeriesLine(sq: Node)
      modifies this`output
      ensures output == old(output) + SeriesLine(sq)
    {
      var name := AttrValue(sq, "", "name", "");
      var number := AttrValue(sq, "", "number", "");
      if name != "" {
        var line := "**Series:** " + name;
        if number != "" {
          line := line + ", #" + number;
        }
        output := output + (line + "\n\n");
      }
    }

    /** The annotation of processDescription (converter.go:283-287). */
    method ProcessTitleAnnotation(ti: Node)
      requires Valid()
      modifies this`output, this`footnoteSeen, this`footnoteOrder, this`sectionLevel
      ensures Valid() && sectionLevel == old(sectionLevel)
      ensures var o := AnnotationPart(ti, sectionLevel, Ctx(), old(footnoteOrder));
              output == old(output) + o.text && footnoteOrder == o.order
    {
      match SelectElement(ti, "annotation")
      case None =>
      case Some(a) =>
        output := output + "## Annotation\n\n";
        ghost var body := BlockContentMd(a, sectionLevel, Ctx(), footnoteOrder);
        ProcessBlockContent(a);
        output := output + "\n";
        AppendAssoc3(old(output), "## Annotation\n\n", body.text, "\n");
    }

    /** The date line of processDescription (converter.go:290-296): only for a non-empty date. */
    method WriteDate(ti: Node)
      modifies this`output
      ensures output == old(output) + DateLine(ti)
    {
      match SelectElement(ti, "date")
      case None =>
      case Some(d) =>
        if d.text != "" {
          output := output + "**Date:** ";
          output := output + d.text;
          output := output + "\n\n";
          AppendAssoc3(old(output), "**Date:** ", d.text, "\n\n");
        }
    }

    /** Convert's second pass (converter.go:146-153): every body but the notes bodies. */
    method ProcessMainBodies(bodies: seq<Node>)
      requires Valid()
      modifies this`output, this`footnoteSeen, this`footnoteOrder, this`sectionLevel
      ensures Valid() && sectionLevel == old(sectionLevel)
      ensures var o := MainBodies(bodies, sectionLevel, |bodies|, Ctx(), old(footnoteOrder));
              output == old(output) + o.text && footnoteOrder == o.order
    {
      ghost var ord0 := footnoteOrder;
      for i := 0 to |bodies|
        invariant Valid() && sectionLevel == old(sectionLevel)
        invariant var o := MainBodies(bodies, sectionLevel, i, Ctx(), ord0);
                  output == old(output) + o.text && footnoteOrder == o.order
      {
        var name := AttrValue(bodies[i], "", "name", "");
        if name == "notes" || name == "footnotes" || name == "comments" {
          continue;
        }
        ghost var a := MainBodies(bodies, sectionLevel, i, Ctx(), ord0);
        ProcessBody(bodies[i]);
        ghost var o := BodyMd(bodies[i], sectionLevel, Ctx(), a.order);
        AppendAssoc(old(output), a.text, o.text);
      }
    }

    // -------------------------------------------------------------------
    // Convert
    // -------------------------------------------------------------------

    /**
     * Convert (converter.go:90-167) once the input has been read, decoded and
     * parsed into doc: the options are set, a document without a FictionBook
     * root is refused, and otherwise the passes run over the root.
     */
    method Convert(doc: Node, extract: bool, dir: string) returns (err: Option<string>)
      requires Valid()
      modifies this
      ensures Valid()
      ensures var s := old(Snapshot()).(extract := extract, dir := dir);
              match SelectElement(doc, "FictionBook")
              case None => err == Some(NotFound) && Snapshot() == s
              case Some(root) => err == None && Snapshot() == Passes(root, s)
    {
      extractImages := extract;
      imagesDir := dir;
      var root := SelectElement(doc, "FictionBook");
      if root.None? {
        return Some(NotFound);
      }
      RunPasses(root.value);
      err := None;
    }

    /**
     * The passes over the root (converter.go:127-154): image names first, so
     * that links match the files, then the notes, then the rendering.
     */
    method RunPasses(root: Node)
      requires Valid()
      modifies this`output, this`footnotes, this`footnoteSeen, this`footnoteOrder, this`imageFiles, this`sectionLevel
      ensures Valid()
      ensures Snapshot() == Passes(root, old(Snapshot()))
    {
      CollectPasses(root);
      var bodies := SelectElements(root, "body");
      RenderBook(root, bodies);
    }

    /** Image names first, so that links match the files, then the notes (converter.go:127-139). */
    method CollectPasses(root: Node)
      requires Valid()
      modifies this`output, this`footnotes, this`footnoteSeen, this`footnoteOrder, this`imageFiles
      ensures Valid()
      ensures Snapshot() == Collected(root, old(Snapshot()))
    {
      ghost var s := Snapshot();
      if extractImages {
        CollectBinaryImageFilenames(root);
      }
      ghost var env := Opts();
      assert env == Env(map[], if s.extract then ImageNames(root, s.files) else s.files, s.extract, s.dir);
      var bodies := SelectElements(root, "body");
      CollectNotes(bodies);
      ghost var st := CollectBodies(bodies, |bodies|, env, Notes(s.notes, s.order));
      assert Notes(footnotes, footnoteOrder) == st;
      assert Collected(root, s) == s.(files := env.images, notes := st.table, order := st.order);
    }

    /** The description, the main bodies and the footnote appendix (converter.go:141-157). */
    method RenderBook(root: Node, bodies: seq<Node>)
      requires Valid()
      modifies this`output, this`footnoteSeen, this`footnoteOrder, this`sectionLevel
      ensures Valid() && sectionLevel == old(sectionLevel)
      ensures var r := Rendered(root, bodies, sectionLevel, Ctx(), old(footnoteOrder));
              output == old(output) + r.text && footnoteOrder == r.order
    {
      ghost var d := DescriptionPart(root, sectionLevel, Ctx(), footnoteOrder);
      WriteDescriptionPart(root);
      ghost var m := MainBodies(bodies, sectionLevel, |bodies|, Ctx(), footnoteOrder);
      ProcessMainBodies(bodies);
      WriteFootnotes();
      AppendAssoc3(old(output), d.text, m.text, Appendix(footnoteOrder, footnotes));
    }

    /** The description when the root has one (converter.go:141-144). */
    method WriteDescriptionPart(root: Node)
      requires Valid()
      modifies this`output, this`footnoteSeen, this`footnoteOrder, this`sectionLevel
      ensures Valid() && sectionLevel == old(sectionLevel)
      ensures var d := DescriptionPart(root, sectionLevel, Ctx(), old(footnoteOrder));
              output == old(output) + d.text && footnoteOrder == d.order
    {
      match SelectElement(root, "description")
      case None =>
      case Some(desc) => ProcessDescription(desc);
    }
  }
}
