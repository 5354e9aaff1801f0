/**
 * The Markdown each process* method of the converter appends to the active
 * sink, as functions of the element, the rendering environment and the
 * footnote order on entry. Every function returns the appended text and the
 * footnote order after the call; note references are the only state the
 * rendering walk changes besides the sink.
 */
module Markdown {
  import opened Text
  import opened Tree
  import opened Assets

  /**
   * What rendering reads but never changes: the footnote table, the names given
   * to binaries, whether images are extracted and the directory they go to.
   */
  datatype Env = Env(notes: map<string, string>, images: map<string, string>, extract: bool, dir: string)

  /** The text appended to the sink, and the footnote order afterwards. */
  datatype Out = Out(text: string, order: seq<string>)

  function Wrap(pre: string, o: Out, post: string): Out {
    Out(pre + o.text + post, o.order)
  }

  // ---------------------------------------------------------------------
  // Footnote order
  // ---------------------------------------------------------------------

  predicate NoDup(s: seq<string>) {
    forall i, j :: 0 <= i < j < |s| ==> s[i] != s[j]
  }

  /**
   * The footnoteOrder invariant: no id twice, and every id names a collected
   * note; stated one id at a time, from the most recent reference back.
   */
  predicate OrderOk(order: seq<string>, notes: map<string, string>)
    decreases |order|
  {
    order == []
    || (var pre := order[..|order| - 1];
        OrderOk(pre, notes) && order[|order| - 1] in notes && order[|order| - 1] !in pre)
  }

  /** OrderOk means: no duplicates, and only ids of collected notes. */
  lemma {:induction false} OrderOkMeans(order: seq<string>, notes: map<string, string>)
    ensures OrderOk(order, notes) <==> NoDup(order) && forall i :: 0 <= i < |order| ==> order[i] in notes
  {
    if order != [] {
      var pre := order[..|order| - 1];
      OrderOkMeans(pre, notes);
      assert forall i :: 0 <= i < |pre| ==> pre[i] == order[i];
    }
  }

  /** The order only grows at its end, and a well-formed order stays well-formed. */
  predicate Grows(order: seq<string>, order': seq<string>, notes: map<string, string>) {
    order <= order' && (OrderOk(order, notes) ==> OrderOk(order', notes))
  }

  lemma GrowsTrans(o1: seq<string>, o2: seq<string>, o3: seq<string>, notes: map<string, string>)
    requires Grows(o1, o2, notes) && Grows(o2, o3, notes)
    ensures Grows(o1, o3, notes)
  {
  }

  /** The footnoteSeen check: an id is appended on its first reference only. */
  function Record(order: seq<string>, id: string): (r: seq<string>)
    ensures id in r
    ensures id in order ==> r == order
    ensures id !in order ==> r == order + [id]
  {
    if id in order then order else order + [id]
  }

  lemma RecordKeepsOrderOk(order: seq<string>, id: string, notes: map<string, string>)
    requires id in notes
    ensures Grows(order, Record(order, id), notes)
  {
  }

  // ---------------------------------------------------------------------
  // Links and images (processLink, processImage)
  // ---------------------------------------------------------------------

  /** The note id a link refers to, when it is a note-type '#' link to a collected note. */
  function NoteRef(a: Node, notes: map<string, string>): (r: Option<string>)
    ensures r.Some? ==> r.value in notes && HasPrefix(Href(a), "#") && Href(a)[1..] == r.value
    ensures r.None? ==> AttrValue(a, "", "type", "") != "note" || !HasPrefix(Href(a), "#") || Href(a)[1..] !in notes
  {
    var href := Href(a);
    if AttrValue(a, "", "type", "") == "note" && HasPrefix(href, "#") && href[1..] in notes then Some(href[1..])
    else None
  }

  /** The flattened text of a link, or "Link" when it has none. */
  function LinkLabel(a: Node): (r: string)
    ensures r != ""
    ensures r == "Link" <==> AllText(a) == "" || AllText(a) == "Link"
  {
    var t := AllText(a);
    if t == "" then "Link" else t
  }

  /** processLink (converter.go:765-799). */
  function LinkMd(a: Node, env: Env, order: seq<string>): (r: Out)
    ensures NoteRef(a, env.notes).Some? ==>
              && r.text == "[^" + NoteRef(a, env.notes).value + "]"
              && r.order == Record(order, NoteRef(a, env.notes).value)
    ensures NoteRef(a, env.notes).None? ==>
              r.text == "[" + LinkLabel(a) + "](" + Href(a) + ")" && r.order == order
  {
    match NoteRef(a, env.notes)
    case Some(id) =>
      Out("[^" + id + "]", Record(order, id))
    case None =>
      Out("[" + LinkLabel(a) + "](" + Href(a) + ")", order)
  }

  /** filepath.Join of the images directory and a file name, with '/' separators. */
  function JoinPath(dir: string, name: string): (r: string)
    ensures HasSuffix(r, name)
  {
    if dir == "" then name else dir + "/" + name
  }

  /** The file an extracted image is linked to: its assigned name, else its sanitized id, else the id. */
  function ImageFile(id: string, env: Env): (r: string)
    ensures id in env.images && env.images[id] != "" ==> r == env.images[id]
    ensures !(id in env.images && env.images[id] != "") ==> r == (if Sanitized(id) != "" then Sanitized(id) else id)
  {
    if id in env.images && env.images[id] != "" then env.images[id]
    else if Sanitized(id) != "" then Sanitized(id)
    else id
  }

  /** The image reference processImage writes, before the blank line that follows it. */
  function ImageRef(href: string, env: Env): (r: string)
    ensures HasPrefix(r, "![")
    ensures HasPrefix(href, "#") && env.extract ==>
              r == "![" + href[1..] + "](" + JoinPath(env.dir, ImageFile(href[1..], env)) + ")"
    ensures HasPrefix(href, "#") && env.extract ==> HasSuffix(r, ImageFile(href[1..], env) + ")")
    ensures HasPrefix(href, "#") && !env.extract ==> r == "![Image: " + href[1..] + "]"
    ensures !HasPrefix(href, "#") ==> r == "![Image](" + href + ")"
  {
    if HasPrefix(href, "#") then
      var id := href[1..];
      if env.extract then
        var name := ImageFile(id, env);
        var path := JoinPath(env.dir, name);
        SuffixExtend("![" + id + "](", path, ")", name);
        assert ("![" + id + "](" + path + ")")[..2] == "![";
        "![" + id + "](" + path + ")"
      else
        assert ("![Image: " + id + "]")[..2] == "![";
        "![Image: " + id + "]"
    else
      assert ("![Image](" + href + ")")[..2] == "![";
      "![Image](" + href + ")"
  }

  /** processImage (converter.go:819-846), the text it writes: an image reference on a block of its own. */
  function ImageMd(img: Node, env: Env): (r: string)
    ensures HasPrefix(r, "![") && HasSuffix(r, "\n\n")
    ensures r[..|r| - 2] == ImageRef(Href(img), env)
  {
    var ref := ImageRef(Href(img), env);
    assert (ref + "\n\n")[..2] == ref[..2];
    ref + "\n\n"
  }

  // ---------------------------------------------------------------------
  // The rendering walk. Each loop of a process* method over children or
  // selected elements is a fold of its own: the output of the elements before
  // the n-th, with the footnote order threaded through.
  // ---------------------------------------------------------------------

  /** The bodies that hold notes rather than text. */
  predicate IsNotesBody(b: Node) {
    var name := AttrValue(b, "", "name", "");
    name == "notes" || name == "footnotes" || name == "comments"
  }

  // --- processInlineElement -------------------------------------------

  /** processInlineElement (converter.go:705-752): own text, then each child and its tail. */
  function InlineMd(e: Node, env: Env, order: seq<string>): (r: Out)
    decreases e, 1, 0
  {
    var c := InlineChildren(e, |e.children|, env, order);
    Out(e.text + c.text, c.order)
  }

  /** processInlineElement's loop over e.children[..n]. */
  function InlineChildren(e: Node, n: nat, env: Env, order: seq<string>): (r: Out)
    requires n <= |e.children|
    decreases e, 0, n
  {
    if n == 0 then Out("", order)
    else
      var a := InlineChildren(e, n - 1, env, order);
      var b := InlineChildMd(e.children[n - 1], env, a.order);
      Out(a.text + b.text, b.order)
  }

  /** The markers processInlineElement writes around an inline child's own content. */
  function Marker(tag: string): (r: string)
    ensures r == "" <==> !(tag == "emphasis" || tag == "strong" || tag == "strikethrough" || tag == "code")
  {
    match tag
    case "emphasis" => "*"
    case "strong" => "**"
    case "strikethrough" => "~~"
    case "code" => "`"
    case _ => ""
  }

  /** One child of an inline element, by its tag, then its tail. */
  function InlineChildMd(x: Node, env: Env, order: seq<string>): (r: Out)
    decreases x, 3, 0
  {
    var body := InlineChildBody(x, env, order);
    Out(body.text + x.tail, body.order)
  }

  /** What processInlineElement writes for one child by its tag: a link, an image, a line break, or the marked-up content. */
  function InlineChildBody(x: Node, env: Env, order: seq<string>): (r: Out)
    decreases x, 2, 0
  {
    match x.tag
    case "a" => LinkMd(x, env, order)
    case "image" => Out(ImageMd(x, env), order)
    case "empty-line" => Out("\n", order)
    case _ => Wrap(Marker(x.tag), InlineMd(x, env, order), Marker(x.tag))
  }

  /** A link appends at most its note id, and only on its first reference. */
  lemma LinkMdGrows(a: Node, env: Env, order: seq<string>)
    ensures Grows(order, LinkMd(a, env, order).order, env.notes)
  {
    match NoteRef(a, env.notes)
    case Some(id) => RecordKeepsOrderOk(order, id, env.notes);
    case None =>
  }

  /**
   * Inline rendering only appends to the footnote order, and only ids of
   * collected notes that are not in it yet: a well-formed order stays well-formed.
   */
  lemma {:induction false} InlineMdGrows(e: Node, env: Env, order: seq<string>)
    decreases e, 1, 0
    ensures Grows(order, InlineMd(e, env, order).order, env.notes)
  {
    InlineChildrenGrows(e, |e.children|, env, order);
  }

  lemma {:induction false} InlineChildrenGrows(e: Node, n: nat, env: Env, order: seq<string>)
    requires n <= |e.children|
    decreases e, 0, n
    ensures Grows(order, InlineChildren(e, n, env, order).order, env.notes)
  {
    if n > 0 {
      var a := InlineChildren(e, n - 1, env, order);
      var b := InlineChildMd(e.children[n - 1], env, a.order);
      InlineChildrenGrows(e, n - 1, env, order);
      InlineChildMdGrows(e.children[n - 1], env, a.order);
      GrowsTrans(order, a.order, b.order, env.notes);
    }
  }

  lemma {:induction false} InlineChildMdGrows(x: Node, env: Env, order: seq<string>)
    decreases x, 3, 0
    ensures Grows(order, InlineChildMd(x, env, order).order, env.notes)
  {
    InlineChildBodyGrows(x, env, order);
  }

  lemma {:induction false} InlineChildBodyGrows(x: Node, env: Env, order: seq<string>)
    decreases x, 2, 0
    ensures Grows(order, InlineChildBody(x, env, order).order, env.notes)
  {
    match x.tag
    case "a" => LinkMdGrows(x, env, order);
    case "image" =>
    case "empty-line" =>
    case _ => InlineMdGrows(x, env, order);
  }

  /** processParagraph (converter.go:672-675). */
  function ParagraphMd(e: Node, env: Env, order: seq<string>): (r: Out)
  {
    Wrap("", InlineMd(e, env, order), "\n\n")
  }

  /** processSubtitle (converter.go:666-670). */
  function SubtitleMd(e: Node, env: Env, order: seq<string>): (r: Out)
  {
    Wrap("**", InlineMd(e, env, order), "**\n\n")
  }

  /** A non-empty flattened title wrapped in the given markers, or nothing. */
  function TitleLine(e: Node, pre: string, post: string): string {
    match SelectElement(e, "title")
    case Some(t) => if AllText(t) != "" then pre + AllText(t) + post else ""
    case None => ""
  }

  // --- The loops of the block-level process* methods -----------------

  /**
   * The loops the block-level process* methods run over the children or the
   * selected elements of an element. One fold, Fold, gives the output of any
   * of them; Item gives what one pass writes.
   */
  datatype Loop =
    | CellsOf                  // renderTableRow over the row's children
    | RowsFrom(lo: nat)        // processTable over rows[lo:]
    | QuotedPoemParts          // processQuotedPoem over the poem's children
    | QuotedVersesOf           // processQuotedPoem over a stanza's verses
    | QuotedAuthorsOf          // processQuotedPoem over its text-authors
    | EpigraphParts            // processEpigraph over the epigraph's children
    | NestedCiteParts          // processEpigraph over the children of a nested cite
    | EpigraphsOf              // processSection and processPoem over their epigraphs
    | PoemParts                // processPoem over the poem's children
    | PoemAuthorsOf            // processPoem over its text-authors
    | VersesOf                 // processStanza over its verses
    | CiteParts                // processCite over the cite's children
    | SectionParts(level: nat) // processSection over the section's children
    | BlockParts(level: nat)   // processBlockContent over the element's children
    | BodyParts(level: nat)    // processBody over the body's children

  /** The elements loop c visits, in order; all of them are children of e. */
  function Items(c: Loop, e: Node): (r: seq<Node>)
    ensures forall x :: x in r ==> x in e.children
  {
    match c
    case RowsFrom(lo) =>
      var rows := SelectElements(e, "tr");
      if lo <= |rows| then
        assert forall x :: x in rows[lo..] ==> x in rows;
        rows[lo..]
      else []
    case QuotedVersesOf | VersesOf => SelectElements(e, "v")
    case QuotedAuthorsOf | PoemAuthorsOf => SelectElements(e, "text-author")
    case EpigraphsOf => SelectElements(e, "epigraph")
    case _ => e.children
  }

  /** The output of loop c over the first n of Items(c, e), with the footnote order threaded through. */
  function Fold(c: Loop, e: Node, n: nat, env: Env, order: seq<string>): (r: Out)
    requires n <= |Items(c, e)|
    decreases e, 1, n
  {
    if n == 0 then Out("", order)
    else
      var a := Fold(c, e, n - 1, env, order);
      var b := Item(c, e, n - 1, env, a.order);
      Out(a.text + b.text, b.order)
  }

  /** What one pass of loop c writes for Items(c, e)[i]. */
  function Item(c: Loop, e: Node, i: nat, env: Env, order: seq<string>): (r: Out)
    requires i < |Items(c, e)|
    decreases e, 0, 0
  {
    var x := Items(c, e)[i];
    assert x in e.children;
    match c
    case CellsOf => CellMd(x, env, order)
    case RowsFrom(_) => RowMd(x, env, order)
    case QuotedPoemParts => QuotedPoemChildMd(x, env, order)
    case QuotedVersesOf => Wrap("> ", InlineMd(x, env, order), "\n")
    case QuotedAuthorsOf => Wrap("> *\U{2014} ", InlineMd(x, env, order), "*\n")
    case EpigraphParts => EpigraphChildMd(x, env, order)
    case NestedCiteParts => QuoteLineMd(x, env, order)
    case EpigraphsOf => EpigraphMd(x, env, order)
    case PoemParts => PoemChildMd(x, env, order)
    case PoemAuthorsOf => Wrap("*\U{2014} ", InlineMd(x, env, order), "*\n\n")
    case VersesOf =>
      var v := InlineMd(x, env, order);
      Out(v.text + (if i + 1 < |Items(c, e)| then "  \n" else "\n"), v.order)
    case CiteParts => CiteChildMd(x, env, order)
    case SectionParts(level) => SectionChildMd(x, level, env, order)
    case BlockParts(level) => BlockChildMd(x, level, env, order)
    case BodyParts(level) => BodyChildMd(x, level, env, order)
  }

  // --- processTable and renderTableRow -------------------------------

  /** The column count taken from the first row: its th cells, else its td cells, else all its children. */
  function ColumnCount(row: Node): (k: nat)
    ensures k <= |row.children|
    ensures |SelectElements(row, "th")| > 0 ==> k == |SelectElements(row, "th")|
    ensures |SelectElements(row, "th")| == 0 && |SelectElements(row, "td")| > 0 ==> k == |SelectElements(row, "td")|
    ensures |SelectElements(row, "th")| == 0 && |SelectElements(row, "td")| == 0 ==> k == |row.children|
  {
    var th := |SelectElements(row, "th")|;
    var td := |SelectElements(row, "td")|;
    if th > 0 then th else if td > 0 then td else |row.children|
  }

  /** The delimiter row: k cells of " --- |". */
  function SeparatorRow(k: nat): string {
    "|" + Repeat(" --- |", k) + "\n"
  }

  /** The synthesized header of a table without th cells: k empty cells. */
  function BlankHeaderRow(k: nat): string {
    "|" + Repeat("  |", k) + "\n"
  }

  /** processTable (converter.go:586-652). */
  function TableMd(e: Node, env: Env, order: seq<string>): (r: Out)
    decreases e, 2, 0
  {
    var rows := SelectElements(e, "tr");
    if |rows| == 0 || ColumnCount(rows[0]) == 0 then Out("", order)
    else
      var k := ColumnCount(rows[0]);
      if |SelectElements(rows[0], "th")| > 0 then
        var head := RowMd(rows[0], env, order);
        var data := Fold(RowsFrom(1), e, |rows| - 1, env, head.order);
        Out(head.text + SeparatorRow(k) + data.text + "\n", data.order)
      else
        var data := Fold(RowsFrom(0), e, |rows|, env, order);
        Out(BlankHeaderRow(k) + SeparatorRow(k) + data.text + "\n", data.order)
  }

  /** renderTableRow (converter.go:654-664): "| " then "text | " per th or td cell. */
  function RowMd(row: Node, env: Env, order: seq<string>): (r: Out)
    decreases row, 2, 0
  {
    Wrap("| ", Fold(CellsOf, row, |row.children|, env, order), "\n")
  }

  /** A th or td cell: its inline text, captured by extractInlineText, then " | "; any other child: nothing. */
  function CellMd(x: Node, env: Env, order: seq<string>): (r: Out)
  {
    if x.tag == "th" || x.tag == "td" then Wrap("", InlineMd(x, env, order), " | ")
    else Out("", order)
  }

  // --- processQuotedPoem ----------------------------------------------

  /** processQuotedPoem (converter.go:491-524). */
  function QuotedPoemMd(e: Node, env: Env, order: seq<string>): (r: Out)
    decreases e, 2, 0
  {
    var body := Fold(QuotedPoemParts, e, |e.children|, env, order);
    var authors := Fold(QuotedAuthorsOf, e, |SelectElements(e, "text-author")|, env, body.order);
    Out(TitleLine(e, "> **", "**\n>\n") + body.text + authors.text, authors.order)
  }

  function QuotedPoemChildMd(x: Node, env: Env, order: seq<string>): (r: Out)
    decreases x, 5, 0
  {
    match x.tag
    case "stanza" => Wrap("", Fold(QuotedVersesOf, x, |SelectElements(x, "v")|, env, order), ">\n")
    case "subtitle" => Wrap("> **", InlineMd(x, env, order), "**\n")
    case _ => Out("", order)
  }

  // --- processEpigraph --------------------------------------------------

  /** processEpigraph (converter.go:407-441). */
  function EpigraphMd(e: Node, env: Env, order: seq<string>): (r: Out)
    decreases e, 2, 0
  {
    Wrap("", Fold(EpigraphParts, e, |e.children|, env, order), "\n")
  }

  function EpigraphChildMd(x: Node, env: Env, order: seq<string>): (r: Out)
    decreases x, 5, 0
  {
    match x.tag
    case "poem" => QuotedPoemMd(x, env, order)
    case "cite" => Fold(NestedCiteParts, x, |x.children|, env, order)
    case _ => QuoteLineMd(x, env, order)
  }

  /** The p, text-author and empty-line arms shared by an epigraph and a cite nested in it. */
  function QuoteLineMd(x: Node, env: Env, order: seq<string>): (r: Out)
  {
    match x.tag
    case "p" => Wrap("> ", InlineMd(x, env, order), "\n")
    case "text-author" => Wrap(">\n> \U{2014} ", InlineMd(x, env, order), "\n")
    case "empty-line" => Out(">\n", order)
    case _ => Out("", order)
  }

  // --- processPoem and processStanza ----------------------------------

  /** processPoem (converter.go:444-488): the title and the epigraphs, then the rest of the poem. */
  function PoemMd(e: Node, env: Env, order: seq<string>): (r: Out)
    decreases e, 3, 0
  {
    var eps := Fold(EpigraphsOf, e, |SelectElements(e, "epigraph")|, env, order);
    var rest := PoemBody(e, env, eps.order);
    Out(TitleLine(e, "**", "**\n\n") + eps.text + rest.text, rest.order)
  }

  /** The part of processPoem after its epigraphs (converter.go:459-487): stanzas and subtitles, text-authors, the date. */
  function PoemBody(e: Node, env: Env, order: seq<string>): (r: Out)
    decreases e, 2, 0
  {
    var body := Fold(PoemParts, e, |e.children|, env, order);
    var authors := Fold(PoemAuthorsOf, e, |SelectElements(e, "text-author")|, env, body.order);
    Out(body.text + authors.text + PoemDate(e), authors.order)
  }

  /** The date line closing a poem, when it has a non-empty date. */
  function PoemDate(e: Node): string {
    match SelectElement(e, "date")
    case Some(d) => if d.text != "" then "*" + d.text + "*\n\n" else ""
    case None => ""
  }

  function PoemChildMd(x: Node, env: Env, order: seq<string>): (r: Out)
    decreases x, 5, 0
  {
    match x.tag
    case "stanza" => Wrap("", StanzaMd(x, env, order), "\n")
    case "subtitle" => SubtitleMd(x, env, order)
    case _ => Out("", order)
  }

  /** processStanza (converter.go:527-555). */
  function StanzaMd(e: Node, env: Env, order: seq<string>): (r: Out)
    decreases e, 2, 0
  {
    var sub :=
      match SelectElement(e, "subtitle")
      case Some(s) => Wrap("**", InlineMd(s, env, order), "**\n")
      case None => Out("", order);
    var verses := Fold(VersesOf, e, |SelectElements(e, "v")|, env, sub.order);
    Out(TitleLine(e, "**", "**\n") + sub.text + verses.text, verses.order)
  }

  // --- processCite ------------------------------------------------------

  /** processCite (converter.go:558-583). */
  function CiteMd(e: Node, env: Env, order: seq<string>): (r: Out)
    decreases e, 2, 0
  {
    Wrap("", Fold(CiteParts, e, |e.children|, env, order), "\n")
  }

  function CiteChildMd(x: Node, env: Env, order: seq<string>): (r: Out)
    decreases x, 5, 0
  {
    match x.tag
    case "p" => Wrap("> ", InlineMd(x, env, order), "\n>\n")
    case "poem" => QuotedPoemMd(x, env, order)
    case "subtitle" => Wrap("> **", InlineMd(x, env, order), "**\n>\n")
    case "empty-line" => Out(">\n", order)
    case "table" => TableMd(x, env, order)
    case "text-author" => Wrap(">\n> \U{2014} ", InlineMd(x, env, order), "\n")
    case _ => Out("", order)
  }

  // --- processSection, processBlockContent and processBody ------------

  /** The heading level of a section processed at depth d (sectionLevel after the increment): d + 1, at most 6. */
  function HeadingLevel(d: nat): (h: nat)
    ensures h <= 6
    ensures d >= 1 ==> 2 <= h
    ensures h == if d + 1 <= 6 then d + 1 else 6
  {
    var h := d + 1;
    if h > 6 then 6 else h
  }

  function SectionHeading(e: Node, d: nat): string {
    match SelectElement(e, "title")
    case Some(t) => Repeat("#", HeadingLevel(d)) + " " + AllText(t) + "\n\n"
    case None => ""
  }

  /** The first annotation of a section, rendered as block content at depth d. */
  function AnnotationMd(e: Node, d: nat, env: Env, order: seq<string>): (r: Out)
    decreases e, 2, 0
  {
    match SelectElement(e, "annotation")
    case Some(a) => BlockContentMd(a, d, env, order)
    case None => Out("", order)
  }

  /**
   * The part of processSection (converter.go:358-377) before its child loop,
   * at depth d: the heading, the epigraphs and the first annotation.
   */
  function SectionHead(e: Node, d: nat, env: Env, order: seq<string>): (r: Out)
    decreases e, 3, 0
  {
    var eps := Fold(EpigraphsOf, e, |SelectElements(e, "epigraph")|, env, order);
    var ann := AnnotationMd(e, d, env, eps.order);
    Out(SectionHeading(e, d) + eps.text + ann.text, ann.order)
  }

  /**
   * processSection (converter.go:353-405) at depth d, the sectionLevel after
   * its increment: its head, then the remaining children.
   */
  function SectionMd(e: Node, d: nat, env: Env, order: seq<string>): (r: Out)
    decreases e, 4, 0
  {
    var head := SectionHead(e, d, env, order);
    var rest := Fold(SectionParts(d), e, |e.children|, env, head.order);
    Out(head.text + rest.text, rest.order)
  }

  function SectionChildMd(x: Node, level: nat, env: Env, order: seq<string>): (r: Out)
    decreases x, 5, 0
  {
    match x.tag
    case "title" | "epigraph" | "annotation" => Out("", order)
    case "section" => SectionMd(x, level + 1, env, order)
    case "p" => ParagraphMd(x, env, order)
    case "subtitle" => SubtitleMd(x, env, order)
    case "empty-line" => Out("\n", order)
    case "image" => Out(ImageMd(x, env), order)
    case "poem" => PoemMd(x, env, order)
    case "cite" => CiteMd(x, env, order)
    case "table" => TableMd(x, env, order)
    case _ => BlockContentMd(x, level, env, order)
  }

  /** processBlockContent (converter.go:678-703) at the given sectionLevel. */
  function BlockContentMd(e: Node, level: nat, env: Env, order: seq<string>): (r: Out)
    decreases e, 2, 0
  {
    Fold(BlockParts(level), e, |e.children|, env, order)
  }

  function BlockChildMd(x: Node, level: nat, env: Env, order: seq<string>): (r: Out)
    decreases x, 5, 0
  {
    match x.tag
    case "p" => ParagraphMd(x, env, order)
    case "empty-line" => Out("\n", order)
    case "section" => SectionMd(x, level + 1, env, order)
    case "subtitle" => SubtitleMd(x, env, order)
    case "epigraph" => EpigraphMd(x, env, order)
    case "image" => Out(ImageMd(x, env), order)
    case "poem" => PoemMd(x, env, order)
    case "cite" => CiteMd(x, env, order)
    case "table" => TableMd(x, env, order)
    case _ => InlineMd(x, env, order)
  }

  /** processBody (converter.go:321-351) at the given sectionLevel. */
  function BodyMd(e: Node, level: nat, env: Env, order: seq<string>): (r: Out)
    decreases e, 2, 0
  {
    Fold(BodyParts(level), e, |e.children|, env, order)
  }

  function BodyChildMd(x: Node, level: nat, env: Env, order: seq<string>): (r: Out)
    decreases x, 5, 0
  {
    match x.tag
    case "title" => Out("\n## " + AllText(x) + "\n\n", order)
    case "epigraph" => EpigraphMd(x, env, order)
    case "section" => SectionMd(x, level + 1, env, order)
    case "p" => ParagraphMd(x, env, order)
    case "subtitle" => SubtitleMd(x, env, order)
    case "empty-line" => Out("\n", order)
    case "image" => Out(ImageMd(x, env), order)
    case "poem" => PoemMd(x, env, order)
    case "cite" => CiteMd(x, env, order)
    case "table" => TableMd(x, env, order)
    case _ => BlockContentMd(x, level, env, order)
  }

  /** Convert's loop over the first n bodies of the root, skipping the notes bodies. */
  function MainBodies(bodies: seq<Node>, level: nat, n: nat, env: Env, order: seq<string>): (r: Out)
    requires n <= |bodies|
  {
    if n == 0 then Out("", order)
    else
      var a := MainBodies(bodies, level, n - 1, env, order);
      var b := bodies[n - 1];
      if IsNotesBody(b) then a
      else
        var o := BodyMd(b, level, env, a.order);
        Out(a.text + o.text, o.order)
  }

  // ---------------------------------------------------------------------
  // Properties of the walk
  // ---------------------------------------------------------------------

  lemma {:induction false} RepeatChar(c: char, n: nat)
    ensures |Repeat([c], n)| == n
    ensures forall i :: 0 <= i < n ==> Repeat([c], n)[i] == c
  {
    if n > 0 {
      RepeatChar(c, n - 1);
    }
  }

  /** h '#' characters, a space and a title: the run of '#' ends at index h. */
  lemma {:induction false} HashesThenSpace(h: nat, title: string)
    ensures var t := Repeat("#", h) + " " + title + "\n\n";
            && h < |t|
            && (forall i :: 0 <= i < h ==> t[i] == '#')
            && t[h] == ' '
  {
    RepeatChar('#', h);
    var hashes := Repeat("#", h);
    var t := hashes + " " + title + "\n\n";
    assert |hashes| == h;
    forall i | 0 <= i < h ensures t[i] == '#' {
      assert t[i] == hashes[i];
    }
  }

  /** The heading of a titled section: exactly HeadingLevel(level) '#' characters, then a space. */
  lemma HeadingShape(e: Node, level: nat)
    requires SelectElement(e, "title").Some?
    ensures var t := SectionHeading(e, level);
            var h := HeadingLevel(level);
            && h < |t|
            && (forall i :: 0 <= i < h ==> t[i] == '#')
            && t[h] == ' '
  {
    HashesThenSpace(HeadingLevel(level), AllText(SelectElement(e, "title").value));
  }

  lemma SectionStartsWithHeading(e: Node, level: nat, env: Env, order: seq<string>)
    ensures HasPrefix(SectionMd(e, level, env, order).text, SectionHeading(e, level))
  {
    var h := SectionHead(e, level, env, order);
    HeadStartsWithHeading(e, level, env, order);
    PrefixOfConcat(h.text, SectionMd(e, level, env, order).text[|h.text|..]);
    PrefixTrans(SectionMd(e, level, env, order).text, h.text, SectionHeading(e, level));
  }

  lemma HeadStartsWithHeading(e: Node, level: nat, env: Env, order: seq<string>)
    ensures HasPrefix(SectionHead(e, level, env, order).text, SectionHeading(e, level))
  {
    var head := SectionHeading(e, level);
    var t := SectionHead(e, level, env, order).text;
    PrefixOfConcat(head, t[|head|..]);
  }

  /**
   * A titled section met at sectionLevel `level` opens with a heading of
   * exactly level + 2 '#' characters, at most 6, and a space.
   */
  lemma SectionOpensWithHeading(e: Node, level: nat, env: Env, order: seq<string>)
    requires SelectElement(e, "title").Some?
    ensures var t := SectionMd(e, level + 1, env, order).text;
            var h := if level + 2 <= 6 then level + 2 else 6;
            && h < |t|
            && (forall i :: 0 <= i < h ==> t[i] == '#')
            && t[h] == ' '
  {
    HeadingShape(e, level + 1);
    SectionStartsWithHeading(e, level + 1, env, order);
    var head := SectionHeading(e, level + 1);
    var t := SectionMd(e, level + 1, env, order).text;
    assert forall i :: 0 <= i < |head| ==> t[i] == head[i];
  }

  /** How many times c occurs in s. */
  function Count(s: string, c: char): nat {
    if s == [] then 0 else Count(s[..|s| - 1], c) + (if s[|s| - 1] == c then 1 else 0)
  }

  lemma {:induction false} CountAppend(a: string, b: string, c: char)
    ensures Count(a + b, c) == Count(a, c) + Count(b, c)
    decreases |b|
  {
    if b != [] {
      assert (a + b)[..|a + b| - 1] == a + b[..|b| - 1];
      CountAppend(a, b[..|b| - 1], c);
    } else {
      assert a + b == a;
    }
  }

  lemma {:induction false} CountRepeat(w: string, k: nat, c: char)
    ensures Count(Repeat(w, k), c) == k * Count(w, c)
  {
    if k > 0 {
      CountRepeat(w, k - 1, c);
      CountAppend(Repeat(w, k - 1), w, c);
      assert k * Count(w, c) == (k - 1) * Count(w, c) + Count(w, c);
    }
  }

  lemma {:induction false} CountAbsent(s: string, c: char)
    requires forall i :: 0 <= i < |s| ==> s[i] != c
    ensures Count(s, c) == 0
  {
    if s != [] {
      CountAbsent(s[..|s| - 1], c);
    }
  }

  /** A cell ending in its only '|'. */
  lemma OnePipe(cell: string)
    requires |cell| > 0 && cell[|cell| - 1] == '|'
    requires forall i :: 0 <= i < |cell| - 1 ==> cell[i] != '|'
    ensures Count(cell, '|') == 1
  {
    CountAbsent(cell[..|cell| - 1], '|');
  }

  /** The rows with k cells between k + 1 '|' separators. */
  lemma {:induction false} FramedRow(cell: string, k: nat)
    requires Count(cell, '|') == 1
    ensures Count("|" + Repeat(cell, k) + "\n", '|') == k + 1
  {
    CountRepeat(cell, k, '|');
    OnePipe("|");
    CountAbsent("\n", '|');
    CountAppend("|", Repeat(cell, k), '|');
    CountAppend("|" + Repeat(cell, k), "\n", '|');
  }

  /** The delimiter row and the synthesized header both have exactly k cells. */
  lemma TableRowsHaveKCells(k: nat)
    ensures Count(SeparatorRow(k), '|') == k + 1
    ensures Count(BlankHeaderRow(k), '|') == k + 1
  {
    OnePipe(" --- |");
    OnePipe("  |");
    FramedRow(" --- |", k);
    FramedRow("  |", k);
  }

  /** A table writes nothing exactly when it has no rows or its first row gives no columns. */
  lemma TableEmptyIff(e: Node, env: Env, order: seq<string>)
    ensures var rows := SelectElements(e, "tr");
            var r := TableMd(e, env, order);
            && (r.text == "" <==> |rows| == 0 || ColumnCount(rows[0]) == 0)
            && (r.text == "" ==> r.order == order)
  {
  }

  /**
   * A table with a th cell in its first row uses that row as header; without
   * one it gets k empty header cells, and the first row is the first data row.
   * The delimiter row follows the header either way.
   */
  lemma TableLayout(e: Node, env: Env, order: seq<string>)
    requires |SelectElements(e, "tr")| > 0 && ColumnCount(SelectElements(e, "tr")[0]) > 0
    ensures var rows := SelectElements(e, "tr");
            var k := ColumnCount(rows[0]);
            var t := TableMd(e, env, order).text;
            if |SelectElements(rows[0], "th")| > 0 then
              HasPrefix(t, RowMd(rows[0], env, order).text + SeparatorRow(k))
            else
              HasPrefix(t, BlankHeaderRow(k) + SeparatorRow(k) + RowMd(rows[0], env, order).text)
  {
    var rows := SelectElements(e, "tr");
    var k := ColumnCount(rows[0]);
    var t := TableMd(e, env, order).text;
    if |SelectElements(rows[0], "th")| > 0 {
      var pre := RowMd(rows[0], env, order).text + SeparatorRow(k);
      assert t[..|pre|] == pre;
    } else {
      var data := Fold(RowsFrom(0), e, |rows|, env, order).text;
      var first := RowMd(rows[0], env, order).text;
      var head := BlankHeaderRow(k) + SeparatorRow(k);
      FoldGrows(RowsFrom(0), e, 1, |rows|, env, order);
      assert Fold(RowsFrom(0), e, 1, env, order).text == first by {
        assert Items(RowsFrom(0), e)[0] == rows[0];
        assert "" + first == first;
      }
      PrefixExtend(head, data, first);
      assert t == head + data + "\n";
      PrefixOfConcat(head + data, "\n");
      PrefixTrans(t, head + data, head + first);
    }
  }

  /** A loop's output over more items extends its output over fewer. */
  lemma {:induction false} FoldGrows(c: Loop, e: Node, m: nat, n: nat, env: Env, order: seq<string>)
    requires m <= n <= |Items(c, e)|
    decreases n
    ensures HasPrefix(Fold(c, e, n, env, order).text, Fold(c, e, m, env, order).text)
  {
    if m < n {
      FoldGrows(c, e, m, n - 1, env, order);
      var a := Fold(c, e, n - 1, env, order);
      PrefixOfConcat(a.text, Item(c, e, n - 1, env, a.order).text);
      PrefixTrans(Fold(c, e, n, env, order).text, a.text, Fold(c, e, m, env, order).text);
    }
  }
}
