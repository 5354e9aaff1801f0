/**
 * What the verse-level renderers promise, stated apart from the functions
 * that follow the Go code: processStanza joins its verses with Markdown line
 * breaks, processPoem and processQuotedPoem write one line per text-author,
 * a poem closes with its date, and processQuotedPoem and processCite keep
 * every line of their output inside the blockquote.
 */
module Poetry {
  import opened Text
  import opened Tree
  import opened Markdown

  // ---------------------------------------------------------------------
  // Inline texts rendered one after the other
  // ---------------------------------------------------------------------

  /** The inline texts of a run of elements and the footnote order afterwards. */
  datatype Texts = Texts(texts: seq<string>, order: seq<string>)

  /** Each element of xs rendered inline in turn, the footnote order threaded through. */
  function InlineTexts(xs: seq<Node>, env: Env, order: seq<string>): (r: Texts)
    decreases |xs|
    ensures |r.texts| == |xs|
  {
    if xs == [] then Texts([], order)
    else
      var a := InlineTexts(xs[..|xs| - 1], env, order);
      var v := InlineMd(xs[|xs| - 1], env, a.order);
      Texts(a.texts + [v.text], v.order)
  }

  /** pre + t + post for every t of ts, in order. */
  function Framed(ts: seq<string>, pre: string, post: string): string {
    if ts == [] then "" else Framed(ts[..|ts| - 1], pre, post) + (pre + ts[|ts| - 1] + post)
  }

  lemma InlineTextsStep(xs: seq<Node>, n: nat, env: Env, order: seq<string>)
    requires n < |xs|
    ensures var a := InlineTexts(xs[..n], env, order);
            var v := InlineMd(xs[n], env, a.order);
            InlineTexts(xs[..n + 1], env, order) == Texts(a.texts + [v.text], v.order)
  {
    assert xs[..n + 1][..n] == xs[..n];
  }

  // ---------------------------------------------------------------------
  // Loops writing one line per element
  // ---------------------------------------------------------------------

  lemma FramedSnoc(ts: seq<string>, t: string, pre: string, post: string)
    ensures Framed(ts + [t], pre, post) == Framed(ts, pre, post) + (pre + t + post)
  {
    assert (ts + [t])[..|ts|] == ts;
  }

  /** A loop whose every pass writes pre, the element's inline text, then post, writes Framed. */
  lemma {:induction false} FramedLoop(c: Loop, e: Node, n: nat, pre: string, post: string, env: Env, order: seq<string>)
    requires n <= |Items(c, e)|
    requires forall i, o :: 0 <= i < n ==> Item(c, e, i, env, o) == Wrap(pre, InlineMd(Items(c, e)[i], env, o), post)
    ensures var a := InlineTexts(Items(c, e)[..n], env, order);
            var f := Fold(c, e, n, env, order);
            f.text == Framed(a.texts, pre, post) && f.order == a.order
  {
    if n > 0 {
      var xs := Items(c, e);
      FramedLoop(c, e, n - 1, pre, post, env, order);
      InlineTextsStep(xs, n - 1, env, order);
      var a := InlineTexts(xs[..n - 1], env, order);
      var v := InlineMd(xs[n - 1], env, a.order);
      FramedSnoc(a.texts, v.text, pre, post);
    }
  }

  // ---------------------------------------------------------------------
  // processStanza: verses joined by Markdown line breaks
  // ---------------------------------------------------------------------

  /** Texts each followed by sep, then one more text, are the texts joined by sep. */
  lemma {:induction false} FramedJoin(ts: seq<string>, t: string, sep: string)
    ensures Framed(ts, "", sep) + t == Join(ts + [t], sep)
    decreases |ts|
  {
    if ts != [] {
      var init := ts[..|ts| - 1];
      var last := ts[|ts| - 1];
      FramedJoin(init, last, sep);
      assert init + [last] == ts;
      assert (ts + [t])[..|ts|] == ts;
    }
  }

  /** Every verse but the last is written followed by a Markdown line break "  \n". */
  lemma VerseBreaks(e: Node, n: nat, env: Env)
    requires n < |SelectElements(e, "v")|
    ensures forall i, o :: 0 <= i < n ==>
              Item(VersesOf, e, i, env, o) == Wrap("", InlineMd(Items(VersesOf, e)[i], env, o), "  \n")
  {
    assert Items(VersesOf, e) == SelectElements(e, "v");
  }

  /**
   * processStanza's verse loop writes the verses' inline texts joined by
   * "  \n", then a plain newline after the last one.
   */
  lemma VersesJoined(e: Node, env: Env, order: seq<string>)
    requires |SelectElements(e, "v")| > 0
    ensures var vs := SelectElements(e, "v");
            var a := InlineTexts(vs, env, order);
            var f := Fold(VersesOf, e, |vs|, env, order);
            f.text == Join(a.texts, "  \n") + "\n" && f.order == a.order
  {
    var vs := SelectElements(e, "v");
    var n := |vs| - 1;
    assert Items(VersesOf, e) == vs;
    VerseBreaks(e, n, env);
    FramedLoop(VersesOf, e, n, "", "  \n", env, order);
    InlineTextsStep(vs, n, env, order);
    assert vs[..n + 1] == vs;
    var a := InlineTexts(vs[..n], env, order);
    var v := InlineMd(vs[n], env, a.order);
    FramedJoin(a.texts, v.text, "  \n");
  }

  /** processPoem writes every text-author as its own line "*— name*" followed by a blank line, in order. */
  lemma PoemAuthorLines(e: Node, env: Env, order: seq<string>)
    ensures var authors := SelectElements(e, "text-author");
            var a := InlineTexts(authors, env, order);
            var f := Fold(PoemAuthorsOf, e, |authors|, env, order);
            f.text == Framed(a.texts, "*\U{2014} ", "*\n\n") && f.order == a.order
  {
    var authors := SelectElements(e, "text-author");
    assert Items(PoemAuthorsOf, e) == authors && authors[..|authors|] == authors;
    FramedLoop(PoemAuthorsOf, e, |authors|, "*\U{2014} ", "*\n\n", env, order);
  }

  /** processQuotedPoem writes every text-author as a quoted line "> *— name*", in order. */
  lemma QuotedAuthorLines(e: Node, env: Env, order: seq<string>)
    ensures var authors := SelectElements(e, "text-author");
            var a := InlineTexts(authors, env, order);
            var f := Fold(QuotedAuthorsOf, e, |authors|, env, order);
            f.text == Framed(a.texts, "> *\U{2014} ", "*\n") && f.order == a.order
  {
    var authors := SelectElements(e, "text-author");
    assert Items(QuotedAuthorsOf, e) == authors && authors[..|authors|] == authors;
    FramedLoop(QuotedAuthorsOf, e, |authors|, "> *\U{2014} ", "*\n", env, order);
  }

  /** processQuotedPoem writes every verse of a stanza as a quoted line "> verse", in order. */
  lemma QuotedVerseLines(x: Node, env: Env, order: seq<string>)
    ensures var vs := SelectElements(x, "v");
            var a := InlineTexts(vs, env, order);
            var f := Fold(QuotedVersesOf, x, |vs|, env, order);
            f.text == Framed(a.texts, "> ", "\n") && f.order == a.order
  {
    var vs := SelectElements(x, "v");
    assert Items(QuotedVersesOf, x) == vs && vs[..|vs|] == vs;
    FramedLoop(QuotedVersesOf, x, |vs|, "> ", "\n", env, order);
  }

  /** The rest of a poem after its epigraphs ends with the date line. */
  lemma BodyEndsWithDate(e: Node, env: Env, order: seq<string>)
    ensures exists h :: PoemBody(e, env, order).text == h + PoemDate(e)
  {
    var body := Fold(PoemParts, e, |e.children|, env, order);
    var authors := Fold(PoemAuthorsOf, e, |SelectElements(e, "text-author")|, env, body.order);
    assert PoemBody(e, env, order).text == (body.text + authors.text) + PoemDate(e);
  }

  /** A poem ends with its date line, after the stanzas and the text-authors. */
  lemma PoemEndsWithDate(e: Node, env: Env, order: seq<string>)
    ensures HasSuffix(PoemMd(e, env, order).text, PoemDate(e))
  {
    var eps := Fold(EpigraphsOf, e, |SelectElements(e, "epigraph")|, env, order);
    BodyEndsWithDate(e, env, eps.order);
    var h :| PoemBody(e, env, eps.order).text == h + PoemDate(e);
    var head := TitleLine(e, "**", "**\n\n") + eps.text + h;
    assert PoemMd(e, env, order).text == head + PoemDate(e);
    SuffixOfConcat(head, PoemDate(e));
  }

  /** A stanza ends with its verses joined by Markdown line breaks, after its title and subtitle. */
  lemma StanzaEndsWithVerses(e: Node, env: Env, order: seq<string>)
    requires |SelectElements(e, "v")| > 0
    ensures exists o :: HasSuffix(StanzaMd(e, env, order).text,
                                  Join(InlineTexts(SelectElements(e, "v"), env, o).texts, "  \n") + "\n")
  {
    var sub :=
      match SelectElement(e, "subtitle")
      case Some(s) => Wrap("**", InlineMd(s, env, order), "**\n")
      case None => Out("", order);
    var verses := Fold(VersesOf, e, |SelectElements(e, "v")|, env, sub.order);
    VersesJoined(e, env, sub.order);
    assert StanzaMd(e, env, order).text == (TitleLine(e, "**", "**\n") + sub.text) + verses.text;
    SuffixOfConcat(TitleLine(e, "**", "**\n") + sub.text, verses.text);
  }

  // ---------------------------------------------------------------------
  // Blockquotes: every line starts with '>'
  // ---------------------------------------------------------------------

  /** Every line of s after its first starts with '>'. */
  predicate LaterLinesQuoted(s: string) {
    forall i :: 0 < i < |s| && s[i - 1] == '\n' ==> s[i] == '>'
  }

  /** Every line of s starts with '>': the first character and every character after a line break. */
  predicate Quoted(s: string) {
    (|s| > 0 ==> s[0] == '>') && LaterLinesQuoted(s)
  }

  /** An element whose inline rendering is a single line, whatever the footnote order. */
  ghost predicate Flat(x: Node, env: Env) {
    forall o :: '\n' !in InlineMd(x, env, o).text
  }

  /** A title, if there is one, that flattens to a single line. */
  predicate FlatTitle(e: Node) {
    match SelectElement(e, "title")
    case Some(t) => '\n' !in AllText(t)
    case None => true
  }

  /**
   * A child of a quoted poem whose quoted lines are single lines: the verses
   * of a stanza, or a subtitle. Nothing else of the child is written.
   */
  ghost predicate FlatPoemChild(x: Node, env: Env) {
    && (x.tag == "stanza" ==> forall v :: v in SelectElements(x, "v") ==> Flat(v, env))
    && (x.tag == "subtitle" ==> Flat(x, env))
  }

  /** A poem whose title, verses, subtitles and text-authors render as single lines. */
  ghost predicate FlatPoem(e: Node, env: Env) {
    && FlatTitle(e)
    && (forall x :: x in e.children ==> FlatPoemChild(x, env))
    && (forall a :: a in SelectElements(e, "text-author") ==> Flat(a, env))
  }

  /** A p or text-author, the children processEpigraph frames on one quoted line, that renders as a single line. */
  ghost predicate FlatQuoteLine(x: Node, env: Env) {
    x.tag == "p" || x.tag == "text-author" ==> Flat(x, env)
  }

  /** A child of a cite that is not a table and whose quoted lines are single lines. */
  ghost predicate FlatCiteChild(x: Node, env: Env) {
    && x.tag != "table"
    && (x.tag == "p" || x.tag == "subtitle" || x.tag == "text-author" ==> Flat(x, env))
    && (x.tag == "poem" ==> FlatPoem(x, env))
  }

  /** A child of an epigraph whose quoted lines are single lines, down to the children of a nested cite. */
  ghost predicate FlatEpigraphChild(x: Node, env: Env) {
    && FlatQuoteLine(x, env)
    && (x.tag == "poem" ==> FlatPoem(x, env))
    && (x.tag == "cite" ==> forall c :: c in x.children ==> FlatQuoteLine(c, env))
  }

  lemma LaterQuotedAt(s: string, i: nat)
    requires LaterLinesQuoted(s) && 0 < i < |s| && s[i - 1] == '\n'
    ensures s[i] == '>'
  {
  }
  /** Quoted text followed by quoted text is quoted. */
  lemma QuotedConcat(a: string, b: string)
    requires Quoted(a) && Quoted(b)
    ensures Quoted(a + b)
  {
    var s := a + b;
    forall i | 0 < i < |s| && s[i - 1] == '\n'
      ensures s[i] == '>'
    {
      if i > |a| {
        assert s[i] == b[i - |a|] && s[i - 1] == b[i - |a| - 1];
        LaterQuotedAt(b, i - |a|);
      } else if i < |a| {
        assert s[i] == a[i] && s[i - 1] == a[i - 1];
        LaterQuotedAt(a, i);
      } else {
        assert s[i] == b[0];
      }
    }
    if |a| == 0 {
      assert s == b;
    } else {
      assert s[0] == a[0];
    }
  }
  /** A quoted opening, a one-line text and a closing whose later lines are quoted make quoted lines. */
  lemma QuotedLine(pre: string, t: string, post: string)
    requires |pre| > 0 && Quoted(pre) && pre[|pre| - 1] != '\n'
    requires '\n' !in t
    requires LaterLinesQuoted(post)
    ensures Quoted(pre + t + post)
  {
    var s := pre + t + post;
    var m := |pre| + |t|;
    forall i | 0 < i < |s| && s[i - 1] == '\n'
      ensures s[i] == '>'
    {
      if i < |pre| {
        assert s[i] == pre[i] && s[i - 1] == pre[i - 1];
        LaterQuotedAt(pre, i);
      } else if i <= m {
        assert false;
      } else {
        assert s[i] == post[i - m] && s[i - 1] == post[i - m - 1];
        LaterQuotedAt(post, i - m);
      }
    }
    assert s[0] == pre[0];
  }
  /** The openings and closings the blockquote renderers write. */
  lemma ClosingsQuoted()
    ensures LaterLinesQuoted("\n") && LaterLinesQuoted("**\n") && LaterLinesQuoted("*\n")
    ensures LaterLinesQuoted("**\n>\n") && LaterLinesQuoted("\n>\n")
    ensures Quoted("> ") && Quoted("> **") && Quoted("> *\U{2014} ") && Quoted(">\n")
    ensures Quoted(">\n> \U{2014} ")
  {
  }

  /** A loop whose every pass writes quoted lines writes quoted lines. */
  lemma {:induction false} QuotedLoop(c: Loop, e: Node, n: nat, env: Env, order: seq<string>)
    requires n <= |Items(c, e)|
    requires forall i, o :: 0 <= i < n ==> Quoted(Item(c, e, i, env, o).text)
    ensures Quoted(Fold(c, e, n, env, order).text)
  {
    if n > 0 {
      QuotedLoop(c, e, n - 1, env, order);
      var a := Fold(c, e, n - 1, env, order);
      QuotedConcat(a.text, Item(c, e, n - 1, env, a.order).text);
    }
  }

  /** A stanza or subtitle of a quoted poem is written as quoted lines. */
  lemma QuotedPoemChildQuoted(x: Node, env: Env, order: seq<string>)
    requires FlatPoemChild(x, env)
    ensures Quoted(QuotedPoemChildMd(x, env, order).text)
  {
    match x.tag
    case "stanza" =>
      var vs := SelectElements(x, "v");
      ClosingsQuoted();
      forall i, o | 0 <= i < |vs|
        ensures Quoted(Item(QuotedVersesOf, x, i, env, o).text)
      {
        assert Items(QuotedVersesOf, x) == vs && vs[i] in vs;
        var v := InlineMd(vs[i], env, o);
        assert '\n' !in v.text;
        assert Item(QuotedVersesOf, x, i, env, o) == Wrap("> ", v, "\n");
        QuotedLine("> ", v.text, "\n");
      }
      QuotedLoop(QuotedVersesOf, x, |vs|, env, order);
      var f := Fold(QuotedVersesOf, x, |vs|, env, order);
      QuotedConcat(f.text, ">\n");
      assert QuotedPoemChildMd(x, env, order).text == "" + f.text + ">\n";
    case "subtitle" =>
      ClosingsQuoted();
      assert '\n' !in InlineMd(x, env, order).text;
      QuotedLine("> **", InlineMd(x, env, order).text, "**\n");
    case _ =>
  }

  /** The stanzas and subtitles of a quoted poem with single-line parts are quoted lines. */
  lemma QuotedPoemPartsQuoted(e: Node, env: Env, order: seq<string>)
    requires forall x :: x in e.children ==> FlatPoemChild(x, env)
    ensures Quoted(Fold(QuotedPoemParts, e, |e.children|, env, order).text)
  {
    forall i, o | 0 <= i < |e.children|
      ensures Quoted(Item(QuotedPoemParts, e, i, env, o).text)
    {
      var x := e.children[i];
      assert x in e.children;
      assert Item(QuotedPoemParts, e, i, env, o) == QuotedPoemChildMd(x, env, o);
      QuotedPoemChildQuoted(x, env, o);
    }
    QuotedLoop(QuotedPoemParts, e, |e.children|, env, order);
  }

  /** The text-author lines of a quoted poem with single-line authors are quoted lines. */
  lemma QuotedAuthorsQuoted(e: Node, env: Env, order: seq<string>)
    requires forall a :: a in SelectElements(e, "text-author") ==> Flat(a, env)
    ensures Quoted(Fold(QuotedAuthorsOf, e, |SelectElements(e, "text-author")|, env, order).text)
  {
    var authors := SelectElements(e, "text-author");
    QuotedAuthorLines(e, env, order);
    InlineTextsFlat(authors, env, order);
    QuotedFramed(InlineTexts(authors, env, order).texts, authors, env, order);
  }

  /** The inline texts of single-line elements are single lines. */
  lemma {:induction false} InlineTextsFlat(xs: seq<Node>, env: Env, order: seq<string>)
    requires forall x :: x in xs ==> Flat(x, env)
    ensures forall t :: t in InlineTexts(xs, env, order).texts ==> '\n' !in t
    decreases |xs|
  {
    if xs != [] {
      var init := xs[..|xs| - 1];
      assert forall x :: x in init ==> x in xs;
      InlineTextsFlat(init, env, order);
      var a := InlineTexts(init, env, order);
      assert xs[|xs| - 1] in xs;
      assert '\n' !in InlineMd(xs[|xs| - 1], env, a.order).text;
    }
  }

  /** Framed "> *— " ... "*\n" lines of single-line texts are quoted lines. */
  lemma {:induction false} QuotedFramed(ts: seq<string>, xs: seq<Node>, env: Env, order: seq<string>)
    requires forall t :: t in ts ==> '\n' !in t
    ensures Quoted(Framed(ts, "> *\U{2014} ", "*\n"))
    decreases |ts|
  {
    if ts != [] {
      var init := ts[..|ts| - 1];
      assert forall t :: t in init ==> t in ts;
      QuotedFramed(init, xs, env, order);
      assert ts[|ts| - 1] in ts;
      ClosingsQuoted();
      QuotedLine("> *\U{2014} ", ts[|ts| - 1], "*\n");
      QuotedConcat(Framed(init, "> *\U{2014} ", "*\n"), "> *\U{2014} " + ts[|ts| - 1] + "*\n");
    }
  }

  /** The title line of a quoted poem with a single-line title is quoted. */
  lemma QuotedTitle(e: Node)
    requires FlatTitle(e)
    ensures Quoted(TitleLine(e, "> **", "**\n>\n"))
  {
    match SelectElement(e, "title")
    case Some(t) =>
      if AllText(t) != "" {
        ClosingsQuoted();
        QuotedLine("> **", AllText(t), "**\n>\n");
      }
    case None =>
  }

  /**
   * processQuotedPoem keeps a poem inside the blockquote: when its title,
   * verses, subtitles and text-authors are single lines, every line it writes
   * starts with '>'.
   */
  lemma QuotedPoemQuoted(e: Node, env: Env, order: seq<string>)
    requires FlatPoem(e, env)
    ensures Quoted(QuotedPoemMd(e, env, order).text)
  {
    var body := Fold(QuotedPoemParts, e, |e.children|, env, order);
    var authors := Fold(QuotedAuthorsOf, e, |SelectElements(e, "text-author")|, env, body.order);
    var title := TitleLine(e, "> **", "**\n>\n");
    QuotedPoemPartsQuoted(e, env, order);
    QuotedAuthorsQuoted(e, env, body.order);
    QuotedTitle(e);
    QuotedConcat(title, body.text);
    QuotedConcat(title + body.text, authors.text);
  }

  /** A child of a cite other than a table, whose quoted lines are single lines, is written as quoted lines. */
  lemma CiteChildQuoted(x: Node, env: Env, order: seq<string>)
    requires FlatCiteChild(x, env)
    ensures Quoted(CiteChildMd(x, env, order).text)
  {
    ClosingsQuoted();
    var v := InlineMd(x, env, order);
    match x.tag
    case "p" =>
      assert '\n' !in v.text;
      QuotedLine("> ", v.text, "\n>\n");
    case "poem" => QuotedPoemQuoted(x, env, order);
    case "subtitle" =>
      assert '\n' !in v.text;
      QuotedLine("> **", v.text, "**\n>\n");
    case "empty-line" =>
    case "table" =>
    case "text-author" =>
      assert '\n' !in v.text;
      QuotedLine(">\n> \U{2014} ", v.text, "\n");
    case _ =>
  }

  /**
   * processCite writes a blockquote: when no child is a table (a table is
   * written as it is, outside the quote) and every child renders as single
   * lines, every line up to the closing blank line starts with '>'.
   */
  lemma CiteQuoted(e: Node, env: Env, order: seq<string>)
    requires forall x :: x in e.children ==> FlatCiteChild(x, env)
    ensures var t := CiteMd(e, env, order).text;
            |t| > 0 && t[|t| - 1] == '\n' && Quoted(t[..|t| - 1])
  {
    var f := Fold(CiteParts, e, |e.children|, env, order);
    forall i, o | 0 <= i < |e.children|
      ensures Quoted(Item(CiteParts, e, i, env, o).text)
    {
      var x := e.children[i];
      assert x in e.children;
      assert Item(CiteParts, e, i, env, o) == CiteChildMd(x, env, o);
      CiteChildQuoted(x, env, o);
    }
    QuotedLoop(CiteParts, e, |e.children|, env, order);
    var t := CiteMd(e, env, order).text;
    assert t == f.text + "\n";
    assert t[..|t| - 1] == f.text;
  }

  /** A p, text-author or empty-line of an epigraph or of a cite nested in it, rendered as single lines, is written as quoted lines. */
  lemma QuoteLineQuoted(x: Node, env: Env, order: seq<string>)
    requires FlatQuoteLine(x, env)
    ensures Quoted(QuoteLineMd(x, env, order).text)
  {
    ClosingsQuoted();
    var v := InlineMd(x, env, order);
    match x.tag
    case "p" =>
      assert '\n' !in v.text;
      QuotedLine("> ", v.text, "\n");
    case "text-author" =>
      assert '\n' !in v.text;
      QuotedLine(">\n> \U{2014} ", v.text, "\n");
    case "empty-line" =>
    case _ =>
  }

  /** A child of an epigraph whose quoted lines are single lines is written as quoted lines. */
  lemma EpigraphChildQuoted(x: Node, env: Env, order: seq<string>)
    requires FlatEpigraphChild(x, env)
    ensures Quoted(EpigraphChildMd(x, env, order).text)
  {
    match x.tag
    case "poem" => QuotedPoemQuoted(x, env, order);
    case "cite" =>
      forall i, o | 0 <= i < |x.children|
        ensures Quoted(Item(NestedCiteParts, x, i, env, o).text)
      {
        var c := x.children[i];
        assert c in x.children;
        assert Item(NestedCiteParts, x, i, env, o) == QuoteLineMd(c, env, o);
        QuoteLineQuoted(c, env, o);
      }
      QuotedLoop(NestedCiteParts, x, |x.children|, env, order);
    case _ => QuoteLineQuoted(x, env, order);
  }

  /**
   * processEpigraph writes a blockquote: when the children it quotes render
   * as single lines, every line up to the closing blank line starts with '>'.
   */
  lemma EpigraphQuoted(e: Node, env: Env, order: seq<string>)
    requires forall x :: x in e.children ==> FlatEpigraphChild(x, env)
    ensures var t := EpigraphMd(e, env, order).text;
            |t| > 0 && t[|t| - 1] == '\n' && Quoted(t[..|t| - 1])
  {
    var f := Fold(EpigraphParts, e, |e.children|, env, order);
    forall i, o | 0 <= i < |e.children|
      ensures Quoted(Item(EpigraphParts, e, i, env, o).text)
    {
      var x := e.children[i];
      assert x in e.children;
      assert Item(EpigraphParts, e, i, env, o) == EpigraphChildMd(x, env, o);
      EpigraphChildQuoted(x, env, o);
    }
    QuotedLoop(EpigraphParts, e, |e.children|, env, order);
    var t := EpigraphMd(e, env, order).text;
    assert t == f.text + "\n";
    assert t[..|t| - 1] == f.text;
  }
}
