/**
 * The metadata header rendered from <description>/<title-info>: title,
 * authors, genres, series, annotation and date, closed by a rule.
 */
module Description {
  import opened Text
  import opened Tree
  import opened Markdown

  /** The text of the first child with the given tag, when there is one. */
  function ChildText(e: Node, tag: string): (r: seq<string>)
    ensures |r| <= 1
    ensures r == [] <==> SelectElement(e, tag).None?
  {
    match SelectElement(e, tag)
    case Some(c) => [c.text]
    case None => []
  }

  /**
   * The name parts getAuthorName joins: first, middle and last name when
   * present, the nickname only when none of them is.
   */
  function AuthorParts(a: Node): (parts: seq<string>)
    ensures |parts| <= 3
    ensures parts == [] <==> SelectElement(a, "first-name").None? && SelectElement(a, "middle-name").None?
                             && SelectElement(a, "last-name").None? && SelectElement(a, "nickname").None?
    ensures SelectElement(a, "first-name").Some? || SelectElement(a, "middle-name").Some? || SelectElement(a, "last-name").Some? ==>
              parts == ChildText(a, "first-name") + ChildText(a, "middle-name") + ChildText(a, "last-name")
    ensures SelectElement(a, "first-name").None? && SelectElement(a, "middle-name").None? && SelectElement(a, "last-name").None? ==>
              parts == ChildText(a, "nickname")
  {
    var names := ChildText(a, "first-name") + ChildText(a, "middle-name") + ChildText(a, "last-name");
    if names == [] then ChildText(a, "nickname") else names
  }

  /** getAuthorName (converter.go:302-319). */
  function AuthorName(a: Node): string {
    Join(AuthorParts(a), " ")
  }

  /** A name as a list entry: itself when non-empty, nothing otherwise. */
  function Listed(name: string): (r: seq<string>)
    ensures name != "" ==> r == [name]
    ensures name == "" ==> r == []
  {
    if name != "" then [name] else []
  }

  /** The non-empty names of xs[..n], in order, as name gives them. */
  function NamesOf(xs: seq<Node>, name: Node -> string, n: nat): (r: seq<string>)
    requires n <= |xs|
    ensures |r| <= n
    ensures forall k :: 0 <= k < |r| ==> r[k] != ""
  {
    if n == 0 then [] else NamesOf(xs, name, n - 1) + Listed(name(xs[n - 1]))
  }

  lemma InPrefix(a: seq<string>, b: seq<string>, x: string)
    requires x in a
    ensures x in a + b
  {
  }

  /** Every element among the first n whose name is non-empty has that name listed. */
  lemma {:induction false} NamesOfComplete(xs: seq<Node>, name: Node -> string, n: nat, i: nat)
    requires i < n <= |xs|
    requires name(xs[i]) != ""
    ensures name(xs[i]) in NamesOf(xs, name, n)
  {
    var prev := NamesOf(xs, name, n - 1);
    if i == n - 1 {
      assert NamesOf(xs, name, n) == prev + [name(xs[i])];
    } else {
      NamesOfComplete(xs, name, n - 1, i);
      InPrefix(prev, Listed(name(xs[n - 1])), name(xs[i]));
    }
  }

  /** Every listed name is the name of one of the first n elements. */
  lemma {:induction false} NamesOfSound(xs: seq<Node>, name: Node -> string, n: nat, j: nat)
    requires n <= |xs|
    requires j < |NamesOf(xs, name, n)|
    ensures exists i :: 0 <= i < n && name(xs[i]) == NamesOf(xs, name, n)[j]
  {
    var prev := NamesOf(xs, name, n - 1);
    if j < |prev| {
      NamesOfSound(xs, name, n - 1, j);
      assert NamesOf(xs, name, n)[j] == prev[j];
    } else {
      assert NamesOf(xs, name, n)[j] == name(xs[n - 1]);
    }
  }

  /** The non-empty names of authors[..n], in order. */
  function AuthorNames(authors: seq<Node>, n: nat): (r: seq<string>)
    requires n <= |authors|
    ensures |r| <= n
    ensures forall i :: 0 <= i < |r| ==> r[i] != ""
  {
    NamesOf(authors, AuthorName, n)
  }

  /** The text of a <genre> element. */
  function GenreText(g: Node): string {
    g.text
  }

  /** The non-empty texts of genres[..n], in order. */
  function GenreNames(genres: seq<Node>, n: nat): (r: seq<string>)
    requires n <= |genres|
    ensures |r| <= n
    ensures forall i :: 0 <= i < |r| ==> r[i] != ""
  {
    NamesOf(genres, GenreText, n)
  }

  /** Every author among the first n whose name is non-empty is listed. */
  lemma {:induction false} AuthorNamesComplete(authors: seq<Node>, n: nat, i: nat)
    requires i < n <= |authors|
    requires AuthorName(authors[i]) != ""
    ensures AuthorName(authors[i]) in AuthorNames(authors, n)
  {
    NamesOfComplete(authors, AuthorName, n, i);
  }

  /** Every listed name is the name of one of the first n authors. */
  lemma {:induction false} AuthorNamesSound(authors: seq<Node>, n: nat, j: nat)
    requires n <= |authors|
    requires j < |AuthorNames(authors, n)|
    ensures exists i :: 0 <= i < n && AuthorName(authors[i]) == AuthorNames(authors, n)[j]
  {
    NamesOfSound(authors, AuthorName, n, j);
  }

  /** Every genre among the first n whose text is non-empty is listed. */
  lemma {:induction false} GenreNamesComplete(genres: seq<Node>, n: nat, i: nat)
    requires i < n <= |genres|
    requires genres[i].text != ""
    ensures genres[i].text in GenreNames(genres, n)
  {
    NamesOfComplete(genres, GenreText, n, i);
  }

  /** Every listed genre is the text of one of the first n genres. */
  lemma {:induction false} GenreNamesSound(genres: seq<Node>, n: nat, j: nat)
    requires n <= |genres|
    requires j < |GenreNames(genres, n)|
    ensures exists i :: 0 <= i < n && genres[i].text == GenreNames(genres, n)[j]
  {
    NamesOfSound(genres, GenreText, n, j);
  }

  /** The "**Series:**" line of a sequence with a name, with its number when it has one. */
  function SeriesLine(sq: Node): string {
    var name := AttrValue(sq, "", "name", "");
    var number := AttrValue(sq, "", "number", "");
    if name != "" then "**Series:** " + name + (if number != "" then ", #" + number else "") + "\n\n" else ""
  }

  /** The series lines of seqs[..n]. */
  function SeriesLines(seqs: seq<Node>, n: nat): string
    requires n <= |seqs|
  {
    if n == 0 then "" else SeriesLines(seqs, n - 1) + SeriesLine(seqs[n - 1])
  }

  /** A labelled list line, written whenever the list has elements, even when every name is empty. */
  function ListLine(head: string, count: nat, names: seq<string>): string {
    if count > 0 then head + Join(names, ", ") + "\n\n" else ""
  }

  function BookTitleLine(ti: Node): string {
    match SelectElement(ti, "book-title")
    case Some(t) => "# " + t.text + "\n\n"
    case None => ""
  }

  function AuthorsLine(authors: seq<Node>): string {
    ListLine("**Authors:** ", |authors|, AuthorNames(authors, |authors|))
  }

  function GenresLine(genres: seq<Node>): string {
    ListLine("**Genres:** ", |genres|, GenreNames(genres, |genres|))
  }

  /** The header lines before the annotation. */
  function HeadLines(ti: Node): string {
    var seqs := SelectElements(ti, "sequence");
    BookTitleLine(ti) + AuthorsLine(SelectElements(ti, "author")) + GenresLine(SelectElements(ti, "genre"))
    + SeriesLines(seqs, |seqs|)
  }

  /** The head lines open with the book title line. */
  lemma TitleFirst(ti: Node)
    ensures HasPrefix(HeadLines(ti), BookTitleLine(ti))
  {
    var seqs := SelectElements(ti, "sequence");
    PrefixOfConcat4(BookTitleLine(ti), AuthorsLine(SelectElements(ti, "author")),
                    GenresLine(SelectElements(ti, "genre")), SeriesLines(seqs, |seqs|));
  }

  /** The annotation under its own heading, when the title-info has one. */
  function AnnotationPart(ti: Node, level: nat, env: Env, order: seq<string>): Out {
    match SelectElement(ti, "annotation")
    case Some(a) => Wrap("## Annotation\n\n", BlockContentMd(a, level, env, order), "\n")
    case None => Out("", order)
  }

  function DateLine(ti: Node): string {
    match SelectElement(ti, "date")
    case Some(d) => if d.text != "" then "**Date:** " + d.text + "\n\n" else ""
    case None => ""
  }

  /**
   * processDescription (converter.go:224-300) at sectionLevel `level`: nothing
   * without a title-info; otherwise the header, closed by a rule.
   */
  function DescriptionMd(desc: Node, level: nat, env: Env, order: seq<string>): (r: Out)
    ensures SelectElement(desc, "title-info").None? ==> r == Out("", order)
    ensures SelectElement(desc, "title-info").Some? ==> HasSuffix(r.text, "---\n\n")
  {
    match SelectElement(desc, "title-info")
    case None => Out("", order)
    case Some(ti) => TitleInfoMd(ti, level, env, order)
  }

  /**
   * The header of a title-info: the book title first when there is one, then
   * authors, genres, series, annotation and date, closed by a rule.
   */
  function TitleInfoMd(ti: Node, level: nat, env: Env, order: seq<string>): (r: Out)
    ensures HasSuffix(r.text, "---\n\n")
    ensures SelectElement(ti, "book-title").Some? ==>
              HasPrefix(r.text, "# " + SelectElement(ti, "book-title").value.text + "\n\n")
  {
    var ann := AnnotationPart(ti, level, env, order);
    var text := HeadLines(ti) + ann.text + DateLine(ti) + "---\n\n";
    assert text[|text| - 5..] == "---\n\n";
    TitleFirst(ti);
    PrefixOfConcat4(HeadLines(ti), ann.text, DateLine(ti), "---\n\n");
    PrefixTrans(text, HeadLines(ti), BookTitleLine(ti));
    Out(text, ann.order)
  }
}
