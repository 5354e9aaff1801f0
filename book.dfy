/**
 * What Convert does to the converter once the book is parsed: the passes
 * over the FictionBook root, in the order they run, as one function of the
 * converter's state.
 */
module Book {
  import opened Text
  import opened Tree
  import opened Assets
  import opened Markdown
  import opened Footnotes
  import opened Description

  /** The converter fields Convert reads and writes (footnoteSeen only mirrors order). */
  datatype State = State(output: string, level: nat, extract: bool, dir: string,
                         files: map<string, string>, notes: map<string, string>, order: seq<string>)

  /** The error Convert reports for a document without a FictionBook root. */
  const NotFound := "invalid FB2 file: FictionBook element not found"

  /** The identifier-to-file table after collectBinaryImageFilenames on root. */
  function ImageNames(root: Node, files0: map<string, string>): map<string, string> {
    var bins := SelectElements(root, "binary");
    AssignUpTo(Requests(bins), |bins|, files0).files
  }

  /** Every request with an identifier among the first n has its identifier named. */
  lemma {:induction false} NamedIdsOf(qs: seq<Request>, n: nat, i: nat)
    requires i < n <= |qs|
    requires qs[i].id != ""
    ensures qs[i].id in NamedIds(qs, n)
  {
    if i < n - 1 {
      NamedIdsOf(qs, n - 1, i);
    }
  }

  /**
   * Every <binary> with a non-empty id gets a file name, and two binaries with
   * different ids never share one, whatever names the table held before.
   */
  lemma ImageNamesDistinct(root: Node, files0: map<string, string>)
    ensures var bins := SelectElements(root, "binary");
            var files := ImageNames(root, files0);
            && (forall i :: 0 <= i < |bins| && BinaryId(bins[i]) != "" ==> BinaryId(bins[i]) in files)
            && (forall i, j ::
                  (0 <= i < |bins| && 0 <= j < |bins| && BinaryId(bins[i]) != "" && BinaryId(bins[j]) != ""
                   && BinaryId(bins[i]) != BinaryId(bins[j]))
                  ==> files[BinaryId(bins[i])] != files[BinaryId(bins[j])])
  {
    var bins := SelectElements(root, "binary");
    var qs := Requests(bins);
    AssignedNamesDistinct(qs, |bins|, files0);
    forall i | 0 <= i < |bins| && BinaryId(bins[i]) != ""
      ensures BinaryId(bins[i]) in NamedIds(qs, |bins|)
    {
      RequestAt(bins, i);
      NamedIdsOf(qs, |bins|, i);
    }
  }

  /** The description's rendering, or nothing when the root has none. */
  function DescriptionPart(root: Node, level: nat, env: Env, order: seq<string>): Out {
    match SelectElement(root, "description")
    case Some(d) => DescriptionMd(d, level, env, order)
    case None => Out("", order)
  }

  /**
   * The rendering pass (converter.go:141-157): the description, then every
   * body that is not a notes body, then the appendix of the footnotes
   * referenced along the way.
   */
  function Rendered(root: Node, bodies: seq<Node>, level: nat, env: Env, order: seq<string>): Out {
    var desc := DescriptionPart(root, level, env, order);
    var main := MainBodies(bodies, level, |bodies|, env, desc.order);
    Out(desc.text + main.text + Appendix(main.order, env.notes), main.order)
  }

  /**
   * The collecting passes of Convert (converter.go:127-139): image names when
   * extraction is on, then the notes of the notes bodies; nothing is written.
   */
  function Collected(root: Node, s: State): (r: State)
    ensures r.output == s.output && r.level == s.level && r.extract == s.extract && r.dir == s.dir
    ensures s.notes.Keys <= r.notes.Keys
    ensures !s.extract ==> r.files == s.files
  {
    var files := if s.extract then ImageNames(root, s.files) else s.files;
    var bodies := SelectElements(root, "body");
    var st := CollectBodies(bodies, |bodies|, Env(map[], files, s.extract, s.dir), Notes(s.notes, s.order));
    s.(files := files, notes := st.table, order := st.order)
  }

  /**
   * The passes of Convert (converter.go:127-157) over the FictionBook root:
   * the collecting passes, then the rendering with the notes and image names
   * they gathered.
   */
  function Passes(root: Node, s: State): (r: State)
    ensures r.level == s.level && r.extract == s.extract && r.dir == s.dir
    ensures s.notes.Keys <= r.notes.Keys
    ensures !s.extract ==> r.files == s.files
    ensures HasPrefix(r.output, s.output)
  {
    var c := Collected(root, s);
    var r := Rendered(root, SelectElements(root, "body"), c.level, Env(c.notes, c.files, c.extract, c.dir), c.order);
    PrefixOfConcat(s.output, r.text);
    c.(output := c.output + r.text, order := r.order)
  }

  /**
   * With extraction on, every binary with an id is named and the names are
   * pairwise distinct in the state Convert leaves behind.
   */
  lemma PassesNameImages(root: Node, s: State)
    requires s.extract
    ensures var bins := SelectElements(root, "binary");
            var files := Passes(root, s).files;
            && (forall i :: 0 <= i < |bins| && BinaryId(bins[i]) != "" ==> BinaryId(bins[i]) in files)
            && (forall i, j ::
                  (0 <= i < |bins| && 0 <= j < |bins| && BinaryId(bins[i]) != "" && BinaryId(bins[j]) != ""
                   && BinaryId(bins[i]) != BinaryId(bins[j]))
                  ==> files[BinaryId(bins[i])] != files[BinaryId(bins[j])])
  {
    ImageNamesDistinct(root, s.files);
  }

  /**
   * With extraction on, the link processImage writes for "#id" of a <binary>
   * with that id points at the very file extractBinaryImages writes the
   * binary to: the name collected for it, under the images directory.
   */
  lemma ExtractedImageLinked(root: Node, s: State, i: nat)
    requires s.extract
    requires i < |SelectElements(root, "binary")|
    requires BinaryId(SelectElements(root, "binary")[i]) != ""
    ensures var b := SelectElements(root, "binary")[i];
            var id := BinaryId(b);
            var r := Passes(root, s);
            var env := Env(r.notes, r.files, r.extract, r.dir);
            && id in r.files && r.files[id] != ""
            && ExtractedName(id, ContentType(b), r.files) == r.files[id]
            && ImageRef("#" + id, env) == "![" + id + "](" + JoinPath(s.dir, ExtractedName(id, ContentType(b), r.files)) + ")"
  {
    var bins := SelectElements(root, "binary");
    var qs := Requests(bins);
    var id := BinaryId(bins[i]);
    RequestsAre(bins);
    forall k | 0 <= k < |qs| ensures qs[k].ext != "" {
      assert qs[k] == RequestOf(bins[k]);
    }
    assert qs[i] == RequestOf(bins[i]);
    NamedIdsOf(qs, |bins|, i);
    AssignedNamesNonEmpty(qs, |bins|, s.files, id);
    assert ("#" + id)[1..] == id;
  }
}
