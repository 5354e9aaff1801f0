/**
 * The two footnote passes: the table of note texts collected from the notes
 * bodies before rendering, the first-seen order in which the rendered text
 * refers to them, and the appendix written after the text.
 */
module Footnotes {
  import opened Text
  import opened Tree
  import opened Markdown

  /** The footnote table and the reference order, the two parts collection can change. */
  datatype Notes = Notes(table: map<string, string>, order: seq<string>)

  predicate NonEmptyValues(table: map<string, string>) {
    forall id :: id in table ==> table[id] != ""
  }

  /**
   * What collection promises: no note is ever removed, the order only grows
   * at its end, and the footnoteOrder invariant and the non-empty note texts
   * are kept.
   */
  predicate Extends(st: Notes, st': Notes) {
    && st.table.Keys <= st'.table.Keys
    && st.order <= st'.order
    && (OrderOk(st.order, st.table) ==> OrderOk(st'.order, st'.table))
    && (NonEmptyValues(st.table) ==> NonEmptyValues(st'.table))
  }

  /** A table with more notes keeps every well-formed order well-formed. */
  lemma OrderOkMoreNotes(order: seq<string>, t: map<string, string>, t': map<string, string>)
    requires t.Keys <= t'.Keys
    ensures OrderOk(order, t) ==> OrderOk(order, t')
  {
  }

  /** The environment rendering sees during collection: the table as collected so far. */
  function With(env: Env, table: map<string, string>): Env {
    env.(notes := table)
  }

  /** The text of a note under construction: pieces joined by one space, empty pieces skipped. */
  function AddPiece(acc: string, piece: string): (r: string)
    ensures piece == "" ==> r == acc
    ensures acc == "" ==> r == piece
    ensures acc != "" && piece != "" ==> r == acc + " " + piece
    ensures r == "" <==> acc == "" && piece == ""
  {
    if piece == "" then acc else if acc == "" then piece else acc + " " + piece
  }

  /** A note's text under construction, with the collection state it has reached. */
  datatype Draft = Draft(text: string, st: Notes)

  /** collectFootnotes (converter.go:171-209): every section child of e, in order. */
  function CollectFootnotes(e: Node, env: Env, st: Notes): (r: Notes)
    decreases e, 2, 0
    ensures Extends(st, r)
  {
    CollectIn(e, SelectElements(e, "section"), |SelectElements(e, "section")|, env, st)
  }

  function CollectIn(p: Node, secs: seq<Node>, n: nat, env: Env, st: Notes): (r: Notes)
    requires n <= |secs|
    requires forall x :: x in secs ==> x in p.children
    decreases p, 0, n
    ensures Extends(st, r)
  {
    if n == 0 then st
    else
      var a := CollectIn(p, secs, n - 1, env, st);
      assert secs[n - 1] in p.children;
      CollectSection(secs[n - 1], env, a)
  }

  /**
   * One section of a notes body: a section without id is a container and is
   * searched for sections; otherwise its text is stored under its id when not empty.
   */
  function CollectSection(s: Node, env: Env, st: Notes): (r: Notes)
    decreases s, 3, 0
    ensures Extends(st, r)
  {
    var id := SectionId(s);
    if id == "" then CollectFootnotes(s, env, st)
    else
      var d := NoteBody(s, |s.children|, env, st);
      if d.text == "" then d.st
      else
        OrderOkMoreNotes(d.st.order, d.st.table, d.st.table[id := d.text]);
        Notes(d.st.table[id := d.text], d.st.order)
  }

  /**
   * The text of a note over its first n children: titles are skipped,
   * paragraphs rendered as inline Markdown, nested sections searched for
   * notes of their own, anything else flattened.
   */
  function NoteBody(s: Node, n: nat, env: Env, st: Notes): (r: Draft)
    requires n <= |s.children|
    decreases s, 1, n
    ensures Extends(st, r.st)
  {
    if n == 0 then Draft("", st)
    else
      var a := NoteBody(s, n - 1, env, st);
      var x := s.children[n - 1];
      match x.tag
      case "title" => a
      case "p" =>
        var o := InlineMd(x, With(env, a.st.table), a.st.order);
        InlineMdGrows(x, With(env, a.st.table), a.st.order);
        Draft(AddPiece(a.text, o.text), Notes(a.st.table, o.order))
      case "section" => Draft(a.text, CollectFootnotes(x, env, a.st))
      case _ => Draft(AddPiece(a.text, AllText(x)), a.st)
  }

  /** Convert's first pass (converter.go:133-139): every notes body of the root, in order. */
  function CollectBodies(bodies: seq<Node>, n: nat, env: Env, st: Notes): (r: Notes)
    requires n <= |bodies|
    ensures Extends(st, r)
  {
    if n == 0 then st
    else
      var a := CollectBodies(bodies, n - 1, env, st);
      if IsNotesBody(bodies[n - 1]) then CollectFootnotes(bodies[n - 1], env, a) else a
  }

  // ---------------------------------------------------------------------
  // Which notes collection stores
  // ---------------------------------------------------------------------

  /** The id of a section, "" when it has none. */
  function SectionId(s: Node): string {
    AttrValue(s, "", "id", "")
  }

  /**
   * The ids of the labelled sections collection reaches from e: its section
   * children, the sections inside id-less ones, and the sections nested in
   * labelled ones.
   */
  function NoteIds(e: Node): set<string>
    decreases e, 2, 0
  {
    IdsIn(e, SelectElements(e, "section"), |SelectElements(e, "section")|)
  }

  function IdsIn(p: Node, secs: seq<Node>, n: nat): set<string>
    requires n <= |secs|
    requires forall x :: x in secs ==> x in p.children
    decreases p, 0, n
  {
    if n == 0 then {}
    else
      assert secs[n - 1] in p.children;
      IdsIn(p, secs, n - 1) + SectionIds(secs[n - 1])
  }

  function SectionIds(s: Node): set<string>
    decreases s, 3, 0
  {
    if SectionId(s) == "" then NoteIds(s) else {SectionId(s)} + NestedIds(s, |s.children|)
  }

  function NestedIds(s: Node, n: nat): set<string>
    requires n <= |s.children|
    decreases s, 1, n
  {
    if n == 0 then {}
    else
      var x := s.children[n - 1];
      NestedIds(s, n - 1) + (if x.tag == "section" then NoteIds(x) else {})
  }

  /** collectFootnotes stores notes only under the ids of the labelled sections it reaches. */
  lemma {:induction false} CollectFootnotesKeys(e: Node, env: Env, st: Notes)
    decreases e, 2, 0
    ensures CollectFootnotes(e, env, st).table.Keys <= st.table.Keys + NoteIds(e)
  {
    var secs := SelectElements(e, "section");
    CollectInKeys(e, secs, |secs|, env, st);
  }

  lemma {:induction false} CollectInKeys(p: Node, secs: seq<Node>, n: nat, env: Env, st: Notes)
    requires n <= |secs|
    requires forall x :: x in secs ==> x in p.children
    decreases p, 0, n
    ensures CollectIn(p, secs, n, env, st).table.Keys <= st.table.Keys + IdsIn(p, secs, n)
  {
    if n > 0 {
      CollectInKeys(p, secs, n - 1, env, st);
      assert secs[n - 1] in p.children;
      CollectSectionKeys(secs[n - 1], env, CollectIn(p, secs, n - 1, env, st));
    }
  }

  lemma {:induction false} CollectSectionKeys(s: Node, env: Env, st: Notes)
    decreases s, 3, 0
    ensures CollectSection(s, env, st).table.Keys <= st.table.Keys + SectionIds(s)
  {
    if SectionId(s) == "" {
      CollectFootnotesKeys(s, env, st);
    } else {
      NoteBodyKeys(s, |s.children|, env, st);
    }
  }

  lemma {:induction false} NoteBodyKeys(s: Node, n: nat, env: Env, st: Notes)
    requires n <= |s.children|
    decreases s, 1, n
    ensures NoteBody(s, n, env, st).st.table.Keys <= st.table.Keys + NestedIds(s, n)
  {
    if n > 0 {
      NoteBodyKeys(s, n - 1, env, st);
      var x := s.children[n - 1];
      if x.tag == "section" {
        CollectFootnotesKeys(x, env, NoteBody(s, n - 1, env, st).st);
      }
    }
  }

  /**
   * A labelled section stores its text under its id when the text is not
   * empty, replacing any earlier note of that id and leaving every other note
   * as its own nested sections left it; an empty text stores nothing.
   */
  lemma CollectSectionStores(s: Node, env: Env, st: Notes)
    requires SectionId(s) != ""
    ensures var d := NoteBody(s, |s.children|, env, st);
            var r := CollectSection(s, env, st);
            && r.order == d.st.order
            && (d.text == "" ==> r.table == d.st.table)
            && (d.text != "" ==> SectionId(s) in r.table && r.table[SectionId(s)] == d.text)
            && (forall k :: k in d.st.table && k != SectionId(s) ==> k in r.table && r.table[k] == d.st.table[k])
  {
  }

  /** One more section never removes a note. */
  lemma CollectInStepKeeps(p: Node, secs: seq<Node>, n: nat, env: Env, st: Notes, k: string)
    requires 0 < n <= |secs|
    requires forall x :: x in secs ==> x in p.children
    requires k in CollectIn(p, secs, n - 1, env, st).table
    ensures k in CollectIn(p, secs, n, env, st).table
  {
    assert secs[n - 1] in p.children;
    var a := CollectIn(p, secs, n - 1, env, st);
    assert Extends(a, CollectSection(secs[n - 1], env, a));
  }

  /**
   * Every labelled section of the run whose text, at the moment it is
   * collected, is not empty leaves a note under its id.
   */
  lemma CollectInStoresAt(p: Node, secs: seq<Node>, i: nat, env: Env, st: Notes)
    requires i < |secs|
    requires forall x :: x in secs ==> x in p.children
    requires SectionId(secs[i]) != ""
    requires NoteBody(secs[i], |secs[i].children|, env, CollectIn(p, secs, i, env, st)).text != ""
    ensures SectionId(secs[i]) in CollectIn(p, secs, i + 1, env, st).table
  {
    assert secs[i] in p.children;
    var a := CollectIn(p, secs, i, env, st);
    assert CollectIn(p, secs, i + 1, env, st) == CollectSection(secs[i], env, a);
    CollectSectionStores(secs[i], env, a);
  }

  lemma CollectInStores(p: Node, secs: seq<Node>, i: nat, n: nat, env: Env, st: Notes)
    requires i < n <= |secs|
    requires forall x :: x in secs ==> x in p.children
    requires SectionId(secs[i]) != ""
    requires NoteBody(secs[i], |secs[i].children|, env, CollectIn(p, secs, i, env, st)).text != ""
    ensures SectionId(secs[i]) in CollectIn(p, secs, n, env, st).table
  {
    var k := SectionId(secs[i]);
    CollectInStoresAt(p, secs, i, env, st);
    var j := i + 1;
    while j < n
      invariant i < j <= n
      invariant k in CollectIn(p, secs, j, env, st).table
    {
      CollectInStepKeeps(p, secs, j + 1, env, st, k);
      j := j + 1;
    }
  }

  /** Convert's first pass stores notes only under ids of labelled sections of notes bodies. */
  function BodiesIds(bodies: seq<Node>, n: nat): set<string>
    requires n <= |bodies|
  {
    if n == 0 then {}
    else BodiesIds(bodies, n - 1) + (if IsNotesBody(bodies[n - 1]) then NoteIds(bodies[n - 1]) else {})
  }

  lemma {:induction false} CollectBodiesKeys(bodies: seq<Node>, n: nat, env: Env, st: Notes)
    requires n <= |bodies|
    ensures CollectBodies(bodies, n, env, st).table.Keys <= st.table.Keys + BodiesIds(bodies, n)
  {
    if n > 0 {
      CollectBodiesKeys(bodies, n - 1, env, st);
      if IsNotesBody(bodies[n - 1]) {
        CollectFootnotesKeys(bodies[n - 1], env, CollectBodies(bodies, n - 1, env, st));
      }
    }
  }

  // ---------------------------------------------------------------------
  // writeFootnotes
  // ---------------------------------------------------------------------

  /** The Markdown footnote definition of a note. */
  function Line(id: string, text: string): string {
    "[^" + id + "]: " + text + "\n\n"
  }

  /** One definition line, or nothing for an id without a note. */
  function Definition(id: string, notes: map<string, string>): string {
    if id in notes then Line(id, notes[id]) else ""
  }

  /** The definitions for the ids of order, in that order. */
  function Definitions(order: seq<string>, notes: map<string, string>): string {
    if order == [] then "" else Definitions(order[..|order| - 1], notes) + Definition(order[|order| - 1], notes)
  }

  /** The definitions of one more id of the order append that id's line. */
  lemma DefinitionsSnoc(order: seq<string>, i: nat, notes: map<string, string>)
    requires i < |order|
    ensures Definitions(order[..i + 1], notes) == Definitions(order[..i], notes) + Definition(order[i], notes)
  {
    assert order[..i + 1][..i] == order[..i];
  }

  /** writeFootnotes (converter.go:212-222). */
  function Appendix(order: seq<string>, notes: map<string, string>): (r: string)
    ensures r == "" <==> order == []
    ensures order != [] ==> HasPrefix(r, "\n---\n\n")
  {
    if |order| == 0 then ""
    else
      var r := "\n---\n\n" + Definitions(order, notes);
      assert r[..5] == "\n---\n\n"[..5];
      r
  }

  /** Notes that are never referenced do not show: only the referenced ids' texts matter. */
  lemma {:induction false} DefinitionsIgnoreUnreferenced(order: seq<string>, n1: map<string, string>, n2: map<string, string>)
    requires forall i :: 0 <= i < |order| ==> (order[i] in n1 <==> order[i] in n2)
    requires forall i :: 0 <= i < |order| && order[i] in n1 ==> n1[order[i]] == n2[order[i]]
    ensures Definitions(order, n1) == Definitions(order, n2)
  {
    if order != [] {
      var pre := order[..|order| - 1];
      assert forall i :: 0 <= i < |pre| ==> pre[i] == order[i];
      DefinitionsIgnoreUnreferenced(pre, n1, n2);
      assert Definition(order[|order| - 1], n1) == Definition(order[|order| - 1], n2);
    }
  }

  lemma AppendixIgnoresUnreferenced(order: seq<string>, n1: map<string, string>, n2: map<string, string>)
    requires forall i :: 0 <= i < |order| ==> (order[i] in n1 <==> order[i] in n2)
    requires forall i :: 0 <= i < |order| && order[i] in n1 ==> n1[order[i]] == n2[order[i]]
    ensures Appendix(order, n1) == Appendix(order, n2)
  {
    DefinitionsIgnoreUnreferenced(order, n1, n2);
  }

  /** The definition lines of ids that all have notes. */
  function Lines(ids: seq<string>, notes: map<string, string>): string
    requires forall i :: 0 <= i < |ids| ==> ids[i] in notes
  {
    if ids == [] then ""
    else Lines(ids[..|ids| - 1], notes) + Line(ids[|ids| - 1], notes[ids[|ids| - 1]])
  }

  /** When every referenced id has a note (as OrderOk guarantees), each id gets its line, in order. */
  lemma {:induction false} DefinitionsOneLineEach(ids: seq<string>, notes: map<string, string>)
    requires forall i :: 0 <= i < |ids| ==> ids[i] in notes
    ensures Definitions(ids, notes) == Lines(ids, notes)
  {
    if ids != [] {
      var pre := ids[..|ids| - 1];
      assert forall i :: 0 <= i < |pre| ==> pre[i] == ids[i];
      DefinitionsOneLineEach(pre, notes);
    }
  }

  /**
   * Under the footnoteOrder invariant the appendix is the rule followed by
   * exactly one definition per referenced id, in reference order.
   */
  lemma AppendixOfWellFormedOrder(order: seq<string>, notes: map<string, string>)
    requires OrderOk(order, notes)
    ensures forall i :: 0 <= i < |order| ==> order[i] in notes
    ensures Appendix(order, notes) == if order == [] then "" else "\n---\n\n" + Lines(order, notes)
  {
    OrderOkMeans(order, notes);
    DefinitionsOneLineEach(order, notes);
  }

  // ---------------------------------------------------------------------
  // First-seen order
  // ---------------------------------------------------------------------

  /** The order after note references to ids, one processLink call each. */
  function RecordAll(order: seq<string>, ids: seq<string>): seq<string> {
    if ids == [] then order else Record(RecordAll(order, ids[..|ids| - 1]), ids[|ids| - 1])
  }

  /** The position of the first occurrence of x in s. */
  function FirstIndex(s: seq<string>, x: string): (i: nat)
    requires x in s
    ensures i < |s| && s[i] == x
    ensures forall j :: 0 <= j < i ==> s[j] != x
  {
    if s[0] == x then 0 else 1 + FirstIndex(s[1..], x)
  }

  /** Starting from no references, the order holds exactly the referenced ids, each once. */
  lemma {:induction false} RecordAllSet(ids: seq<string>)
    ensures NoDup(RecordAll([], ids))
    ensures forall x :: x in RecordAll([], ids) <==> x in ids
  {
    if ids != [] {
      var pre := ids[..|ids| - 1];
      var last := ids[|ids| - 1];
      RecordAllSet(pre);
      assert ids == pre + [last];
      var r0 := RecordAll([], pre);
      assert RecordAll([], ids) == Record(r0, last);
    }
  }

  /** r lists ids of ids by increasing position of their first occurrence. */
  predicate FirstSeenOrder(r: seq<string>, ids: seq<string>) {
    forall i, j :: 0 <= i < j < |r| ==>
      r[i] in ids && r[j] in ids && FirstIndex(ids, r[i]) < FirstIndex(ids, r[j])
  }

  /**
   * Starting from no references, the order lists every referenced id exactly
   * once, in the order of the ids' first references.
   */
  lemma {:induction false} RecordAllFirstSeen(ids: seq<string>)
    ensures NoDup(RecordAll([], ids))
    ensures forall x :: x in RecordAll([], ids) <==> x in ids
    ensures FirstSeenOrder(RecordAll([], ids), ids)
  {
    RecordAllSet(ids);
    if ids != [] {
      var pre := ids[..|ids| - 1];
      var last := ids[|ids| - 1];
      assert ids == pre + [last];
      RecordAllFirstSeen(pre);
      assert RecordAll([], ids) == Record(RecordAll([], pre), last);
      FirstSeenStep(RecordAll([], pre), pre, last);
    }
  }

  /** One more reference keeps an order that holds exactly the ids seen so far in first-seen order. */
  lemma FirstSeenStep(r0: seq<string>, pre: seq<string>, last: string)
    requires forall x :: x in r0 <==> x in pre
    requires FirstSeenOrder(r0, pre)
    ensures FirstSeenOrder(Record(r0, last), pre + [last])
  {
    var ids := pre + [last];
    var r := Record(r0, last);
    forall x | x in pre ensures x in ids && FirstIndex(ids, x) == FirstIndex(pre, x) {
      FirstIndexPrefix(pre, last, x);
    }
    if last !in r0 {
      FirstIndexLast(pre, last);
      forall i, j | 0 <= i < j < |r|
        ensures r[i] in ids && r[j] in ids && FirstIndex(ids, r[i]) < FirstIndex(ids, r[j])
      {
        assert r[i] == r0[i];
        if j < |r0| {
          assert r[j] == r0[j];
        }
      }
    }
  }

  lemma {:induction false} FirstIndexPrefix(pre: seq<string>, last: string, x: string)
    requires x in pre
    ensures x in pre + [last] && FirstIndex(pre + [last], x) == FirstIndex(pre, x)
  {
    if pre[0] != x {
      assert (pre + [last])[1..] == pre[1..] + [last];
      FirstIndexPrefix(pre[1..], last, x);
    }
  }

  lemma FirstIndexLast(pre: seq<string>, last: string)
    requires last !in pre
    ensures FirstIndex(pre + [last], last) == |pre|
  {
    assert forall j :: 0 <= j < |pre| ==> (pre + [last])[j] == pre[j];
    assert (pre + [last])[|pre|] == last;
  }
}
