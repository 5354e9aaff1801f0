/**
 * The parsed FB2 document as an immutable tree, standing in for the etree
 * elements the converter walks: a tag, attributes, own text, tail text and
 * ordered child elements.
 */
module Tree {
  import opened Text

  datatype Option<+T> = None | Some(value: T)

  /** An attribute as etree keeps it: namespace prefix, local key, value. */
  datatype Attr = Attr(space: string, key: string, value: string)

  /**
   * An element. `text` is the character data before the first child,
   * `tail` the character data that follows the element inside its parent.
   */
  datatype Node = Node(tag: string, attrs: seq<Attr>, text: string, tail: string, children: seq<Node>)

  /** Index of the first ':' in s at or after i, or |s| when there is none. */
  function ColonFrom(s: string, i: nat): (r: nat)
    requires i <= |s|
    decreases |s| - i
    ensures i <= r <= |s|
    ensures forall k :: i <= k < r ==> s[k] != ':'
    ensures r < |s| ==> s[r] == ':'
  {
    if i == |s| then |s| else if s[i] == ':' then i else ColonFrom(s, i + 1)
  }

  /** Index of the first ':' in a qualified name, or |s| when there is none. */
  function ColonAt(s: string): (i: nat)
    ensures i <= |s|
    ensures forall k :: 0 <= k < i ==> s[k] != ':'
    ensures i < |s| ==> s[i] == ':'
  {
    ColonFrom(s, 0)
  }

  /** Whether an attribute has prefix `space` (any prefix when empty) and local name `key`. */
  predicate Matches(a: Attr, space: string, key: string) {
    (space == "" || space == a.space) && a.key == key
  }

  /** The first attribute of attrs[i..] that matches. */
  function FindFrom(attrs: seq<Attr>, i: nat, space: string, key: string): (r: Option<string>)
    requires i <= |attrs|
    decreases |attrs| - i
    ensures r.Some? <==> exists k :: i <= k < |attrs| && Matches(attrs[k], space, key)
    ensures r.Some? ==> exists k :: i <= k < |attrs| && Matches(attrs[k], space, key) && attrs[k].value == r.value
                                    && forall j :: i <= j < k ==> !Matches(attrs[j], space, key)
  {
    if i == |attrs| then None
    else if Matches(attrs[i], space, key) then Some(attrs[i].value)
    else FindFrom(attrs, i + 1, space, key)
  }

  /** The first attribute matching prefix `space` (any prefix when empty) and `key`. */
  function FindAttr(attrs: seq<Attr>, space: string, key: string): (r: Option<string>)
    ensures r.Some? <==> exists i :: 0 <= i < |attrs| && Matches(attrs[i], space, key)
    ensures r.Some? ==> exists i :: 0 <= i < |attrs| && Matches(attrs[i], space, key) && attrs[i].value == r.value
                                    && forall j :: 0 <= j < i ==> !Matches(attrs[j], space, key)
  {
    FindFrom(attrs, 0, space, key)
  }

  /** An attribute name as etree reads it: the prefix before the first ':' and the local key after it. */
  datatype QName = QName(space: string, key: string)

  function SplitName(name: string): (q: QName)
    ensures ColonAt(name) == |name| ==> q == QName("", name)
    ensures ColonAt(name) < |name| ==> name == q.space + ":" + q.key
  {
    var c := ColonAt(name);
    if c < |name| then
      var q := QName(name[..c], name[c + 1..]);
      assert name == name[..c] + [name[c]] + name[c + 1..];
      q
    else QName("", name)
  }

  /**
   * etree's SelectAttrValue(name, dflt) for the name split into `space` and
   * `key`: the value of the first matching attribute, dflt when none matches.
   */
  function AttrValue(e: Node, space: string, key: string, dflt: string): string
  {
    match FindAttr(e.attrs, space, key)
    case Some(v) => v
    case None => dflt
  }

  /** The `l:href` attribute, else the `href` attribute, as links and images read it. */
  function Href(e: Node): string {
    var h := AttrValue(e, "l", "href", "");
    if h == "" then AttrValue(e, "", "href", "") else h
  }

  /** The children with a given tag, in document order (SelectElements). */
  function Filter(cs: seq<Node>, tag: string): (r: seq<Node>)
    ensures |r| <= |cs|
    ensures forall x :: x in r ==> x in cs && x.tag == tag
    ensures forall x :: x in cs && x.tag == tag ==> x in r
  {
    if cs == [] then []
    else Filter(cs[..|cs| - 1], tag) + (if cs[|cs| - 1].tag == tag then [cs[|cs| - 1]] else [])
  }

  function SelectElements(e: Node, tag: string): (r: seq<Node>)
    ensures forall x :: x in r ==> x in e.children && x.tag == tag
  {
    Filter(e.children, tag)
  }

  /** The first child with a given tag (SelectElement). */
  function SelectElement(e: Node, tag: string): (r: Option<Node>)
    ensures r.Some? ==> r.value in e.children && r.value.tag == tag
    ensures r.None? ==> forall x :: x in e.children ==> x.tag != tag
  {
    var all := SelectElements(e, tag);
    if |all| == 0 then None else Some(all[0])
  }

  /** Filtering keeps document order: filtering a concatenation concatenates the filtered parts. */
  lemma {:induction false} FilterAppend(a: seq<Node>, b: seq<Node>, tag: string)
    ensures Filter(a + b, tag) == Filter(a, tag) + Filter(b, tag)
    decreases |b|
  {
    if b != [] {
      var b' := b[..|b| - 1];
      assert (a + b)[..|a + b| - 1] == a + b';
      FilterAppend(a, b', tag);
    } else {
      assert a + b == a;
    }
  }

  /** The first element Filter keeps is the first element of cs with the tag. */
  lemma {:induction false} FilterFirst(cs: seq<Node>, tag: string)
    requires Filter(cs, tag) != []
    ensures exists i :: 0 <= i < |cs| && cs[i] == Filter(cs, tag)[0]
                        && forall j :: 0 <= j < i ==> cs[j].tag != tag
  {
    var n := |cs| - 1;
    var init := cs[..n];
    if Filter(init, tag) != [] {
      FilterFirst(init, tag);
      var i :| 0 <= i < |init| && init[i] == Filter(init, tag)[0]
                && forall j :: 0 <= j < i ==> init[j].tag != tag;
      assert Filter(cs, tag) == Filter(init, tag) + (if cs[n].tag == tag then [cs[n]] else []);
      assert cs[i] == init[i];
      assert forall j :: 0 <= j < i ==> cs[j] == init[j];
    } else {
      FilterFirstLast(cs, tag);
    }
  }

  /** When no element before the last has the tag, the last one is the first Filter keeps. */
  lemma FilterFirstLast(cs: seq<Node>, tag: string)
    requires Filter(cs, tag) != [] && Filter(cs[..|cs| - 1], tag) == []
    ensures cs[|cs| - 1] == Filter(cs, tag)[0]
    ensures forall j :: 0 <= j < |cs| - 1 ==> cs[j].tag != tag
  {
    var init := cs[..|cs| - 1];
    forall j | 0 <= j < |cs| - 1
      ensures cs[j].tag != tag
    {
      assert cs[j] == init[j] && init[j] in init;
    }
  }

  /** SelectElement returns the first child with the tag. */
  lemma SelectElementFirst(e: Node, tag: string)
    ensures SelectElement(e, tag).Some? ==>
              exists i :: 0 <= i < |e.children| && e.children[i] == SelectElement(e, tag).value
                          && forall j :: 0 <= j < i ==> e.children[j].tag != tag
  {
    if SelectElement(e, tag).Some? {
      FilterFirst(e.children, tag);
    }
  }

  /**
   * extractAllText: the element's own text, then for every child its flattened
   * text followed by its tail, with surrounding space trimmed at every level.
   */
  function AllText(e: Node): string
    decreases e, 1, 0
  {
    TrimSpace(RawText(e, |e.children|))
  }

  /** extractAllText never starts or ends with a space. */
  lemma AllTextTrimmed(e: Node)
    ensures Trimmed(AllText(e))
  {
  }

  /** The untrimmed concatenation over the first n children. */
  function RawText(e: Node, n: nat): string
    requires n <= |e.children|
    decreases e, 0, n
  {
    if n == 0 then e.text
    else RawText(e, n - 1) + AllText(e.children[n - 1]) + e.children[n - 1].tail
  }

  predicate AllSpace(s: string) {
    forall i :: 0 <= i < |s| ==> IsSpace(s[i])
  }

  /** A subtree carries no visible text: every text and tail in it is space. */
  predicate Blank(e: Node)
    decreases e, 1, 0
  {
    AllSpace(e.text) && BlankUpTo(e, |e.children|)
  }

  predicate BlankUpTo(e: Node, n: nat)
    requires n <= |e.children|
    decreases e, 0, n
  {
    n == 0 || (BlankUpTo(e, n - 1) && Blank(e.children[n - 1]) && AllSpace(e.children[n - 1].tail))
  }

  lemma TrimSpaceEmptyIff(s: string)
    ensures TrimSpace(s) == "" <==> AllSpace(s)
  {
    var i := SkipSpace(s, 0);
    var l := s[i..];
    if TrimSpace(s) == "" {
      forall k | 0 <= k < |s|
        ensures IsSpace(s[k])
      {
        if k < i {
          SkipSpaceSkipsSpaces(s, 0, k);
        } else {
          assert s[k] == l[k - i];
          EndSpaceDropsSpaces(l, |l|, k - i);
        }
      }
    }
  }

  lemma AllSpaceAppend(a: string, b: string)
    ensures AllSpace(a + b) <==> AllSpace(a) && AllSpace(b)
  {
    assert forall i :: 0 <= i < |a| ==> a[i] == (a + b)[i];
    assert forall i :: 0 <= i < |b| ==> b[i] == (a + b)[|a| + i];
  }

  /** extractAllText yields "" exactly when the subtree has no visible text. */
  lemma {:induction false} AllTextEmptyIff(e: Node)
    decreases e, 1, 0
    ensures AllText(e) == "" <==> Blank(e)
  {
    RawTextSpaceIff(e, |e.children|);
    TrimSpaceEmptyIff(RawText(e, |e.children|));
  }

  lemma {:induction false} RawTextSpaceIff(e: Node, n: nat)
    requires n <= |e.children|
    decreases e, 0, n
    ensures AllSpace(RawText(e, n)) <==> AllSpace(e.text) && BlankUpTo(e, n)
  {
    if n > 0 {
      var c := e.children[n - 1];
      RawTextSpaceIff(e, n - 1);
      AllTextEmptyIff(c);
      TrimSpaceEmptyIff(RawText(c, |c.children|));
      AllSpaceAppend(RawText(e, n - 1) + AllText(c), c.tail);
      AllSpaceAppend(RawText(e, n - 1), AllText(c));
    }
  }
}
