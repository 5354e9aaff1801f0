/**
 * Binary assets: the whitespace stripping done before base64 decoding, the
 * filesystem-safe form of an asset identifier, and the collision-free output
 * names given to every <binary> before rendering starts.
 */
module Assets {
  import opened Text
  import opened Tree

  // ---------------------------------------------------------------------
  // stripBase64Whitespace
  // ---------------------------------------------------------------------

  predicate IsB64Space(c: char) {
    c == ' ' || c == '\n' || c == '\r' || c == '\t'
  }

  /** The input with every ' ', '\n', '\r' and '\t' dropped, the rest in order. */
  function Unspaced(s: string): (r: string)
    ensures |r| <= |s|
  {
    if s == [] then "" else Unspaced(s[..|s| - 1]) + (if IsB64Space(s[|s| - 1]) then "" else [s[|s| - 1]])
  }

  /** The result holds none of the four whitespace characters. */
  lemma {:induction false} UnspacedHasNoSpace(s: string)
    ensures forall i :: 0 <= i < |Unspaced(s)| ==> !IsB64Space(Unspaced(s)[i])
  {
    if s != [] {
      UnspacedHasNoSpace(s[..|s| - 1]);
    }
  }

  /** Stripping works piecewise: what is kept of a + b is what is kept of a, then of b. */
  lemma {:induction false} UnspacedAppend(a: string, b: string)
    ensures Unspaced(a + b) == Unspaced(a) + Unspaced(b)
    decreases |b|
  {
    if b == [] {
      assert a + b == a;
    } else {
      var b' := b[..|b| - 1];
      assert (a + b)[..|a + b| - 1] == a + b';
      UnspacedAppend(a, b');
    }
  }

  /** Every character other than the four is kept: a clean input comes back unchanged. */
  lemma {:induction false} UnspacedKeepsClean(s: string)
    requires forall i :: 0 <= i < |s| ==> !IsB64Space(s[i])
    ensures Unspaced(s) == s
  {
    if s != [] {
      UnspacedKeepsClean(s[..|s| - 1]);
    }
  }

  /** stripBase64Whitespace (converter.go:29-44). */
  method StripBase64Whitespace(s: string) returns (r: string)
    ensures r == Unspaced(s)
    ensures forall i :: 0 <= i < |r| ==> !IsB64Space(r[i])
  {
    if s == "" {
      return "";
    }
    var out := "";
    for i := 0 to |s|
      invariant out == Unspaced(s[..i])
    {
      assert s[..i + 1][..i] == s[..i];
      if IsB64Space(s[i]) {
        continue;
      }
      out := out + [s[i]];
    }
    assert s[..|s|] == s;
    UnspacedHasNoSpace(s);
    r := out;
  }

  // ---------------------------------------------------------------------
  // sanitizeFilename
  // ---------------------------------------------------------------------

  predicate IsSafeChar(c: char) {
    ('a' <= c <= 'z') || ('A' <= c <= 'Z') || ('0' <= c <= '9') || c == '.' || c == '_' || c == '-'
  }

  /** The characters strings.Trim removes from both ends of a sanitized name. */
  const Separators: set<char> := {'.', '_', '-'}

  /** A usable file name: safe characters only, no separator at either end, not "." or "..". */
  predicate SafeName(r: string) {
    && r != ""
    && (forall i :: 0 <= i < |r| ==> IsSafeChar(r[i]))
    && r[0] !in Separators && r[|r| - 1] !in Separators
    && r != "." && r != ".."
  }

  function SafeChar(c: char): char {
    if IsSafeChar(c) then c else '_'
  }

  /** Every character outside [A-Za-z0-9._-] replaced by '_'. */
  function MapSafe(s: string): (r: string)
    ensures |r| == |s|
    ensures forall i :: 0 <= i < |r| ==> IsSafeChar(r[i])
  {
    if s == [] then "" else MapSafe(s[..|s| - 1]) + [SafeChar(s[|s| - 1])]
  }

  lemma {:induction false} MapSafeKeepsSafe(s: string)
    requires forall i :: 0 <= i < |s| ==> IsSafeChar(s[i])
    ensures MapSafe(s) == s
  {
    if s != [] {
      MapSafeKeepsSafe(s[..|s| - 1]);
    }
  }

  function DropTrailingSlashes(p: string): (r: string)
    ensures |r| <= |p| && r == p[..|r|]
    ensures r == [] || r[|r| - 1] != '/'
  {
    if |p| > 0 && p[|p| - 1] == '/' then DropTrailingSlashes(p[..|p| - 1]) else p
  }

  /** Index just past the last '/', or 0 when there is none. */
  function AfterLastSlash(p: string): (i: nat)
    ensures i <= |p|
    ensures forall k :: i <= k < |p| ==> p[k] != '/'
    ensures i > 0 ==> p[i - 1] == '/'
  {
    if p == [] then 0 else if p[|p| - 1] == '/' then |p| else AfterLastSlash(p[..|p| - 1])
  }

  /** path.Base: the last element, trailing slashes ignored; "." for "" and "/" for only slashes. */
  function PathBase(p: string): (r: string)
    ensures r != ""
  {
    if p == "" then "."
    else
      var q := DropTrailingSlashes(p);
      var last := q[AfterLastSlash(q)..];
      if last == "" then "/" else last
  }

  predicate AllSafe(s: string) {
    forall i :: 0 <= i < |s| ==> IsSafeChar(s[i])
  }

  lemma TrimCutsetKeepsSafe(s: string, cut: set<char>)
    requires AllSafe(s)
    ensures AllSafe(TrimCutset(s, cut))
  {
  }

  /** sanitizeFilename (converter.go:46-78) as a specification. */
  function Sanitized(name: string): (r: string)
    ensures r == "" || SafeName(r)
  {
    var t := TrimSpace(name);
    if t == "" then ""
    else
      var b := MapSafe(PathBase(ReplaceChar(t, '\\', '/')));
      var out := TrimCutset(b, Separators);
      TrimCutsetKeepsSafe(b, Separators);
      if out == "" || out == "." || out == ".." then "" else out
  }

  /** A safe name has no space at either end. */
  lemma SafeNameTrimmed(r: string)
    requires SafeName(r)
    ensures TrimSpace(r) == r
  {
    assert IsSafeChar(r[0]) && IsSafeChar(r[|r| - 1]);
    TrimSpaceOfTrimmed(r);
  }

  /** A safe name holds neither separator, so path.Base keeps all of it. */
  lemma SafeNameIsBase(r: string)
    requires SafeName(r)
    ensures ReplaceChar(r, '\\', '/') == r
    ensures PathBase(r) == r
  {
    assert forall i :: 0 <= i < |r| ==> IsSafeChar(r[i]);
    assert r[|r| - 1] != '/';
    assert DropTrailingSlashes(r) == r;
  }

  /** A safe name has no separator at either end, so strings.Trim keeps it. */
  lemma SafeNameUntrimmed(r: string)
    requires SafeName(r)
    ensures TrimCutset(r, Separators) == r
  {
    assert SkipCut(r, Separators, 0) == 0;
    assert EndCut(r, Separators, |r|) == |r|;
  }

  /** A sanitized name is left as it is by a second sanitization. */
  lemma SanitizedIdempotent(name: string)
    ensures Sanitized(Sanitized(name)) == Sanitized(name)
  {
    var r := Sanitized(name);
    if r != "" {
      SafeNameTrimmed(r);
      SafeNameIsBase(r);
      MapSafeKeepsSafe(r);
      SafeNameUntrimmed(r);
    }
  }

  /** sanitizeFilename (converter.go:46-78); the character loop is the one over runes. */
  method SanitizeFilename(name: string) returns (r: string)
    ensures r == Sanitized(name)
    ensures r == "" || SafeName(r)
  {
    var t := TrimSpace(name);
    if t == "" {
      return "";
    }
    var base := PathBase(ReplaceChar(t, '\\', '/'));
    var b := "";
    for i := 0 to |base|
      invariant b == MapSafe(base[..i])
    {
      assert base[..i + 1][..i] == base[..i];
      if IsSafeChar(base[i]) {
        b := b + [base[i]];
      } else {
        b := b + ['_'];
      }
    }
    assert base[..|base|] == base;
    var out := TrimCutset(b, Separators);
    if out == "" || out == "." || out == ".." {
      return "";
    }
    r := out;
  }

  // ---------------------------------------------------------------------
  // collectBinaryImageFilenames
  // ---------------------------------------------------------------------

  /** The extension chosen from the declared content type. */
  function ExtFor(contentType: string): (ext: string)
    ensures ext == ".png" || ext == ".gif" || ext == ".jpg"
    ensures Contains(contentType, "png") ==> ext == ".png"
    ensures !Contains(contentType, "png") && Contains(contentType, "gif") ==> ext == ".gif"
    ensures !Contains(contentType, "png") && !Contains(contentType, "gif") ==> ext == ".jpg"
  {
    if Contains(contentType, "png") then ".png" else if Contains(contentType, "gif") then ".gif" else ".jpg"
  }

  /** The sanitized identifier, or "image" when nothing usable is left. */
  function BaseFor(id: string): (base: string)
    ensures base != ""
    ensures Sanitized(id) != "" ==> base == Sanitized(id)
    ensures Sanitized(id) == "" ==> base == "image"
  {
    var b := Sanitized(id);
    if b == "" then "image" else b
  }

  /** The name tried first: the base with the extension appended unless it already ends with it. */
  function FirstChoice(base: string, ext: string): string {
    if HasSuffix(ToLowerAscii(base), ext) then base else base + ext
  }

  /** The n-th alternative, fmt.Sprintf("%s_%d%s", base, n, ext). */
  function Alt(base: string, n: nat, ext: string): string {
    base + "_" + Itoa(n) + ext
  }

  /** Different numbers give different alternatives. */
  lemma AltInjective(base: string, ext: string, a: nat, b: nat)
    requires Alt(base, a, ext) == Alt(base, b, ext)
    ensures a == b
  {
    var x, y := Alt(base, a, ext), Alt(base, b, ext);
    assert |Itoa(a)| == |Itoa(b)|;
    assert Itoa(a) == x[|base| + 1..|base| + 1 + |Itoa(a)|];
    assert Itoa(b) == y[|base| + 1..|base| + 1 + |Itoa(b)|];
    ItoaInjective(a, b);
  }

  /** The alternatives tried before the n-th one. */
  function AltsBelow(base: string, ext: string, n: nat): set<string> {
    set k | 2 <= k < n :: Alt(base, k, ext)
  }

  lemma AltsBelowStep(base: string, ext: string, n: nat)
    requires n >= 2
    ensures AltsBelow(base, ext, n + 1) == AltsBelow(base, ext, n) + {Alt(base, n, ext)}
    ensures Alt(base, n, ext) !in AltsBelow(base, ext, n)
  {
    if Alt(base, n, ext) in AltsBelow(base, ext, n) {
      var k :| 2 <= k < n && Alt(base, k, ext) == Alt(base, n, ext);
      AltInjective(base, ext, k, n);
    }
  }

  /** The `for n := 2;; n++` search: the first alternative from n on that is not taken. */
  function FirstFree(base: string, ext: string, used: set<string>, n: nat): (k: nat)
    requires n >= 2
    decreases used - AltsBelow(base, ext, n)
    ensures k >= n && Alt(base, k, ext) !in used
    ensures forall j :: n <= j < k ==> Alt(base, j, ext) in used
  {
    if Alt(base, n, ext) !in used then n
    else
      AltsBelowStep(base, ext, n);
      FirstFree(base, ext, used, n + 1)
  }

  /** Lower-casing commutes with concatenation. */
  lemma ToLowerAppend(a: string, b: string)
    ensures ToLowerAscii(a + b) == ToLowerAscii(a) + ToLowerAscii(b)
  {
  }

  function BinaryId(b: Node): string {
    AttrValue(b, "", "id", "")
  }

  function ContentType(b: Node): string {
    AttrValue(b, "", "content-type", "image/jpeg")
  }

  /** What the loop derives from one <binary> before its collision search: identifier, base name and extension. */
  datatype Request = Request(id: string, base: string, ext: string)

  function RequestOf(b: Node): (r: Request)
    ensures r.base != ""
    ensures r.ext == ".png" || r.ext == ".gif" || r.ext == ".jpg"
  {
    var id := BinaryId(b);
    Request(id, BaseFor(id), ExtFor(ContentType(b)))
  }

  /** The requests of a run of binaries, one per binary, in document order. */
  function Requests(bins: seq<Node>): (rs: seq<Request>)
    ensures |rs| == |bins|
  {
    if bins == [] then [] else Requests(bins[..|bins| - 1]) + [RequestOf(bins[|bins| - 1])]
  }

  /** The request of the i-th binary is derived from that binary. */
  lemma {:induction false} RequestAt(bins: seq<Node>, i: nat)
    requires i < |bins|
    ensures Requests(bins)[i] == RequestOf(bins[i])
  {
    if i < |bins| - 1 {
      RequestAt(bins[..|bins| - 1], i);
    }
  }

  /**
   * The name a request receives given the names already used: the first
   * choice when free, else base_N.ext with the smallest free N >= 2.
   */
  function PickName(q: Request, used: set<string>): (r: string)
    ensures r !in used
  {
    var filename := FirstChoice(q.base, q.ext);
    if filename in used then Alt(q.base, FirstFree(q.base, q.ext, used, 2), q.ext)
    else filename
  }

  /**
   * The picked name ends with the extension, whatever the case of the base,
   * and it is the first choice when that is free, else the first free
   * alternative counting from 2.
   */
  lemma PickNameChoice(q: Request, used: set<string>)
    requires q.ext == ".png" || q.ext == ".gif" || q.ext == ".jpg"
    ensures var r := PickName(q, used);
            && HasSuffix(ToLowerAscii(r), q.ext)
            && (FirstChoice(q.base, q.ext) !in used ==> r == FirstChoice(q.base, q.ext))
            && (FirstChoice(q.base, q.ext) in used ==>
                  exists k :: k >= 2 && r == Alt(q.base, k, q.ext) && forall j :: 2 <= j < k ==> Alt(q.base, j, q.ext) in used)
  {
    var base, ext := q.base, q.ext;
    assert ToLowerAscii(ext) == ext;
    ToLowerAppend(base, ext);
    if FirstChoice(base, ext) in used {
      var k := FirstFree(base, ext, used, 2);
      ToLowerAppend(base + "_" + Itoa(k), ext);
    }
  }

  /** The identifiers named among the first n requests (empty identifiers are skipped). */
  function NamedIds(qs: seq<Request>, n: nat): set<string>
    requires n <= |qs|
  {
    if n == 0 then {}
    else NamedIds(qs, n - 1) + (if qs[n - 1].id == "" then {} else {qs[n - 1].id})
  }

  /** How many of the first n requests carry an identifier. */
  function NamedCount(qs: seq<Request>, n: nat): nat
    requires n <= |qs|
  {
    if n == 0 then 0 else NamedCount(qs, n - 1) + (if qs[n - 1].id == "" then 0 else 1)
  }

  /** The `used` set and the identifier-to-name table of the pre-assignment loop. */
  datatype Naming = Naming(used: set<string>, files: map<string, string>)

  /**
   * The table after the first n requests, starting from `files0` and no used name:
   * every request with an identifier received a name not given before in the run.
   */
  function AssignUpTo(qs: seq<Request>, n: nat, files0: map<string, string>): (r: Naming)
    requires n <= |qs|
    ensures |r.used| <= n
  {
    if n == 0 then Naming({}, files0)
    else
      var prev := AssignUpTo(qs, n - 1, files0);
      var q := qs[n - 1];
      if q.id == "" then prev
      else
        var name := PickName(q, prev.used);
        Naming(prev.used + {name}, prev.files[q.id := name])
  }

  /** The table has an entry for every identifier it started with and every named one, and no other. */
  lemma {:induction false} AssignKeys(qs: seq<Request>, n: nat, files0: map<string, string>)
    requires n <= |qs|
    ensures AssignUpTo(qs, n, files0).files.Keys == files0.Keys + NamedIds(qs, n)
  {
    if n > 0 {
      AssignKeys(qs, n - 1, files0);
      AssignKeysStep(qs, n, files0);
    }
  }

  /** One step of the run adds the request's identifier, if any, to the keys. */
  lemma AssignKeysStep(qs: seq<Request>, n: nat, files0: map<string, string>)
    requires 0 < n <= |qs|
    requires AssignUpTo(qs, n - 1, files0).files.Keys == files0.Keys + NamedIds(qs, n - 1)
    ensures AssignUpTo(qs, n, files0).files.Keys == files0.Keys + NamedIds(qs, n)
  {
    var prev := AssignUpTo(qs, n - 1, files0);
    var q := qs[n - 1];
    if q.id != "" {
      var name := PickName(q, prev.used);
      assert AssignUpTo(qs, n, files0).files == prev.files[q.id := name];
      KeysAfterUpdate(prev.files, q.id, name, files0.Keys, NamedIds(qs, n - 1));
    } else {
      assert AssignUpTo(qs, n, files0) == prev;
    }
  }

  lemma KeysAfterUpdate(files: map<string, string>, id: string, name: string, k0: set<string>, ids: set<string>)
    requires files.Keys == k0 + ids
    ensures files[id := name].Keys == k0 + (ids + {id})
  {
  }

  /** Identifiers outside the run keep the entry they had before it. */
  lemma {:induction false} AssignKeepsOthers(qs: seq<Request>, n: nat, files0: map<string, string>, id: string)
    requires n <= |qs|
    requires id in files0 && id !in NamedIds(qs, n)
    ensures id in AssignUpTo(qs, n, files0).files && AssignUpTo(qs, n, files0).files[id] == files0[id]
  {
    if n > 0 {
      AssignKeepsOthers(qs, n - 1, files0, id);
    }
  }

  lemma AddFreshCard(used: set<string>, name: string)
    requires name !in used
    ensures |used + {name}| == |used| + 1
  {
  }

  /** Every named request adds exactly one fresh name to `used`. */
  lemma {:induction false} AssignCountsNames(qs: seq<Request>, n: nat, files0: map<string, string>)
    requires n <= |qs|
    ensures |AssignUpTo(qs, n, files0).used| == NamedCount(qs, n)
  {
    if n > 0 {
      AssignCountsNames(qs, n - 1, files0);
      var prev := AssignUpTo(qs, n - 1, files0);
      if qs[n - 1].id != "" {
        var name := PickName(qs[n - 1], prev.used);
        assert AssignUpTo(qs, n, files0).used == prev.used + {name};
        AddFreshCard(prev.used, name);
      } else {
        assert AssignUpTo(qs, n, files0) == prev;
      }
    }
  }

  /**
   * Every named identifier's file name is in `used`, and no two named
   * identifiers share a file name.
   */
  predicate NamesDistinct(r: Naming, ids: set<string>) {
    && ids <= r.files.Keys
    && (forall id :: id in ids ==> r.files[id] in r.used)
    && (forall a, b :: a in ids && b in ids && a != b ==> r.files[a] != r.files[b])
  }

  lemma {:induction false} AssignedNamesDistinct(qs: seq<Request>, n: nat, files0: map<string, string>)
    requires n <= |qs|
    ensures NamesDistinct(AssignUpTo(qs, n, files0), NamedIds(qs, n))
  {
    if n > 0 {
      AssignedNamesDistinct(qs, n - 1, files0);
      var prev := AssignUpTo(qs, n - 1, files0);
      var q := qs[n - 1];
      if q.id != "" {
        AddFreshName(prev, NamedIds(qs, n - 1), q.id, PickName(q, prev.used));
      }
    }
  }

  /** Giving one identifier a name nobody holds keeps the names distinct. */
  lemma AddFreshName(prev: Naming, ids: set<string>, id: string, name: string)
    requires NamesDistinct(prev, ids)
    requires name !in prev.used
    ensures NamesDistinct(Naming(prev.used + {name}, prev.files[id := name]), ids + {id})
  {
  }

  /**
   * The `for n := 2;; n++` search of collectBinaryImageFilenames
   * (converter.go:916-923): the first alternative name nobody holds.
   */
  method FreeAlt(base: string, ext: string, used: set<string>) returns (alt: string)
    ensures alt == Alt(base, FirstFree(base, ext, used, 2), ext)
    ensures alt !in used
  {
    var n := 2;
    while true
      invariant n >= 2 && FirstFree(base, ext, used, n) == FirstFree(base, ext, used, 2)
      decreases used - AltsBelow(base, ext, n)
    {
      alt := base + "_" + Itoa(n) + ext;
      if alt !in used {
        return;
      }
      AltsBelowStep(base, ext, n);
      n := n + 1;
    }
  }

  /**
   * The name collectBinaryImageFilenames gives one <binary> with an
   * identifier (converter.go:892-926), given the names used so far.
   */
  method NameBinary(b: Node, used: set<string>) returns (filename: string)
    ensures filename == PickName(RequestOf(b), used)
    ensures filename !in used
  {
    var id := AttrValue(b, "", "id", "");
    var contentType := AttrValue(b, "", "content-type", "image/jpeg");
    var ext := ".jpg";
    if Contains(contentType, "png") {
      ext := ".png";
    } else if Contains(contentType, "gif") {
      ext := ".gif";
    }
    var base := SanitizeFilename(id);
    if base == "" {
      base := "image";
    }
    filename := base;
    if !HasSuffix(ToLowerAscii(filename), ext) {
      filename := filename + ext;
    }
    if filename in used {
      filename := FreeAlt(base, ext, used);
    }
  }

  /** The requests of bins, one per binary (RequestAt for every index). */
  predicate RequestsOf(qs: seq<Request>, bins: seq<Node>) {
    |qs| == |bins| && forall i {:trigger RequestOf(bins[i])} :: 0 <= i < |bins| ==> qs[i] == RequestOf(bins[i])
  }

  lemma RequestsAre(bins: seq<Node>)
    ensures RequestsOf(Requests(bins), bins)
  {
    forall i | 0 <= i < |bins| ensures Requests(bins)[i] == RequestOf(bins[i]) {
      RequestAt(bins, i);
    }
  }

  /**
   * The loop of collectBinaryImageFilenames (converter.go:891-927) over bins,
   * whose requests are qs: every binary with an identifier is named in turn,
   * the names given so far kept in `used`.
   */
  method NameBinaries(bins: seq<Node>, ghost qs: seq<Request>, files0: map<string, string>) returns (files: map<string, string>)
    requires RequestsOf(qs, bins)
    ensures files == AssignUpTo(qs, |qs|, files0).files
  {
    var used: set<string> := {};
    files := files0;
    for i := 0 to |bins|
      invariant AssignUpTo(qs, i, files0) == Naming(used, files)
    {
      used, files := NameStep(bins, qs, i, used, files, files0);
    }
  }

  /** One binary of that loop: skipped without an identifier, else named. */
  method NameStep(bins: seq<Node>, ghost qs: seq<Request>, i: nat, used: set<string>, files: map<string, string>, ghost files0: map<string, string>)
    returns (used': set<string>, files': map<string, string>)
    requires RequestsOf(qs, bins) && i < |bins|
    requires AssignUpTo(qs, i, files0) == Naming(used, files)
    ensures AssignUpTo(qs, i + 1, files0) == Naming(used', files')
  {
    assert qs[i] == RequestOf(bins[i]);
    used', files' := used, files;
    var id := AttrValue(bins[i], "", "id", "");
    if id == "" {
      return;
    }
    var filename := NameBinary(bins[i], used);
    used' := used + {filename};
    files' := files[id := filename];
  }

  /** A name picked for a request with an extension is never empty. */
  lemma PickNameNonEmpty(q: Request, used: set<string>)
    requires q.ext != ""
    ensures PickName(q, used) != ""
  {
    var first := FirstChoice(q.base, q.ext);
    if first !in used && HasSuffix(ToLowerAscii(q.base), q.ext) {
      assert |q.base| == |ToLowerAscii(q.base)| >= |q.ext| > 0;
    }
  }

  /** Every identifier named in the run is named with a non-empty file name. */
  lemma {:induction false} AssignedNamesNonEmpty(qs: seq<Request>, n: nat, files0: map<string, string>, id: string)
    requires n <= |qs|
    requires forall i :: 0 <= i < |qs| ==> qs[i].ext != ""
    requires id in NamedIds(qs, n)
    ensures id in AssignUpTo(qs, n, files0).files && AssignUpTo(qs, n, files0).files[id] != ""
  {
    var prev := AssignUpTo(qs, n - 1, files0);
    var q := qs[n - 1];
    if q.id != "" && q.id == id {
      PickNameNonEmpty(q, prev.used);
    } else {
      AssignedNamesNonEmpty(qs, n - 1, files0, id);
    }
  }

  /**
   * The file extractBinaryImages writes a decoded <binary> to
   * (converter.go:865-877): the name collected for its identifier, else the
   * identifier itself with the content type's extension appended unless it
   * already ends with it.
   */
  function ExtractedName(id: string, contentType: string, files: map<string, string>): (r: string)
    ensures id in files && files[id] != "" ==> r == files[id]
    ensures !(id in files && files[id] != "") ==> HasPrefix(r, id) && HasSuffix(r, ExtFor(contentType))
  {
    if id in files && files[id] != "" then files[id]
    else
      var ext := ExtFor(contentType);
      if HasSuffix(id, ext) then
        assert id[..|id|] == id;
        id
      else
        PrefixOfConcat(id, ext);
        SuffixOfConcat(id, ext);
        id + ext
  }
}
