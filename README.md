# fb2md converter core, modelled in Dafny

This project models the rendering core of the fb2md converter: how a
FictionBook 2 (FB2) document becomes Markdown. The parsed XML document is an
immutable tree of `Node(tag, attrs, text, tail, children)` values. The
`Converter` struct is a Dafny class with the fields the Go methods update in
place:

- `output`, the active sink;
- `sectionLevel`;
- `footnotes`, `footnoteSeen` and `footnoteOrder`;
- `imageFiles`;
- `extractImages` and `imagesDir`.

The model has two layers:

- **Specification functions** say what each `process*` method appends and how
  it extends the footnote order. They are pure functions over the tree.
  `InlineMd`, `SectionMd`, `TableMd` and `Fold` live in `Markdown`, the note
  collection in `Footnotes`, the metadata header in `Description`, and the
  whole conversion in `Book`.
- **Methods of class `Converter`** follow the Go code statement by statement,
  with the same loops, branches and constants. Each is proved to append
  exactly its specification function's text to `output` and to leave
  `footnoteOrder` at its order. Every method keeps the class invariant
  `Valid()`: `footnoteSeen` is the set of `footnoteOrder`'s ids, the order has
  no duplicates, and every id in it is a collected note.

The properties proved about the specification functions are these:

- base64 whitespace stripping;
- the safety of sanitized file names;
- distinct image file names assigned in one pass, with the smallest free `_N`
  suffix;
- which notes collection stores: only ids of labelled sections it reaches, and every labelled section with a non-empty text;
- first-seen, duplicate-free footnote order;
- the footnote appendix, which lists only referenced notes, in order, one
  line each;
- section heading levels clamped to 2..6, with the level restored after a
  section;
- table layout;
- verses joined by Markdown line breaks, one line per text-author, a poem closing with its date;
- blockquotes: every line of a quoted poem or a cite starts with '>' when its parts are single lines;
- the sink swap of `extractInlineText`, which restores the output unchanged.

Module layout:

- `text.dfy` covers the Go string functions the core calls.
- `tree.dfy` covers the etree queries (`SelectElement(s)`, `SelectAttrValue`,
  `Text`/`Tail`) and `extractAllText`.
- `assets.dfy` covers `stripBase64Whitespace`, `sanitizeFilename` and
  `collectBinaryImageFilenames`.
- `markdown.dfy` covers block and inline rendering.
- `footnotes.dfy` covers collection, reference order and the appendix.
- `poetry.dfy` states what the poem, stanza and cite renderers promise about the lines they write.
- `description.dfy` covers `processDescription`.
- `book.dfy` covers the passes of `Convert`.
- `converter.dfy` is the class.
- `scenarios.dfy` has small documents and the exact Markdown they produce.

## Model

| member | source | states |
|---|---|---|
| Text.TrimSpace | converter.go:816 | the result has no leading or trailing white space (Go's `unicode.IsSpace` set) and is no longer than the input |
| Text.TrimSpaceOfTrimmed | converter.go:816 | trimming a string without surrounding white space returns it unchanged |
| Text.TrimSpaceIsInfix | converter.go:816 | the trimmed string is a slice `s[i..j]` of the input, and everything cut off before `i` and after `j` is white space |
| Text.TrimCutset | converter.go:73 | `strings.Trim` with a cut set: the result neither starts nor ends with a cut character and uses only characters of the input |
| Text.TrimCutsetIsInfix | converter.go:73 | the trimmed name is one contiguous slice of the input, and every character cut from either end is a cut character |
| Text.ReplaceChar | converter.go:53 | `strings.ReplaceAll` of one character: every occurrence of `from` becomes `to`, and nothing else changes |
| Text.ToLowerAscii | converter.go:911 | every ASCII capital becomes its lower-case letter, and every other character is kept |
| Text.Repeat | converter.go:363 | `strings.Repeat` gives `n` copies, so the length is `n` times the piece's length |
| Text.RepeatCopies | converter.go:363 | `strings.Repeat` output starts with the piece when n > 0, and repeats with the piece's length as period: each character equals the one a piece-length earlier |
| Text.Itoa | converter.go:918 | the `%d` rendering of a natural number is non-empty, with at least two digits from 10 on |
| Text.ItoaInjective | converter.go:918 | different numbers have different decimal renderings |
| Tree.FindAttr | converter.go:766-771 | `SelectAttrValue`'s search finds a value exactly when some attribute matches, and it returns the first match |
| Tree.SplitName | converter.go:766 | an attribute key is split at its first ':' into prefix and local name; a key without ':' has an empty prefix |
| Tree.Filter | converter.go:131 | `SelectElements` keeps exactly the children with the tag: every kept node is such a child, and every such child is kept |
| Tree.FilterAppend | converter.go:132 | filtering a concatenation filters each part in turn, so `SelectElements` keeps document order |
| Tree.FilterFirst | converter.go:121 | the first kept node is a child with no child of the tag before it |
| Tree.SelectElements | converter.go:131 | every selected element is a child with the requested tag |
| Tree.SelectElement | converter.go:121 | `SelectElement` returns a child with the tag, and returns none only when no child has that tag |
| Tree.SelectElementFirst | converter.go:121 | `SelectElement` returns the first child with the tag: every earlier child has another tag |
| Tree.AllTextTrimmed | converter.go:802-817 | `extractAllText` returns trimmed text |
| Tree.TrimSpaceEmptyIff | converter.go:816 | a trimmed string is empty exactly when the input is all white space |
| Tree.AllTextEmptyIff | converter.go:802-817 | `extractAllText` is empty exactly when the element's text and all its descendants' texts and tails are white space |
| Tree.RawTextSpaceIff | converter.go:805-814 | the untrimmed concatenation is all white space exactly when the element's text and its first `n` children are blank |
| Assets.UnspacedHasNoSpace | converter.go:35-40 | no ' ', '\n', '\r' or '\t' is left after stripping |
| Assets.UnspacedAppend | converter.go:34-43 | stripping works character by character: stripping a concatenation concatenates the stripped parts, so every other character keeps its order |
| Assets.UnspacedKeepsClean | converter.go:29-44 | input without those four characters comes back unchanged |
| Assets.StripBase64Whitespace | converter.go:29-44 | the loop returns exactly the stripped input, which contains none of the four characters |
| Assets.MapSafe | converter.go:58-71 | every character maps to one character of [A-Za-z0-9._-], and the length is kept |
| Assets.MapSafeKeepsSafe | converter.go:58-71 | characters already safe are kept as they are |
| Assets.AfterLastSlash | converter.go:54 | the cut point of `path.Base` follows the last '/', and nothing after it is a '/' |
| Assets.DropTrailingSlashes | converter.go:54 | `path.Base` first drops trailing '/' characters, giving a prefix of the path that does not end in '/' |
| Assets.PathBase | converter.go:54 | `path.Base` never returns the empty string |
| Assets.Sanitized | converter.go:46-78 | `sanitizeFilename` returns "" or a name made only of [A-Za-z0-9._-]: no '/' or '\\', no leading or trailing '.', '_' or '-', and never "." or ".." |
| Assets.SafeNameTrimmed | converter.go:47 | a safe name has no surrounding white space to trim |
| Assets.SafeNameIsBase | converter.go:53-54 | a safe name has no separator to normalise and is its own `path.Base` |
| Assets.SafeNameUntrimmed | converter.go:74 | a safe name has no '.', '_' or '-' to trim at either end |
| Assets.SanitizedIdempotent | converter.go:46-78 | sanitizing a sanitized name returns it unchanged |
| Assets.SanitizeFilename | converter.go:46-78 | the Go function with its rune loop returns the sanitized name, which is "" or safe |
| Assets.ExtFor | converter.go:898-903 | `.png` when the content type contains "png"; otherwise `.gif` when it contains "gif"; otherwise `.jpg` |
| Assets.BaseFor | converter.go:905-908 | the sanitized id when that is non-empty, else "image"; never empty |
| Assets.AltInjective | converter.go:918 | two `base_N.ext` names are equal only when the numbers are equal |
| Assets.FirstFree | converter.go:916-923 | the collision loop stops at the smallest `N >= 2` whose `base_N.ext` is unused |
| Assets.RequestOf | converter.go:893-913 | what one `<binary>` asks for: its id, a non-empty base and one of the three extensions |
| Assets.PickName | converter.go:910-926 | the chosen name is never one already used in the run |
| Assets.PickNameChoice | converter.go:910-923 | the lower-cased name ends in the extension. The plain name is taken when it is free; otherwise the name is `base_N.ext` with the smallest free `N >= 2` |
| Assets.AssignUpTo | converter.go:889-928 | the first `n` binaries use at most `n` names |
| Assets.AssignKeys | converter.go:893-927 | afterwards the table's ids are the earlier ids plus every non-empty id among the binaries; an empty id is skipped |
| Assets.AssignKeepsOthers | converter.go:889-928 | ids of no binary keep the name they had before |
| Assets.AssignCountsNames | converter.go:915-926 | each named binary adds exactly one fresh name to `used` |
| Assets.AssignedNamesDistinct | converter.go:915-926 | the ids named in one run are mapped to pairwise distinct file names |
| Assets.FreeAlt | converter.go:916-923 | the `for n := 2;; n++` loop returns the first free `base_N.ext`, and it is unused |
| Assets.NameBinary | converter.go:892-926 | one iteration picks the name `PickName` specifies, which is not yet used |
| Assets.NameBinaries | converter.go:891-927 | the loop over the binaries builds exactly the table `AssignUpTo` specifies |
| Assets.AssignedNamesNonEmpty | converter.go:889-928 | every identifier named in the run has a non-empty file name |
| Assets.ExtractedName | converter.go:865-877 | the file a binary is written to is its collected name when it has a non-empty one; otherwise a name that starts with the id and ends with the content type's extension |
| Markdown.OrderOkMeans | converter.go:780-786 | the footnote-order invariant holds exactly when the order has no duplicate and each of its ids is a collected note |
| Markdown.Record | converter.go:782-785 | recording an id keeps the order when the id was seen, and appends the id at the end otherwise |
| Markdown.RecordKeepsOrderOk | converter.go:775-786 | recording a collected note's id keeps the order duplicate-free and made of note ids, and only appends |
| Markdown.NoteRef | converter.go:766-776 | a link refers to a note exactly when its type is "note", its href starts with '#' and the rest is a collected id |
| Markdown.LinkLabel | converter.go:789-792 | the label is never empty, and it is "Link" exactly when the flattened link text is empty or is "Link" itself |
| Markdown.LinkMd | converter.go:765-799 | a note reference writes `[^id]` and records the id; any other link writes `[label](href)` and leaves the order unchanged |
| Markdown.LinkMdGrows | converter.go:780-786 | a link only appends a new note id to the order |
| Markdown.InlineMdGrows | converter.go:705-752 | inline rendering keeps the footnote order well-formed and only appends to it |
| Markdown.Marker | converter.go:712-727 | a marker is written exactly for emphasis, strong, strikethrough and code; other tags get none |
| Markdown.JoinPath | converter.go:837 | the joined image path ends with the file name |
| Markdown.ImageFile | converter.go:827-835 | the pre-assigned name when it is non-empty; otherwise the sanitized id, or the raw id when that sanitizes to "" |
| Markdown.ImageRef | converter.go:825-844 | for `#id` with extraction, `![id](path)` whose path is the images directory joined with `ImageFile(id)` and ends with that file name; for `#id` without extraction, `![Image: id]`; for any other href, `![Image](href)` |
| Markdown.ImageMd | converter.go:819-846 | `processImage` writes the reference of the element's `l:href` (else `href`) followed by a blank line |
| Markdown.ColumnCount | converter.go:593-602 | the number of th cells when the row has any; otherwise the number of td cells when it has any; otherwise the number of its children; never more than its children |
| Markdown.HeadingLevel | converter.go:358-361 | the heading level is depth + 1, capped at 6, so it is 2..6 inside a section |
| Markdown.HeadingShape | converter.go:358-367 | a titled section's heading starts with exactly that many '#' characters, then a space |
| Markdown.SectionStartsWithHeading | converter.go:353-368 | a section's output starts with its heading |
| Markdown.SectionOpensWithHeading | converter.go:353-368 | a titled section entered at depth `d` starts with `min(d + 2, 6)` '#' characters and a space |
| Markdown.TableRowsHaveKCells | converter.go:621-642 | the separator row and the synthesized header each have exactly `colCount` cells |
| Markdown.TableEmptyIff | converter.go:586-605 | a table writes nothing exactly when it has no tr rows or its first row gives no columns, and then the order is unchanged |
| Markdown.TableLayout | converter.go:607-649 | with a th in the first row, that row is the header, followed by the separator row. Without one, the table starts with an empty header, the separator row, and then the first row written as a data row |
| Footnotes.OrderOkMoreNotes | converter.go:171-209 | collecting more notes keeps a well-formed order well-formed |
| Footnotes.AddPiece | converter.go:187-201 | note text pieces are joined by one space, and empty pieces are skipped |
| Footnotes.CollectFootnotes | converter.go:171-209 | collection drops no note and only appends to the order. A well-formed order stays well-formed, and non-empty note texts stay non-empty |
| Footnotes.CollectIn | converter.go:172-208 | the same for the loop over the section children |
| Footnotes.CollectSection | converter.go:173-207 | the same for one section |
| Footnotes.NoteBody | converter.go:180-204 | the same for the loop building one note's text |
| Footnotes.CollectBodies | converter.go:133-139 | the same for the first pass over the notes bodies |
| Footnotes.CollectFootnotesKeys | converter.go:171-209 | collection adds notes only under `NoteIds(e)`: the ids of the labelled sections among e's section children, inside id-less sections, and nested in labelled ones |
| Footnotes.CollectInKeys | converter.go:172-208 | the loop over the section children adds notes only under those sections' ids |
| Footnotes.CollectSectionKeys | converter.go:173-207 | one section adds notes only under its own id, the ids nested in it, or, when it has no id, the ids inside it |
| Footnotes.NoteBodyKeys | converter.go:180-204 | building one note's text adds notes only under the ids of its nested sections |
| Footnotes.CollectBodiesKeys | converter.go:132-137 | the first pass adds notes only under ids of labelled sections of the notes bodies |
| Footnotes.CollectSectionStores | converter.go:179-206 | a labelled section with a non-empty text stores that text under its id, replacing an earlier note of that id. With an empty text it stores nothing. Other notes and the order are as its nested sections left them |
| Footnotes.CollectInStepKeeps | converter.go:172 | a later section never removes a stored note |
| Footnotes.CollectInStoresAt | converter.go:172-208 | a labelled section whose text is non-empty when it is reached leaves a note under its id |
| Footnotes.CollectInStores | converter.go:172-208 | that note is still there when the loop ends |
| Footnotes.Appendix | converter.go:212-222 | the appendix is empty exactly when the order is empty, and otherwise starts with "\n---\n\n" |
| Footnotes.DefinitionsIgnoreUnreferenced | converter.go:216-220 | the definitions depend only on the notes the order refers to |
| Footnotes.AppendixIgnoresUnreferenced | converter.go:212-222 | collected but unreferenced notes never change the appendix |
| Footnotes.DefinitionsOneLineEach | converter.go:216-220 | when every id has a note, there is one `[^id]: text` line per id, in order |
| Footnotes.AppendixOfWellFormedOrder | converter.go:212-222 | under the footnote-order invariant the appendix is "" or "\n---\n\n" followed by one line per referenced id in reference order |
| Footnotes.RecordAllSet | converter.go:780-786 | the order built from references has no duplicate and holds exactly the referenced ids |
| Footnotes.RecordAllFirstSeen | converter.go:780-786 | the order built from references lists the ids by their first reference |
| Poetry.VersesJoined | converter.go:546-554 | processStanza writes the verses' inline texts joined by the Markdown line break "  \n", then "\n" after the last, threading the footnote order through them |
| Poetry.StanzaEndsWithVerses | converter.go:527-555 | a stanza's output ends with its joined verses, after its title and subtitle |
| Poetry.PoemAuthorLines | converter.go:473-478 | processPoem writes each text-author, in order, as `*— ` + its inline text + `*` and a blank line |
| Poetry.BodyEndsWithDate | converter.go:459-487 | the part of a poem after its epigraphs ends with the date line |
| Poetry.PoemEndsWithDate | converter.go:444-488 | a poem's output ends with its date line, after the stanzas and text-authors |
| Poetry.QuotedVerseLines | converter.go:506-510 | processQuotedPoem writes each verse of a stanza, in order, as `> ` + its inline text + a line break |
| Poetry.QuotedAuthorLines | converter.go:519-523 | processQuotedPoem writes each text-author, in order, as `> *— ` + its inline text + `*` and a line break |
| Poetry.QuotedTitle | converter.go:492-499 | a quoted poem's single-line title is written as quoted lines |
| Poetry.QuotedPoemChildQuoted | converter.go:501-517 | a stanza whose v elements are single lines, or a single-line subtitle, of a quoted poem is written as lines that all start with '>'; the stanza's own text and other children are not written, so they are unconstrained |
| Poetry.QuotedPoemPartsQuoted | converter.go:501-517 | the stanzas and subtitles of a poem whose verses and subtitles are single lines are written as quoted lines |
| Poetry.QuotedAuthorsQuoted | converter.go:519-523 | when a poem's text-author elements are single lines, its text-author lines are quoted lines |
| Poetry.QuotedPoemQuoted | converter.go:491-524 | when a poem's title, v elements, subtitles and text-authors are single lines, every line processQuotedPoem writes starts with '>', whatever the layout of the rest of the poem |
| Poetry.CiteChildQuoted | converter.go:559-580 | a non-table child of a cite is written as lines that all start with '>' when it is a single-line p, subtitle or text-author, a poem whose quoted parts are single lines, an empty-line or any other tag |
| Poetry.CiteQuoted | converter.go:558-583 | a cite with no table child, whose p, subtitle and text-author children and poems' quoted parts are single lines, is written as a blockquote: every line up to the closing newline starts with '>'. A table child is written unquoted, so it is excluded |
| Poetry.QuoteLineQuoted | converter.go:420-429 | a single-line p (written "> " ... "\n"), a single-line text-author (">\n> — " ... "\n") or an empty-line (">\n") of an epigraph or of a cite nested in it (the same arms as converter.go:410-413 and 432-437) is written as quoted lines; other tags write nothing |
| Poetry.EpigraphChildQuoted | converter.go:408-438 | a child of an epigraph is written as quoted lines: a poem through processQuotedPoem, a nested cite through its p, text-author and empty-line children, any other tag through the quoted-line arms, provided the p, text-author, verse, subtitle and title texts are single lines |
| Poetry.EpigraphQuoted | converter.go:407-441 | processEpigraph writes a blockquote: under the same single-line conditions, its text ends in the closing newline and every line before it starts with '>' |
| Description.ChildText | converter.go:305-313 | at most one text, and none exactly when the name part is absent |
| Description.AuthorParts | converter.go:302-319 | at most three parts; first, middle and last name when any of them is present; the nickname alone when none of them is; empty exactly when all four name elements are absent |
| Description.AuthorNames | converter.go:241-246 | at most one name per author, and only non-empty names are listed |
| Description.GenreNames | converter.go:256-260 | at most one name per genre, and only non-empty genre texts are listed |
| Description.AuthorNamesComplete | converter.go:242-247 | every author among the first n with a non-empty name has that name listed |
| Description.AuthorNamesSound | converter.go:242-247 | every listed name is the name of one of the first n authors |
| Description.GenreNamesComplete | converter.go:257-261 | every genre among the first n with a non-empty text has that text listed |
| Description.GenreNamesSound | converter.go:257-261 | every listed genre is the text of one of the first n genres |
| Description.TitleFirst | converter.go:230-280 | the header lines start with the book title line |
| Description.TitleInfoMd | converter.go:230-299 | the header starts with `# title` when there is a book title and ends with the "---" rule |
| Description.DescriptionMd | converter.go:224-300 | no title-info writes nothing and changes no order; otherwise the header ends with the rule |
| Book.ImageNamesDistinct | converter.go:889-928 | every binary with an id is named, and different ids get different file names |
| Book.Collected | converter.go:127-139 | the collecting passes write nothing and drop no note. They change the image table only when extraction is on |
| Book.Passes | converter.go:127-157 | the passes keep the depth and the options and drop no note. They only append to the output |
| Book.PassesNameImages | converter.go:127-129 | with extraction on, the names left in the converter are complete and pairwise distinct |
| Book.ExtractedImageLinked | converter.go:828-838 | with extraction on, a `#id` image link of a binary with that id names the file `extractBinaryImages` writes it to (converter.go:865-879), under the images directory |
| Converter.Converter.constructor | converter.go:80-88 | `NewConverter` starts empty at depth 0 with empty tables, satisfying the invariant |
| Converter.Converter.ExtractAllText | converter.go:802-817 | returns `AllText`, the flattened trimmed text, which is empty exactly for a blank element |
| Converter.Converter.AppendChildText | converter.go:809-814 | one loop step adds a child's flattened text and its tail |
| Converter.Converter.ExtractInlineText | converter.go:755-763 | returns the inline rendering and restores the output sink unchanged; only the footnote order may grow |
| Converter.Converter.ProcessLink | converter.go:765-800 | appends `LinkMd` and records the note id on its first reference, keeping the invariant |
| Converter.Converter.RecordNote | converter.go:783-786 | `footnoteSeen` and `footnoteOrder` record the id once |
| Converter.Converter.ProcessImage | converter.go:819-846 | appends `ImageMd` |
| Converter.Converter.ImageTarget | converter.go:827-836 | picks the file name `ImageFile` specifies |
| Converter.Converter.ProcessInlineElement | converter.go:705-753 | appends `InlineMd` and extends the order as it says |
| Converter.Converter.ProcessInlineChildren | converter.go:713-752 | the child loop appends the children's renderings in order |
| Converter.Converter.ProcessInlineChild | converter.go:713-751 | one child, then its tail |
| Converter.Converter.ProcessInlineChildBody | converter.go:714-749 | one child by its tag |
| Converter.Converter.WrapInline | converter.go:714-729 | a marker, the inline rendering, the marker |
| Converter.Converter.ProcessParagraph | converter.go:672-676 | appends the inline text and a blank line |
| Converter.Converter.ProcessSubtitle | converter.go:666-670 | appends the bold inline text and a blank line |
| Converter.Converter.ProcessEpigraph | converter.go:407-442 | appends `EpigraphMd`: each child as quoted lines, then a blank line |
| Converter.Converter.ProcessEpigraphChildren | converter.go:408-437 | the child loop of an epigraph |
| Converter.Converter.ProcessEpigraphChild | converter.go:409-437 | one epigraph child by its tag |
| Converter.Converter.ProcessQuoteLines | converter.go:417-430 | the loop over a nested cite's children |
| Converter.Converter.ProcessQuoteLine | converter.go:410-436 | a p, text-author or empty-line as a quote line |
| Converter.Converter.ProcessEpigraphs | converter.go:370-372 | the epigraph loop of a section or poem |
| Converter.Converter.ProcessCite | converter.go:558-584 | appends `CiteMd` |
| Converter.Converter.ProcessCiteChildren | converter.go:559-582 | the child loop of a cite |
| Converter.Converter.ProcessCiteChild | converter.go:560-581 | one cite child by its tag |
| Converter.Converter.WriteTitle | converter.go:446-452 | a non-empty flattened title between the given markers, or nothing |
| Converter.Converter.ProcessQuotedPoem | converter.go:491-525 | appends `QuotedPoemMd` |
| Converter.Converter.ProcessQuotedPoemChildren | converter.go:501-517 | its child loop |
| Converter.Converter.ProcessQuotedPoemChild | converter.go:502-516 | one child by its tag |
| Converter.Converter.ProcessQuotedStanza | converter.go:503-510 | quoted verses, then ">" |
| Converter.Converter.ProcessQuotedVerses | converter.go:505-509 | the verse loop of a quoted stanza |
| Converter.Converter.ProcessQuotedAuthors | converter.go:519-523 | the quoted text-author loop |
| Converter.Converter.ProcessPoem | converter.go:444-489 | appends `PoemMd` |
| Converter.Converter.ProcessPoemBody | converter.go:459-487 | the stanza loop, authors and date |
| Converter.Converter.ProcessPoemChildren | converter.go:460-469 | the stanza and subtitle loop |
| Converter.Converter.ProcessPoemChild | converter.go:461-468 | one poem child by its tag |
| Converter.Converter.ProcessPoemStanza | converter.go:462-464 | a stanza, then a newline |
| Converter.Converter.ProcessPoemTail | converter.go:471-487 | the text-authors, then the date |
| Converter.Converter.ProcessPoemAuthors | converter.go:472-476 | the text-author loop |
| Converter.Converter.WritePoemDate | converter.go:479-487 | the italic date when it is non-empty |
| Converter.Converter.ProcessStanza | converter.go:527-556 | appends `StanzaMd` |
| Converter.Converter.ProcessVerses | converter.go:546-555 | every verse but the last ends with a Markdown line break, and the last ends with a newline |
| Converter.Converter.VerseStep | converter.go:547-554 | one verse of that loop |
| Converter.Converter.ProcessTable | converter.go:586-652 | appends `TableMd` |
| Converter.Converter.WriteHeaderTable | converter.go:611-632 | header row, separator and the rows after the first |
| Converter.Converter.WriteHeaderlessTable | converter.go:633-648 | the synthesized header, separator and every row |
| Converter.Converter.WriteRule | converter.go:623-627 | the separator row of `colCount` cells |
| Converter.Converter.ProcessTableRows | converter.go:630-632 | the row loop |
| Converter.Converter.RenderTableRow | converter.go:654-664 | appends `RowMd` |
| Converter.Converter.ProcessRowCells | converter.go:656-662 | the cell loop |
| Converter.Converter.ProcessCell | converter.go:657-661 | a th or td cell as its inline text and " \| " |
| Converter.Converter.ProcessSection | converter.go:353-405 | appends `SectionMd` at depth + 1 and restores `sectionLevel` to its value on entry |
| Converter.Converter.ProcessSectionContent | converter.go:356-404 | the body of a section at the incremented depth |
| Converter.Converter.ProcessSectionHead | converter.go:358-377 | heading, epigraphs and annotation |
| Converter.Converter.WriteHeading | converter.go:358-368 | the heading at the clamped level |
| Converter.Converter.ProcessAnnotation | converter.go:375-377 | a section's annotation as block content |
| Converter.Converter.ProcessSectionChildren | converter.go:380-404 | the child loop of a section |
| Converter.Converter.ProcessSectionChild | converter.go:381-403 | one section child by its tag |
| Converter.Converter.ProcessBlockContent | converter.go:678-703 | appends `BlockContentMd` |
| Converter.Converter.ProcessBlockChild | converter.go:680-701 | one child by its tag |
| Converter.Converter.ProcessBody | converter.go:321-351 | appends `BodyMd` |
| Converter.Converter.ProcessBodyChild | converter.go:323-348 | one body child by its tag |
| Converter.Converter.CollectFootnotes | converter.go:171-209 | leaves the output untouched and the table and order as `CollectFootnotes` specifies |
| Converter.Converter.CollectSection | converter.go:172-208 | one section of that loop |
| Converter.Converter.NoteText | converter.go:180-204 | builds one note's text |
| Converter.Converter.AppendPiece | converter.go:189-194 | joins a piece onto the note text |
| Converter.Converter.CollectNotes | converter.go:133-139 | the first pass over the notes bodies |
| Converter.Converter.WriteFootnotes | converter.go:212-222 | appends `Appendix(footnoteOrder, footnotes)` |
| Converter.Converter.CollectBinaryImageFilenames | converter.go:889-928 | sets `imageFiles` to `ImageNames`, which `Book.ImageNamesDistinct` proves complete and distinct |
| Converter.Converter.ProcessDescription | converter.go:224-300 | appends `DescriptionMd` |
| Converter.Converter.ProcessTitleInfo | converter.go:230-299 | appends `TitleInfoMd` |
| Converter.Converter.WriteHeadLines | converter.go:230-280 | title, authors, genres and series lines |
| Converter.Converter.WriteBookTitle | converter.go:230-235 | the `# title` line |
| Converter.Converter.WriteAuthors | converter.go:238-251 | the authors line, written whenever there are author elements |
| Converter.Converter.CollectAuthorNames | converter.go:242-247 | the non-empty author names in order |
| Converter.Converter.WriteGenres | converter.go:254-264 | the genres line |
| Converter.Converter.CollectGenreNames | converter.go:257-261 | the non-empty genre texts in order |
| Converter.Converter.WriteSeries | converter.go:267-280 | one series line per named sequence |
| Converter.Converter.WriteSeriesLine | converter.go:267-278 | the series line of one sequence |
| Converter.Converter.ProcessTitleAnnotation | converter.go:283-287 | the annotation under its heading |
| Converter.Converter.WriteDate | converter.go:290-296 | the date line when the date text is non-empty |
| Converter.Converter.ProcessMainBodies | converter.go:146-153 | renders every body except the notes bodies, in order |
| Converter.Converter.Convert | converter.go:90-167 | sets the options. A document without a FictionBook root returns the Go error text and changes nothing else; otherwise the converter ends in the state `Passes` specifies, keeping the invariant |
| Converter.Converter.RunPasses | converter.go:127-154 | the passes over the root |
| Converter.Converter.CollectPasses | converter.go:127-139 | image names first, then the notes |
| Converter.Converter.RenderBook | converter.go:141-157 | description, main bodies, appendix |
| Converter.Converter.WriteDescriptionPart | converter.go:141-144 | the description when the root has one |
| Scenarios.EmphasisShape | converter.go:705-728 | emphasis in a paragraph is starred, and the text before it and its tail are kept |
| Scenarios.EpigraphShape | converter.go:407-441 | an epigraph of a paragraph and its author is a quote, then an empty quote line, then "— author", then a blank line |
| Scenarios.EpigraphOfTwo | converter.go:408-440 | an epigraph of two children renders them in order, then a blank line |
| Scenarios.QuotedParagraph | converter.go:410-413 | a paragraph in an epigraph is one "> " line |
| Scenarios.QuotedAuthor | converter.go:430-433 | an epigraph author follows an empty quote line, behind a dash |
| Scenarios.NoteLinkAttrs | converter.go:766-771 | a note link's `l:href` and `type` read back as written |
| Scenarios.KnownNoteRef | converter.go:774-776 | a note link to a collected note resolves to that note |
| Scenarios.UnknownNoteRef | converter.go:774-792 | a note link to an unknown id does not resolve, and without text its label is "Link" |
| Scenarios.NoteChild | converter.go:777-786 | a note link in a paragraph writes `[^n1]` and records n1 |
| Scenarios.TwoChildren | converter.go:711-752 | the inline loop over two children renders the first, then the second |
| Scenarios.TwoNoteChildren | converter.go:777-786 | two references to one note write two markers and record the note once |
| Scenarios.TwoNoteRefs | converter.go:672-675 | "See" with two references to n1 renders as `See[^n1][^n1]` with order [n1] |
| Scenarios.NoteLinkExample | converter.go:765-786 | the same for concrete note links |
| Scenarios.PlainLink | converter.go:788-798 | an unresolved link is written as `[Link](#n9)` with the order unchanged |
| Scenarios.UnknownNoteExample | converter.go:765-798 | a link to an unknown note falls back to a plain link |
| Scenarios.FirstSeenExample | converter.go:780-786 | references 2, 1, 3, 1 give the appendix order 2, 1, 3 |
| Scenarios.AppendixExample | converter.go:212-222 | order [2, 1] over notes 1, 2, 3 lists note 2, then note 1, and never note 3 |

## Left out

- Footnotes.CollectInStores: completeness is stated per section, given the text the section has when it is reached. That text depends on the notes collected before it, through the footnote links `extractInlineText` renders, so there is no statement of the form "every id of NoteIds with a non-empty text" independent of the collection state.
- Poetry.CiteQuoted, Poetry.EpigraphQuoted, Poetry.QuotedPoemQuoted: proved when the texts they frame on one line (p, subtitle, text-author, v, a poem title) are single lines; the texts they do not write are unconstrained. A line break inside a paragraph's text is copied into the blockquote unquoted, exactly as the Go code writes it.
- File I/O in `Convert` (reading, `MkdirAll`, writing the output file) and the wrapping of its errors. The model starts from the parsed document. Only the missing-root error is kept.
- `detectAndConvertEncoding` and the charmap decoders of encoding.go are not part of this model. The same goes for XML parsing by etree, which the `Node` datatype replaces.
- main.go: command-line flags, directory walking and the EPUB path are not part of this model.
- `extractBinaryImages`: only its `stripBase64Whitespace` step and its choice of file name (`Assets.ExtractedName`) are modelled. Base64 decoding, the file writes and the warnings to stderr are not.
- The unused `doc` and `imageCounter` fields are not modelled.
- `strings.Builder` is a string that the methods append to.
- The sink swap of `extractInlineText` saves and restores the contents of `output`. This has the same effect as switching buffers, because nothing else writes to the main buffer meanwhile.
- Text.ToLowerAscii: lower-cases ASCII letters only, where Go's `strings.ToLower` also lowers other Unicode letters.
- Text.TrimSpace: trims the white space characters of Go's `unicode.IsSpace` list over `char`. Invalid UTF-8 is not modelled.
- Markdown.JoinPath: joins a non-empty directory and the name with '/'. It does not model `filepath.Join`'s cleaning of "." and ".." or repeated separators, nor `filepath.ToSlash` on Windows. `filepath.Join` also drops an empty element: an image whose href is just "#" with directory "images" gives `![](images)` in Go, but `![](images/)` in the model.
- etree namespaces are modelled only as the attribute prefix before ':'. `SelectElement(s)` match on the tag as written.
- Converter.Converter.CollectBinaryImageFilenames: builds the table in a local map and assigns it once at the end, where the Go code writes each entry into `c.imageFiles` as it goes. No other code reads the table in between.
- Converter.Converter.WriteSeriesLine: builds the series line and appends it once, where the Go code makes several `WriteString` calls. The text appended is the same.
- Description.TitleInfoMd: its contract states the title line and the closing rule. The lines in between are stated by `HeadLines`, `AnnotationPart` and `DateLine`, which the methods are proved against.
