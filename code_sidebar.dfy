/**
 * The code sidebar: the texts it puts on the clipboard or in a downloaded
 * file for the generated files, the name of the download, the width of the
 * resizable panel, the way it renders a product requirements document
 * (PRD) line by line, and the line count of a code listing.
 */
module CodeSidebar {
  import opened Wrappers
  import opened Text
  import opened StableSort

  /** A generated source file as the code generator returns it. */
  datatype GeneratedFile = GeneratedFile(
    name: string,
    path: string,
    content: string,
    language: string,
    fileType: string,
    description: Option<string>,
    prd: Option<string>)

  /** An optional string used as a condition: present and not empty. */
  predicate Filled(o: Option<string>) {
    o.Some? && o.value != ""
  }

  // ---------------------------------------------------------------------
  // The export text of one file (copy and download)
  // ---------------------------------------------------------------------

  const PrdTitle: string := "# Product Requirements Document (PRD)\n"
  const CodeTitle: string := "# IMPLEMENTATION CODE\n"

  /** The PRD part: title, file name, the PRD, and the banner that opens
      the implementation; empty without a PRD. */
  function PrdSection(f: GeneratedFile): string {
    if Filled(f.prd) then
      var t := PrdTitle;
      var t := t + ("File: " + f.name + "\n\n");
      var t := t + f.prd.value;
      var t := t + ("\n\n" + Repeat('=', 60) + "\n");
      var t := t + CodeTitle;
      t + (Repeat('=', 60) + "\n\n")
    else ""
  }

  function PathLine(f: GeneratedFile): string { "**File:** " + f.path + "\n" }
  function TypeLine(f: GeneratedFile): string { "**Type:** " + f.fileType + "\n" }
  function LanguageLine(f: GeneratedFile): string { "**Language:** " + f.language + "\n\n" }
  function FenceOpen(f: GeneratedFile): string { "```" + f.language + "\n" }
  const FenceClose: string := "\n```"

  /** The description line of a filled description, and nothing otherwise. */
  function DescriptionLine(f: GeneratedFile): string {
    if Filled(f.description) then "**Description:** " + f.description.value + "\n\n" else ""
  }

  /** The rest of the text appended to `t`: the path, type and language
      lines, the description line when there is a description, and the
      fenced code. */
  function WithFileDetails(t: string, f: GeneratedFile): (r: string)
    ensures StartsWith(r, t + PathLine(f))
  {
    var t := t + PathLine(f);
    var t := t + TypeLine(f);
    var t := t + LanguageLine(f);
    var t := t + DescriptionLine(f);
    var t := t + FenceOpen(f);
    var t := t + f.content;
    t + FenceClose
  }

  /** The full text of one file. */
  function ExportText(f: GeneratedFile): string {
    WithFileDetails(PrdSection(f), f)
  }

  /** The `fullContent` both the copy and the download handlers of a file
      build by successive appends. */
  method FullFileText(f: GeneratedFile) returns (text: string)
    ensures text == ExportText(f)
  {
    text := "";
    if Filled(f.prd) {
      text := text + PrdTitle;
      assert text == PrdTitle;
      text := text + ("File: " + f.name + "\n\n");
      text := text + f.prd.value;
      text := text + ("\n\n" + Repeat('=', 60) + "\n");
      text := text + CodeTitle;
      text := text + (Repeat('=', 60) + "\n\n");
    }
    text := text + ("**File:** " + f.path + "\n");
    text := text + ("**Type:** " + f.fileType + "\n");
    text := text + ("**Language:** " + f.language + "\n\n");
    if Filled(f.description) {
      text := text + ("**Description:** " + f.description.value + "\n\n");
    }
    text := text + ("```" + f.language + "\n");
    text := text + f.content;
    text := text + "\n```";
  }

  /** With a PRD, the text opens with the PRD title, the file name, the
      PRD and the implementation banner, before any of the code; without
      one, it opens with the file's path line. */
  lemma ExportTextOpening(f: GeneratedFile)
    ensures Filled(f.prd) ==> StartsWith(ExportText(f),
      PrdTitle + ("File: " + f.name + "\n\n") + f.prd.value + ("\n\n" + Repeat('=', 60) + "\n") + CodeTitle)
    ensures !Filled(f.prd) ==> StartsWith(ExportText(f), "**File:** " + f.path + "\n")
  {
    var path := PathLine(f);
    if Filled(f.prd) {
      var opening := PrdTitle + ("File: " + f.name + "\n\n") + f.prd.value + ("\n\n" + Repeat('=', 60) + "\n") + CodeTitle;
      StartsWithAppend(opening, Repeat('=', 60) + "\n\n");
      StartsWithAppend(PrdSection(f), path);
      StartsWithTrans(ExportText(f), PrdSection(f) + path, PrdSection(f));
      StartsWithTrans(ExportText(f), PrdSection(f), opening);
    } else {
      assert PrdSection(f) + path == path;
    }
  }

  /** The text always ends with the fenced code of the file. */
  lemma ExportTextClosing(f: GeneratedFile)
    ensures EndsWith(ExportText(f), "```" + f.language + "\n" + f.content + "\n```")
  {
    DetailsLayout(PrdSection(f), f);
    assert ExportText(f) == (PrdSection(f) + HeaderLines(f) + DescriptionLine(f)) + Fence(f);
  }

  /** The path, type and language lines. */
  function HeaderLines(f: GeneratedFile): string {
    PathLine(f) + TypeLine(f) + LanguageLine(f)
  }

  /** The fenced code. */
  function Fence(f: GeneratedFile): string {
    FenceOpen(f) + f.content + FenceClose
  }

  /** The layout of the whole text: the PRD part, the path, type and
      language lines, a description line exactly when the description is
      filled, then the fenced code. */
  lemma ExportTextDescription(f: GeneratedFile)
    ensures ExportText(f) == PrdSection(f) + HeaderLines(f) + DescriptionLine(f) + Fence(f)
    ensures Filled(f.description) ==> Contains(ExportText(f), "**Description:** " + f.description.value + "\n\n")
  {
    var p := PrdSection(f);
    DetailsLayout(p, f);
    if Filled(f.description) {
      ContainsInside(p + HeaderLines(f), DescriptionLine(f), Fence(f));
    }
  }

  /** The appends of the details, grouped line by line. */
  lemma DetailsLayout(t: string, f: GeneratedFile)
    ensures WithFileDetails(t, f) == t + HeaderLines(f) + DescriptionLine(f) + Fence(f)
  {
    var f1, f2, f3, d, e, c := PathLine(f), TypeLine(f), LanguageLine(f), DescriptionLine(f), FenceOpen(f), f.content;
    AppendAssoc(t + f1, f2, f3);
    AppendAssoc(t, f1, f2 + f3);
    AppendAssoc(t + HeaderLines(f) + d + e, c, FenceClose);
    AppendAssoc(t + HeaderLines(f) + d, e, c + FenceClose);
  }

  /** `a.download`: the file name without a PRD; with one, the part of the
      name before its first '.' followed by `_with_PRD.md`. */
  function DownloadName(f: GeneratedFile): string {
    if Filled(f.prd) then Split(f.name, ".")[0] + "_with_PRD.md" else f.name
  }

  /** With a PRD, the download name is a dot-free prefix of the file name
      (all of it when it has no dot) followed by `_with_PRD.md`. */
  lemma DownloadNameShape(f: GeneratedFile)
    ensures !Filled(f.prd) ==> DownloadName(f) == f.name
    ensures Filled(f.prd) ==> exists stem ::
      && DownloadName(f) == stem + "_with_PRD.md"
      && StartsWith(f.name, stem)
      && !Contains(stem, ".")
      && (!Contains(f.name, ".") ==> stem == f.name)
  {
    if Filled(f.prd) {
      var stem := Split(f.name, ".")[0];
      SplitFirstPiece(f.name, ".");
      assert DownloadName(f) == stem + "_with_PRD.md";
    }
  }

  // ---------------------------------------------------------------------
  // The "copy all" text
  // ---------------------------------------------------------------------

  function Preamble(count: nat): string {
    "# Complete Code Generation Package\n" + ("Generated " + NatToString(count) + " files\n\n")
  }

  /** The block of the `k`-th file (counting from 1), appended to `t`:
      the banner naming the file, the PRD when there is one, the details,
      and the fenced code. */
  function WithFileBlock(t: string, f: GeneratedFile, k: nat): string {
    var t := t + (Repeat('=', 80) + "\n");
    var t := t + ("# FILE " + NatToString(k) + ": " + f.name + "\n");
    var t := t + (Repeat('=', 80) + "\n\n");
    WithBlockSource(WithBlockDetails(WithBlockPrd(t, f), f), f)
  }

  function WithBlockPrd(t: string, f: GeneratedFile): (r: string)
    ensures StartsWith(r, t)
  {
    if Filled(f.prd) then t + "## Product Requirements Document\n\n" + f.prd.value + "\n\n" else t
  }

  function WithBlockDetails(t: string, f: GeneratedFile): (r: string)
    ensures StartsWith(r, t)
  {
    var t := t + "## Implementation Details\n";
    var t := t + ("- **Path:** " + f.path + "\n");
    var t := t + ("- **Type:** " + f.fileType + "\n");
    var t := t + ("- **Language:** " + f.language + "\n");
    var t := if Filled(f.description) then t + ("- **Description:** " + f.description.value + "\n") else t;
    t + "\n"
  }

  function WithBlockSource(t: string, f: GeneratedFile): (r: string)
    ensures StartsWith(r, t)
  {
    var t := t + "## Source Code\n\n";
    var t := t + ("```" + f.language + "\n");
    var t := t + f.content;
    t + "\n```\n\n"
  }

  /** The preamble for `count` files followed by the blocks of `files`. */
  function AllText(files: seq<GeneratedFile>, count: nat): string {
    if files == [] then Preamble(count)
    else WithFileBlock(AllText(files[..|files| - 1], count), files[|files| - 1], |files|)
  }

  /** The clipboard text of "copy all". */
  function CopyAllText(files: seq<GeneratedFile>): string {
    AllText(files, |files|)
  }

  /** `handleCopyAllFiles`: nothing while a copy is under way; otherwise the
      preamble and one block per file, appended in a loop. */
  method CopyAllFiles(files: seq<GeneratedFile>, copyingAll: bool) returns (text: Option<string>)
    ensures copyingAll ==> text == None
    ensures !copyingAll ==> text == Some(CopyAllText(files))
  {
    if copyingAll {
      return None;
    }
    var all := "# Complete Code Generation Package\n";
    all := all + ("Generated " + NatToString(|files|) + " files\n\n");
    var i := 0;
    while i < |files|
      invariant 0 <= i <= |files|
      invariant all == AllText(files[..i], |files|)
    {
      all := AppendFileBlock(all, files[i], i + 1);
      AllTextSnoc(files, i, |files|);
      i := i + 1;
    }
    assert files[..i] == files;
    text := Some(all);
  }

  lemma AllTextSnoc(files: seq<GeneratedFile>, i: nat, count: nat)
    requires i < |files|
    ensures AllText(files[..i + 1], count) == WithFileBlock(AllText(files[..i], count), files[i], i + 1)
  {
    TakeTake(files, i + 1, i);
  }

  lemma TakeTake<T>(s: seq<T>, n: nat, k: nat)
    requires k <= n <= |s|
    ensures s[..n][..k] == s[..k]
  {
  }

  /** The body of the `forEach` for one file: append its block. */
  method AppendFileBlock(all0: string, f: GeneratedFile, k: nat) returns (all: string)
    ensures all == WithFileBlock(all0, f, k)
  {
    all := all0;
    all := all + (Repeat('=', 80) + "\n");
    all := all + ("# FILE " + NatToString(k) + ": " + f.name + "\n");
    all := all + (Repeat('=', 80) + "\n\n");
    if Filled(f.prd) {
      all := all + "## Product Requirements Document\n\n";
      all := all + f.prd.value;
      all := all + "\n\n";
    }
    all := all + "## Implementation Details\n";
    all := all + ("- **Path:** " + f.path + "\n");
    all := all + ("- **Type:** " + f.fileType + "\n");
    all := all + ("- **Language:** " + f.language + "\n");
    if Filled(f.description) {
      all := all + ("- **Description:** " + f.description.value + "\n");
    }
    all := all + "\n";
    all := all + "## Source Code\n\n";
    all := all + ("```" + f.language + "\n");
    all := all + f.content;
    all := all + "\n```\n\n";
  }

  /** Appending a block keeps what was there and puts the banner naming
      the file right after it. */
  lemma WithFileBlockExtends(t: string, f: GeneratedFile, k: nat)
    ensures StartsWith(WithFileBlock(t, f, k),
                       t + (Repeat('=', 80) + "\n") + ("# FILE " + NatToString(k) + ": " + f.name + "\n"))
    ensures StartsWith(WithFileBlock(t, f, k), t)
  {
    var g := t + (Repeat('=', 80) + "\n");
    var h := g + ("# FILE " + NatToString(k) + ": " + f.name + "\n");
    var u := h + (Repeat('=', 80) + "\n\n");
    var v := WithBlockPrd(u, f);
    var w := WithBlockDetails(v, f);
    StartsWithAppend(h, Repeat('=', 80) + "\n\n");
    StartsWithTrans(v, u, h);
    StartsWithTrans(w, v, h);
    StartsWithTrans(WithBlockSource(w, f), w, h);
    StartsWithAppend(g, "# FILE " + NatToString(k) + ": " + f.name + "\n");
    StartsWithAppend(t, Repeat('=', 80) + "\n");
    StartsWithTrans(h, g, t);
    StartsWithTrans(WithBlockSource(w, f), h, t);
  }

  /** The text of the first `k` files is a prefix of the text of all of
      them: blocks are never rewritten, only appended. */
  lemma {:induction false} AllTextGrows(files: seq<GeneratedFile>, k: nat, count: nat)
    requires k <= |files|
    ensures StartsWith(AllText(files, count), AllText(files[..k], count))
    decreases |files|
  {
    if k == |files| {
      assert files[..k] == files;
    } else {
      AllTextGrows(files[..|files| - 1], k, count);
      AllTextGrowsStep(files, k, count);
    }
  }

  lemma AllTextGrowsStep(files: seq<GeneratedFile>, k: nat, count: nat)
    requires k < |files|
    requires StartsWith(AllText(files[..|files| - 1], count), AllText(files[..|files| - 1][..k], count))
    ensures StartsWith(AllText(files, count), AllText(files[..k], count))
  {
    TakeTake(files, |files| - 1, k);
    AllTextKeeps(files, count);
    StartsWithTrans(AllText(files, count), AllText(files[..|files| - 1], count), AllText(files[..k], count));
  }

  lemma AllTextKeeps(files: seq<GeneratedFile>, count: nat)
    requires files != []
    ensures StartsWith(AllText(files, count), AllText(files[..|files| - 1], count))
  {
    WithFileBlockExtends(AllText(files[..|files| - 1], count), files[|files| - 1], |files|);
  }

  /** The text opens with the preamble giving the number of files, and,
      for k = 1, ..., N, the k-th block follows the first k - 1 blocks and
      is headed by the banner naming the k-th file with its number. */
  lemma CopyAllBlocks(files: seq<GeneratedFile>, k: nat)
    requires 1 <= k <= |files|
    ensures StartsWith(CopyAllText(files), Preamble(|files|))
    ensures StartsWith(CopyAllText(files),
                       AllText(files[..k - 1], |files|) + (Repeat('=', 80) + "\n")
                       + ("# FILE " + NatToString(k) + ": " + files[k - 1].name + "\n"))
  {
    AllTextGrows(files, 0, |files|);
    assert files[..0] == [];
    AllTextGrows(files, k, |files|);
    AllTextSnoc(files, k - 1, |files|);
    WithFileBlockExtends(AllText(files[..k - 1], |files|), files[k - 1], k);
    StartsWithTrans(CopyAllText(files), AllText(files[..k], |files|),
                    AllText(files[..k - 1], |files|) + (Repeat('=', 80) + "\n")
                    + ("# FILE " + NatToString(k) + ": " + files[k - 1].name + "\n"));
  }

  // ---------------------------------------------------------------------
  // Panel width
  // ---------------------------------------------------------------------

  const MinWidth: int := 300

  /** The width the panel takes while it is dragged to `newWidth`, with
      `maxWidth` the upper bound of the moment. */
  function ClampWidth(newWidth: int, maxWidth: int): (w: int)
    ensures w >= MinWidth
    ensures maxWidth >= MinWidth ==> w <= maxWidth
    ensures MinWidth <= newWidth <= maxWidth ==> w == newWidth
    ensures newWidth <= MinWidth ==> w == MinWidth
    ensures maxWidth < MinWidth ==> w == MinWidth
    ensures MinWidth <= maxWidth <= newWidth ==> w == maxWidth
  {
    var inner := if maxWidth < newWidth then maxWidth else newWidth;
    if MinWidth < inner then inner else MinWidth
  }

  /** Clamping a clamped width again changes nothing. */
  lemma ClampIdempotent(newWidth: int, maxWidth: int)
    ensures ClampWidth(ClampWidth(newWidth, maxWidth), maxWidth) == ClampWidth(newWidth, maxWidth)
  {
  }

  /** Dragging further never shrinks the panel. */
  lemma ClampMonotone(a: int, b: int, maxWidth: int)
    requires a <= b
    ensures ClampWidth(a, maxWidth) <= ClampWidth(b, maxWidth)
  {
  }

  // ---------------------------------------------------------------------
  // PRD rendering
  // ---------------------------------------------------------------------

  /** A string placed between two others is contained in the result. */
  lemma {:induction false} ContainsInside(a: string, b: string, c: string)
    ensures Contains(a + b + c, b)
    decreases |a|
  {
    if a == [] {
      assert (a + b + c)[..|b|] == b;
    } else {
      ContainsInside(a[1..], b, c);
      assert (a + b + c)[1..] == a[1..] + b + c;
    }
  }

  /** A piece of an emphasised or code-marked line; `marked` pieces are the
      ones shown in bold (or as code). */
  datatype Segment = Segment(text: string, marked: bool)

  /** How the PRD panel shows one line. */
  datatype PrdLine =
    | Heading(level: nat, text: string)
    | Emphasis(parts: seq<Segment>)
    | ListItem(text: string)
    | CodeLabel(lang: string)
    | InlineCode(parts: seq<Segment>)
    | Spacer
    | Paragraph(text: string)

  /** The pieces of a split line; every second piece, from the second on,
      is marked. */
  function Segments(parts: seq<string>): (r: seq<Segment>)
    ensures |r| == |parts|
    ensures forall i :: 0 <= i < |r| ==> r[i].text == parts[i] && (r[i].marked <==> i % 2 == 1)
  {
    seq(|parts|, i requires 0 <= i < |parts| => Segment(parts[i], i % 2 == 1))
  }

  function Texts(segs: seq<Segment>): (r: seq<string>)
    ensures |r| == |segs|
    ensures forall i :: 0 <= i < |r| ==> r[i] == segs[i].text
  {
    seq(|segs|, i requires 0 <= i < |segs| => segs[i].text)
  }

  /** The rules, tried in order: headings, `**` emphasis, list items, code
      fences, inline code, blank lines, paragraphs. */
  function Classify(line: string): PrdLine {
    if StartsWith(line, "# ") then Heading(1, line[2..])
    else if StartsWith(line, "## ") then Heading(2, line[3..])
    else if StartsWith(line, "### ") then Heading(3, line[4..])
    else if Contains(line, "**") then Emphasis(Segments(Split(line, "**")))
    else if StartsWith(line, "- ") then ListItem(line[2..])
    else if StartsWith(line, "```") then CodeLabel(line[3..])
    else if Contains(line, "`") then InlineCode(Segments(Split(line, "`")))
    else if Trim(line) == "" then Spacer
    else Paragraph(line)
  }

  /** The label shown for a code fence. */
  function CodeLabelText(lang: string): (r: string)
    ensures lang == "" <==> r == "Code Block"
  {
    if lang != "" then "Code Block (" + lang + ")" else "Code Block"
  }

  /** The line a rendering stands for: markers put back, pieces joined. */
  function Source(c: PrdLine): string {
    match c
    case Heading(level, text) => Repeat('#', level) + " " + text
    case Emphasis(parts) => Join(Texts(parts), "**")
    case ListItem(text) => "- " + text
    case CodeLabel(lang) => "```" + lang
    case InlineCode(parts) => Join(Texts(parts), "`")
    case Spacer => ""
    case Paragraph(text) => text
  }

  lemma TextsOfSegments(parts: seq<string>)
    ensures Texts(Segments(parts)) == parts
  {
  }

  lemma PrefixRest(line: string, p: string)
    requires StartsWith(line, p)
    ensures p + line[|p|..] == line
  {
  }

  /** Nothing is lost: every line that is not blank is the source of its
      rendering. */
  lemma ClassifyRoundTrip(line: string)
    requires !IsBlank(line)
    ensures Source(Classify(line)) == line
  {
    var c := Classify(line);
    if StartsWith(line, "# ") {
      PrefixRest(line, "# ");
      assert Repeat('#', 1) == "#";
    } else if StartsWith(line, "## ") {
      PrefixRest(line, "## ");
      assert Repeat('#', 2) == "##";
    } else if StartsWith(line, "### ") {
      PrefixRest(line, "### ");
      assert Repeat('#', 3) == "###";
    } else if Contains(line, "**") {
      TextsOfSegments(Split(line, "**"));
      JoinSplit(line, "**");
    } else if StartsWith(line, "- ") {
      PrefixRest(line, "- ");
    } else if StartsWith(line, "```") {
      PrefixRest(line, "```");
    } else if Contains(line, "`") {
      TextsOfSegments(Split(line, "`"));
      JoinSplit(line, "`");
    } else {
      assert Trim(line) != "";
    }
  }

  /** A line is rendered as a spacer exactly when it is blank. */
  lemma SpacerIffBlank(line: string)
    ensures Classify(line) == Spacer <==> IsBlank(line)
  {
    if IsBlank(line) {
      BlankAvoids(line, "# ");
      BlankAvoids(line, "## ");
      BlankAvoids(line, "### ");
      BlankAvoids(line, "**");
      BlankAvoids(line, "- ");
      BlankAvoids(line, "```");
      BlankAvoids(line, "`");
      assert forall p :: Contains(line, p) || !StartsWith(line, p);
    }
  }

  /** The pieces of an emphasised line carry no `**` of their own, and the
      marked ones are those at odd positions. */
  lemma EmphasisPieces(line: string)
    requires Classify(line).Emphasis?
    ensures var parts := Classify(line).parts;
      forall i :: 0 <= i < |parts| ==> !Contains(parts[i].text, "**") && (parts[i].marked <==> i % 2 == 1)
  {
    SplitPiecesAvoidSeparator(line, "**");
  }

  // ---------------------------------------------------------------------
  // Line count
  // ---------------------------------------------------------------------

  /** `content.split('\n').length`. */
  function LineCount(content: string): nat {
    |Split(content, "\n")|
  }

  /** The line count is the number of newlines plus one. */
  lemma LineCountIsNewlines(content: string)
    ensures LineCount(content) == CountChar(content, '\n') + 1
  {
    SplitCountChar(content, '\n');
  }

  /** The gutter numbers: 1 up to the line count. */
  function Gutter(content: string): (r: seq<nat>)
    ensures |r| == CountChar(content, '\n') + 1
    ensures forall i :: 0 <= i < |r| ==> r[i] == i + 1
  {
    LineCountIsNewlines(content);
    seq(LineCount(content), i => i + 1)
  }
}
