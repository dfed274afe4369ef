/**
 * The summary panel of components/AnalysisDisplay.tsx: `renderFormattedText`
 * splits the model's summary into lines, drops blank ones and tags each of the
 * rest as a heading (`**...**`), a bullet (`- ...`) or a plain paragraph; the
 * panel itself shows a spinner while loading, nothing for an absent or empty
 * summary, and the formatted summary otherwise.
 */
module AnalysisDisplay {
  import opened Options
  import opened JsString

  /** What one kept line becomes: an `<h3>`, an `<li>` or a `<p>`. */
  datatype Item = Heading(content: string) | Bullet(content: string) | Paragraph(line: string)

  predicate HeadingShaped(line: string) {
    StartsWith(line, "**") && EndsWith(line, "**")
  }

  /** The tag of one line, tested on the line exactly as split, without trimming. */
  function ClassifyLine(line: string): (item: Item)
    ensures item.Heading? <==> HeadingShaped(line)
    ensures item.Bullet? <==> !HeadingShaped(line) && StartsWith(line, "- ")
    ensures item.Heading? && |line| >= 4 ==> "**" + item.content + "**" == line
    ensures item.Heading? && |line| < 4 ==> item.content == []
    ensures item.Bullet? ==> "- " + item.content == line
    ensures item.Paragraph? ==> item.line == line
  {
    if HeadingShaped(line) then
      SliceDropsTwoEach(line);
      assert |line| >= 4 ==> line == "**" + line[2..|line| - 2] + "**";
      Heading(Slice(line, 2, -2))
    else if StartsWith(line, "- ") then
      assert line == "- " + line[2..];
      Bullet(Slice(line, 2, |line|))
    else
      Paragraph(line)
  }

  /** The line an item is written from, when nothing was lost. */
  function Unclassify(item: Item): string {
    match item
    case Heading(c) => "**" + c + "**"
    case Bullet(c) => "- " + c
    case Paragraph(l) => l
  }

  /** A paragraph line that would not be read back as a heading or a bullet. */
  predicate Plain(item: Item) {
    item.Paragraph? ==> !HeadingShaped(item.line) && !StartsWith(item.line, "- ")
  }

  /** Classification loses nothing except the content of the short headings `**` and `***`. */
  lemma UnclassifyClassify(line: string)
    ensures !(HeadingShaped(line) && |line| < 4) ==> Unclassify(ClassifyLine(line)) == line
    ensures HeadingShaped(line) && |line| < 4 ==> ClassifyLine(line) == Heading([])
  {
  }

  /** Every item written out as its line is read back as the same item. */
  lemma ClassifyUnclassify(item: Item)
    requires Plain(item)
    ensures ClassifyLine(Unclassify(item)) == item
  {
    match item
    case Heading(c) =>
      var line := "**" + c + "**";
      assert line[..2] == "**" && line[|line| - 2..] == "**";
    case Bullet(c) =>
      var line := "- " + c;
      assert line[..2] == "- ";
      assert !StartsWith(line, "**") by {
        assert line[1] == ' ';
      }
    case Paragraph(l) =>
  }

  /** Indented bullets are not bullets: the line is not trimmed before it is classified. */
  lemma IndentedDashIsParagraph(rest: string)
    ensures ClassifyLine("  - " + rest) == Paragraph("  - " + rest)
  {
    var line := "  - " + rest;
    assert line[0] == ' ' && line[1] == ' ';
  }

  /** A line of white space only. */
  predicate Blank(line: string) {
    forall i :: 0 <= i < |line| ==> IsSpace(line[i])
  }

  /** The filter's test `line.trim() !== ''` keeps exactly the lines that are not blank. */
  lemma KeptIffNotBlank(line: string)
    ensures Trim(line) != [] <==> !Blank(line)
  {
    TrimEmptyIff(line);
  }

  /** `lines.filter(line => line.trim() !== '')` */
  function NonBlank(lines: seq<string>): (r: seq<string>)
    ensures |r| <= |lines|
    ensures forall i :: 0 <= i < |r| ==> !Blank(r[i])
  {
    if lines == [] then []
    else (if Blank(lines[0]) then [] else [lines[0]]) + NonBlank(lines[1..])
  }

  /** Filtering a concatenation filters each part. */
  lemma {:induction false} NonBlankConcat(a: seq<string>, b: seq<string>)
    ensures NonBlank(a + b) == NonBlank(a) + NonBlank(b)
  {
    if a != [] {
      NonBlankConcat(a[1..], b);
      assert (a + b)[0] == a[0] && (a + b)[1..] == a[1..] + b;
    } else {
      assert a + b == b;
    }
  }

  /** `lines.map(...)`: each line classified on its own. */
  function ClassifyEach(lines: seq<string>): (items: seq<Item>)
    ensures |items| == |lines|
    ensures forall i :: 0 <= i < |lines| ==> items[i] == ClassifyLine(lines[i])
  {
    if lines == [] then [] else [ClassifyLine(lines[0])] + ClassifyEach(lines[1..])
  }

  /** `renderFormattedText`: one item for each non-blank line, in order. */
  function RenderFormattedText(text: string): (items: seq<Item>)
    ensures |items| == |NonBlank(Split(text, '\n'))|
  {
    ClassifyEach(NonBlank(Split(text, '\n')))
  }

  /** A single line renders as its own item, or as nothing when it is blank. */
  lemma RenderLine(line: string)
    requires '\n' !in line
    ensures RenderFormattedText(line) == if Blank(line) then [] else [ClassifyLine(line)]
  {
    SplitPiece(line, [], '\n');
    assert line + [] == line;
    assert Split(line, '\n') == [line];
    assert NonBlank([line]) == (if Blank(line) then [] else [line]);
  }

  /** A line, a newline, then more text: the line's item comes first, then the rest's. */
  lemma RenderFirstLine(line: string, rest: string)
    requires '\n' !in line
    ensures RenderFormattedText(line + "\n" + rest) == RenderFormattedText(line) + RenderFormattedText(rest)
  {
    assert line + "\n" + rest == line + ['\n'] + rest;
    SplitFirstLine(line, rest, '\n');
    RenderLine(line);
    var kept := NonBlank(Split(rest, '\n'));
    NonBlankConcat([line], Split(rest, '\n'));
    var head := if Blank(line) then [] else [line];
    assert NonBlank([line]) == head;
    assert ClassifyEach(head + kept) == ClassifyEach(head) + ClassifyEach(kept);
  }

  /** What the panel shows. */
  datatype View = Spinner | Nothing | Analysis(items: seq<Item>)

  /** The panel: loading comes first; then an absent or empty summary shows nothing. */
  function Display(summary: Option<string>, isLoading: bool): (v: View)
    ensures v.Spinner? <==> isLoading
    ensures v.Nothing? <==> !isLoading && (summary.None? || summary.value == [])
    ensures v.Analysis? ==> summary.Some? && v.items == RenderFormattedText(summary.value)
  {
    if isLoading then Spinner
    else if summary.None? || summary.value == [] then Nothing
    else Analysis(RenderFormattedText(summary.value))
  }
}
