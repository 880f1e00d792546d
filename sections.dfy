/** What the Markdown section splitter promises: how a document cut at its headers or into runs
    of paragraphs relates to the document, what merging small sections keeps, and the file name
    each section is saved to. The loops themselves are in module `Splitter`. */
module Sections {
  import opened Wrappers
  import opened Text

  /** A section dict. `endLine` is absent from the sections `split_by_length` makes, and `level`
      is set only by `split_by_headers`. */
  datatype Section = Section(
    sectionId: int,
    title: string,
    content: string,
    startLine: int,
    endLine: Option<int>,
    level: Option<int>)

  /** The contents of the sections, in order. */
  function Contents(s: seq<Section>): (r: seq<string>)
    ensures |r| == |s|
    ensures forall j :: 0 <= j < |s| ==> r[j] == s[j].content
  {
    seq(|s|, j requires 0 <= j < |s| => s[j].content)
  }

  // ---------------------------------------------------------------------------
  // Splitting at headers
  // ---------------------------------------------------------------------------

  /** The lines of the document: `content.split('\n')`. */
  function Lines(markdown: string): seq<string> {
    Split(markdown, '\n')
  }

  /** `len(line.split()[0])`: the length of the line's first token, its run of `#` for a header. */
  function Level(line: string): int {
    |FirstToken(line)|
  }

  /** A line that opens a section: it starts with `#` once stripped, is not a lone `#`, and its
      first token is at most `maxLevel` long. */
  predicate IsHeader(line: string, maxLevel: int) {
    StartsWith(Strip(line), "#") && Level(line) <= maxLevel && Strip(line) != "#"
  }

  /** `line.strip().lstrip('#').strip()`. */
  function HeaderTitle(line: string): string {
    Strip(LStripChar(Strip(line), '#'))
  }

  /** The sections cover lines `0 .. upto - 1` of `lines` one after the other, each holding its own
      lines joined with newlines. */
  ghost predicate Tiles(s: seq<Section>, lines: seq<string>, upto: int) {
    && upto <= |lines|
    && (|s| == 0 ==> upto == 0)
    && (|s| > 0 ==> s[0].startLine == 0 && s[|s| - 1].endLine == Some(upto - 1))
    && (forall j :: 0 <= j < |s| ==> s[j].endLine.Some? && 0 <= s[j].startLine <= s[j].endLine.value < |lines|)
    && (forall j, k :: 0 <= j < k < |s| && k == j + 1 ==> s[j].endLine.value + 1 == s[k].startLine)
    && (forall j :: 0 <= j < |s| ==> s[j].content == Join(lines[s[j].startLine..s[j].endLine.value + 1], "\n"))
  }

  /** How the section at position `j` is labelled, given its id, title, first line and level:
      the introduction (lines before any header) is section 0 with level 0; a header's section is
      numbered by its position counted from 1 and takes its title and level from its header line. */
  predicate LabelledAs(id: int, title: string, start: int, level: Option<int>, j: int,
                       lines: seq<string>, maxLevel: int)
  {
    && 0 <= start < |lines|
    && if j == 0 && !IsHeader(lines[0], maxLevel) then
         id == 0 && title == "Introduction" && level == Some(0) && start == 0
       else
         && id == j + 1 && IsHeader(lines[start], maxLevel)
         && title == HeaderTitle(lines[start]) && level == Some(Level(lines[start]))
  }

  predicate Labelled(s: Section, j: int, lines: seq<string>, maxLevel: int) {
    LabelledAs(s.sectionId, s.title, s.startLine, s.level, j, lines, maxLevel)
  }

  /** No line of `lines` strictly after `start` and before `end` is a header. */
  predicate NoInnerHeader(lines: seq<string>, start: int, end: int, maxLevel: int) {
    forall x {:trigger IsHeader(lines[x], maxLevel)} :: start < x < end && 0 <= x < |lines| ==> !IsHeader(lines[x], maxLevel)
  }

  /** A closed section in which no line after the first is a header. */
  predicate Plain(s: Section, lines: seq<string>, maxLevel: int) {
    s.endLine.Some? && NoInnerHeader(lines, s.startLine, s.endLine.value + 1, maxLevel)
  }

  /** Joining the contents of sections that tile the first `upto` lines gives those lines joined. */
  lemma {:induction false} TilesJoin(s: seq<Section>, lines: seq<string>, upto: int)
    requires Tiles(s, lines, upto) && |s| > 0
    ensures Join(Contents(s), "\n") == Join(lines[..upto], "\n")
    decreases |s|
  {
    var last := s[|s| - 1];
    if |s| == 1 {
      assert lines[last.startLine..last.endLine.value + 1] == lines[..upto];
    } else {
      var front := s[..|s| - 1];
      TilesFront(s, lines, upto);
      TilesJoin(front, lines, last.startLine);
      assert Contents(s) == Contents(front) + [last.content];
      JoinAppend(Contents(front), [last.content], "\n");
      assert lines[..upto] == lines[..last.startLine] + lines[last.startLine..upto];
      JoinAppend(lines[..last.startLine], lines[last.startLine..upto], "\n");
    }
  }

  /** Sections that tile the first `upto` lines, but for the last, tile the lines before it. */
  lemma TilesFront(s: seq<Section>, lines: seq<string>, upto: int)
    requires Tiles(s, lines, upto) && |s| > 1
    ensures var last := s[|s| - 1];
      && 0 < last.startLine && last.endLine == Some(upto - 1)
      && last.content == Join(lines[last.startLine..upto], "\n")
      && Tiles(s[..|s| - 1], lines, last.startLine)
  {
    var front := s[..|s| - 1];
    assert forall j :: 0 <= j < |front| ==> front[j] == s[j];
    assert front[|front| - 1].endLine == Some(s[|s| - 1].startLine - 1);
  }

  /** Closing the section that runs from `start` to line `end - 1` extends the tiling. */
  lemma TilesSnoc(s: seq<Section>, lines: seq<string>, start: int, end: int, t: Section)
    requires Tiles(s, lines, start) && 0 <= start < end <= |lines|
    requires t.startLine == start && t.endLine == Some(end - 1) && t.content == Join(lines[start..end], "\n")
    ensures Tiles(s + [t], lines, end)
  {
    var all := s + [t];
    assert forall j :: 0 <= j < |s| ==> all[j] == s[j];
  }

  /** The layout after the first `i` lines: `sections` tile the lines before the open section,
      which starts at `start` and holds every line since. */
  ghost predicate Shape(lines: seq<string>, i: int, sections: seq<Section>, current: seq<string>, start: int) {
    && 0 <= i <= |lines|
    && (i == 0 ==> sections == [] && current == [] && start == 0)
    && (i > 0 ==> 0 <= start < i && current == lines[start..i])
    && Tiles(sections, lines, start)
  }

  /** The labels after the first `i` lines: every section, the open one included, is labelled by
      its position, and none has a header after its first line. */
  ghost predicate Labels(lines: seq<string>, maxLevel: int, i: int, sections: seq<Section>,
                         id: int, title: string, start: int, level: int)
  {
    && 0 <= start <= i <= |lines|
    && (i == 0 ==> sections == [] && id == 0 && title == "Introduction" && start == 0 && level == 0)
    && (forall j {:trigger Labelled(sections[j], j, lines, maxLevel)} ::
          0 <= j < |sections| ==> Labelled(sections[j], j, lines, maxLevel))
    && (forall j {:trigger Plain(sections[j], lines, maxLevel)} ::
          0 <= j < |sections| ==> Plain(sections[j], lines, maxLevel))
    && (i > 0 ==> LabelledAs(id, title, start, Some(level), |sections|, lines, maxLevel))
    && NoInnerHeader(lines, start, i, maxLevel)
  }

  /** The open section, closed at line `end - 1`. */
  function Closed(current: seq<string>, id: int, title: string, start: int, end: int, level: int): Section {
    Section(id, title, Join(current, "\n"), start, Some(end - 1), Some(level))
  }

  /** The open section, if it holds any line, appended to `sections`. */
  function CloseOpen(sections: seq<Section>, current: seq<string>, id: int, title: string, start: int,
                     end: int, level: int): seq<Section>
  {
    if |current| > 0 then sections + [Closed(current, id, title, start, end, level)] else sections
  }

  lemma ShapeAppend(lines: seq<string>, i: int, sections: seq<Section>, current: seq<string>, start: int)
    requires Shape(lines, i, sections, current, start) && i < |lines|
    ensures Shape(lines, i + 1, sections, current + [lines[i]], start)
  {
    assert lines[start..i + 1] == lines[start..i] + [lines[i]];
  }

  lemma ShapeClose(lines: seq<string>, i: int, sections: seq<Section>, current: seq<string>,
                   id: int, title: string, start: int, level: int)
    requires Shape(lines, i, sections, current, start) && i < |lines|
    ensures |current| > 0 <==> i > 0
    ensures Shape(lines, i + 1, CloseOpen(sections, current, id, title, start, i, level), [lines[i]], i)
  {
    if |current| > 0 {
      TilesSnoc(sections, lines, start, i, Closed(current, id, title, start, i, level));
    }
    assert lines[i..i + 1] == [lines[i]];
  }

  lemma LabelsAppend(lines: seq<string>, maxLevel: int, i: int, sections: seq<Section>,
                     id: int, title: string, start: int, level: int)
    requires Labels(lines, maxLevel, i, sections, id, title, start, level)
    requires i < |lines| && !IsHeader(lines[i], maxLevel)
    ensures Labels(lines, maxLevel, i + 1, sections, id, title, start, level)
  {
  }

  lemma LabelsHeader(lines: seq<string>, maxLevel: int, i: int, sections: seq<Section>, current: seq<string>,
                     id: int, title: string, start: int, level: int)
    requires Labels(lines, maxLevel, i, sections, id, title, start, level)
    requires i < |lines| && IsHeader(lines[i], maxLevel) && (|current| > 0 <==> i > 0)
    ensures var all := CloseOpen(sections, current, id, title, start, i, level);
      Labels(lines, maxLevel, i + 1, all, |all| + 1, HeaderTitle(lines[i]), i, Level(lines[i]))
  {
    var all := CloseOpen(sections, current, id, title, start, i, level);
    if |current| > 0 {
      var closed := Closed(current, id, title, start, i, level);
      assert forall j :: 0 <= j < |sections| ==> all[j] == sections[j];
      assert Labelled(closed, |sections|, lines, maxLevel);
      assert Plain(closed, lines, maxLevel);
    }
  }

  /** What holds after the first `i` lines. */
  ghost predicate Scanned(lines: seq<string>, maxLevel: int, i: int, sections: seq<Section>, current: seq<string>,
                          id: int, title: string, start: int, level: int)
  {
    Shape(lines, i, sections, current, start) && Labels(lines, maxLevel, i, sections, id, title, start, level)
  }

  /** Before the first line: no section, and an empty introduction open. */
  lemma ScanStart(lines: seq<string>, maxLevel: int)
    ensures Scanned(lines, maxLevel, 0, [], [], 0, "Introduction", 0, 0)
  {
  }

  /** A line that is not a header joins the open section. */
  lemma ScanAppend(lines: seq<string>, maxLevel: int, i: int, sections: seq<Section>, current: seq<string>,
                   id: int, title: string, start: int, level: int)
    requires Scanned(lines, maxLevel, i, sections, current, id, title, start, level)
    requires i < |lines| && !IsHeader(lines[i], maxLevel)
    ensures Scanned(lines, maxLevel, i + 1, sections, current + [lines[i]], id, title, start, level)
  {
    ShapeAppend(lines, i, sections, current, start);
    LabelsAppend(lines, maxLevel, i, sections, id, title, start, level);
  }

  /** A header closes the open section, if it holds any line, and opens its own. */
  lemma ScanHeader(lines: seq<string>, maxLevel: int, i: int, sections: seq<Section>, current: seq<string>,
                   id: int, title: string, start: int, level: int)
    requires Scanned(lines, maxLevel, i, sections, current, id, title, start, level)
    requires i < |lines| && IsHeader(lines[i], maxLevel)
    ensures var all := CloseOpen(sections, current, id, title, start, i, level);
      Scanned(lines, maxLevel, i + 1, all, [lines[i]], |all| + 1, HeaderTitle(lines[i]), i, Level(lines[i]))
  {
    ShapeClose(lines, i, sections, current, id, title, start, level);
    LabelsHeader(lines, maxLevel, i, sections, current, id, title, start, level);
  }

  /** After the last line, closing the open section leaves sections that tile every line. */
  lemma ScanFinish(lines: seq<string>, maxLevel: int, sections: seq<Section>, current: seq<string>,
                   id: int, title: string, start: int, level: int)
    requires Scanned(lines, maxLevel, |lines|, sections, current, id, title, start, level) && |lines| > 0
    ensures var all := CloseOpen(sections, current, id, title, start, |lines|, level);
      && |all| == |sections| + 1
      && Tiles(all, lines, |lines|)
      && (forall j {:trigger Labelled(all[j], j, lines, maxLevel)} ::
            0 <= j < |all| ==> Labelled(all[j], j, lines, maxLevel))
      && (forall j {:trigger Plain(all[j], lines, maxLevel)} :: 0 <= j < |all| ==> Plain(all[j], lines, maxLevel))
  {
    var closed := Closed(current, id, title, start, |lines|, level);
    var all := sections + [closed];
    TilesSnoc(sections, lines, start, |lines|, closed);
    assert forall j :: 0 <= j < |sections| ==> all[j] == sections[j];
    assert Labelled(closed, |sections|, lines, maxLevel);
    assert Plain(closed, lines, maxLevel);
  }

  /** Sections that tile every line of a document give it back when joined with newlines. */
  lemma Lossless(markdown: string, sections: seq<Section>)
    requires Tiles(sections, Lines(markdown), |Lines(markdown)|) && |sections| > 0
    ensures Join(Contents(sections), "\n") == markdown
  {
    var lines := Lines(markdown);
    TilesJoin(sections, lines, |lines|);
    assert lines[..|lines|] == lines;
    SplitJoin(markdown, '\n');
  }

  // ---------------------------------------------------------------------------
  // Splitting by length
  // ---------------------------------------------------------------------------

  /** The paragraphs of the document: `content.split('\n\n')`. */
  function Paragraphs(markdown: string): seq<string> {
    SplitStr(markdown, "\n\n")
  }

  /** The summed length of some paragraphs, separators not counted (`current_length`). */
  function SumLen(g: seq<string>): nat {
    if |g| == 0 then 0 else SumLen(g[..|g| - 1]) + |g[|g| - 1]|
  }

  /** The paragraphs from the first non-empty one on: the leading empty paragraphs of a section
      leave no trace in its content. */
  function DropEmpty(g: seq<string>): seq<string> {
    if |g| > 0 && g[0] == "" then DropEmpty(g[1..]) else g
  }

  /** The groups of paragraphs, one after the other. */
  function Flatten<T>(gs: seq<seq<T>>): seq<T> {
    if |gs| == 0 then [] else Flatten(gs[..|gs| - 1]) + gs[|gs| - 1]
  }

  /** Each paragraph after a group's first was added to it because the section had no content yet
      or because it kept the section's length within `maxChars`. */
  ghost predicate Greedy(g: seq<string>, maxChars: int) {
    forall k :: 0 < k < |g| ==> DropEmpty(g[..k]) == [] || SumLen(g[..k]) + |g[k]| <= maxChars
  }

  /** The number `split_by_length` gives the section at position `j`: 1 for the first, then
      `len(sections) + 2`, which skips 2. */
  function LengthSectionId(j: nat): nat {
    if j == 0 then 1 else j + 2
  }

  /** The labels of the section at position `j` of `split_by_length`. */
  predicate Numbered(s: Section, j: nat) {
    && s.sectionId == LengthSectionId(j)
    && s.title == "Section " + NatToString(LengthSectionId(j))
    && s.startLine == (if j == 0 then 0 else 1)
    && s.endLine == None && s.level == None
  }

  /** The section at position `j` holds the paragraphs `g`, joined with blank lines once the
      leading empty ones are dropped. */
  ghost predicate Chunk(s: Section, j: nat, g: seq<string>, maxChars: int) {
    Numbered(s, j) && s.content == Join(DropEmpty(g), "\n\n") && Greedy(g, maxChars)
  }

  /** Each group after the first was started because its first paragraph would have taken the
      section before it over `maxChars`. */
  ghost predicate Breaks(groups: seq<seq<string>>, maxChars: int) {
    forall j :: 0 < j < |groups| ==> |groups[j]| > 0 && SumLen(groups[j - 1]) + |groups[j][0]| > maxChars
  }

  lemma LastSplit<T>(s: seq<T>)
    requires |s| > 0
    ensures s == s[..|s| - 1] + [s[|s| - 1]]
  {
  }

  lemma SumLenSnoc(g: seq<string>, p: string)
    ensures SumLen(g + [p]) == SumLen(g) + |p|
  {
    assert (g + [p])[..|g|] == g;
  }

  lemma FlattenSnoc<T>(gs: seq<seq<T>>, g: seq<T>)
    ensures Flatten(gs + [g]) == Flatten(gs) + g
  {
    assert (gs + [g])[..|gs|] == gs;
  }

  lemma {:induction false} DropEmptySnoc(g: seq<string>, p: string)
    ensures DropEmpty(g + [p]) ==
      if DropEmpty(g) != [] then DropEmpty(g) + [p] else if p == "" then [] else [p]
  {
    if |g| > 0 {
      assert (g + [p])[1..] == g[1..] + [p];
      DropEmptySnoc(g[1..], p);
    }
  }

  /** Joined parts whose first is not empty are not empty. */
  lemma JoinNotEmpty(parts: seq<string>, sep: string)
    requires |parts| > 0 && parts[0] != ""
    ensures Join(parts, sep) != ""
  {
  }

  lemma {:induction false} DropEmptyHead(g: seq<string>)
    ensures DropEmpty(g) == [] || DropEmpty(g)[0] != ""
  {
    if |g| > 0 && g[0] == "" {
      DropEmptyHead(g[1..]);
    }
  }

  /** A section's content is empty exactly when all its paragraphs are. */
  lemma ContentEmpty(g: seq<string>)
    ensures Join(DropEmpty(g), "\n\n") == "" <==> DropEmpty(g) == []
  {
    DropEmptyHead(g);
    if DropEmpty(g) != [] {
      JoinNotEmpty(DropEmpty(g), "\n\n");
    }
  }

  /** Adding a paragraph the way the loop does: after a blank line when the section has content,
      as the whole content when it has none. */
  lemma ContentSnoc(g: seq<string>, p: string)
    ensures var c := Join(DropEmpty(g), "\n\n");
      Join(DropEmpty(g + [p]), "\n\n") == if c != "" then c + "\n\n" + p else p
  {
    DropEmptySnoc(g, p);
    ContentEmpty(g);
    if DropEmpty(g) != [] {
      JoinAppend(DropEmpty(g), [p], "\n\n");
    }
  }

  lemma GreedySnoc(g: seq<string>, p: string, maxChars: int)
    requires Greedy(g, maxChars)
    requires DropEmpty(g) == [] || SumLen(g) + |p| <= maxChars
    ensures Greedy(g + [p], maxChars)
  {
    var h := g + [p];
    assert h[..|g|] == g;
    forall k | 0 < k < |h|
      ensures DropEmpty(h[..k]) == [] || SumLen(h[..k]) + |h[k]| <= maxChars
    {
      if k < |g| {
        assert h[..k] == g[..k];
      }
    }
  }

  /** A section longer than `maxChars` holds a single non-empty paragraph: the only way past the
      limit is a paragraph that is too long on its own. */
  lemma OversizedIsSingle(g: seq<string>, maxChars: int)
    requires Greedy(g, maxChars) && SumLen(g) > maxChars
    ensures |DropEmpty(g)| <= 1
  {
    if |g| > 1 {
      var h, p := g[..|g| - 1], g[|g| - 1];
      assert DropEmpty(h) == [] || SumLen(h) + |p| <= maxChars;
      LastSplit(g);
      DropEmptySnoc(h, p);
    }
  }

  /** What holds after the first `i` paragraphs: the closed sections hold `groups`, the open
      section `cur` holds `g`, and `length` is the summed length of `g`. */
  ghost predicate Grouped(paras: seq<string>, maxChars: int, i: int, sections: seq<Section>,
                          groups: seq<seq<string>>, cur: Section, g: seq<string>, length: int)
  {
    && 0 <= i <= |paras|
    && Flatten(groups) + g == paras[..i]
    && Done(maxChars, sections, groups)
    && Chunk(cur, |groups|, g, maxChars)
    && length == SumLen(g)
    && (|groups| > 0 ==> |g| > 0 && SumLen(groups[|groups| - 1]) + |g[0]| > maxChars)
  }

  /** The closed sections hold `groups`, each joined with blank lines and none empty. */
  ghost predicate Done(maxChars: int, sections: seq<Section>, groups: seq<seq<string>>) {
    && |sections| == |groups|
    && (forall j {:trigger Chunk(sections[j], j, groups[j], maxChars)} :: 0 <= j < |sections| ==>
          Chunk(sections[j], j, groups[j], maxChars) && sections[j].content != "")
    && Breaks(groups, maxChars)
  }

  /** Closing a section with content that holds `g`. */
  lemma DoneSnoc(maxChars: int, sections: seq<Section>, groups: seq<seq<string>>, cur: Section, g: seq<string>)
    requires Done(maxChars, sections, groups) && Chunk(cur, |groups|, g, maxChars) && cur.content != ""
    requires |groups| > 0 ==> |g| > 0 && SumLen(groups[|groups| - 1]) + |g[0]| > maxChars
    ensures Done(maxChars, sections + [cur], groups + [g])
  {
    var all := groups + [g];
    var secs := sections + [cur];
    forall j | 0 <= j < |secs|
      ensures Chunk(secs[j], j, all[j], maxChars) && secs[j].content != ""
    {
      if j < |sections| {
        assert secs[j] == sections[j] && all[j] == groups[j];
      }
    }
    BreaksSnoc(groups, g, maxChars);
  }

  /** A group that was started by a break extends the breaks. */
  lemma BreaksSnoc(groups: seq<seq<string>>, g: seq<string>, maxChars: int)
    requires Breaks(groups, maxChars)
    requires |groups| > 0 ==> |g| > 0 && SumLen(groups[|groups| - 1]) + |g[0]| > maxChars
    ensures Breaks(groups + [g], maxChars)
  {
    var all := groups + [g];
    assert forall j :: 0 <= j < |groups| ==> all[j] == groups[j];
  }

  /** The paragraph joins the open section. */
  lemma GroupAppend(paras: seq<string>, maxChars: int, i: int, sections: seq<Section>,
                    groups: seq<seq<string>>, cur: Section, g: seq<string>, length: int)
    requires Grouped(paras, maxChars, i, sections, groups, cur, g, length) && i < |paras|
    requires !(length + |paras[i]| > maxChars && cur.content != "")
    ensures var c := if cur.content != "" then cur.content + "\n\n" + paras[i] else paras[i];
      Grouped(paras, maxChars, i + 1, sections, groups, cur.(content := c), g + [paras[i]], length + |paras[i]|)
  {
    var p := paras[i];
    assert paras[..i + 1] == paras[..i] + [p];
    SumLenSnoc(g, p);
    ContentSnoc(g, p);
    ContentEmpty(g);
    GreedySnoc(g, p, maxChars);
  }

  /** The paragraph would take the open section over the limit: the section is closed and the
      paragraph opens the next. */
  lemma GroupBreak(paras: seq<string>, maxChars: int, i: int, sections: seq<Section>,
                   groups: seq<seq<string>>, cur: Section, g: seq<string>, length: int)
    requires Grouped(paras, maxChars, i, sections, groups, cur, g, length) && i < |paras|
    requires length + |paras[i]| > maxChars && cur.content != ""
    ensures var next := Section(|sections| + 3, "Section " + NatToString(|sections| + 3), paras[i], 1, None, None);
      Grouped(paras, maxChars, i + 1, sections + [cur], groups + [g], next, [paras[i]], |paras[i]|)
  {
    var p := paras[i];
    assert paras[..i + 1] == paras[..i] + [p];
    FlattenSnoc(groups, g);
    DoneSnoc(maxChars, sections, groups, cur, g);
    ChunkFirst(p, |groups| + 1, maxChars);
    SumLenSnoc([], p);
    assert [p] == [] + [p];
  }

  /** A section opened by paragraph `p` holds `p`. */
  lemma ChunkFirst(p: string, j: nat, maxChars: int)
    requires j > 0
    ensures Chunk(Section(j + 2, "Section " + NatToString(j + 2), p, 1, None, None), j, [p], maxChars)
  {
    assert [p][..0] == [];
    ContentSnoc([], p);
  }

  /** How `split_by_length` cuts the paragraphs: into consecutive groups, one per section, and
      trailing empty paragraphs that never gave a section content (`rest`); each section holds its
      group joined with blank lines and is never empty, and each group after the first was started
      because its first paragraph would have taken the one before over `maxChars`. */
  ghost predicate CutInto(paras: seq<string>, maxChars: int, sections: seq<Section>,
                          groups: seq<seq<string>>, rest: seq<string>)
  {
    && Flatten(groups) + rest == paras
    && Done(maxChars, sections, groups)
    && DropEmpty(rest) == []
    && (|groups| > 0 && |rest| > 0 ==> SumLen(groups[|groups| - 1]) + |rest[0]| > maxChars)
  }

  /** Before the first paragraph: no closed section and an empty "Section 1". */
  lemma GroupStart(paras: seq<string>, maxChars: int)
    ensures Grouped(paras, maxChars, 0, [], [], Section(1, "Section 1", "", 0, None, None), [], 0)
  {
    assert paras[..0] == [];
    assert NatToString(1) == "1";
  }

  /** After the last paragraph, an open section with content is kept. */
  lemma GroupClose(paras: seq<string>, maxChars: int, sections: seq<Section>,
                   groups: seq<seq<string>>, cur: Section, g: seq<string>, length: int)
    requires Grouped(paras, maxChars, |paras|, sections, groups, cur, g, length) && cur.content != ""
    ensures CutInto(paras, maxChars, sections + [cur], groups + [g], [])
  {
    assert paras[..|paras|] == paras;
    FlattenSnoc(groups, g);
    DoneSnoc(maxChars, sections, groups, cur, g);
  }

  /** After the last paragraph, an open section without content is dropped: its paragraphs are
      all empty. */
  lemma GroupDrop(paras: seq<string>, maxChars: int, sections: seq<Section>,
                  groups: seq<seq<string>>, cur: Section, g: seq<string>, length: int)
    requires Grouped(paras, maxChars, |paras|, sections, groups, cur, g, length) && cur.content == ""
    ensures CutInto(paras, maxChars, sections, groups, g)
  {
    assert paras[..|paras|] == paras;
    ContentEmpty(g);
  }

  /** No paragraph is empty: the document neither starts nor ends with a blank line and has no
      run of more than one blank line. */
  predicate NoEmptyParagraph(paras: seq<string>) {
    forall k :: 0 <= k < |paras| ==> paras[k] != ""
  }

  lemma {:induction false} DropEmptyKeeps(g: seq<string>)
    requires NoEmptyParagraph(g)
    ensures DropEmpty(g) == g
  {
  }

  lemma {:induction false} FlattenNoEmpty(gs: seq<seq<string>>)
    requires NoEmptyParagraph(Flatten(gs))
    ensures forall j :: 0 <= j < |gs| ==> NoEmptyParagraph(gs[j])
  {
    if |gs| > 0 {
      var front := gs[..|gs| - 1];
      var last := gs[|gs| - 1];
      assert Flatten(gs) == Flatten(front) + last;
      assert forall k :: 0 <= k < |last| ==> last[k] == Flatten(gs)[|Flatten(front)| + k];
      assert forall k :: 0 <= k < |Flatten(front)| ==> Flatten(front)[k] == Flatten(gs)[k];
      FlattenNoEmpty(front);
      assert forall j :: 0 <= j < |front| ==> gs[j] == front[j];
    }
  }

  /** Joining groups, then joining the results, with one separator is joining them all at once. */
  lemma {:induction false} JoinFlatten(parts: seq<string>, gs: seq<seq<string>>, sep: string)
    requires |parts| == |gs|
    requires forall j :: 0 <= j < |gs| ==> |gs[j]| > 0 && parts[j] == Join(gs[j], sep)
    ensures Join(parts, sep) == Join(Flatten(gs), sep)
  {
    if |gs| == 1 {
      assert Flatten(gs) == gs[0] by {
        assert gs[..0] == [];
      }
    } else if |gs| > 1 {
      var n := |gs| - 1;
      JoinFlatten(parts[..n], gs[..n], sep);
      assert parts == parts[..n] + [parts[n]];
      JoinAppend(parts[..n], [parts[n]], sep);
      assert |Flatten(gs[..n])| >= |gs[n - 1]| by {
        assert Flatten(gs[..n]) == Flatten(gs[..n - 1]) + gs[n - 1] by {
          assert gs[..n][..n - 1] == gs[..n - 1];
        }
      }
      JoinAppend(Flatten(gs[..n]), gs[n], sep);
    }
  }

  lemma HeadAfter(f: seq<string>, rest: seq<string>)
    requires |rest| > 0
    ensures (f + rest)[|f|] == rest[0]
  {
  }

  /** When no paragraph is empty, `split_by_length` loses nothing: joining the sections with
      blank lines gives the document back. */
  lemma LengthLossless(markdown: string, maxChars: int, sections: seq<Section>,
                       groups: seq<seq<string>>, rest: seq<string>)
    requires CutInto(Paragraphs(markdown), maxChars, sections, groups, rest)
    requires NoEmptyParagraph(Paragraphs(markdown))
    ensures Join(Contents(sections), "\n\n") == markdown
  {
    var paras := Paragraphs(markdown);
    if |rest| > 0 {
      HeadAfter(Flatten(groups), rest);
      assert false;
    }
    assert Flatten(groups) == paras;
    FlattenNoEmpty(groups);
    forall j | 0 <= j < |groups|
      ensures |groups[j]| > 0 && Contents(sections)[j] == Join(groups[j], "\n\n")
    {
      assert Chunk(sections[j], j, groups[j], maxChars);
      DropEmptyKeeps(groups[j]);
    }
    JoinFlatten(Contents(sections), groups, "\n\n");
    SplitStrJoin(markdown, "\n\n");
  }

  // ---------------------------------------------------------------------------
  // Merging small sections
  // ---------------------------------------------------------------------------

  /** One absorption of `merge_small_sections`: `s` is appended to `c` after a blank line, its end
      line (or else `c`'s, or else 0) becomes `c`'s, and its title, when not empty, is added after
      a slash. */
  function Absorbed(c: Section, s: Section): Section {
    c.(content := c.content + "\n\n" + s.content,
       endLine := Some(if s.endLine.Some? then s.endLine.value else if c.endLine.Some? then c.endLine.value else 0),
       title := if s.title != "" then c.title + " / " + s.title else c.title)
  }

  /** The section a run of consecutive sections is merged into. */
  function Fuse(run: seq<Section>): Section
    requires |run| > 0
  {
    if |run| == 1 then run[0] else Absorbed(Fuse(run[..|run| - 1]), run[|run| - 1])
  }

  /** The titles of the sections that have one. */
  function Titles(run: seq<Section>): (r: seq<string>)
    ensures forall k :: 0 <= k < |r| ==> r[k] != ""
  {
    if |run| == 0 then []
    else Titles(run[..|run| - 1]) + (if run[|run| - 1].title != "" then [run[|run| - 1].title] else [])
  }

  /** The merged section holds the run's contents joined with blank lines. */
  lemma {:induction false} FuseContent(run: seq<Section>)
    requires |run| > 0
    ensures Fuse(run).content == Join(Contents(run), "\n\n")
  {
    if |run| > 1 {
      var front := run[..|run| - 1];
      var last := run[|run| - 1];
      FuseContent(front);
      assert Contents(run) == Contents(front) + [last.content];
      JoinAppend(Contents(front), [last.content], "\n\n");
    }
  }

  /** The merged section keeps its first section's number, first line and level. */
  lemma {:induction false} FuseHead(run: seq<Section>)
    requires |run| > 0
    ensures var f := Fuse(run);
      f.sectionId == run[0].sectionId && f.startLine == run[0].startLine && f.level == run[0].level
  {
    if |run| > 1 {
      var front := run[..|run| - 1];
      FuseHead(front);
      assert front[0] == run[0];
    }
  }

  /** The merged section joins the first title and the later non-empty titles with " / ". */
  lemma {:induction false} FuseTitle(run: seq<Section>)
    requires |run| > 0
    ensures Fuse(run).title == Join([run[0].title] + Titles(run[1..]), " / ")
  {
    if |run| > 1 {
      var front := run[..|run| - 1];
      var last := run[|run| - 1];
      FuseTitle(front);
      assert front[0] == run[0];
      assert run[1..] == front[1..] + [last];
      assert (front[1..] + [last])[..|front| - 1] == front[1..];
      var ts := [run[0].title] + Titles(front[1..]);
      if last.title != "" {
        assert [run[0].title] + Titles(run[1..]) == ts + [last.title];
        JoinAppend(ts, [last.title], " / ");
      } else {
        assert [run[0].title] + Titles(run[1..]) == ts;
      }
    }
  }

  /** Section `k` of `run` has an end line, and no later section has one. */
  predicate LastWithEnd(run: seq<Section>, k: int) {
    0 <= k < |run| && run[k].endLine.Some? && forall j :: k < j < |run| ==> run[j].endLine.None?
  }

  /** The end line of the last section of `run` that has one, if any does. */
  function LastEnd(run: seq<Section>): Option<int> {
    if |run| == 0 then None
    else if run[|run| - 1].endLine.Some? then run[|run| - 1].endLine
    else LastEnd(run[..|run| - 1])
  }

  /** `LastEnd` is absent exactly when no section has an end line; otherwise it is the end line of
      a section after which none has one. */
  lemma {:induction false} LastEndIs(run: seq<Section>)
    ensures LastEnd(run).None? <==> forall k :: 0 <= k < |run| ==> run[k].endLine.None?
    ensures LastEnd(run).Some? ==> exists k :: LastWithEnd(run, k) && run[k].endLine == LastEnd(run)
  {
    if |run| > 0 {
      if run[|run| - 1].endLine.Some? {
        assert LastWithEnd(run, |run| - 1);
      } else {
        var front := run[..|run| - 1];
        LastEndIs(front);
        assert forall k :: 0 <= k < |front| ==> front[k] == run[k];
        if LastEnd(front).Some? {
          var k :| LastWithEnd(front, k) && front[k].endLine == LastEnd(front);
          assert LastWithEnd(run, k);
        }
      }
    }
  }

  /** The merged section of several sections ends where the last section that has an end line
      says, or at line 0 when none has one; a single section keeps its own. */
  lemma {:induction false} FuseEnd(run: seq<Section>)
    requires |run| > 0
    ensures var f := Fuse(run);
      && (|run| == 1 ==> f.endLine == run[0].endLine)
      && (|run| > 1 ==> f.endLine == Some(if LastEnd(run).Some? then LastEnd(run).value else 0))
      && (|run| > 1 && run[|run| - 1].endLine.Some? ==> f.endLine == run[|run| - 1].endLine)
      && (|run| > 1 && (forall k :: 0 <= k < |run| ==> run[k].endLine.None?) ==> f.endLine == Some(0))
  {
    if |run| > 1 {
      var front := run[..|run| - 1];
      FuseEnd(front);
      assert LastEnd(run) == if run[|run| - 1].endLine.Some? then run[|run| - 1].endLine else LastEnd(front);
    }
  }

  /** Each section after a run's first was absorbed because the merged section so far was
      shorter than `minChars`. */
  ghost predicate Absorbing(run: seq<Section>, minChars: int) {
    forall k :: 0 < k < |run| ==> |Fuse(run[..k]).content| < minChars
  }

  /** What `merge_small_sections` returns: the input cut into consecutive runs, each merged into
      one section numbered by its position from 1; every merged section but the last reached
      `minChars`, which is why the next section was not absorbed into it. */
  ghost predicate MergedInto(sections: seq<Section>, minChars: int, merged: seq<Section>, runs: seq<seq<Section>>) {
    && Flatten(runs) == sections
    && |merged| == |runs|
    && (forall j :: 0 <= j < |runs| ==> |runs[j]| > 0 && Absorbing(runs[j], minChars))
    && (forall j :: 0 <= j < |runs| ==> merged[j] == Fuse(runs[j]).(sectionId := j + 1))
    && (forall j :: 0 <= j < |merged| - 1 ==> |merged[j].content| >= minChars)
  }

  /** The state of the first loop after the first `i` sections: `merged` holds the closed runs,
      `current` the open one. */
  ghost predicate Merging(sections: seq<Section>, minChars: int, i: int, merged: seq<Section>,
                          runs: seq<seq<Section>>, current: Section, run: seq<Section>)
  {
    && 1 <= i <= |sections|
    && Flatten(runs) + run == sections[..i]
    && |merged| == |runs|
    && (forall j :: 0 <= j < |runs| ==> |runs[j]| > 0 && Absorbing(runs[j], minChars))
    && (forall j :: 0 <= j < |runs| ==> merged[j] == Fuse(runs[j]))
    && (forall j :: 0 <= j < |merged| ==> |merged[j].content| >= minChars)
    && |run| > 0 && Absorbing(run, minChars) && current == Fuse(run)
  }

  lemma MergeStart(sections: seq<Section>, minChars: int)
    requires |sections| > 0
    ensures Merging(sections, minChars, 1, [], [], sections[0], [sections[0]])
  {
    assert sections[..1] == [sections[0]];
  }

  /** A section is absorbed into a current section that is still too short. */
  lemma MergeAbsorb(sections: seq<Section>, minChars: int, i: int, merged: seq<Section>,
                    runs: seq<seq<Section>>, current: Section, run: seq<Section>)
    requires Merging(sections, minChars, i, merged, runs, current, run) && i < |sections|
    requires |current.content| < minChars
    ensures Merging(sections, minChars, i + 1, merged, runs, Absorbed(current, sections[i]), run + [sections[i]])
  {
    var r := run + [sections[i]];
    assert sections[..i + 1] == sections[..i] + [sections[i]];
    assert r[..|run|] == run;
    forall k | 0 < k < |r|
      ensures |Fuse(r[..k]).content| < minChars
    {
      if k < |run| {
        assert r[..k] == run[..k];
      }
    }
  }

  /** A current section that is long enough is closed, and the section opens the next run. */
  lemma MergeClose(sections: seq<Section>, minChars: int, i: int, merged: seq<Section>,
                   runs: seq<seq<Section>>, current: Section, run: seq<Section>)
    requires Merging(sections, minChars, i, merged, runs, current, run) && i < |sections|
    requires |current.content| >= minChars
    ensures Merging(sections, minChars, i + 1, merged + [current], runs + [run], sections[i], [sections[i]])
  {
    assert sections[..i + 1] == sections[..i] + [sections[i]];
    FlattenSnoc(runs, run);
    var all := runs + [run];
    assert forall j :: 0 <= j < |runs| ==> all[j] == runs[j];
  }

  /** After the last section, the current section is closed too. */
  lemma MergeEnd(sections: seq<Section>, minChars: int, merged: seq<Section>,
                 runs: seq<seq<Section>>, current: Section, run: seq<Section>)
    requires Merging(sections, minChars, |sections|, merged, runs, current, run)
    ensures var all := runs + [run];
      && Flatten(all) == sections
      && (forall j :: 0 <= j < |all| ==> |all[j]| > 0 && Absorbing(all[j], minChars))
      && (forall j :: 0 <= j < |all| ==> (merged + [current])[j] == Fuse(all[j]))
  {
    assert sections[..|sections|] == sections;
    FlattenSnoc(runs, run);
    var all := runs + [run];
    assert forall j :: 0 <= j < |runs| ==> all[j] == runs[j];
  }

  lemma {:induction false} FlattenAppend<T>(a: seq<seq<T>>, b: seq<seq<T>>)
    ensures Flatten(a + b) == Flatten(a) + Flatten(b)
  {
    if |b| > 0 {
      var n := |b| - 1;
      FlattenAppend(a, b[..n]);
      assert (a + b)[..|a + b| - 1] == a + b[..n];
    } else {
      assert a + b == a;
    }
  }

  /** Run `j` starts at the position of `Flatten` just past the runs before it. */
  lemma FlattenAt<T>(runs: seq<seq<T>>, j: int)
    requires 0 <= j < |runs|
    ensures var p := |Flatten(runs[..j])|;
      && p + |runs[j]| <= |Flatten(runs)|
      && Flatten(runs)[p..p + |runs[j]|] == runs[j]
  {
    assert runs == runs[..j] + ([runs[j]] + runs[j + 1..]);
    FlattenAppend(runs[..j], [runs[j]] + runs[j + 1..]);
    FlattenAppend([runs[j]], runs[j + 1..]);
    FlattenSnoc([], runs[j]);
    assert [] + [runs[j]] == [runs[j]];
  }

  lemma {:induction false} FlattenLength<T>(runs: seq<seq<T>>)
    requires forall j :: 0 <= j < |runs| ==> |runs[j]| > 0
    ensures |Flatten(runs)| >= |runs|
  {
    if |runs| > 0 {
      FlattenLength(runs[..|runs| - 1]);
    }
  }

  /** The contents of the runs, run by run. */
  function RunContents(runs: seq<seq<Section>>): (r: seq<seq<string>>)
    ensures |r| == |runs| && forall j :: 0 <= j < |runs| ==> r[j] == Contents(runs[j])
  {
    seq(|runs|, j requires 0 <= j < |runs| => Contents(runs[j]))
  }

  lemma {:induction false} FlattenContents(runs: seq<seq<Section>>)
    ensures Contents(Flatten(runs)) == Flatten(RunContents(runs))
  {
    if |runs| > 0 {
      var front := runs[..|runs| - 1];
      FlattenContents(front);
      assert RunContents(runs)[..|runs| - 1] == RunContents(front);
      assert Contents(Flatten(front) + runs[|runs| - 1]) == Contents(Flatten(front)) + Contents(runs[|runs| - 1]);
    }
  }

  /** Merging loses nothing: the merged contents joined with blank lines are the input's joined
      the same way, and there are at most as many sections as before, and at least one when there
      was one. */
  lemma MergeKeepsContent(sections: seq<Section>, minChars: int, merged: seq<Section>, runs: seq<seq<Section>>)
    requires MergedInto(sections, minChars, merged, runs)
    ensures Join(Contents(merged), "\n\n") == Join(Contents(sections), "\n\n")
    ensures |merged| <= |sections|
    ensures |sections| > 0 ==> |merged| > 0
  {
    FlattenLength(runs);
    forall j | 0 <= j < |runs|
      ensures |RunContents(runs)[j]| > 0 && Contents(merged)[j] == Join(RunContents(runs)[j], "\n\n")
    {
      FuseContent(runs[j]);
    }
    JoinFlatten(Contents(merged), RunContents(runs), "\n\n");
    FlattenContents(runs);
  }

  /** When no section but the last is shorter than `minChars`, merging only renumbers. */
  lemma MergeNothingSmall(sections: seq<Section>, minChars: int, merged: seq<Section>, runs: seq<seq<Section>>)
    requires MergedInto(sections, minChars, merged, runs)
    requires forall k :: 0 <= k < |sections| - 1 ==> |sections[k].content| >= minChars
    ensures |merged| == |sections|
    ensures forall j :: 0 <= j < |merged| ==> merged[j] == sections[j].(sectionId := j + 1)
  {
    forall j | 0 <= j < |runs|
      ensures |runs[j]| == 1
    {
      FlattenAt(runs, j);
      var p := |Flatten(runs[..j])|;
      assert runs[j][..1] == [runs[j][0]];
      assert sections[p] == runs[j][0];
      assert |runs[j]| > 1 ==> p < |sections| - 1;
    }
    SingletonRuns(runs);
  }

  lemma {:induction false} SingletonRuns<T>(runs: seq<seq<T>>)
    requires forall j :: 0 <= j < |runs| ==> |runs[j]| == 1
    ensures |Flatten(runs)| == |runs|
    ensures forall j :: 0 <= j < |runs| ==> Flatten(runs)[j] == runs[j][0]
  {
    if |runs| > 0 {
      SingletonRuns(runs[..|runs| - 1]);
    }
  }

  // ---------------------------------------------------------------------------
  // Section file names
  // ---------------------------------------------------------------------------

  /** A character a slug keeps: a letter or digit, `-` or `_`. */
  predicate SlugChar(c: char) {
    IsAlnum(c) || c == '-' || c == '_'
  }

  /** The longest a slug gets. */
  const SlugLength := 50

  /** The title slug: the title lower-cased, every character that is not a letter, a digit, `-`
      or `_` replaced by `_`, cut to 50 characters. */
  function Slug(title: string): (r: string)
    ensures |r| == if |title| < SlugLength then |title| else SlugLength
    ensures forall i :: 0 <= i < |r| ==> SlugChar(r[i]) && !('A' <= r[i] <= 'Z')
    ensures forall i :: 0 <= i < |r| ==> (SlugChar(Lower(title)[i]) ==> r[i] == Lower(title)[i])
    ensures forall i :: 0 <= i < |r| ==> (!SlugChar(Lower(title)[i]) ==> r[i] == '_')
  {
    var low := Lower(title);
    var kept := seq(|low|, i requires 0 <= i < |low| => if SlugChar(low[i]) then low[i] else '_');
    if |kept| < SlugLength then kept else kept[..SlugLength]
  }

  /** `str(section_id).zfill(3)`. */
  function SectionNumber(id: int): string {
    ZFill(IntToString(id), 3)
  }

  /** For a non-negative id the section number is at least three digits whose value is the id. */
  lemma SectionNumberValue(id: int)
    requires id >= 0
    ensures var n := SectionNumber(id);
      |n| >= 3 && AllDigits(n) && DigitsValue(n) == id
  {
    var s := NatToString(id);
    NatToStringValue(id);
    if |s| < 3 {
      ZerosPrefixValue(3 - |s|, s);
    }
  }

  /** `f"{base_name}_{section_num}_{title_slug}.md"`. */
  function SectionFileName(base: string, id: int, title: string): (r: string)
    ensures EndsWith(r, ".md") && StartsWith(r, base + "_")
  {
    var r := base + "_" + SectionNumber(id) + "_" + Slug(title) + ".md";
    assert r[..|base + "_"|] == base + "_";
    assert r[|r| - 3..] == ".md";
    r
  }

  /** Two digit strings followed by `_` differ as soon as their values do. */
  lemma DigitsThenSeparator(n1: string, n2: string, rest1: string, rest2: string)
    requires AllDigits(n1) && AllDigits(n2) && DigitsValue(n1) != DigitsValue(n2)
    ensures n1 + "_" + rest1 != n2 + "_" + rest2
  {
    var a, b := n1 + "_" + rest1, n2 + "_" + rest2;
    if |n1| < |n2| {
      assert a[|n1|] == '_' && b[|n1|] == n2[|n1|];
    } else if |n2| < |n1| {
      assert b[|n2|] == '_' && a[|n2|] == n1[|n2|];
    } else {
      assert a[..|n1|] == n1 && b[..|n2|] == n2;
    }
  }

  lemma PrefixCancel(p: string, a: string, b: string)
    ensures p + a == p + b <==> a == b
  {
    if p + a == p + b {
      assert (p + a)[|p|..] == a && (p + b)[|p|..] == b;
    }
  }

  lemma FileNameShape(base: string, id: int, title: string)
    ensures SectionFileName(base, id, title) == (base + "_") + (SectionNumber(id) + "_" + (Slug(title) + ".md"))
  {
  }

  /** Sections with different non-negative ids are saved to different files, whatever their titles. */
  lemma FileNamesDistinct(base: string, id1: int, title1: string, id2: int, title2: string)
    requires id1 >= 0 && id2 >= 0 && id1 != id2
    ensures SectionFileName(base, id1, title1) != SectionFileName(base, id2, title2)
  {
    SectionNumberValue(id1);
    SectionNumberValue(id2);
    DigitsThenSeparator(SectionNumber(id1), SectionNumber(id2), Slug(title1) + ".md", Slug(title2) + ".md");
    FileNameShape(base, id1, title1);
    FileNameShape(base, id2, title2);
    PrefixCancel(base + "_", SectionNumber(id1) + "_" + (Slug(title1) + ".md"), SectionNumber(id2) + "_" + (Slug(title2) + ".md"));
  }
}
