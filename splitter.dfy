/** The Markdown section splitter: the loops that cut a document at its headers or into runs of
    paragraphs and merge sections that are too small, each proved against module `Sections`. */
module Splitter {
  import opened Wrappers
  import opened Text
  import opened Sections

  /** One pass of the loop of `split_by_headers`: line `i` either opens a section, closing the
      open one if it holds any line, or joins the open section. */
  method ScanLine(lines: seq<string>, maxLevel: int, i: int, sections: seq<Section>, current: seq<string>,
                  id: int, title: string, start: int, level: int)
    returns (sections': seq<Section>, current': seq<string>, id': int, title': string, start': int, level': int)
    requires Scanned(lines, maxLevel, i, sections, current, id, title, start, level) && i < |lines|
    ensures Scanned(lines, maxLevel, i + 1, sections', current', id', title', start', level')
  {
    var line := lines[i];
    if StartsWith(Strip(line), "#") && |FirstToken(line)| <= maxLevel && Strip(line) != "#" {
      ScanHeader(lines, maxLevel, i, sections, current, id, title, start, level);
      sections' := CloseOpen(sections, current, id, title, start, i, level);
      id', title', current', start', level' := |sections'| + 1, HeaderTitle(line), [line], i, |FirstToken(line)|;
    } else {
      ScanAppend(lines, maxLevel, i, sections, current, id, title, start, level);
      sections', current', id', title', start', level' := sections, current + [line], id, title, start, level;
    }
  }

  /** The loop of `split_by_headers` over the lines. */
  method ScanLines(lines: seq<string>, maxLevel: int)
    returns (sections: seq<Section>, current: seq<string>, id: int, title: string, start: int, level: int)
    ensures Scanned(lines, maxLevel, |lines|, sections, current, id, title, start, level)
  {
    sections, current := [], [];
    id, title, start, level := 0, "Introduction", 0, 0;
    ScanStart(lines, maxLevel);
    for i := 0 to |lines|
      invariant Scanned(lines, maxLevel, i, sections, current, id, title, start, level)
    {
      sections, current, id, title, start, level := ScanLine(lines, maxLevel, i, sections, current, id, title, start, level);
    }
  }

  /** `split_by_headers(markdown, max_level)`: the sections, in order, cover every line of the
      document once, so joining their contents with newlines gives the document back. */
  method SplitByHeaders(markdown: string, maxLevel: int) returns (sections: seq<Section>)
    ensures var lines := Lines(markdown);
      && |sections| >= 1
      && Tiles(sections, lines, |lines|)
      && (forall j {:trigger Labelled(sections[j], j, lines, maxLevel)} ::
            0 <= j < |sections| ==> Labelled(sections[j], j, lines, maxLevel))
      && (forall j {:trigger Plain(sections[j], lines, maxLevel)} ::
            0 <= j < |sections| ==> Plain(sections[j], lines, maxLevel))
    ensures Join(Contents(sections), "\n") == markdown
  {
    var lines := Lines(markdown);
    var open, current, id, title, start, level := ScanLines(lines, maxLevel);
    ScanFinish(lines, maxLevel, open, current, id, title, start, level);
    sections := CloseOpen(open, current, id, title, start, |lines|, level);
    Lossless(markdown, sections);
  }

  /** One pass of the loop of `split_by_length`: paragraph `i` joins the open section or, when
      it would take a section with content over `maxChars`, closes it and opens the next. */
  method Absorb(paras: seq<string>, maxChars: int, i: int, sections: seq<Section>, ghost groups: seq<seq<string>>,
                cur: Section, ghost g: seq<string>, length: int)
    returns (sections': seq<Section>, ghost groups': seq<seq<string>>, cur': Section, ghost g': seq<string>, length': int)
    requires Grouped(paras, maxChars, i, sections, groups, cur, g, length) && i < |paras|
    ensures Grouped(paras, maxChars, i + 1, sections', groups', cur', g', length')
  {
    var para := paras[i];
    if length + |para| > maxChars && cur.content != "" {
      GroupBreak(paras, maxChars, i, sections, groups, cur, g, length);
      sections', groups' := sections + [cur], groups + [g];
      cur' := Section(|sections'| + 2, "Section " + NatToString(|sections'| + 2), para, 1, None, None);
      g', length' := [para], |para|;
    } else {
      GroupAppend(paras, maxChars, i, sections, groups, cur, g, length);
      cur' := cur.(content := if cur.content != "" then cur.content + "\n\n" + para else para);
      sections', groups', g', length' := sections, groups, g + [para], length + |para|;
    }
  }

  /** The loop of `split_by_length` over the paragraphs. */
  method GroupParagraphs(paras: seq<string>, maxChars: int)
    returns (sections: seq<Section>, ghost groups: seq<seq<string>>, cur: Section, ghost g: seq<string>, length: int)
    ensures Grouped(paras, maxChars, |paras|, sections, groups, cur, g, length)
  {
    sections, groups := [], [];
    cur := Section(1, "Section 1", "", 0, None, None);
    g, length := [], 0;
    GroupStart(paras, maxChars);
    for i := 0 to |paras|
      invariant Grouped(paras, maxChars, i, sections, groups, cur, g, length)
    {
      sections, groups, cur, g, length := Absorb(paras, maxChars, i, sections, groups, cur, g, length);
    }
  }

  /** `split_by_length(markdown, max_chars)`. */
  method SplitByLength(markdown: string, maxChars: int)
    returns (sections: seq<Section>, ghost groups: seq<seq<string>>, ghost rest: seq<string>)
    ensures CutInto(Paragraphs(markdown), maxChars, sections, groups, rest)
  {
    var paras := Paragraphs(markdown);
    var cur, length;
    ghost var g;
    sections, groups, cur, g, length := GroupParagraphs(paras, maxChars);
    if cur.content != "" {
      GroupClose(paras, maxChars, sections, groups, cur, g, length);
      sections, groups, rest := sections + [cur], groups + [g], [];
    } else {
      GroupDrop(paras, maxChars, sections, groups, cur, g, length);
      rest := g;
    }
  }

  /** The first loop of `merge_small_sections`. */
  method MergeRuns(sections: seq<Section>, minChars: int)
    returns (merged: seq<Section>, ghost runs: seq<seq<Section>>)
    requires |sections| > 0
    ensures Flatten(runs) == sections
    ensures |merged| == |runs|
    ensures forall j :: 0 <= j < |runs| ==> |runs[j]| > 0 && Absorbing(runs[j], minChars)
    ensures forall j :: 0 <= j < |runs| ==> merged[j] == Fuse(runs[j])
    ensures forall j :: 0 <= j < |merged| - 1 ==> |merged[j].content| >= minChars
  {
    merged, runs := [], [];
    var current := sections[0];
    ghost var run := [sections[0]];
    MergeStart(sections, minChars);
    for i := 1 to |sections|
      invariant Merging(sections, minChars, i, merged, runs, current, run)
    {
      var section := sections[i];
      if |current.content| < minChars {
        MergeAbsorb(sections, minChars, i, merged, runs, current, run);
        current, run := Absorbed(current, section), run + [section];
      } else {
        MergeClose(sections, minChars, i, merged, runs, current, run);
        merged, runs := merged + [current], runs + [run];
        current, run := section, [section];
      }
    }
    MergeEnd(sections, minChars, merged, runs, current, run);
    merged, runs := merged + [current], runs + [run];
  }

  /** `merge_small_sections(sections, min_chars)`. */
  method MergeSmallSections(sections: seq<Section>, minChars: int)
    returns (merged: seq<Section>, ghost runs: seq<seq<Section>>)
    ensures sections == [] ==> merged == [] && runs == []
    ensures MergedInto(sections, minChars, merged, runs)
  {
    if |sections| == 0 {
      return sections, [];
    }
    var fused;
    fused, runs := MergeRuns(sections, minChars);
    merged := fused;
    for i := 0 to |fused|
      invariant |merged| == |fused|
      invariant forall j :: 0 <= j < i ==> merged[j] == fused[j].(sectionId := j + 1)
      invariant forall j :: i <= j < |merged| ==> merged[j] == fused[j]
    {
      merged := merged[i := merged[i].(sectionId := i + 1)];
    }
  }
}
