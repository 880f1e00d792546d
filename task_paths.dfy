/** The input scanner, which turns a directory listing into a task's work items, and the output path
    mapper, which derives where an item's result goes. */
module TaskPaths {
  import opened Wrappers
  import opened Text
  import opened Seqs
  import opened Paths
  import opened Types

  // ---------------------------------------------------------------------------
  // Scanner
  // ---------------------------------------------------------------------------

  /** An entry `rglob("*.pdf")` yields: its name ends in `.pdf` (the match is case-sensitive). */
  predicate IsPdf(p: Path) {
    EndsWith(Name(p), ".pdf")
  }

  /** An entry `rglob("*.jpg")` yields. */
  predicate IsJpg(p: Path) {
    EndsWith(Name(p), ".jpg")
  }

  /** The key one listed entry contributes to the scan, if any: the document itself for the two
      document kinds, the folder holding the image for the image kind. */
  function Candidate(kind: TaskType, p: Path): seq<Path> {
    match kind
    case Pdf2Image => if IsPdf(p) then [p] else []
    case FullPipeline => if IsPdf(p) then [p] else []
    case Img2Markdown => if IsJpg(p) then [Parent(p)] else []
  }

  /** The keys the scan inserts, in the order of `listing`, before the dict collapses repeats. */
  function Candidates(kind: TaskType, listing: seq<Path>): seq<Path> {
    if |listing| == 0 then []
    else Candidates(kind, listing[..|listing| - 1]) + Candidate(kind, listing[|listing| - 1])
  }

  /** For the document kinds the items are exactly the listed `.pdf` entries. */
  lemma {:induction false} DocumentCandidates(kind: TaskType, listing: seq<Path>)
    requires kind != Img2Markdown
    ensures Candidates(kind, listing) == Filter(IsPdf, listing)
  {
    if |listing| > 0 {
      DocumentCandidates(kind, listing[..|listing| - 1]);
    }
  }

  /** For the image kind the items are exactly the folders that hold a listed `.jpg` entry. */
  lemma {:induction false} FolderCandidates(listing: seq<Path>)
    ensures Candidates(Img2Markdown, listing) == Apply(Parent, Filter(IsJpg, listing))
  {
    if |listing| > 0 {
      FolderCandidates(listing[..|listing| - 1]);
    }
  }

  /** One more listed entry inserts its candidate key, unless the dict already holds it. */
  lemma ScanStep(kind: TaskType, listing: seq<Path>, i: nat)
    requires i < |listing|
    ensures var before := Dedup(Candidates(kind, listing[..i]));
      var next := Dedup(Candidates(kind, listing[..i + 1]));
      var p := listing[i];
      && (kind == Img2Markdown && IsJpg(p) ==> next == if Parent(p) in before then before else before + [Parent(p)])
      && (kind != Img2Markdown && IsPdf(p) ==> next == if p in before then before else before + [p])
      && ((if kind == Img2Markdown then !IsJpg(p) else !IsPdf(p)) ==> next == before)
  {
    assert listing[..i + 1][..i] == listing[..i];
    var c := Candidate(kind, listing[i]);
    assert |c| <= 1;
    DedupAppend(Candidates(kind, listing[..i]), c);
  }

  /** The keys of a dict of fresh records, listed in insertion order. */
  predicate FreshRecords(order: seq<Path>, files: map<Path, FileRecord>) {
    && (forall k :: k in files ==> k in order)
    && (forall k :: k in order ==> k in files)
    && (forall k :: k in files ==> files[k] == NewFileRecord(k))
  }

  /** The dict of fresh records keyed by `order`. */
  function FreshFiles(order: seq<Path>): map<Path, FileRecord> {
    map k | k in order :: NewFileRecord(k)
  }

  /** A dict of fresh records is determined by its keys. */
  lemma FreshRecordsAre(order: seq<Path>, files: map<Path, FileRecord>)
    requires FreshRecords(order, files)
    ensures files == FreshFiles(order)
  {
  }

  /** `files[key] = FileRecord(file_path=key)`: a new key goes to the end of the insertion order,
      an existing key keeps its place. */
  method PutFresh(order: seq<Path>, files: map<Path, FileRecord>, key: Path)
    returns (order': seq<Path>, files': map<Path, FileRecord>)
    requires FreshRecords(order, files)
    ensures order' == if key in order then order else order + [key]
    ensures FreshRecords(order', files')
  {
    order' := if key in files then order else order + [key];
    files' := files[key := NewFileRecord(key)];
  }

  /** `_scan_input_files(kind, root)`, where `listing` is what `root.rglob` walks, in its order:
      the dict's keys in insertion order and the dict itself. A missing root walks nothing and so
      gives no items. */
  method ScanInputFiles(kind: TaskType, listing: seq<Path>) returns (order: seq<Path>, files: map<Path, FileRecord>)
    ensures order == Dedup(Candidates(kind, listing))
    ensures FreshRecords(order, files)
  {
    order, files := [], map[];
    for i := 0 to |listing|
      invariant order == Dedup(Candidates(kind, listing[..i]))
      invariant FreshRecords(order, files)
    {
      var p := listing[i];
      ScanStep(kind, listing, i);
      if kind == Img2Markdown {
        if IsJpg(p) {
          var folder := Parent(p);
          if folder !in files {
            order, files := PutFresh(order, files, folder);
          }
        }
      } else if IsPdf(p) {
        order, files := PutFresh(order, files, p);
      }
    }
    assert listing[..|listing|] == listing;
  }

  // ---------------------------------------------------------------------------
  // Output path mapper
  // ---------------------------------------------------------------------------

  /** What `str(e)` is when `relative_to` failed: the fallback `rel_path = input_path.name` is a
      string, and the document kinds then ask it for `.parent`. */
  const NoParentMessage: string := "'str' object has no attribute 'parent'"

  /** `s` with every full-width colon replaced by an underscore. */
  function Underscored(s: string): string {
    ReplaceChar(s, '\U{FF1A}', '_')
  }

  /** Replacing full-width colons keeps a valid part valid. */
  lemma UnderscoredPart(s: string)
    requires ValidPart(s)
    ensures ValidPart(Underscored(s))
  {
  }

  /** `_generate_output_path(input, in_root, out_root, kind)`, or the message of the exception it
      raises. The document kinds mirror the item's place below the input root; the image kind names
      the result after the item folder and its parent folder. */
  function GenerateOutputPath(input: Path, inRoot: Path, outRoot: Path, kind: TaskType): (r: Result<Path, string>)
    ensures r.Failure? <==> kind != Img2Markdown && !IsUnder(input, inRoot)
    ensures r.Failure? ==> r.error == NoParentMessage
  {
    var rel := RelativeTo(input, inRoot);
    match kind
    case Pdf2Image =>
      if rel.None? then Failure(NoParentMessage)
      else Success(JoinStr(JoinPath(outRoot, Parent(rel.value)), Stem(input)))
    case FullPipeline =>
      if rel.None? then Failure(NoParentMessage)
      else Success(JoinStr(JoinPath(outRoot, Parent(rel.value)), Stem(input) + ".md"))
    case Img2Markdown =>
      Success(JoinStr(JoinStr(outRoot, Underscored(Name(Parent(input)))), Underscored(Name(input)) + ".md"))
  }

  /** A name with a `.pdf` suffix and something before it: its stem is what precedes the suffix. */
  lemma PdfStem(name: string)
    requires EndsWith(name, ".pdf") && |name| > 4
    ensures StemOf(name) == name[..|name| - 4]
    ensures name == StemOf(name) + ".pdf"
  {
    assert name[|name| - 4..] == ".pdf";
    assert name[|name| - 4] == '.';
    assert forall j :: |name| - 4 < j < |name| ==> name[j] != '.';
    assert name == name[..|name| - 4] + name[|name| - 4..];
  }

  /** The stem of a valid name is a non-empty string without `/`. */
  lemma StemNoSlash(name: string)
    requires ValidPart(name)
    ensures StemOf(name) != "" && '/' !in StemOf(name)
  {
    var stem := StemOf(name);
    assert forall j :: 0 <= j < |stem| ==> stem[j] == name[j];
  }

  /** Where a document's result goes: below the output root, at the document's own place below the
      input root, named after its stem (with `.md` for the full pipeline); a stem of `.` (from a
      document named `..pdf`) names nothing, so the image kind then lands on the folder itself. */
  lemma DocumentOutputShape(input: Path, inRoot: Path, outRoot: Path, kind: TaskType)
    requires kind != Img2Markdown && IsUnder(input, inRoot) && |inRoot.parts| < |input.parts| && ValidPath(input)
    ensures var rel := input.parts[|inRoot.parts|..];
      var file := if kind == Pdf2Image then Stem(input) else Stem(input) + ".md";
      GenerateOutputPath(input, inRoot, outRoot, kind)
      == Success(Path(outRoot.absolute, outRoot.parts + rel[..|rel| - 1] + (if file == "." then [] else [file])))
  {
    var rel := RelativeTo(input, inRoot).value;
    assert rel.parts == input.parts[|inRoot.parts|..];
    var name := Name(input);
    assert |input.parts| > 0;
    assert ValidPart(name);
    StemNoSlash(name);
    var stem := Stem(input);
    assert |rel.parts| > 0 && rel.parts[|rel.parts| - 1] == name;
    var base := JoinPath(outRoot, Parent(rel));
    assert base == Path(outRoot.absolute, outRoot.parts + rel.parts[..|rel.parts| - 1]);
    if kind == Pdf2Image {
      if stem == "." {
        JoinStrEmpty(base, stem);
        assert base.parts == base.parts + [];
      } else {
        assert ValidPart(stem);
        JoinStrPart(base, stem);
      }
    } else {
      var file := stem + ".md";
      assert '/' !in file by {
        assert forall j :: 0 <= j < |stem| ==> file[j] == stem[j];
        assert file[|stem|..] == ".md";
      }
      assert file[|file| - 1] == 'd';
      assert ValidPart(file);
      JoinStrPart(base, file);
    }
  }

  /** Two sequences that share a head and whose middles have one length agree exactly when their
      middles and their last elements agree. */
  lemma SameShape<T>(head: seq<T>, m1: seq<T>, x1: T, m2: seq<T>, x2: T)
    requires head + m1 + [x1] == head + m2 + [x2]
    ensures m1 == m2 && x1 == x2
  {
    var s1 := head + m1 + [x1];
    var s2 := head + m2 + [x2];
    assert |m1| == |m2|;
    assert x1 == s1[|s1| - 1];
    assert x2 == s2[|s2| - 1];
    assert m1 == s1[|head|..|s1| - 1];
    assert m2 == s2[|head|..|s2| - 1];
  }

  /** The document kinds never send two different documents below the input root to one output. */
  lemma DocumentOutputsDistinct(a: Path, b: Path, inRoot: Path, outRoot: Path, kind: TaskType)
    requires kind != Img2Markdown
    requires IsUnder(a, inRoot) && |inRoot.parts| < |a.parts| && ValidPath(a) && IsPdf(a) && |Name(a)| > 4 && Stem(a) != "."
    requires IsUnder(b, inRoot) && |inRoot.parts| < |b.parts| && ValidPath(b) && IsPdf(b) && |Name(b)| > 4 && Stem(b) != "."
    requires GenerateOutputPath(a, inRoot, outRoot, kind) == GenerateOutputPath(b, inRoot, outRoot, kind)
    ensures a == b
  {
    DocumentOutputShape(a, inRoot, outRoot, kind);
    DocumentOutputShape(b, inRoot, outRoot, kind);
    var ra := a.parts[|inRoot.parts|..];
    var rb := b.parts[|inRoot.parts|..];
    var fa := if kind == Pdf2Image then Stem(a) else Stem(a) + ".md";
    var fb := if kind == Pdf2Image then Stem(b) else Stem(b) + ".md";
    assert fa != "." && fb != "." by {
      if kind != Pdf2Image {
        assert |fa| > 1 && |fb| > 1;
      }
    }
    SameShape(outRoot.parts, ra[..|ra| - 1], fa, rb[..|rb| - 1], fb);
    assert Stem(a) == Stem(b) by {
      if kind != Pdf2Image {
        assert Stem(a) == fa[..|fa| - 3] && Stem(b) == fb[..|fb| - 3];
      }
    }
    PdfStem(Name(a));
    PdfStem(Name(b));
    assert Name(a) == Name(b);
    assert ra == ra[..|ra| - 1] + [Name(a)];
    assert rb == rb[..|rb| - 1] + [Name(b)];
    assert a.parts == inRoot.parts + ra;
    assert b.parts == inRoot.parts + rb;
  }

  /** A document named `..pdf` has the stem `.`, which `/` drops, so it lands on the folder that
      a sibling document named after the folder also lands on. */
  lemma DotStemCollides()
    ensures var inRoot := Path(false, ["in"]);
      var outRoot := Path(false, ["out"]);
      GenerateOutputPath(Path(false, ["in", "d", "..pdf"]), inRoot, outRoot, Pdf2Image)
      == GenerateOutputPath(Path(false, ["in", "d.pdf"]), inRoot, outRoot, Pdf2Image)
      == Success(Path(false, ["out", "d"]))
  {
    var inRoot := Path(false, ["in"]);
    var outRoot := Path(false, ["out"]);
    assert EndsWith("..pdf", ".pdf") && EndsWith("d.pdf", ".pdf");
    PdfStem("..pdf");
    PdfStem("d.pdf");
    assert StemOf("..pdf") == "." && StemOf("d.pdf") == "d";
    var a := Path(false, ["in", "d", "..pdf"]);
    var b := Path(false, ["in", "d.pdf"]);
    assert RelativeTo(a, inRoot) == Some(Path(false, ["d", "..pdf"]));
    assert RelativeTo(b, inRoot) == Some(Path(false, ["d.pdf"]));
    assert Name(a) == "..pdf" && Name(b) == "d.pdf";
    assert Parent(Path(false, ["d", "..pdf"])) == Path(false, ["d"]);
    assert Parent(Path(false, ["d.pdf"])) == Path(false, []);
    assert JoinPath(outRoot, Path(false, ["d"])) == Path(false, ["out", "d"]);
    assert JoinPath(outRoot, Path(false, [])) == outRoot;
    JoinStrEmpty(Path(false, ["out", "d"]), ".");
    assert ValidPart("d");
    JoinStrPart(outRoot, "d");
  }

  /** The stems of `.pdf` and `.pdf.pdf` are both `.pdf`. */
  lemma DotPdfStems()
    ensures StemOf(".pdf") == ".pdf" && StemOf(".pdf.pdf") == ".pdf"
  {
    assert ".pdf"[..3] == ".pd" && ".pd"[..2] == ".p" && ".p"[..1] == ".";
    assert LastIndexOf(".pdf", '.') == 0;
    assert EndsWith(".pdf.pdf", ".pdf");
    PdfStem(".pdf.pdf");
  }

  /** A document named `.pdf` has no suffix in pathlib's sense, so its stem is the whole name, which
      is also the stem of a sibling named `.pdf.pdf`: both land on one output. */
  lemma DotPdfCollides()
    ensures var inRoot := Path(false, ["in"]);
      var outRoot := Path(false, ["out"]);
      GenerateOutputPath(Path(false, ["in", ".pdf"]), inRoot, outRoot, Pdf2Image)
      == GenerateOutputPath(Path(false, ["in", ".pdf.pdf"]), inRoot, outRoot, Pdf2Image)
      == Success(Path(false, ["out", ".pdf"]))
  {
    var inRoot := Path(false, ["in"]);
    var outRoot := Path(false, ["out"]);
    DotPdfStems();
    var a := Path(false, ["in", ".pdf"]);
    var b := Path(false, ["in", ".pdf.pdf"]);
    assert RelativeTo(a, inRoot) == Some(Path(false, [".pdf"]));
    assert RelativeTo(b, inRoot) == Some(Path(false, [".pdf.pdf"]));
    assert Name(a) == ".pdf" && Name(b) == ".pdf.pdf";
    assert Parent(Path(false, [".pdf"])) == Path(false, []);
    assert Parent(Path(false, [".pdf.pdf"])) == Path(false, []);
    assert JoinPath(outRoot, Path(false, [])) == outRoot;
    assert Stem(a) == ".pdf" && Stem(b) == ".pdf";
    assert ValidPart(".pdf");
    JoinStrPart(outRoot, ".pdf");
    assert outRoot.parts + [".pdf"] == ["out", ".pdf"];
    assert GenerateOutputPath(a, inRoot, outRoot, Pdf2Image) == Success(JoinStr(outRoot, ".pdf"));
    assert GenerateOutputPath(b, inRoot, outRoot, Pdf2Image) == Success(JoinStr(outRoot, ".pdf"));
  }

  /** The image kind's result sits directly below the output root, in a folder named after the item's
      parent folder, and is named after the item folder, each name with its full-width colons
      replaced by underscores. An item with no parent folder name (a single part, or none) has
      its result directly in the output root, since `/ ''` adds nothing. */
  lemma FolderOutputShape(input: Path, inRoot: Path, outRoot: Path)
    requires ValidPath(input)
    ensures var n := |input.parts|;
      var above := if n >= 2 then [Underscored(input.parts[n - 2])] else [];
      var leaf := if n >= 1 then Underscored(input.parts[n - 1]) else "";
      GenerateOutputPath(input, inRoot, outRoot, Img2Markdown)
      == Success(Path(outRoot.absolute, outRoot.parts + above + [leaf + ".md"]))
  {
    var n := |input.parts|;
    var leaf := if n >= 1 then Underscored(input.parts[n - 1]) else "";
    if n >= 1 {
      UnderscoredPart(input.parts[n - 1]);
    }
    MarkdownFilePart(leaf);
    if n >= 2 {
      var parent := Underscored(input.parts[n - 2]);
      assert Name(Parent(input)) == input.parts[n - 2];
      UnderscoredPart(input.parts[n - 2]);
      JoinStrPart(outRoot, parent);
      JoinStrPart(Path(outRoot.absolute, outRoot.parts + [parent]), leaf + ".md");
    } else {
      assert Name(Parent(input)) == "";
      JoinStrEmpty(outRoot, "");
      JoinStrPart(outRoot, leaf + ".md");
    }
  }

  /** A valid part, or nothing, followed by `.md` is a valid part. */
  lemma MarkdownFilePart(leaf: string)
    requires leaf == "" || ValidPart(leaf)
    ensures ValidPart(leaf + ".md")
  {
    var file := leaf + ".md";
    assert forall j :: 0 <= j < |leaf| ==> file[j] == leaf[j];
    assert file[|leaf|..] == ".md";
  }

  /** The image kind keeps only two levels of an item's place, so two different item folders of the
      same name whose parents share a name land on one output, wherever they sit below the input root. */
  lemma FolderOutputsCollide()
    ensures var a := Path(false, ["in", "a", "x", "y"]);
      var b := Path(false, ["in", "b", "x", "y"]);
      a != b
      && GenerateOutputPath(a, Path(false, ["in"]), Path(false, ["out"]), Img2Markdown)
         == GenerateOutputPath(b, Path(false, ["in"]), Path(false, ["out"]), Img2Markdown)
  {
    var a := Path(false, ["in", "a", "x", "y"]);
    var b := Path(false, ["in", "b", "x", "y"]);
    assert a.parts[1] != b.parts[1];
    assert Name(a) == Name(b);
    assert Parent(a).parts == ["in", "a", "x"] && Parent(b).parts == ["in", "b", "x"];
    assert Name(Parent(a)) == Name(Parent(b));
  }
}
