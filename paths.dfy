/** The part of `pathlib.PurePosixPath` the task manager uses: parts, `name`, `stem`, `parent`,
    `relative_to` and the `/` operator. */
module Paths {
  import opened Wrappers
  import opened Text
  import opened Seqs

  /** A path as pathlib keeps it: whether it is anchored at `/`, and its parts below the anchor.
      `Path(false, [])` is `.`, `Path(true, [])` is `/`. */
  datatype Path = Path(absolute: bool, parts: seq<string>)

  /** A part as pathlib stores it: never empty, never `.`, never holding `/`. */
  predicate ValidPart(s: string) {
    s != "" && s != "." && '/' !in s
  }

  predicate ValidPath(p: Path) {
    forall i :: 0 <= i < |p.parts| ==> ValidPart(p.parts[i])
  }

  /** `p.name`: the last part, or the empty string for `.` and `/`. */
  function Name(p: Path): string {
    if |p.parts| == 0 then "" else p.parts[|p.parts| - 1]
  }

  /** `p.parent`: `.` and `/` are their own parents. */
  function Parent(p: Path): (r: Path)
    ensures r.absolute == p.absolute
    ensures |p.parts| > 0 ==> p.parts == r.parts + [Name(p)]
    ensures ValidPath(p) ==> ValidPath(r)
  {
    if |p.parts| == 0 then p else Path(p.absolute, p.parts[..|p.parts| - 1])
  }

  /** The index of the last `c` in `s`, or -1 (`str.rfind`). */
  function LastIndexOf(s: string, c: char): (i: int)
    ensures -1 <= i < |s|
    ensures 0 <= i ==> s[i] == c
    ensures forall j :: i < j < |s| ==> s[j] != c
  {
    if |s| == 0 then -1
    else if s[|s| - 1] == c then |s| - 1
    else LastIndexOf(s[..|s| - 1], c)
  }

  /** The stem of a file name: the name without its last suffix; a leading dot or a trailing dot
      does not start a suffix. */
  function StemOf(name: string): (r: string)
    ensures |r| <= |name| && r == name[..|r|]
  {
    var i := LastIndexOf(name, '.');
    if 0 < i < |name| - 1 then name[..i] else name
  }

  /** `p.stem`. */
  function Stem(p: Path): string {
    StemOf(Name(p))
  }

  /** `p.relative_to(root)`, or None where pathlib raises ValueError: `root` must be a leading run
      of `p`'s parts, and both must be anchored alike. */
  function RelativeTo(p: Path, root: Path): (r: Option<Path>)
    ensures r.Some? <==> p.absolute == root.absolute && |root.parts| <= |p.parts| && p.parts[..|root.parts|] == root.parts
    ensures r.Some? ==> !r.value.absolute && root.parts + r.value.parts == p.parts
  {
    if p.absolute == root.absolute && |root.parts| <= |p.parts| && p.parts[..|root.parts|] == root.parts
    then
      assert root.parts + p.parts[|root.parts|..] == p.parts;
      Some(Path(false, p.parts[|root.parts|..]))
    else None
  }

  /** `a / b` for two paths: an absolute `b` replaces `a`. */
  function JoinPath(a: Path, b: Path): Path {
    if b.absolute then b else Path(a.absolute, a.parts + b.parts)
  }

  /** `PurePosixPath(s)` for a string without a leading `//`: the pieces between slashes, with
      empty pieces and `.` dropped. */
  function Parse(s: string): (r: Path)
    ensures ValidPath(r)
  {
    Path(|s| > 0 && s[0] == '/', Filter(ValidPart, Split(s, '/')))
  }

  /** `a / s` for a string `s`. */
  function JoinStr(a: Path, s: string): Path {
    JoinPath(a, Parse(s))
  }

  /** Joining a single valid part appends it. */
  lemma JoinStrPart(a: Path, s: string)
    requires ValidPart(s)
    ensures JoinStr(a, s) == Path(a.absolute, a.parts + [s])
  {
    assert Split(s, '/') == [s] by {
      SplitNoSeparator(s, '/');
    }
    assert Filter(ValidPart, [s]) == [s];
  }

  /** Joining the empty string or `.` changes nothing. */
  lemma JoinStrEmpty(a: Path, s: string)
    requires s == "" || s == "."
    ensures JoinStr(a, s) == a
  {
    if s == "." {
      SplitNoSeparator(s, '/');
    }
    assert Filter(ValidPart, Split(s, '/')) == [];
  }

  lemma {:induction false} SplitNoSeparator(s: string, c: char)
    requires c !in s
    ensures Split(s, c) == [s]
  {
    if |s| > 0 {
      SplitNoSeparator(s[1..], c);
      assert [s[0]] + s[1..] == s;
    }
  }

  /** `q` lies under `root` (pathlib's `is_relative_to`). */
  predicate IsUnder(q: Path, root: Path) {
    q.absolute == root.absolute && |root.parts| <= |q.parts| && q.parts[..|root.parts|] == root.parts
  }
}
