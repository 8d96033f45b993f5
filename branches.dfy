/// The parser of `git branch --format="%(HEAD) %(refname:short) %(objectname:short)"`
/// output (crates/phantom-git/src/branches.rs): one entry per non-blank line.
module Branches {
  import opened Wrappers
  import opened Text

  /** `BranchInfo`. */
  datatype BranchInfo = BranchInfo(name: string, isCurrent: bool, commitSha: string)

  /** The outcome of running git or gh: whether it succeeded and what it printed. */
  datatype CommandOutput = CommandOutput(success: bool, stdout: string, stderr: string)

  /** A character `trim_start_matches(['*', ' '])` drops. */
  predicate IsMark(c: char) {
    c == '*' || c == ' '
  }

  /** `trim_start_matches(['*', ' '])`: drop the leading stars and spaces. */
  function TrimMarks(s: string): (r: string)
    ensures |r| <= |s|
    ensures r == [] || !IsMark(r[0])
  {
    if s != [] && IsMark(s[0]) then TrimMarks(s[1..]) else s
  }

  /** What is left of a line once it is trimmed, its leading stars and
      spaces are dropped and it is trimmed again. */
  function Rest(line: string): string {
    Trim(TrimMarks(Trim(line)))
  }

  /** The `filter_map` closure of `list_branches`: None for a blank line;
      otherwise the entry is current iff the trimmed line starts with '*',
      the name is the rest of the line up to its first space and the commit
      is what follows that space, or "" when there is none. */
  function ParseBranchLine(line: string): (r: Option<BranchInfo>)
    ensures r.None? <==> Trim(line) == []
    ensures r.Some? ==> (r.value.isCurrent <==> Trim(line)[0] == '*')
    ensures r.Some? ==> ' ' !in r.value.name
    ensures r.Some? && ' ' in Rest(line) ==> Rest(line) == r.value.name + " " + r.value.commitSha
    ensures r.Some? && ' ' !in Rest(line) ==> r.value.name == Rest(line) && r.value.commitSha == ""
  {
    var trimmed := Trim(line);
    if trimmed == [] then None
    else
      var isCurrent := trimmed[0] == '*';
      var parts := SplitOnce(Rest(line), ' ');
      Some(BranchInfo(parts.0, isCurrent, if parts.1.Some? then parts.1.value else ""))
  }

  /** The line `git branch --format="%(HEAD) %(refname:short) %(objectname:short)"`
      prints for a branch: '*' for the checked-out branch and ' ' for the
      others, then the name and the commit, separated by spaces. */
  function FormatBranchLine(b: BranchInfo): string {
    (if b.isCurrent then "*" else " ") + " " + b.name + " " + b.commitSha
  }

  /** A branch whose line parses back to it: a non-empty name that does not
      start with '*', and neither the name nor the commit contains whitespace. */
  predicate Printable(b: BranchInfo) {
    && b.name != [] && b.name[0] != '*'
    && (forall i :: 0 <= i < |b.name| ==> !IsWhitespace(b.name[i]))
    && (forall i :: 0 <= i < |b.commitSha| ==> !IsWhitespace(b.commitSha[i]))
  }

  /** Stars and spaces before a string that does not start with one are dropped. */
  lemma {:induction false} TrimMarksSkip(marks: string, s: string)
    requires forall i :: 0 <= i < |marks| ==> IsMark(marks[i])
    requires s == [] || !IsMark(s[0])
    ensures TrimMarks(marks + s) == s
  {
    if marks == [] {
      assert marks + s == s;
    } else {
      assert (marks + s)[1..] == marks[1..] + s;
      TrimMarksSkip(marks[1..], s);
    }
  }

  /** The name and the commit of a branch, as they stand after the marker. */
  function Body(b: BranchInfo): string {
    if b.commitSha == [] then b.name else b.name + " " + b.commitSha
  }

  /** Trimming the start of the line drops the two spaces before the name
      of a branch that is not checked out. */
  lemma TrimStartFormatted(b: BranchInfo)
    requires Printable(b)
    ensures TrimStart(FormatBranchLine(b)) == (if b.isCurrent then "* " + Body(b) else Body(b))
                                               + (if b.commitSha == [] then " " else "")
  {
    var line := FormatBranchLine(b);
    var body := Body(b);
    var tail := if b.commitSha == [] then " " else "";
    var head := if b.isCurrent then "* " else "  ";
    assert line == head + (body + tail);
    if !b.isCurrent {
      TrimStartSkip(head, body + tail);
    }
  }

  /** The trimmed line is the marker (for the current branch) and the body. */
  lemma TrimFormatted(b: BranchInfo)
    requires Printable(b)
    ensures Trim(FormatBranchLine(b)) == if b.isCurrent then "* " + Body(b) else Body(b)
  {
    var start := if b.isCurrent then "* " + Body(b) else Body(b);
    var tail := if b.commitSha == [] then " " else "";
    TrimStartFormatted(b);
    TrimEndSkip(start, tail);
    TrimVia(FormatBranchLine(b), start + tail, start);
  }

  /** What is left after the marker is the body. */
  lemma RestFormatted(b: BranchInfo)
    requires Printable(b)
    ensures Rest(FormatBranchLine(b)) == Body(b)
  {
    var body := Body(b);
    BodyEnds(b);
    TrimFormatted(b);
    if b.isCurrent {
      TrimMarksSkip("* ", body);
    } else {
      assert TrimMarks(body) == body;
    }
    TrimOfTrimmed(body);
  }

  /** The body starts with the name's first character and ends with a
      character that is not whitespace. */
  lemma BodyEnds(b: BranchInfo)
    requires Printable(b)
    ensures var body := Body(b);
            body != [] && body[0] == b.name[0] && !IsWhitespace(body[0]) && !IsWhitespace(body[|body| - 1])
  {
    var body := Body(b);
    assert body[0] == b.name[0];
    if b.commitSha != [] {
      assert body[|body| - 1] == b.commitSha[|b.commitSha| - 1];
    }
  }

  /** The line printed for a branch is not blank, and it starts with '*'
      exactly when the branch is checked out. */
  lemma MarkerFormatted(b: BranchInfo)
    requires Printable(b)
    ensures ParseBranchLine(FormatBranchLine(b)).Some?
    ensures ParseBranchLine(FormatBranchLine(b)).value.isCurrent == b.isCurrent
  {
    TrimFormatted(b);
  }

  /** The name and the commit come back from the line printed for a branch. */
  lemma FieldsFormatted(b: BranchInfo)
    requires Printable(b)
    ensures ParseBranchLine(FormatBranchLine(b)).Some? ==>
              && ParseBranchLine(FormatBranchLine(b)).value.name == b.name
              && ParseBranchLine(FormatBranchLine(b)).value.commitSha == b.commitSha
  {
    RestFormatted(b);
    var r := ParseBranchLine(FormatBranchLine(b));
    if r.Some? {
      if b.commitSha == [] {
        assert ' ' !in Body(b);
      } else {
        assert ' ' in Body(b) by {
          assert Body(b)[|b.name|] == ' ';
        }
        SplitUnique(r.value.name, ' ', r.value.commitSha, b.name, b.commitSha);
      }
    }
  }

  /** Parsing the line printed for a branch gives the branch back. */
  lemma ParseFormatted(b: BranchInfo)
    requires Printable(b)
    ensures ParseBranchLine(FormatBranchLine(b)) == Some(b)
  {
    MarkerFormatted(b);
    FieldsFormatted(b);
  }

  /** The entries of the non-blank lines, in order. */
  function ParseLines(lines: seq<string>): (r: seq<BranchInfo>)
    ensures |r| <= |lines|
  {
    if lines == [] then []
    else
      match ParseBranchLine(lines[0])
      case None => ParseLines(lines[1..])
      case Some(b) => [b] + ParseLines(lines[1..])
  }

  /** The number of lines that are not blank after trimming. */
  function NonBlankCount(lines: seq<string>): nat {
    if lines == [] then 0 else (if Trim(lines[0]) == [] then 0 else 1) + NonBlankCount(lines[1..])
  }

  /** `list_branches`: the stderr text when git fails, else the parsed stdout. */
  function ListBranches(out: CommandOutput): (r: Result<seq<BranchInfo>, string>)
    ensures !out.success <==> r == Err(out.stderr)
    ensures r.Ok? ==> |r.value| == NonBlankCount(Lines(out.stdout))
  {
    ParseLinesCount(Lines(out.stdout));
    if !out.success then Err(out.stderr) else Ok(ParseLines(Lines(out.stdout)))
  }

  /** Every non-blank line yields exactly one entry. */
  lemma {:induction false} ParseLinesCount(lines: seq<string>)
    ensures |ParseLines(lines)| == NonBlankCount(lines)
  {
    if lines != [] {
      ParseLinesCount(lines[1..]);
    }
  }

  /** Parsing is line by line: the entries of two blocks of lines are those
      of the first block followed by those of the second, so input order is kept. */
  lemma {:induction false} ParseLinesAppend(a: seq<string>, b: seq<string>)
    ensures ParseLines(a + b) == ParseLines(a) + ParseLines(b)
  {
    if a == [] {
      assert a + b == b;
    } else {
      assert (a + b)[1..] == a[1..] + b;
      ParseLinesAppend(a[1..], b);
    }
  }

  /** A name without spaces. */
  predicate NoSpace(name: string) {
    ' ' !in name
  }

  /** No name in `bs` contains a space. */
  predicate AllNoSpace(bs: seq<BranchInfo>) {
    forall k :: 0 <= k < |bs| ==> NoSpace(bs[k].name)
  }

  lemma AllNoSpaceCons(b: BranchInfo, bs: seq<BranchInfo>)
    requires NoSpace(b.name) && AllNoSpace(bs)
    ensures AllNoSpace([b] + bs)
  {
  }

  /** No entry's name contains a space. */
  lemma {:induction false} ParseLinesNames(lines: seq<string>)
    ensures AllNoSpace(ParseLines(lines))
  {
    if lines != [] {
      var tail := ParseLines(lines[1..]);
      ParseLinesNames(lines[1..]);
      match ParseBranchLine(lines[0])
      case None =>
        assert ParseLines(lines) == tail;
      case Some(b) =>
        assert ParseLines(lines) == [b] + tail;
        AllNoSpaceCons(b, tail);
    }
  }

  /** No parsed branch name contains a space. */
  lemma BranchNamesHaveNoSpace(out: CommandOutput)
    ensures ListBranches(out).Ok? ==> forall k :: 0 <= k < |ListBranches(out).value| ==> ' ' !in ListBranches(out).value[k].name
  {
    ParseLinesNames(Lines(out.stdout));
  }
}
