/// The parsers of `git worktree list --porcelain` and `gh repo list --json`
/// output (crates/phantom-git/src/worktrees.rs).
module Worktrees {
  import opened Wrappers
  import opened Text
  import opened Branches

  /** `WorktreeInfo`. */
  datatype WorktreeInfo = WorktreeInfo(path: string, head: string, branch: Option<string>)

  // ---------------------------------------------------------------------
  // Porcelain lines

  /** What a porcelain line says, by its prefix; every other line is ignored. */
  datatype PorcelainLine =
    | WorktreeLine(path: string)
    | HeadLine(head: string)
    | BranchLine(branch: string)
    | OtherLine

  const WORKTREE_PREFIX: string := "worktree "
  const HEAD_PREFIX: string := "HEAD "
  const BRANCH_PREFIX: string := "branch "
  const REFS_HEADS: string := "refs/heads/"

  /** The prefixes are tried in the order "worktree ", "HEAD ", "branch ". */
  function Classify(line: string): (c: PorcelainLine)
    ensures c.WorktreeLine? <==> StartsWith(line, WORKTREE_PREFIX)
    ensures c.WorktreeLine? ==> line == WORKTREE_PREFIX + c.path
    ensures c.HeadLine? ==> line == HEAD_PREFIX + c.head
    ensures c.BranchLine? ==> line == BRANCH_PREFIX + c.branch
    ensures c.OtherLine? <==> !StartsWith(line, WORKTREE_PREFIX) && !StartsWith(line, HEAD_PREFIX)
                              && !StartsWith(line, BRANCH_PREFIX)
  {
    match StripPrefix(line, WORKTREE_PREFIX)
    case Some(path) => WorktreeLine(path)
    case None =>
      match StripPrefix(line, HEAD_PREFIX)
      case Some(head) => HeadLine(head)
      case None =>
        match StripPrefix(line, BRANCH_PREFIX)
        case Some(branch) => BranchLine(branch)
        case None => OtherLine
  }

  /** The branch name of a ref: "refs/heads/" dropped when it leads, any
      other ref kept as it is. */
  function BranchName(ref: string): (name: string)
    ensures StartsWith(ref, REFS_HEADS) ==> ref == REFS_HEADS + name
    ensures !StartsWith(ref, REFS_HEADS) ==> name == ref
  {
    StripPrefix(ref, REFS_HEADS).GetOr(ref)
  }

  /** Stripping is exact: the name of "refs/heads/" + `name` is `name`. */
  lemma BranchNameOfHeadsRef(name: string)
    ensures BranchName(REFS_HEADS + name) == name
  {
    assert (REFS_HEADS + name)[..|REFS_HEADS|] == REFS_HEADS;
  }

  // ---------------------------------------------------------------------
  // The parse, line by line

  /** The variables of the loop of `list_worktrees`: the finished entries and
      the path, head and branch of the entry being read. */
  datatype Scan = Scan(done: seq<WorktreeInfo>, path: string, head: string, branch: Option<string>)

  const START: Scan := Scan([], "", "", None)

  /** One iteration: a worktree line finishes the entry being read, unless
      its path is empty, and starts a new one; a "HEAD " or a "branch " line
      sets the head or the branch; any other line changes nothing. */
  function Step(st: Scan, line: string): Scan {
    match Classify(line)
    case WorktreeLine(p) =>
      if st.path != "" then Scan(st.done + [WorktreeInfo(st.path, st.head, st.branch)], p, "", None)
      else st.(path := p)
    case HeadLine(h) => st.(head := h)
    case BranchLine(b) => st.(branch := Some(BranchName(b)))
    case OtherLine => st
  }

  /** The loop after the given lines. */
  function Fold(lines: seq<string>): Scan {
    if lines == [] then START else Step(Fold(lines[..|lines| - 1]), lines[|lines| - 1])
  }

  /** After the loop: the entry being read is pushed unless its path is empty. */
  function Finish(st: Scan): seq<WorktreeInfo> {
    if st.path != "" then st.done + [WorktreeInfo(st.path, st.head, st.branch)] else st.done
  }

  /** `list_worktrees`: the trimmed stderr text when git fails; otherwise the
      stdout lines are scanned once, in order. */
  method ListWorktrees(out: CommandOutput) returns (r: Result<seq<WorktreeInfo>, string>)
    ensures !out.success ==> r == Err(Trim(out.stderr))
    ensures out.success ==> r == Ok(Finish(Fold(Lines(out.stdout))))
    ensures out.success ==> Paths(r.value) == WorktreePaths(Lines(out.stdout))
    ensures out.success && LeadsWithWorktree(Lines(out.stdout)) && PathsNonEmpty(Lines(out.stdout)) ==>
              r.value == Blocks(Lines(out.stdout))
  {
    if !out.success {
      return Err(Trim(out.stderr));
    }
    var lines := Lines(out.stdout);
    var worktrees: seq<WorktreeInfo> := [];
    var currentPath, currentHead, currentBranch := "", "", None;
    var i := 0;
    while i < |lines|
      invariant 0 <= i <= |lines|
      invariant Scan(worktrees, currentPath, currentHead, currentBranch) == Fold(lines[..i])
    {
      assert lines[..i + 1][..i] == lines[..i];
      match Classify(lines[i]) {
        case WorktreeLine(p) =>
          if currentPath != "" {
            worktrees := worktrees + [WorktreeInfo(currentPath, currentHead, currentBranch)];
            currentHead, currentBranch := "", None;
          }
          currentPath := p;
        case HeadLine(h) =>
          currentHead := h;
        case BranchLine(b) =>
          currentBranch := Some(BranchName(b));
        case OtherLine =>
      }
      i := i + 1;
    }
    assert lines[..|lines|] == lines;
    if currentPath != "" {
      worktrees := worktrees + [WorktreeInfo(currentPath, currentHead, currentBranch)];
    }
    r := Ok(worktrees);
    ListWorktreesPaths(lines);
    if LeadsWithWorktree(lines) && PathsNonEmpty(lines) {
      ListWorktreesBlocks(lines);
    }
  }

  // ---------------------------------------------------------------------
  // Paths

  /** The non-empty paths of the worktree lines, in order. */
  function WorktreePaths(lines: seq<string>): seq<string> {
    if lines == [] then []
    else
      WorktreePaths(lines[..|lines| - 1])
      + match Classify(lines[|lines| - 1])
        case WorktreeLine(p) => if p != "" then [p] else []
        case _ => []
  }

  function Paths(entries: seq<WorktreeInfo>): (ps: seq<string>)
    ensures |ps| == |entries|
    ensures forall k :: 0 <= k < |entries| ==> ps[k] == entries[k].path
  {
    if entries == [] then [] else Paths(entries[..|entries| - 1]) + [entries[|entries| - 1].path]
  }

  lemma PathsSnoc(entries: seq<WorktreeInfo>, e: WorktreeInfo)
    ensures Paths(entries + [e]) == Paths(entries) + [e.path]
  {
    assert (entries + [e])[..|entries|] == entries;
  }

  /** The path being read, if any. */
  function Pending(st: Scan): seq<string> {
    if st.path != "" then [st.path] else []
  }

  /** During the loop, the finished entries and the entry being read hold the
      non-empty worktree paths seen so far. */
  lemma {:induction false} FoldPaths(lines: seq<string>)
    ensures Paths(Fold(lines).done) + Pending(Fold(lines)) == WorktreePaths(lines)
    decreases |lines|
  {
    if lines != [] {
      var init := lines[..|lines| - 1];
      var st := Fold(init);
      FoldPaths(init);
      match Classify(lines[|lines| - 1])
      case WorktreeLine(p) =>
        if st.path != "" {
          PathsSnoc(st.done, WorktreeInfo(st.path, st.head, st.branch));
        }
      case _ =>
    }
  }

  /** The entries are those of the worktree lines with a non-empty path, in
      order, each with the path of its line. */
  lemma ListWorktreesPaths(lines: seq<string>)
    ensures Paths(Finish(Fold(lines))) == WorktreePaths(lines)
  {
    var st := Fold(lines);
    FoldPaths(lines);
    if st.path != "" {
      PathsSnoc(st.done, WorktreeInfo(st.path, st.head, st.branch));
    }
  }

  // ---------------------------------------------------------------------
  // Ignored lines

  /** The lines with a recognised prefix, in order. */
  function Recognised(lines: seq<string>): seq<string> {
    if lines == [] then []
    else
      Recognised(lines[..|lines| - 1])
      + (if Classify(lines[|lines| - 1]).OtherLine? then [] else [lines[|lines| - 1]])
  }

  /** Lines with no recognised prefix do not change the parse. */
  lemma {:induction false} FoldIgnoresOthers(lines: seq<string>)
    ensures Fold(Recognised(lines)) == Fold(lines)
    decreases |lines|
  {
    if lines != [] {
      var init := lines[..|lines| - 1];
      var last := lines[|lines| - 1];
      FoldIgnoresOthers(init);
      if Classify(last).OtherLine? {
        assert Recognised(lines) == Recognised(init) + [] == Recognised(init);
        assert Fold(lines) == Step(Fold(init), last) == Fold(init);
      } else {
        var rs := Recognised(init) + [last];
        assert Recognised(lines) == rs;
        assert rs[..|rs| - 1] == Recognised(init) && rs[|rs| - 1] == last;
      }
    }
  }

  // ---------------------------------------------------------------------
  // Heads and branches

  /** The index of the last worktree line, if any. */
  function LastWorktree(lines: seq<string>): (j: Option<nat>)
    ensures j.Some? ==> j.value < |lines| && Classify(lines[j.value]).WorktreeLine?
  {
    if lines == [] then None
    else if Classify(lines[|lines| - 1]).WorktreeLine? then Some(|lines| - 1)
    else LastWorktree(lines[..|lines| - 1])
  }

  /** The value of the last "HEAD " line, or "" when there is none. */
  function LastHead(lines: seq<string>): string {
    if lines == [] then ""
    else match Classify(lines[|lines| - 1])
      case HeadLine(h) => h
      case _ => LastHead(lines[..|lines| - 1])
  }

  /** The branch name of the last "branch " line, or None when there is none. */
  function LastBranch(lines: seq<string>): Option<string> {
    if lines == [] then None
    else match Classify(lines[|lines| - 1])
      case BranchLine(b) => Some(BranchName(b))
      case _ => LastBranch(lines[..|lines| - 1])
  }

  /** The entries the porcelain format describes: one per worktree line, with
      the last head and the last branch given between it and the next
      worktree line. */
  function Blocks(lines: seq<string>): seq<WorktreeInfo>
    decreases |lines|
  {
    match LastWorktree(lines)
    case None => []
    case Some(j) =>
      var block := lines[j + 1..];
      Blocks(lines[..j]) + [WorktreeInfo(Classify(lines[j]).path, LastHead(block), LastBranch(block))]
  }

  /** Every worktree line has a non-empty path. */
  predicate PathsNonEmpty(lines: seq<string>) {
    forall k :: 0 <= k < |lines| && Classify(lines[k]).WorktreeLine? ==> Classify(lines[k]).path != ""
  }

  /** The output starts with a worktree line. */
  predicate LeadsWithWorktree(lines: seq<string>) {
    lines != [] && Classify(lines[0]).WorktreeLine?
  }

  /** The state after some lines, as the porcelain format describes it: the
      finished blocks and the block of the last worktree line. */
  function Described(lines: seq<string>): Scan
    requires LastWorktree(lines).Some?
  {
    var j := LastWorktree(lines).value;
    var block := lines[j + 1..];
    Scan(Blocks(lines[..j]), Classify(lines[j]).path, LastHead(block), LastBranch(block))
  }

  /** A line that is not a worktree line leaves the last worktree line where it was. */
  lemma LastWorktreeSnoc(init: seq<string>, line: string)
    requires !Classify(line).WorktreeLine?
    ensures LastWorktree(init + [line]) == LastWorktree(init)
    ensures LastWorktree(init).Some? ==>
              var j := LastWorktree(init).value;
              && (init + [line])[..j] == init[..j] && (init + [line])[j] == init[j]
              && (init + [line])[j + 1..] == init[j + 1..] + [line]
  {
    assert (init + [line])[..|init|] == init;
  }

  /** Once the lines start with a worktree line and no path is empty, the
      loop state is the described one. */
  lemma {:induction false} FoldDescribed(lines: seq<string>)
    requires LeadsWithWorktree(lines) && PathsNonEmpty(lines)
    ensures LastWorktree(lines).Some? && Fold(lines) == Described(lines)
    decreases |lines|
  {
    var n := |lines|;
    if n == 1 {
      assert LastWorktree(lines) == Some(0);
      assert lines[1..] == [];
      assert Fold(lines) == Step(START, lines[0]) by {
        assert lines[..0] == [];
      }
    } else {
      var init := lines[..n - 1];
      var line := lines[n - 1];
      assert LeadsWithWorktree(init) && PathsNonEmpty(init) by {
        assert init[0] == lines[0];
        assert forall k :: 0 <= k < |init| ==> init[k] == lines[k];
      }
      FoldDescribed(init);
      var j := LastWorktree(init).value;
      assert Classify(init[j]).path != "" by {
        assert init[j] == lines[j];
      }
      assert Fold(lines) == Step(Described(init), line);
      if Classify(line).WorktreeLine? {
        DescribedNewBlock(init, line);
      } else {
        DescribedSameBlock(init, line);
      }
      assert lines == init + [line];
    }
  }

  /** A worktree line after a described block finishes that block and starts a new one. */
  lemma DescribedNewBlock(init: seq<string>, line: string)
    requires LastWorktree(init).Some? && Classify(init[LastWorktree(init).value]).path != ""
    requires Classify(line).WorktreeLine?
    ensures LastWorktree(init + [line]).Some? && Step(Described(init), line) == Described(init + [line])
  {
    var lines := init + [line];
    var n := |lines|;
    var j := LastWorktree(init).value;
    assert LastWorktree(lines) == Some(n - 1);
    assert lines[..n - 1] == init && lines[n..] == [];
    var st := Described(init);
    assert Blocks(init) == Blocks(init[..j]) + [WorktreeInfo(st.path, st.head, st.branch)];
  }

  /** Any other line after a described block stays in that block. */
  lemma DescribedSameBlock(init: seq<string>, line: string)
    requires LastWorktree(init).Some?
    requires !Classify(line).WorktreeLine?
    ensures LastWorktree(init + [line]).Some? && Step(Described(init), line) == Described(init + [line])
  {
    LastWorktreeSnoc(init, line);
    var j := LastWorktree(init).value;
    var block := init[j + 1..] + [line];
    assert block[..|block| - 1] == init[j + 1..];
  }

  /** Once the output starts with a worktree line and no path is empty, each
      entry is the block of its worktree line: its head and its branch come
      from the last "HEAD " and "branch " lines before the next worktree line,
      "" and None when there are none. */
  lemma ListWorktreesBlocks(lines: seq<string>)
    requires LeadsWithWorktree(lines) && PathsNonEmpty(lines)
    ensures Finish(Fold(lines)) == Blocks(lines)
  {
    FoldDescribed(lines);
  }

  // ---------------------------------------------------------------------
  // GitHub repositories

  /** `DefaultBranchRef`. */
  datatype GhRepoRaw = GhRepoRaw(nameWithOwner: string, url: string, defaultBranchRef: Option<string>)

  /** `GhRepo`. */
  datatype GhRepo = GhRepo(owner: string, name: string, url: string, defaultBranch: string)

  const DEFAULT_BRANCH: string := "main"

  /** `splitn(2, '/')` of `nameWithOwner`: the owner before the first '/' and
      the name after it; with no '/', no owner and the whole text as name. */
  function SplitOwnerName(nameWithOwner: string): (r: (string, string))
    ensures '/' in nameWithOwner ==> nameWithOwner == r.0 + "/" + r.1 && '/' !in r.0
    ensures '/' !in nameWithOwner ==> r == ("", nameWithOwner)
  {
    match SplitOnce(nameWithOwner, '/')
    case (owner, Some(name)) => (owner, name)
    case (_, None) => ("", nameWithOwner)
  }

  /** Joining an owner without '/' and a name and splitting them again gives
      both back. */
  lemma SplitOwnerNameRoundTrip(owner: string, name: string)
    requires '/' !in owner
    ensures SplitOwnerName(owner + "/" + name) == (owner, name)
  {
    SplitOnceAt(owner, '/', name);
  }

  /** One repository of the `gh` listing: owner and name split, the URL as
      given, and "main" when there is no default branch. */
  function ToGhRepo(raw: GhRepoRaw): (repo: GhRepo)
    ensures (repo.owner, repo.name) == SplitOwnerName(raw.nameWithOwner) && repo.url == raw.url
    ensures raw.defaultBranchRef.None? ==> repo.defaultBranch == DEFAULT_BRANCH
    ensures raw.defaultBranchRef.Some? ==> repo.defaultBranch == raw.defaultBranchRef.value
  {
    var (owner, name) := SplitOwnerName(raw.nameWithOwner);
    GhRepo(owner, name, raw.url, raw.defaultBranchRef.GetOr(DEFAULT_BRANCH))
  }

  /** `list_gh_repos`: the trimmed stderr text when gh fails, the decoder's
      message when its JSON does not decode, else one repository per record,
      in order. */
  function ListGhRepos(out: CommandOutput, decode: string -> Result<seq<GhRepoRaw>, string>)
    : (r: Result<seq<GhRepo>, string>)
    ensures !out.success ==> r == Err(Trim(out.stderr))
    ensures out.success && decode(out.stdout).Err? ==>
              r == Err("failed to parse gh output: " + decode(out.stdout).error)
    ensures out.success && decode(out.stdout).Ok? ==>
              r.Ok? && |r.value| == |decode(out.stdout).value|
              && forall k :: 0 <= k < |r.value| ==> r.value[k] == ToGhRepo(decode(out.stdout).value[k])
  {
    if !out.success then Err(Trim(out.stderr))
    else match decode(out.stdout)
      case Err(e) => Err("failed to parse gh output: " + e)
      case Ok(raws) => Ok(seq(|raws|, k requires 0 <= k < |raws| => ToGhRepo(raws[k])))
  }
}
