/// The macOS sandbox profile of a project worktree session
/// (crates/phantom-app/src/sandbox.rs): path escaping, the profile text and
/// the `sandbox-exec` command line.
module Sandbox {
  import opened Text

  // ---------------------------------------------------------------------
  // Path escaping

  /** `str::replace` of one character by a string. */
  function ReplaceChar(s: string, c: char, rep: string): (r: string)
    ensures c !in rep ==> c !in r
    ensures c !in s ==> r == s
  {
    if s == [] then [] else (if s[0] == c then rep else [s[0]]) + ReplaceChar(s[1..], c, rep)
  }

  /** Replacing distributes over concatenation. */
  lemma {:induction false} ReplaceCharAppend(a: string, b: string, c: char, rep: string)
    ensures ReplaceChar(a + b, c, rep) == ReplaceChar(a, c, rep) + ReplaceChar(b, c, rep)
  {
    if a != [] {
      assert (a + b)[1..] == a[1..] + b;
      ReplaceCharAppend(a[1..], b, c, rep);
    } else {
      assert a + b == b;
    }
  }

  /** `escape_path`: double every backslash, then put a backslash before every quote. */
  function EscapePath(path: string): (r: string)
    ensures '\\' !in path && '"' !in path ==> r == path
  {
    ReplaceChar(ReplaceChar(path, '\\', "\\\\"), '"', "\\\"")
  }

  /** How one character is written inside a quoted profile string. */
  function EscapeChar(c: char): (r: string)
    ensures c == '\\' ==> r == "\\\\"
    ensures c == '"' ==> r == "\\\""
    ensures c != '\\' && c != '"' ==> r == [c]
  {
    if c == '\\' then "\\\\" else if c == '"' then "\\\"" else [c]
  }

  /** Each character escaped on its own, left to right. */
  function EscapeEach(s: string): (r: string) {
    if s == [] then [] else EscapeChar(s[0]) + EscapeEach(s[1..])
  }

  /** The two chained replacements escape each character on its own: the
      second one only meets the quotes of the input, never a backslash the
      first one added. */
  lemma {:induction false} EscapePathPerChar(path: string)
    ensures EscapePath(path) == EscapeEach(path)
  {
    if path != [] {
      var first := if path[0] == '\\' then "\\\\" else [path[0]];
      assert ReplaceChar(path, '\\', "\\\\") == first + ReplaceChar(path[1..], '\\', "\\\\");
      ReplaceCharAppend(first, ReplaceChar(path[1..], '\\', "\\\\"), '"', "\\\"");
      if path[0] != '\\' {
        assert ReplaceChar(first, '"', "\\\"") == EscapeChar(path[0]);
      }
      EscapePathPerChar(path[1..]);
    }
  }

  /** Each backslash and each quote gains one character. */
  lemma {:induction false} EscapeEachLength(s: string)
    ensures |EscapeEach(s)| == |s| + Count(s, '\\') + Count(s, '"')
  {
    if s != [] {
      EscapeEachLength(s[1..]);
    }
  }

  /** Without backslashes and quotes nothing changes. */
  lemma {:induction false} EscapeEachIdentity(s: string)
    requires Count(s, '\\') == 0 && Count(s, '"') == 0
    ensures EscapeEach(s) == s
  {
    if s != [] {
      EscapeEachIdentity(s[1..]);
    }
  }

  /** The length of an escaped path, and the paths that need no escaping. */
  lemma EscapePathLength(path: string)
    ensures |EscapePath(path)| == |path| + Count(path, '\\') + Count(path, '"')
    ensures Count(path, '\\') == 0 && Count(path, '"') == 0 ==> EscapePath(path) == path
  {
    EscapePathPerChar(path);
    EscapeEachLength(path);
    if Count(path, '\\') == 0 && Count(path, '"') == 0 {
      EscapeEachIdentity(path);
    }
  }

  /** How sandbox-exec reads a quoted profile string: a backslash stands for
      the character after it. */
  function Unescape(s: string): (r: string)
    ensures |r| <= |s|
    decreases |s|
  {
    if s == [] then []
    else if s[0] == '\\' && |s| >= 2 then [s[1]] + Unescape(s[2..])
    else [s[0]] + Unescape(s[1..])
  }

  /** Reading back a string escaped character by character gives the string. */
  lemma {:induction false} UnescapeEscapeEach(s: string)
    ensures Unescape(EscapeEach(s)) == s
  {
    if s != [] {
      var t := EscapeEach(s[1..]);
      UnescapeEscapeEach(s[1..]);
      assert EscapeEach(s) == EscapeChar(s[0]) + t;
      if s[0] == '\\' || s[0] == '"' {
        assert (EscapeChar(s[0]) + t)[2..] == t;
      } else {
        assert (EscapeChar(s[0]) + t)[1..] == t;
      }
    }
  }

  /** The profile's reader gets exactly the path back from its escaped form. */
  lemma EscapePathRoundTrip(path: string)
    ensures Unescape(EscapePath(path)) == path
  {
    EscapePathPerChar(path);
    UnescapeEscapeEach(path);
  }

  /** Different paths are never escaped to the same text. */
  lemma EscapePathInjective(p: string, q: string)
    ensures EscapePath(p) == EscapePath(q) ==> p == q
  {
    EscapePathRoundTrip(p);
    EscapePathRoundTrip(q);
  }

  // ---------------------------------------------------------------------
  // The profile

  const VERSION_LINE: string := "(version 1)"
  const DENY_DEFAULT: string := "(deny default)"
  /** The opening of a read rule and of a write rule for one subpath, and their close. */
  const READ_OPEN: string := "(allow file-read*\n    (subpath \""
  const WRITE_OPEN: string := "(allow file-write*\n    (subpath \""
  const RULE_CLOSE: string := "\"))"

  const DEFAULT_COMMENT: string := "\n\n;; Default: deny everything\n"
  /** Process execution, the read-only system paths and the writable temporary
      directories, as the lines of the template joined by line breaks. */
  const SYSTEM_RULES: string := Join([
      "",
      "",
      ";; Allow process execution",
      "(allow process-exec)",
      "(allow process-fork)",
      "",
      ";; Allow reading standard system paths",
      "(allow file-read*",
      "    (subpath \"/usr\")",
      "    (subpath \"/bin\")",
      "    (subpath \"/sbin\")",
      "    (subpath \"/Library\")",
      "    (subpath \"/System\")",
      "    (subpath \"/private/var/db/dyld\")",
      "    (subpath \"/private/etc\")",
      "    (subpath \"/dev\")",
      "    (subpath \"/opt/homebrew\")",
      "    (subpath \"/tmp\")",
      "    (subpath \"/var/folders\")",
      "    (literal \"/etc\")",
      "    (literal \"/var\")",
      "    (literal \"/private\"))",
      "",
      ";; Allow writing to temp directories",
      "(allow file-write*",
      "    (subpath \"/tmp\")",
      "    (subpath \"/private/tmp\")",
      "    (subpath \"/var/folders\")",
      "    (subpath \"/dev\"))",
      "",
      ";; Allow read/write to the worktree",
      ""
    ], "\n")

  const GIT_COMMENT: string := "\n\n;; Allow reading the shared git objects directory\n"
  /** Network, sysctl, mach lookups, signals, IOKit and the home directory, as
      the lines of the template joined by line breaks. */
  const OTHER_RULES: string := Join([
      "",
      "",
      ";; Allow network access",
      "(allow network*)",
      "",
      ";; Allow sysctl reads (needed by many tools)",
      "(allow sysctl-read)",
      "",
      ";; Allow mach lookups (needed for IPC, DNS, etc.)",
      "(allow mach-lookup)",
      "",
      ";; Allow signal handling",
      "(allow signal)",
      "",
      ";; Allow IOKit (needed by some system libraries)",
      "(allow iokit-open)",
      "",
      ";; Allow reading user home directory essentials",
      "(allow file-read*",
      "    (subpath (param \"HOME\")))",
      ""
    ], "\n")

  /** `allow file-read*` of a subpath. */
  function ReadRule(path: string): string {
    READ_OPEN + path + RULE_CLOSE
  }

  /** `allow file-write*` of a subpath. */
  function WriteRule(path: string): string {
    WRITE_OPEN + path + RULE_CLOSE
  }

  /** The profile's layout: the version line, a comment, the default-deny
      rule, the system rules, a read and a write rule for the worktree, a
      comment, a read rule for the git directory, and the remaining rules. */
  function Layout(version: string, comment: string, deny: string, system: string, readWorktree: string,
                  writeWorktree: string, gitComment: string, readGitDir: string, others: string): string
  {
    version + (comment + (deny + (system + (readWorktree + ("\n"
      + (writeWorktree + (gitComment + (readGitDir + others))))))))
  }

  /** `generate_profile`: deny by default, allow the system paths, read and
      write the escaped worktree, read the escaped git directory, and allow
      the remaining services. */
  function GenerateProfile(worktreePath: string, repoGitDir: string): (p: string)
    ensures StartsWith(p, VERSION_LINE)
  {
    var worktree := EscapePath(worktreePath);
    var gitDir := EscapePath(repoGitDir);
    Layout(VERSION_LINE, DEFAULT_COMMENT, DENY_DEFAULT, SYSTEM_RULES, ReadRule(worktree),
           WriteRule(worktree), GIT_COMMENT, ReadRule(gitDir), OTHER_RULES)
  }

  /** `x` occurs at the start of `x + b`. */
  lemma OccursFirst(x: string, b: string)
    ensures OccursAt(x + b, x, 0)
  {
    assert (x + b)[..|x|] == x;
  }

  /** An occurrence in `s` is one in `a + s`, `|a|` further on. */
  lemma OccursAfter(a: string, s: string, x: string, k: nat)
    requires OccursAt(s, x, k)
    ensures OccursAt(a + s, x, |a| + k)
  {
    assert (a + s)[|a| + k..|a| + k + |x|] == s[k..k + |x|];
  }

  /** The layout starts with the version line. */
  lemma LayoutVersion(version: string, comment: string, deny: string, system: string, readWorktree: string,
                   writeWorktree: string, gitComment: string, readGitDir: string, others: string)
    ensures StartsWith(Layout(version, comment, deny, system, readWorktree, writeWorktree, gitComment, readGitDir, others), version)
  {
    OccursFirst(version, comment + (deny + (system + (readWorktree + ("\n"
      + (writeWorktree + (gitComment + (readGitDir + others))))))));
  }

  /** The deny rule follows the version line and the comment. */
  lemma LayoutDeny(version: string, comment: string, deny: string, system: string, readWorktree: string,
                   writeWorktree: string, gitComment: string, readGitDir: string, others: string)
    ensures OccursAt(Layout(version, comment, deny, system, readWorktree, writeWorktree, gitComment, readGitDir, others), deny, |version| + |comment|)
  {
    var t3 := system + (readWorktree + ("\n" + (writeWorktree + (gitComment + (readGitDir + others)))));
    OccursFirst(deny, t3);
    OccursAfter(comment, deny + t3, deny, 0);
    OccursAfter(version, comment + (deny + t3), deny, |comment|);
  }

  /** The worktree's read rule follows the system rules. */
  lemma LayoutReadWorktree(version: string, comment: string, deny: string, system: string, readWorktree: string,
                   writeWorktree: string, gitComment: string, readGitDir: string, others: string)
    ensures OccursAt(Layout(version, comment, deny, system, readWorktree, writeWorktree, gitComment, readGitDir, others), readWorktree, |version| + |comment| + |deny| + |system|)
  {
    var t5 := "\n" + (writeWorktree + (gitComment + (readGitDir + others)));
    var t4 := readWorktree + t5;
    OccursFirst(readWorktree, t5);
    OccursAfter(system, t4, readWorktree, 0);
    OccursAfter(deny, system + t4, readWorktree, |system|);
    OccursAfter(comment, deny + (system + t4), readWorktree, |deny| + |system|);
    OccursAfter(version, comment + (deny + (system + t4)), readWorktree, |comment| + |deny| + |system|);
  }

  /** The three pieces before the worktree's read rule. */
  function Head3(version: string, comment: string, deny: string, system: string): string {
    version + (comment + (deny + system))
  }

  /** The layout is the head, then the part from the worktree's read rule on. */
  lemma LayoutSplit(version: string, comment: string, deny: string, system: string, readWorktree: string,
                   writeWorktree: string, gitComment: string, readGitDir: string, others: string)
    ensures Layout(version, comment, deny, system, readWorktree, writeWorktree, gitComment, readGitDir, others) == Head3(version, comment, deny, system) + (readWorktree + ("\n"
      + (writeWorktree + (gitComment + (readGitDir + others)))))
  {
    var t4 := readWorktree + ("\n" + (writeWorktree + (gitComment + (readGitDir + others))));
    assert deny + (system + t4) == (deny + system) + t4;
    assert comment + ((deny + system) + t4) == (comment + (deny + system)) + t4;
    assert version + ((comment + (deny + system)) + t4) == (version + (comment + (deny + system))) + t4;
  }

  /** The worktree's write rule follows its read rule and a line break. */
  lemma LayoutWriteWorktree(version: string, comment: string, deny: string, system: string, readWorktree: string,
                   writeWorktree: string, gitComment: string, readGitDir: string, others: string)
    ensures OccursAt(Layout(version, comment, deny, system, readWorktree, writeWorktree, gitComment, readGitDir, others), writeWorktree, |Head3(version, comment, deny, system)| + |readWorktree| + 1)
  {
    var t6 := writeWorktree + (gitComment + (readGitDir + others));
    OccursFirst(writeWorktree, gitComment + (readGitDir + others));
    OccursAfter("\n", t6, writeWorktree, 0);
    OccursAfter(readWorktree, "\n" + t6, writeWorktree, 1);
    LayoutSplit(version, comment, deny, system, readWorktree, writeWorktree, gitComment, readGitDir, others);
    OccursAfter(Head3(version, comment, deny, system), readWorktree + ("\n" + t6), writeWorktree, |readWorktree| + 1);
  }

  /** The git directory's read rule follows the worktree's write rule and a comment. */
  lemma LayoutReadGitDir(version: string, comment: string, deny: string, system: string, readWorktree: string,
                   writeWorktree: string, gitComment: string, readGitDir: string, others: string)
    ensures OccursAt(Layout(version, comment, deny, system, readWorktree, writeWorktree, gitComment, readGitDir, others), readGitDir,
                     |Head3(version, comment, deny, system)| + |readWorktree| + 1 + |writeWorktree| + |gitComment|)
  {
    var t8 := readGitDir + others;
    OccursFirst(readGitDir, others);
    OccursAfter(gitComment, t8, readGitDir, 0);
    OccursAfter(writeWorktree, gitComment + t8, readGitDir, |gitComment|);
    OccursAfter("\n", writeWorktree + (gitComment + t8), readGitDir, |writeWorktree| + |gitComment|);
    OccursAfter(readWorktree, "\n" + (writeWorktree + (gitComment + t8)), readGitDir, 1 + |writeWorktree| + |gitComment|);
    LayoutSplit(version, comment, deny, system, readWorktree, writeWorktree, gitComment, readGitDir, others);
    OccursAfter(Head3(version, comment, deny, system), readWorktree + ("\n" + (writeWorktree + (gitComment + t8))),
                readGitDir, |readWorktree| + 1 + |writeWorktree| + |gitComment|);
  }

  /** The profile starts with the version line and denies by default; the
      escaped worktree is both readable and writable; the escaped git
      directory is readable. */
  lemma GenerateProfileRules(worktreePath: string, repoGitDir: string)
    ensures StartsWith(GenerateProfile(worktreePath, repoGitDir), VERSION_LINE)
    ensures exists i :: OccursAt(GenerateProfile(worktreePath, repoGitDir), DENY_DEFAULT, i)
    ensures exists i :: OccursAt(GenerateProfile(worktreePath, repoGitDir), ReadRule(EscapePath(worktreePath)), i)
    ensures exists i :: OccursAt(GenerateProfile(worktreePath, repoGitDir), WriteRule(EscapePath(worktreePath)), i)
    ensures exists i :: OccursAt(GenerateProfile(worktreePath, repoGitDir), ReadRule(EscapePath(repoGitDir)), i)
  {
    var w, g := EscapePath(worktreePath), EscapePath(repoGitDir);
    LayoutVersion(VERSION_LINE, DEFAULT_COMMENT, DENY_DEFAULT, SYSTEM_RULES, ReadRule(w),
                  WriteRule(w), GIT_COMMENT, ReadRule(g), OTHER_RULES);
    LayoutDeny(VERSION_LINE, DEFAULT_COMMENT, DENY_DEFAULT, SYSTEM_RULES, ReadRule(w),
               WriteRule(w), GIT_COMMENT, ReadRule(g), OTHER_RULES);
    LayoutReadWorktree(VERSION_LINE, DEFAULT_COMMENT, DENY_DEFAULT, SYSTEM_RULES, ReadRule(w),
                       WriteRule(w), GIT_COMMENT, ReadRule(g), OTHER_RULES);
    LayoutWriteWorktree(VERSION_LINE, DEFAULT_COMMENT, DENY_DEFAULT, SYSTEM_RULES, ReadRule(w),
                        WriteRule(w), GIT_COMMENT, ReadRule(g), OTHER_RULES);
    LayoutReadGitDir(VERSION_LINE, DEFAULT_COMMENT, DENY_DEFAULT, SYSTEM_RULES, ReadRule(w),
                     WriteRule(w), GIT_COMMENT, ReadRule(g), OTHER_RULES);
  }

  // ---------------------------------------------------------------------
  // The command line

  const SANDBOX_EXEC: string := "sandbox-exec"

  /** `sandboxed_command`: `sandbox-exec -p <profile> <shell>`; the shell is
      the last argument and no `-c` is added. */
  function SandboxedCommand(profile: string, shell: string): (r: (string, seq<string>))
    ensures r.0 == SANDBOX_EXEC
    ensures |r.1| == 3 && r.1[0] == "-p" && r.1[1] == profile && r.1[2] == shell
    ensures profile != "-c" && shell != "-c" ==> "-c" !in r.1
  {
    (SANDBOX_EXEC, ["-p", profile, shell])
  }
}
