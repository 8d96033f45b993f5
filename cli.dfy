/// The conventions of the analysis CLI tools (crates/phantom-analysis/src/cli.rs):
/// which tool a binary is, the arguments it is run with, what its exit codes
/// mean and where its answer is in its output.
module Cli {
  import opened Wrappers
  import opened Text

  /** `CliKind`. */
  datatype CliKind = Claude | Codex | Cursor | Unknown

  // ---------------------------------------------------------------------
  // Detection

  /** The path with its trailing '/' characters dropped. */
  function TrimTrailingSlashes(s: string): (r: string)
    ensures r == [] || r[|r| - 1] != '/'
  {
    if s != [] && s[|s| - 1] == '/' then TrimTrailingSlashes(s[..|s| - 1]) else s
  }

  /** The text after the last '/'. */
  function LastComponent(s: string): (r: string)
    ensures '/' !in r
  {
    if s == [] || s[|s| - 1] == '/' then [] else LastComponent(s[..|s| - 1]) + [s[|s| - 1]]
  }

  /** `Path::file_name`: the last component once trailing separators are
      dropped; None for a path that ends in "..", ".", or has no component. */
  function FileName(path: string): (r: Option<string>)
    ensures r.Some? ==> '/' !in r.value && r.value != [] && r.value != "." && r.value != ".."
  {
    var c := LastComponent(TrimTrailingSlashes(path));
    if c == [] || c == "." || c == ".." then None else Some(c)
  }

  /** `CliKind::detect`: the prefixes claude, codex and cursor are tried in
      that order on the file name (the whole text when there is none). */
  function Detect(binary: string): (k: CliKind)
    ensures var name := FileName(binary).GetOr(binary);
            && (k == Claude <==> StartsWith(name, "claude"))
            && (k == Codex <==> !StartsWith(name, "claude") && StartsWith(name, "codex"))
            && (k == Cursor <==> !StartsWith(name, "claude") && !StartsWith(name, "codex")
                                 && StartsWith(name, "cursor"))
  {
    var name := FileName(binary).GetOr(binary);
    if StartsWith(name, "claude") then Claude
    else if StartsWith(name, "codex") then Codex
    else if StartsWith(name, "cursor") then Cursor
    else Unknown
  }

  /** The last component of `dir + "/" + name`, for a name without '/', is the name. */
  lemma {:induction false} LastComponentAppend(dir: string, name: string)
    requires '/' !in name
    ensures LastComponent(dir + "/" + name) == name
    decreases |name|
  {
    var s := dir + "/" + name;
    if name == [] {
      assert s[|s| - 1] == '/';
    } else {
      var init := name[..|name| - 1];
      assert s[..|s| - 1] == dir + "/" + init;
      assert '/' !in init by {
        assert forall i :: 0 <= i < |init| ==> init[i] == name[i];
      }
      LastComponentAppend(dir, init);
      assert name == init + [name[|name| - 1]];
    }
  }

  /** The directory a binary is in does not change its kind. */
  lemma DetectIgnoresDirectory(dir: string, name: string)
    requires '/' !in name && name != [] && name != "." && name != ".."
    ensures Detect(dir + "/" + name) == Detect(name)
  {
    var s := dir + "/" + name;
    assert s[|s| - 1] == name[|name| - 1];
    assert TrimTrailingSlashes(s) == s;
    LastComponentAppend(dir, name);
    assert name == [] + "/"[..0] + name;
    assert TrimTrailingSlashes(name) == name;
    LastComponentSelf(name);
  }

  /** A text without '/' is its own last component. */
  lemma {:induction false} LastComponentSelf(name: string)
    requires '/' !in name
    ensures LastComponent(name) == name
    decreases |name|
  {
    if name != [] {
      var init := name[..|name| - 1];
      assert '/' !in init by {
        assert forall i :: 0 <= i < |init| ==> init[i] == name[i];
      }
      LastComponentSelf(init);
      assert name == init + [name[|name| - 1]];
    }
  }

  // ---------------------------------------------------------------------
  // Exit codes

  /** `CliError`. */
  datatype CliError = CliError(message: string, recoverable: bool)

  const MISSING_API_KEY: string := "Claude: missing API key. Run `claude login` to authenticate."
  const RATE_LIMITED: string := "Codex: rate limited. Wait a moment and retry."
  const GIT_SAFETY: string := "Codex: git safety check failed. Ensure the repo is clean."

  /** `first_line`: the first line of the text, trimmed; "" for the empty text. */
  function FirstLine(s: string): (r: string)
    ensures '\n' !in r
    ensures s == [] ==> r == []
    ensures Trim(r) == r
  {
    var lines := Lines(s);
    var line := if lines == [] then s else lines[0];
    var r := Trim(line);
    TrimKeepsAbsent(line, '\n');
    TrimOfTrimmed(r);
    r
  }

  /** The name that starts the generic message of each kind. */
  function DisplayName(kind: CliKind): string {
    match kind
    case Claude => "Claude"
    case Codex => "Codex"
    case Cursor => "Cursor"
    case Unknown => "CLI"
  }

  /** The generic message: the kind, the exit code and the first line of stderr. */
  function ExitMessage(kind: CliKind, code: int, stderr: string): string {
    DisplayName(kind) + " exited with code " + IntToString(code) + ": " + FirstLine(stderr)
  }

  /** `map_exit_error`: only Codex's 124 (rate limited) is recoverable; Claude's
      3 is a missing API key and Codex's 2 a failed git safety check; every
      other exit gets the generic message. */
  function MapExitError(kind: CliKind, code: i32, stderr: string): (e: CliError)
    ensures e.recoverable <==> kind == Codex && code == 124
    ensures kind == Claude && code == 3 ==> e.message == MISSING_API_KEY
    ensures kind == Codex && code == 124 ==> e.message == RATE_LIMITED
    ensures kind == Codex && code == 2 ==> e.message == GIT_SAFETY
    ensures !(kind == Claude && code == 3) && !(kind == Codex && (code == 124 || code == 2)) ==>
              e.message == ExitMessage(kind, code, stderr)
  {
    match kind
    case Claude =>
      if code == 3 then CliError(MISSING_API_KEY, false)
      else CliError(ExitMessage(kind, code, stderr), false)
    case Codex =>
      if code == 124 then CliError(RATE_LIMITED, true)
      else if code == 2 then CliError(GIT_SAFETY, false)
      else CliError(ExitMessage(kind, code, stderr), false)
    case Cursor => CliError(ExitMessage(kind, code, stderr), false)
    case Unknown => CliError(ExitMessage(kind, code, stderr), false)
  }

  /** The decimal text of an integer holds no ':'. */
  lemma IntToStringNoColon(i: int)
    ensures ':' !in IntToString(i)
  {
    var r := IntToString(i);
    var digits := NatToString(if i < 0 then -i else i);
    assert forall k :: 0 <= k < |digits| ==> digits[k] != ':';
    if i < 0 {
      assert forall k :: 1 <= k < |r| ==> r[k] == digits[k - 1];
    }
  }

  /** The generic message is the kind's name, the code, a ':' and the rest. */
  lemma ExitMessageShape(kind: CliKind, code: int, stderr: string)
    ensures ExitMessage(kind, code, stderr)
            == (DisplayName(kind) + " exited with code ") + (IntToString(code) + [':'] + (" " + FirstLine(stderr)))
  {
    var head, t, f := DisplayName(kind) + " exited with code ", IntToString(code), FirstLine(stderr);
    assert ": " + f == [':'] + (" " + f);
    assert head + t + ": " + f == head + (t + [':'] + (" " + f));
  }

  /** The generic message determines the exit code and the first line of stderr. */
  lemma ExitMessageInjective(kind: CliKind, c1: int, e1: string, c2: int, e2: string)
    ensures ExitMessage(kind, c1, e1) == ExitMessage(kind, c2, e2) ==>
              c1 == c2 && FirstLine(e1) == FirstLine(e2)
  {
    if ExitMessage(kind, c1, e1) == ExitMessage(kind, c2, e2) {
      var head := DisplayName(kind) + " exited with code ";
      var t1, t2 := IntToString(c1), IntToString(c2);
      var r1, r2 := " " + FirstLine(e1), " " + FirstLine(e2);
      ExitMessageShape(kind, c1, e1);
      ExitMessageShape(kind, c2, e2);
      PrefixCancel(head, t1 + [':'] + r1, t2 + [':'] + r2);
      IntToStringNoColon(c1);
      IntToStringNoColon(c2);
      SplitUnique(t1, ':', r1, t2, r2);
      IntToStringRoundTrip(c1);
      IntToStringRoundTrip(c2);
      PrefixCancel(" ", FirstLine(e1), FirstLine(e2));
    }
  }

  /** The first line of a text that starts with a line is that line, trimmed. */
  lemma FirstLineOfLines(line: string, rest: string)
    requires '\n' !in line
    ensures FirstLine(line + "\n" + rest) == Trim(StripCr(line))
  {
    var s := line + "\n" + rest;
    assert s[|line|] == '\n';
    assert forall j :: 0 <= j < |line| ==> s[j] == line[j];
    assert s[..|line|] == line;
  }

  // ---------------------------------------------------------------------
  // Arguments

  /** The argument list of `build_command`. The budget is given as the text
      Rust prints for the `f64`. */
  function BuildArgs(kind: CliKind, prompt: string, budget: Option<string>): (args: seq<string>)
    ensures kind == Claude && budget.None? ==> args == ["-p", prompt, "--output-format", "json"]
    ensures kind == Claude && budget.Some? ==>
              args == ["-p", prompt, "--output-format", "json", "--max-budget-usd", budget.value]
    ensures kind == Codex ==> args == ["exec", prompt, "--json"]
    ensures kind == Cursor ==> args == ["agent", "-p", prompt]
    ensures kind == Unknown ==> args == ["--print", "-p", prompt]
  {
    match kind
    case Claude =>
      ["-p", prompt, "--output-format", "json"]
        + (if budget.Some? then ["--max-budget-usd", budget.value] else [])
    case Codex => ["exec", prompt, "--json"]
    case Cursor => ["agent", "-p", prompt]
    case Unknown => ["--print", "-p", prompt]
  }

  /** Where the prompt goes: right after "-p", or after the "exec" subcommand. */
  function PromptIndex(kind: CliKind): nat {
    match kind
    case Claude => 1
    case Codex => 1
    case Cursor => 2
    case Unknown => 2
  }

  /** Every kind passes the prompt as one whole argument, after "-p" where
      the kind takes one. */
  lemma BuildArgsPrompt(kind: CliKind, prompt: string, budget: Option<string>)
    ensures var args := BuildArgs(kind, prompt, budget);
            && PromptIndex(kind) < |args| && args[PromptIndex(kind)] == prompt
            && (kind != Codex ==> args[PromptIndex(kind) - 1] == "-p")
  {
  }

  // ---------------------------------------------------------------------
  // The payload

  /** What the analysis needs of one JSON line of Codex's stream: its "type"
      and "content" strings, and the "content" string of its "message". */
  datatype JsonLine = JsonLine(typ: Option<string>, content: Option<string>, messageContent: Option<string>)

  /** The event types that carry the agent's answer. */
  predicate IsAgentMessage(line: JsonLine) {
    line.typ == Some("AgentMessage") || line.typ == Some("agent_message")
  }

  /** The line's contribution as an agent message, if any. */
  function AgentContent(line: JsonLine): Option<string> {
    if IsAgentMessage(line) && line.content.Some? then line.content else None
  }

  /** The JSON value of a trimmed, non-blank line, if it parses (serde_json
      is not part of this model). */
  type JsonDecoder = string -> Option<JsonLine>

  /** The parsed value of a stdout line: None for a blank line or one that is not JSON. */
  function ParseLine(line: string, decode: JsonDecoder): Option<JsonLine> {
    var t := Trim(line);
    if t == [] then None else decode(t)
  }

  /** The parsed values of the lines, in order. */
  function Parsed(lines: seq<string>, decode: JsonDecoder): (ps: seq<Option<JsonLine>>)
    ensures |ps| == |lines|
    ensures forall k :: 0 <= k < |lines| ==> ps[k] == ParseLine(lines[k], decode)
  {
    seq(|lines|, k requires 0 <= k < |lines| => ParseLine(lines[k], decode))
  }

  /** One iteration of the loop of `extract_codex_payload`: an agent
      message's content is collected; then, while nothing is collected, a
      "message.content" is. */
  function Collect(parts: seq<string>, parsed: Option<JsonLine>): (r: seq<string>)
    ensures |parts| <= |r|
  {
    match parsed
    case None => parts
    case Some(obj) =>
      var parts1 := if AgentContent(obj).Some? then parts + [AgentContent(obj).value] else parts;
      if parts1 == [] && obj.messageContent.Some? then parts1 + [obj.messageContent.value] else parts1
  }

  /** The loop from the given collected parts over the remaining parsed lines. */
  function CollectAll(parts: seq<string>, ps: seq<Option<JsonLine>>): seq<string>
    decreases |ps|
  {
    if ps == [] then parts else CollectAll(Collect(parts, ps[0]), ps[1..])
  }

  /** The joined parts, or the raw stdout when none were collected. */
  function CodexPayload(stdout: string, decode: JsonDecoder): string {
    var parts := CollectAll([], Parsed(Lines(stdout), decode));
    if parts == [] then stdout else Join(parts, "\n")
  }

  /** `extract_codex_payload`. */
  method ExtractCodexPayload(stdout: string, decode: JsonDecoder) returns (payload: string)
    ensures payload == CodexPayload(stdout, decode)
  {
    var lines := Lines(stdout);
    ghost var ps := Parsed(lines, decode);
    var contentParts: seq<string> := [];
    var i := 0;
    while i < |lines|
      invariant 0 <= i <= |lines|
      invariant CollectAll(contentParts, ps[i..]) == CollectAll([], ps)
    {
      var line := Trim(lines[i]);
      assert ps[i..][1..] == ps[i + 1..];
      if line != [] {
        match decode(line) {
          case Some(obj) =>
            if IsAgentMessage(obj) && obj.content.Some? {
              contentParts := contentParts + [obj.content.value];
            }
            if contentParts == [] && obj.messageContent.Some? {
              contentParts := contentParts + [obj.messageContent.value];
            }
          case None =>
        }
      }
      i := i + 1;
    }
    if contentParts == [] {
      payload := stdout;
    } else {
      payload := Join(contentParts, "\n");
    }
  }

  /** `extract_payload`: Codex's stream is scanned; every other kind's stdout
      is the payload as it is. */
  method ExtractPayload(kind: CliKind, stdout: string, decode: JsonDecoder) returns (payload: string)
    ensures kind != Codex ==> payload == stdout
    ensures kind == Codex ==> payload == CodexPayload(stdout, decode)
  {
    if kind == Codex {
      payload := ExtractCodexPayload(stdout, decode);
    } else {
      payload := stdout;
    }
  }

  /** The content a parsed line adds as an agent message: one string or none. */
  function AgentPart(parsed: Option<JsonLine>): seq<string> {
    if parsed.Some? && AgentContent(parsed.value).Some? then [AgentContent(parsed.value).value] else []
  }

  /** The agent messages' contents, in order. */
  function AgentContents(ps: seq<Option<JsonLine>>): seq<string> {
    if ps == [] then [] else AgentPart(ps[0]) + AgentContents(ps[1..])
  }

  /** Once something is collected, a line adds only its agent message's content. */
  lemma CollectNonEmpty(parts: seq<string>, parsed: Option<JsonLine>)
    requires parts != []
    ensures Collect(parts, parsed) == parts + AgentPart(parsed)
  {
  }

  /** What the stream yields, described line by line: every agent message's
      content, in order, and before them the "message.content" of the first
      line that has one, if no agent message comes earlier or on that line. */
  function Contents(ps: seq<Option<JsonLine>>): seq<string> {
    if ps == [] then []
    else match ps[0]
      case Some(obj) =>
        if AgentContent(obj).Some? then AgentContents(ps)
        else if obj.messageContent.Some? then [obj.messageContent.value] + AgentContents(ps[1..])
        else Contents(ps[1..])
      case None => Contents(ps[1..])
  }

  /** Once something is collected, only agent messages' contents are added. */
  lemma {:induction false} CollectAllAfterFirst(parts: seq<string>, ps: seq<Option<JsonLine>>)
    requires parts != []
    ensures CollectAll(parts, ps) == parts + AgentContents(ps)
    decreases |ps|
  {
    if ps == [] {
      assert parts + [] == parts;
    } else {
      var first := AgentPart(ps[0]);
      CollectNonEmpty(parts, ps[0]);
      CollectAllAfterFirst(parts + first, ps[1..]);
      assert parts + first + AgentContents(ps[1..]) == parts + (first + AgentContents(ps[1..]));
    }
  }

  /** The loop collects exactly the described contents. */
  lemma {:induction false} CollectAllContents(ps: seq<Option<JsonLine>>)
    ensures CollectAll([], ps) == Contents(ps)
  {
    if ps != [] {
      var next := Collect([], ps[0]);
      match ps[0]
      case None =>
        CollectAllContents(ps[1..]);
      case Some(obj) =>
        if AgentContent(obj).Some? {
          assert next == [AgentContent(obj).value];
          CollectAllAfterFirst(next, ps[1..]);
        } else if obj.messageContent.Some? {
          assert next == [obj.messageContent.value];
          CollectAllAfterFirst(next, ps[1..]);
        } else {
          assert next == [];
          CollectAllContents(ps[1..]);
        }
    }
  }

  /** Without "message.content" values, the described contents are the agent messages' contents. */
  lemma {:induction false} ContentsWithoutMessages(ps: seq<Option<JsonLine>>)
    requires forall k :: 0 <= k < |ps| && ps[k].Some? ==> ps[k].value.messageContent.None?
    ensures Contents(ps) == AgentContents(ps)
  {
    if ps != [] {
      assert forall k :: 1 <= k < |ps| ==> ps[1..][k - 1] == ps[k];
      ContentsWithoutMessages(ps[1..]);
    }
  }

  /** The payload of Codex's stream, for every stdout: the described
      contents joined by line breaks, or stdout when there are none. With no
      "message.content" anywhere, those are the agent messages' contents. */
  lemma CodexPayloadContents(stdout: string, decode: JsonDecoder)
    ensures var c := Contents(Parsed(Lines(stdout), decode));
            CodexPayload(stdout, decode) == if c == [] then stdout else Join(c, "\n")
    ensures var ps := Parsed(Lines(stdout), decode);
            (forall k :: 0 <= k < |ps| && ps[k].Some? ==> ps[k].value.messageContent.None?) ==>
              Contents(ps) == AgentContents(ps)
  {
    var ps := Parsed(Lines(stdout), decode);
    CollectAllContents(ps);
    if forall k :: 0 <= k < |ps| && ps[k].Some? ==> ps[k].value.messageContent.None? {
      ContentsWithoutMessages(ps);
    }
  }
}
