/// Turning an AI tool's answer into an architecture graph or a findings report
/// (crates/phantom-analysis/src/parser.rs): the JSON block is cut out of the
/// answer, decoded (a second time with trailing commas stripped if the first
/// attempt fails) and then checked, which only ever adds warnings.
module AnalysisParser {
  import opened Wrappers
  import opened Text

  // ---------------------------------------------------------------------
  // Schemas. The free-form `metadata` values are not part of this model.

  /** `GraphNode`. */
  datatype GraphNode = GraphNode(id: string, nodeLabel: string, nodeType: string, group: Option<string>)

  /** `GraphEdge`. */
  datatype GraphEdge = GraphEdge(source: string, target: string, edgeLabel: Option<string>, edgeType: string)

  /** `GraphGroup`. */
  datatype GraphGroup = GraphGroup(id: string, groupLabel: string, description: Option<string>)

  /** `ArchitectureGraph`. */
  datatype ArchitectureGraph = ArchitectureGraph(
    version: int, level: int, direction: string, description: string,
    nodes: seq<GraphNode>, edges: seq<GraphEdge>, groups: seq<GraphGroup>)

  /** `FindingLocation`. */
  datatype FindingLocation = FindingLocation(file: string, lineStart: Option<int>, lineEnd: Option<int>,
                                             snippet: Option<string>)

  /** `Finding`. */
  datatype Finding = Finding(
    id: string, title: string, severity: string, category: string, description: string,
    locations: seq<FindingLocation>, suggestion: string, effort: string)

  /** `FindingsStats`. */
  datatype FindingsStats = FindingsStats(total: nat, bySeverity: map<string, nat>, byCategory: map<string, nat>)

  /** `AnalysisFindings`. */
  datatype AnalysisFindings = AnalysisFindings(version: int, summary: string, stats: FindingsStats,
                                               findings: seq<Finding>)

  /** `ValidationWarning`. */
  datatype ValidationWarning = ValidationWarning(message: string)

  /** `ParsedGraph`. */
  datatype ParsedGraph = ParsedGraph(graph: ArchitectureGraph, warnings: seq<ValidationWarning>)

  /** `ParsedFindings`. */
  datatype ParsedFindings = ParsedFindings(findings: AnalysisFindings, warnings: seq<ValidationWarning>)

  // ---------------------------------------------------------------------
  // JSON extraction

  const JSON_START: string := "```json"
  const FENCE: string := "```"

  /** `extract_json_block`: the trimmed text between the first "```json" and
      the first "```" after it; None when a marker is missing or that text is blank. */
  function ExtractJsonBlock(raw: string): (r: Option<string>)
    ensures r.Some? ==> r.value != [] && Trim(r.value) == r.value
    ensures Find(raw, JSON_START).None? ==> r.None?
  {
    match Find(raw, JSON_START)
    case None => None
    case Some(start) =>
      var rest := raw[start + |JSON_START|..];
      match Find(rest, FENCE)
      case None => None
      case Some(end) =>
        var json := Trim(rest[..end]);
        TrimOfTrimmed(json);
        if json == [] then None else Some(json)
  }

  /** A block fenced by "```json" and "```", with no backquote before it or
      inside it, is found, and its text is trimmed. */
  lemma ExtractJsonBlockFenced(before: string, body: string, after: string)
    requires '`' !in before && '`' !in body
    ensures ExtractJsonBlock(before + JSON_START + body + FENCE + after)
            == if Trim(body) == [] then None else Some(Trim(body))
  {
    var tail := body + FENCE + after;
    var raw := before + JSON_START + body + FENCE + after;
    assert raw == before + (JSON_START + tail);
    assert raw[|before|..|before| + |JSON_START|] == JSON_START;
    assert forall j :: 0 <= j < |before| ==> raw[j] == before[j];
    NotOccursBefore(raw, JSON_START, |before|);
    FindIs(raw, JSON_START, |before|);
    var rest := raw[|before| + |JSON_START|..];
    assert rest == tail;
    assert rest[|body|..|body| + |FENCE|] == FENCE;
    assert forall j :: 0 <= j < |body| ==> rest[j] == body[j];
    NotOccursBefore(rest, FENCE, |body|);
    FindIs(rest, FENCE, |body|);
    assert rest[..|body|] == body;
  }

  /** Without a "```json" marker there is no block. */
  lemma ExtractJsonBlockNeedsMarker(raw: string)
    requires '`' !in raw
    ensures ExtractJsonBlock(raw) == None
  {
    NotOccursBefore(raw, JSON_START, |raw|);
  }

  // ---------------------------------------------------------------------
  // Trailing commas

  /** The scanner state of `strip_trailing_commas` before a character:
      inside a string literal, and right after a backslash in one. */
  datatype Scanner = Scanner(inString: bool, escapeNext: bool)

  /** The state after a character: an escaped character clears the escape,
      a backslash inside a string starts one, and an unescaped quote enters
      or leaves a string. */
  function ScanStep(st: Scanner, ch: char): Scanner {
    if st.escapeNext then Scanner(st.inString, false)
    else if ch == '\\' && st.inString then Scanner(true, true)
    else if ch == '"' then Scanner(!st.inString, false)
    else st
  }

  /** The scanner state before position `i`. */
  function ScanBefore(s: string, i: nat): Scanner
    requires i <= |s|
  {
    if i == 0 then Scanner(false, false) else ScanStep(ScanBefore(s, i - 1), s[i - 1])
  }

  /** The first character at or after `i` that is not whitespace. */
  function NextNonWhitespace(s: string, i: nat): (r: Option<char>)
    requires i <= |s|
    ensures r.Some? ==> !IsWhitespace(r.value)
    decreases |s| - i
  {
    if i == |s| then None
    else if !IsWhitespace(s[i]) then Some(s[i])
    else NextNonWhitespace(s, i + 1)
  }

  /** A closing bracket or brace. */
  predicate IsCloser(next: Option<char>) {
    next == Some(']') || next == Some('}')
  }

  /** The character at `i` is dropped: a ',' outside any string literal
      whose next non-whitespace character is ']' or '}'. */
  predicate Dropped(s: string, i: nat)
    requires i < |s|
  {
    var st := ScanBefore(s, i);
    s[i] == ',' && !st.inString && !st.escapeNext && IsCloser(NextNonWhitespace(s, i + 1))
  }

  /** The characters of the first `n` that are not dropped, in order. */
  function Kept(s: string, n: nat): (r: string)
    requires n <= |s|
    ensures |r| <= n
  {
    if n == 0 then [] else Kept(s, n - 1) + (if Dropped(s, n - 1) then [] else [s[n - 1]])
  }

  /** The text without its trailing commas. */
  function Stripped(s: string): string {
    Kept(s, |s|)
  }

  /** `strip_trailing_commas`. */
  method StripTrailingCommas(json: string) returns (result: string)
    ensures result == Stripped(json)
  {
    result := [];
    var inString, escapeNext := false, false;
    var i := 0;
    while i < |json|
      invariant 0 <= i <= |json|
      invariant result == Kept(json, i)
      invariant Scanner(inString, escapeNext) == ScanBefore(json, i)
    {
      var ch := json[i];
      if escapeNext {
        escapeNext := false;
        result := result + [ch];
      } else if ch == '\\' && inString {
        escapeNext := true;
        result := result + [ch];
      } else if ch == '"' {
        inString := !inString;
        result := result + [ch];
      } else if inString {
        result := result + [ch];
      } else if ch == ',' && IsCloser(NextNonWhitespace(json, i + 1)) {
      } else {
        result := result + [ch];
      }
      i := i + 1;
    }
  }

  /** An escape is only ever pending inside a string literal. */
  lemma {:induction false} EscapeOnlyInString(s: string, i: nat)
    requires i <= |s|
    ensures ScanBefore(s, i).escapeNext ==> ScanBefore(s, i).inString
  {
    if i > 0 {
      EscapeOnlyInString(s, i - 1);
    }
  }

  /** Stripping deletes only commas: every other character occurs as often
      in the result as in the input, and commas no more often. */
  lemma {:induction false} KeptCounts(s: string, n: nat, c: char)
    requires n <= |s|
    ensures c != ',' ==> Count(Kept(s, n), c) == Count(s[..n], c)
    ensures Count(Kept(s, n), c) <= Count(s[..n], c)
  {
    if n > 0 {
      KeptCounts(s, n - 1, c);
      var piece := if Dropped(s, n - 1) then [] else [s[n - 1]];
      CountAppend(Kept(s, n - 1), piece, c);
      assert s[..n] == s[..n - 1] + [s[n - 1]];
      CountAppend(s[..n - 1], [s[n - 1]], c);
    }
  }

  /** A text without commas is stripped to itself. */
  lemma {:induction false} KeptWithoutCommas(s: string, n: nat)
    requires n <= |s| && ',' !in s
    ensures Kept(s, n) == s[..n]
  {
    if n > 0 {
      KeptWithoutCommas(s, n - 1);
      assert s[..n] == s[..n - 1] + [s[n - 1]];
    }
  }

  /** Stripping is not idempotent: "[1,,]" loses one comma per pass. */
  lemma StrippedNotIdempotent()
    ensures Stripped("[1,,]") == "[1,]"
    ensures Stripped("[1,]") == "[1]"
  {
    var s := "[1,,]";
    assert NextNonWhitespace(s, 4) == Some(']');
    assert NextNonWhitespace(s, 3) == Some(',');
    assert ScanBefore(s, 3) == Scanner(false, false) by {
      assert ScanBefore(s, 1) == Scanner(false, false);
      assert ScanBefore(s, 2) == Scanner(false, false);
    }
    assert Kept(s, 3) == "[1,";
    assert Kept(s, 4) == "[1,";
    var t := "[1,]";
    assert NextNonWhitespace(t, 3) == Some(']');
    assert ScanBefore(t, 2) == Scanner(false, false) by {
      assert ScanBefore(t, 1) == Scanner(false, false);
    }
    assert Kept(t, 2) == "[1";
    assert Kept(t, 3) == "[1";
  }

  /** A comma inside a string literal is kept even before a ']'. */
  lemma StrippedKeepsStringCommas()
    ensures Stripped("\"a,]\"") == "\"a,]\""
  {
    var s := "\"a,]\"";
    assert ScanBefore(s, 1) == Scanner(true, false);
    assert ScanBefore(s, 2) == Scanner(true, false);
    assert !Dropped(s, 2);
    assert Kept(s, 2) == "\"a";
    assert Kept(s, 3) == "\"a,";
    assert Kept(s, 4) == "\"a,]";
  }

  // ---------------------------------------------------------------------
  // Decoding

  const NO_BLOCK: string := "no JSON code block found in output"

  /** serde_json's verdict on a text (serde_json is not part of this model). */
  type Decoder<T> = string -> Result<T, string>

  /** The text decoded as it is, or else with trailing commas stripped; the
      error is that of the second attempt. */
  function DecodeLenient<T>(json: string, decode: Decoder<T>): (r: Result<T, string>)
    ensures r.Ok? <==> decode(json).Ok? || decode(Stripped(json)).Ok?
    ensures decode(json).Ok? ==> r == decode(json)
  {
    if decode(json).Ok? then decode(json) else decode(Stripped(json))
  }

  /** The `or_else` retry of `parse_graph` and `parse_findings`. */
  method DecodeWithRetry<T>(json: string, decode: Decoder<T>) returns (r: Result<T, string>)
    ensures r == DecodeLenient(json, decode)
    ensures decode(json).Ok? ==> r == decode(json)
  {
    r := decode(json);
    if r.Err? {
      var cleaned := StripTrailingCommas(json);
      r := decode(cleaned);
    }
  }

  // ---------------------------------------------------------------------
  // Graph validation

  /** The set of node ids (`node_ids`). */
  function NodeIds(nodes: seq<GraphNode>): set<string> {
    set i | 0 <= i < |nodes| :: nodes[i].id
  }

  /** The set of group ids (`group_ids`). */
  function GroupIds(groups: seq<GraphGroup>): set<string> {
    set i | 0 <= i < |groups| :: groups[i].id
  }

  /** The prefix every node id of a level-`level` graph should have, "L{level}_". */
  function LevelPrefix(level: int): string {
    "L" + IntToString(level) + "_"
  }

  const DUPLICATE_IDS: string := "duplicate node IDs detected"

  /** The duplicate-id warning, issued when the id set is smaller than the node list. */
  function DuplicateWarnings(nodes: seq<GraphNode>): seq<ValidationWarning> {
    if |NodeIds(nodes)| != |nodes| then [ValidationWarning(DUPLICATE_IDS)] else []
  }

  function PrefixWarning(id: string, prefix: string): ValidationWarning {
    ValidationWarning("node '" + id + "' does not match expected prefix '" + prefix + "'")
  }

  /** One warning per node, in order, whose id lacks the prefix. */
  function PrefixWarnings(nodes: seq<GraphNode>, prefix: string): seq<ValidationWarning> {
    if nodes == [] then []
    else
      var last := nodes[|nodes| - 1];
      PrefixWarnings(nodes[..|nodes| - 1], prefix)
        + (if StartsWith(last.id, prefix) then [] else [PrefixWarning(last.id, prefix)])
  }

  function SourceWarning(source: string): ValidationWarning {
    ValidationWarning("edge source '" + source + "' references unknown node")
  }

  function TargetWarning(target: string): ValidationWarning {
    ValidationWarning("edge target '" + target + "' references unknown node")
  }

  /** The warnings of one edge: its source, then its target, when not a node id. */
  function EdgeWarning(e: GraphEdge, ids: set<string>): seq<ValidationWarning> {
    (if e.source in ids then [] else [SourceWarning(e.source)])
      + (if e.target in ids then [] else [TargetWarning(e.target)])
  }

  /** The warnings of the edges, in order. */
  function EdgeWarnings(edges: seq<GraphEdge>, ids: set<string>): seq<ValidationWarning> {
    if edges == [] then []
    else EdgeWarnings(edges[..|edges| - 1], ids) + EdgeWarning(edges[|edges| - 1], ids)
  }

  function GroupWarning(id: string, group: string): ValidationWarning {
    ValidationWarning("node '" + id + "' references unknown group '" + group + "'")
  }

  /** One warning per node, in order, whose group is not a group id. */
  function GroupWarnings(nodes: seq<GraphNode>, groupIds: set<string>): seq<ValidationWarning> {
    if nodes == [] then []
    else
      var last := nodes[|nodes| - 1];
      GroupWarnings(nodes[..|nodes| - 1], groupIds)
        + (if last.group.None? || last.group.value in groupIds then [] else [GroupWarning(last.id, last.group.value)])
  }

  /** All warnings of a graph, in the order `parse_graph` issues them. */
  function GraphWarnings(g: ArchitectureGraph): seq<ValidationWarning> {
    DuplicateWarnings(g.nodes)
      + PrefixWarnings(g.nodes, LevelPrefix(g.level))
      + EdgeWarnings(g.edges, NodeIds(g.nodes))
      + GroupWarnings(g.nodes, GroupIds(g.groups))
  }

  /** No two nodes share an id. */
  predicate DistinctIds(nodes: seq<GraphNode>) {
    forall i, j :: 0 <= i < j < |nodes| ==> nodes[i].id != nodes[j].id
  }

  /** A graph with nothing to warn about: distinct node ids with the level's
      prefix, edges between nodes, and nodes only in declared groups. */
  predicate WellFormed(g: ArchitectureGraph) {
    && DistinctIds(g.nodes)
    && (forall i :: 0 <= i < |g.nodes| ==> StartsWith(g.nodes[i].id, LevelPrefix(g.level)))
    && (forall i :: 0 <= i < |g.edges| ==> g.edges[i].source in NodeIds(g.nodes) && g.edges[i].target in NodeIds(g.nodes))
    && (forall i :: 0 <= i < |g.nodes| && g.nodes[i].group.Some? ==> g.nodes[i].group.value in GroupIds(g.groups))
  }

  /** The ids of a list of nodes are those before its last node and the last one's. */
  lemma NodeIdsSnoc(nodes: seq<GraphNode>)
    requires nodes != []
    ensures NodeIds(nodes) == NodeIds(nodes[..|nodes| - 1]) + {nodes[|nodes| - 1].id}
  {
    var init := nodes[..|nodes| - 1];
    assert forall i :: 0 <= i < |init| ==> init[i] == nodes[i];
  }

  /** The ids are distinct when those before the last node are and the last one is new. */
  lemma DistinctIdsSnoc(nodes: seq<GraphNode>)
    requires nodes != []
    ensures DistinctIds(nodes) <==>
              DistinctIds(nodes[..|nodes| - 1]) && nodes[|nodes| - 1].id !in NodeIds(nodes[..|nodes| - 1])
  {
    var init := nodes[..|nodes| - 1];
    assert forall i :: 0 <= i < |init| ==> init[i] == nodes[i];
    if nodes[|nodes| - 1].id in NodeIds(init) {
      var k :| 0 <= k < |init| && init[k].id == nodes[|nodes| - 1].id;
      assert nodes[k].id == nodes[|nodes| - 1].id;
    }
  }

  /** There are as many node ids as nodes exactly when no id repeats. */
  lemma {:induction false} NodeIdsCount(nodes: seq<GraphNode>)
    ensures |NodeIds(nodes)| <= |nodes|
    ensures |NodeIds(nodes)| == |nodes| <==> DistinctIds(nodes)
  {
    if nodes != [] {
      NodeIdsCount(nodes[..|nodes| - 1]);
      NodeIdsSnoc(nodes);
      DistinctIdsSnoc(nodes);
    }
  }

  /** No prefix warning exactly when every id has the prefix. */
  lemma {:induction false} PrefixWarningsEmpty(nodes: seq<GraphNode>, prefix: string)
    ensures PrefixWarnings(nodes, prefix) == [] <==> forall i :: 0 <= i < |nodes| ==> StartsWith(nodes[i].id, prefix)
  {
    if nodes != [] {
      var init := nodes[..|nodes| - 1];
      PrefixWarningsEmpty(init, prefix);
      assert forall i :: 0 <= i < |init| ==> init[i] == nodes[i];
    }
  }

  /** No edge warning exactly when every edge joins node ids. */
  lemma {:induction false} EdgeWarningsEmpty(edges: seq<GraphEdge>, ids: set<string>)
    ensures EdgeWarnings(edges, ids) == [] <==> forall i :: 0 <= i < |edges| ==> edges[i].source in ids && edges[i].target in ids
  {
    if edges != [] {
      var init := edges[..|edges| - 1];
      EdgeWarningsEmpty(init, ids);
      assert forall i :: 0 <= i < |init| ==> init[i] == edges[i];
    }
  }

  /** No group warning exactly when every node's group is declared. */
  lemma {:induction false} GroupWarningsEmpty(nodes: seq<GraphNode>, groupIds: set<string>)
    ensures GroupWarnings(nodes, groupIds) == [] <==>
              forall i :: 0 <= i < |nodes| && nodes[i].group.Some? ==> nodes[i].group.value in groupIds
  {
    if nodes != [] {
      var init := nodes[..|nodes| - 1];
      GroupWarningsEmpty(init, groupIds);
      assert forall i :: 0 <= i < |init| ==> init[i] == nodes[i];
    }
  }

  /** A graph gets no warning exactly when it is well formed. */
  lemma GraphWarningsEmptyIff(g: ArchitectureGraph)
    ensures GraphWarnings(g) == [] <==> WellFormed(g)
  {
    NodeIdsCount(g.nodes);
    PrefixWarningsEmpty(g.nodes, LevelPrefix(g.level));
    EdgeWarningsEmpty(g.edges, NodeIds(g.nodes));
    GroupWarningsEmpty(g.nodes, GroupIds(g.groups));
  }

  /** The node-prefix loop of `parse_graph`. */
  method CheckPrefixes(nodes: seq<GraphNode>, prefix: string) returns (warnings: seq<ValidationWarning>)
    ensures warnings == PrefixWarnings(nodes, prefix)
  {
    warnings := [];
    var i := 0;
    while i < |nodes|
      invariant 0 <= i <= |nodes|
      invariant warnings == PrefixWarnings(nodes[..i], prefix)
    {
      var node := nodes[i];
      assert nodes[..i + 1][..i] == nodes[..i];
      if !StartsWith(node.id, prefix) {
        warnings := warnings + [PrefixWarning(node.id, prefix)];
      }
      i := i + 1;
    }
    assert nodes[..i] == nodes;
  }

  /** The edge loop of `parse_graph`. */
  method CheckEdges(edges: seq<GraphEdge>, nodeIds: set<string>) returns (warnings: seq<ValidationWarning>)
    ensures warnings == EdgeWarnings(edges, nodeIds)
  {
    warnings := [];
    var i := 0;
    while i < |edges|
      invariant 0 <= i <= |edges|
      invariant warnings == EdgeWarnings(edges[..i], nodeIds)
    {
      var edge := edges[i];
      assert edges[..i + 1][..i] == edges[..i];
      if edge.source !in nodeIds {
        warnings := warnings + [SourceWarning(edge.source)];
      }
      if edge.target !in nodeIds {
        warnings := warnings + [TargetWarning(edge.target)];
      }
      i := i + 1;
    }
    assert edges[..i] == edges;
  }

  /** The group loop of `parse_graph`. */
  method CheckGroups(nodes: seq<GraphNode>, groupIds: set<string>) returns (warnings: seq<ValidationWarning>)
    ensures warnings == GroupWarnings(nodes, groupIds)
  {
    warnings := [];
    var i := 0;
    while i < |nodes|
      invariant 0 <= i <= |nodes|
      invariant warnings == GroupWarnings(nodes[..i], groupIds)
    {
      var node := nodes[i];
      assert nodes[..i + 1][..i] == nodes[..i];
      if node.group.Some? && node.group.value !in groupIds {
        warnings := warnings + [GroupWarning(node.id, node.group.value)];
      }
      i := i + 1;
    }
    assert nodes[..i] == nodes;
  }

  /** `parse_graph`: an error only when there is no JSON block or it does
      not decode even with trailing commas stripped; otherwise the graph
      with all its warnings. */
  method ParseGraph(raw: string, decode: Decoder<ArchitectureGraph>) returns (r: Result<ParsedGraph, string>)
    ensures ExtractJsonBlock(raw).None? ==> r == Err(NO_BLOCK)
    ensures ExtractJsonBlock(raw).Some? && DecodeLenient(ExtractJsonBlock(raw).value, decode).Err? ==>
              r == Err("invalid ArchitectureGraph JSON: " + DecodeLenient(ExtractJsonBlock(raw).value, decode).error)
    ensures ExtractJsonBlock(raw).Some? && DecodeLenient(ExtractJsonBlock(raw).value, decode).Ok? ==>
              var g := DecodeLenient(ExtractJsonBlock(raw).value, decode).value;
              r == Ok(ParsedGraph(g, GraphWarnings(g)))
  {
    var block := ExtractJsonBlock(raw);
    if block.None? {
      return Err(NO_BLOCK);
    }
    var decoded := DecodeWithRetry(block.value, decode);
    if decoded.Err? {
      return Err("invalid ArchitectureGraph JSON: " + decoded.error);
    }
    var graph := decoded.value;
    var warnings: seq<ValidationWarning> := [];
    var levelPrefix := LevelPrefix(graph.level);
    var nodeIds := NodeIds(graph.nodes);
    if |nodeIds| != |graph.nodes| {
      warnings := warnings + [ValidationWarning(DUPLICATE_IDS)];
    }
    var prefixWarnings := CheckPrefixes(graph.nodes, levelPrefix);
    var edgeWarnings := CheckEdges(graph.edges, nodeIds);
    var groupIds := GroupIds(graph.groups);
    var groupWarnings := CheckGroups(graph.nodes, groupIds);
    assert warnings == DuplicateWarnings(graph.nodes);
    warnings := warnings + prefixWarnings + edgeWarnings + groupWarnings;
    assert warnings == GraphWarnings(graph);
    r := Ok(ParsedGraph(graph, warnings));
  }

  // ---------------------------------------------------------------------
  // Findings

  /** The part of the preset name before its first '/' or ' '. */
  function ShortName(preset: string): (r: string)
    ensures '/' !in r && ' ' !in r
    ensures StartsWith(preset, r)
    ensures |r| < |preset| ==> preset[|r|] == '/' || preset[|r|] == ' '
  {
    if preset == [] || preset[0] == '/' || preset[0] == ' ' then []
    else [preset[0]] + ShortName(preset[1..])
  }

  /** `DefaultHasher` over the title's bytes (not part of this model). */
  type TitleHash = seq<u8> -> u64

  const HALF: nat := 0x1_0000_0000

  /** `generate_finding_id`: "F_", the lower-cased short preset name, "_"
      and the first 8 of the 16 hex digits of the title's hash, which are
      those of its upper 32 bits. */
  function GenerateFindingId(preset: string, title: string, hash: TitleHash): (id: string)
    ensures StartsWith(id, "F_") && |id| == |ShortName(preset)| + 11
  {
    "F_" + ToLower(ShortName(preset)) + "_" + HexDigits(hash(Utf8(title)) / HALF, 8)
  }

  lemma Pow16Eight()
    ensures Pow16(8) == HALF
  {
    assert Pow16(4) == 0x1_0000;
  }

  /** The upper half of a 64-bit value fits in 32 bits. */
  lemma UpperHalfBound(h: u64)
    ensures h / HALF < Pow16(8)
  {
    Pow16Eight();
    assert h < HALF * HALF;
  }

  /** An id starts with "F_", the lower-cased short preset name and "_",
      followed by 8 hex digits. */
  lemma FindingIdShape(preset: string, title: string, hash: TitleHash)
    ensures var head := "F_" + ToLower(ShortName(preset)) + "_";
            var id := GenerateFindingId(preset, title, hash);
            && StartsWith(id, head) && |id| == |head| + 8
            && forall i :: |head| <= i < |id| ==> IsHexDigit(id[i])
  {
    var head := "F_" + ToLower(ShortName(preset)) + "_";
    var id := GenerateFindingId(preset, title, hash);
    var digits := HexDigits(hash(Utf8(title)) / HALF, 8);
    assert id == head + digits;
    assert id[..|head|] == head;
    assert forall i :: |head| <= i < |id| ==> id[i] == digits[i - |head|];
  }

  /** The 8 hex digits of an id determine the upper half of the title's
      hash, so titles whose hashes differ there get different ids. */
  lemma FindingIdInjective(preset: string, t1: string, t2: string, hash: TitleHash)
    ensures GenerateFindingId(preset, t1, hash) == GenerateFindingId(preset, t2, hash) ==>
              hash(Utf8(t1)) / HALF == hash(Utf8(t2)) / HALF
  {
    var head := "F_" + ToLower(ShortName(preset)) + "_";
    var n1, n2 := hash(Utf8(t1)) / HALF, hash(Utf8(t2)) / HALF;
    if GenerateFindingId(preset, t1, hash) == GenerateFindingId(preset, t2, hash) {
      PrefixCancel(head, HexDigits(n1, 8), HexDigits(n2, 8));
      UpperHalfBound(hash(Utf8(t1)));
      UpperHalfBound(hash(Utf8(t2)));
      HexDigitsInjective(n1, n2, 8);
    }
  }

  /** Only the segment before the first '/' or ' ' of the preset name counts. */
  lemma FindingIdIgnoresPresetSuffix(name: string, sep: char, suffix: string, title: string, hash: TitleHash)
    requires '/' !in name && ' ' !in name && (sep == '/' || sep == ' ')
    ensures GenerateFindingId(name + [sep] + suffix, title, hash) == GenerateFindingId(name, title, hash)
  {
    ShortNameStops(name, sep, suffix);
    ShortNameStops(name, sep, []);
    assert name + [sep] + [] == name + [sep];
    ShortNameWhole(name);
  }

  /** The short name of a name without separators is the name. */
  lemma {:induction false} ShortNameWhole(name: string)
    requires '/' !in name && ' ' !in name
    ensures ShortName(name) == name
  {
    if name != [] {
      assert '/' !in name[1..] && ' ' !in name[1..] by {
        assert forall i :: 0 <= i < |name[1..]| ==> name[1..][i] == name[i + 1];
      }
      ShortNameWhole(name[1..]);
    }
  }

  /** The short name stops at the first separator. */
  lemma {:induction false} ShortNameStops(name: string, sep: char, suffix: string)
    requires '/' !in name && ' ' !in name && (sep == '/' || sep == ' ')
    ensures ShortName(name + [sep] + suffix) == name
  {
    if name != [] {
      assert (name + [sep] + suffix)[1..] == name[1..] + [sep] + suffix;
      assert '/' !in name[1..] && ' ' !in name[1..] by {
        assert forall i :: 0 <= i < |name[1..]| ==> name[1..][i] == name[i + 1];
      }
      ShortNameStops(name[1..], sep, suffix);
    } else {
      assert (name + [sep] + suffix)[0] == sep;
    }
  }

  /** The findings with their ids regenerated. */
  function WithIds(fs: seq<Finding>, preset: string, hash: TitleHash): (r: seq<Finding>)
    ensures |r| == |fs|
    ensures forall k :: 0 <= k < |fs| ==> r[k] == fs[k].(id := GenerateFindingId(preset, fs[k].title, hash))
  {
    seq(|fs|, k requires 0 <= k < |fs| => fs[k].(id := GenerateFindingId(preset, fs[k].title, hash)))
  }

  const VALID_SEVERITIES: seq<string> := ["critical", "high", "medium", "low", "info"]

  function SeverityWarning(f: Finding): ValidationWarning {
    ValidationWarning("finding '" + f.title + "' has invalid severity '" + f.severity + "'")
  }

  /** One warning per finding, in order, whose severity is not a valid one. */
  function SeverityWarnings(fs: seq<Finding>): seq<ValidationWarning> {
    if fs == [] then []
    else
      var last := fs[|fs| - 1];
      SeverityWarnings(fs[..|fs| - 1]) + (if last.severity in VALID_SEVERITIES then [] else [SeverityWarning(last)])
  }

  /** No severity warning exactly when every severity is valid. */
  lemma {:induction false} SeverityWarningsEmpty(fs: seq<Finding>)
    ensures SeverityWarnings(fs) == [] <==> forall k :: 0 <= k < |fs| ==> fs[k].severity in VALID_SEVERITIES
  {
    if fs != [] {
      var init := fs[..|fs| - 1];
      SeverityWarningsEmpty(init);
      assert forall k :: 0 <= k < |init| ==> init[k] == fs[k];
    }
  }

  /** `*m.entry(k).or_insert(0) += 1`. */
  function Bump(m: map<string, nat>, k: string): (r: map<string, nat>)
    ensures r.Keys == m.Keys + {k}
  {
    m[k := (if k in m then m[k] else 0) + 1]
  }

  /** The number of occurrences of each key. */
  function Tally(keys: seq<string>): map<string, nat> {
    if keys == [] then map[] else Bump(Tally(keys[..|keys| - 1]), keys[|keys| - 1])
  }

  function Severities(fs: seq<Finding>): (r: seq<string>)
    ensures |r| == |fs| && forall k :: 0 <= k < |fs| ==> r[k] == fs[k].severity
  {
    seq(|fs|, k requires 0 <= k < |fs| => fs[k].severity)
  }

  function Categories(fs: seq<Finding>): (r: seq<string>)
    ensures |r| == |fs| && forall k :: 0 <= k < |fs| ==> r[k] == fs[k].category
  {
    seq(|fs|, k requires 0 <= k < |fs| => fs[k].category)
  }

  /** The stats of a list of findings: its length and the tallies of its
      severities and categories. */
  function Stats(fs: seq<Finding>): FindingsStats {
    FindingsStats(|fs|, Tally(Severities(fs)), Tally(Categories(fs)))
  }

  /** The tally of one more key is the previous tally bumped at that key. */
  lemma TallyPrefix(keys: seq<string>, i: nat)
    requires i < |keys|
    ensures Tally(keys[..i + 1]) == Bump(Tally(keys[..i]), keys[i])
  {
    assert keys[..i + 1][..i] == keys[..i];
  }

  /** `compute_stats`. */
  method ComputeStats(findings: seq<Finding>) returns (stats: FindingsStats)
    ensures stats == Stats(findings)
  {
    var bySeverity: map<string, nat> := map[];
    var byCategory: map<string, nat> := map[];
    var i := 0;
    while i < |findings|
      invariant 0 <= i <= |findings|
      invariant bySeverity == Tally(Severities(findings)[..i])
      invariant byCategory == Tally(Categories(findings)[..i])
    {
      var f := findings[i];
      TallyPrefix(Severities(findings), i);
      TallyPrefix(Categories(findings), i);
      bySeverity := Bump(bySeverity, f.severity);
      byCategory := Bump(byCategory, f.category);
      i := i + 1;
    }
    assert Severities(findings)[..i] == Severities(findings);
    assert Categories(findings)[..i] == Categories(findings);
    stats := FindingsStats(|findings|, bySeverity, byCategory);
  }

  /** The number of times `k` occurs in `keys`. */
  function Occurrences(keys: seq<string>, k: string): nat {
    if keys == [] then 0 else Occurrences(keys[..|keys| - 1], k) + (if keys[|keys| - 1] == k then 1 else 0)
  }

  /** The tally holds exactly the keys that occur, each with its number of occurrences. */
  lemma {:induction false} TallyCounts(keys: seq<string>, k: string)
    ensures k in Tally(keys) <==> Occurrences(keys, k) > 0
    ensures k in Tally(keys) ==> Tally(keys)[k] == Occurrences(keys, k)
  {
    if keys != [] {
      TallyCounts(keys[..|keys| - 1], k);
    }
  }

  /** The sum of the values of a map. */
  ghost function SumValues(m: map<string, nat>): nat
    decreases |m.Keys|
  {
    if m == map[] then 0
    else
      var k :| k in m;
      assert (m - {k}).Keys == m.Keys - {k};
      m[k] + SumValues(m - {k})
  }

  /** The sum may start from any key. */
  lemma {:induction false} SumValuesRemove(m: map<string, nat>, k: string)
    requires k in m
    ensures SumValues(m) == m[k] + SumValues(m - {k})
    decreases |m.Keys|
  {
    var c :| c in m && SumValues(m) == m[c] + SumValues(m - {c});
    if c != k {
      assert (m - {c}).Keys == m.Keys - {c};
      assert (m - {k}).Keys == m.Keys - {k};
      SumValuesRemove(m - {c}, k);
      SumValuesRemove(m - {k}, c);
      assert m - {c} - {k} == m - {k} - {c};
    }
  }

  /** The tally of the keys adds up to their number. */
  lemma {:induction false} TallySum(keys: seq<string>)
    ensures SumValues(Tally(keys)) == |keys|
  {
    if keys != [] {
      var init := keys[..|keys| - 1];
      var k := keys[|keys| - 1];
      var m := Tally(init);
      TallySum(init);
      var m' := Tally(keys);
      assert m' == Bump(m, k);
      SumValuesRemove(m', k);
      if k in m {
        SumValuesRemove(m, k);
        assert m' - {k} == m - {k};
      } else {
        assert m' - {k} == m;
      }
    }
  }

  /** The stats count every finding once: the total is their number, and
      the severity and category tallies each add up to it. */
  lemma StatsConsistent(fs: seq<Finding>)
    ensures Stats(fs).total == |fs|
    ensures SumValues(Stats(fs).bySeverity) == |fs|
    ensures SumValues(Stats(fs).byCategory) == |fs|
  {
    TallySum(Severities(fs));
    TallySum(Categories(fs));
  }

  /** The findings report with ids regenerated and stats recomputed; the
      stats the tool wrote are dropped. */
  function Recomputed(a: AnalysisFindings, preset: string, hash: TitleHash): (r: AnalysisFindings)
    ensures r.version == a.version && r.summary == a.summary
    ensures r.findings == WithIds(a.findings, preset, hash)
    ensures r.stats == Stats(a.findings)
  {
    var fs := WithIds(a.findings, preset, hash);
    assert Severities(fs) == Severities(a.findings);
    assert Categories(fs) == Categories(a.findings);
    AnalysisFindings(a.version, a.summary, Stats(fs), fs)
  }

  /** The id loop of `parse_findings`: every id is overwritten in place. */
  method RegenerateIds(findings: seq<Finding>, preset: string, hash: TitleHash) returns (fs: seq<Finding>)
    ensures fs == WithIds(findings, preset, hash)
  {
    fs := findings;
    var i := 0;
    while i < |fs|
      invariant 0 <= i <= |fs| && |fs| == |findings|
      invariant forall k :: 0 <= k < i ==> fs[k] == findings[k].(id := GenerateFindingId(preset, findings[k].title, hash))
      invariant forall k :: i <= k < |fs| ==> fs[k] == findings[k]
    {
      fs := fs[i := fs[i].(id := GenerateFindingId(preset, fs[i].title, hash))];
      i := i + 1;
    }
  }

  /** The severity loop of `parse_findings`. */
  method CheckSeverities(fs: seq<Finding>) returns (warnings: seq<ValidationWarning>)
    ensures warnings == SeverityWarnings(fs)
  {
    warnings := [];
    var i := 0;
    while i < |fs|
      invariant 0 <= i <= |fs|
      invariant warnings == SeverityWarnings(fs[..i])
    {
      var f := fs[i];
      assert fs[..i + 1][..i] == fs[..i];
      if f.severity !in VALID_SEVERITIES {
        warnings := warnings + [SeverityWarning(f)];
      }
      i := i + 1;
    }
    assert fs[..i] == fs;
  }

  /** `parse_findings`: an error only when there is no JSON block or it does
      not decode even with trailing commas stripped; otherwise the report
      with regenerated ids, recomputed stats and one warning per invalid severity. */
  method ParseFindings(raw: string, presetName: string, decode: Decoder<AnalysisFindings>, hash: TitleHash)
    returns (r: Result<ParsedFindings, string>)
    ensures ExtractJsonBlock(raw).None? ==> r == Err(NO_BLOCK)
    ensures ExtractJsonBlock(raw).Some? && DecodeLenient(ExtractJsonBlock(raw).value, decode).Err? ==>
              r == Err("invalid AnalysisFindings JSON: " + DecodeLenient(ExtractJsonBlock(raw).value, decode).error)
    ensures ExtractJsonBlock(raw).Some? && DecodeLenient(ExtractJsonBlock(raw).value, decode).Ok? ==>
              var a := DecodeLenient(ExtractJsonBlock(raw).value, decode).value;
              r == Ok(ParsedFindings(Recomputed(a, presetName, hash), SeverityWarnings(a.findings)))
  {
    var block := ExtractJsonBlock(raw);
    if block.None? {
      return Err(NO_BLOCK);
    }
    var decoded := DecodeWithRetry(block.value, decode);
    if decoded.Err? {
      return Err("invalid AnalysisFindings JSON: " + decoded.error);
    }
    var findings := decoded.value;
    var fs := RegenerateIds(findings.findings, presetName, hash);
    var warnings := CheckSeverities(fs);
    SeverityWarningsSameFields(fs, findings.findings);
    var stats := ComputeStats(fs);
    assert Severities(fs) == Severities(findings.findings);
    assert Categories(fs) == Categories(findings.findings);
    r := Ok(ParsedFindings(AnalysisFindings(findings.version, findings.summary, stats, fs), warnings));
  }

  /** The severity warnings do not depend on the ids. */
  lemma {:induction false} SeverityWarningsSameFields(fs: seq<Finding>, gs: seq<Finding>)
    requires |fs| == |gs|
    requires forall k :: 0 <= k < |fs| ==> fs[k].title == gs[k].title && fs[k].severity == gs[k].severity
    ensures SeverityWarnings(fs) == SeverityWarnings(gs)
  {
    if fs != [] {
      SeverityWarningsSameFields(fs[..|fs| - 1], gs[..|gs| - 1]);
    }
  }

  /** A report gets no warning exactly when all its severities are valid,
      and its stats do not depend on the stats the tool wrote. */
  lemma FindingsChecks(a: AnalysisFindings, s: FindingsStats, preset: string, hash: TitleHash)
    ensures SeverityWarnings(a.findings) == [] <==>
              forall k :: 0 <= k < |a.findings| ==> a.findings[k].severity in VALID_SEVERITIES
    ensures Recomputed(a.(stats := s), preset, hash) == Recomputed(a, preset, hash)
  {
    SeverityWarningsEmpty(a.findings);
  }
}
