/** The second half of check_cli_agent_active
    (resources/pty-rs/src/main.rs:138-178): the descendants found by the
    walk are looked up with `ps -o comm=,args= -p <pids>`, fifty pids at a
    time, and the first output line that names a known CLI agent decides.

    `ps` is a parameter: it maps the comma-separated pid list to the
    command's standard output, or to `None` when it could not be started
    or exited unsuccessfully. */
module RsAgent {
  import opened Common
  import opened Numbers
  import opened RsProcs
  import opened RsWalk

  /** The CLI agents the helper recognises. */
  datatype Agent = Claude | Gemini | Codex

  /** The name reported to the host for an agent (main.rs:162, 168, 171). */
  function AgentName(a: Agent): (r: string)
    ensures r in {"claude", "gemini", "codex"}
  {
    match a
    case Claude => "claude"
    case Gemini => "gemini"
    case Codex => "codex"
  }

  lemma AgentNameInjective(a: Agent, b: Agent)
    ensures AgentName(a) == AgentName(b) <==> a == b
  {
    if a != b {
      assert AgentName(a)[1] != AgentName(b)[1] || AgentName(a)[0] != AgentName(b)[0];
    }
  }

  // ---------------------------------------------------------------------
  // One line of ps output
  // ---------------------------------------------------------------------

  /** The two fields a line is judged by (main.rs:156-160): the first
      whitespace-separated word (`comm`) and the second one (`args`, empty
      when missing), both lower-cased. `None` for a blank line. */
  function LineFields(line: string): Option<(string, string)>
  {
    var parts := Tokens(Trim(line, IsRustWhitespace));
    if parts == [] then None
    else Some((Lower(parts[0]), Lower(if |parts| >= 2 then parts[1] else "")))
  }

  lemma LowerKeepsSpaceOut(s: string)
    requires ' ' !in s
    ensures ' ' !in Lower(s)
  {
    var r := Lower(s);
    forall k | 0 <= k < |r|
      ensures r[k] != ' '
    {
      assert r[k] == LowerChar(s[k]) && s[k] != ' ';
    }
  }

  /** The agent a line names, if any (main.rs:159-172): claude is checked
      first, then gemini, then codex. */
  function ClassifyLine(line: string): Option<Agent>
  {
    match LineFields(line)
    case None => None
    case Some((comm, args)) =>
      if Contains(comm, "claude") then Some(Claude)
      else if Contains(args, "/bin/gemini") || Contains(args, " gemini ") || comm == "gemini" then Some(Gemini)
      else if Contains(comm, "codex") || Contains(args, "/bin/codex") then Some(Codex)
      else None
  }

  /** `args` is a single word, so the `" gemini "` test of main.rs:165 can
      never succeed. */
  lemma SpacedGeminiNeverMatches(line: string)
    requires LineFields(line).Some?
    ensures !Contains(LineFields(line).value.1, " gemini ")
  {
    var parts := Tokens(Trim(line, IsRustWhitespace));
    var word := if |parts| >= 2 then parts[1] else "";
    assert NoWhitespace(word);
    LowerKeepsSpaceOut(word);
    var args := LineFields(line).value.1;
    assert args == Lower(word);
    SpaceFreeAvoids(args, " gemini ");
  }

  /** A text without a space contains nothing that starts with one. */
  lemma SpaceFreeAvoids(w: string, t: string)
    requires ' ' !in w && |t| > 0 && t[0] == ' '
    ensures !Contains(w, t)
  {
    forall i | 0 <= i && i + |t| <= |w|
      ensures !OccursAt(w, t, i)
    {
      assert w[i..i + |t|][0] == w[i];
    }
  }

  /** The classification with the dead test removed: claude when the
      command name mentions it; otherwise gemini when the argument has a
      `/bin/gemini` path or the command is exactly `gemini`; otherwise
      codex when the command mentions it or the argument has a
      `/bin/codex` path. */
  lemma ClassifyLineRule(line: string)
    ensures ClassifyLine(line) == Some(Claude) <==>
              LineFields(line).Some? && Contains(LineFields(line).value.0, "claude")
    ensures ClassifyLine(line) == Some(Gemini) <==>
              && LineFields(line).Some?
              && !Contains(LineFields(line).value.0, "claude")
              && (Contains(LineFields(line).value.1, "/bin/gemini") || LineFields(line).value.0 == "gemini")
    ensures ClassifyLine(line) == Some(Codex) <==>
              && LineFields(line).Some?
              && !Contains(LineFields(line).value.0, "claude")
              && !Contains(LineFields(line).value.1, "/bin/gemini")
              && LineFields(line).value.0 != "gemini"
              && (Contains(LineFields(line).value.0, "codex") || Contains(LineFields(line).value.1, "/bin/codex"))
  {
    if LineFields(line).Some? {
      SpacedGeminiNeverMatches(line);
    }
  }

  /** The agent of the first line of a ps listing that names one. */
  function FirstAgent(lines: seq<string>): Option<Agent>
  {
    FirstOf(lines, ClassifyLine)
  }

  // ---------------------------------------------------------------------
  // Chunks of fifty
  // ---------------------------------------------------------------------

  /** How many pids one ps query takes (main.rs:141). */
  const ChunkSize: nat := 50

  /** `slice::chunks(n)`: consecutive pieces of `n`, the last one possibly shorter. */
  function Chunks(s: seq<int>, n: nat): seq<seq<int>>
    requires n > 0
    decreases |s|
  {
    if s == [] then []
    else if |s| <= n then [s]
    else [s[..n]] + Chunks(s[n..], n)
  }

  function Flatten(ss: seq<seq<int>>): seq<int>
  {
    if ss == [] then [] else ss[0] + Flatten(ss[1..])
  }

  /** The chunks cover the input in order. */
  lemma {:induction false} ChunksCover(s: seq<int>, n: nat)
    requires n > 0
    ensures Flatten(Chunks(s, n)) == s
    decreases |s|
  {
    if s == [] {
    } else if |s| <= n {
      assert Flatten([s]) == s + Flatten([]);
    } else {
      var rest := Chunks(s[n..], n);
      ChunksCover(s[n..], n);
      var cs := [s[..n]] + rest;
      assert cs[1..] == rest;
      assert s[..n] + s[n..] == s;
    }
  }

  /** Each chunk holds between 1 and `n` pids, and all but the last exactly `n`. */
  lemma {:induction false} ChunksSizes(s: seq<int>, n: nat)
    requires n > 0
    ensures forall k :: 0 <= k < |Chunks(s, n)| ==> 0 < |Chunks(s, n)[k]| <= n
    ensures forall k :: 0 <= k < |Chunks(s, n)| - 1 ==> |Chunks(s, n)[k]| == n
    decreases |s|
  {
    if |s| > n {
      var rest := Chunks(s[n..], n);
      ChunksSizes(s[n..], n);
      var cs := [s[..n]] + rest;
      assert forall k :: 1 <= k < |cs| ==> cs[k] == rest[k - 1];
    }
  }

  /** The first chunk starting at `start`, and the chunks after it. */
  lemma ChunksFrom(s: seq<int>, start: nat, stop: nat)
    requires start < |s|
    requires stop == if start + ChunkSize <= |s| then start + ChunkSize else |s|
    ensures Chunks(s[start..], ChunkSize) == [s[start..stop]] + Chunks(s[stop..], ChunkSize)
  {
    var t := s[start..];
    if |t| <= ChunkSize {
      assert t == s[start..stop];
      assert s[stop..] == [];
    } else {
      assert t[..ChunkSize] == s[start..stop];
      assert t[ChunkSize..] == s[stop..];
    }
  }

  // ---------------------------------------------------------------------
  // The pid list handed to ps
  // ---------------------------------------------------------------------

  /** The `-p` argument: the pids in decimal, joined by commas (main.rs:142-146). */
  function PidList(pids: seq<int>): string
  {
    if pids == [] then "" else Join(Texts(pids), ',')
  }

  lemma {:induction false} TextsShape(pids: seq<int>)
    ensures |Texts(pids)| == |pids|
    ensures forall k :: 0 <= k < |pids| ==> Texts(pids)[k] == IntText(pids[k])
  {
    if pids != [] {
      TextsShape(pids[1..]);
    }
  }

  /** A pid's text is a minus sign and digits, so it never holds a comma. */
  lemma IntTextNoComma(x: int)
    ensures ',' !in IntText(x)
  {
    var d := Decimal(if x < 0 then -x else x);
    assert AllDigits(d);
    assert forall k :: 0 <= k < |d| ==> IsDigit(d[k]);
    if x < 0 {
      assert IntText(x) == "-" + d;
      assert forall k :: 1 <= k < |IntText(x)| ==> IntText(x)[k] == d[k - 1];
    }
  }

  /** Parsing one text per pid gives the pids back. */
  lemma {:induction false} ParsedTexts(pids: seq<int>)
    requires AllI32(pids)
    ensures ParsedLines(Texts(pids)) == pids
  {
    if pids != [] {
      var x, tail := pids[0], pids[1..];
      assert [x] + tail == pids;
      assert Texts(pids) == [IntText(x)] + Texts(tail);
      assert AllI32(tail);
      ParsedTexts(tail);
      ParsedLineText(x, Texts(tail));
    }
  }

  /** The pid list is unambiguous: splitting it at the commas and parsing
      each piece as an i32 gives back exactly the pids of the chunk. */
  lemma PidListRoundTrip(pids: seq<int>)
    requires pids != [] && AllI32(pids)
    ensures ParsedLines(Split(PidList(pids), ',')) == pids
  {
    var ts := Texts(pids);
    TextsShape(pids);
    forall k | 0 <= k < |ts|
      ensures ',' !in ts[k]
    {
      IntTextNoComma(pids[k]);
    }
    SplitJoin(ts, ',');
    ParsedTexts(pids);
  }

  // ---------------------------------------------------------------------
  // The whole check
  // ---------------------------------------------------------------------

  /** What one `ps` query reports: the first agent line of its output, or
      nothing when ps failed (main.rs:141-176). */
  function ChunkAgent(ps: string -> Option<string>, chunk: seq<int>): Option<Agent>
  {
    match ps(PidList(chunk))
    case None => None
    case Some(out) => FirstAgent(Split(out, '\n'))
  }

  /** `ChunkAgent` with `ps` fixed. */
  function Query(ps: string -> Option<string>): seq<int> -> Option<Agent>
  {
    chunk => ChunkAgent(ps, chunk)
  }

  /** The first chunk whose query reports an agent decides. */
  function ScanChunks(ps: string -> Option<string>, chunks: seq<seq<int>>): Option<Agent>
  {
    FirstOf(chunks, Query(ps))
  }

  /** check_cli_agent_active as a function of the process tree and of ps. */
  function AgentState(children: int -> seq<int>, ps: string -> Option<string>, shell: int): (r: (bool, Option<string>))
    ensures r.0 <==> r.1.Some?
    ensures r.1.Some? ==> r.1.value in {"claude", "gemini", "codex"}
  {
    var descendants := Descendants(children, shell);
    if descendants == [] then (false, None)
    else
      match ScanChunks(ps, Chunks(descendants, ChunkSize))
      case Some(a) => (true, Some(AgentName(a)))
      case None => (false, None)
  }

  /** A shell without descendants runs no agent, whatever ps would say. */
  lemma NoDescendantsInactive(children: int -> seq<int>, ps: string -> Option<string>, shell: int)
    requires forall c :: c in children(shell) ==> c == shell
    ensures Descendants(children, shell) == []
    ensures AgentState(children, ps, shell) == (false, None)
  {
    var next := ExpandLevel(children, shell, [], [shell]);
    assert [shell][..0] == [];
    assert ExpandLevel(children, shell, [], []) == [];
    assert next == VisitAll(shell, [], children(shell));
    VisitAllMeets(shell, [], children(shell));
    assert next[0..] == next;
    assert Descendants(children, shell) == Collect(children, shell, next, next, MaxDepth - 1);
  }

  /** The agent reported comes from the first line, in the first chunk,
      that names one: every earlier chunk's query reported nothing. Where
      no chunk reports an agent, the state is inactive. */
  lemma AgentStateFirstMatch(children: int -> seq<int>, ps: string -> Option<string>, shell: int)
    ensures var chunks := Chunks(Descendants(children, shell), ChunkSize);
            AgentState(children, ps, shell).0 <==>
              exists k :: 0 <= k < |chunks| && ChunkAgent(ps, chunks[k]).Some?
    ensures var chunks := Chunks(Descendants(children, shell), ChunkSize);
            forall a :: AgentState(children, ps, shell) == (true, Some(AgentName(a))) ==>
              exists k :: DecidesAt(chunks, Query(ps), k, a)
  {
    var ds := Descendants(children, shell);
    var chunks := Chunks(ds, ChunkSize);
    FirstOfFirst(chunks, Query(ps));
    forall a | AgentState(children, ps, shell) == (true, Some(AgentName(a)))
      ensures exists k :: DecidesAt(chunks, Query(ps), k, a)
    {
      var b := ScanChunks(ps, chunks).value;
      AgentNameInjective(a, b);
    }
  }

  /** check_cli_agent_active (main.rs:120-178): collect the descendants,
      then query ps chunk by chunk and return at the first agent line. */
  method CheckCliAgentActive(children: int -> seq<int>, ps: string -> Option<string>, shell: int)
    returns (active: bool, agent: Option<string>)
    ensures (active, agent) == AgentState(children, ps, shell)
  {
    var descendants := CollectDescendants(children, shell);
    if descendants == [] {
      return false, None;
    }
    var start := 0;
    while start < |descendants|
      invariant start <= |descendants|
      invariant ScanChunks(ps, Chunks(descendants, ChunkSize)) == ScanChunks(ps, Chunks(descendants[start..], ChunkSize))
    {
      var stop := if start + ChunkSize <= |descendants| then start + ChunkSize else |descendants|;
      var chunk := descendants[start..stop];
      ChunksFrom(descendants, start, stop);
      var kind := QueryChunk(ps, chunk);
      assert ([chunk] + Chunks(descendants[stop..], ChunkSize))[1..] == Chunks(descendants[stop..], ChunkSize);
      if kind.Some? {
        return true, Some(AgentName(kind.value));
      }
      start := stop;
    }
    assert descendants[start..] == [];
    return false, None;
  }

  /** One ps query and the scan of its output lines (main.rs:141-176). */
  method QueryChunk(ps: string -> Option<string>, chunk: seq<int>) returns (kind: Option<Agent>)
    ensures kind == ChunkAgent(ps, chunk)
  {
    var out := ps(PidList(chunk));
    if out.None? {
      return None;
    }
    var lines := Split(out.value, '\n');
    var k := 0;
    while k < |lines|
      invariant k <= |lines|
      invariant FirstAgent(lines) == FirstOf(lines[k..], ClassifyLine)
    {
      kind := ClassifyLine(lines[k]);
      if kind.Some? {
        return;
      }
      assert lines[k..][1..] == lines[k + 1..];
      k := k + 1;
    }
    return None;
  }
}
