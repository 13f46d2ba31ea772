/** What the Rust helper tells the host about the shell
    (resources/pty-rs/src/main.rs:44-104): the two OSC 777 messages, and the
    name of the foreground process that the second one carries.

    An OSC 777 message is `ESC ] 777 ;`, a JSON text, then `BEL` (an
    operating system command as in section 8.3.89 of ECMA-48). The JSON is
    assembled by string formatting, without escaping the names it embeds;
    the decoders below show that the framing is still unambiguous, because
    everything after an embedded name is a fixed suffix. */
module RsReport {
  import opened Common

  // ---------------------------------------------------------------------
  // Affixes
  // ---------------------------------------------------------------------

  /** The middle of `s` when it starts with `pre` and ends with `suf`
      (the two may not overlap). */
  function Between(s: string, pre: string, suf: string): (r: Option<string>)
    ensures r.Some? ==> pre + r.value + suf == s
  {
    if |pre| + |suf| <= |s| && s[..|pre|] == pre && s[|s| - |suf|..] == suf then
      var mid := s[|pre|..|s| - |suf|];
      assert s == s[..|pre|] + mid + s[|s| - |suf|..];
      Some(mid)
    else None
  }

  lemma BetweenOf(pre: string, mid: string, suf: string)
    ensures Between(pre + mid + suf, pre, suf) == Some(mid)
  {
    var s := pre + mid + suf;
    assert s[..|pre|] == pre;
    assert s[|s| - |suf|..] == suf;
    assert s[|pre|..|s| - |suf|] == mid;
  }

  // ---------------------------------------------------------------------
  // OSC 777 framing
  // ---------------------------------------------------------------------

  /** `ESC ] 777 ;` */
  const OscStart: string := "\U{1B}]777;"
  /** `BEL` */
  const OscEnd: string := "\U{7}"

  /** The framing shared by both messages (main.rs:53, 63). */
  function Frame(msg: string): string
  {
    OscStart + msg + OscEnd
  }

  /** The JSON text a framed message carries. */
  function Unframe(s: string): Option<string>
  {
    Between(s, OscStart, OscEnd)
  }

  /** Unframing undoes framing, and a text that unframes is exactly the
      frame of what it carries. */
  lemma UnframeFrame(msg: string, s: string)
    ensures Unframe(Frame(msg)) == Some(msg)
    ensures Unframe(s) == Some(msg) <==> s == Frame(msg)
  {
    BetweenOf(OscStart, msg, OscEnd);
  }

  // ---------------------------------------------------------------------
  // The agent status message
  // ---------------------------------------------------------------------

  /** `bool`'s Display. */
  function BoolText(b: bool): string
  {
    if b then "true" else "false"
  }

  /** The `agent_type` value: the name in quotes, or `null` (main.rs:45-48). */
  function AgentJson(agent: Option<string>): string
  {
    match agent
    case Some(t) => "\"" + t + "\""
    case None => "null"
  }

  const StatusHead: string := "{\"type\":\"cli_agent_status\",\"data\":{\"active\":"
  const AgentField: string := ",\"agent_type\":"
  const StatusTail: string := "}}"

  /** The variable middle of a status message. */
  function StatusBody(active: bool, agent: Option<string>): string
  {
    BoolText(active) + AgentField + AgentJson(agent)
  }

  /** send_agent_status_message (main.rs:44-56): the bytes written to stdout. */
  function StatusMessage(active: bool, agent: Option<string>): string
  {
    Frame(StatusHead + StatusBody(active, agent) + StatusTail)
  }

  function DecodeAgent(j: string): Option<Option<string>>
  {
    if j == "null" then Some(None)
    else match Between(j, "\"", "\"")
      case Some(t) => Some(Some(t))
      case None => None
  }

  function DecodeBody(body: string): Option<(bool, Option<string>)>
  {
    var active := Between(body, "true" + AgentField, "");
    var inactive := Between(body, "false" + AgentField, "");
    if active.Some? then
      match DecodeAgent(active.value)
      case Some(a) => Some((true, a))
      case None => None
    else if inactive.Some? then
      match DecodeAgent(inactive.value)
      case Some(a) => Some((false, a))
      case None => None
    else None
  }

  /** Reading a status message back: the inverse of `StatusMessage`. */
  function DecodeStatus(s: string): Option<(bool, Option<string>)>
  {
    match Unframe(s)
    case None => None
    case Some(msg) =>
      match Between(msg, StatusHead, StatusTail)
      case None => None
      case Some(body) => DecodeBody(body)
  }

  lemma DecodeAgentJson(agent: Option<string>)
    ensures DecodeAgent(AgentJson(agent)) == Some(agent)
  {
    if agent.Some? {
      var j := AgentJson(agent);
      assert j[0] == '"';
      BetweenOf("\"", agent.value, "\"");
    }
  }

  lemma DecodeStatusBody(active: bool, agent: Option<string>)
    ensures DecodeBody(StatusBody(active, agent)) == Some((active, agent))
  {
    var pre, tail := BoolText(active) + AgentField, AgentJson(agent);
    var body := StatusBody(active, agent);
    assert body == pre + tail + "";
    BetweenOf(pre, tail, "");
    DecodeAgentJson(agent);
    assert body[0] == BoolText(active)[0];
    assert ("true" + AgentField)[0] == 't' && ("false" + AgentField)[0] == 'f';
  }

  /** Every status message reads back as the state it reports, so two
      different states never produce the same bytes, whatever the agent
      name holds. */
  lemma DecodeStatusMessage(active: bool, agent: Option<string>)
    ensures DecodeStatus(StatusMessage(active, agent)) == Some((active, agent))
  {
    var body := StatusBody(active, agent);
    var msg := StatusHead + body + StatusTail;
    UnframeFrame(msg, Frame(msg));
    BetweenOf(StatusHead, body, StatusTail);
    DecodeStatusBody(active, agent);
  }

  lemma StatusMessageInjective(a1: bool, t1: Option<string>, a2: bool, t2: Option<string>)
    ensures StatusMessage(a1, t1) == StatusMessage(a2, t2) <==> a1 == a2 && t1 == t2
  {
    DecodeStatusMessage(a1, t1);
    DecodeStatusMessage(a2, t2);
  }

  // ---------------------------------------------------------------------
  // The foreground process message
  // ---------------------------------------------------------------------

  const FgHead: string := "{\"type\":\"foreground_process\",\"data\":{\"name\":\""
  const FgTail: string := "\"}}"

  /** send_fg_process_message (main.rs:58-66). */
  function FgMessage(name: string): string
  {
    Frame(FgHead + name + FgTail)
  }

  /** Reading a foreground message back: the inverse of `FgMessage`. */
  function DecodeFg(s: string): Option<string>
  {
    match Unframe(s)
    case None => None
    case Some(msg) => Between(msg, FgHead, FgTail)
  }

  lemma DecodeFgMessage(name: string)
    ensures DecodeFg(FgMessage(name)) == Some(name)
  {
    var msg := FgHead + name + FgTail;
    UnframeFrame(msg, Frame(msg));
    BetweenOf(FgHead, name, FgTail);
  }

  /** The host can tell the two messages apart: no status message reads as
      a foreground message, and none of the latter as a status. */
  lemma MessagesDistinct(active: bool, agent: Option<string>, name: string)
    ensures DecodeFg(StatusMessage(active, agent)).None?
    ensures DecodeStatus(FgMessage(name)).None?
  {
    var sm := StatusHead + StatusBody(active, agent) + StatusTail;
    UnframeFrame(sm, Frame(sm));
    assert sm[9] == 'c' && FgHead[9] == 'f';
    var fm := FgHead + name + FgTail;
    UnframeFrame(fm, Frame(fm));
    assert fm[9] == 'f' && StatusHead[9] == 'c';
  }

  // ---------------------------------------------------------------------
  // The foreground process name
  // ---------------------------------------------------------------------

  /** `name.rsplit('/').next()`: the text after the last `/`, or all of
      `name` when it has none (main.rs:82, 98). */
  function Basename(name: string): (r: string)
    ensures |r| <= |name| && '/' !in r
    ensures r == name[|name| - |r|..]
    ensures |r| < |name| ==> name[|name| - |r| - 1] == '/'
  {
    if name == [] then []
    else if name[|name| - 1] == '/' then []
    else
      var init := name[..|name| - 1];
      var r := Basename(init) + [name[|name| - 1]];
      assert init[|init| - (|r| - 1)..] + [name[|name| - 1]] == name[|name| - |r|..];
      r
  }

  /** The basename of a path is its last component. */
  lemma BasenameOfPath(dir: string, base: string)
    requires '/' !in base
    ensures Basename(dir + "/" + base) == base
  {
    var name := dir + "/" + base;
    var r := Basename(name);
    var cut := |dir| + 1;
    assert name[|dir|] == '/';
    assert name[cut..] == base;
  }

  /** What one `ps -p <pid> -o comm=` call yields (main.rs:74-84): when it
      ran and succeeded, its trimmed output's basename, unless that output
      is blank. `out` is the command's standard output, `None` on failure. */
  function ProcessName(out: Option<string>): (r: Option<string>)
    ensures r.Some? ==> '/' !in r.value
  {
    match out
    case None => None
    case Some(o) =>
      var name := Trim(o, IsRustWhitespace);
      if name == [] then None else Some(Basename(name))
  }

  /** The last `Some` that `f` gives along `xs`: a search loop over
      `iter().rev()` that returns at its first hit. */
  function LastOf<T, U>(xs: seq<T>, f: T -> Option<U>): Option<U>
  {
    if xs == [] then None
    else if f(xs[|xs| - 1]).Some? then f(xs[|xs| - 1])
    else LastOf(xs[..|xs| - 1], f)
  }

  /** The backward search finds nothing exactly when every element gives `None`. */
  lemma {:induction false} LastOfNone<T, U>(xs: seq<T>, f: T -> Option<U>)
    ensures LastOf(xs, f).None? <==> forall k :: 0 <= k < |xs| ==> f(xs[k]).None?
  {
    if xs != [] {
      var init := xs[..|xs| - 1];
      LastOfNone(init, f);
      assert forall k :: 0 <= k < |init| ==> init[k] == xs[k];
    }
  }

  /** A backward search whose first hit is at `p` returns what `f` gives there. */
  lemma {:induction false} LastOfAt<T, U>(xs: seq<T>, f: T -> Option<U>, p: nat)
    requires p < |xs| && f(xs[p]).Some?
    requires forall j :: p < j < |xs| ==> f(xs[j]).None?
    ensures LastOf(xs, f) == f(xs[p])
  {
    if p < |xs| - 1 {
      var init := xs[..|xs| - 1];
      assert init[p] == xs[p];
      LastOfAt(init, f, p);
    }
  }

  /** `ProcessName` of the `ps` call for each pid. */
  function NameOf(comm: int -> Option<string>): int -> Option<string>
  {
    pid => ProcessName(comm(pid))
  }

  /** get_foreground_process_name (main.rs:68-104) as a function of the
      shell's children and of `comm`, which maps a pid to the output of
      `ps -p <pid> -o comm=`: the newest child with a name, else the
      shell's own name. */
  function ForegroundName(children: seq<int>, comm: int -> Option<string>, shell: int): Option<string>
  {
    match LastOf(children, NameOf(comm))
    case Some(name) => Some(name)
    case None => ProcessName(comm(shell))
  }

  /** The name reported is that of the last-listed child that has one;
      the shell's own name is used only when no child has one. */
  lemma ForegroundNameNewest(children: seq<int>, comm: int -> Option<string>, shell: int)
    ensures (forall k :: 0 <= k < |children| ==> ProcessName(comm(children[k])).None?) ==>
              ForegroundName(children, comm, shell) == ProcessName(comm(shell))
    ensures forall k :: 0 <= k < |children| && ProcessName(comm(children[k])).Some? &&
                        (forall j :: k < j < |children| ==> ProcessName(comm(children[j])).None?) ==>
              ForegroundName(children, comm, shell) == ProcessName(comm(children[k]))
  {
    LastOfNone(children, NameOf(comm));
    forall k | 0 <= k < |children| && ProcessName(comm(children[k])).Some? &&
               (forall j :: k < j < |children| ==> ProcessName(comm(children[j])).None?)
      ensures ForegroundName(children, comm, shell) == ProcessName(comm(children[k]))
    {
      LastOfAt(children, NameOf(comm), k);
    }
  }

  lemma {:induction false} LastNameNoSlash(children: seq<int>, comm: int -> Option<string>)
    ensures LastOf(children, NameOf(comm)).Some? ==> '/' !in LastOf(children, NameOf(comm)).value
  {
    if children != [] {
      var last := children[|children| - 1];
      assert NameOf(comm)(last) == ProcessName(comm(last));
      LastNameNoSlash(children[..|children| - 1], comm);
    }
  }

  /** Whoever it comes from, the name reported holds no `/`. */
  lemma ForegroundNameNoSlash(children: seq<int>, comm: int -> Option<string>, shell: int)
    ensures ForegroundName(children, comm, shell).Some? ==> '/' !in ForegroundName(children, comm, shell).value
  {
    LastNameNoSlash(children, comm);
  }

  /** get_foreground_process_name's loop over the children, newest first,
      then the shell itself. */
  method ForegroundProcessName(children: seq<int>, comm: int -> Option<string>, shell: int)
    returns (name: Option<string>)
    ensures name == ForegroundName(children, comm, shell)
  {
    var i: nat := |children|;
    assert children[..i] == children;
    while i > 0
      invariant i <= |children|
      invariant LastOf(children, NameOf(comm)) == LastOf(children[..i], NameOf(comm))
    {
      assert children[..i][..i - 1] == children[..i - 1];
      name := ProcessName(comm(children[i - 1]));
      if name.Some? {
        return;
      }
      i := i - 1;
    }
    name := ProcessName(comm(shell));
  }
}
