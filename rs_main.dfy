/** The Rust helper's main loop (resources/pty-rs/src/main.rs:302-431) as
    an object: the last agent state and foreground process reported to the
    host, the times of the last checks, and a log of everything the helper
    writes.

    Time is a number of milliseconds, given by the caller of each step.
    The process tree and the output of `ps` are parameters of the steps
    that look at them (`children` maps a pid to its children as `pgrep -P`
    lists them: `children(p)` is `RsProcs.ParseChildren` of the output of
    `pgrep -P p`, `ps` and `comm` map a query to the command's output). */
module RsMain {
  import opened Common
  import opened RsProcs
  import opened RsInput
  import opened RsAgent
  import opened RsReport

  /** One thing the helper does to the outside world. */
  datatype Effect =
    | Status(active: bool, agent: Option<string>)  // `StatusMessage(active, agent)` written to stdout
    | Foreground(name: string)       // `FgMessage(name)` written to stdout
    | Notice(text: string)           // other text written to stdout
    | HostBytes(bytes: seq<Byte>)    // shell output copied to stdout
    | ShellInput(bytes: seq<Byte>)   // written to the PTY master
    | SetWinsize(rows: int, cols: int)
    | Sigwinch

  /** How often the agent and the foreground process are checked (main.rs:323, 333). */
  const AgentPeriod: int := 3000
  const ForegroundPeriod: int := 1000
  /** The timers start this far in the past, so that both checks run at once (main.rs:303, 307). */
  const Backdate: int := 10000

  const TerminatedNotice: string := "\r\n[Shell terminated.]\r\n"

  /** What the host is sent about the agent state, given the last state
      reported: a status message exactly when the state changed. */
  function StatusReport(last: (bool, Option<string>), state: (bool, Option<string>)): (r: seq<Effect>)
    ensures r != [] <==> state != last
    ensures r != [] ==> r == [Status(state.0, state.1)]
  {
    if state != last then [Status(state.0, state.1)] else []
  }

  /** What the host is sent about the foreground process: a message only
      when the name changed to some name. */
  function ForegroundReport(last: Option<string>, fg: Option<string>): (r: seq<Effect>)
    ensures r != [] <==> fg != last && fg.Some?
    ensures r != [] ==> r == [Foreground(fg.value)]
  {
    if fg != last && fg.Some? then [Foreground(fg.value)] else []
  }

  /** What the host may be told: a status is active exactly when it names
      an agent, and that agent is one of the three known ones; a foreground
      name holds no `/`. */
  predicate WellFormed(e: Effect)
  {
    match e
    case Status(active, agent) => (active <==> agent.Some?) && (agent.Some? ==> agent.value in {"claude", "gemini", "codex"})
    case Foreground(name) => '/' !in name
    case _ => true
  }

  /** Every effect of `es` is well-formed. */
  predicate Reportable(es: seq<Effect>)
  {
    forall k :: 0 <= k < |es| ==> WellFormed(es[k])
  }

  lemma ReportableAppend(a: seq<Effect>, b: seq<Effect>)
    ensures Reportable(a + b) <==> Reportable(a) && Reportable(b)
  {
    assert forall k :: 0 <= k < |a| ==> (a + b)[k] == a[k];
    assert forall k :: 0 <= k < |b| ==> (a + b)[|a| + k] == b[k];
  }

  /** The effects of the resize branch for one slice: none, as
      `ResizeNeverApplies` shows, but stated as the code would act. */
  function ResizeEffects(slice: seq<Byte>): seq<Effect>
  {
    match ScanResize(slice).winsize
    case Some((rows, cols)) => [SetWinsize(rows, cols), Sigwinch]
    case None => []
  }

  /** The effects of one NUL-free slice: the resize branch, then the write
      of what is left, if anything (main.rs:392-412). */
  function SliceEffects(slice: seq<Byte>): seq<Effect>
  {
    var rest := ScanResize(slice).rest;
    ResizeEffects(slice) + (if rest == [] then [] else [ShellInput(rest)])
  }

  lemma SliceEffectsEmpty()
    ensures SliceEffects([]) == []
  {
    assert ScanResize([]) == ResizeStep(None, []);
  }

  /** The status message a NUL byte forces. */
  function NulEffects(data: seq<Byte>, state: (bool, Option<string>)): seq<Effect>
  {
    if 0 in data then [Status(state.0, state.1)] else []
  }

  /** Everything a stdin chunk causes, given the agent state a forced check
      would find (main.rs:374-415). */
  function StdinEffects(data: seq<Byte>, state: (bool, Option<string>)): seq<Effect>
  {
    NulEffects(data, state) + SliceEffects(FilterNul(data))
  }

  class PtyHelper {
    /** The shell's pid. */
    const shell: int
    var lastAgentCheck: int
    var lastState: (bool, Option<string>)
    var lastFgCheck: int
    var lastFg: Option<string>
    /** Everything written so far, in order. */
    var effects: seq<Effect>

    /** The remembered state is active exactly when it names an agent, the
        remembered process name has no `/`, and everything sent so far is
        well-formed. */
    predicate Valid()
      reads this
    {
      && (lastState.0 <==> lastState.1.Some?)
      && (lastFg.Some? ==> '/' !in lastFg.value)
      && Reportable(effects)
    }

    /** main.rs:302-308. */
    constructor(shell: int, now: int)
      ensures Valid()
      ensures this.shell == shell
      ensures lastAgentCheck == now - Backdate && lastFgCheck == now - Backdate
      ensures lastState == (false, None) && lastFg == None && effects == []
    {
      this.shell := shell;
      lastAgentCheck := now - Backdate;
      lastState := (false, None);
      lastFgCheck := now - Backdate;
      lastFg := None;
      effects := [];
    }

    /** The periodic agent check (main.rs:323-330): the host hears of the
        state only when it changed, and the state remembered is the new one. */
    method PollAgent(now: int, children: int -> seq<int>, ps: string -> Option<string>)
      requires Valid()
      modifies this
      ensures Valid()
      ensures if now - old(lastAgentCheck) >= AgentPeriod then
                var state := AgentState(children, ps, shell);
                && lastState == state
                && lastAgentCheck == now
                && effects == old(effects) + StatusReport(old(lastState), state)
              else
                lastState == old(lastState) && lastAgentCheck == old(lastAgentCheck) && effects == old(effects)
      ensures lastFg == old(lastFg) && lastFgCheck == old(lastFgCheck)
    {
      if now - lastAgentCheck >= AgentPeriod {
        var active, agent := CheckCliAgentActive(children, ps, shell);
        if (active, agent) != lastState {
          ReportableAppend(effects, [Status(active, agent)]);
          effects := effects + [Status(active, agent)];
          lastState := (active, agent);
        }
        lastAgentCheck := now;
      }
    }

    /** The periodic foreground check (main.rs:333-342): a message only for
        a new name, but the name remembered is updated even when it is gone. */
    method PollForeground(now: int, children: int -> seq<int>, comm: int -> Option<string>)
      requires Valid()
      modifies this
      ensures Valid()
      ensures if now - old(lastFgCheck) >= ForegroundPeriod then
                var fg := ForegroundName(children(shell), comm, shell);
                && lastFg == fg
                && lastFgCheck == now
                && effects == old(effects) + ForegroundReport(old(lastFg), fg)
              else
                lastFg == old(lastFg) && lastFgCheck == old(lastFgCheck) && effects == old(effects)
      ensures lastState == old(lastState) && lastAgentCheck == old(lastAgentCheck)
    {
      if now - lastFgCheck >= ForegroundPeriod {
        var fg := ForegroundProcessName(children(shell), comm, shell);
        ForegroundNameNoSlash(children(shell), comm, shell);
        if fg != lastFg {
          if fg.Some? {
            ReportableAppend(effects, [Foreground(fg.value)]);
            effects := effects + [Foreground(fg.value)];
          }
          lastFg := fg;
        }
        lastFgCheck := now;
      }
    }

    /** One chunk read from stdin (main.rs:374-415). A NUL byte forces an
        agent check whose result is sent unconditionally and not
        remembered; the NUL bytes are dropped, a leading resize sequence is
        cut off up to its `t`, and what remains, if anything, goes to the
        shell. */
    method OnStdin(data: seq<Byte>, now: int, children: int -> seq<int>, ps: string -> Option<string>)
      requires Valid()
      modifies this
      ensures Valid()
      ensures effects == old(effects) + NulEffects(data, AgentState(children, ps, shell)) + SliceEffects(FilterNul(data))
      ensures lastAgentCheck == if 0 in data then now else old(lastAgentCheck)
      ensures lastState == old(lastState) && lastFg == old(lastFg) && lastFgCheck == old(lastFgCheck)
    {
      if data == [] {
        SliceEffectsEmpty();
        assert effects + [] + [] == effects;
        return;
      }
      var slice := TakeNul(data, now, children, ps);
      WriteSlice(slice);
    }

    /** The NUL check of main.rs:378-390: a chunk holding a NUL byte forces
        an agent check whose result is sent whether or not it changed, and
        is not remembered; the slice that goes on is the chunk without its
        NUL bytes. */
    method TakeNul(data: seq<Byte>, now: int, children: int -> seq<int>, ps: string -> Option<string>)
      returns (slice: seq<Byte>)
      requires Valid()
      modifies this
      ensures Valid()
      ensures slice == FilterNul(data)
      ensures effects == old(effects) + NulEffects(data, AgentState(children, ps, shell))
      ensures lastAgentCheck == if 0 in data then now else old(lastAgentCheck)
      ensures lastState == old(lastState) && lastFg == old(lastFg) && lastFgCheck == old(lastFgCheck)
    {
      slice := data;
      if 0 in data {
        var filtered := FilterNul(data);
        var active, agent := CheckCliAgentActive(children, ps, shell);
        ReportableAppend(effects, [Status(active, agent)]);
        effects := effects + [Status(active, agent)];
        lastAgentCheck := now;
        slice := filtered;
      } else {
        FilterNulNoNul(data);
        assert effects + [] == effects;
      }
    }

    /** The resize branch and the write to the master for one NUL-free
        slice (main.rs:392-412). The branch that would set the window size
        cannot be taken (`ResizeNeverApplies`). */
    method WriteSlice(slice: seq<Byte>)
      requires Valid()
      modifies this
      ensures Valid()
      ensures effects == old(effects) + SliceEffects(slice)
      ensures lastAgentCheck == old(lastAgentCheck) && lastState == old(lastState)
      ensures lastFg == old(lastFg) && lastFgCheck == old(lastFgCheck)
    {
      var step := ScanResize(slice);
      ResizeNeverApplies(slice);
      match step.winsize {
        case Some(_) =>
          assert false;
        case None =>
      }
      assert effects + [] == effects;
      var rest := step.rest;
      if rest != [] {
        ReportableAppend(effects, [ShellInput(rest)]);
        effects := effects + [ShellInput(rest)];
      }
    }

    /** Shell output is copied to stdout as it comes (main.rs:417-425). */
    method OnPtyOutput(bytes: seq<Byte>)
      requires Valid()
      modifies this
      ensures Valid()
      ensures effects == old(effects) + (if bytes != [] then [HostBytes(bytes)] else [])
      ensures lastAgentCheck == old(lastAgentCheck) && lastState == old(lastState)
      ensures lastFg == old(lastFg) && lastFgCheck == old(lastFgCheck)
    {
      if bytes != [] {
        ReportableAppend(effects, [HostBytes(bytes)]);
        effects := effects + [HostBytes(bytes)];
      }
    }

    /** The shell has exited: the loop ends with a notice (main.rs:314-320, 428-430). */
    method OnShellExit()
      requires Valid()
      modifies this
      ensures Valid()
      ensures effects == old(effects) + [Notice(TerminatedNotice)]
      ensures lastAgentCheck == old(lastAgentCheck) && lastState == old(lastState)
      ensures lastFg == old(lastFg) && lastFgCheck == old(lastFgCheck)
    {
      ReportableAppend(effects, [Notice(TerminatedNotice)]);
      effects := effects + [Notice(TerminatedNotice)];
    }
  }

  /** A stdin chunk never resizes the window; when it holds no NUL byte it
      asks for no agent check either, and reaches the shell as the resize
      strip leaves it. */
  lemma StdinEffectsShape(data: seq<Byte>, state: (bool, Option<string>))
    ensures forall e :: e in StdinEffects(data, state) ==> !e.SetWinsize? && !e.Sigwinch?
    ensures 0 !in data ==>
              StdinEffects(data, state) == (match Forwarded(data) case Some(b) => [ShellInput(b)] case None => [])
  {
    ResizeNeverApplies(FilterNul(data));
    if 0 !in data {
      FilterNulNoNul(data);
    }
  }

  /** A chunk with NUL bytes sends one status message first, and what the
      shell gets is the chunk with its NUL bytes removed, after the resize
      strip. */
  lemma StdinEffectsNul(data: seq<Byte>, state: (bool, Option<string>))
    requires 0 in data
    ensures StdinEffects(data, state)[0] == Status(state.0, state.1)
    ensures StdinEffects(data, state)[1..] ==
              (match Forwarded(data) case Some(b) => [ShellInput(b)] case None => [])
  {
    ResizeNeverApplies(FilterNul(data));
  }
}
