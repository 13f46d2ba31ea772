# PTY helpers, modelled in Dafny

The terminal application runs each user shell behind a small helper. The
helper sits between the host and a login shell on a pseudo-terminal. Two
implementations exist:

- `resources/pty-rs/src/main.rs`, the Rust helper;
- `resources/pty-shell.py`, the Python helper.

Each helper reads raw bytes from its stdin and decides what reaches the
PTY master. It recognises the window-resize control sequence
`ESC [ 8 ; rows ; cols t`. The Rust helper also does four more things:

- it treats NUL bytes as a "check the agent now" trigger and drops them;
- it walks the shell's process tree breadth-first, five levels deep, and
  asks `ps` whether a CLI agent (claude, gemini, codex) is running;
- it reports the agent state and the foreground process to the host as
  OSC 777 messages (`ESC ] 777 ; <json> BEL`, the operating system
  command of section 8.3.89 of ECMA-48);
- it sends those messages only when something changed.

The model keeps the form of the code. Pure computations are functions:
the parsers, the message framing, the classification of `ps` lines and
the basename. The breadth-first walk, the `ps` queries and the
foreground search are loops in methods. Each method is proved equal to a
specification function, and the properties are proved about those
functions. The two main loops are classes (`RsMain.PtyHelper`,
`PyShell.ShellBridge`) whose fields are the state the source keeps
between iterations. What they do to the outside world is an effect log.

The process tree, the output of `pgrep` and `ps`, the JSON parser, UTF-8
decoding and the clock are parameters:

- `children` maps a pid to its children as `pgrep -P` lists them:
  `children(p)` stands for `RsProcs.ParseChildren` of the output of
  `pgrep -P p`;
- `ps` maps a comma-separated pid list to the output of
  `ps -o comm=,args= -p`;
- `comm` maps a pid to the output of `ps -p <pid> -o comm=`;
- `None` stands for a failed command.

Files:

| file | module | what |
|---|---|---|
| common.dfy | Common | sequences and strings: split/join, trimming, whitespace tokens, ASCII lower case, substring search, first match |
| numbers.dfy | Numbers | decimal text, Rust `u16`/`i32` parsing, Python `int()` |
| rs_input.dfy | RsInput | the stdin chunk transform: the NUL filter and the resize strip |
| rs_procs.dfy | RsProcs | `list_children`, and the descendant walk as a specification with its proofs |
| rs_walk.dfy | RsWalk | the walk as the code performs it (queue, seen set) |
| rs_agent.dfy | RsAgent | classifying `ps` lines, 50-pid chunks, `check_cli_agent_active` |
| rs_report.dfy | RsReport | the OSC 777 messages and their decoders, the basename, `get_foreground_process_name` |
| rs_args.dfy | RsArgs | the Rust command line |
| rs_main.dfy | RsMain | the Rust main loop: timers, change detection, the stdin branch |
| py_shell.dfy | PyShell | the Python command line and the per-chunk decision |

Two facts about the Rust code are proved as the code is written:

- The resize branch never resizes (`RsInput.ResizeNeverApplies`). The
  field body starts at index 3, which is the `;` after `ESC [ 8`, so the
  rows field is always empty and `u16` parsing fails. The sequence is
  still cut off up to its `t`.
- The `" gemini "` test can never match (`RsAgent.SpacedGeminiNeverMatches`).
  `args` is a single whitespace-free token.

The Python helper behaves differently in three ways:

- It swallows every chunk whose text starts with `ESC [ 8 ;`, whether
  its fields parse or not (`PyShell.ResizeTextNeverForwarded`).
- A size that does not fit in 16 bits makes `struct.pack` raise. Nothing
  catches that error, so the helper ends (`PyShell.OversizeRequestCrashes`).
- Keystrokes that arrive after the `t` in the same chunk as a request
  are never forwarded (`PyShell.ResizeTextNeverForwarded`). When they are
  non-empty, hold no `;` and do not end in `t`, they end up in the
  columns field, which then does not parse, so the request is lost as
  well (`PyShell.TrailingInputLost`). Trailing input made only of `t`s,
  or holding a `;`, leaves the columns field readable, and the request
  still applies.

## Model

| member | source | states |
|---|---|---|
| Common.Split | resources/pty-rs/src/main.rs:395 | `split` on a separator: the pieces hold no separator and there is one more piece than separators |
| Common.JoinSplit | resources/pty-rs/src/main.rs:142-146 | joining the pieces of a split with the separator gives the text back |
| Common.SplitJoin | resources/pty-rs/src/main.rs:142-146 | splitting a join of separator-free pieces gives the pieces back |
| Common.TrimStart | resources/pty-rs/src/main.rs:79 | the result is a suffix, everything cut is whitespace, and the result does not start with whitespace |
| Common.TrimEnd | resources/pty-rs/src/main.rs:79 | the result is a prefix, everything cut is whitespace, and the result does not end with whitespace |
| Common.Tokens | resources/pty-rs/src/main.rs:157 | `split_whitespace`: the tokens are non-empty and hold no whitespace |
| Common.TokensNone | resources/pty-rs/src/main.rs:157-158 | a text has no token exactly when it is all whitespace, so `parts.next()` finds no command |
| Common.TokensCover | resources/pty-rs/src/main.rs:157 | every text is its tokens in order, with whitespace before, between and after them, and at least one whitespace character between two tokens |
| Common.TokensOfInterleave | resources/pty-rs/src/main.rs:157 | splitting words joined by whitespace gives back exactly those words, so the first two tokens are the first two words |
| Common.Contains | resources/pty-rs/src/main.rs:161 | `contains` holds exactly when the pattern occurs at some index |
| Common.Lower | resources/pty-rs/src/main.rs:159-160 | `to_lowercase` keeps the length and lowers each character |
| Common.FirstOfFirst | resources/pty-rs/src/main.rs:141-176 | a first-match search finds nothing exactly when every element gives nothing, and a hit is decided by the first element that gives something |
| Common.FirstOfAt | resources/pty-rs/src/main.rs:141-176 | a search whose first hit is at position p returns what that element gives |
| Numbers.Decimal | resources/pty-rs/src/main.rs:144 | decimal text is non-empty digits with no leading zero |
| Numbers.DecimalValue | resources/pty-rs/src/main.rs:144 | reading the digits of a number's decimal text gives the number |
| Numbers.ParseU16 | resources/pty-rs/src/main.rs:182-183 | `str::parse::<u16>` yields only values in 0..65535 and needs a digit |
| Numbers.ParseU16Digits | resources/pty-rs/src/main.rs:182-183 | a run of digits, with or without `+`, parses to its value when that is below 65536 and is rejected otherwise, never wrapped |
| Numbers.ParseU16TooLarge | resources/pty-rs/src/main.rs:182-183 | the decimal text of 65536 or more is rejected |
| Numbers.ParseU16NonDigit | resources/pty-rs/src/main.rs:182-183 | any character other than a digit, apart from one leading `+`, makes the text rejected: `-1`, `8x`, ` 80` |
| Numbers.ParseU16Decimal | resources/pty-rs/src/main.rs:182-183 | `u16` parsing reads back the decimal text of every 16-bit value, also behind `+`, and rejects the empty text |
| Numbers.ParseI32 | resources/pty-rs/src/main.rs:113 | `str::parse::<i32>` yields only 32-bit values |
| Numbers.ParseI32IntText | resources/pty-rs/src/main.rs:113 | `i32` parsing reads back `to_string` of every i32 |
| Numbers.PyIntIntText | resources/pty-shell.py:23-24 | `int()` reads back `str()` of every integer |
| Numbers.PyIntNeedsDigit | resources/pty-shell.py:23-24 | `int()` rejects a text with no digit |
| RsInput.FilterNul | resources/pty-rs/src/main.rs:380-382 | the filtered chunk holds no NUL byte and loses exactly the NUL bytes |
| RsInput.FilterNulAppend | resources/pty-rs/src/main.rs:380-382 | the filter works piecewise, so the other bytes keep their order |
| RsInput.FilterNulNoNul | resources/pty-rs/src/main.rs:380-382 | a chunk without NUL bytes passes unchanged |
| RsInput.ScanResize | resources/pty-rs/src/main.rs:392-408 | what is left is a suffix; with the prefix and a `t` it starts right after the first `t`; otherwise it is the whole slice and no size is found |
| RsInput.ResizeNeverApplies | resources/pty-rs/src/main.rs:393-401 | no slice ever yields a window size |
| RsInput.ResizeRequestSwallowed | resources/pty-rs/src/main.rs:392-412 | a request followed by other input forwards exactly that input, and a request alone forwards nothing |
| RsProcs.ParseChildren | resources/pty-rs/src/main.rs:106-118 | `list_children` yields only i32 pids |
| RsProcs.ParseChildrenPgrep | resources/pty-rs/src/main.rs:106-118 | parsing pgrep's one-pid-per-line listing gives the pids back in order |
| RsProcs.ParsedLineText | resources/pty-rs/src/main.rs:113 | a line holding an i32's text yields that i32, and parsing goes on with the next line |
| RsProcs.VisitAllMeets | resources/pty-rs/src/main.rs:131-136 | meeting a pid's children adds only children, and every child is then recorded or is the shell |
| RsProcs.ExpandLevelMeets | resources/pty-rs/src/main.rs:127-137 | expanding a level meets every child of every pid of that level |
| RsProcs.Descendants | resources/pty-rs/src/main.rs:121-137 | the descendants are distinct and never include the shell |
| RsProcs.CollectDistinct | resources/pty-rs/src/main.rs:131-134 | the seen set keeps every collected pid distinct and keeps the shell out |
| RsProcs.DescendantsWithinDepth | resources/pty-rs/src/main.rs:126-130 | every descendant lies 1 to 5 levels below the shell |
| RsProcs.DescendantsComplete | resources/pty-rs/src/main.rs:121-137 | every pid other than the shell that lies 1 to 5 levels below it is a descendant |
| RsProcs.NextEntry | resources/pty-rs/src/main.rs:127 | the queue front is the next pid of the level being drained, or the first of the next level |
| RsProcs.WalkExpand | resources/pty-rs/src/main.rs:127-137 | popping and expanding a pid keeps the queue equal to the rest of the level followed by the next level |
| RsProcs.WalkDone | resources/pty-rs/src/main.rs:127-137 | when the queue is empty the walk has collected exactly the specified descendants |
| RsWalk.MeetChildren | resources/pty-rs/src/main.rs:131-136 | the children loop records what the specification records, keeps the seen set equal to the shell plus the recorded pids, and queues the new pids one level deeper |
| RsWalk.CollectDescendants | resources/pty-rs/src/main.rs:121-137 | the queue-and-seen-set loop returns exactly `Descendants` |
| RsAgent.AgentName | resources/pty-rs/src/main.rs:162-171 | the reported name is one of claude, gemini, codex |
| RsAgent.AgentNameInjective | resources/pty-rs/src/main.rs:162-171 | different agents are reported under different names |
| RsAgent.SpacedGeminiNeverMatches | resources/pty-rs/src/main.rs:157-165 | the lowercased second token never contains `" gemini "` |
| RsAgent.ClassifyLineRule | resources/pty-rs/src/main.rs:156-172 | a line names claude iff its command mentions claude; gemini iff not claude and the argument has `/bin/gemini` or the command is `gemini`; codex iff neither and the command mentions codex or the argument has `/bin/codex` |
| RsAgent.ChunksCover | resources/pty-rs/src/main.rs:141 | the 50-pid chunks cover the descendants in order |
| RsAgent.ChunksSizes | resources/pty-rs/src/main.rs:141 | each chunk holds 1 to 50 pids, and all but the last exactly 50 |
| RsAgent.PidListRoundTrip | resources/pty-rs/src/main.rs:142-146 | the comma-joined pid list splits and parses back to the chunk's pids |
| RsAgent.AgentState | resources/pty-rs/src/main.rs:120-178 | the state is active exactly when it names an agent, and the name is claude, gemini or codex |
| RsAgent.NoDescendantsInactive | resources/pty-rs/src/main.rs:138-140 | a shell with no children of its own has no descendants and reports `(false, None)` |
| RsAgent.AgentStateFirstMatch | resources/pty-rs/src/main.rs:141-177 | the state is active iff some chunk's query names an agent, and the agent reported is that of the first such chunk, all earlier chunks naming none |
| RsAgent.CheckCliAgentActive | resources/pty-rs/src/main.rs:120-178 | the method returns `AgentState` |
| RsAgent.QueryChunk | resources/pty-rs/src/main.rs:147-175 | the line loop returns `ChunkAgent`: the agent of the first output line that names one, none when ps failed |
| RsReport.UnframeFrame | resources/pty-rs/src/main.rs:53-63 | unframing undoes the OSC 777 framing, and a text unframes to a message exactly when it is that message framed |
| RsReport.DecodeStatusMessage | resources/pty-rs/src/main.rs:44-56 | every status message reads back as the `(active, agent_type)` it reports |
| RsReport.StatusMessageInjective | resources/pty-rs/src/main.rs:44-56 | two status messages are equal exactly when they report the same state |
| RsReport.DecodeFgMessage | resources/pty-rs/src/main.rs:58-66 | every foreground message reads back as the name it reports |
| RsReport.MessagesDistinct | resources/pty-rs/src/main.rs:44-66 | a status message never reads as a foreground message, and the reverse |
| RsReport.Basename | resources/pty-rs/src/main.rs:82 | the basename holds no `/` and is the suffix of the name after its last `/`, or all of it |
| RsReport.BasenameOfPath | resources/pty-rs/src/main.rs:82 | the basename of `dir/base` is `base` |
| RsReport.ProcessName | resources/pty-rs/src/main.rs:74-85 | a name taken from a `ps` call holds no `/` |
| RsReport.LastOfNone | resources/pty-rs/src/main.rs:73 | the newest-first search finds nothing exactly when no child has a name |
| RsReport.ForegroundNameNewest | resources/pty-rs/src/main.rs:68-104 | with no named child the shell's own name is reported; otherwise the name of the last-listed child that has one |
| RsReport.ForegroundNameNoSlash | resources/pty-rs/src/main.rs:68-104 | the foreground name reported never holds a `/` |
| RsReport.ForegroundProcessName | resources/pty-rs/src/main.rs:68-104 | the reverse loop over the children returns `ForegroundName` |
| RsArgs.ParseArgs | resources/pty-rs/src/main.rs:181-184 | cols and rows are 16-bit; each is the parsed argument when it parses as `u16`, and 80 or 24 when it is absent or does not parse; cwd is the third argument or "." |
| RsArgs.ParseArgsInvalid | resources/pty-rs/src/main.rs:182-183 | a size of 65536 or more, or one with a sign or stray character, falls back to the default instead of wrapping or failing |
| RsArgs.ParseArgsCanonical | resources/pty-rs/src/main.rs:181-184 | the decimal text of any 16-bit size is read back exactly, and there are no startup commands without the flag |
| RsArgs.ParseArgsMalformed | resources/pty-rs/src/main.rs:182-183 | a size argument with no digit falls back to the default |
| RsArgs.StartupNeedsFlag | resources/pty-rs/src/main.rs:187 | without `--startup-commands` as the fourth argument there are no startup commands |
| RsArgs.StringItemsAllStrings | resources/pty-rs/src/main.rs:190-196 | an array of strings yields all of them, in order |
| RsArgs.StringItemsFromItems | resources/pty-rs/src/main.rs:191-193 | every command collected is a string item of the array |
| RsArgs.StringItemsAppend | resources/pty-rs/src/main.rs:191-195 | skipping non-strings works piecewise, so order is kept |
| RsArgs.CollectStrings | resources/pty-rs/src/main.rs:191-195 | the push loop collects exactly the string items |
| RsArgs.CollectStartupCommands | resources/pty-rs/src/main.rs:186-198 | the nested lets collect exactly the specified startup commands |
| RsMain.StatusReport | resources/pty-rs/src/main.rs:325-328 | a status message is sent exactly when the state differs from the last one, and it carries the new state |
| RsMain.ForegroundReport | resources/pty-rs/src/main.rs:335-338 | a foreground message is sent exactly when the name differs from the last one and is present, and it carries that name |
| RsMain.PtyHelper.constructor | resources/pty-rs/src/main.rs:302-308 | both timers start 10 s in the past, and nothing has been reported yet; every method keeps `Valid`, so every status sent is active exactly when it names one of the three agents and every foreground name sent holds no `/` |
| RsMain.PtyHelper.PollAgent | resources/pty-rs/src/main.rs:322-330 | after 3 s the state is checked, reported only if it changed, and remembered; otherwise nothing changes |
| RsMain.PtyHelper.PollForeground | resources/pty-rs/src/main.rs:332-342 | after 1 s the name is checked and reported only if new and present, but remembered even when absent |
| RsMain.PtyHelper.OnStdin | resources/pty-rs/src/main.rs:374-415 | a NUL byte forces a status report that is sent unconditionally, resets the agent timer and is not remembered; then the NUL-free slice goes through the resize branch and whatever is left is written |
| RsMain.PtyHelper.TakeNul | resources/pty-rs/src/main.rs:378-390 | the slice is the chunk without NUL bytes, and a status report is sent only if there was a NUL byte |
| RsMain.PtyHelper.WriteSlice | resources/pty-rs/src/main.rs:392-412 | appends `SliceEffects`: the resize effects, which the body shows unreachable, then the write of a non-empty remainder |
| RsMain.PtyHelper.OnPtyOutput | resources/pty-rs/src/main.rs:417-425 | non-empty shell output is copied to stdout |
| RsMain.PtyHelper.OnShellExit | resources/pty-rs/src/main.rs:428-430 | the loop ends with the terminated notice |
| RsMain.StdinEffectsShape | resources/pty-rs/src/main.rs:374-415 | stdin never resizes or signals, and without NUL bytes it only writes what the resize strip leaves, if anything |
| RsMain.StdinEffectsNul | resources/pty-rs/src/main.rs:378-412 | with NUL bytes the first effect is the status report, followed by the write of the filtered and stripped chunk |
| PyShell.PyArgsDefaults | resources/pty-shell.py:23-25 | each missing argument takes its own default (80 columns, 24 rows, the current directory) while present ones are used; the command line fails exactly when a present size is not an integer |
| PyShell.PyArgsUnchecked | resources/pty-shell.py:23-37 | a negative or over-wide size is accepted on the command line, and the startup `set_winsize` then fails |
| PyShell.PyArgsCanonical | resources/pty-shell.py:23-25 | `str()` of any integers, negative ones too, is read back exactly |
| PyShell.PyArgsMalformed | resources/pty-shell.py:23-24 | a present size argument with no digit raises instead of taking the default |
| PyShell.StripTs | resources/pty-shell.py:102 | `rstrip('t')` leaves a prefix that does not end in `t`, and cuts only `t`s |
| PyShell.ResizeTextNeverForwarded | resources/pty-shell.py:95-113 | a text starting with `ESC [ 8 ;` is never forwarded |
| PyShell.ForwardExactly | resources/pty-shell.py:90-119 | a chunk is forwarded iff it is not UTF-8 or its text does not start with the prefix |
| PyShell.ResizeNeedsFields | resources/pty-shell.py:98-102 | a resize needs a `t` and three fields, and takes rows from the second field and cols from the third without its `t`s |
| PyShell.MalformedSwallowed | resources/pty-shell.py:97-113 | a request without `t`, with too few fields or with a field `int()` rejects is dropped and has no effect |
| PyShell.ResizeRequestApplies | resources/pty-shell.py:98-105 | `ESC [ 8 ; rows ; cols t` with 16-bit values resizes to exactly (rows, cols) |
| PyShell.OversizeRequestCrashes | resources/pty-shell.py:101-103 | a well-formed request with a value of 65536 or more makes the helper fail |
| PyShell.TrailingInputLost | resources/pty-shell.py:98-113 | non-empty input following a request in the same chunk, with no `;` and not ending in `t`, makes the columns field unreadable, so the request is dropped with it |
| PyShell.StartPlan | resources/pty-shell.py:37-38 | the initial size either applies or raises, and applies exactly when both values fit 16 bits |
| PyShell.ShellBridge.SetInitialSize | resources/pty-shell.py:37-38 | an in-range size is set on both ends of the PTY; otherwise the helper fails with no effect and the environment is unchanged |
| PyShell.ShellBridge.constructor | resources/pty-shell.py:29-31 | TERM, COLUMNS and LINES are set from the configuration |
| PyShell.ShellBridge.OnStdin | resources/pty-shell.py:88-119 | an empty read does nothing; otherwise the effects, the environment and whether the helper fails all follow `ChunkPlan` |
| PyShell.ShellBridge.OnResizeText | resources/pty-shell.py:95-113 | a prefixed text acts as `ChunkPlan` says and never writes to the master |
| PyShell.ShellBridge.ApplySize | resources/pty-shell.py:101-111 | parsed sizes resize, set LINES and COLUMNS and signal a non-zero pid; sizes out of range fail with no effect |
| PyShell.ResizeEnv | resources/pty-shell.py:104-105 | after a resize `int()` reads LINES and COLUMNS back as the new rows and cols |

## Left out

- The system calls are not modelled: `openpty`, `fork`, `setsid`, `dup2`,
  `exec`, `fcntl`, `select`, `waitpid`, `ioctl`, `kill` and `killpg`. Each
  is an I/O action. The effect logs record the resizes, signals and writes.
- `pgrep` and `ps` are function parameters, so their output is whatever
  the caller supplies.
- The process tree is a function parameter. The walk's termination comes
  from the five-level depth cap, not from a finite pid universe.
- serde_json is a parameter that maps the argument to a parsed value.
  JSON syntax is not modelled.
- Time is a millisecond count given to each step. `Instant` and
  `Duration` are not modelled.
- The startup-command thread and its sleeps (main.rs:290-300) are not
  modelled. This is concurrency.
- The Python restart loop, the SIGTERM, two-second wait, SIGKILL
  escalation and the restart notice (pty-shell.py:137-163) are not
  modelled. They control real processes.
- `set_winsize` inside the Python helper is reduced to the `struct.pack`
  range check, both for the two calls at startup
  (`PyShell.ShellBridge.SetInitialSize`) and for a resize request. Its
  `ioctl` is an effect, and the OSError it may raise is ignored as in
  the source.
- UTF-8 decoding is a parameter: the decoded text, or none.
  `from_utf8_lossy` is taken to give the text unchanged.
- Common.Lower lowers ASCII letters only. `to_lowercase` also folds
  non-ASCII letters.
- Numbers.PyInt does not accept the underscores between digits or the
  non-ASCII digits that Python's `int()` accepts.
- RsMain.PtyHelper effects record structured `Status` and `Foreground`
  entries, not bytes. The bytes are `RsReport.StatusMessage` and
  `RsReport.FgMessage` of those entries.
- RsReport.AgentJson and RsReport.FgMessage insert the name without JSON
  escaping, as the source does, so a name with a `"` in it makes a
  message that is not valid JSON. The decoders cut the fixed head and
  tail off and do not parse JSON. That is why they read back every name.
- The `select` loop itself is not modelled. Each event it dispatches is
  a separate method call: a timer check, a stdin chunk, PTY output, the
  shell's exit. A caller composes them in the source's order.
