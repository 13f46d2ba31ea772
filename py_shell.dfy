/** The Python helper (resources/pty-shell.py): its command line, and what
    it does with one chunk read from its stdin.

    Unlike the Rust helper it decodes the chunk as UTF-8 first, and treats
    any text that starts with `ESC [ 8 ;` as a resize request: such a chunk
    is never forwarded, whether or not its fields parse. The decoding is a
    parameter: the text of the chunk, or `None` when it is not valid UTF-8. */
module PyShell {
  import opened Common
  import opened Numbers

  // ---------------------------------------------------------------------
  // Command line (pty-shell.py:23-25)
  // ---------------------------------------------------------------------

  datatype PyConfig = PyConfig(cols: int, rows: int, cwd: string)

  /** `int(argv[i])` when the argument is present, else the default; a
      present argument that is not an integer raises (`None`). */
  function IntArg(argv: seq<string>, i: nat, default: int): Option<int>
  {
    if |argv| > i then PyInt(argv[i]) else Some(default)
  }

  /** pty-shell.py:23-25. `cwdNow` is what `os.getcwd()` returns. `None`
      stands for the ValueError that ends the helper. */
  function PyArgs(argv: seq<string>, cwdNow: string): Option<PyConfig>
  {
    match (IntArg(argv, 1, 80), IntArg(argv, 2, 24))
    case (Some(cols), Some(rows)) => Some(PyConfig(cols, rows, if |argv| > 3 then argv[3] else cwdNow))
    case _ => None
  }

  /** Each missing argument takes its own default: 80 columns, 24 rows,
      the current directory; present sizes must all be integers. */
  lemma PyArgsDefaults(argv: seq<string>, cwdNow: string)
    ensures |argv| <= 1 ==> PyArgs(argv, cwdNow) == Some(PyConfig(80, 24, cwdNow))
    ensures |argv| == 2 && PyInt(argv[1]).Some? ==>
              PyArgs(argv, cwdNow) == Some(PyConfig(PyInt(argv[1]).value, 24, cwdNow))
    ensures |argv| == 3 && PyInt(argv[1]).Some? && PyInt(argv[2]).Some? ==>
              PyArgs(argv, cwdNow) == Some(PyConfig(PyInt(argv[1]).value, PyInt(argv[2]).value, cwdNow))
    ensures |argv| > 3 && PyInt(argv[1]).Some? && PyInt(argv[2]).Some? ==>
              PyArgs(argv, cwdNow) == Some(PyConfig(PyInt(argv[1]).value, PyInt(argv[2]).value, argv[3]))
    ensures PyArgs(argv, cwdNow).None? <==>
              (|argv| > 1 && PyInt(argv[1]).None?) || (|argv| > 2 && PyInt(argv[2]).None?)
  {
  }

  /** Every integer is read back from its own text, negative ones included. */
  lemma PyArgsCanonical(argv: seq<string>, cols: int, rows: int, cwdNow: string)
    requires |argv| > 3 && argv[1] == IntText(cols) && argv[2] == IntText(rows)
    ensures PyArgs(argv, cwdNow) == Some(PyConfig(cols, rows, argv[3]))
  {
    IntArgText(argv, 1, 80, cols);
    IntArgText(argv, 2, 24, rows);
  }

  lemma IntArgText(argv: seq<string>, i: nat, default: int, n: int)
    requires |argv| > i && argv[i] == IntText(n)
    ensures IntArg(argv, i, default) == Some(n)
  {
    PyIntIntText(n);
  }

  /** The command line does not range-check the sizes: `str()` of a
      negative or over-wide size is accepted, and the first `set_winsize`
      at startup then raises (pty-shell.py:37). */
  lemma PyArgsUnchecked(argv: seq<string>, cwdNow: string, cols: int)
    requires |argv| == 2 && argv[1] == IntText(cols) && !(0 <= cols < 0x1_0000)
    ensures PyArgs(argv, cwdNow) == Some(PyConfig(cols, 24, cwdNow))
    ensures StartPlan(PyConfig(cols, 24, cwdNow)) == Crash(24, cols)
  {
    IntArgText(argv, 1, 80, cols);
  }

  /** A size argument that is present but has no digit is not replaced by
      its default: the helper fails. */
  lemma PyArgsMalformed(argv: seq<string>, cwdNow: string, i: nat)
    requires i == 1 || i == 2
    requires |argv| > i
    requires forall k :: 0 <= k < |argv[i]| ==> !IsDigit(argv[i][k])
    ensures PyArgs(argv, cwdNow) == None
  {
    PyIntNeedsDigit(argv[i]);
  }

  // ---------------------------------------------------------------------
  // One stdin chunk (pty-shell.py:88-119)
  // ---------------------------------------------------------------------

  /** `ESC [ 8 ;` as text. */
  const ResizeStart: string := "\U{1B}[8;"

  /** What the helper makes of one chunk. */
  datatype Plan =
    | Forward                      // written to the PTY master unchanged
    | Swallow                      // dropped: a malformed resize request
    | Resize(rows: int, cols: int) // the window size is set, nothing forwarded
    | Crash(rows: int, cols: int)  // `struct.pack` raises: the size does not fit 16 bits

  /** `s.rstrip('t')`. */
  function StripTs(s: string): (r: string)
    ensures r <= s && (r == [] || r[|r| - 1] != 't')
    ensures forall k :: |r| <= k < |s| ==> s[k] == 't'
  {
    if s != [] && s[|s| - 1] == 't' then StripTs(s[..|s| - 1]) else s
  }

  /** The decision of pty-shell.py:90-119 for a non-empty chunk whose text
      is `text` (`None`: not UTF-8). */
  function ChunkPlan(text: Option<string>): Plan
  {
    match text
    case None => Forward
    case Some(t) =>
      if !(ResizeStart <= t) then Forward
      else if 't' !in t then Swallow
      else FieldsPlan(Split(t, ';'))
  }

  /** pty-shell.py:98-102: the `;`-separated fields of a resize request;
      the rows are the second field, the columns the third without its
      trailing `t`s. */
  function FieldsPlan(parts: seq<string>): (r: Plan)
    ensures r != Forward
  {
    if |parts| < 3 then Swallow
    else SizePlan(PyInt(parts[1]), PyInt(StripTs(parts[2])))
  }

  /** pty-shell.py:101-113 with `set_winsize` (lines 11-19): a size that
      does not parse is ignored, one that does not fit
      `struct.pack('HHHH', ...)` raises an error nothing catches. */
  function SizePlan(rows: Option<int>, cols: Option<int>): (r: Plan)
    ensures r != Forward
    ensures r.Resize? <==> rows.Some? && cols.Some? && 0 <= rows.value < 0x1_0000 && 0 <= cols.value < 0x1_0000
    ensures (r.Resize? || r.Crash?) ==> rows == Some(r.rows) && cols == Some(r.cols)
  {
    if rows.None? || cols.None? then Swallow
    else if 0 <= rows.value < 0x1_0000 && 0 <= cols.value < 0x1_0000 then Resize(rows.value, cols.value)
    else Crash(rows.value, cols.value)
  }

  /** pty-shell.py:36-38: the initial size goes through the same
      `set_winsize` as a resize request; it either applies or raises. */
  function StartPlan(config: PyConfig): (r: Plan)
    ensures r.Resize? || r.Crash?
    ensures r.Resize? <==> 0 <= config.rows < 0x1_0000 && 0 <= config.cols < 0x1_0000
  {
    SizePlan(Some(config.rows), Some(config.cols))
  }

  /** A text that starts with the resize prefix is never forwarded. */
  lemma ResizeTextNeverForwarded(text: string)
    requires ResizeStart <= text
    ensures ChunkPlan(Some(text)) != Forward
  {
  }

  /** A chunk that is not UTF-8, or whose text does not start with the
      resize prefix, is forwarded, and only those are. */
  lemma ForwardExactly(text: Option<string>)
    ensures ChunkPlan(text) == Forward <==> text.None? || !(ResizeStart <= text.value)
  {
  }

  /** A resize happens only for a text with a `t` and at least three
      `;`-separated fields, with the size read from the second and third. */
  lemma ResizeNeedsFields(text: Option<string>)
    requires ChunkPlan(text).Resize?
    ensures text.Some? && ResizeStart <= text.value && 't' in text.value
    ensures |Split(text.value, ';')| >= 3
    ensures PyInt(Split(text.value, ';')[1]) == Some(ChunkPlan(text).rows)
    ensures PyInt(StripTs(Split(text.value, ';')[2])) == Some(ChunkPlan(text).cols)
  {
  }

  /** A malformed request (no `t`, fewer than three fields, or a field
      `int()` rejects) is dropped without a trace: it is not forwarded and,
      by `PlanEffects`, neither resizes nor signals. */
  lemma MalformedSwallowed(text: string)
    requires ResizeStart <= text
    requires || 't' !in text
             || |Split(text, ';')| < 3
             || PyInt(Split(text, ';')[1]).None?
             || PyInt(StripTs(Split(text, ';')[2])).None?
    ensures ChunkPlan(Some(text)) == Swallow
    ensures forall data, pid :: PlanEffects(ChunkPlan(Some(text)), data, pid) == []
  {
  }

  /** The host's request `ESC [ 8 ; rows ; cols t` for any 16-bit size
      resizes to exactly that size. */
  lemma ResizeRequestApplies(rows: nat, cols: nat)
    requires rows < 0x1_0000 && cols < 0x1_0000
    ensures ChunkPlan(Some(ResizeStart + Decimal(rows) + ";" + Decimal(cols) + "t")) == Resize(rows, cols)
  {
    RequestFields(rows, cols);
  }

  /** A well-formed request with a field of 65536 or more makes the helper
      fail instead of resizing. */
  lemma OversizeRequestCrashes(rows: nat, cols: nat)
    requires rows >= 0x1_0000 || cols >= 0x1_0000
    ensures ChunkPlan(Some(ResizeStart + Decimal(rows) + ";" + Decimal(cols) + "t")) == Crash(rows, cols)
  {
    RequestFields(rows, cols);
  }

  /** Input that follows a request in the same chunk is lost, and so is
      the request: the third field then holds more than a number, `int()`
      raises, and the ValueError is swallowed. */
  lemma TrailingInputLost(rows: nat, cols: nat, rest: string)
    requires rest != [] && ';' !in rest && rest[|rest| - 1] != 't'
    ensures ChunkPlan(Some(ResizeStart + Decimal(rows) + ";" + Decimal(cols) + "t" + rest)) == Swallow
  {
    var c := Decimal(cols);
    var third := c + "t" + rest;
    assert ';' !in third && 't' in third && IsDigit(third[0]) && third[|c|] == 't' by {
      assert forall k :: 0 <= k < |c| ==> IsDigit(c[k]);
    }
    assert StripTs(third) == third;
    NotAnInt(third, |c|);
    UnreadableCols(Decimal(rows), third);
    Regroup(ResizeStart + Decimal(rows) + ";", c, "t", rest);
  }

  /** Proof aid: regrouping a concatenation, stated over variables so the
      verifier need not compare the literal texts. */
  lemma Regroup(a: string, b: string, c: string, d: string)
    ensures a + (b + c + d) == a + b + c + d
  {
  }

  /** A request whose third field `int()` cannot read is dropped. */
  lemma UnreadableCols(r: string, third: string)
    requires AllDigits(r) && ';' !in third && 't' in third
    requires PyInt(StripTs(third)) == None
    ensures ChunkPlan(Some(ResizeStart + r + ";" + third)) == Swallow
  {
    var text := ResizeStart + r + ";" + third;
    RequestSplit(r, third);
    assert ChunkPlan(Some(text)) == FieldsPlan(Split(text, ';'));
  }

  /** `int()` rejects a text that starts with a digit and holds a letter
      further on. */
  lemma NotAnInt(s: string, k: nat)
    requires 0 < k < |s| && IsDigit(s[0]) && !IsDigit(s[k]) && !IsPyWhitespace(s[k])
    ensures PyInt(s) == None
  {
    var t0 := TrimStart(s, IsPyWhitespace);
    assert t0 == s;
    var t := TrimEnd(s, IsPyWhitespace);
    assert |t| > k && t[k] == s[k];
  }

  /** A request as the host writes it is decided by its two numbers. */
  lemma RequestFields(rows: nat, cols: nat)
    ensures ChunkPlan(Some(ResizeStart + Decimal(rows) + ";" + Decimal(cols) + "t")) == SizePlan(Some(rows), Some(cols))
  {
    var text := ResizeStart + Decimal(rows) + ";" + Decimal(cols) + "t";
    RequestShape(Decimal(rows), Decimal(cols));
    var parts := Split(text, ';');
    assert ChunkPlan(Some(text)) == FieldsPlan(parts);
    FieldValue(parts[1], rows);
    FieldValue(StripTs(parts[2]), cols);
  }

  /** The text of a request splits into its prefix and its two fields. */
  lemma RequestShape(r: string, c: string)
    requires AllDigits(r) && AllDigits(c)
    ensures var text := ResizeStart + r + ";" + c + "t";
            && ResizeStart <= text && 't' in text
            && Split(text, ';') == ["\U{1B}[8", r, c + "t"]
            && StripTs(c + "t") == c
  {
    assert ';' !in c && 't' !in c by {
      assert forall k :: 0 <= k < |c| ==> IsDigit(c[k]);
    }
    RequestSplit(r, c + "t");
    assert ResizeStart + r + ";" + c + "t" == ResizeStart + r + ";" + (c + "t");
    StripTsDigits(c);
  }

  /** A text made of the prefix, a number and a last field splits into three. */
  lemma RequestSplit(r: string, third: string)
    requires AllDigits(r) && ';' !in third && 't' in third
    ensures var text := ResizeStart + r + ";" + third;
            && ResizeStart <= text && 't' in text
            && Split(text, ';') == ["\U{1B}[8", r, third]
  {
    var text := ResizeStart + r + ";" + third;
    assert ';' !in r by {
      assert forall k :: 0 <= k < |r| ==> IsDigit(r[k]);
    }
    var pre := "\U{1B}[8";
    assert text == pre + ([';'] + (r + ([';'] + third)));
    SplitFields(pre, r, third);
  }

  /** `int()` reads a field holding the decimal text of `n` as `n`. */
  lemma FieldValue(field: string, n: nat)
    requires field == Decimal(n)
    ensures PyInt(field) == Some(n)
  {
    PyIntIntText(n);
  }

  /** Splitting `pre ; a ; b` on `;` when none of the three holds one. */
  lemma SplitFields(pre: string, a: string, b: string)
    requires ';' !in pre && ';' !in a && ';' !in b
    ensures Split(pre + ([';'] + (a + ([';'] + b))), ';') == [pre, a, b]
  {
    var tail := a + ([';'] + b);
    var inner := [';'] + b;
    SplitNoSep(b, ';');
    assert Split(inner, ';') == [[]] + [b];
    SplitPrefix(a, inner, ';');
    assert a + [] == a;
    assert Split(tail, ';') == [a, b];
    assert Split([';'] + tail, ';') == [[], a, b];
    SplitPrefix(pre, [';'] + tail, ';');
    assert pre + [] == pre;
  }

  lemma StripTsDigits(c: string)
    requires 't' !in c
    ensures StripTs(c + "t") == c
  {
    var s := c + "t";
    assert s[..|s| - 1] == c;
    if c != [] {
      assert c[|c| - 1] != 't';
    }
  }

  // ---------------------------------------------------------------------
  // The helper's state
  // ---------------------------------------------------------------------

  /** One thing the helper does to the outside world. */
  datatype Effect =
    | WriteMaster(bytes: seq<Byte>)
    | SetWinsize(rows: int, cols: int)
    | Sigwinch

  /** The outcome of handling a chunk: the loop goes on, or an uncaught
      exception ends the helper. */
  datatype Outcome = Continue | Failed

  /** What a plan does to the effect log; `pid` is the shell's pid. */
  function PlanEffects(plan: Plan, data: seq<Byte>, pid: int): seq<Effect>
  {
    match plan
    case Forward => [WriteMaster(data)]
    case Swallow => []
    case Resize(rows, cols) => [SetWinsize(rows, cols)] + (if pid != 0 then [Sigwinch] else [])
    case Crash(_, _) => []
  }

  class ShellBridge {
    /** The shell's pid (`p.pid`). */
    const pid: int
    /** The helper's environment, which the shell inherits on restart. */
    var env: map<string, string>
    /** Everything done so far, in order. */
    var effects: seq<Effect>

    /** pty-shell.py:29-31: the environment set before each shell start. */
    constructor(pid: int, env0: map<string, string>, config: PyConfig)
      ensures this.pid == pid && effects == []
      ensures env == env0["TERM" := "xterm-256color"]["COLUMNS" := IntText(config.cols)]["LINES" := IntText(config.rows)]
    {
      this.pid := pid;
      env := env0["TERM" := "xterm-256color"]["COLUMNS" := IntText(config.cols)]["LINES" := IntText(config.rows)];
      effects := [];
    }

    /** pty-shell.py:36-38: the initial size is set on the master and then
        on the slave end of the PTY; a size `struct.pack` cannot hold
        raises at the first call, outside any handler, and ends the helper. */
    method SetInitialSize(config: PyConfig) returns (outcome: Outcome)
      modifies this
      ensures var plan := StartPlan(config);
              && outcome == (if plan.Crash? then Failed else Continue)
              && effects == old(effects) + (if plan.Resize? then [SetWinsize(config.rows, config.cols), SetWinsize(config.rows, config.cols)] else [])
              && env == old(env)
    {
      if !(0 <= config.rows < 0x1_0000 && 0 <= config.cols < 0x1_0000) {
        assert effects + [] == effects;
        return Failed;
      }
      effects := effects + [SetWinsize(config.rows, config.cols), SetWinsize(config.rows, config.cols)];
      outcome := Continue;
    }

    /** pty-shell.py:88-119 for one chunk `data` whose UTF-8 text is `text`. */
    method OnStdin(data: seq<Byte>, text: Option<string>) returns (outcome: Outcome)
      modifies this
      ensures var plan := ChunkPlan(text);
              && outcome == (if data != [] && plan.Crash? then Failed else Continue)
              && effects == old(effects) + (if data == [] then [] else PlanEffects(plan, data, pid))
              && env == (if data != [] && plan.Resize? then old(env)["LINES" := IntText(plan.rows)]["COLUMNS" := IntText(plan.cols)] else old(env))
    {
      outcome := Continue;
      if data == [] {
        assert effects + [] == effects;
        return;
      }
      if text.None? || !(ResizeStart <= text.value) {
        effects := effects + [WriteMaster(data)];
        return;
      }
      outcome := OnResizeText(text.value);
    }

    /** pty-shell.py:95-113: a text that starts with `ESC [ 8 ;` is never
        forwarded, whatever its fields. */
    method OnResizeText(t: string) returns (outcome: Outcome)
      requires ResizeStart <= t
      modifies this
      ensures var plan := ChunkPlan(Some(t));
              && outcome == (if plan.Crash? then Failed else Continue)
              && effects == old(effects) + PlanEffects(plan, [], pid)
              && env == (if plan.Resize? then old(env)["LINES" := IntText(plan.rows)]["COLUMNS" := IntText(plan.cols)] else old(env))
    {
      if 't' !in t {
        assert effects + [] == effects;
        return Continue;
      }
      var parts := Split(t, ';');
      if |parts| < 3 {
        assert effects + [] == effects;
        return Continue;
      }
      outcome := ApplySize(PyInt(parts[1]), PyInt(StripTs(parts[2])));
    }

    /** pty-shell.py:101-111: if both fields parse the window is resized,
        `LINES` and `COLUMNS` updated and the shell signalled. */
    method ApplySize(rows: Option<int>, cols: Option<int>) returns (outcome: Outcome)
      modifies this
      ensures var plan := SizePlan(rows, cols);
              && outcome == (if plan.Crash? then Failed else Continue)
              && effects == old(effects) + PlanEffects(plan, [], pid)
              && env == (if plan.Resize? then old(env)["LINES" := IntText(plan.rows)]["COLUMNS" := IntText(plan.cols)] else old(env))
    {
      if rows.None? || cols.None? {
        assert effects + [] == effects;
        return Continue;
      }
      if !(0 <= rows.value < 0x1_0000 && 0 <= cols.value < 0x1_0000) {
        assert effects + [] == effects;
        return Failed;
      }
      effects := effects + [SetWinsize(rows.value, cols.value)] + (if pid != 0 then [Sigwinch] else []);
      env := env["LINES" := IntText(rows.value)]["COLUMNS" := IntText(cols.value)];
      outcome := Continue;
    }
  }

  /** After a successful resize `LINES` and `COLUMNS` hold exactly the new
      size, as `int()` reads it back. */
  lemma ResizeEnv(env: map<string, string>, rows: int, cols: int)
    ensures var env' := env["LINES" := IntText(rows)]["COLUMNS" := IntText(cols)];
            PyInt(env'["LINES"]) == Some(rows) && PyInt(env'["COLUMNS"]) == Some(cols)
  {
    var lines, columns := "LINES", "COLUMNS";
    assert lines[0] != columns[0];
    EnvEntry(env[lines := IntText(rows)][columns := IntText(cols)], lines, rows);
    EnvEntry(env[lines := IntText(rows)][columns := IntText(cols)], columns, cols);
  }

  lemma EnvEntry(env: map<string, string>, key: string, n: int)
    requires key in env && env[key] == IntText(n)
    ensures PyInt(env[key]) == Some(n)
  {
    PyIntIntText(n);
  }
}
