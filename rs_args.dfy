/** The Rust helper's command line (resources/pty-rs/src/main.rs:181-199):
    `pty-rs [cols] [rows] [cwd] [--startup-commands <json array>]`.

    Malformed sizes fall back to the defaults instead of failing. The JSON
    parser (serde_json) is not modelled: it is a parameter that maps a text
    to the value it denotes, `None` when the text is not JSON. */
module RsArgs {
  import opened Common
  import opened Numbers

  /** A parsed JSON value. */
  datatype Json =
    | JNull
    | JBool(b: bool)
    | JNumber(n: int)
    | JString(s: string)
    | JArray(items: seq<Json>)
    | JObject(fields: seq<(string, Json)>)

  /** The settings the helper starts the shell with. */
  datatype Config = Config(cols: int, rows: int, cwd: string, startup: seq<string>)

  const DefaultCols: int := 80
  const DefaultRows: int := 24
  const DefaultCwd: string := "."
  const StartupFlag: string := "--startup-commands"

  /** `args.get(i).and_then(|s| s.parse::<u16>().ok()).unwrap_or(default)`. */
  function SizeArg(args: seq<string>, i: nat, default: int): int
  {
    if i < |args| && ParseU16(args[i]).Some? then ParseU16(args[i]).value else default
  }

  /** The string items of a JSON array, in order; other items are skipped
      (main.rs:192-196). */
  function StringItems(items: seq<Json>): (r: seq<string>)
    ensures |r| <= |items|
  {
    if items == [] then []
    else
      var last := items[|items| - 1];
      StringItems(items[..|items| - 1]) + (if last.JString? then [last.s] else [])
  }

  /** The startup commands: only when the fourth argument is exactly the
      flag, and the fifth parses as a JSON array (main.rs:186-198). */
  function StartupCommands(args: seq<string>, json: string -> Option<Json>): seq<string>
  {
    if |args| > 5 && args[4] == StartupFlag then
      match json(args[5])
      case Some(JArray(items)) => StringItems(items)
      case _ => []
    else []
  }

  /** main.rs:181-199 as one function. */
  function ParseArgs(args: seq<string>, json: string -> Option<Json>): (c: Config)
    ensures 0 <= c.cols < 0x1_0000 && 0 <= c.rows < 0x1_0000
    ensures |args| <= 1 || ParseU16(args[1]).None? ==> c.cols == DefaultCols
    ensures |args| <= 2 || ParseU16(args[2]).None? ==> c.rows == DefaultRows
    ensures |args| > 1 && ParseU16(args[1]).Some? ==> c.cols == ParseU16(args[1]).value
    ensures |args| > 2 && ParseU16(args[2]).Some? ==> c.rows == ParseU16(args[2]).value
    ensures c.cwd == if |args| > 3 then args[3] else DefaultCwd
  {
    Config(SizeArg(args, 1, DefaultCols), SizeArg(args, 2, DefaultRows),
           if |args| > 3 then args[3] else DefaultCwd,
           StartupCommands(args, json))
  }

  /** The sizes are read back exactly from their decimal text, and no
      startup commands are collected without the flag. */
  lemma ParseArgsCanonical(prog: string, cols: nat, rows: nat, cwd: string, json: string -> Option<Json>)
    requires cols < 0x1_0000 && rows < 0x1_0000
    ensures ParseArgs([prog, Decimal(cols), Decimal(rows), cwd], json) == Config(cols, rows, cwd, [])
  {
    ParseU16Decimal(cols);
    ParseU16Decimal(rows);
  }

  /** A size argument with no digit in it is not an error: the default is
      used instead. It follows from the definitions with no proof steps. */
  lemma ParseArgsMalformed(args: seq<string>, json: string -> Option<Json>)
    requires |args| > 2
    requires forall k :: 0 <= k < |args[1]| ==> !IsDigit(args[1][k])
    requires forall k :: 0 <= k < |args[2]| ==> !IsDigit(args[2][k])
    ensures ParseArgs(args, json).cols == DefaultCols && ParseArgs(args, json).rows == DefaultRows
  {
  }

  /** A size beyond 16 bits, or one with a sign or a stray character in
      it, is not an error and is not wrapped around: the default is used. */
  lemma ParseArgsInvalid(prog: string, n: nat, rows: string, k: nat, json: string -> Option<Json>)
    requires n >= 0x1_0000
    requires k < |rows| && !IsDigit(rows[k]) && (k > 0 || rows[k] != '+')
    ensures ParseArgs([prog, Decimal(n), rows], json).cols == DefaultCols
    ensures ParseArgs([prog, Decimal(n), rows], json).rows == DefaultRows
  {
    ParseU16TooLarge(n);
    ParseU16NonDigit(rows, k);
  }

  /** Without the exact flag in fourth position there are no startup
      commands. It follows from the definitions with no proof steps. */
  lemma StartupNeedsFlag(args: seq<string>, json: string -> Option<Json>)
    requires |args| <= 4 || args[4] != StartupFlag
    ensures ParseArgs(args, json).startup == []
  {
  }

  /** Skipping is piecewise: the commands of two runs of items are those
      of each, in order. */
  lemma {:induction false} StringItemsAppend(a: seq<Json>, b: seq<Json>)
    ensures StringItems(a + b) == StringItems(a) + StringItems(b)
    decreases |b|
  {
    if b == [] {
      assert a + b == a;
    } else {
      var init := b[..|b| - 1];
      assert (a + b)[..|a + b| - 1] == a + init;
      StringItemsAppend(a, init);
    }
  }

  /** An array of strings yields exactly those strings. */
  lemma {:induction false} StringItemsAllStrings(items: seq<Json>)
    requires forall k :: 0 <= k < |items| ==> items[k].JString?
    ensures |StringItems(items)| == |items|
    ensures forall k :: 0 <= k < |items| ==> StringItems(items)[k] == items[k].s
  {
    if items != [] {
      StringItemsAllStrings(items[..|items| - 1]);
    }
  }

  /** Every command collected comes from a string item of the array. */
  lemma {:induction false} StringItemsFromItems(items: seq<Json>)
    ensures forall x :: x in StringItems(items) ==> JString(x) in items
  {
    if items != [] {
      var init := items[..|items| - 1];
      StringItemsFromItems(init);
      assert forall j :: j in init ==> j in items;
    }
  }

  /** The loop of main.rs:192-196 that pushes the string items. */
  method CollectStrings(items: seq<Json>) returns (commands: seq<string>)
    ensures commands == StringItems(items)
  {
    commands := [];
    var i := 0;
    while i < |items|
      invariant i <= |items|
      invariant commands == StringItems(items[..i])
    {
      assert items[..i + 1][..i] == items[..i];
      if items[i].JString? {
        commands := commands + [items[i].s];
      }
      i := i + 1;
    }
    assert items[..i] == items;
  }

  /** main.rs:186-198: the startup commands, collected step by step. */
  method CollectStartupCommands(args: seq<string>, json: string -> Option<Json>) returns (commands: seq<string>)
    ensures commands == StartupCommands(args, json)
  {
    commands := [];
    if |args| > 4 && args[4] == StartupFlag && |args| > 5 {
      var v := json(args[5]);
      if v.Some? && v.value.JArray? {
        commands := CollectStrings(v.value.items);
      }
    }
  }
}
