/** The Rust helper's view of the shell's process tree
    (resources/pty-rs/src/main.rs:106-137): the children of a pid as
    `pgrep -P` lists them, and the breadth-first walk, capped at depth 5,
    that collects the shell's descendants.

    The walk is specified level by level (`Descendants`): level 0 is the
    shell, and level k + 1 is every child, in listing order, of the pids
    of level k that has not been met before. `CollectDescendants` is the
    queue-driven loop of the source, proved equal to it. */
module RsProcs {
  import opened Common
  import opened Numbers

  // ---------------------------------------------------------------------
  // list_children: parsing the output of `pgrep -P pid`
  // ---------------------------------------------------------------------

  /** Every element fits in an i32. */
  predicate AllI32(pids: seq<int>)
  {
    forall k :: 0 <= k < |pids| ==> -0x8000_0000 <= pids[k] < 0x8000_0000
  }

  /** list_children (main.rs:106-118). `out` is pgrep's standard output,
      `None` when it could not run or exited unsuccessfully. Every line is
      trimmed and parsed as an i32; lines that do not parse are skipped.
      Splitting on `\n` stands for `str::lines`: the `\r` that `lines`
      would strip is whitespace and is trimmed anyway, and the empty piece
      after a final newline parses to nothing. */
  function ParseChildren(out: Option<string>): (r: seq<int>)
    ensures AllI32(r)
  {
    match out
    case None => []
    case Some(s) => ParsedLines(Split(s, '\n'))
  }

  function ParsedLines(lines: seq<string>): (r: seq<int>)
    ensures |r| <= |lines| && AllI32(r)
  {
    if lines == [] then []
    else
      var here := match ParseI32(Trim(lines[0], IsRustWhitespace))
                  case Some(p) => [p]
                  case None => [];
      here + ParsedLines(lines[1..])
  }

  /** What pgrep prints for a list of pids: each in decimal, on its own line. */
  function PgrepText(pids: seq<int>): string
  {
    if pids == [] then "" else IntText(pids[0]) + "\n" + PgrepText(pids[1..])
  }

  /** Parsing pgrep's listing of any i32 pids gives those pids back, in order. */
  lemma {:induction false} ParseChildrenPgrep(pids: seq<int>)
    requires AllI32(pids)
    ensures ParseChildren(Some(PgrepText(pids))) == pids
  {
    PgrepLines(pids);
    ParsedPgrepLines(pids);
  }

  function Texts(pids: seq<int>): seq<string>
  {
    if pids == [] then [] else [IntText(pids[0])] + Texts(pids[1..])
  }

  lemma {:induction false} PgrepLines(pids: seq<int>)
    ensures Split(PgrepText(pids), '\n') == Texts(pids) + [""]
  {
    if pids != [] {
      var head, rest := IntText(pids[0]), PgrepText(pids[1..]);
      var tail := "\n" + rest;
      assert tail[0] == '\n' && tail[1..] == rest;
      assert PgrepText(pids) == head + tail;
      var st := Split(tail, '\n');
      assert st == [[]] + Split(rest, '\n');
      assert st[0] == [] && st[1..] == Split(rest, '\n');
      assert head + st[0] == head;
      assert '\n' !in head;
      SplitPrefix(head, tail, '\n');
      PgrepLines(pids[1..]);
    }
  }

  lemma {:induction false} ParsedPgrepLines(pids: seq<int>)
    requires AllI32(pids)
    ensures ParsedLines(Texts(pids) + [""]) == pids
  {
    if pids == [] {
      assert Texts(pids) + [""] == [""];
      ParsedLineLast();
    } else {
      var x, tail := pids[0], pids[1..];
      assert [x] + tail == pids;
      var rest := Texts(tail) + [""];
      assert Texts(pids) + [""] == [IntText(x)] + rest by {
        assert Texts(pids) == [IntText(x)] + Texts(tail);
      }
      assert ParsedLines(rest) == tail by {
        assert AllI32(tail);
        ParsedPgrepLines(tail);
      }
      ParsedLineText(x, rest);
    }
  }

  /** The empty piece after pgrep's final newline yields no pid. */
  lemma ParsedLineLast()
    ensures ParsedLines([""]) == []
  {
    var e: string := [];
    assert TrimStart(e, IsRustWhitespace) == e;
    assert Trim(e, IsRustWhitespace) == e;
    assert ParseI32(e) == None;
    assert [""][1..] == [];
  }

  /** A line holding the text of an i32 yields that i32. */
  lemma ParsedLineText(x: int, rest: seq<string>)
    requires -0x8000_0000 <= x < 0x8000_0000
    ensures ParsedLines([IntText(x)] + rest) == [x] + ParsedLines(rest)
  {
    var t := IntText(x);
    assert ParseI32(Trim(t, IsRustWhitespace)) == Some(x) by {
      WhitespaceIsNotNumeric();
      IntTextUntrimmed(x, IsRustWhitespace);
      ParseI32IntText(x);
    }
    var lines := [t] + rest;
    assert lines[0] == t && lines[1..] == rest;
  }

  // ---------------------------------------------------------------------
  // The level-by-level specification of the descendant walk
  // ---------------------------------------------------------------------

  /** Pids at this depth are listed but not expanded (main.rs:126-130). */
  const MaxDepth: nat := 5

  predicate Distinct(s: seq<int>)
  {
    forall i, j :: 0 <= i < j < |s| ==> s[i] != s[j]
  }

  /** One child met by the walk: it is recorded unless it is the shell or
      has been met before (`seen.insert(c)`, main.rs:132-135). */
  function Visit(shell: int, acc: seq<int>, c: int): seq<int>
  {
    if c == shell || c in acc then acc else acc + [c]
  }

  /** The children `cs` of one pid met in listing order. */
  function VisitAll(shell: int, acc: seq<int>, cs: seq<int>): (r: seq<int>)
    ensures acc <= r
  {
    if cs == [] then acc else Visit(shell, VisitAll(shell, acc, cs[..|cs| - 1]), cs[|cs| - 1])
  }

  /** What meeting the children adds is children, and every child is met. */
  lemma {:induction false} VisitAllMeets(shell: int, acc: seq<int>, cs: seq<int>)
    ensures forall k :: |acc| <= k < |VisitAll(shell, acc, cs)| ==> VisitAll(shell, acc, cs)[k] in cs
    ensures forall c :: c in cs ==> c == shell || c in VisitAll(shell, acc, cs)
  {
    if cs != [] {
      var init, last := cs[..|cs| - 1], cs[|cs| - 1];
      var prev := VisitAll(shell, acc, init);
      VisitAllMeets(shell, acc, init);
      assert VisitAll(shell, acc, cs) == Visit(shell, prev, last);
      assert forall c :: c in cs ==> c in init || c == last;
      assert forall c :: c in init ==> c in cs;
    } else {
      assert VisitAll(shell, acc, cs) == acc;
    }
  }

  /** Every pid of `frontier` expanded in order. */
  function ExpandLevel(children: int -> seq<int>, shell: int, acc: seq<int>, frontier: seq<int>): (r: seq<int>)
    ensures acc <= r
  {
    if frontier == [] then acc
    else VisitAll(shell, ExpandLevel(children, shell, acc, frontier[..|frontier| - 1]), children(frontier[|frontier| - 1]))
  }

  /** `x` is a child of some pid of `frontier`. */
  ghost predicate ChildOf(children: int -> seq<int>, frontier: seq<int>, x: int)
  {
    exists f :: f in frontier && x in children(f)
  }

  /** Each pid a level expansion adds is a child of a pid of the frontier. */
  lemma {:induction false} ExpandLevelSources(children: int -> seq<int>, shell: int, acc: seq<int>, frontier: seq<int>)
    ensures forall k :: |acc| <= k < |ExpandLevel(children, shell, acc, frontier)| ==>
              ChildOf(children, frontier, ExpandLevel(children, shell, acc, frontier)[k])
  {
    if frontier != [] {
      var init, last := frontier[..|frontier| - 1], frontier[|frontier| - 1];
      var prev := ExpandLevel(children, shell, acc, init);
      var r := VisitAll(shell, prev, children(last));
      assert r == ExpandLevel(children, shell, acc, frontier);
      ExpandLevelSources(children, shell, acc, init);
      VisitAllMeets(shell, prev, children(last));
      forall k | |acc| <= k < |r| ensures ChildOf(children, frontier, r[k]) {
        if k < |prev| {
          assert ChildOf(children, init, prev[k]);
          var f :| f in init && prev[k] in children(f);
          assert r[k] == prev[k] && f in frontier;
        } else {
          assert r[k] in children(last) && last in frontier;
        }
      }
    } else {
      assert ExpandLevel(children, shell, acc, frontier) == acc;
    }
  }

  /** A level expansion meets every child of every pid of the frontier. */
  lemma {:induction false} ExpandLevelMeets(children: int -> seq<int>, shell: int, acc: seq<int>, frontier: seq<int>)
    ensures forall f, c :: f in frontier && c in children(f) ==>
              c == shell || c in ExpandLevel(children, shell, acc, frontier)
  {
    if frontier != [] {
      var init, last := frontier[..|frontier| - 1], frontier[|frontier| - 1];
      var prev := ExpandLevel(children, shell, acc, init);
      var r := VisitAll(shell, prev, children(last));
      assert r == ExpandLevel(children, shell, acc, frontier);
      ExpandLevelMeets(children, shell, acc, init);
      VisitAllMeets(shell, prev, children(last));
      forall f, c | f in frontier && c in children(f) ensures c == shell || c in r {
        if f != last {
          assert f in init;
          assert f in init && c in children(f);
          assert c == shell || c in prev;
          assert prev <= r;
        }
      }
    }
  }

  /** The levels that remain, `levels` of them, expanded from `frontier`. */
  function Collect(children: int -> seq<int>, shell: int, acc: seq<int>, frontier: seq<int>, levels: nat): (r: seq<int>)
    ensures acc <= r
    decreases levels
  {
    if levels == 0 || frontier == [] then acc
    else
      var next := ExpandLevel(children, shell, acc, frontier);
      Collect(children, shell, next, next[|acc|..], levels - 1)
  }

  /** The descendants the walk collects, in the order it collects them. */
  function Descendants(children: int -> seq<int>, shell: int): (r: seq<int>)
    ensures Distinct(r) && shell !in r
  {
    CollectDistinct(children, shell, [], [shell], MaxDepth);
    Collect(children, shell, [], [shell], MaxDepth)
  }

  /** Appending a new pid keeps the pids distinct. */
  lemma DistinctSnoc(s: seq<int>, c: int)
    requires Distinct(s) && c !in s
    ensures Distinct(s + [c])
  {
    var t := s + [c];
    forall i, j | 0 <= i < j < |t| ensures t[i] != t[j] {
      if j == |s| {
        assert t[i] == s[i] && t[j] == c;
      } else {
        assert t[i] == s[i] && t[j] == s[j];
      }
    }
  }

  /** Meeting children records each pid at most once, never the shell. */
  lemma {:induction false} VisitAllDistinct(shell: int, acc: seq<int>, cs: seq<int>)
    requires Distinct(acc) && shell !in acc
    ensures Distinct(VisitAll(shell, acc, cs)) && shell !in VisitAll(shell, acc, cs)
  {
    if cs != [] {
      var prev := VisitAll(shell, acc, cs[..|cs| - 1]);
      var c := cs[|cs| - 1];
      VisitAllDistinct(shell, acc, cs[..|cs| - 1]);
      if c != shell && c !in prev {
        DistinctSnoc(prev, c);
      }
    }
  }

  lemma {:induction false} ExpandLevelDistinct(children: int -> seq<int>, shell: int, acc: seq<int>, frontier: seq<int>)
    requires Distinct(acc) && shell !in acc
    ensures Distinct(ExpandLevel(children, shell, acc, frontier)) && shell !in ExpandLevel(children, shell, acc, frontier)
  {
    if frontier != [] {
      var init := frontier[..|frontier| - 1];
      ExpandLevelDistinct(children, shell, acc, init);
      VisitAllDistinct(shell, ExpandLevel(children, shell, acc, init), children(frontier[|frontier| - 1]));
    }
  }

  lemma {:induction false} CollectDistinct(children: int -> seq<int>, shell: int, acc: seq<int>, frontier: seq<int>,
                                           levels: nat)
    requires Distinct(acc) && shell !in acc
    ensures Distinct(Collect(children, shell, acc, frontier, levels))
    ensures shell !in Collect(children, shell, acc, frontier, levels)
    decreases levels
  {
    if levels > 0 && frontier != [] {
      var next := ExpandLevel(children, shell, acc, frontier);
      ExpandLevelDistinct(children, shell, acc, frontier);
      CollectDistinct(children, shell, next, next[|acc|..], levels - 1);
      assert Collect(children, shell, acc, frontier, levels) == Collect(children, shell, next, next[|acc|..], levels - 1);
    }
  }

  // ---------------------------------------------------------------------
  // What the specification means: exactly the pids 1..5 levels down
  // ---------------------------------------------------------------------

  /** `x` is reached from `a` by following exactly `n` parent-to-child links. */
  ghost predicate ReachIn(children: int -> seq<int>, a: int, x: int, n: nat)
    decreases n
  {
    if n == 0 then x == a else exists p :: ReachIn(children, a, p, n - 1) && x in children(p)
  }

  /** `x` lies 1 to `depth` levels below the shell. */
  ghost predicate Within(children: int -> seq<int>, shell: int, x: int, depth: nat)
  {
    exists n :: 1 <= n <= depth && ReachIn(children, shell, x, n)
  }

  ghost predicate AllWithin(children: int -> seq<int>, shell: int, acc: seq<int>, depth: nat)
  {
    forall x :: x in acc ==> Within(children, shell, x, depth)
  }

  ghost predicate AllAt(children: int -> seq<int>, shell: int, frontier: seq<int>, depth: nat)
  {
    forall f :: f in frontier ==> ReachIn(children, shell, f, depth)
  }

  /** Expanding one level keeps every collected pid within reach and puts
      the new pids exactly one level further down. */
  lemma ExpandSound(children: int -> seq<int>, shell: int, acc: seq<int>, frontier: seq<int>, depth: nat)
    requires AllWithin(children, shell, acc, depth) && AllAt(children, shell, frontier, depth)
    ensures var next := ExpandLevel(children, shell, acc, frontier);
            AllWithin(children, shell, next, depth + 1) && AllAt(children, shell, next[|acc|..], depth + 1)
  {
    var next := ExpandLevel(children, shell, acc, frontier);
    assert forall k :: |acc| <= k < |next| ==> ReachIn(children, shell, next[k], depth + 1) by {
      ExpandLevelSources(children, shell, acc, frontier);
      forall k | |acc| <= k < |next| ensures ReachIn(children, shell, next[k], depth + 1) {
        assert ChildOf(children, frontier, next[k]);
        var f :| f in frontier && next[k] in children(f);
        assert ReachIn(children, shell, f, depth);
      }
    }
    assert AllWithin(children, shell, next, depth + 1) by {
      forall x | x in next ensures Within(children, shell, x, depth + 1) {
        var k :| 0 <= k < |next| && next[k] == x;
        if k >= |acc| {
          assert ReachIn(children, shell, next[k], depth + 1);
        } else {
          assert x in acc;
        }
      }
    }
    assert AllAt(children, shell, next[|acc|..], depth + 1) by {
      forall f | f in next[|acc|..] ensures ReachIn(children, shell, f, depth + 1) {
        var k :| 0 <= k < |next| - |acc| && next[|acc|..][k] == f;
        assert next[|acc| + k] == f;
      }
    }
  }

  lemma {:induction false} CollectSound(children: int -> seq<int>, shell: int, acc: seq<int>, frontier: seq<int>,
                                        levels: nat, depth: nat)
    requires AllWithin(children, shell, acc, depth) && AllAt(children, shell, frontier, depth)
    ensures AllWithin(children, shell, Collect(children, shell, acc, frontier, levels), depth + levels)
    decreases levels
  {
    if levels > 0 && frontier != [] {
      var next := ExpandLevel(children, shell, acc, frontier);
      ExpandSound(children, shell, acc, frontier, depth);
      CollectSound(children, shell, next, next[|acc|..], levels - 1, depth + 1);
      assert Collect(children, shell, acc, frontier, levels) == Collect(children, shell, next, next[|acc|..], levels - 1);
    } else {
      assert Collect(children, shell, acc, frontier, levels) == acc;
      AllWithinDeeper(children, shell, acc, depth, depth + levels);
    }
  }

  lemma AllWithinDeeper(children: int -> seq<int>, shell: int, acc: seq<int>, depth: nat, deeper: nat)
    requires depth <= deeper && AllWithin(children, shell, acc, depth)
    ensures AllWithin(children, shell, acc, deeper)
  {
    forall x | x in acc ensures Within(children, shell, x, deeper) {
      var n :| 1 <= n <= depth && ReachIn(children, shell, x, n);
    }
  }

  /** Every descendant lies 1 to 5 levels below the shell. */
  lemma DescendantsWithinDepth(children: int -> seq<int>, shell: int)
    ensures forall x :: x in Descendants(children, shell) ==> Within(children, shell, x, MaxDepth)
  {
    assert AllAt(children, shell, [shell], 0) by {
      assert ReachIn(children, shell, shell, 0);
    }
    CollectSound(children, shell, [], [shell], MaxDepth, 0);
  }

  /** `x` is the shell or already collected. */
  predicate Known(shell: int, acc: seq<int>, x: int)
  {
    x == shell || x in acc
  }

  /** Every known pid outside the frontier has had all its children met. */
  ghost predicate Closed(children: int -> seq<int>, shell: int, acc: seq<int>, frontier: seq<int>)
  {
    forall y, c :: Known(shell, acc, y) && y !in frontier && c in children(y) ==> Known(shell, acc, c)
  }

  /** Every pid at most `depth` levels down is known. */
  ghost predicate Covers(children: int -> seq<int>, shell: int, acc: seq<int>, depth: nat)
  {
    forall x, m: nat :: m <= depth && ReachIn(children, shell, x, m) ==> Known(shell, acc, x)
  }

  lemma {:induction false} ClosedReach(children: int -> seq<int>, shell: int, acc: seq<int>, depth: nat, x: int, m: nat)
    requires Closed(children, shell, acc, []) && Covers(children, shell, acc, depth)
    requires ReachIn(children, shell, x, m)
    ensures Known(shell, acc, x)
    decreases m
  {
    if m > depth {
      var p :| ReachIn(children, shell, p, m - 1) && x in children(p);
      ClosedReach(children, shell, acc, depth, p, m - 1);
    }
  }

  lemma {:induction false} CollectComplete(children: int -> seq<int>, shell: int, acc: seq<int>, frontier: seq<int>,
                                           levels: nat, depth: nat)
    requires Closed(children, shell, acc, frontier) && Covers(children, shell, acc, depth)
    ensures Covers(children, shell, Collect(children, shell, acc, frontier, levels), depth + levels)
    decreases levels
  {
    var r := Collect(children, shell, acc, frontier, levels);
    if levels == 0 {
    } else if frontier == [] {
      forall x, m: nat | m <= depth + levels && ReachIn(children, shell, x, m) ensures Known(shell, r, x) {
        ClosedReach(children, shell, acc, depth, x, m);
      }
    } else {
      var next := ExpandLevel(children, shell, acc, frontier);
      var nf := next[|acc|..];
      assert next == acc + nf;
      ExpandLevelMeets(children, shell, acc, frontier);
      forall y, c | Known(shell, next, y) && y !in nf && c in children(y) ensures Known(shell, next, c) {
        assert Known(shell, acc, y);
        if y !in frontier {
          assert Known(shell, acc, c);
        }
      }
      forall x, m: nat | m <= depth + 1 && ReachIn(children, shell, x, m) ensures Known(shell, next, x) {
        if m == depth + 1 {
          var p :| ReachIn(children, shell, p, m - 1) && x in children(p);
          assert Known(shell, acc, p);
          if p !in frontier {
            assert Known(shell, acc, x);
          }
        } else {
          assert Known(shell, acc, x);
        }
      }
      CollectComplete(children, shell, next, nf, levels - 1, depth + 1);
    }
  }

  /** Every pid other than the shell that lies 1 to 5 levels below it is
      a descendant: together with `DescendantsWithinDepth`, the walk finds
      exactly the pids within the depth cap. */
  lemma DescendantsComplete(children: int -> seq<int>, shell: int)
    ensures forall x, n: nat :: 1 <= n <= MaxDepth && ReachIn(children, shell, x, n) && x != shell ==>
              x in Descendants(children, shell)
  {
    forall x, m: nat | m <= 0 && ReachIn(children, shell, x, m) ensures Known(shell, [], x) {
    }
    CollectComplete(children, shell, [], [shell], MaxDepth, 0);
  }

  // ---------------------------------------------------------------------
  // The walk as the source runs it
  // ---------------------------------------------------------------------

  /** The queue entries for `pids`, all at depth `d`. */
  function Tag(pids: seq<int>, d: int): (q: seq<(int, int)>)
    ensures |q| == |pids|
  {
    if pids == [] then [] else [(pids[0], d)] + Tag(pids[1..], d)
  }

  lemma {:induction false} TagAppend(pids: seq<int>, x: int, d: int)
    ensures Tag(pids + [x], d) == Tag(pids, d) + [(x, d)]
  {
    if pids == [] {
      assert pids + [x] == [x];
    } else {
      assert (pids + [x])[1..] == pids[1..] + [x];
      TagAppend(pids[1..], x, d);
    }
  }

  /** The entries queued while one pid is expanded follow those queued
      before it. */
  lemma {:induction false} TagSplit(all: seq<int>, a: nat, b: nat, d: int)
    requires a <= b <= |all|
    ensures Tag(all[a..b], d) + Tag(all[b..], d) == Tag(all[a..], d)
    decreases b - a
  {
    if a == b {
      assert all[a..b] == [];
    } else {
      TagSplit(all, a + 1, b, d);
      assert all[a..b][1..] == all[a + 1..b] && all[a..][1..] == all[a + 1..];
      assert Tag(all[a..b], d) == [(all[a], d)] + Tag(all[a + 1..b], d);
      assert Tag(all[a..], d) == [(all[a], d)] + Tag(all[a + 1..], d);
    }
  }

  /** Popping the front of a queue that holds the rest of a level and then
      the next level. */
  lemma QueuePop(queue: seq<(int, int)>, level: seq<int>, i: nat, d: int, next: seq<int>)
    requires i < |level| && queue == Tag(level[i..], d) + Tag(next, d + 1)
    ensures queue[0] == (level[i], d)
    ensures queue[1..] == Tag(level[i + 1..], d) + Tag(next, d + 1)
  {
    assert level[i..][1..] == level[i + 1..];
    assert Tag(level[i..], d) == [(level[i], d)] + Tag(level[i + 1..], d);
  }

  /** Once a level is drained, the queue holds exactly the next level. */
  lemma QueueNextLevel(queue: seq<(int, int)>, level: seq<int>, i: nat, d: int, all: seq<int>, next: seq<int>)
    requires i == |level| && queue == Tag(level[i..], d) + Tag(next, d + 1)
    ensures queue == Tag(next[0..], d + 1) + Tag(all[|all|..], d + 2)
    ensures queue != [] ==> |next| > 0
  {
    assert level[i..] == [] && next[0..] == next && all[|all|..] == [];
  }

  /** The children queued while a pid is expanded join the next level. */
  lemma QueueGrow(queue: seq<(int, int)>, popped: seq<(int, int)>, rest: seq<int>, d: int,
                  base: seq<int>, before: seq<int>, descendants: seq<int>)
    requires base <= before <= descendants
    requires popped == Tag(rest, d) + Tag(before[|base|..], d + 1)
    requires queue == popped + Tag(descendants[|before|..], d + 1)
    ensures queue == Tag(rest, d) + Tag(descendants[|base|..], d + 1)
  {
    var head, t1, t2 := Tag(rest, d), Tag(before[|base|..], d + 1), Tag(descendants[|before|..], d + 1);
    TagSplit(descendants, |base|, |before|, d + 1);
    assert descendants[|base|..|before|] == before[|base|..];
    assert t1 + t2 == Tag(descendants[|base|..], d + 1);
    assert head + t1 + t2 == head + (t1 + t2);
  }

  /** A level that adds nothing ends the walk. */
  lemma CollectDone(children: int -> seq<int>, shell: int, base: seq<int>, level: seq<int>, levels: nat)
    requires levels == 0 || ExpandLevel(children, shell, base, level) == base
    ensures Collect(children, shell, base, level, levels) == base
  {
    if levels > 0 && level != [] {
      assert base[|base|..] == [];
    }
  }

  /** A level that adds something hands the walk over to the next level. */
  lemma CollectNext(children: int -> seq<int>, shell: int, base: seq<int>, level: seq<int>, levels: nat)
    requires levels > 0 && level != []
    ensures var next := ExpandLevel(children, shell, base, level);
            Collect(children, shell, base, level, levels) == Collect(children, shell, next, next[|base|..], levels - 1)
  {
  }

  /** The seen-set holds the shell and the descendants met so far. */
  ghost predicate SeenExactly(seen: set<int>, shell: int, descendants: seq<int>)
  {
    forall x :: x in seen <==> x == shell || x in descendants
  }

  /** Expanding one more pid of a level: its children met in order. */
  lemma ExpandLevelStep(children: int -> seq<int>, shell: int, acc: seq<int>, level: seq<int>, i: nat)
    requires i < |level|
    ensures ExpandLevel(children, shell, acc, level[..i + 1])
            == VisitAll(shell, ExpandLevel(children, shell, acc, level[..i]), children(level[i]))
  {
    assert level[..i + 1][..i] == level[..i];
  }

  /** Meeting one more child. */
  lemma VisitAllStep(shell: int, acc: seq<int>, cs: seq<int>, j: nat)
    requires j < |cs|
    ensures VisitAll(shell, acc, cs[..j + 1]) == Visit(shell, VisitAll(shell, acc, cs[..j]), cs[j])
  {
    assert cs[..j + 1][..j] == cs[..j];
  }

  /** The state of the walk while it drains `level`, the pids at depth `d`:
      `i` of them have been popped, `base` is what had been collected before
      the level was expanded, and the queue holds the rest of the level
      followed by the pids met since, one level deeper. `goal` is what the
      walk ends with. Proof aid: the conjunction is bound to a name so that
      the verifier checks a `Walk` obligation as one fact instead of one per
      conjunct, which keeps `NextEntry` and `RsWalk.Pop` within bounds. */
  ghost predicate Walk(children: int -> seq<int>, shell: int, goal: seq<int>, queue: seq<(int, int)>,
                       base: seq<int>, level: seq<int>, i: nat, d: nat, descendants: seq<int>)
  {
    var ok :=
      && d <= MaxDepth && i <= |level| && base <= descendants
      && Collect(children, shell, base, level, MaxDepth - d) == goal
      && (d < MaxDepth ==> descendants == ExpandLevel(children, shell, base, level[..i]))
      && (d == MaxDepth ==> descendants == base)
      && queue == Tag(level[i..], d) + Tag(descendants[|base|..], d + 1);
    ok
  }

  /** The ghost bookkeeping for the next pop: when the level is drained the
      queue holds exactly the next level, which becomes the one drained. */
  lemma NextEntry(children: int -> seq<int>, shell: int, goal: seq<int>, queue: seq<(int, int)>, base: seq<int>,
                  level: seq<int>, i: nat, d: nat, descendants: seq<int>)
    returns (base': seq<int>, level': seq<int>, i': nat, d': nat)
    requires queue != [] && Walk(children, shell, goal, queue, base, level, i, d, descendants)
    ensures Walk(children, shell, goal, queue, base', level', i', d', descendants) && i' < |level'|
    ensures queue[0].0 == level'[i'] && queue[0].1 == d'
    ensures (d' == d && level' == level && i' == i) || d' == d + 1
  {
    if i == |level| {
      QueueNextLevel(queue, level, i, d, descendants, descendants[|base|..]);
      assert level[..i] == level && level != [];
      assert d < MaxDepth;
      CollectNext(children, shell, base, level, MaxDepth - d);
      base', level', i', d' := descendants, descendants[|base|..], 0, d + 1;
      assert level'[..0] == [];
    } else {
      base', level', i', d' := base, level, i, d;
    }
    QueuePop(queue, level', i', d', descendants[|base'|..]);
  }

  /** Popping a pid of the level and meeting its children. */
  lemma WalkExpand(children: int -> seq<int>, shell: int, goal: seq<int>, queue: seq<(int, int)>, base: seq<int>,
                   level: seq<int>, i: nat, d: nat, before: seq<int>, pid: int, descendants: seq<int>,
                   queue': seq<(int, int)>)
    requires Walk(children, shell, goal, queue, base, level, i, d, before) && i < |level| && d < MaxDepth
    requires pid == level[i] && descendants == VisitAll(shell, before, children(pid))
    requires queue' == queue[1..] + Tag(descendants[|before|..], d + 1)
    ensures Walk(children, shell, goal, queue', base, level, i + 1, d, descendants)
  {
    QueuePop(queue, level, i, d, before[|base|..]);
    ExpandLevelStep(children, shell, base, level, i);
    QueueGrow(queue', queue[1..], level[i + 1..], d, base, before, descendants);
  }

  /** Popping a pid at the depth cap: nothing is met. */
  lemma WalkSkip(children: int -> seq<int>, shell: int, goal: seq<int>, queue: seq<(int, int)>, base: seq<int>,
                 level: seq<int>, i: nat, d: nat, descendants: seq<int>)
    requires Walk(children, shell, goal, queue, base, level, i, d, descendants) && i < |level| && d == MaxDepth
    ensures Walk(children, shell, goal, queue[1..], base, level, i + 1, d, descendants)
  {
    QueuePop(queue, level, i, d, descendants[|base|..]);
  }

  /** An empty queue: the walk has collected everything. */
  lemma WalkDone(children: int -> seq<int>, shell: int, goal: seq<int>, queue: seq<(int, int)>, base: seq<int>,
                 level: seq<int>, i: nat, d: nat, descendants: seq<int>)
    requires queue == [] && Walk(children, shell, goal, queue, base, level, i, d, descendants)
    ensures descendants == goal
  {
    assert |level[i..]| == 0 && |descendants[|base|..]| == 0;
    assert level[..i] == level && descendants == base;
    CollectDone(children, shell, base, level, MaxDepth - d);
  }
}
