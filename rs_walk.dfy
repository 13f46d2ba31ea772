/** The breadth-first walk of check_cli_agent_active
    (resources/pty-rs/src/main.rs:120-144) as the code performs it: a queue
    of (pid, depth) pairs, a set of pids seen, and the list of descendants
    in the order they are met, proved equal to `RsProcs.Descendants`. */
module RsWalk {
  import opened Common
  import opened RsProcs

  /** The `for c in list_children(pid)` loop of check_cli_agent_active
      (main.rs:131-136): each child not yet seen is marked seen, recorded
      and queued one level deeper. */
  method MeetChildren(shell: int, cs: seq<int>, seen: set<int>, descendants: seq<int>,
                      queue: seq<(int, int)>, depth: int)
    returns (seen': set<int>, descendants': seq<int>, queue': seq<(int, int)>)
    requires SeenExactly(seen, shell, descendants)
    ensures descendants' == VisitAll(shell, descendants, cs)
    ensures SeenExactly(seen', shell, descendants')
    ensures queue' == queue + Tag(descendants'[|descendants|..], depth + 1)
  {
    seen', descendants', queue' := seen, descendants, queue;
    var j := 0;
    ghost var added: seq<int> := [];
    assert cs[..0] == [];
    while j < |cs|
      invariant j <= |cs|
      invariant descendants' == descendants + added
      invariant descendants' == VisitAll(shell, descendants, cs[..j])
      invariant SeenExactly(seen', shell, descendants')
      invariant queue' == queue + Tag(added, depth + 1)
    {
      var c := cs[j];
      VisitAllStep(shell, descendants, cs, j);
      if c !in seen' {
        TagAppend(added, c, depth + 1);
        seen' := seen' + {c};
        descendants', added := descendants' + [c], added + [c];
        queue' := queue' + [(c, depth + 1)];
      }
      j := j + 1;
    }
    assert cs[..j] == cs;
    assert descendants'[|descendants|..] == added;
  }

  /** Popping a pid below the depth cap and meeting its children. */
  method Expand(children: int -> seq<int>, shell: int, seen: set<int>, queue: seq<(int, int)>, descendants: seq<int>,
                ghost goal: seq<int>, ghost base: seq<int>, ghost level: seq<int>, ghost i: nat, ghost d: nat)
    returns (seen': set<int>, queue': seq<(int, int)>, descendants': seq<int>)
    requires Walk(children, shell, goal, queue, base, level, i, d, descendants) && i < |level| && d < MaxDepth
    requires queue != [] && queue[0].0 == level[i] && queue[0].1 == d
    requires SeenExactly(seen, shell, descendants)
    ensures Walk(children, shell, goal, queue', base, level, i + 1, d, descendants')
    ensures SeenExactly(seen', shell, descendants')
  {
    var pid, depth := queue[0].0, queue[0].1;
    seen', descendants', queue' := MeetChildren(shell, children(pid), seen, descendants, queue[1..], depth);
    WalkExpand(children, shell, goal, queue, base, level, i, d, descendants, pid, descendants', queue');
  }

  /** One turn of check_cli_agent_active's loop (main.rs:125-137): pop the
      front pair and, below the depth cap, meet the pid's children. */
  method Pop(children: int -> seq<int>, shell: int, seen: set<int>, queue: seq<(int, int)>, descendants: seq<int>,
             ghost goal: seq<int>, ghost base: seq<int>, ghost level: seq<int>, ghost i: nat, ghost d: nat)
    returns (seen': set<int>, queue': seq<(int, int)>, descendants': seq<int>,
             ghost base': seq<int>, ghost level': seq<int>, ghost i': nat, ghost d': nat)
    requires queue != [] && Walk(children, shell, goal, queue, base, level, i, d, descendants)
    requires SeenExactly(seen, shell, descendants)
    ensures Walk(children, shell, goal, queue', base', level', i', d', descendants') && d' <= MaxDepth
    ensures SeenExactly(seen', shell, descendants')
    ensures d < d' || (d' == d && |level'| - i' < |level| - i)
  {
    base', level', i', d' := NextEntry(children, shell, goal, queue, base, level, i, d, descendants);
    var depth := queue[0].1;
    if depth < MaxDepth {
      seen', queue', descendants' := Expand(children, shell, seen, queue, descendants, goal, base', level', i', d');
    } else {
      seen', queue', descendants' := seen, queue[1..], descendants;
      WalkSkip(children, shell, goal, queue, base', level', i', d', descendants);
    }
    i' := i' + 1;
  }

  method CollectDescendants(children: int -> seq<int>, shell: int) returns (descendants: seq<int>)
    ensures descendants == Descendants(children, shell)
    ensures Distinct(descendants) && shell !in descendants
  {
    descendants := [];
    var seen: set<int> := {shell};
    var queue: seq<(int, int)> := [(shell, 0)];
    ghost var level: seq<int> := [shell];
    ghost var d: nat := 0;
    ghost var i: nat := 0;
    ghost var base: seq<int> := [];
    ghost var goal := Descendants(children, shell);
    assert level[..0] == [] && level[0..] == level;
    while queue != []
      invariant Walk(children, shell, goal, queue, base, level, i, d, descendants) && d <= MaxDepth
      invariant SeenExactly(seen, shell, descendants)
      decreases MaxDepth - d, |level| - i
    {
      seen, queue, descendants, base, level, i, d := Pop(children, shell, seen, queue, descendants, goal, base, level, i, d);
    }
    WalkDone(children, shell, goal, queue, base, level, i, d, descendants);
  }
}
