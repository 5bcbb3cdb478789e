/**
  The state graph builder: the four successors of a state, and the LIFO
  work-list exploration that registers every reachable state once, numbers
  the states 1, 2, 3, ... in discovery order and records four edges each.
 */
module Explorer {
  import opened Wrappers
  import opened JsText
  import opened Board
  import opened Rules

  /** A state whose key contains this text is a victory state. */
  const VictoryMarker: string := "You decend"

  /** The successor states of one expansion and the pickup counter after it. */
  datatype Successors = Successors(states: seq<State>, gold: nat)

  /** `Rules.TargetsGold` as a count: 1 when the move (dx, dy) from `st` lands on gold, else 0. */
  function Found(st: State, width: int, dx: int, dy: int): nat
  {
    if TargetsGold(st, width, dx, dy) then 1 else 0
  }

  /** The moves as (dx, dy): left, up, down, right (rows grow downwards, since `xy` takes the row from `index / width`). */
  const Directions: seq<(int, int)> := [(-1, 0), (0, -1), (0, 1), (1, 0)]

  /**
    The `map` of `step` over the moves `dirs`, in order. The moves run one after
    another, so each sees the pickup counter the earlier ones left behind.
   */
  function StepAll(st: State, width: int, dirs: seq<(int, int)>, gold: nat, goldMsgs: seq<string>): (r: Successors)
    ensures |r.states| == |dirs|
    decreases |dirs|
  {
    if |dirs| == 0 then Successors([], gold)
    else
      var first := Step(st, width, dirs[0].0, dirs[0].1, gold, goldMsgs);
      var rest := StepAll(st, width, dirs[1..], first.gold, goldMsgs);
      Successors([first.state] + rest.states, rest.gold)
  }

  /** `stepOnceEachWay`: the four successors of `st`, in the order of `Directions`. */
  function StepOnceEachWay(st: State, width: int, gold: nat, goldMsgs: seq<string>): (r: Successors)
    ensures |r.states| == 4
    ensures r.gold == gold + GoldHits(st, width, Directions)
  {
    StepAllGold(st, width, Directions, gold, goldMsgs);
    StepAll(st, width, Directions, gold, goldMsgs)
  }

  /** The first successor of the map is the first move from the given counter. */
  lemma StepAllHead(st: State, width: int, d: (int, int), rest: seq<(int, int)>, gold: nat, goldMsgs: seq<string>)
    ensures StepAll(st, width, [d] + rest, gold, goldMsgs).states[0] == Step(st, width, d.0, d.1, gold, goldMsgs).state
  {
    assert ([d] + rest)[0] == d;
  }

  /** The other successors of the map are the map over the other moves, from the counter the first move left behind. */
  lemma StepAllTail(st: State, width: int, d: (int, int), rest: seq<(int, int)>, gold: nat, goldMsgs: seq<string>)
    ensures var tail := StepAll(st, width, rest, gold + Found(st, width, d.0, d.1), goldMsgs);
            && StepAll(st, width, [d] + rest, gold, goldMsgs).states[1..] == tail.states
            && StepAll(st, width, [d] + rest, gold, goldMsgs).gold == tail.gold
  {
    assert ([d] + rest)[0] == d;
    assert ([d] + rest)[1..] == rest;
    StepGoldCounter(st, width, d.0, d.1, gold, goldMsgs);
  }

  /** How many of the moves `dirs` from `st` land on gold. */
  function GoldHits(st: State, width: int, dirs: seq<(int, int)>): nat
    decreases |dirs|
  {
    if |dirs| == 0 then 0 else Found(st, width, dirs[0].0, dirs[0].1) + GoldHits(st, width, dirs[1..])
  }

  /** The gold moves among the first `i + 1` moves: the first move's, then those among the next `i`. */
  lemma GoldHitsPrefix(st: State, width: int, dirs: seq<(int, int)>, i: nat)
    requires 0 < i <= |dirs|
    ensures GoldHits(st, width, dirs[..i]) == Found(st, width, dirs[0].0, dirs[0].1) + GoldHits(st, width, dirs[1..][..i - 1])
  {
    assert dirs[..i][0] == dirs[0];
    assert dirs[..i][1..] == dirs[1..][..i - 1];
  }

  /** Successor `i` of the map over `dirs` is successor `i - 1` of the map over the moves after the first. */
  lemma StepAllShift(st: State, width: int, dirs: seq<(int, int)>, gold: nat, goldMsgs: seq<string>, i: nat)
    requires 0 < i < |dirs|
    ensures StepAll(st, width, dirs, gold, goldMsgs).states[i]
         == StepAll(st, width, dirs[1..], gold + Found(st, width, dirs[0].0, dirs[0].1), goldMsgs).states[i - 1]
  {
    assert dirs == [dirs[0]] + dirs[1..];
    StepAllTail(st, width, dirs[0], dirs[1..], gold, goldMsgs);
  }

  /**
    Successor `i` of the map is move `i` run with the counter advanced once per
    earlier move that landed on gold.
   */
  lemma {:induction false} StepAllAt(st: State, width: int, dirs: seq<(int, int)>, gold: nat, goldMsgs: seq<string>, i: nat)
    requires i < |dirs|
    ensures StepAll(st, width, dirs, gold, goldMsgs).states[i]
         == Step(st, width, dirs[i].0, dirs[i].1, gold + GoldHits(st, width, dirs[..i]), goldMsgs).state
    decreases i
  {
    if i == 0 {
      assert dirs == [dirs[0]] + dirs[1..];
      StepAllHead(st, width, dirs[0], dirs[1..], gold, goldMsgs);
      assert dirs[..0] == [];
    } else {
      var g1 := gold + Found(st, width, dirs[0].0, dirs[0].1);
      StepAllShift(st, width, dirs, gold, goldMsgs, i);
      StepAllAt(st, width, dirs[1..], g1, goldMsgs, i - 1);
      GoldHitsPrefix(st, width, dirs, i);
      assert dirs[1..][i - 1] == dirs[i];
    }
  }

  /** After the map the counter has advanced once per move that landed on gold. */
  lemma {:induction false} StepAllGold(st: State, width: int, dirs: seq<(int, int)>, gold: nat, goldMsgs: seq<string>)
    ensures StepAll(st, width, dirs, gold, goldMsgs).gold == gold + GoldHits(st, width, dirs)
    decreases |dirs|
  {
    if |dirs| > 0 {
      var d := dirs[0];
      var rest := dirs[1..];
      assert dirs == [d] + rest;
      StepAllTail(st, width, d, rest, gold, goldMsgs);
      StepAllGold(st, width, rest, gold + Found(st, width, d.0, d.1), goldMsgs);
    }
  }

  /**
    `stepOnceEachWay` move by move: successor `i` is the move `Directions[i]`
    run with the counter advanced once per earlier move that landed on gold,
    and afterwards the counter has advanced once per gold move in total.
   */
  lemma StepOnceEachWayMoves(st: State, width: int, gold: nat, goldMsgs: seq<string>, i: nat)
    requires i < 4
    ensures StepOnceEachWay(st, width, gold, goldMsgs).states[i]
         == Step(st, width, Directions[i].0, Directions[i].1, gold + GoldHits(st, width, Directions[..i]), goldMsgs).state
    ensures StepOnceEachWay(st, width, gold, goldMsgs).gold == gold + GoldHits(st, width, Directions)
  {
    StepAllAt(st, width, Directions, gold, goldMsgs, i);
    StepAllGold(st, width, Directions, gold, goldMsgs);
  }

  /** Every successor of the map is well formed when the state and the pickup messages are. */
  lemma {:induction false} StepAllWellFormed(st: State, width: int, dirs: seq<(int, int)>, gold: nat, goldMsgs: seq<string>)
    requires WellFormed(st) && NoSeparator(goldMsgs)
    ensures AllWellFormedSeq(StepAll(st, width, dirs, gold, goldMsgs).states)
    decreases |dirs|
  {
    if |dirs| > 0 {
      var first := Step(st, width, dirs[0].0, dirs[0].1, gold, goldMsgs);
      StepWellFormed(st, width, dirs[0].0, dirs[0].1, gold, goldMsgs);
      StepAllWellFormed(st, width, dirs[1..], first.gold, goldMsgs);
      var rest := StepAll(st, width, dirs[1..], first.gold, goldMsgs).states;
      AllWellFormedConcat([first.state], rest);
    }
  }

  /** `state.indexOf("You decend") != -1`: the whole key, not just the message, is searched. */
  predicate IsVictory(st: State)
  {
    Occurs(VictoryMarker, Serialize(st))
  }

  /** A state carrying the descend message is a victory state, whatever its level and field. */
  lemma DescendIsVictory(st: State)
    requires st.message == DescendMessage
    ensures IsVictory(st)
  {
    var lvl := IntToString(st.level);
    var parts := [lvl, st.message, st.field];
    assert parts[1..] == [st.message, st.field];
    assert parts[1..][1..] == [st.field];
    assert Join([st.message, st.field], Sep) == st.message + [Sep] + Join([st.field], Sep);
    assert Serialize(st) == lvl + [Sep] + (st.message + [Sep] + st.field);
    assert VictoryMarker <= DescendMessage;
    OccursInside(VictoryMarker, lvl + [Sep], st.message, [Sep] + st.field);
    assert lvl + [Sep] + st.message + ([Sep] + st.field) == Serialize(st);
  }

  /** Stepping onto the stairs always produces a victory state. */
  lemma StairsLeadToVictory(st: State, width: int, dx: int, dy: int, gold: nat, goldMsgs: seq<string>)
    requires width != 0
    requires Tile(st.field, TargetIndex(st.field, width, dx, dy)) == Some(Stairs)
    ensures IsVictory(Step(st, width, dx, dy, gold, goldMsgs).state)
  {
    var next := Step(st, width, dx, dy, gold, goldMsgs).state;
    assert next.message == DescendMessage;
    DescendIsVictory(next);
  }

  /** A registered state: its discovery number and its four successors. */
  datatype Entry = Entry(id: nat, next: seq<State>)

  /** The explored graph: states in discovery order (the key order of the source's object) and their entries. */
  datatype Graph = Graph(order: seq<State>, entries: map<State, Entry>)

  /** Why an exploration stops without a graph. */
  datatype ExploreError =
    | NoLevels                  // `levels[0]` is undefined
    | MissingLevel(level: int)  // a victory state names a level with no board
    | TooManyStates(limit: nat) // more distinct states than the safety bound

  /** The states are numbered 1, 2, ... in discovery order, each number used by exactly one state. */
  ghost predicate IdsInDiscoveryOrder(g: Graph)
  {
    && (forall i {:trigger At(g, i)} :: 0 <= i < |g.order| ==> At(g, i) in g.entries && IdOf(g, At(g, i)) == i + 1)
    && (forall s {:trigger IdOf(g, s)} :: s in g.entries ==> 1 <= IdOf(g, s) <= |g.order| && g.order[IdOf(g, s) - 1] == s)
  }

  /** The state discovered `i + 1`-th. */
  function At(g: Graph, i: int): State
    requires 0 <= i < |g.order|
  {
    g.order[i]
  }

  /** The discovery number of a registered state. */
  function IdOf(g: Graph, s: State): int
    requires s in g.entries
  {
    g.entries[s].id
  }

  /** The edges recorded for the state discovered `j + 1`-th; none when there is no such entry. */
  function Succ(g: Graph, j: int): seq<State>
  {
    if 0 <= j < |g.order| && g.order[j] in g.entries then g.entries[g.order[j]].next else []
  }

  /** Every registered state records exactly four edges. */
  ghost predicate FourEdges(g: Graph)
  {
    forall s :: s in g.entries ==> |g.entries[s].next| == 4
  }

  /** Every edge leads to a registered state. */
  ghost predicate Closed(g: Graph)
  {
    forall s, i :: s in g.entries && 0 <= i < |g.entries[s].next| ==> g.entries[s].next[i] in g.entries
  }

  /** Four copies of one state. */
  function Four(s: State): (r: seq<State>)
    ensures |r| == 4 && forall i :: 0 <= i < 4 ==> r[i] == s
  {
    [s, s, s, s]
  }

  /** A victory state's four edges all lead to the start state of the level it names. */
  ghost predicate VictoryLinks(g: Graph, levels: seq<string>, startMsgs: seq<string>)
  {
    forall s :: s in g.entries && IsVictory(s) ==>
      0 <= s.level < |levels| && g.entries[s].next == Four(StartState(s.level, levels, startMsgs))
  }

  /** How far expanding `s` advances the pickup counter: once per gold move, never for a victory state. */
  function Spent(s: State, width: int): nat
  {
    if IsVictory(s) then 0 else GoldHits(s, width, Directions)
  }

  /** The pickup counter after expanding the states `xs` in turn, starting from 0. */
  function GoldSpent(xs: seq<State>, width: int): nat
    decreases |xs|
  {
    if |xs| == 0 then 0 else GoldSpent(xs[..|xs| - 1], width) + Spent(xs[|xs| - 1], width)
  }

  /** Expanding one more state adds its own gold moves to the counter. */
  lemma GoldSpentAppend(xs: seq<State>, x: State, width: int)
    ensures GoldSpent(xs + [x], width) == GoldSpent(xs, width) + Spent(x, width)
  {
    assert (xs + [x])[..|xs|] == xs;
  }

  /**
    Every non-victory state's edges are its four moves, run with the pickup
    counter that the expansions of all earlier discovered states left behind.
   */
  ghost predicate MovesLinks(g: Graph, width: int, goldMsgs: seq<string>)
  {
    forall i {:trigger At(g, i)} :: 0 <= i < |g.order| && !IsVictory(At(g, i)) ==>
      Succ(g, i) == StepOnceEachWay(At(g, i), width, GoldSpent(g.order[..i], width), goldMsgs).states
  }

  /** `s` is an edge of one of the first `n` discovered states. */
  ghost predicate FoundBefore(g: Graph, s: State, n: int)
  {
    exists j :: 0 <= j < n && s in Succ(g, j)
  }

  /** Every state after the first was found as an edge of a state discovered before it. */
  ghost predicate Reached(g: Graph)
  {
    forall i {:trigger At(g, i)} :: 0 < i < |g.order| ==> FoundBefore(g, At(g, i), i)
  }

  /** Every pending state is an edge of a registered state. */
  ghost predicate PendingReached(g: Graph, pending: seq<State>)
  {
    forall k :: 0 <= k < |pending| ==> FoundBefore(g, pending[k], |g.order|)
  }

  ghost predicate AllWellFormed(g: Graph)
  {
    forall s :: s in g.entries ==> WellFormed(s)
  }

  /** The graph after registering the new state `st` with edges `next` under the next number. */
  function Register(g: Graph, st: State, next: seq<State>): Graph
  {
    Graph(g.order + [st], g.entries[st := Entry(|g.order| + 1, next)])
  }

  /** Registering a new state keeps the numbering in discovery order. */
  lemma RegisterKeepsIds(g: Graph, st: State, next: seq<State>)
    requires IdsInDiscoveryOrder(g) && st !in g.entries
    ensures IdsInDiscoveryOrder(Register(g, st, next))
    ensures Register(g, st, next).entries[st].id == |g.order| + 1
  {
    var g' := Register(g, st, next);
    forall i | 0 <= i < |g'.order|
      ensures At(g', i) in g'.entries && IdOf(g', At(g', i)) == i + 1
    {
      if i < |g.order| {
        assert At(g', i) == At(g, i);
        assert At(g, i) in g.entries && IdOf(g, At(g, i)) == i + 1;
        assert At(g, i) != st;
      }
    }
    forall s | s in g'.entries
      ensures 1 <= IdOf(g', s) <= |g'.order| && g'.order[IdOf(g', s) - 1] == s
    {
      if s != st {
        assert g'.entries[s] == g.entries[s];
        assert 1 <= IdOf(g, s) <= |g.order| && g.order[IdOf(g, s) - 1] == s;
      }
    }
  }

  /** Registering adds `st` with edges `next` and changes no old entry. */
  lemma RegisterKeepsEntries(g: Graph, st: State, next: seq<State>)
    requires st !in g.entries
    ensures forall s :: s in g.entries ==>
              s in Register(g, st, next).entries && Register(g, st, next).entries[s] == g.entries[s]
    ensures Register(g, st, next).entries.Keys == g.entries.Keys + {st}
    ensures Register(g, st, next).entries[st].next == next
  {
  }

  /** Registering keeps the edges of every earlier discovered state and records `next` for the new one. */
  lemma RegisterKeepsSucc(g: Graph, st: State, next: seq<State>, j: int)
    requires IdsInDiscoveryOrder(g) && st !in g.entries && 0 <= j <= |g.order|
    ensures Succ(Register(g, st, next), j) == if j < |g.order| then Succ(g, j) else next
  {
    if j < |g.order| {
      assert At(g, j) in g.entries;
    }
  }

  lemma RegisterKeepsFourEdges(g: Graph, st: State, next: seq<State>)
    requires st !in g.entries && FourEdges(g) && |next| == 4
    ensures FourEdges(Register(g, st, next))
  {
    RegisterKeepsEntries(g, st, next);
  }

  lemma RegisterKeepsVictoryLinks(g: Graph, st: State, next: seq<State>, levels: seq<string>, startMsgs: seq<string>)
    requires st !in g.entries && VictoryLinks(g, levels, startMsgs)
    requires IsVictory(st) ==> 0 <= st.level < |levels| && next == Four(StartState(st.level, levels, startMsgs))
    ensures VictoryLinks(Register(g, st, next), levels, startMsgs)
  {
    RegisterKeepsEntries(g, st, next);
  }

  /** Registering a non-victory state with its moves from the current counter keeps `MovesLinks`. */
  lemma RegisterKeepsMoves(g: Graph, st: State, next: seq<State>, width: int, gold: nat, goldMsgs: seq<string>)
    requires IdsInDiscoveryOrder(g) && st !in g.entries && MovesLinks(g, width, goldMsgs)
    requires gold == GoldSpent(g.order, width)
    requires !IsVictory(st) ==> next == StepOnceEachWay(st, width, gold, goldMsgs).states
    ensures MovesLinks(Register(g, st, next), width, goldMsgs)
  {
    var g' := Register(g, st, next);
    forall i | 0 <= i < |g'.order| && !IsVictory(At(g', i))
      ensures Succ(g', i) == StepOnceEachWay(At(g', i), width, GoldSpent(g'.order[..i], width), goldMsgs).states
    {
      RegisterKeepsSucc(g, st, next, i);
      if i < |g.order| {
        assert At(g', i) == At(g, i);
        assert g'.order[..i] == g.order[..i];
      } else {
        assert At(g', i) == st;
        assert g'.order[..i] == g.order;
      }
    }
  }

  /** Registering a state found as an edge of an earlier one keeps every state reached. */
  lemma RegisterKeepsReached(g: Graph, st: State, next: seq<State>)
    requires IdsInDiscoveryOrder(g) && st !in g.entries && Reached(g)
    requires |g.order| > 0 ==> FoundBefore(g, st, |g.order|)
    ensures Reached(Register(g, st, next))
  {
    var g' := Register(g, st, next);
    forall i | 0 < i < |g'.order|
      ensures FoundBefore(g', At(g', i), i)
    {
      if i < |g.order| {
        var j :| 0 <= j < i && At(g, i) in Succ(g, j);
        RegisterKeepsSucc(g, st, next, j);
        assert At(g', i) == At(g, i);
        assert At(g', i) in Succ(g', j);
      } else {
        var j :| 0 <= j < |g.order| && st in Succ(g, j);
        RegisterKeepsSucc(g, st, next, j);
        assert At(g', i) == st;
        assert At(g', i) in Succ(g', j);
      }
    }
  }

  /** Popping `st`, registering it and pushing its edges keeps every pending state an edge of a registered one. */
  lemma RegisterKeepsPending(g: Graph, st: State, next: seq<State>, rest: seq<State>)
    requires IdsInDiscoveryOrder(g) && st !in g.entries
    requires |g.order| > 0 ==> PendingReached(g, rest + [st])
    requires |g.order| == 0 ==> rest == []
    ensures PendingReached(Register(g, st, next), rest + next)
  {
    var g' := Register(g, st, next);
    var p := rest + next;
    forall k | 0 <= k < |p|
      ensures FoundBefore(g', p[k], |g'.order|)
    {
      if k < |rest| {
        assert p[k] == (rest + [st])[k];
        var j :| 0 <= j < |g.order| && (rest + [st])[k] in Succ(g, j);
        RegisterKeepsSucc(g, st, next, j);
        assert p[k] in Succ(g', j);
      } else {
        RegisterKeepsSucc(g, st, next, |g.order|);
        assert p[k] == next[k - |rest|];
        assert p[k] in Succ(g', |g.order|);
      }
    }
  }

  /** Popping a state keeps the rest of the pending states reached. */
  lemma PendingDrop(g: Graph, st: State, rest: seq<State>)
    requires PendingReached(g, rest + [st])
    ensures PendingReached(g, rest)
  {
    forall k | 0 <= k < |rest|
      ensures FoundBefore(g, rest[k], |g.order|)
    {
      assert rest[k] == (rest + [st])[k];
      var j :| 0 <= j < |g.order| && (rest + [st])[k] in Succ(g, j);
      assert rest[k] in Succ(g, j);
    }
  }

  /** The state on top of a reached pending list is an edge of a registered state. */
  lemma TopReached(g: Graph, st: State, rest: seq<State>)
    requires PendingReached(g, rest + [st])
    ensures FoundBefore(g, st, |g.order|)
  {
    assert st == (rest + [st])[|rest|];
  }

  lemma RegisterKeepsWellFormed(g: Graph, st: State, next: seq<State>)
    requires st !in g.entries && AllWellFormed(g) && WellFormed(st)
    ensures AllWellFormed(Register(g, st, next))
  {
    RegisterKeepsEntries(g, st, next);
  }

  /** The most recently pushed state of a non-empty work list. */
  function Top(stack: seq<State>): State
    requires |stack| > 0
  {
    stack[|stack| - 1]
  }

  /** The work list after popping its top. */
  function Pop(stack: seq<State>): seq<State>
    requires |stack| > 0
  {
    stack[..|stack| - 1]
  }

  /** Pushing the top back onto the popped work list restores it. */
  lemma PopPush(stack: seq<State>)
    requires |stack| > 0
    ensures stack == Pop(stack) + [Top(stack)]
  {
  }

  /** Every state of a list is well formed. */
  ghost predicate AllWellFormedSeq(xs: seq<State>)
  {
    forall k :: 0 <= k < |xs| ==> WellFormed(xs[k])
  }

  lemma AllWellFormedConcat(a: seq<State>, b: seq<State>)
    ensures AllWellFormedSeq(a + b) <==> AllWellFormedSeq(a) && AllWellFormedSeq(b)
  {
    if AllWellFormedSeq(a + b) {
      forall k | 0 <= k < |a| ensures WellFormed(a[k]) {
        assert a[k] == (a + b)[k];
      }
      forall k | 0 <= k < |b| ensures WellFormed(b[k]) {
        assert b[k] == (a + b)[|a| + k];
      }
    }
    if AllWellFormedSeq(a) && AllWellFormedSeq(b) {
      forall k | 0 <= k < |a + b| ensures WellFormed((a + b)[k]) {
        if k < |a| {
          assert (a + b)[k] == a[k];
        } else {
          assert (a + b)[k] == b[k - |a|];
        }
      }
    }
  }

  /** Every edge leads to a registered state or to one still waiting in `pending`. */
  ghost predicate ClosedUpTo(g: Graph, pending: seq<State>)
  {
    forall s, i :: s in g.entries && 0 <= i < |g.entries[s].next| ==>
      g.entries[s].next[i] in g.entries || g.entries[s].next[i] in pending
  }

  /** Popping `st` and registering it with edges `next`, which are pushed, keeps every edge accounted for. */
  lemma RegisterKeepsClosure(g: Graph, st: State, next: seq<State>, rest: seq<State>)
    requires st !in g.entries && ClosedUpTo(g, rest + [st])
    ensures ClosedUpTo(Register(g, st, next), rest + next)
  {
    var g' := Register(g, st, next);
    RegisterKeepsEntries(g, st, next);
    forall s, i | s in g'.entries && 0 <= i < |g'.entries[s].next|
      ensures g'.entries[s].next[i] in g'.entries || g'.entries[s].next[i] in rest + next
    {
      if s != st {
        var t := g.entries[s].next[i];
        assert t in g.entries || t in rest + [st];
      }
    }
  }

  /** Popping an already registered state loses no edge. */
  lemma SkipKeepsClosure(g: Graph, st: State, rest: seq<State>)
    requires st in g.entries && ClosedUpTo(g, rest + [st])
    ensures ClosedUpTo(g, rest)
  {
    forall s, i | s in g.entries && 0 <= i < |g.entries[s].next|
      ensures g.entries[s].next[i] in g.entries || g.entries[s].next[i] in rest
    {
      var t := g.entries[s].next[i];
      assert t in g.entries || t in rest + [st];
    }
  }

  /**
    The loop invariant of the exploration: the graph built so far is numbered in
    discovery order, every entry has four edges of the right kind, every state
    was reached from an earlier one, every edge leads to a registered or still
    pending state, every pending state is an edge of a registered one, and every
    state seen is well formed.
   */
  ghost predicate Explored(g: Graph, pending: seq<State>, width: int, levels: seq<string>,
                           startMsgs: seq<string>, goldMsgs: seq<string>)
  {
    && IdsInDiscoveryOrder(g)
    && FourEdges(g)
    && ClosedUpTo(g, pending)
    && VictoryLinks(g, levels, startMsgs)
    && MovesLinks(g, width, goldMsgs)
    && Reached(g)
    && (|g.order| > 0 ==> PendingReached(g, pending))
    && AllWellFormed(g)
    && AllWellFormedSeq(pending)
  }

  /** The empty graph with only the start state pending. */
  lemma ExploredInitially(start: State, width: int, levels: seq<string>, startMsgs: seq<string>, goldMsgs: seq<string>)
    requires WellFormed(start)
    ensures Explored(Graph([], map[]), [start], width, levels, startMsgs, goldMsgs)
  {
  }

  /** Popping a state that is already registered keeps the invariant. */
  lemma ExploredSkip(g: Graph, stack: seq<State>, width: int, levels: seq<string>,
                     startMsgs: seq<string>, goldMsgs: seq<string>)
    requires |stack| > 0 && Explored(g, stack, width, levels, startMsgs, goldMsgs) && Top(stack) in g.entries
    ensures Explored(g, Pop(stack), width, levels, startMsgs, goldMsgs)
  {
    var st, rest := Top(stack), Pop(stack);
    PopPush(stack);
    SkipKeepsClosure(g, st, rest);
    AllWellFormedConcat(rest, [st]);
    if |g.order| > 0 {
      PendingDrop(g, st, rest);
    }
  }

  /**
    Popping a new state, registering it with well-formed edges of the right kind
    (its moves from the current counter unless it is a victory state) and
    pushing them keeps the invariant.
   */
  lemma ExploredRegister(g: Graph, stack: seq<State>, next: seq<State>, width: int, gold: nat,
                         levels: seq<string>, startMsgs: seq<string>, goldMsgs: seq<string>)
    requires |stack| > 0 && Explored(g, stack, width, levels, startMsgs, goldMsgs) && Top(stack) !in g.entries
    requires |g.order| == 0 ==> |stack| == 1
    requires gold == GoldSpent(g.order, width)
    requires |next| == 4 && AllWellFormedSeq(next)
    requires var st := Top(stack);
             IsVictory(st) ==> 0 <= st.level < |levels| && next == Four(StartState(st.level, levels, startMsgs))
    requires !IsVictory(Top(stack)) ==> next == StepOnceEachWay(Top(stack), width, gold, goldMsgs).states
    ensures Explored(Register(g, Top(stack), next), Pop(stack) + next, width, levels, startMsgs, goldMsgs)
  {
    var st, rest := Top(stack), Pop(stack);
    PopPush(stack);
    AllWellFormedConcat(rest, [st]);
    assert WellFormed([st][0]);
    if |g.order| > 0 {
      TopReached(g, st, rest);
    }
    RegisterKeepsIds(g, st, next);
    RegisterKeepsFourEdges(g, st, next);
    RegisterKeepsVictoryLinks(g, st, next, levels, startMsgs);
    RegisterKeepsMoves(g, st, next, width, gold, goldMsgs);
    RegisterKeepsReached(g, st, next);
    RegisterKeepsPending(g, st, next, rest);
    RegisterKeepsWellFormed(g, st, next);
    RegisterKeepsClosure(g, st, next, rest);
    AllWellFormedConcat(rest, next);
  }

  /** The top of a pending list whose states are all well formed is well formed. */
  lemma TopWellFormed(stack: seq<State>)
    requires |stack| > 0 && AllWellFormedSeq(stack)
    ensures WellFormed(Top(stack))
  {
  }

  /** The successors of a well-formed state are well formed when the pickup messages hold no delimiter. */
  lemma SuccessorsWellFormed(st: State, width: int, gold: nat, goldMsgs: seq<string>)
    ensures WellFormed(st) && NoSeparator(goldMsgs) ==> AllWellFormedSeq(StepOnceEachWay(st, width, gold, goldMsgs).states)
  {
    if WellFormed(st) && NoSeparator(goldMsgs) {
      StepAllWellFormed(st, width, Directions, gold, goldMsgs);
    }
  }

  /**
    The edges of a newly discovered state: the next level's start state four
    times for a victory state (an error when that level has no board), the four
    moves otherwise. The counter advances by the state's gold moves.
   */
  function Expand(st: State, width: int, gold: nat, levels: seq<string>, startMsgs: seq<string>,
                  goldMsgs: seq<string>): (r: Result<Successors, ExploreError>)
    ensures r.Failure? <==> IsVictory(st) && !(0 <= st.level < |levels|)
    ensures r.Failure? ==> r.error == MissingLevel(st.level)
    ensures r.Success? ==> |r.value.states| == 4 && r.value.gold == gold + Spent(st, width)
    ensures r.Success? && WellFormed(st) && NoSeparator(levels) && NoSeparator(startMsgs) && NoSeparator(goldMsgs) ==>
              AllWellFormedSeq(r.value.states)
    ensures r.Success? && IsVictory(st) ==> r.value.states == Four(StartState(st.level, levels, startMsgs))
    ensures !IsVictory(st) ==> r == Success(StepOnceEachWay(st, width, gold, goldMsgs))
  {
    if IsVictory(st) then
      if 0 <= st.level < |levels| then Success(Successors(Four(StartState(st.level, levels, startMsgs)), gold))
      else Failure(MissingLevel(st.level))
    else
      SuccessorsWellFormed(st, width, gold, goldMsgs);
      Success(StepOnceEachWay(st, width, gold, goldMsgs))
  }

  /**
    The work list of `explore` as a recursive definition: pop the most recently
    pushed state; skip it when it is registered; otherwise give up at the bound,
    fail when it is a victory state naming a missing level, or register it with
    its edges, push them and go on with the advanced counter.
   */
  function Drain(g: Graph, stack: seq<State>, gold: nat, width: int, levels: seq<string>, startMsgs: seq<string>,
                 goldMsgs: seq<string>, maxStates: nat): (r: Result<Graph, ExploreError>)
    requires |g.order| <= maxStates
    ensures r.Failure? ==> (r.error.MissingLevel? && !(0 <= r.error.level < |levels|)) || r.error == TooManyStates(maxStates)
    decreases maxStates - |g.order|, |stack|
  {
    if |stack| == 0 then Success(g)
    else
      var st := Top(stack);
      var rest := Pop(stack);
      if st in g.entries then Drain(g, rest, gold, width, levels, startMsgs, goldMsgs, maxStates)
      else if |g.order| == maxStates then Failure(TooManyStates(maxStates))
      else
        match Expand(st, width, gold, levels, startMsgs, goldMsgs)
        case Failure(e) => Failure(e)
        case Success(s) =>
          Drain(Register(g, st, s.states), rest + s.states, s.gold, width, levels, startMsgs, goldMsgs, maxStates)
  }

  /** With nothing pending the run is over. */
  lemma DrainDone(g: Graph, gold: nat, width: int, levels: seq<string>, startMsgs: seq<string>,
                  goldMsgs: seq<string>, maxStates: nat)
    requires |g.order| <= maxStates
    ensures Drain(g, [], gold, width, levels, startMsgs, goldMsgs, maxStates) == Success(g)
  {
  }

  /** A registered state on top is popped and skipped. */
  lemma DrainSkip(g: Graph, stack: seq<State>, gold: nat, width: int, levels: seq<string>,
                  startMsgs: seq<string>, goldMsgs: seq<string>, maxStates: nat)
    requires |g.order| <= maxStates && |stack| > 0 && Top(stack) in g.entries
    ensures Drain(g, stack, gold, width, levels, startMsgs, goldMsgs, maxStates)
         == Drain(g, Pop(stack), gold, width, levels, startMsgs, goldMsgs, maxStates)
  {
  }

  /** A new state on top when the bound is reached ends the run. */
  lemma DrainFull(g: Graph, stack: seq<State>, gold: nat, width: int, levels: seq<string>,
                  startMsgs: seq<string>, goldMsgs: seq<string>, maxStates: nat)
    requires |g.order| == maxStates && |stack| > 0 && Top(stack) !in g.entries
    ensures Drain(g, stack, gold, width, levels, startMsgs, goldMsgs, maxStates) == Failure(TooManyStates(maxStates))
  {
  }

  /** A new state on top below the bound is expanded: the run fails with the expansion or goes on from the registered graph. */
  lemma DrainExpand(g: Graph, stack: seq<State>, gold: nat, width: int, levels: seq<string>,
                    startMsgs: seq<string>, goldMsgs: seq<string>, maxStates: nat)
    requires |g.order| < maxStates && |stack| > 0 && Top(stack) !in g.entries
    ensures var e := Expand(Top(stack), width, gold, levels, startMsgs, goldMsgs);
            var r := Drain(g, stack, gold, width, levels, startMsgs, goldMsgs, maxStates);
            && (e.Failure? ==> r == Failure(e.error))
            && (e.Success? ==> r == Drain(Register(g, Top(stack), e.value.states), Pop(stack) + e.value.states,
                                          e.value.gold, width, levels, startMsgs, goldMsgs, maxStates))
  {
  }

  /**
    What a finished exploration promises about its graph: level 0's start state
    was discovered first, at most `maxStates` states were registered, the
    numbering follows discovery order, every later state was reached as an edge
    of an earlier one, every state has four edges that lead to registered
    states, victory states lead to the start of the level they name, every other
    state leads to its four moves run with the counter its predecessors in
    discovery order left behind, and all states are well formed.
   */
  ghost predicate ExploreOutcome(g: Graph, levels: seq<string>, width: int, startMsgs: seq<string>,
                                 goldMsgs: seq<string>, maxStates: nat)
  {
    && |levels| > 0
    && |g.order| >= 1
    && g.order[0] == StartState(0, levels, startMsgs)
    && |g.order| <= maxStates
    && IdsInDiscoveryOrder(g)
    && FourEdges(g)
    && Closed(g)
    && Reached(g)
    && VictoryLinks(g, levels, startMsgs)
    && MovesLinks(g, width, goldMsgs)
    && AllWellFormed(g)
  }

  /** When nothing is pending any more, the loop invariant gives the promised outcome. */
  lemma ExploreFinished(g: Graph, levels: seq<string>, width: int, startMsgs: seq<string>,
                        goldMsgs: seq<string>, maxStates: nat)
    requires |levels| > 0 && 1 <= |g.order| <= maxStates
    requires g.order[0] == StartState(0, levels, startMsgs)
    requires Explored(g, [], width, levels, startMsgs, goldMsgs)
    ensures ExploreOutcome(g, levels, width, startMsgs, goldMsgs, maxStates)
  {
    assert Closed(g) by {
      assert ClosedUpTo(g, []);
    }
  }

  /**
    The state of `explore`'s loop: at most `maxStates` registered states, the
    counter left by the expansions so far, the start state first (or still the
    only pending state), the exploration invariant, and the recursive run from
    here still ending in `outcome`.
   */
  ghost predicate Progress(g: Graph, stack: seq<State>, gold: nat, start: State, outcome: Result<Graph, ExploreError>,
                           width: int, levels: seq<string>, startMsgs: seq<string>, goldMsgs: seq<string>, maxStates: nat)
  {
    && |g.order| <= maxStates
    && Drain(g, stack, gold, width, levels, startMsgs, goldMsgs, maxStates) == outcome
    && gold == GoldSpent(g.order, width)
    && (|g.order| == 0 ==> stack == [start] && g.entries == map[])
    && (|g.order| > 0 ==> g.order[0] == start)
    && Explored(g, stack, width, levels, startMsgs, goldMsgs)
  }

  /** Before the loop: the empty graph, the start state pending, the counter at 0. */
  lemma ProgressInitially(start: State, width: int, levels: seq<string>, startMsgs: seq<string>,
                          goldMsgs: seq<string>, maxStates: nat)
    requires WellFormed(start)
    ensures var g := Graph([], map[]);
            Progress(g, [start], 0, start, Drain(g, [start], 0, width, levels, startMsgs, goldMsgs, maxStates),
                     width, levels, startMsgs, goldMsgs, maxStates)
  {
    ExploredInitially(start, width, levels, startMsgs, goldMsgs);
  }

  /** Popping a registered state keeps the loop state. */
  lemma ProgressSkip(g: Graph, stack: seq<State>, gold: nat, start: State, outcome: Result<Graph, ExploreError>,
                     width: int, levels: seq<string>, startMsgs: seq<string>, goldMsgs: seq<string>, maxStates: nat)
    requires Progress(g, stack, gold, start, outcome, width, levels, startMsgs, goldMsgs, maxStates)
    requires |stack| > 0 && Top(stack) in g.entries
    ensures Progress(g, Pop(stack), gold, start, outcome, width, levels, startMsgs, goldMsgs, maxStates)
  {
    DrainSkip(g, stack, gold, width, levels, startMsgs, goldMsgs, maxStates);
    ExploredSkip(g, stack, width, levels, startMsgs, goldMsgs);
  }

  /** A new state at the bound: the run ends with `TooManyStates`. */
  lemma ProgressFull(g: Graph, stack: seq<State>, gold: nat, start: State, outcome: Result<Graph, ExploreError>,
                     width: int, levels: seq<string>, startMsgs: seq<string>, goldMsgs: seq<string>, maxStates: nat)
    requires Progress(g, stack, gold, start, outcome, width, levels, startMsgs, goldMsgs, maxStates)
    requires |stack| > 0 && Top(stack) !in g.entries && |g.order| == maxStates
    ensures outcome == Failure(TooManyStates(maxStates))
  {
    DrainFull(g, stack, gold, width, levels, startMsgs, goldMsgs, maxStates);
  }

  /**
    Registering the popped new state with its edges `next`, pushing them and
    moving the counter on by the state's gold moves keeps the exploration
    invariant, the counter's relation to the states numbered so far, and the
    start state in first place.
   */
  lemma ProgressRegister(g: Graph, stack: seq<State>, gold: nat, start: State, next: seq<State>, gold': nat,
                         width: int, levels: seq<string>, startMsgs: seq<string>, goldMsgs: seq<string>)
    requires |stack| > 0 && Top(stack) !in g.entries
    requires Explored(g, stack, width, levels, startMsgs, goldMsgs)
    requires gold == GoldSpent(g.order, width)
    requires |g.order| == 0 ==> stack == [start]
    requires |g.order| > 0 ==> g.order[0] == start
    requires |next| == 4 && AllWellFormedSeq(next) && gold' == gold + Spent(Top(stack), width)
    requires var st := Top(stack);
             IsVictory(st) ==> 0 <= st.level < |levels| && next == Four(StartState(st.level, levels, startMsgs))
    requires !IsVictory(Top(stack)) ==> next == StepOnceEachWay(Top(stack), width, gold, goldMsgs).states
    ensures Explored(Register(g, Top(stack), next), Pop(stack) + next, width, levels, startMsgs, goldMsgs)
    ensures gold' == GoldSpent(Register(g, Top(stack), next).order, width)
    ensures Register(g, Top(stack), next).order[0] == start
  {
    ExploredRegister(g, stack, next, width, gold, levels, startMsgs, goldMsgs);
    RegisterCounterAndStart(g, Top(stack), next, gold, gold', start, width);
  }

  /**
    Registering `st` appends it to the discovery order: the counter moves on by
    its gold moves, and the first state stays the start state (or becomes it,
    when `st` is the first one registered).
   */
  lemma RegisterCounterAndStart(g: Graph, st: State, next: seq<State>, gold: nat, gold': nat, start: State, width: int)
    requires gold == GoldSpent(g.order, width) && gold' == gold + Spent(st, width)
    requires |g.order| == 0 ==> st == start
    requires |g.order| > 0 ==> g.order[0] == start
    ensures gold' == GoldSpent(Register(g, st, next).order, width)
    ensures Register(g, st, next).order[0] == start
  {
    GoldSpentAppend(g.order, st, width);
    if |g.order| == 0 {
      assert Register(g, st, next).order == [st];
    } else {
      assert Register(g, st, next).order[0] == g.order[0];
    }
  }

  /**
    A new state below the bound: a failed expansion is the run's outcome;
    otherwise registering the state, pushing its edges and advancing the counter
    keeps the loop state.
   */
  lemma ProgressExpand(g: Graph, stack: seq<State>, gold: nat, start: State, outcome: Result<Graph, ExploreError>,
                       width: int, levels: seq<string>, startMsgs: seq<string>, goldMsgs: seq<string>, maxStates: nat)
    requires NoSeparator(levels) && NoSeparator(startMsgs) && NoSeparator(goldMsgs)
    requires Progress(g, stack, gold, start, outcome, width, levels, startMsgs, goldMsgs, maxStates)
    requires |stack| > 0 && Top(stack) !in g.entries && |g.order| < maxStates
    ensures var e := Expand(Top(stack), width, gold, levels, startMsgs, goldMsgs);
            && (e.Failure? ==> outcome == Failure(e.error))
            && (e.Success? ==> Progress(Register(g, Top(stack), e.value.states), Pop(stack) + e.value.states, e.value.gold,
                                        start, outcome, width, levels, startMsgs, goldMsgs, maxStates))
  {
    TopWellFormed(stack);
    DrainExpand(g, stack, gold, width, levels, startMsgs, goldMsgs, maxStates);
    var e := Expand(Top(stack), width, gold, levels, startMsgs, goldMsgs);
    if e.Success? {
      ProgressRegister(g, stack, gold, start, e.value.states, e.value.gold, width, levels, startMsgs, goldMsgs);
    }
  }

  /** When nothing is pending any more, the run's outcome is the graph, and it has the promised shape. */
  lemma ProgressDone(g: Graph, gold: nat, start: State, outcome: Result<Graph, ExploreError>,
                     width: int, levels: seq<string>, startMsgs: seq<string>, goldMsgs: seq<string>, maxStates: nat)
    requires |levels| > 0 && start == StartState(0, levels, startMsgs)
    requires Progress(g, [], gold, start, outcome, width, levels, startMsgs, goldMsgs, maxStates)
    ensures outcome == Success(g)
    ensures ExploreOutcome(g, levels, width, startMsgs, goldMsgs, maxStates)
  {
    DrainDone(g, gold, width, levels, startMsgs, goldMsgs, maxStates);
    ExploreFinished(g, levels, width, startMsgs, goldMsgs, maxStates);
  }

  /**
    `explore`: from level 0's start state, pop the most recently pushed state;
    if it is new, number it, record its four successors and push them. The
    pickup counter starts at 0 for every run. `maxStates` bounds the number of
    distinct states; the source has no such bound. The result is exactly the
    recursive run `Drain` from the start state.
   */
  method Explore(levels: seq<string>, width: int, startMsgs: seq<string>, goldMsgs: seq<string>, maxStates: nat)
    returns (r: Result<Graph, ExploreError>)
    requires NoSeparator(levels) && NoSeparator(startMsgs) && NoSeparator(goldMsgs)
    ensures r == Failure(NoLevels) <==> |levels| == 0
    ensures |levels| > 0 ==>
              r == Drain(Graph([], map[]), [StartState(0, levels, startMsgs)], 0, width, levels, startMsgs, goldMsgs, maxStates)
    ensures r.Failure? && r.error.MissingLevel? ==> !(0 <= r.error.level < |levels|)
    ensures r.Success? ==> ExploreOutcome(r.value, levels, width, startMsgs, goldMsgs, maxStates)
  {
    if |levels| == 0 {
      return Failure(NoLevels);
    }
    var start := StartState(0, levels, startMsgs);
    var g := Graph([], map[]);
    var gold: nat := 0;
    var stack: seq<State> := [start];
    ghost var outcome := Drain(g, stack, gold, width, levels, startMsgs, goldMsgs, maxStates);
    ProgressInitially(start, width, levels, startMsgs, goldMsgs, maxStates);
    while |stack| > 0
      invariant Progress(g, stack, gold, start, outcome, width, levels, startMsgs, goldMsgs, maxStates)
      decreases maxStates - |g.order|, |stack|
    {
      if Top(stack) in g.entries {
        ProgressSkip(g, stack, gold, start, outcome, width, levels, startMsgs, goldMsgs, maxStates);
        stack := Pop(stack);
      } else {
        if |g.order| == maxStates {
          ProgressFull(g, stack, gold, start, outcome, width, levels, startMsgs, goldMsgs, maxStates);
          return Failure(TooManyStates(maxStates));
        }
        var expansion := Expand(Top(stack), width, gold, levels, startMsgs, goldMsgs);
        ProgressExpand(g, stack, gold, start, outcome, width, levels, startMsgs, goldMsgs, maxStates);
        if expansion.Failure? {
          return Failure(expansion.error);
        }
        g, stack, gold := Register(g, Top(stack), expansion.value.states), Pop(stack) + expansion.value.states,
                          expansion.value.gold;
      }
    }
    ProgressDone(g, gold, start, outcome, width, levels, startMsgs, goldMsgs, maxStates);
    return Success(g);
  }

  /** Victory chaining: all four edges of a victory state lead to one registered state, the start of the level it names. */
  lemma VictoryChaining(g: Graph, levels: seq<string>, startMsgs: seq<string>, s: State)
    requires Closed(g) && VictoryLinks(g, levels, startMsgs)
    requires s in g.entries && IsVictory(s)
    ensures 0 <= s.level < |levels|
    ensures var target := StartState(s.level, levels, startMsgs);
            && |g.entries[s].next| == 4
            && target in g.entries
            && forall i :: 0 <= i < 4 ==> g.entries[s].next[i] == target
  {
    assert g.entries[s].next[0] in g.entries;
  }

  /**
    The moves of a registered non-victory state, by key: its edges are its four
    moves run with the counter left by the states discovered before it.
   */
  lemma NonVictoryEdges(g: Graph, width: int, goldMsgs: seq<string>, s: State)
    requires IdsInDiscoveryOrder(g) && MovesLinks(g, width, goldMsgs)
    requires s in g.entries && !IsVictory(s)
    ensures var i := g.entries[s].id - 1;
            && 0 <= i < |g.order| && g.order[i] == s
            && g.entries[s].next == StepOnceEachWay(s, width, GoldSpent(g.order[..i], width), goldMsgs).states
  {
    var i := IdOf(g, s) - 1;
    assert At(g, i) == s;
  }

  /** Discovery numbers identify states: no two registered states share an id. */
  lemma IdsInjective(g: Graph, a: State, b: State)
    requires IdsInDiscoveryOrder(g) && a in g.entries && b in g.entries
    ensures g.entries[a].id == g.entries[b].id <==> a == b
  {
    assert g.order[IdOf(g, a) - 1] == a && g.order[IdOf(g, b) - 1] == b;
  }
}
