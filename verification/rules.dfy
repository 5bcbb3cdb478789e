/**
  The move rule: one move of the player in direction (dx, dy), as a case
  analysis over the target cell and the cell one beyond it. The pickup
  counter that the source keeps in a global is threaded through explicitly.
 */
module Rules {
  import opened Wrappers
  import opened JsText
  import opened Board

  const Player: char := '@'
  const Wall: char := '#'
  const Floor: char := '.'
  const Boulder: char := '0'
  const Pit: char := '^'
  const Gold: char := '$'
  const Stairs: char := '>'

  const DescendMessage: string := "You decend the stairs... (Press any key.)"
  const PitWarning: string := "You narrowly avoid falling into a deep pit!"
  const FillMessage: string := "The boulder fills in the pit!"

  /** Hint messages are shown only below this level. */
  const HintLevelLimit: int := 6

  /** A new state and the pickup counter after the move. */
  datatype Moved = Moved(state: State, gold: nat)

  /** The hint `msg` on early levels, silence from `HintLevelLimit` on. */
  function Hint(level: int, msg: string): string
  {
    if level < HintLevelLimit then msg else ""
  }

  /** Index of the target cell: the player's cell shifted by (dx, dy) through `xy` and `pos`. */
  function TargetIndex(field: string, width: int, dx: int, dy: int): int
    requires width != 0
  {
    var (x, y) := Xy(IndexOf(field, Player), width);
    Pos(x + dx, y + dy, width)
  }

  /** Index of the cell one further in the same direction. */
  function BeyondIndex(field: string, width: int, dx: int, dy: int): int
    requires width != 0
  {
    var (x, y) := Xy(IndexOf(field, Player), width);
    Pos(x + dx * 2, y + dy * 2, width)
  }

  /** The player leaves `start` (now floor) and stands on `target`. */
  function Walk(field: string, start: int, target: int): string
  {
    ReplacePos(ReplacePos(field, start, Floor), target, Player)
  }

  /**
    The case analysis of `step` once the player's cell `start`, the target cell
    and the cell beyond are known. `Tile` is None where the source reads
    `undefined`.
   */
  function Resolve(st: State, start: int, target: int, beyond: int, gold: nat, goldMsgs: seq<string>): Moved
  {
    var f := st.field;
    var t := Tile(f, target);
    var b := Tile(f, beyond);
    if t == Some(Stairs) then
      Moved(State(st.level + 1, DescendMessage, Walk(f, start, target)), gold)
    else if t == Some(Wall) then
      Moved(st, gold)
    else if t == Some(Pit) then
      Moved(State(st.level, Hint(st.level, PitWarning), f), gold)
    else if t == Some(Boulder) && (b == Some(Boulder) || b == Some(Wall) || b == Some(Stairs)) then
      Moved(State(st.level, "", f), gold)
    else if t == Some(Boulder) && b == Some(Floor) then
      Moved(State(st.level, "", ReplacePos(Walk(f, start, target), beyond, Boulder)), gold)
    else if t == Some(Boulder) && b == Some(Pit) then
      Moved(State(st.level, Hint(st.level, FillMessage), ReplacePos(Walk(f, start, target), beyond, Floor)), gold)
    else if t == Some(Floor) then
      Moved(State(st.level, "", Walk(f, start, target)), gold)
    else if t == Some(Gold) then
      Moved(State(st.level, MessageAt(goldMsgs, gold), Walk(f, start, target)), gold + 1)
    else
      Moved(st, gold)
  }

  /**
    `step`. A width of 0 makes every index NaN in the source, so no tile test
    succeeds and the input comes back.
   */
  function Step(st: State, width: int, dx: int, dy: int, gold: nat, goldMsgs: seq<string>): Moved
  {
    if width == 0 then Moved(st, gold)
    else
      Resolve(st, IndexOf(st.field, Player), TargetIndex(st.field, width, dx, dy),
              BeyondIndex(st.field, width, dx, dy), gold, goldMsgs)
  }

  /**
    What any move can do to the level and the message: the level stays, or goes
    up by one together with the descend message; the message shown is the
    previous one, none, a fixed text, or the pickup message at the counter.
   */
  lemma StepOutcomes(st: State, width: int, dx: int, dy: int, gold: nat, goldMsgs: seq<string>)
    ensures var r := Step(st, width, dx, dy, gold, goldMsgs);
            && (r.state.level == st.level || (r.state.level == st.level + 1 && r.state.message == DescendMessage))
            && r.state.message in {st.message, "", DescendMessage, PitWarning, FillMessage, MessageAt(goldMsgs, gold)}
  {
  }

  /** A tile the move rule has a branch for. */
  predicate Handled(t: Option<char>)
  {
    t == Some(Stairs) || t == Some(Wall) || t == Some(Pit) || t == Some(Boulder) || t == Some(Floor) || t == Some(Gold)
  }

  /** A tile a boulder can be pushed onto or is blocked by. */
  predicate BoulderHandled(b: Option<char>)
  {
    b == Some(Boulder) || b == Some(Wall) || b == Some(Stairs) || b == Some(Floor) || b == Some(Pit)
  }

  /** The move targets a gold cell: the only move that consumes a pickup message. */
  predicate TargetsGold(st: State, width: int, dx: int, dy: int)
  {
    width != 0 && Tile(st.field, TargetIndex(st.field, width, dx, dy)) == Some(Gold)
  }

  /** Walking between two distinct cells of the field: floor behind, player ahead, nothing else touched. */
  lemma {:induction false} WalkCells(f: string, start: int, target: int)
    requires 0 <= start < |f| && 0 <= target < |f| && start != target
    ensures |Walk(f, start, target)| == |f|
    ensures Walk(f, start, target)[start] == Floor && Walk(f, start, target)[target] == Player
    ensures forall i :: 0 <= i < |f| && i != start && i != target ==> Walk(f, start, target)[i] == f[i]
  {
  }

  /** The count of each tile after a walk: the start and target tiles give way to floor and player. */
  lemma {:induction false} WalkCount(f: string, start: int, target: int, x: char)
    requires 0 <= start < |f| && 0 <= target < |f| && start != target
    ensures Count(Walk(f, start, target), x)
         == Count(f, x) - (if f[start] == x then 1 else 0) - (if f[target] == x then 1 else 0)
            + (if x == Floor then 1 else 0) + (if x == Player then 1 else 0)
  {
    var f1 := ReplacePos(f, start, Floor);
    ReplacePosCount(f, start, Floor, x);
    ReplacePosCount(f1, target, Player, x);
    assert f1[target] == f[target];
    if f[start] == x {
      assert x in multiset(f);
    }
  }

  /**
    The move leaves the state (message included) and the counter untouched when
    the target is a wall, is no handled tile (or off the field), or is a boulder
    whose beyond cell is no handled tile (or off the field).
   */
  lemma {:induction false} StepKeepsState(st: State, width: int, dx: int, dy: int, gold: nat, goldMsgs: seq<string>)
    requires width != 0
    requires var t := Tile(st.field, TargetIndex(st.field, width, dx, dy));
             var b := Tile(st.field, BeyondIndex(st.field, width, dx, dy));
             t == Some(Wall) || !Handled(t) || (t == Some(Boulder) && !BoulderHandled(b))
    ensures Step(st, width, dx, dy, gold, goldMsgs) == Moved(st, gold)
  {
  }

  /** With a zero width nothing ever moves. */
  lemma {:induction false} StepZeroWidth(st: State, dx: int, dy: int, gold: nat, goldMsgs: seq<string>)
    ensures Step(st, 0, dx, dy, gold, goldMsgs) == Moved(st, gold)
  {
  }

  /** Onto the stairs: next level, the descend message, player on the stairs, floor where the player stood. */
  lemma {:induction false} StepOntoStairs(st: State, width: int, dx: int, dy: int, gold: nat, goldMsgs: seq<string>)
    requires width != 0 && Player in st.field
    requires Tile(st.field, TargetIndex(st.field, width, dx, dy)) == Some(Stairs)
    ensures var r := Step(st, width, dx, dy, gold, goldMsgs);
            var start := IndexOf(st.field, Player);
            var target := TargetIndex(st.field, width, dx, dy);
            && r.gold == gold
            && r.state.level == st.level + 1
            && r.state.message == DescendMessage
            && |r.state.field| == |st.field|
            && r.state.field[target] == Player
            && r.state.field[start] == Floor
            && (forall i :: 0 <= i < |st.field| && i != start && i != target ==> r.state.field[i] == st.field[i])
  {
    WalkCells(st.field, IndexOf(st.field, Player), TargetIndex(st.field, width, dx, dy));
  }

  /**
    Onto floor or gold: same level, player on the target, floor where the player
    stood; gold shows the counter's message, floor clears the message.
   */
  lemma {:induction false} StepOntoFloorOrGold(st: State, width: int, dx: int, dy: int, gold: nat, goldMsgs: seq<string>)
    requires width != 0 && Player in st.field
    requires var t := Tile(st.field, TargetIndex(st.field, width, dx, dy));
             t == Some(Floor) || t == Some(Gold)
    ensures var r := Step(st, width, dx, dy, gold, goldMsgs);
            var start := IndexOf(st.field, Player);
            var target := TargetIndex(st.field, width, dx, dy);
            && r.state.level == st.level
            && (if st.field[target] == Gold then r.state.message == MessageAt(goldMsgs, gold) && r.gold == gold + 1
                else r.state.message == "" && r.gold == gold)
            && |r.state.field| == |st.field|
            && r.state.field[target] == Player
            && r.state.field[start] == Floor
            && (forall i :: 0 <= i < |st.field| && i != start && i != target ==> r.state.field[i] == st.field[i])
  {
    WalkCells(st.field, IndexOf(st.field, Player), TargetIndex(st.field, width, dx, dy));
  }

  /**
    Into a pit, or into a boulder blocked by a boulder, wall or stairs: the field
    and level stay; the pit warning appears exactly below the hint limit, the
    blocked push is silent.
   */
  lemma {:induction false} StepFieldUnchanged(st: State, width: int, dx: int, dy: int, gold: nat, goldMsgs: seq<string>)
    requires width != 0
    requires var t := Tile(st.field, TargetIndex(st.field, width, dx, dy));
             var b := Tile(st.field, BeyondIndex(st.field, width, dx, dy));
             t == Some(Pit) || (t == Some(Boulder) && (b == Some(Boulder) || b == Some(Wall) || b == Some(Stairs)))
    ensures var r := Step(st, width, dx, dy, gold, goldMsgs);
            && r.gold == gold
            && r.state.level == st.level
            && r.state.field == st.field
            && (Tile(st.field, TargetIndex(st.field, width, dx, dy)) == Some(Pit) ==>
                  (r.state.message == PitWarning <==> st.level < HintLevelLimit)
                  && (st.level >= HintLevelLimit ==> r.state.message == ""))
            && (Tile(st.field, TargetIndex(st.field, width, dx, dy)) == Some(Boulder) ==> r.state.message == "")
  {
  }

  /** The push branch of `Resolve`, over abstract indices. */
  lemma {:induction false} ResolvePush(st: State, start: int, target: int, beyond: int, gold: nat, goldMsgs: seq<string>)
    requires 0 <= start < |st.field| && st.field[start] == Player
    requires Tile(st.field, target) == Some(Boulder) && Tile(st.field, beyond) == Some(Floor)
    ensures var r := Resolve(st, start, target, beyond, gold, goldMsgs);
            && r.gold == gold && r.state.level == st.level && r.state.message == ""
            && |r.state.field| == |st.field|
            && r.state.field[start] == Floor
            && r.state.field[target] == Player
            && r.state.field[beyond] == Boulder
            && (forall i :: 0 <= i < |st.field| && i != start && i != target && i != beyond ==>
                  r.state.field[i] == st.field[i])
            && Count(r.state.field, Boulder) == Count(st.field, Boulder)
            && Count(r.state.field, Player) == Count(st.field, Player)
  {
    var f := st.field;
    var w := Walk(f, start, target);
    var r := Resolve(st, start, target, beyond, gold, goldMsgs);
    assert r.gold == gold && r.state.level == st.level && r.state.message == "";
    assert r.state.field == ReplacePos(w, beyond, Boulder);
    WalkCells(f, start, target);
    WalkCount(f, start, target, Boulder);
    WalkCount(f, start, target, Player);
    ReplacePosCount(w, beyond, Boulder, Boulder);
    ReplacePosCount(w, beyond, Boulder, Player);
  }

  /** The pit-filling branch of `Resolve`, over abstract indices. */
  lemma {:induction false} ResolveFill(st: State, start: int, target: int, beyond: int, gold: nat, goldMsgs: seq<string>)
    requires 0 <= start < |st.field| && st.field[start] == Player
    requires Tile(st.field, target) == Some(Boulder) && Tile(st.field, beyond) == Some(Pit)
    ensures var r := Resolve(st, start, target, beyond, gold, goldMsgs);
            && r.gold == gold && r.state.level == st.level && r.state.message == Hint(st.level, FillMessage)
            && |r.state.field| == |st.field|
            && r.state.field[start] == Floor
            && r.state.field[target] == Player
            && r.state.field[beyond] == Floor
            && (forall i :: 0 <= i < |st.field| && i != start && i != target && i != beyond ==>
                  r.state.field[i] == st.field[i])
            && Count(r.state.field, Boulder) == Count(st.field, Boulder) - 1
            && Count(r.state.field, Pit) == Count(st.field, Pit) - 1
            && Count(r.state.field, Player) == Count(st.field, Player)
  {
    var f := st.field;
    var w := Walk(f, start, target);
    var r := Resolve(st, start, target, beyond, gold, goldMsgs);
    assert r.gold == gold && r.state.level == st.level && r.state.message == Hint(st.level, FillMessage);
    assert r.state.field == ReplacePos(w, beyond, Floor);
    WalkCells(f, start, target);
    WalkCount(f, start, target, Boulder);
    WalkCount(f, start, target, Pit);
    WalkCount(f, start, target, Player);
    ReplacePosCount(w, beyond, Floor, Boulder);
    ReplacePosCount(w, beyond, Floor, Pit);
    ReplacePosCount(w, beyond, Floor, Player);
  }

  /** Pushing a boulder onto floor: player and boulder each advance one cell; boulder and player counts stay. */
  lemma {:induction false} StepPushBoulder(st: State, width: int, dx: int, dy: int, gold: nat, goldMsgs: seq<string>)
    requires width != 0 && Player in st.field
    requires Tile(st.field, TargetIndex(st.field, width, dx, dy)) == Some(Boulder)
    requires Tile(st.field, BeyondIndex(st.field, width, dx, dy)) == Some(Floor)
    ensures var r := Step(st, width, dx, dy, gold, goldMsgs);
            var start := IndexOf(st.field, Player);
            var target := TargetIndex(st.field, width, dx, dy);
            var beyond := BeyondIndex(st.field, width, dx, dy);
            && r.gold == gold
            && r.state.level == st.level
            && r.state.message == ""
            && |r.state.field| == |st.field|
            && r.state.field[start] == Floor
            && r.state.field[target] == Player
            && r.state.field[beyond] == Boulder
            && (forall i :: 0 <= i < |st.field| && i != start && i != target && i != beyond ==>
                  r.state.field[i] == st.field[i])
            && Count(r.state.field, Boulder) == Count(st.field, Boulder)
            && Count(r.state.field, Player) == Count(st.field, Player)
  {
    ResolvePush(st, IndexOf(st.field, Player), TargetIndex(st.field, width, dx, dy),
                BeyondIndex(st.field, width, dx, dy), gold, goldMsgs);
  }

  /** Pushing a boulder into a pit: both disappear, the pit becomes floor; the fill message shows exactly below the hint limit. */
  lemma {:induction false} StepFillPit(st: State, width: int, dx: int, dy: int, gold: nat, goldMsgs: seq<string>)
    requires width != 0 && Player in st.field
    requires Tile(st.field, TargetIndex(st.field, width, dx, dy)) == Some(Boulder)
    requires Tile(st.field, BeyondIndex(st.field, width, dx, dy)) == Some(Pit)
    ensures var r := Step(st, width, dx, dy, gold, goldMsgs);
            var start := IndexOf(st.field, Player);
            var target := TargetIndex(st.field, width, dx, dy);
            var beyond := BeyondIndex(st.field, width, dx, dy);
            && r.gold == gold
            && r.state.level == st.level
            && (r.state.message == FillMessage <==> st.level < HintLevelLimit)
            && (st.level >= HintLevelLimit ==> r.state.message == "")
            && |r.state.field| == |st.field|
            && r.state.field[start] == Floor
            && r.state.field[target] == Player
            && r.state.field[beyond] == Floor
            && (forall i :: 0 <= i < |st.field| && i != start && i != target && i != beyond ==>
                  r.state.field[i] == st.field[i])
            && Count(r.state.field, Boulder) == Count(st.field, Boulder) - 1
            && Count(r.state.field, Pit) == Count(st.field, Pit) - 1
            && Count(r.state.field, Player) == Count(st.field, Player)
  {
    ResolveFill(st, IndexOf(st.field, Player), TargetIndex(st.field, width, dx, dy),
                BeyondIndex(st.field, width, dx, dy), gold, goldMsgs);
  }

  /** The pickup counter advances by exactly one on a gold move and never otherwise; that move shows the counter's message. */
  lemma {:induction false} StepGoldCounter(st: State, width: int, dx: int, dy: int, gold: nat, goldMsgs: seq<string>)
    ensures var r := Step(st, width, dx, dy, gold, goldMsgs);
            && r.gold == gold + (if TargetsGold(st, width, dx, dy) then 1 else 0)
            && (TargetsGold(st, width, dx, dy) ==> r.state.message == MessageAt(goldMsgs, gold))
  {
  }

  /** The branches of `Resolve` that walk without pushing keep the field length and the single player. */
  lemma {:induction false} ResolveWalkKeepsOnePlayer(st: State, start: int, target: int, beyond: int, gold: nat, goldMsgs: seq<string>)
    requires Count(st.field, Player) == 1
    requires 0 <= start < |st.field| && st.field[start] == Player
    requires Tile(st.field, target) == Some(Stairs) || Tile(st.field, target) == Some(Floor) || Tile(st.field, target) == Some(Gold)
    ensures var r := Resolve(st, start, target, beyond, gold, goldMsgs);
            |r.state.field| == |st.field| && Count(r.state.field, Player) == 1
  {
    var f := st.field;
    var w := Walk(f, start, target);
    assert Resolve(st, start, target, beyond, gold, goldMsgs).state.field == w;
    WalkCells(f, start, target);
    WalkCount(f, start, target, Player);
  }

  /** `Resolve` keeps the field length and the single player whenever the player stands at `start`. */
  lemma {:induction false} ResolveKeepsOnePlayer(st: State, start: int, target: int, beyond: int, gold: nat, goldMsgs: seq<string>)
    requires Count(st.field, Player) == 1
    requires 0 <= start < |st.field| && st.field[start] == Player
    ensures var r := Resolve(st, start, target, beyond, gold, goldMsgs);
            |r.state.field| == |st.field| && Count(r.state.field, Player) == 1
  {
    var t := Tile(st.field, target);
    var b := Tile(st.field, beyond);
    if t == Some(Stairs) || t == Some(Floor) || t == Some(Gold) {
      ResolveWalkKeepsOnePlayer(st, start, target, beyond, gold, goldMsgs);
    } else if t == Some(Boulder) && b == Some(Floor) {
      ResolvePush(st, start, target, beyond, gold, goldMsgs);
    } else if t == Some(Boulder) && b == Some(Pit) {
      ResolveFill(st, start, target, beyond, gold, goldMsgs);
    } else {
      assert Resolve(st, start, target, beyond, gold, goldMsgs).state.field == st.field;
    }
  }

  /** With exactly one player on the board, every branch keeps the field length and exactly one player. */
  lemma {:induction false} StepKeepsOnePlayer(st: State, width: int, dx: int, dy: int, gold: nat, goldMsgs: seq<string>)
    requires Count(st.field, Player) == 1
    ensures var r := Step(st, width, dx, dy, gold, goldMsgs);
            && |r.state.field| == |st.field|
            && Count(r.state.field, Player) == 1
            && r.gold == gold + (if TargetsGold(st, width, dx, dy) then 1 else 0)
  {
    StepGoldCounter(st, width, dx, dy, gold, goldMsgs);
    if width != 0 {
      assert Player in multiset(st.field);
      ResolveKeepsOnePlayer(st, IndexOf(st.field, Player), TargetIndex(st.field, width, dx, dy),
                            BeyondIndex(st.field, width, dx, dy), gold, goldMsgs);
    }
  }

  /** `Resolve` never writes the key delimiter. */
  lemma {:induction false} ResolveWellFormed(st: State, start: int, target: int, beyond: int, gold: nat, goldMsgs: seq<string>)
    requires WellFormed(st) && NoSeparator(goldMsgs)
    ensures WellFormed(Resolve(st, start, target, beyond, gold, goldMsgs).state)
  {
    var f := st.field;
    MessagesWithoutSep(st.level, goldMsgs, gold);
    var w := Walk(f, start, target);
    ReplacePosChars(f, start, Floor);
    ReplacePosChars(ReplacePos(f, start, Floor), target, Player);
    assert Sep !in w;
    ReplacePosChars(w, beyond, Boulder);
    ReplacePosChars(w, beyond, Floor);
    assert Sep !in ReplacePos(w, beyond, Boulder) && Sep !in ReplacePos(w, beyond, Floor);
  }

  /**
    None of the messages a move can show contains the key delimiter. The three
    one-literal lemmas below exist only so that each string literal is checked
    in a proof of its own, which keeps the solver's work small.
   */
  lemma MessagesWithoutSep(level: int, goldMsgs: seq<string>, gold: nat)
    requires NoSeparator(goldMsgs)
    ensures Sep !in DescendMessage
    ensures Sep !in Hint(level, PitWarning) && Sep !in Hint(level, FillMessage)
    ensures Sep !in MessageAt(goldMsgs, gold) && Sep !in ""
  {
    DescendWithoutSep();
    PitWarningWithoutSep();
    FillWithoutSep();
  }

  lemma DescendWithoutSep()
    ensures Sep !in DescendMessage
  {
  }

  lemma PitWarningWithoutSep()
    ensures Sep !in PitWarning
  {
  }

  lemma FillWithoutSep()
    ensures Sep !in FillMessage
  {
  }

  /** No branch introduces the key delimiter, provided the pickup messages do not hold it. */
  lemma {:induction false} StepWellFormed(st: State, width: int, dx: int, dy: int, gold: nat, goldMsgs: seq<string>)
    requires WellFormed(st) && NoSeparator(goldMsgs)
    ensures WellFormed(Step(st, width, dx, dy, gold, goldMsgs).state)
  {
    if width != 0 {
      ResolveWellFormed(st, IndexOf(st.field, Player), TargetIndex(st.field, width, dx, dy),
                        BeyondIndex(st.field, width, dx, dy), gold, goldMsgs);
    }
  }

  /** One row `@0^`, moving right on level 0: the boulder fills the pit, leaving `.@.` and the fill message. */
  lemma PitFillExample(gold: nat, goldMsgs: seq<string>)
    ensures Step(State(0, "", "@0^"), 3, 1, 0, gold, goldMsgs) == Moved(State(0, FillMessage, ".@."), gold)
  {
    var st := State(0, "", "@0^");
    assert IndexOf(st.field, Player) == 0;
    XyPos(0, 0, 3);
    assert TargetIndex(st.field, 3, 1, 0) == 1 && BeyondIndex(st.field, 3, 1, 0) == 2;
    assert Tile(st.field, 1) == Some(Boulder) && Tile(st.field, 2) == Some(Pit);
    assert Step(st, 3, 1, 0, gold, goldMsgs) == Resolve(st, 0, 1, 2, gold, goldMsgs);
    var r := Resolve(st, 0, 1, 2, gold, goldMsgs);
    ResolveFill(st, 0, 1, 2, gold, goldMsgs);
    assert r.state.field == ".@.";
  }

  /** A wall keeps the whole state, including a message the previous move left behind. */
  lemma WallKeepsMessageExample(gold: nat, goldMsgs: seq<string>)
    ensures Step(State(2, FillMessage, "#@."), 3, -1, 0, gold, goldMsgs) == Moved(State(2, FillMessage, "#@."), gold)
  {
    var st := State(2, FillMessage, "#@.");
    assert IndexOf(st.field, Player) == 1;
    XyPos(1, 0, 3);
    assert TargetIndex(st.field, 3, -1, 0) == 0;
    assert Tile(st.field, 0) == Some(Wall);
    StepKeepsState(st, 3, -1, 0, gold, goldMsgs);
  }
}
