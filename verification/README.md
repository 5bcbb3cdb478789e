# Sokoban state-graph generator, modelled in Dafny

The generator takes a list of puzzle levels and explores every reachable board
state. Each level is a flat tile string of a fixed width, made of these tiles:

- `@` the player
- `#` a wall
- `.` floor
- `0` a boulder
- `^` a pit
- `$` gold
- `>` the stairs

The result is a graph: every state gets a number in discovery order and four
edges, one per move. A separate serializer later renders that graph as a
static HTML page; it is outside this model.

This project models the generator's core, `sokoban_generator.js`.

- **State key.** A state is the string `level|message|field`. `parseState` splits it again.
- **Coordinates.** `xy` and `pos` convert between a flat index and a column and row, using JavaScript's `%` and `Math.floor`.
- **`replacePos`.** It overwrites one character through `substr`. The model follows `substr`'s JavaScript clamping, including position -1, which `step` uses when there is no player.
- **The move rule `step`.**
  - stairs: the player walks on, the level goes up and the descend message is shown;
  - wall: nothing changes;
  - pit: nothing moves; a warning is shown below level 6;
  - boulder: it is blocked, pushed onto floor, or pushed into a pit, which it fills;
  - floor: the player walks on;
  - gold: the player walks on and the next pickup message is shown;
  - any other tile: nothing changes.
- **`stepOnceEachWay`.** The four moves `(-1, 0)`, `(0, -1)`, `(0, 1)`, `(1, 0)`: left, up, down, right, since a row index grows downwards. The comment above the function says "left, down, up, right", but `serializeStates` reads the successors as left, up, down, right.
- **`explore`.** A LIFO work list that registers each new state once, gives it the next number and records its four successors. A victory state, one whose key contains `You decend`, instead leads four times to the start state of the level it names.

Modules:

- **`Wrappers`**: `Option` and `Result`.
- **`JsText`**: the JavaScript string operations used:
  - `indexOf`
  - `substr`
  - `split` and `join`
  - `replace(/ /g, "")`
  - reading an array out of range, which gives `undefined` and is rendered as an empty string by `join`
  - decimal rendering of the level number
- **`Board`**: the `State` datatype and its key, `parseState`, `xy`/`pos`, tiles and level start states.
- **`Rules`**: `step`.
- **`Explorer`**: `stepOnceEachWay` and `explore`.

The source keeps the pickup counter `goldCount` in a global variable. The model
threads it through explicitly: `Step` takes it and returns it, `StepAll` passes
it from one move to the next, and `Explore` carries it across expansions
starting from 0.

Two message lists that the source reads from globals become parameters:

- the level-start messages `levelStartMsgs` (`startMsgs`);
- the pickup messages `goldMessages` (`goldMsgs`).

The level list `levels` is already a parameter of `explore`.

The model keys states by a `State` value instead of the joined string.
`SerializeInjective` shows that, for states whose components contain no `|`,
equal keys and equal states are the same thing.

Behaviours of the code that are easy to miss, all of which the model keeps:

- A wall, and any tile without a rule, returns the input state unchanged, message included. The message is not cleared (`WallKeepsMessageExample`).
- Pushing a boulder into a pit in the one-row board `@0^` leaves `.@.`, with the player standing on the cell the boulder left (`PitFillExample`).
- A state counts as a victory when `You decend` occurs anywhere in its key, not only when the player stands on stairs.
- A victory state naming a level that does not exist makes the code fail: `levels[level]` is `undefined`, and calling `replace` on it throws. There is no final terminal state, so the model returns `MissingLevel`.
- Field length and tile characters are not validated.

## Model

| member | source | states |
|---|---|---|
| JsText.IndexOf | sokoban_generator.js:200-201 | the player index is -1 exactly when the field has no `@`; otherwise it is the first `@` |
| JsText.ReplacePos | sokoban_generator.js:265-267 | inside the field the length is kept; at position -1 the character is prepended; past the end it is appended |
| JsText.ReplacePosIsSubstr | sokoban_generator.js:265-267 | for every position, the result equals `substr(0, p) + c + substr(p + 1)` under JavaScript's `substr` clamping |
| JsText.ReplacePosCells | sokoban_generator.js:265-267 | inside the field, position `p` holds the new character and every other position is unchanged |
| JsText.ReplacePosMultiset | sokoban_generator.js:265-267 | inside the field, one occurrence of the old character is traded for one of the new one |
| JsText.ReplacePosChars | sokoban_generator.js:265-267 | the result holds only characters of the input and the new character |
| JsText.SplitJoin | sokoban_generator.js:321-323 | splitting the joined pieces gives the pieces back, when no piece holds the separator |
| JsText.JoinSplit | sokoban_generator.js:321-323 | joining the split pieces gives the string back |
| JsText.RemoveSpaces | sokoban_generator.js:276 | no space is left; every other character keeps its count; the length drops by the number of spaces |
| JsText.RemoveSpacesNoop | sokoban_generator.js:276 | removing spaces from a board without spaces changes nothing, so removal is idempotent |
| JsText.RemoveSpacesAppend | sokoban_generator.js:276 | space removal distributes over concatenation, so the kept characters stay in order |
| JsText.Split | sokoban_generator.js:322 | `split` gives at least one piece and no piece contains the separator |
| JsText.OccursMatch | sokoban_generator.js:290 | the `indexOf(...) != -1` test holds exactly when some index of the key starts a copy of the pattern |
| JsText.IntToString | sokoban_generator.js:208 | the level renders as at least one character: decimal digits, with a leading `-` exactly for a negative level |
| JsText.IntToStringInjective | sokoban_generator.js:208 | different level numbers render as different key prefixes |
| Board.ParseState | sokoban_generator.js:321-323 | the parts are never empty and join back into the key |
| Board.ParseSerialize | sokoban_generator.js:321-323 | parsing a well-formed state's key gives exactly its level, message and field |
| Board.SerializeMessageAt | sokoban_generator.js:259 | a pickup message read past the end of the list (`undefined`, rendered as nothing by `join`) leaves two adjacent delimiters in the key; inside the list the message sits between the delimiters |
| Board.SerializeInjective | sokoban_generator.js:283 | for well-formed states, equal keys and equal states are the same thing |
| Board.JsRemValue | sokoban_generator.js:187 | JavaScript's truncating `%`: with `m` the width's magnitude, the index is a whole multiple of `m` plus the remainder, the remainder lies strictly between `-m` and `m`, and it is never of the opposite sign to the index; these fix the remainder for every index and every non-zero width |
| Board.Xy | sokoban_generator.js:186-188 | for a positive width and an index of 0 or more, the column lies in `[0, width)`, the row is not negative, and `pos` maps them back to the index |
| Board.XyPos | sokoban_generator.js:186-193 | `xy` undoes `pos` for a column inside the row and a row of 0 or more |
| Board.ReplacePosCount | sokoban_generator.js:265-267 | overwriting one cell moves one unit of count from the old tile to the new one |
| Board.StartState | sokoban_generator.js:276 | the start state of level `k` names level `k` and shows that level's start message (empty past the end of the list); its board holds no space and every other character of the level with its count; it is well formed when the inputs hold no key delimiter |
| Board.StartStateOrder | sokoban_generator.js:276 | the start board keeps the level's cells in order: the non-space character at index `i` sits at `i` minus the spaces before it |
| Rules.StepOutcomes | sokoban_generator.js:197-262 | a move keeps the level, or raises it by exactly one and then shows the descend message; the message shown is the previous one, the empty one, one of the three fixed texts or the counter's pickup message |
| Rules.StepZeroWidth | sokoban_generator.js:197-203 | with width 0 (NaN indices in the source) the state and counter come back unchanged |
| Rules.StepKeepsState | sokoban_generator.js:211-213 | a wall, an unhandled or off-field target, or a boulder with an unhandled cell beyond it returns the input state, message included, and the same counter |
| Rules.WallKeepsMessageExample | sokoban_generator.js:211-213 | a concrete move into a wall keeps the previous move's fill message |
| Rules.StepOntoStairs | sokoban_generator.js:205-209 | onto the stairs: the level goes up by one; the descend message is shown; the player is on the stairs and floor is where they stood; nothing else changes |
| Rules.StepFieldUnchanged | sokoban_generator.js:215-228 | a pit or a blocked boulder keeps the level and field; the pit warning appears exactly below level 6; a blocked push is silent |
| Rules.StepPushBoulder | sokoban_generator.js:230-235 | a push onto floor moves player and boulder one cell each, keeps boulder and player counts, clears the message and changes no other cell |
| Rules.StepFillPit | sokoban_generator.js:237-246 | a push into a pit leaves floor in both cells, removes one boulder and one pit, and shows the fill message exactly below level 6 |
| Rules.PitFillExample | sokoban_generator.js:237-246 | the board `@0^` moved right on level 0 becomes `.@.` with the fill message |
| Rules.StepOntoFloorOrGold | sokoban_generator.js:249-260 | floor and gold both move the player; gold shows the counter's message and advances the counter; floor clears the message |
| Rules.StepGoldCounter | sokoban_generator.js:256-260 | the counter advances by exactly one on a gold move and never otherwise; that move shows the counter's message |
| Rules.StepKeepsOnePlayer | sokoban_generator.js:197-262 | a board with one player keeps its length and exactly one player after any move |
| Rules.StepWellFormed | sokoban_generator.js:197-262 | no move puts the key delimiter into a state component, provided the pickup messages hold none |
| Explorer.StepOnceEachWay | sokoban_generator.js:271-273 | exactly four successors; the counter advances by the number of those moves that land on gold |
| Explorer.StepAllAt | sokoban_generator.js:272 | the `i`-th successor is `step` in the `i`-th direction, run with the counter after the gold found by the earlier moves |
| Explorer.StepAllGold | sokoban_generator.js:272 | mapping the moves advances the counter by the number of moves that land on gold |
| Explorer.StepOnceEachWayMoves | sokoban_generator.js:271-273 | successor `i` is the move by `(dx, dy)` = `(-1, 0)`, `(0, -1)`, `(0, 1)`, `(1, 0)` (left, up, down, right), with the counter after the earlier moves |
| Explorer.StepAllWellFormed | sokoban_generator.js:271-273 | every successor of a well-formed state is well formed |
| Explorer.DescendIsVictory | sokoban_generator.js:290 | a state showing the descend message is a victory state |
| Explorer.StairsLeadToVictory | sokoban_generator.js:205-209 | every move onto the stairs produces a victory state |
| Explorer.RegisterKeepsIds | sokoban_generator.js:297 | registering a new state gives it the next number and keeps the numbering in discovery order |
| Explorer.ExploredRegister | sokoban_generator.js:283-299 | registering a popped new state with its successors and pushing them keeps the exploration invariant |
| Explorer.Expand | sokoban_generator.js:289-295 | a victory state's edges are four copies of the named level's start state, or an error when that level does not exist; any other state's edges are its four moves |
| Explorer.Drain | sokoban_generator.js:278-301 | the work list as a recursive run (pop the newest state, skip it when registered, otherwise register it and push its edges); it fails only with `TooManyStates` at the bound or with `MissingLevel` for a level out of range |
| Explorer.Explore | sokoban_generator.js:275-302 | returns `NoLevels` exactly for an empty level list; otherwise its result is exactly the recursive run `Drain` from level 0's start state with the counter at 0, so failures happen exactly where that run fails and `MissingLevel` only names a level out of range. On success: level 0's start state comes first; the numbers follow discovery order; every later state is an edge of an earlier one; every state has four edges, all to registered states; victory states lead to the start of the level they name; every other state leads to its four moves run with the counter left by the gold moves of the states numbered before it |
| Explorer.ProgressExpand | sokoban_generator.js:283-299 | expanding a new state from the work list either is the run's failure or keeps the loop state: numbering, edges, reachability, counter and the remaining run |
| Explorer.VictoryChaining | sokoban_generator.js:289-292 | all four edges of a victory state lead to one registered state, the start state of the level it names |
| Explorer.NonVictoryEdges | sokoban_generator.js:293-297 | looked up by state, a registered non-victory state's edges are its four moves run with the counter left by the states numbered before it |
| Explorer.IdsInjective | sokoban_generator.js:297 | no two registered states share a number |

## Left out

- `template` and `serializeStates` (HTML rendering and base-36 link names) are not modelled. They only format the finished graph.
- Explorer.Explore: takes a `maxStates` bound and returns `TooManyStates` past it. The source has no bound, and termination for arbitrary levels is not claimed.
- Explorer.Explore: requires that no level, start message or pickup message contains `|`. The two message lists are constants in the source and hold no `|`. The level boards are not part of the file, so for them this is an assumption about the boards a caller passes. Without it, a key could split into more than three parts.
- Explorer.Expand: the `levels.length` test in the victory condition is left out. It is always true there, because the start state was built from `levels[0]`.
- The level is an integer, not the source's mix of string and number. `++level` on the parsed string and `level < 6` convert it to a number, and `levels[level]` indexes by the same digits. Renderings in exponent notation (levels of 10^21 and above) are not modelled.
- The unused `levels` argument that `stepOnceEachWay` passes to `step` is dropped.
- The HTML output is I/O and is not modelled. The file's `console.log` calls are all commented out, and the file has no top-level code that runs `explore`.
- Strings are sequences of Dafny characters, while JavaScript strings are UTF-16 code units. Every text in the source is ASCII, so indices and lengths agree; a level or message holding characters outside the Basic Multilingual Plane would index differently.
