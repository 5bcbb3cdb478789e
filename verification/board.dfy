/**
  Board codec: a configuration (level, transient message, flat field) and its
  canonical `level|message|field` key, plus the flat-index <-> x/y conversions
  and tile reads that the move rule uses.
 */
module Board {
  import opened Wrappers
  import opened JsText

  /** The delimiter of the canonical key. */
  const Sep: char := '|'

  /** One board instant. The source carries it as the joined string; equality of keys is captured by `SerializeInjective`. */
  datatype State = State(level: int, message: string, field: string)

  /** No component contains the delimiter, so splitting the key recovers the components. */
  predicate WellFormed(st: State)
  {
    Sep !in st.message && Sep !in st.field
  }

  /** No entry of a message or level list contains the delimiter. */
  predicate NoSeparator(texts: seq<string>)
  {
    forall k :: 0 <= k < |texts| ==> Sep !in texts[k]
  }

  /** `[level, message, field].join("|")`, the deduplication key of a state. */
  function Serialize(st: State): string
  {
    Join([IntToString(st.level), st.message, st.field], Sep)
  }

  /** `parseState`: the key split on every delimiter. */
  function ParseState(key: string): (parts: seq<string>)
    ensures |parts| >= 1
    ensures Join(parts, Sep) == key
  {
    JoinSplit(key, Sep);
    Split(key, Sep)
  }

  /** Parsing a well-formed state's key gives back exactly its three components. */
  lemma ParseSerialize(st: State)
    requires WellFormed(st)
    ensures ParseState(Serialize(st)) == [IntToString(st.level), st.message, st.field]
  {
    var parts := [IntToString(st.level), st.message, st.field];
    assert forall k :: 0 <= k < |parts[0]| ==> parts[0][k] != Sep;
    SplitJoin(parts, Sep);
  }

  /**
    The key of a state whose message is read out of a list: past the end (an
    `undefined` entry, which `join` renders as nothing) the two delimiters are
    adjacent; inside the list the entry sits between them.
   */
  lemma SerializeMessageAt(level: int, msgs: seq<string>, k: int, field: string)
    ensures !(0 <= k < |msgs|) ==> Serialize(State(level, MessageAt(msgs, k), field)) == IntToString(level) + [Sep, Sep] + field
    ensures 0 <= k < |msgs| ==> Serialize(State(level, MessageAt(msgs, k), field)) == IntToString(level) + [Sep] + msgs[k] + [Sep] + field
  {
    var parts := [IntToString(level), MessageAt(msgs, k), field];
    assert parts[1..] == [MessageAt(msgs, k), field] && parts[1..][1..] == [field];
    var m := MessageAt(msgs, k);
    assert Join([m, field], Sep) == m + [Sep] + field;
    assert Join(parts, Sep) == IntToString(level) + [Sep] + (m + [Sep] + field);
    assert m == [] ==> m + [Sep] + field == [Sep] + field;
  }

  /** For well-formed states, equal keys and equal states are the same thing. */
  lemma SerializeInjective(a: State, b: State)
    requires WellFormed(a) && WellFormed(b)
    ensures Serialize(a) == Serialize(b) <==> a == b
  {
    if Serialize(a) == Serialize(b) {
      ParseSerialize(a);
      ParseSerialize(b);
      IntToStringInjective(a.level, b.level);
    }
  }

  /** JavaScript `%`: the remainder takes the sign of the dividend. */
  function JsRem(a: int, b: int): (r: int)
    requires b != 0
    ensures a >= 0 ==> 0 <= r < if b > 0 then b else -b
    ensures a < 0 ==> r <= 0
  {
    var m := if b > 0 then b else -b;
    if a >= 0 then a % m else -((-a) % m)
  }

  /**
    `%` truncates toward zero: with `m` the magnitude of `b`, `a` is a whole
    multiple `q * m` plus the remainder, which lies strictly between `-m` and
    `m` and is never of the opposite sign to `a`. These fix the remainder.
   */
  lemma JsRemValue(a: int, b: int) returns (q: int)
    requires b != 0
    ensures var m := if b > 0 then b else -b;
            && a == q * m + JsRem(a, b)
            && -m < JsRem(a, b) < m
            && (a >= 0 ==> JsRem(a, b) >= 0)
            && (a <= 0 ==> JsRem(a, b) <= 0)
  {
    var m := if b > 0 then b else -b;
    if a < 0 {
      q := -((-a) / m);
      assert (-a) == (-a) / m * m + (-a) % m;
    } else {
      q := a / m;
    }
  }

  /** `Math.floor(a / b)`. */
  function FloorDiv(a: int, b: int): int
    requires b != 0
  {
    if b > 0 then a / b else (-a) / (-b)
  }

  /** `xy`: flat index to column and row for a given row width. */
  function Xy(index: int, width: int): (r: (int, int))
    requires width != 0
    ensures width > 0 && index >= 0 ==> 0 <= r.0 < width && 0 <= r.1 && Pos(r.0, r.1, width) == index
  {
    XyInRange(index, width);
    (JsRem(index, width), FloorDiv(index, width))
  }

  /** For a non-negative index and a positive width, `xy` lands inside the row and `pos` undoes it. */
  lemma XyInRange(index: int, width: int)
    requires width != 0
    ensures width > 0 && index >= 0 ==> 0 <= JsRem(index, width) < width && 0 <= FloorDiv(index, width)
    ensures width > 0 && index >= 0 ==> Pos(JsRem(index, width), FloorDiv(index, width), width) == index
  {
    if width > 0 && index >= 0 {
      DivMod(index, width);
      assert JsRem(index, width) == index % width;
      assert FloorDiv(index, width) == index / width;
    }
  }

  /** `pos`: column and row to flat index. */
  function Pos(x: int, y: int, width: int): int
  {
    x + y * width
  }

  lemma DivMod(a: int, w: int)
    requires w > 0
    ensures a == a / w * w + a % w && 0 <= a % w < w
    ensures a >= 0 ==> a / w >= 0
  {
  }

  lemma MulAtLeast(d: int, w: int)
    requires d >= 1 && w > 0
    ensures d * w >= w
  {
  }

  lemma MulSub(q: int, q': int, w: int)
    ensures (q - q') * w == q * w - q' * w
  {
  }

  lemma DivModUnique(a: int, w: int, q: int, r: int)
    requires w > 0 && 0 <= r < w && a == q * w + r
    ensures a / w == q && a % w == r
  {
    var q' := a / w;
    var r' := a % w;
    DivMod(a, w);
    MulSub(q, q', w);
    MulSub(q', q, w);
    assert (q - q') * w == r' - r;
    if q > q' {
      MulAtLeast(q - q', w);
    } else if q < q' {
      MulAtLeast(q' - q, w);
    }
  }

  /** The other direction of the xy/pos bijection: a column inside the row and a non-negative row come back unchanged. */
  lemma XyPos(x: int, y: int, width: int)
    requires width > 0 && 0 <= x < width && 0 <= y
    ensures Xy(Pos(x, y, width), width) == (x, y)
  {
    assert y * width >= 0;
    DivModUnique(Pos(x, y, width), width, y, x);
  }

  /** `field[i]` compared against a tile: `undefined` (None) outside the field. */
  function Tile(field: string, i: int): Option<char>
  {
    if 0 <= i < |field| then Some(field[i]) else None
  }

  /** How many cells of the field hold `c`. */
  function Count(field: string, c: char): nat
  {
    multiset(field)[c]
  }

  /** Overwriting cell `p` with `c` moves one unit of count from the old tile to `c`. */
  lemma ReplacePosCount(field: string, p: int, c: char, x: char)
    requires 0 <= p < |field|
    ensures Count(ReplacePos(field, p, c), x)
         == Count(field, x) - (if field[p] == x then 1 else 0) + (if c == x then 1 else 0)
  {
    ReplacePosMultiset(field, p, c);
  }

  /** The start state of level `k`: its introductory message and its board with authoring spaces removed. */
  function StartState(k: int, levels: seq<string>, startMsgs: seq<string>): (st: State)
    requires 0 <= k < |levels|
    ensures st.level == k
    ensures st.message == MessageAt(startMsgs, k)
    ensures ' ' !in st.field
    ensures forall c :: c != ' ' ==> multiset(st.field)[c] == multiset(levels[k])[c]
    ensures NoSeparator(levels) && NoSeparator(startMsgs) ==> WellFormed(st)
  {
    var field := RemoveSpaces(levels[k]);
    assert multiset(field)[Sep] == multiset(levels[k])[Sep];
    State(k, MessageAt(startMsgs, k), field)
  }

  /**
    The start board keeps the level's cells in order: the non-space character
    at index `i` of the level sits at `i` minus the number of spaces before it.
   */
  lemma StartStateOrder(k: int, levels: seq<string>, startMsgs: seq<string>, i: int)
    requires 0 <= k < |levels| && 0 <= i < |levels[k]| && levels[k][i] != ' '
    ensures var j := i - multiset(levels[k][..i])[' '];
            && 0 <= j < |StartState(k, levels, startMsgs).field|
            && StartState(k, levels, startMsgs).field[j] == levels[k][i]
  {
    var s := levels[k];
    var cell := [s[i]];
    assert s == s[..i] + (cell + s[i + 1..]);
    RemoveSpacesAppend(s[..i], cell + s[i + 1..]);
    RemoveSpacesAppend(cell, s[i + 1..]);
    assert RemoveSpaces(cell) == cell by {
      assert cell[1..] == [];
    }
  }
}
