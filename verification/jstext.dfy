/**
  The JavaScript string and array primitives the generator relies on, with
  their exact behaviour on edge cases (negative or out-of-range positions,
  missing array entries), over `string` = `seq<char>`.
 */
module JsText {

  function Min(a: int, b: int): int { if a <= b then a else b }

  function Max(a: int, b: int): int { if a <= b then b else a }

  /** `s.indexOf(c)` for a single character: the first position of `c`, or -1. */
  function IndexOf(s: string, c: char): (r: int)
    ensures -1 <= r < |s|
    ensures r == -1 <==> c !in s
    ensures r >= 0 ==> s[r] == c && c !in s[..r]
  {
    if |s| == 0 then -1
    else if s[0] == c then 0
    else
      var k := IndexOf(s[1..], c);
      assert s == [s[0]] + s[1..];
      if k == -1 then -1
      else
        assert s[..k + 1] == [s[0]] + s[1..][..k];
        k + 1
  }

  /** Where `s.substr(start, …)` begins: a negative start counts back from the end; clamped into the string. */
  function SubstrStart(size: nat, start: int): (r: nat)
    ensures r <= size
    ensures 0 <= start <= size ==> r == start
  {
    if start < 0 then Max(size + start, 0) else Min(start, size)
  }

  /** `s.substr(start, length)`: at most `length` characters (none when negative) from the start offset. */
  function Substr(s: string, start: int, length: int): string
  {
    var from := SubstrStart(|s|, start);
    s[from .. Min(from + Max(length, 0), |s|)]
  }

  /** `s.substr(start)`: everything from the start offset on. */
  function SubstrFrom(s: string, start: int): string
  {
    s[SubstrStart(|s|, start)..]
  }

  /**
    `replacePos(s, p, c)`: inside the string it overwrites one character; at -1
    it prepends, past the end it appends, and further left it keeps only a tail
    of `s` (see `ReplacePosIsSubstr` for the source's formula).
   */
  function ReplacePos(s: string, p: int, c: char): (r: string)
    ensures 0 <= p < |s| ==> |r| == |s|
    ensures p == -1 ==> r == [c] + s
    ensures p >= |s| ==> r == s + [c]
  {
    if 0 <= p < |s| then s[p := c]
    else if p >= |s| then s + [c]
    else if p == -1 then [c] + s
    else [c] + s[Max(|s| + p + 1, 0)..]
  }

  /** Inside the string: `c` at `p`, every other position unchanged. */
  lemma ReplacePosCells(s: string, p: int, c: char)
    requires 0 <= p < |s|
    ensures |ReplacePos(s, p, c)| == |s| && ReplacePos(s, p, c)[p] == c
    ensures forall i :: 0 <= i < |s| && i != p ==> ReplacePos(s, p, c)[i] == s[i]
  {
  }

  /** `ReplacePos` is exactly `s.substr(0, p) + c + s.substr(p + 1)`, for every position. */
  lemma ReplacePosIsSubstr(s: string, p: int, c: char)
    ensures ReplacePos(s, p, c) == Substr(s, 0, p) + [c] + SubstrFrom(s, p + 1)
  {
    if 0 <= p < |s| {
      assert s[p := c] == s[..p] + [c] + s[p + 1..];
    }
  }

  /** Whatever the position, the result holds only characters of `s` and `c`. */
  lemma ReplacePosChars(s: string, p: int, c: char)
    ensures forall x :: x in ReplacePos(s, p, c) ==> x in s || x == c
  {
  }

  /** Overwriting one position inside the string trades one occurrence of the old character for one of `c`. */
  lemma ReplacePosMultiset(s: string, p: int, c: char)
    requires 0 <= p < |s|
    ensures multiset(ReplacePos(s, p, c)) == multiset(s) - multiset{s[p]} + multiset{c}
  {
    assert s == s[..p] + [s[p]] + s[p + 1..];
    assert ReplacePos(s, p, c) == s[..p] + [c] + s[p + 1..];
  }

  /** `s.split(sep)`: the pieces between separators, always at least one (possibly empty). */
  function Split(s: string, sep: char): (parts: seq<string>)
    ensures |parts| >= 1
    ensures forall i :: 0 <= i < |parts| ==> sep !in parts[i]
  {
    if |s| == 0 then [""]
    else if s[0] == sep then [""] + Split(s[1..], sep)
    else
      var rest := Split(s[1..], sep);
      [[s[0]] + rest[0]] + rest[1..]
  }

  /** `parts.join(sep)`: the pieces with one separator between neighbours. */
  function Join(parts: seq<string>, sep: char): string
    requires |parts| >= 1
  {
    if |parts| == 1 then parts[0] else parts[0] + [sep] + Join(parts[1..], sep)
  }

  /** Splitting a piece that holds no separator, followed by a separator, peels that piece off. */
  lemma {:induction false} SplitPeel(a: string, sep: char, rest: string)
    requires sep !in a
    ensures Split(a + [sep] + rest, sep) == [a] + Split(rest, sep)
    decreases |a|
  {
    if |a| == 0 {
      assert a + [sep] + rest == [sep] + rest;
      assert ([sep] + rest)[1..] == rest;
    } else {
      var s := a + [sep] + rest;
      assert s[0] == a[0];
      assert s[1..] == a[1..] + [sep] + rest;
      SplitPeel(a[1..], sep, rest);
      assert [a[0]] + a[1..] == a;
    }
  }

  /** Splitting a string without separators gives the string itself. */
  lemma {:induction false} SplitSingle(a: string, sep: char)
    requires sep !in a
    ensures Split(a, sep) == [a]
    decreases |a|
  {
    if |a| > 0 {
      SplitSingle(a[1..], sep);
      assert [a[0]] + a[1..] == a;
    }
  }

  /** Split undoes Join whenever no piece contains the separator. */
  lemma {:induction false} SplitJoin(parts: seq<string>, sep: char)
    requires |parts| >= 1
    requires forall i :: 0 <= i < |parts| ==> sep !in parts[i]
    ensures Split(Join(parts, sep), sep) == parts
    decreases |parts|
  {
    if |parts| == 1 {
      SplitSingle(parts[0], sep);
    } else {
      SplitJoin(parts[1..], sep);
      SplitPeel(parts[0], sep, Join(parts[1..], sep));
      assert [parts[0]] + parts[1..] == parts;
    }
  }

  /** Join undoes Split: splitting loses nothing. */
  lemma {:induction false} JoinSplit(s: string, sep: char)
    ensures Join(Split(s, sep), sep) == s
    decreases |s|
  {
    if |s| > 0 {
      JoinSplit(s[1..], sep);
      var rest := Split(s[1..], sep);
      if s[0] == sep {
        assert ([""] + rest)[1..] == rest;
        assert Join([""] + rest, sep) == [sep] + Join(rest, sep);
        assert [s[0]] + s[1..] == s;
      } else {
        var parts := [[s[0]] + rest[0]] + rest[1..];
        assert parts[1..] == rest[1..];
        if |rest| == 1 {
          assert Join(parts, sep) == [s[0]] + rest[0];
        } else {
          assert Join(rest, sep) == rest[0] + [sep] + Join(rest[1..], sep);
          assert Join(parts, sep) == [s[0]] + rest[0] + [sep] + Join(rest[1..], sep);
        }
        assert [s[0]] + s[1..] == s;
      }
    }
  }

  /** `s.indexOf(pat) != -1`: `pat` occurs somewhere in `s`. */
  predicate Occurs(pat: string, s: string)
    decreases |s|
  {
    pat <= s || (|s| > 0 && Occurs(pat, s[1..]))
  }

  /** `pat` sits in `s` starting at index `i`. */
  predicate MatchAt(pat: string, s: string, i: int)
  {
    0 <= i && i + |pat| <= |s| && s[i..i + |pat|] == pat
  }

  /** `Occurs` agrees with the index-based reading of `indexOf(pat) != -1`: some index starts a copy of `pat`. */
  lemma {:induction false} OccursMatch(pat: string, s: string)
    ensures Occurs(pat, s) <==> exists i :: MatchAt(pat, s, i)
    decreases |s|
  {
    if Occurs(pat, s) {
      if pat <= s {
        assert MatchAt(pat, s, 0);
      } else {
        OccursMatch(pat, s[1..]);
        var i :| MatchAt(pat, s[1..], i);
        var a, b := s[1..][i..i + |pat|], s[i + 1..i + 1 + |pat|];
        forall k | 0 <= k < |pat| ensures a[k] == b[k] {
          assert a[k] == s[i + 1 + k] == b[k];
        }
        assert a == b;
        assert MatchAt(pat, s, i + 1);
      }
    }
    if exists i :: MatchAt(pat, s, i) {
      var i :| MatchAt(pat, s, i);
      if i == 0 {
        assert pat <= s;
      } else {
        var a, b := s[1..][i - 1..i - 1 + |pat|], s[i..i + |pat|];
        forall k | 0 <= k < |pat| ensures a[k] == b[k] {
          assert a[k] == s[i + k] == b[k];
        }
        assert a == b;
        assert MatchAt(pat, s[1..], i - 1);
        OccursMatch(pat, s[1..]);
      }
    }
  }

  /** A pattern that starts a middle piece occurs in the whole. */
  lemma {:induction false} OccursInside(pat: string, before: string, middle: string, after: string)
    requires pat <= middle
    ensures Occurs(pat, before + middle + after)
    decreases |before|
  {
    var s := before + middle + after;
    if |before| == 0 {
      assert s == middle + after;
      assert s[..|pat|] == middle[..|pat|];
    } else {
      OccursInside(pat, before[1..], middle, after);
      assert s[1..] == before[1..] + middle + after;
    }
  }

  /** The entry at `k`, or "" where JavaScript reads `undefined` (which `join` renders as empty). */
  function MessageAt(msgs: seq<string>, k: int): string
  {
    if 0 <= k < |msgs| then msgs[k] else ""
  }

  /** `s.replace(/ /g, "")`: every space removed, everything else kept in order. */
  function RemoveSpaces(s: string): (r: string)
    ensures ' ' !in r
    ensures forall c :: c != ' ' ==> multiset(r)[c] == multiset(s)[c]
    ensures |r| == |s| - multiset(s)[' ']
  {
    if |s| == 0 then ""
    else
      assert s == [s[0]] + s[1..];
      (if s[0] == ' ' then "" else [s[0]]) + RemoveSpaces(s[1..])
  }

  /** Removing spaces from a string without spaces changes nothing, so the removal is idempotent. */
  lemma {:induction false} RemoveSpacesNoop(s: string)
    requires ' ' !in s
    ensures RemoveSpaces(s) == s
    decreases |s|
  {
    if |s| > 0 {
      assert s[0] != ' ' by {
        assert s[0] in s;
      }
      assert ' ' !in s[1..] by {
        assert s == [s[0]] + s[1..];
      }
      RemoveSpacesNoop(s[1..]);
      assert RemoveSpaces(s) == [s[0]] + RemoveSpaces(s[1..]);
      assert [s[0]] + s[1..] == s;
    }
  }

  /** Space removal distributes over concatenation (it keeps the order of the kept characters). */
  lemma {:induction false} RemoveSpacesAppend(a: string, b: string)
    ensures RemoveSpaces(a + b) == RemoveSpaces(a) + RemoveSpaces(b)
    decreases |a|
  {
    if |a| > 0 {
      var head := if a[0] == ' ' then "" else [a[0]];
      assert (a + b)[1..] == a[1..] + b;
      assert RemoveSpaces(a + b) == head + RemoveSpaces(a[1..] + b);
      assert RemoveSpaces(a) == head + RemoveSpaces(a[1..]);
      RemoveSpacesAppend(a[1..], b);
    } else {
      assert a + b == b;
    }
  }

  function Digit(d: int): char
    requires 0 <= d < 10
  {
    "0123456789"[d]
  }

  predicate IsDigit(c: char) { '0' <= c <= '9' }

  /** Decimal rendering of a natural number, as `String(n)` gives for integers. */
  function NatToString(n: nat): (r: string)
    ensures |r| >= 1
    ensures |r| == 1 <==> n < 10
    ensures forall i :: 0 <= i < |r| ==> IsDigit(r[i])
    decreases n
  {
    if n < 10 then [Digit(n)] else NatToString(n / 10) + [Digit(n % 10)]
  }

  /** Decimal rendering of an integer, with a leading '-' when negative. */
  function IntToString(i: int): (r: string)
    ensures |r| >= 1
    ensures forall k :: 0 < k < |r| ==> IsDigit(r[k])
    ensures IsDigit(r[0]) <==> i >= 0
    ensures i < 0 ==> r[0] == '-'
  {
    if i < 0 then "-" + NatToString(-i) else NatToString(i)
  }

  lemma DigitInjective(a: int, b: int)
    requires 0 <= a < 10 && 0 <= b < 10
    requires Digit(a) == Digit(b)
    ensures a == b
  {
  }

  /** Different naturals render differently. */
  lemma {:induction false} NatToStringInjective(a: nat, b: nat)
    requires NatToString(a) == NatToString(b)
    ensures a == b
    decreases a
  {
    var s := NatToString(a);
    if a < 10 && b < 10 {
      DigitInjective(a, b);
    } else if a >= 10 && b >= 10 {
      var sa := NatToString(a / 10);
      var sb := NatToString(b / 10);
      assert s[..|s| - 1] == sa;
      assert NatToString(b)[..|s| - 1] == sb;
      NatToStringInjective(a / 10, b / 10);
      DigitInjective(a % 10, b % 10);
    }
  }

  /** Different integers render differently, so the level part of a state key identifies the level. */
  lemma IntToStringInjective(a: int, b: int)
    requires IntToString(a) == IntToString(b)
    ensures a == b
  {
    if a < 0 && b < 0 {
      assert NatToString(-a) == IntToString(a)[1..];
      assert NatToString(-b) == IntToString(b)[1..];
      NatToStringInjective(-a, -b);
    } else if a >= 0 && b >= 0 {
      NatToStringInjective(a, b);
    }
  }
}
