/**
 * The bracket scan shared by the array and object length calculations
 * (`je_len_calc` of `arr_elem` and `obj_elem`): find the first opening
 * bracket at or after the start, then count depth from 1 and stop where it
 * returns to 0. Every bracket character counts, including those inside
 * quoted strings.
 */
module Brackets {
  import opened Text

  /** Outcome of a bracket scan. */
  datatype Scan = NoOpen | Unbalanced | Matched(open: nat, close: nat)

  /** Change of depth caused by one character. */
  function Delta(c: char, open: char, close: char): int
  {
    if c == open then 1 else if c == close then -1 else 0
  }

  /** Opening minus closing brackets in `t`. */
  function Balance(t: string, open: char, close: char): int
  {
    if t == [] then 0 else Delta(t[0], open, close) + Balance(t[1..], open, close)
  }

  /**
   * Index at or after `i` where the depth, `depth` just before `i`, first
   * drops to 0.
   */
  function MatchClose(s: string, open: char, close: char, i: nat, depth: nat): (r: Option<nat>)
    requires i <= |s| && depth >= 1
    ensures r.Some? ==> i <= r.value < |s|
    decreases |s| - i
  {
    if i == |s| then None
    else
      var d := depth + Delta(s[i], open, close);
      if d == 0 then Some(i) else MatchClose(s, open, close, i + 1, d)
  }

  /** The whole scan from `start`. */
  function BracketScan(s: string, open: char, close: char, start: nat): Scan
    requires start <= |s|
  {
    match Find(s, open, start)
    case None => NoOpen
    case Some(o) =>
      match MatchClose(s, open, close, o + 1, 1)
      case None => Unbalanced
      case Some(c) => Matched(o, c)
  }

  /**
   * The two loops of `je_len_calc` (arrays and objects alike): find the
   * opening bracket, then count from depth 1 until the depth is back at 0.
   */
  method ScanBrackets(s: string, open: char, close: char, start: nat) returns (r: Scan)
    requires start <= |s|
    ensures r == BracketScan(s, open, close, start)
  {
    var i := start;
    while i < |s|
      invariant start <= i <= |s|
      invariant forall j :: start <= j < i ==> s[j] != open
    {
      if s[i] == open {
        break;
      }
      i := i + 1;
    }
    if i == |s| {
      return NoOpen;
    }
    var o := i;
    var bcount: int := 1;
    i := i + 1;
    while i < |s|
      invariant o + 1 <= i <= |s| && bcount >= 1
      invariant MatchClose(s, open, close, i, bcount) == MatchClose(s, open, close, o + 1, 1)
    {
      if s[i] == open {
        bcount := bcount + 1;
      } else if s[i] == close {
        bcount := bcount - 1;
      }
      if bcount == 0 {
        break;
      }
      i := i + 1;
    }
    if bcount != 0 {
      return Unbalanced;
    }
    return Matched(o, i);
  }

  /** Balance of a slice one character longer at the front. */
  lemma BalanceFront(s: string, open: char, close: char, i: nat, j: nat)
    requires i < j <= |s|
    ensures Balance(s[i..j], open, close) == Delta(s[i], open, close) + Balance(s[i + 1..j], open, close)
  {
    assert s[i..j][1..] == s[i + 1..j];
  }

  /**
   * Where the depth first returns to 0, the character is a closing bracket,
   * the net count up to and including it cancels the starting depth, and
   * before it the depth stays positive.
   */
  lemma {:induction false} MatchCloseDepth(s: string, open: char, close: char, i: nat, depth: nat)
    requires open != close
    requires i <= |s| && depth >= 1 && MatchClose(s, open, close, i, depth).Some?
    ensures var c := MatchClose(s, open, close, i, depth).value;
      i <= c < |s| && s[c] == close &&
      depth + Balance(s[i..c + 1], open, close) == 0 &&
      forall m :: i <= m <= c ==> depth + Balance(s[i..m], open, close) >= 1
    decreases |s| - i
  {
    var c := MatchClose(s, open, close, i, depth).value;
    var d := depth + Delta(s[i], open, close);
    BalanceFront(s, open, close, i, c + 1);
    assert Balance(s[i..i], open, close) == 0;
    if d == 0 {
      assert c == i;
      assert s[i + 1..c + 1] == [];
    } else {
      MatchCloseDepth(s, open, close, i + 1, d);
      forall m | i < m <= c
        ensures depth + Balance(s[i..m], open, close) >= 1
      {
        BalanceFront(s, open, close, i, m);
      }
    }
  }

  /**
   * A successful scan spans from the first opening bracket at or after the
   * start to its matching closing bracket: the span balances, and every
   * non-empty proper prefix of it has more opening than closing brackets.
   */
  lemma ScanBalanced(s: string, open: char, close: char, start: nat)
    requires open != close && start <= |s|
    requires BracketScan(s, open, close, start).Matched?
    ensures var Matched(o, c) := BracketScan(s, open, close, start);
      start <= o < c < |s| && s[o] == open && s[c] == close &&
      (forall j :: start <= j < o ==> s[j] != open) &&
      Balance(s[o..c + 1], open, close) == 0 &&
      forall m :: o < m <= c ==> Balance(s[o..m], open, close) > 0
  {
    var Matched(o, c) := BracketScan(s, open, close, start);
    MatchCloseDepth(s, open, close, o + 1, 1);
    BalanceFront(s, open, close, o, c + 1);
    forall m | o < m <= c
      ensures Balance(s[o..m], open, close) > 0
    {
      BalanceFront(s, open, close, o, m);
    }
  }

  /**
   * When the depth never returns to 0, it stays positive at every index up
   * to the end of the string.
   */
  lemma {:induction false} MatchCloseNone(s: string, open: char, close: char, i: nat, depth: nat)
    requires i <= |s| && depth >= 1 && MatchClose(s, open, close, i, depth).None?
    ensures forall m :: i <= m <= |s| ==> depth + Balance(s[i..m], open, close) >= 1
    decreases |s| - i
  {
    assert Balance(s[i..i], open, close) == 0;
    if i < |s| {
      var d := depth + Delta(s[i], open, close);
      MatchCloseNone(s, open, close, i + 1, d);
      forall m | i < m <= |s|
        ensures depth + Balance(s[i..m], open, close) >= 1
      {
        BalanceFront(s, open, close, i, m);
      }
    }
  }

  /**
   * An unbalanced scan found an opening bracket at or after the start, and
   * from it to every later index, the end of the string included, the
   * opening brackets outnumber the closing ones: the bracket is never closed.
   */
  lemma ScanUnbalanced(s: string, open: char, close: char, start: nat)
    requires start <= |s|
    requires BracketScan(s, open, close, start).Unbalanced?
    ensures exists o ::
              start <= o < |s| && s[o] == open &&
              (forall j :: start <= j < o ==> s[j] != open) &&
              forall m :: o < m <= |s| ==> Balance(s[o..m], open, close) > 0
  {
    var o := Find(s, open, start).value;
    MatchCloseNone(s, open, close, o + 1, 1);
    forall m | o < m <= |s|
      ensures Balance(s[o..m], open, close) > 0
    {
      BalanceFront(s, open, close, o, m);
    }
  }

  /** A closing bracket inside a quoted string ends the scan. */
  lemma BracketInStringCounts()
    ensures BracketScan("{\"a\":\"}\"}", '{', '}', 0) == Matched(0, 6)
  {
    var s := "{\"a\":\"}\"}";
    assert MatchClose(s, '{', '}', 6, 1) == Some(6);
  }
}
