/** Reference meaning of rewriting: one greedy, left-to-right, non-overlapping replacement over the
    original bytes. Nothing here knows about chunks, tail calls or in-place editing. */
module Greedy {
  import opened Bytes

  predicate Occurs(s: Str, find: Str, i: nat) {
    i + |find| <= |s| && s[i..i + |find|] == find
  }

  /** Where the search goes on: behind a match, or one byte further. */
  function NextPosition(s: Str, find: Str, i: nat): (next: nat)
    requires 0 < |find|
    ensures i < next
    ensures i + |find| <= |s| ==> next <= |s|
  {
    if Occurs(s, find, i) then i + |find| else i + 1
  }

  /** The bytes from position `i` on, with every greedy match of `find` in the original `s` replaced. */
  function ReplaceFrom(s: Str, find: Str, replace: Str, i: nat): (r: Str)
    requires 0 < |find| == |replace| && i <= |s|
    ensures |r| == |s| - i
    decreases |s| - i
  {
    if i + |find| > |s| then s[i..]
    else (if Occurs(s, find, i) then replace else [s[i]]) + ReplaceFrom(s, find, replace, NextPosition(s, find, i))
  }

  function Replace(s: Str, find: Str, replace: Str): (r: Str)
    requires 0 < |find| == |replace|
    ensures |r| == |s|
  {
    ReplaceFrom(s, find, replace, 0)
  }

  /** Start positions of the replaced windows at or after `i`. */
  function Windows(s: Str, find: Str, i: nat): (ws: seq<nat>)
    requires 0 < |find|
    decreases |s| - i
  {
    if i + |find| > |s| then []
    else (if Occurs(s, find, i) then [i] else []) + Windows(s, find, NextPosition(s, find, i))
  }

  lemma WindowsUnfold(s: Str, find: Str, i: nat)
    requires 0 < |find| && i + |find| <= |s|
    ensures Windows(s, find, i) ==
            if Occurs(s, find, i) then [i] + Windows(s, find, i + |find|) else Windows(s, find, i + 1)
  {
    assert [] + Windows(s, find, i + 1) == Windows(s, find, i + 1);
  }

  lemma ReplaceUnfold(s: Str, find: Str, replace: Str, i: nat)
    requires 0 < |find| == |replace| && i + |find| <= |s|
    ensures ReplaceFrom(s, find, replace, i) ==
            if Occurs(s, find, i) then replace + ReplaceFrom(s, find, replace, i + |find|)
            else [s[i]] + ReplaceFrom(s, find, replace, i + 1)
  {
  }

  /** What makes a choice of windows the greedy one: they are occurrences, in order, disjoint, and every
      occurrence is a window or overlaps one that starts before it. */
  ghost predicate IsGreedyFrom(s: Str, find: Str, i: nat, ws: seq<nat>) {
    && (forall w | w in ws :: i <= w && Occurs(s, find, w))
    && (forall a, b | 0 <= a < b < |ws| :: ws[a] + |find| <= ws[b])
    && (forall j: nat {:trigger Covered(ws, |find|, j)} | i <= j && Occurs(s, find, j) :: Covered(ws, |find|, j))
  }

  ghost predicate Covered(ws: seq<nat>, n: nat, j: nat) {
    exists w | w in ws :: w <= j < w + n
  }

  lemma CoveredCons(w: nat, ws: seq<nat>, n: nat, j: nat)
    ensures Covered([w] + ws, n, j) <==> w <= j < w + n || Covered(ws, n, j)
  {
    assert w in [w] + ws;
    assert forall v | v in ws :: v in [w] + ws;
  }

  /** Putting an occurrence in front of a choice that is greedy behind it. */
  lemma GreedyCons(s: Str, find: Str, i: nat, rest: seq<nat>)
    requires 0 < |find| && Occurs(s, find, i) && IsGreedyFrom(s, find, i + |find|, rest)
    ensures IsGreedyFrom(s, find, i, [i] + rest)
  {
    forall a, b | 0 <= a < b <= |rest|
      ensures ([i] + rest)[a] + |find| <= ([i] + rest)[b]
    {
      assert rest[b - 1] in rest;
    }
    forall j: nat | i <= j && Occurs(s, find, j)
      ensures Covered([i] + rest, |find|, j)
    {
      CoveredCons(i, rest, |find|, j);
    }
  }

  /** A greedy choice takes an occurrence at `i` first and is greedy behind it. */
  lemma GreedyHead(s: Str, find: Str, i: nat, ws: seq<nat>)
    requires 0 < |find| && Occurs(s, find, i) && IsGreedyFrom(s, find, i, ws)
    ensures ws != [] && ws == [i] + ws[1..] && IsGreedyFrom(s, find, i + |find|, ws[1..])
  {
    assert Covered(ws, |find|, i);
    assert ws[0] == i by {
      assert ws[0] in ws;
      var k :| 0 <= k < |ws| && ws[k] == i;
    }
    var rest := ws[1..];
    assert ws == [i] + rest;
    forall w | w in rest
      ensures i + |find| <= w && Occurs(s, find, w)
    {
      assert w in ws;
      var k :| 0 <= k < |rest| && rest[k] == w;
      assert rest[k] == ws[k + 1];
    }
    forall j: nat | i + |find| <= j && Occurs(s, find, j)
      ensures Covered(rest, |find|, j)
    {
      CoveredCons(i, rest, |find|, j);
    }
  }

  /** A position where the text does not occur changes nothing. */
  lemma GreedySkip(s: Str, find: Str, i: nat, ws: seq<nat>)
    requires !Occurs(s, find, i)
    ensures IsGreedyFrom(s, find, i, ws) <==> IsGreedyFrom(s, find, i + 1, ws)
  {
  }

  lemma {:induction false} WindowsAreGreedy(s: Str, find: Str, i: nat)
    requires 0 < |find|
    ensures IsGreedyFrom(s, find, i, Windows(s, find, i))
    decreases |s| - i
  {
    if i + |find| <= |s| {
      var rest := Windows(s, find, NextPosition(s, find, i));
      WindowsAreGreedy(s, find, NextPosition(s, find, i));
      if Occurs(s, find, i) {
        GreedyCons(s, find, i, rest);
      } else {
        GreedySkip(s, find, i, rest);
        assert [] + rest == rest;
      }
    }
  }

  lemma Head(ws: seq<nat>) returns (w: nat)
    requires ws != []
    ensures w in ws
  {
    w := ws[0];
  }

  lemma NoRoomNoWindows(s: Str, find: Str, i: nat, ws: seq<nat>)
    requires i + |find| > |s| && IsGreedyFrom(s, find, i, ws)
    ensures ws == []
  {
    if ws != [] {
      var w := Head(ws);
      assert false;
    }
  }

  lemma {:induction false} OnlyWindowsAreGreedy(s: Str, find: Str, i: nat, ws: seq<nat>, windows: seq<nat>)
    requires 0 < |find| && IsGreedyFrom(s, find, i, ws) && windows == Windows(s, find, i)
    ensures ws == windows
    decreases |s| - i
  {
    if i + |find| > |s| {
      NoRoomNoWindows(s, find, i, ws);
    } else {
      var rest := Windows(s, find, NextPosition(s, find, i));
      WindowsUnfold(s, find, i);
      if Occurs(s, find, i) {
        assert ws != [] && ws == [i] + ws[1..] && ws[1..] == rest by {
          GreedyHead(s, find, i, ws);
          OnlyWindowsAreGreedy(s, find, NextPosition(s, find, i), ws[1..], rest);
        }
      } else {
        GreedySkip(s, find, i, ws);
        OnlyWindowsAreGreedy(s, find, NextPosition(s, find, i), ws, rest);
      }
    }
  }

  /** The characterisation has one solution, so `Windows` is the leftmost greedy choice and no other. */
  lemma GreedyIsUnique(s: Str, find: Str, ws: seq<nat>)
    requires 0 < |find|
    ensures IsGreedyFrom(s, find, 0, ws) <==> ws == Windows(s, find, 0)
  {
    WindowsAreGreedy(s, find, 0);
    if IsGreedyFrom(s, find, 0, ws) {
      OnlyWindowsAreGreedy(s, find, 0, ws, Windows(s, find, 0));
    }
  }

  /** Inside a window stands the replacement text. */
  lemma {:induction false} InsideWindow(s: Str, find: Str, replace: Str, i: nat, w: nat, j: nat)
    requires 0 < |find| == |replace| && i <= |s|
    requires w in Windows(s, find, i) && w <= j < w + |find|
    ensures i <= j < |s| && ReplaceFrom(s, find, replace, i)[j - i] == replace[j - w]
    decreases |s| - i
  {
    var next := NextPosition(s, find, i);
    if w in Windows(s, find, next) {
      InsideWindow(s, find, replace, next, w, j);
    } else {
      assert w == i;
    }
  }

  lemma StillCovered(s: Str, find: Str, i: nat, j: nat)
    requires 0 < |find| && i + |find| <= |s|
    ensures Covered(Windows(s, find, NextPosition(s, find, i)), |find|, j) ==> Covered(Windows(s, find, i), |find|, j)
    ensures Occurs(s, find, i) && i <= j < i + |find| ==> Covered(Windows(s, find, i), |find|, j)
  {
    WindowsUnfold(s, find, i);
    CoveredCons(i, Windows(s, find, NextPosition(s, find, i)), |find|, j);
  }

  /** Outside all windows stands the original byte. */
  lemma {:induction false} OutsideWindows(s: Str, find: Str, replace: Str, i: nat, j: nat)
    requires 0 < |find| == |replace| && i <= j < |s|
    ensures Covered(Windows(s, find, i), |find|, j) || ReplaceFrom(s, find, replace, i)[j - i] == s[j]
    decreases |s| - i
  {
    if i + |find| <= |s| {
      var next := NextPosition(s, find, i);
      StillCovered(s, find, i, j);
      if j >= next {
        OutsideWindows(s, find, replace, next, j);
      }
    }
  }

  lemma OneMore(n: nat, size: nat)
    ensures (1 + n) * size == size + n * size
  {
  }

  /** Accounting: the windows never add up to more than the bytes scanned. */
  lemma {:induction false} WindowsFit(s: Str, find: Str, i: nat)
    requires 0 < |find| && i <= |s|
    ensures |Windows(s, find, i)| * |find| <= |s| - i
    decreases |s| - i
  {
    if i + |find| <= |s| {
      WindowsFit(s, find, NextPosition(s, find, i));
      OneMore(|Windows(s, find, NextPosition(s, find, i))|, |find|);
    }
  }

  /** Something is replaced exactly when the text occurs at all. */
  lemma SomeWindowIffOccurs(s: Str, find: Str)
    requires 0 < |find|
    ensures Windows(s, find, 0) != [] <==> exists j: nat :: Occurs(s, find, j)
  {
    WindowsAreGreedy(s, find, 0);
    var ws := Windows(s, find, 0);
    assert ws != [] ==> ws[0] in ws;
    forall j: nat | Occurs(s, find, j)
      ensures Covered(ws, |find|, j)
    {
    }
  }

  // ----- replacing in place -----

  /** `current` is `original` edited in place up to position `o`: behind `o` nothing has changed, `count` windows have
      been replaced, and going on from `o` completes the replacement. */
  predicate EditedUpTo(current: Str, original: Str, find: Str, replace: Str, o: nat, count: nat)
    requires 0 < |find| == |replace|
  {
    && |current| == |original| && o <= |original|
    && current[o..] == original[o..]
    && current[..o] + ReplaceFrom(original, find, replace, o) == Replace(original, find, replace)
    && count + |Windows(original, find, o)| == |Windows(original, find, 0)|
  }

  /** Looking at the edited text behind `o` is looking at the original. */
  lemma SameOccurrence(a: Str, b: Str, find: Str, i: nat)
    requires |a| == |b| && i + |find| <= |a| && a[i..] == b[i..]
    ensures Occurs(a, find, i) <==> Occurs(b, find, i)
  {
    assert a[i..i + |find|] == a[i..][..|find|];
    assert b[i..i + |find|] == b[i..][..|find|];
  }

  lemma Splice(current: Str, next: Str, original: Str, replace: Str, rest: Str, o: nat)
    requires |current| == |original| && o + |replace| <= |current| && current[o..] == original[o..]
    requires next == current[..o] + replace + current[o + |replace|..]
    ensures |next| == |original| && next[o + |replace|..] == original[o + |replace|..]
    ensures next[..o + |replace|] + rest == current[..o] + (replace + rest)
  {
    assert current[o + |replace|..] == current[o..][|replace|..];
    assert original[o + |replace|..] == original[o..][|replace|..];
    assert next[..o + |replace|] == current[..o] + replace;
  }

  lemma EditHit(current: Str, next: Str, original: Str, find: Str, replace: Str, o: nat, count: nat)
    requires 0 < |find| == |replace| && EditedUpTo(current, original, find, replace, o, count)
    requires Occurs(current, find, o) && next == current[..o] + replace + current[o + |replace|..]
    ensures EditedUpTo(next, original, find, replace, o + |find|, count + 1)
  {
    SameOccurrence(current, original, find, o);
    ReplaceUnfold(original, find, replace, o);
    WindowsUnfold(original, find, o);
    Splice(current, next, original, replace, ReplaceFrom(original, find, replace, o + |find|), o);
  }

  lemma Advance(current: Str, original: Str, rest: Str, o: nat)
    requires o < |current| == |original| && current[o..] == original[o..]
    ensures current[o + 1..] == original[o + 1..]
    ensures current[..o + 1] + rest == current[..o] + ([original[o]] + rest)
  {
    assert current[o] == current[o..][0] == original[o..][0];
    assert current[o + 1..] == current[o..][1..];
    assert original[o + 1..] == original[o..][1..];
  }

  lemma EditMiss(current: Str, original: Str, find: Str, replace: Str, o: nat, count: nat)
    requires 0 < |find| == |replace| && EditedUpTo(current, original, find, replace, o, count)
    requires o + |find| <= |current| && !Occurs(current, find, o)
    ensures EditedUpTo(current, original, find, replace, o + 1, count)
  {
    SameOccurrence(current, original, find, o);
    ReplaceUnfold(original, find, replace, o);
    WindowsUnfold(original, find, o);
    Advance(current, original, ReplaceFrom(original, find, replace, o + 1), o);
  }

  /** Too close to the end for another window, the replacement is complete. */
  lemma EditEnd(current: Str, original: Str, find: Str, replace: Str, o: nat, count: nat)
    requires 0 < |find| == |replace| && EditedUpTo(current, original, find, replace, o, count)
    requires o + |find| > |current|
    ensures EditedUpTo(current, original, find, replace, |current|, count)
    ensures current == Replace(original, find, replace) && count == |Windows(original, find, 0)|
  {
    assert current == current[..o] + current[o..];
  }

  lemma EditStart(original: Str, find: Str, replace: Str)
    requires 0 < |find| == |replace|
    ensures EditedUpTo(original, original, find, replace, 0, 0)
  {
    assert original[..0] + Replace(original, find, replace) == Replace(original, find, replace);
  }
}
