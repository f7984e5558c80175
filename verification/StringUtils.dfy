/** `stringSplit` (src/libratel/StringUtils.cpp) over `std::string::find` and `substr`. */
module StringUtils {
  import opened Wrappers
  import opened SocksTypes

  predicate Agree(s: Bytes, d: Bytes, i: nat, k: nat)
    requires i + k < |s| && k < |d|
  {
    s[i + k] == d[k]
  }

  predicate OccursAt(s: Bytes, d: Bytes, i: nat) {
    i + |d| <= |s| && forall k {:trigger Agree(s, d, i, k)} :: 0 <= k < |d| ==> Agree(s, d, i, k)
  }

  lemma OccursExactly(s: Bytes, d: Bytes, i: nat)
    requires i + |d| <= |s|
    ensures OccursAt(s, d, i) <==> s[i..i + |d|] == d
  {
    forall k: nat | k < |d|
      ensures Agree(s, d, i, k) <==> s[i..i + |d|][k] == d[k]
    {
    }
  }

  lemma SameOccurrence(s: Bytes, t: Bytes, d: Bytes, i: nat, j: nat)
    requires i + |d| <= |s| && j + |d| <= |t| && s[i..i + |d|] == t[j..j + |d|]
    ensures OccursAt(s, d, i) == OccursAt(t, d, j)
  {
    OccursExactly(s, d, i);
    OccursExactly(t, d, j);
  }

  /** `s.find(d, from)`; `None` is `npos`. */
  function Find(s: Bytes, d: Bytes, from: nat): (r: Option<nat>)
    requires from <= |s|
    ensures r.Some? ==> from <= r.value && OccursAt(s, d, r.value)
    decreases |s| - from
  {
    if OccursAt(s, d, from) then Some(from)
    else if from == |s| then None
    else Find(s, d, from + 1)
  }

  /** Nothing occurs before what `Find` returns. */
  lemma {:induction false} FindIsFirst(s: Bytes, d: Bytes, from: nat, i: nat)
    requires from <= i <= |s| && OccursAt(s, d, i)
    ensures Find(s, d, from).Some? && Find(s, d, from).value <= i
    decreases |s| - from
  {
    if !OccursAt(s, d, from) {
      FindIsFirst(s, d, from + 1, i);
    }
  }

  predicate Contains(s: Bytes, d: Bytes) {
    exists i :: 0 <= i <= |s| && OccursAt(s, d, i)
  }

  function Split(s: Bytes, d: Bytes): (r: seq<Bytes>)
    requires |d| > 0
    ensures |r| > 0
  {
    match Find(s, d, 0)
    case None => [s]
    case Some(i) => [s[..i]] + Split(s[i + |d|..], d)
  }

  function Join(parts: seq<Bytes>, d: Bytes): Bytes
    requires |parts| > 0
  {
    if |parts| == 1 then parts[0] else parts[0] + d + Join(parts[1..], d)
  }

  /** Searching from a position is searching what follows it. */
  lemma {:induction false} FindInSuffix(s: Bytes, d: Bytes, from: nat, k: nat)
    requires from + k <= |s|
    ensures var r := Find(s[from..], d, k);
            Find(s, d, from + k) == if r.None? then None else Some(from + r.value)
    decreases |s| - from - k
  {
    if from + k + |d| <= |s| {
      SameOccurrence(s[from..], s, d, k, from + k);
    }
    if from + k < |s| {
      FindInSuffix(s, d, from, k + 1);
    }
  }

  lemma LastPiece(s: Bytes, d: Bytes, prev: nat)
    requires |d| > 0 && prev <= |s| && Find(s, d, prev).None?
    ensures Split(s[prev..], d) == [s[prev..]]
  {
    FindInSuffix(s, d, prev, 0);
  }

  lemma NextPiece(s: Bytes, d: Bytes, prev: nat, i: nat)
    requires |d| > 0 && prev <= |s| && Find(s, d, prev) == Some(i)
    ensures Split(s[prev..], d) == [s[prev..i]] + Split(s[i + |d|..], d)
  {
    FindInSuffix(s, d, prev, 0);
    var x := s[prev..];
    assert Find(x, d, 0) == Some(i - prev);
    assert x[..i - prev] == s[prev..i];
    assert x[i - prev + |d|..] == s[i + |d|..];
  }

  /** One round of the loop moves one piece from what is left to the result. */
  lemma OneRound(all: seq<Bytes>, res: seq<Bytes>, s: Bytes, d: Bytes, prev: nat)
    requires |d| > 0 && prev <= |s| && all == res + Split(s[prev..], d)
    ensures match Find(s, d, prev)
            case None => all == res + [s[prev..]]
            case Some(i) => all == (res + [s[prev..i]]) + Split(s[i + |d|..], d)
  {
    match Find(s, d, prev)
    case None => LastPiece(s, d, prev);
    case Some(i) =>
      NextPiece(s, d, prev, i);
      Regroup(res, s[prev..i], Split(s[i + |d|..], d));
  }

  lemma Regroup(res: seq<Bytes>, piece: Bytes, rest: seq<Bytes>)
    ensures res + ([piece] + rest) == (res + [piece]) + rest
  {
  }

  /** The variables of the loop of `stringSplit`. */
  datatype Loop = Loop(it: Option<nat>, prev: nat, res: seq<Bytes>)

  predicate Going(s: Bytes, l: Loop) {
    l.it.Some? && l.prev <= |s|
  }

  function Start(s: Bytes, d: Bytes): Loop {
    match Find(s, d, 0)
    case None => Loop(None, |s|, [s])
    case Some(i) => Loop(Some(i), i + |d|, [s[..i]])
  }

  function Round(s: Bytes, d: Bytes, l: Loop): Loop
    requires Going(s, l)
  {
    var it := Find(s, d, l.prev);
    var piece := if it.None? then s[l.prev..] else s[l.prev..it.value];
    Loop(it, l.prev + |d| + |piece|, l.res + [piece])
  }

  /** The variables after `n` rounds, or at the end if that comes first. */
  function Rounds(s: Bytes, d: Bytes, l: Loop, n: nat): Loop
    decreases n
  {
    if n == 0 || !Going(s, l) then l else Rounds(s, d, Round(s, d, l), n - 1)
  }

  predicate Ends(s: Bytes, d: Bytes, l: Loop, n: nat) {
    Rounds(s, d, l, n).it.None?
  }

  lemma {:induction false} LoopEnds(s: Bytes, d: Bytes, l: Loop) returns (n: nat)
    requires |d| > 0 && (l.it.Some? ==> Going(s, l))
    ensures Ends(s, d, l, n)
    decreases l.it.Some?, |s| - l.prev
  {
    if l.it.None? {
      n := 0;
    } else {
      n := LoopEnds(s, d, Round(s, d, l));
      n := n + 1;
    }
  }

  lemma {:induction false} EmptyDelimiterGoesOn(s: Bytes, l: Loop, n: nat)
    requires Going(s, l)
    ensures var m := Rounds(s, [], l, n); Going(s, m) && m.prev == l.prev
    decreases n
  {
    if n == 0 {
    } else {
      assert s[l.prev..l.prev] == [];
      EmptyDelimiterGoesOn(s, Round(s, [], l), n - 1);
    }
  }

  /** The loop ends if and only if the delimiter is not empty; with an empty one it stays at
      the same place and adds empty pieces for ever. */
  lemma LoopEndsExactly(s: Bytes, d: Bytes)
    ensures (exists n: nat :: Ends(s, d, Start(s, d), n)) <==> |d| > 0
  {
    if |d| > 0 {
      var n := LoopEnds(s, d, Start(s, d));
    } else {
      assert d == [];
      forall n: nat
        ensures !Ends(s, d, Start(s, d), n)
      {
        EmptyDelimiterGoesOn(s, Start(s, d), n);
      }
    }
  }

  /** Each round changes the variables as `Round` says. */
  method StringSplit(str: Bytes, delim: Bytes) returns (res: seq<Bytes>)
    requires |delim| > 0
    ensures res == Split(str, delim)
  {
    ghost var all := Split(str, delim);
    var it: Option<nat> := Find(str, delim, 0);
    res := [if it.None? then str else str[..it.value]];
    var prev := if it.None? then |str| else it.value + |delim|;
    assert Loop(it, prev, res) == Start(str, delim);
    while it.Some?
      invariant it.Some? ==> prev <= |str| && all == res + Split(str[prev..], delim)
      invariant it.None? ==> all == res
      decreases it.Some?, |str| - prev
    {
      OneRound(all, res, str, delim, prev);
      ghost var next := Round(str, delim, Loop(it, prev, res));
      it := Find(str, delim, prev);
      var piece := if it.None? then str[prev..] else str[prev..it.value];
      res := res + [piece];
      prev := prev + |delim| + |piece|;
      assert Loop(it, prev, res) == next;
    }
  }

  /** Splitting loses nothing. */
  lemma {:induction false} JoinOfSplit(s: Bytes, d: Bytes)
    requires |d| > 0
    ensures Join(Split(s, d), d) == s
  {
    match Find(s, d, 0)
    case None =>
    case Some(i) =>
      var rest := Split(s[i + |d|..], d);
      JoinOfSplit(s[i + |d|..], d);
      assert ([s[..i]] + rest)[1..] == rest;
      OccursExactly(s, d, i);
      assert s == s[..i] + d + s[i + |d|..];
  }

  lemma NothingBefore(s: Bytes, d: Bytes)
    requires |d| > 0
    ensures match Find(s, d, 0) case None => !Contains(s, d) case Some(i) => !Contains(s[..i], d)
  {
    var end := match Find(s, d, 0) case None => |s| case Some(i) => i;
    if Contains(s[..end], d) {
      var j: nat :| j <= end && OccursAt(s[..end], d, j);
      SameOccurrence(s[..end], s, d, j, j);
      FindIsFirst(s, d, 0, j);
    }
    assert s[..|s|] == s;
  }

  /** No piece contains the delimiter. */
  lemma {:induction false} PiecesAreFree(s: Bytes, d: Bytes)
    requires |d| > 0
    ensures forall k :: 0 <= k < |Split(s, d)| ==> !Contains(Split(s, d)[k], d)
  {
    NothingBefore(s, d);
    match Find(s, d, 0)
    case None =>
    case Some(i) =>
      PiecesAreFree(s[i + |d|..], d);
      var all, rest := Split(s, d), Split(s[i + |d|..], d);
      assert all == [s[..i]] + rest;
      assert forall k :: 0 < k < |all| ==> all[k] == rest[k - 1];
  }

  /** No delimiter starts inside `p` when a delimiter follows it. */
  predicate EndsCleanly(p: Bytes, d: Bytes)
    requires |d| > 0
  {
    !Contains(p + d[..|d| - 1], d)
  }

  predicate Separable(parts: seq<Bytes>, d: Bytes)
    requires |parts| > 0 && |d| > 0
  {
    if |parts| == 1 then !Contains(parts[0], d)
    else EndsCleanly(parts[0], d) && Separable(parts[1..], d)
  }

  lemma FirstDelimiter(p: Bytes, d: Bytes, rest: Bytes)
    requires |d| > 0
    ensures var r := Find(p + d + rest, d, 0);
            r.Some? && r.value <= |p| && (r.value == |p| <==> EndsCleanly(p, d))
  {
    var s, q := p + d + rest, p + d[..|d| - 1];
    assert s[|p|..|p| + |d|] == d;
    OccursExactly(s, d, |p|);
    FindIsFirst(s, d, 0, |p|);
    forall j: nat | j < |p|
      ensures OccursAt(s, d, j) == OccursAt(q, d, j)
    {
      if j + |d| <= |q| {
        assert s[..|q|] == q;
        SameOccurrence(s, q, d, j, j);
      }
    }
    var i := Find(s, d, 0).value;
    if i < |p| {
      assert OccursAt(q, d, i);
    } else if !EndsCleanly(p, d) {
      var j: nat :| j <= |q| && OccursAt(q, d, j);
      FindIsFirst(s, d, 0, j);
    }
  }

  /** The other direction, exactly: splitting a joined list returns the list if and only if
      no delimiter starts early. */
  lemma {:induction false} SplitOfJoin(parts: seq<Bytes>, d: Bytes)
    requires |parts| > 0 && |d| > 0
    ensures Split(Join(parts, d), d) == parts <==> Separable(parts, d)
  {
    var s := Join(parts, d);
    if |parts| == 1 {
      NothingBefore(s, d);
      assert Find(s, d, 0).Some? ==> Contains(s, d);
    } else {
      var rest := Join(parts[1..], d);
      var n := |parts[0]|;
      assert s == parts[0] + d + rest;
      FirstDelimiter(parts[0], d, rest);
      if EndsCleanly(parts[0], d) {
        SplitOfJoin(parts[1..], d);
        assert s[..n] == parts[0] && s[n + |d|..] == rest;
        assert Split(s, d)[1..] == Split(rest, d);
        assert parts == [parts[0]] + parts[1..];
      } else {
        assert |Split(s, d)[0]| < n;
      }
    }
  }

  lemma OccursByte(s: Bytes, c: Byte, i: nat)
    requires i <= |s|
    ensures OccursAt(s, [c], i) <==> i < |s| && s[i] == c
  {
    if i < |s| {
      OccursExactly(s, [c], i);
      assert s[i..i + 1] == [s[i]];
    }
  }

  lemma ContainsByte(s: Bytes, c: Byte)
    ensures Contains(s, [c]) <==> c in s
  {
    forall i | 0 <= i <= |s|
      ensures OccursAt(s, [c], i) <==> i < |s| && s[i] == c
    {
      OccursByte(s, c, i);
    }
  }

  /** For a one-character delimiter that condition is just that the pieces do not contain
      it, so there `Split` and `Join` are inverse bijections. */
  lemma {:induction false} OneCharacterDelimiter(parts: seq<Bytes>, c: Byte)
    requires |parts| > 0
    ensures Separable(parts, [c]) <==> forall k :: 0 <= k < |parts| ==> c !in parts[k]
    ensures Split(Join(parts, [c]), [c]) == parts <==> forall k :: 0 <= k < |parts| ==> c !in parts[k]
  {
    SplitOfJoin(parts, [c]);
    var p := parts[0];
    assert p + [c][..0] == p;
    ContainsByte(p, c);
    if |parts| > 1 {
      OneCharacterDelimiter(parts[1..], c);
      assert forall k :: 0 < k < |parts| ==> parts[k] == parts[1..][k - 1];
    }
  }

  /** With a longer delimiter this direction fails: the pieces "a" and "b" around "aa"
      come back as "" and "ab". */
  lemma LongDelimiterLosesPieces()
    ensures var a, b: Byte := 0x61, 0x62;
            !Contains([a], [a, a]) && !Contains([b], [a, a])
            && Split(Join([[a], [b]], [a, a]), [a, a]) == [[], [a, b]]
  {
    var a, b: Byte := 0x61, 0x62;
    var d := [a, a];
    var s := Join([[a], [b]], d);
    assert [[a], [b]][1..] == [[b]] && Join([[b]], d) == [b];
    assert s == [a] + d + [b] == [a, a, a, b];
    OccursExactly(s, d, 0);
    assert s[0..2] == d;
    assert Find(s, d, 0) == Some(0);
    assert s[..0] == [] && s[2..] == [a, b];
    assert !Agree([a, b], d, 0, 1);
    assert Find([a, b], d, 0) == None;
    assert Split([a, b], d) == [[a, b]];
  }
}
