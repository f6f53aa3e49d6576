/** A vector that can be shuffled and put back: `connect/src/shuffle_vec.rs`. */
module ShuffleVecs {
  import opened Wrappers

  function Swap<T>(s: seq<T>, i: nat, j: nat): (r: seq<T>)
    requires i < |s| && j < |s|
    ensures |r| == |s|
  {
    s[i := s[j]][j := s[i]]
  }

  /** One draw per position from the last down to the second; the k-th draw picks from `0..=n-1-k`. */
  predicate ValidDraws(n: nat, draws: seq<nat>) {
    && |draws| == (if n <= 1 then 0 else n - 1)
    && forall k :: 0 <= k < |draws| ==> draws[k] < n - k
  }

  /** Swap the drawn element into the last place, which is then settled; shuffle what comes before it. */
  ghost function Shuffled<T>(s: seq<T>, draws: seq<nat>): (r: seq<T>)
    requires ValidDraws(|s|, draws)
    ensures |r| == |s|
    decreases |s|
  {
    if |s| <= 1 then s
    else
      var n := |s| - 1;
      var t := Swap(s, n, draws[0]);
      Shuffled(t[..n], draws[1..]) + [t[n]]
  }

  /** The same swaps, undone from the innermost outwards. */
  ghost function Unshuffled<T>(s: seq<T>, draws: seq<nat>): (r: seq<T>)
    requires ValidDraws(|s|, draws)
    ensures |r| == |s|
    decreases |s|
  {
    if |s| <= 1 then s
    else
      var n := |s| - 1;
      Swap(Unshuffled(s[..n], draws[1..]) + [s[n]], n, draws[0])
  }

  lemma SwapTwice<T>(s: seq<T>, i: nat, j: nat)
    requires i < |s| && j < |s|
    ensures Swap(Swap(s, i, j), i, j) == s
  {
  }

  lemma SwapWithin<T>(s: seq<T>, rest: seq<T>, i: nat, j: nat)
    requires i < |s| && j < |s|
    ensures Swap(s + rest, i, j) == Swap(s + rest, j, i) == Swap(s, i, j) + rest
  {
  }

  lemma SwapPermutes<T>(s: seq<T>, i: nat, j: nat)
    requires i < |s| && j < |s|
    ensures multiset(Swap(s, i, j)) == multiset(s)
  {
  }

  /** One turn of the shuffle loop on the whole vector: positions past `i` are settled already. */
  lemma ShuffleTurn<T>(s: seq<T>, i: nat, draws: seq<nat>)
    requires 0 < i < |s| && ValidDraws(i + 1, draws)
    ensures var t := Swap(s, i, draws[0]);
            Shuffled(t[..i], draws[1..]) + t[i..] == Shuffled(s[..i + 1], draws) + s[i + 1..]
  {
    var p, t, tail := Swap(s[..i + 1], i, draws[0]), Swap(s, i, draws[0]), s[i + 1..];
    assert t == p + tail by {
      assert s == s[..i + 1] + tail;
      SwapWithin(s[..i + 1], tail, i, draws[0]);
    }
    assert t[..i] == p[..i] && t[i..] == [p[i]] + tail;
    Reassociate(Shuffled(p[..i], draws[1..]), [p[i]], tail);
  }

  /** One turn of the unshuffle loop on the whole vector. */
  lemma UnshuffleTurn<T>(s: seq<T>, i: nat, draws: seq<nat>)
    requires 0 < i < |s| && ValidDraws(i + 1, draws)
    ensures Swap(Unshuffled(s[..i], draws[1..]) + s[i..], draws[0], i) == Unshuffled(s[..i + 1], draws) + s[i + 1..]
  {
    var inner := Unshuffled(s[..i], draws[1..]) + [s[i]];
    assert s[..i + 1][..i] == s[..i];
    assert Unshuffled(s[..i], draws[1..]) + s[i..] == inner + s[i + 1..];
    SwapWithin(inner, s[i + 1..], i, draws[0]);
  }

  lemma DrawsTail(n: nat, draws: seq<nat>, i: nat)
    requires ValidDraws(n, draws) && 0 < i <= n
    ensures n - i <= |draws| && ValidDraws(i, draws[n - i..])
  {
  }

  // ----- shuffling by a fixed draw sequence is a bijection on vectors -----

  lemma ShuffledStep<T>(s: seq<T>, draws: seq<nat>, n: nat, t: seq<T>)
    requires ValidDraws(|s|, draws) && |s| == n + 1 && 0 < n && t == Swap(s, n, draws[0])
    ensures Shuffled(s, draws) == Shuffled(t[..n], draws[1..]) + [t[n]]
  {
  }

  lemma {:induction false} UnshuffleShuffle<T>(s: seq<T>, draws: seq<nat>)
    requires ValidDraws(|s|, draws)
    ensures Unshuffled(Shuffled(s, draws), draws) == s
    decreases |s|
  {
    if |s| <= 1 {
    } else {
      var n := |s| - 1;
      var t, u := Swap(s, n, draws[0]), Shuffled(s, draws);
      calc {
        Unshuffled(u, draws);
        Swap(Unshuffled(u[..n], draws[1..]) + [u[n]], n, draws[0]);
        { assert u[..n] == Shuffled(t[..n], draws[1..]) && u[n] == t[n]; UnshuffleShuffle(t[..n], draws[1..]); }
        Swap(t[..n] + [t[n]], n, draws[0]);
        { assert t[..n] + [t[n]] == t; }
        Swap(t, n, draws[0]);
        { SwapTwice(s, n, draws[0]); }
        s;
      }
    }
  }

  lemma {:induction false} ShuffleUnshuffle<T>(s: seq<T>, draws: seq<nat>)
    requires ValidDraws(|s|, draws)
    ensures Shuffled(Unshuffled(s, draws), draws) == s
    decreases |s|
  {
    if |s| <= 1 {
    } else {
      var n := |s| - 1;
      var below := Unshuffled(s[..n], draws[1..]);
      var inner, u := below + [s[n]], Unshuffled(s, draws);
      calc {
        Shuffled(u, draws);
        { SwapTwice(inner, n, draws[0]); ShuffledStep(u, draws, n, inner); }
        Shuffled(inner[..n], draws[1..]) + [inner[n]];
        { assert inner[..n] == below && inner[n] == s[n]; }
        Shuffled(below, draws[1..]) + [s[n]];
        { ShuffleUnshuffle(s[..n], draws[1..]); }
        s[..n] + [s[n]];
        s;
      }
    }
  }

  lemma SnocCounts<T>(s: seq<T>, x: T)
    ensures multiset(s + [x]) == multiset(s) + multiset{x}
  {
  }

  lemma LastApart<T>(s: seq<T>, n: nat)
    requires |s| == n + 1
    ensures multiset(s) == multiset(s[..n]) + multiset{s[n]}
  {
    assert s == s[..n] + [s[n]];
  }

  lemma {:induction false} ShuffledPermutes<T>(s: seq<T>, draws: seq<nat>)
    requires ValidDraws(|s|, draws)
    ensures multiset(Shuffled(s, draws)) == multiset(s)
    decreases |s|
  {
    if |s| <= 1 {
    } else {
      var n := |s| - 1;
      var t := Swap(s, n, draws[0]);
      var below := Shuffled(t[..n], draws[1..]);
      calc {
        multiset(Shuffled(s, draws));
        { ShuffledStep(s, draws, n, t); }
        multiset(below + [t[n]]);
        { SnocCounts(below, t[n]); }
        multiset(below) + multiset{t[n]};
        { ShuffledPermutes(t[..n], draws[1..]); }
        multiset(t[..n]) + multiset{t[n]};
        { LastApart(t, n); }
        multiset(t);
        { SwapPermutes(s, n, draws[0]); }
        multiset(s);
      }
    }
  }

  // ----- undoing by any log -----

  /**
   * The swaps of the undo loop stay within the vector: the log is too short, so that the loop gives up at once, or all
   * the entries it comes to are indices.
   */
  predicate WithinBounds(n: nat, log: seq<nat>) {
    |log| < n - 1 || forall k :: 0 <= k < n - 1 ==> log[k] < n
  }

  /** The swaps of the undo loop from the i-th place on. */
  ghost function UndoneFrom<T>(s: seq<T>, log: seq<nat>, i: nat): (r: seq<T>)
    requires 0 < i <= |s| && |s| - 1 <= |log| && WithinBounds(|s|, log)
    ensures |r| == |s|
    decreases |s| - i
  {
    if i == |s| then s else UndoneFrom(Swap(s, log[|s| - i - 1], i), log, i + 1)
  }

  /** What the undo loop makes of a vector, whether or not the log is the vector's own. */
  ghost function Undone<T>(s: seq<T>, log: seq<nat>): (r: seq<T>)
    requires WithinBounds(|s|, log)
    ensures |r| == |s|
  {
    if s == [] || |log| < |s| - 1 then s else UndoneFrom(s, log, 1)
  }

  /** One turn of the undo loop, `tail` being the draws that concern the first `i + 1` places. */
  lemma UndoTurn<T>(s: seq<T>, draws: seq<nat>, i: nat, tail: seq<nat>)
    requires 0 < i < |s| && |s| - 1 <= |draws| && WithinBounds(|s|, draws)
    requires tail == draws[|s| - i - 1..] && ValidDraws(i + 1, tail)
    ensures UndoneFrom(Unshuffled(s[..i], tail[1..]) + s[i..], draws, i)
         == UndoneFrom(Unshuffled(s[..i + 1], tail) + s[i + 1..], draws, i + 1)
  {
    UnshuffleTurn(s, i, tail);
  }

  lemma {:induction false} UndoneFromUnshuffles<T>(s: seq<T>, draws: seq<nat>, i: nat, tail: seq<nat>)
    requires 0 < i <= |s| && ValidDraws(|s|, draws) && WithinBounds(|s|, draws)
    requires |s| - i <= |draws| && tail == draws[|s| - i..] && ValidDraws(i, tail)
    ensures UndoneFrom(Unshuffled(s[..i], tail) + s[i..], draws, i) == Unshuffled(s, draws)
    decreases |s| - i
  {
    if i == |s| {
      NothingLeftToUndo(s, draws, tail);
    } else {
      var longer := LongerTail(|s|, draws, i, tail);
      UndoTurn(s, draws, i, longer);
      UndoneFromUnshuffles(s, draws, i + 1, longer);
    }
  }

  lemma NothingLeftToUndo<T>(s: seq<T>, draws: seq<nat>, tail: seq<nat>)
    requires s != [] && ValidDraws(|s|, draws) && WithinBounds(|s|, draws) && tail == draws[0..]
    ensures UndoneFrom(Unshuffled(s[..|s|], tail) + s[|s|..], draws, |s|) == Unshuffled(s, draws)
  {
    assert s[..|s|] == s && tail == draws;
    assert Unshuffled(s, draws) + s[|s|..] == Unshuffled(s, draws);
  }

  lemma LongerTail(n: nat, draws: seq<nat>, i: nat, tail: seq<nat>) returns (longer: seq<nat>)
    requires 0 < i < n && ValidDraws(n, draws) && tail == draws[n - i..]
    ensures longer == draws[n - i - 1..] && longer != [] && longer[1..] == tail && ValidDraws(i + 1, longer)
  {
    DrawsTail(n, draws, i + 1);
    longer := draws[n - i - 1..];
  }

  /** By the vector's own log the loop undoes the shuffle. */
  lemma UndoneUnshuffles<T>(s: seq<T>, draws: seq<nat>)
    requires ValidDraws(|s|, draws) && WithinBounds(|s|, draws)
    ensures Undone(s, draws) == Unshuffled(s, draws)
  {
    if |s| <= 1 {
    } else {
      DrawsTail(|s|, draws, 1);
      var tail := draws[|s| - 1..];
      assert Unshuffled(s[..1], tail) + s[1..] == s;
      UndoneFromUnshuffles(s, draws, 1, tail);
    }
  }

  lemma {:induction false} UndoneFromPermutes<T>(s: seq<T>, log: seq<nat>, i: nat)
    requires 0 < i <= |s| && |s| - 1 <= |log| && WithinBounds(|s|, log)
    ensures multiset(UndoneFrom(s, log, i)) == multiset(s)
    decreases |s| - i
  {
    if i == |s| {
    } else {
      SwapPermutes(s, log[|s| - i - 1], i);
      UndoneFromPermutes(Swap(s, log[|s| - i - 1], i), log, i + 1);
    }
  }

  // ----- every arrangement comes from exactly one draw sequence -----

  ghost predicate Distinct<T>(s: seq<T>) {
    forall i, j :: 0 <= i < j < |s| ==> s[i] != s[j]
  }

  lemma SwapDistinct<T>(s: seq<T>, i: nat, j: nat)
    requires Distinct(s) && i < |s| && j < |s|
    ensures Distinct(Swap(s, i, j))
  {
  }

  /** Different draws give different arrangements of a duplicate-free vector. */
  lemma {:induction false} DrawsInjective<T>(s: seq<T>, d: seq<nat>, e: seq<nat>)
    requires Distinct(s) && ValidDraws(|s|, d) && ValidDraws(|s|, e)
    requires Shuffled(s, d) == Shuffled(s, e)
    ensures d == e
    decreases |s|
  {
    if |s| <= 1 {
    } else {
      var n := |s| - 1;
      var t, u := Swap(s, n, d[0]), Swap(s, n, e[0]);
      assert t[n] == Shuffled(s, d)[n] == Shuffled(s, e)[n] == u[n];
      assert s[d[0]] == s[e[0]] && d[0] == e[0];
      SwapDistinct(s, n, d[0]);
      assert Shuffled(t[..n], d[1..]) == Shuffled(s, d)[..n] == Shuffled(s, e)[..n] == Shuffled(t[..n], e[1..]);
      DrawsInjective(t[..n], d[1..], e[1..]);
      assert d == [d[0]] + d[1..] && e == [e[0]] + e[1..];
    }
  }

  lemma CancelOne<T>(a: multiset<T>, b: multiset<T>, x: T)
    requires a + multiset{x} == b + multiset{x}
    ensures a == b
  {
    assert a == (a + multiset{x}) - multiset{x};
    assert b == (b + multiset{x}) - multiset{x};
  }

  lemma RestPermutes<T>(t: seq<T>, target: seq<T>, n: nat)
    requires multiset(t) == multiset(target) && |t| == n + 1 == |target| && t[n] == target[n]
    ensures multiset(t[..n]) == multiset(target[..n])
  {
    LastApart(t, n);
    LastApart(target, n);
    CancelOne(multiset(t[..n]), multiset(target[..n]), t[n]);
  }

  /** The draw that settles the last place of an arrangement. */
  lemma DrawForLast<T>(s: seq<T>, target: seq<T>, n: nat) returns (k: nat)
    requires multiset(s) == multiset(target) && |s| == n + 1 == |target|
    ensures k < |s| && s[k] == target[n]
    ensures multiset(Swap(s, n, k)[..n]) == multiset(target[..n])
  {
    assert target[n] in multiset(s);
    k :| 0 <= k < |s| && s[k] == target[n];
    SwapPermutes(s, n, k);
    RestPermutes(Swap(s, n, k), target, n);
  }

  lemma ShuffledCons<T>(s: seq<T>, k: nat, rest: seq<nat>)
    requires k < |s| && 1 < |s| && ValidDraws(|s| - 1, rest)
    ensures ValidDraws(|s|, [k] + rest)
    ensures Shuffled(s, [k] + rest) == Shuffled(Swap(s, |s| - 1, k)[..|s| - 1], rest) + [s[k]]
  {
    assert ([k] + rest)[1..] == rest;
  }

  /** Every arrangement of a vector is reached by some draw sequence. */
  lemma {:induction false} DrawsSurjective<T>(s: seq<T>, target: seq<T>) returns (draws: seq<nat>)
    requires multiset(s) == multiset(target)
    ensures ValidDraws(|s|, draws) && Shuffled(s, draws) == target
    decreases |s|
  {
    assert |s| == |multiset(s)| == |multiset(target)| == |target|;
    if |s| == 0 {
      draws := [];
    } else {
      var n := |s| - 1;
      var k := DrawForLast(s, target, n);
      assert target == target[..n] + [target[n]];
      if n == 0 {
        draws := [];
      } else {
        var rest := DrawsSurjective(Swap(s, n, k)[..n], target[..n]);
        ShuffledCons(s, k, rest);
        draws := [k] + rest;
      }
    }
  }

  /** So each arrangement arises from exactly one draw sequence: fair draws make a fair shuffle. */
  lemma ExactlyOneDraw<T>(s: seq<T>, target: seq<T>)
    requires Distinct(s) && multiset(s) == multiset(target)
    ensures exists d :: ValidDraws(|s|, d) && Shuffled(s, d) == target
                     && forall e :: ValidDraws(|s|, e) && Shuffled(s, e) == target ==> e == d
  {
    var d := DrawsSurjective(s, target);
    forall e | ValidDraws(|s|, e) && Shuffled(s, e) == target
      ensures e == d
    {
      DrawsInjective(s, d, e);
    }
  }

  // ----- the vector with its undo log -----

  datatype State<!T> = State(vec: seq<T>, indices: Option<seq<nat>>, originalFirstPosition: Option<nat>)

  datatype Op<!T> = Shuffle(draws: seq<nat>, isFirst: T -> bool) | Unshuffle

  /** The index of the first element that satisfies `p`. */
  ghost function Position<T>(s: seq<T>, p: T -> bool): (r: Option<nat>)
    ensures r.Some? ==> r.value < |s| && p(s[r.value]) && forall i :: 0 <= i < r.value ==> !p(s[i])
    ensures r.None? ==> forall i :: 0 <= i < |s| ==> !p(s[i])
  {
    if s == [] then None
    else if p(s[0]) then Some(0)
    else
      match Position(s[1..], p)
      case None => assert forall i :: 0 < i < |s| ==> s[i] == s[1..][i - 1]; None
      case Some(k) => assert forall i :: 0 < i < |s| ==> s[i] == s[1..][i - 1]; Some(k + 1)
  }

  /** Exchanges element 0 with the one at `pos`, if there is one. */
  ghost function Fronted<T>(s: seq<T>, pos: Option<nat>): (r: seq<T>)
    requires pos.Some? ==> pos.value < |s|
    ensures |r| == |s|
  {
    if pos.Some? then Swap(s, 0, pos.value) else s
  }

  /** Undoing does not reach outside the vector; anything more about the log depends on what was done to the vector. */
  ghost predicate Undoable<T>(st: State<T>) {
    st.indices.Some? ==>
      && (st.originalFirstPosition.Some? ==> st.originalFirstPosition.value < |st.vec|)
      && WithinBounds(|st.vec|, st.indices.value)
  }

  ghost function AfterUnshuffle<T>(st: State<T>): (r: State<T>)
    requires Undoable(st)
    ensures |r.vec| == |st.vec| && r.indices.None?
  {
    if st.indices.None? then st
    else State(Undone(Fronted(st.vec, st.originalFirstPosition), st.indices.value), None, None)
  }

  ghost function AfterShuffle<T>(st: State<T>, draws: seq<nat>, isFirst: T -> bool): (r: State<T>)
    requires (1 < |st.vec| ==> Undoable(st)) && ValidDraws(|st.vec|, draws)
    ensures (Undoable(st) ==> Undoable(r)) && |r.vec| == |st.vec|
  {
    if |st.vec| <= 1 then st
    else
      var v := Shuffled(AfterUnshuffle(st).vec, draws);
      var first := Position(v, isFirst);
      State(Fronted(v, first), Some(draws), first)
  }

  // ----- whatever has been done to the vector before -----

  /** Undoing moves elements and nothing else, by whatever log. */
  lemma UnshufflePermutes<T>(st: State<T>)
    requires Undoable(st)
    ensures multiset(AfterUnshuffle(st).vec) == multiset(st.vec)
  {
    if st.indices.Some? {
      var v := Fronted(st.vec, st.originalFirstPosition);
      if st.originalFirstPosition.Some? {
        SwapPermutes(st.vec, 0, st.originalFirstPosition.value);
      }
      if v != [] && |v| - 1 <= |st.indices.value| {
        UndoneFromPermutes(v, st.indices.value, 1);
      }
    }
  }

  /** An unshuffle right after a shuffle gives back what the shuffle started from, however stale the log was before. */
  lemma UnshuffleUndoesShuffle<T>(st: State<T>, draws: seq<nat>, isFirst: T -> bool)
    requires Undoable(st) && ValidDraws(|st.vec|, draws) && 2 <= |st.vec|
    ensures AfterUnshuffle(AfterShuffle(st, draws, isFirst)) == State(AfterUnshuffle(st).vec, None, None)
  {
    var base := AfterUnshuffle(st).vec;
    var v := Shuffled(base, draws);
    var first := Position(v, isFirst);
    if first.Some? {
      SwapTwice(v, 0, first.value);
    }
    assert Fronted(Fronted(v, first), first) == v;
    UndoneUnshuffles(v, draws);
    UnshuffleShuffle(base, draws);
  }

  /**
   * A vector that has grown since it was shuffled stays shuffled: only the element that was brought to the front goes
   * back.
   */
  lemma GrownStaysShuffled<T>(st: State<T>, grown: seq<T>)
    requires Undoable(st) && st.indices.Some? && ValidDraws(|st.vec|, st.indices.value)
    requires |st.vec| < |grown| && 2 <= |grown|
    ensures Undoable(st.(vec := grown))
    ensures AfterUnshuffle(st.(vec := grown)) == State(Fronted(grown, st.originalFirstPosition), None, None)
  {
  }

  /** A vector that has shrunk may be left with a log that reaches past its end, where the swap does not go through. */
  lemma ShrunkMayNotBeUndoable<T>(st: State<T>, shrunk: seq<T>)
    requires |st.vec| == 3 && st.indices == Some([2, 0]) && |shrunk| == 2
    ensures ValidDraws(|st.vec|, st.indices.value) && !Undoable(st.(vec := shrunk))
  {
    assert [2, 0][0] == 2;
  }

  ghost predicate ValidOp<T>(n: nat, op: Op<T>) {
    op.Shuffle? ==> ValidDraws(n, op.draws)
  }

  ghost function Run<T>(st: State<T>, ops: seq<Op<T>>): (r: State<T>)
    requires Undoable(st) && forall k :: 0 <= k < |ops| ==> ValidOp(|st.vec|, ops[k])
    ensures Undoable(r) && |r.vec| == |st.vec|
  {
    if ops == [] then st
    else
      var before := Run(st, ops[..|ops| - 1]);
      assert ValidOp(|st.vec|, ops[|ops| - 1]);
      match ops[|ops| - 1]
      case Shuffle(draws, isFirst) => AfterShuffle(before, draws, isFirst)
      case Unshuffle => AfterUnshuffle(before)
  }

  /** The state is some shuffle of `original`, together with what it takes to undo it. */
  ghost predicate Remembers<T>(st: State<T>, original: seq<T>) {
    match st.indices
    case None => st.vec == original && st.originalFirstPosition.None?
    case Some(draws) =>
      && ValidDraws(|original|, draws)
      && (st.originalFirstPosition.Some? ==> st.originalFirstPosition.value < |original|)
      && st.vec == Fronted(Shuffled(original, draws), st.originalFirstPosition)
  }

  lemma UnshuffleRestores<T>(st: State<T>, original: seq<T>)
    requires Undoable(st) && Remembers(st, original)
    ensures AfterUnshuffle(st) == State(original, None, None)
  {
    if st.indices.Some? {
      var v := Shuffled(original, st.indices.value);
      if st.originalFirstPosition.Some? {
        SwapTwice(v, 0, st.originalFirstPosition.value);
      }
      UndoneUnshuffles(v, st.indices.value);
      UnshuffleShuffle(original, st.indices.value);
    }
  }

  /** Whatever has been shuffled and unshuffled, the original order is never lost. */
  lemma {:induction false} RunRemembers<T>(original: seq<T>, ops: seq<Op<T>>)
    requires forall k :: 0 <= k < |ops| ==> ValidOp(|original|, ops[k])
    ensures Remembers(Run(State(original, None, None), ops), original)
  {
    if ops == [] {
    } else {
      RunRemembers(original, ops[..|ops| - 1]);
      UnshuffleRestores(Run(State(original, None, None), ops[..|ops| - 1]), original);
    }
  }

  lemma RememberedPermutes<T>(st: State<T>, original: seq<T>)
    requires Remembers(st, original)
    ensures multiset(st.vec) == multiset(original)
  {
    if st.indices.Some? {
      var v := Shuffled(original, st.indices.value);
      ShuffledPermutes(original, st.indices.value);
      if st.originalFirstPosition.Some? {
        SwapPermutes(v, 0, st.originalFirstPosition.value);
      }
    }
  }

  /** The vector is a permutation of the original after every run; an unshuffle gives back the original itself. */
  lemma RunPermutes<T>(original: seq<T>, ops: seq<Op<T>>)
    requires forall k :: 0 <= k < |ops| ==> ValidOp(|original|, ops[k])
    ensures var end := Run(State(original, None, None), ops);
            && multiset(end.vec) == multiset(original)
            && (ops != [] && ops[|ops| - 1].Unshuffle? ==> end.vec == original)
  {
    RunRemembers(original, ops);
    RememberedPermutes(Run(State(original, None, None), ops), original);
    if ops != [] {
      RunRemembers(original, ops[..|ops| - 1]);
      UnshuffleRestores(Run(State(original, None, None), ops[..|ops| - 1]), original);
    }
  }

  /**
   * After a shuffle of two or more items, element 0 satisfies the predicate whenever any element does,
   * and the result differs from the unconditional shuffle of the original only by exchanging that element
   * with the one at its place.
   */
  lemma ShuffleFronts<T>(original: seq<T>, ops: seq<Op<T>>, draws: seq<nat>, isFirst: T -> bool)
    requires forall k :: 0 <= k < |ops| ==> ValidOp(|original|, ops[k])
    requires ValidDraws(|original|, draws) && 2 <= |original|
    ensures var end := AfterShuffle(Run(State(original, None, None), ops), draws, isFirst);
            && end.vec == Fronted(Shuffled(original, draws), Position(Shuffled(original, draws), isFirst))
            && ((exists x :: x in original && isFirst(x)) <==> isFirst(end.vec[0]))
  {
    RunRemembers(original, ops);
    UnshuffleRestores(Run(State(original, None, None), ops), original);
    FrontedFirst(original, Shuffled(original, draws), isFirst) by {
      ShuffledPermutes(original, draws);
    }
  }

  lemma FrontedFirst<T>(original: seq<T>, v: seq<T>, p: T -> bool)
    requires v != [] && multiset(original) == multiset(v)
    ensures (exists x :: x in original && p(x)) <==> p(Fronted(v, Position(v, p))[0])
  {
    var front := Fronted(v, Position(v, p))[0];
    if x :| x in original && p(x) {
      assert x in multiset(v);
      assert x in v;
    }
    if p(front) {
      assert front in multiset(v);
      assert front in original;
    }
  }

  class ShuffleVec<T> {
    const vec: array<T>
    var indices: Option<seq<nat>>
    var originalFirstPosition: Option<nat>

    ghost function Model(): State<T>
      reads this, vec
    {
      State(vec[..], indices, originalFirstPosition)
    }

    constructor (vec: array<T>)
      ensures this.vec == vec && Model() == State(vec[..], None, None)
    {
      this.vec := vec;
      indices := None;
      originalFirstPosition := None;
    }

    method Exchange(i: nat, j: nat)
      requires i < vec.Length && j < vec.Length
      modifies vec
      ensures vec[..] == Swap(old(vec[..]), i, j)
    {
      vec[i], vec[j] := vec[j], vec[i];
    }

    method FindFirst(isFirst: T -> bool) returns (r: Option<nat>)
      ensures r == Position(vec[..], isFirst)
    {
      for i := 0 to vec.Length
        invariant forall j :: 0 <= j < i ==> !isFirst(vec[j])
      {
        if isFirst(vec[i]) {
          return Some(i);
        }
      }
      return None;
    }

    /** The swap loop of `shuffle_with_rng`. */
    method ApplyDraws(draws: seq<nat>)
      requires 1 < vec.Length && ValidDraws(vec.Length, draws)
      modifies vec
      ensures vec[..] == Shuffled(old(vec[..]), draws)
    {
      var n := vec.Length;
      assert draws[0..] == draws && vec[..n] == vec[..];
      for i := n downto 1
        invariant n - i <= |draws| && ValidDraws(i, draws[n - i..])
        invariant Shuffled(vec[..i], draws[n - i..]) + vec[i..] == Shuffled(old(vec[..]), draws)
      {
        DrawsTail(n, draws, i);
        ghost var was, rest := vec[..], draws[n - i - 1..];
        ShuffleTurn(was, i, rest);
        assert rest[1..] == draws[n - i..] && was[..i + 1] == vec[..i + 1] && was[i + 1..] == vec[i + 1..];
        Exchange(i, draws[n - i - 1]);
        ghost var now := vec[..];
        assert now[..i] == vec[..i] && now[i..] == vec[i..];
      }
      assert vec[..1] + vec[1..] == vec[..];
    }

    /** The swap loop of `unshuffle`, which gives up where the log does not reach. */
    method UndoDraws(log: seq<nat>)
      requires WithinBounds(vec.Length, log)
      modifies vec
      ensures vec[..] == Undone(old(vec[..]), log)
    {
      var n, i := vec.Length, 1;
      while i < n
        invariant 0 < i && (n != 0 ==> i <= n) && (n - 1 <= |log| || i == 1)
        invariant i == 1 ==> vec[..] == old(vec[..])
        invariant 0 < n && n - 1 <= |log| ==> UndoneFrom(vec[..], log, i) == Undone(old(vec[..]), log)
      {
        if |log| <= n - i - 1 {
          return;
        }
        Exchange(log[n - i - 1], i);
        i := i + 1;
      }
    }

    method ShuffleWithRng(draws: seq<nat>, isFirst: T -> bool)
      requires (1 < vec.Length ==> Undoable(Model())) && ValidDraws(vec.Length, draws)
      modifies this, vec
      ensures Model() == AfterShuffle(old(Model()), draws, isFirst)
    {
      if vec.Length <= 1 {
        return;
      }
      if indices.Some? {
        Unshuffle();
      }
      ApplyDraws(draws);
      indices := Some(draws);
      originalFirstPosition := FindFirst(isFirst);
      if originalFirstPosition.Some? {
        Exchange(0, originalFirstPosition.value);
      }
    }

    method Unshuffle()
      requires Undoable(Model())
      modifies this, vec
      ensures Model() == AfterUnshuffle(old(Model()))
    {
      if indices.None? {
        return;
      }
      var draws := indices.value;
      indices := None;
      if originalFirstPosition.Some? {
        Exchange(0, originalFirstPosition.value);
        originalFirstPosition := None;
      }
      UndoDraws(draws);
    }
  }
}
