/** Interval sets kept in canonical form: the download bookkeeping of `audio/src/range_set.rs`. */
module RangeSets {
  import opened Wrappers

  datatype Range = Range(start: nat, length: nat) {
    function End(): nat {
      start + length
    }

    predicate Covers(x: int) {
      start <= x < End()
    }
  }

  function Min(a: nat, b: nat): nat {
    if a <= b then a else b
  }

  function Max(a: nat, b: nat): nat {
    if a <= b then b else a
  }

  /** The values a single range stands for. */
  ghost function Interval(r: Range): set<int> {
    set x | r.start <= x < r.End() && r.Covers(x)
  }

  /** The values a list of ranges stands for: the plain set every operation is judged against. */
  ghost function Members(rs: seq<Range>): set<int> {
    if rs == [] then {} else Interval(rs[0]) + Members(rs[1..])
  }

  /** Non-empty ranges in ascending order, each strictly clear of the next, since touching ranges are merged. */
  ghost predicate Canonical(rs: seq<Range>) {
    rs == [] || (0 < rs[0].length && (1 < |rs| ==> rs[0].End() < rs[1].start) && Canonical(rs[1..]))
  }

  lemma {:induction false} CanonicalDrop(rs: seq<Range>, i: nat)
    requires Canonical(rs) && i <= |rs|
    ensures Canonical(rs[i..])
  {
    if i == 0 {
      assert rs[0..] == rs;
    } else {
      CanonicalDrop(rs[1..], i - 1);
      assert rs[1..][i - 1..] == rs[i..];
    }
  }

  /** Neighbours in a canonical list. */
  lemma CanonicalAt(rs: seq<Range>, i: nat)
    requires Canonical(rs) && i < |rs|
    ensures 0 < rs[i].length && (i + 1 < |rs| ==> rs[i].End() < rs[i + 1].start)
  {
    CanonicalDrop(rs, i);
  }

  lemma MembersDrop(rs: seq<Range>, i: nat)
    requires i < |rs|
    ensures Members(rs[i..]) == Interval(rs[i]) + Members(rs[i + 1..])
  {
    assert rs[i..][1..] == rs[i + 1..];
  }

  lemma {:induction false} MembersConcat(a: seq<Range>, b: seq<Range>)
    ensures Members(a + b) == Members(a) + Members(b)
  {
    if a == [] {
      assert a + b == b;
    } else {
      MembersConcat(a[1..], b);
      assert (a + b)[1..] == a[1..] + b;
    }
  }

  /** The first range holds the least members, and the rest lie strictly past its end. */
  lemma {:induction false} AboveFirst(rs: seq<Range>)
    requires Canonical(rs) && rs != []
    ensures forall x :: x in Members(rs) ==> rs[0].start <= x
    ensures forall x :: x in Members(rs[1..]) ==> rs[0].End() < x
  {
    if 1 < |rs| {
      AboveFirst(rs[1..]);
    }
  }

  // ----- adding -----

  ghost function Hull(r: Range, q: Range): Range {
    Range(Min(r.start, q.start), Max(r.End(), q.End()) - Min(r.start, q.start))
  }

  /** `r` finds its place, swallowing every range it overlaps or touches. */
  ghost function Added(rs: seq<Range>, r: Range): seq<Range>
    decreases |rs|
  {
    if rs == [] then [r]
    else if r.End() < rs[0].start then [r] + rs
    else if rs[0].End() < r.start then [rs[0]] + Added(rs[1..], r)
    else Added(rs[1..], Hull(r, rs[0]))
  }

  lemma HullMembers(r: Range, q: Range)
    ensures r.start <= q.End() && q.start <= r.End() ==> Interval(Hull(r, q)) == Interval(r) + Interval(q)
  {
    if r.start <= q.End() && q.start <= r.End() {
      forall x
        ensures x in Interval(Hull(r, q)) <==> x in Interval(r) || x in Interval(q)
      {
        assert Hull(r, q).Covers(x) <==> r.Covers(x) || q.Covers(x);
      }
    }
  }

  lemma {:induction false} AddedMembers(rs: seq<Range>, r: Range)
    ensures Members(Added(rs, r)) == Members(rs) + Interval(r)
    decreases |rs|
  {
    if rs == [] {
    } else if r.End() < rs[0].start {
      assert ([r] + rs)[1..] == rs;
    } else if rs[0].End() < r.start {
      AddedMembers(rs[1..], r);
      assert Added(rs, r)[1..] == Added(rs[1..], r);
    } else {
      HullMembers(r, rs[0]);
      AddedMembers(rs[1..], Hull(r, rs[0]));
    }
  }

  lemma {:induction false} AddedCanonical(rs: seq<Range>, r: Range)
    requires Canonical(rs) && 0 < r.length
    ensures Canonical(Added(rs, r))
    ensures Added(rs, r) != [] && Added(rs, r)[0].start == if rs == [] then r.start else Min(r.start, rs[0].start)
    decreases |rs|
  {
    if rs == [] {
    } else if r.End() < rs[0].start {
      assert ([r] + rs)[1..] == rs;
    } else if rs[0].End() < r.start {
      AddedCanonical(rs[1..], r);
      assert Added(rs, r)[1..] == Added(rs[1..], r);
    } else {
      AddedCanonical(rs[1..], Hull(r, rs[0]));
    }
  }

  // ----- subtracting -----

  /** What is left of `q` before and after `r`. */
  ghost function Pieces(q: Range, r: Range): seq<Range> {
    if q.End() <= r.start || r.End() <= q.start then [q]
    else
      (if q.start < r.start then [Range(q.start, r.start - q.start)] else [])
      + if r.End() < q.End() then [Range(r.End(), q.End() - r.End())] else []
  }

  ghost function Subtracted(rs: seq<Range>, r: Range): seq<Range> {
    if rs == [] then [] else Pieces(rs[0], r) + Subtracted(rs[1..], r)
  }

  lemma PiecesMembers(q: Range, r: Range)
    requires 0 < r.length
    ensures Members(Pieces(q, r)) == Interval(q) - Interval(r)
  {
    var p := Pieces(q, r);
    if |p| == 2 {
      assert p == [p[0]] + [p[1]];
      MembersConcat([p[0]], [p[1]]);
    }
    assert forall x :: x in Members(p) <==> (0 < |p| && p[0].Covers(x)) || (1 < |p| && p[1].Covers(x));
    forall x
      ensures x in Members(p) <==> x in Interval(q) - Interval(r)
    {
      assert q.Covers(x) && !r.Covers(x) <==> (0 < |p| && p[0].Covers(x)) || (1 < |p| && p[1].Covers(x));
    }
  }

  lemma {:induction false} SubtractedMembers(rs: seq<Range>, r: Range)
    requires 0 < r.length
    ensures Members(Subtracted(rs, r)) == Members(rs) - Interval(r)
  {
    if rs == [] {
    } else {
      PiecesMembers(rs[0], r);
      SubtractedMembers(rs[1..], r);
      MembersConcat(Pieces(rs[0], r), Subtracted(rs[1..], r));
    }
  }

  lemma CanonicalCons(q: Range, rs: seq<Range>)
    requires 0 < q.length && Canonical(rs) && (rs != [] ==> q.End() < rs[0].start)
    ensures Canonical([q] + rs)
  {
    assert ([q] + rs)[1..] == rs;
  }

  lemma PiecesCanonical(q: Range, r: Range, rest: seq<Range>)
    requires 0 < q.length && 0 < r.length && Canonical(rest) && (rest != [] ==> q.End() < rest[0].start)
    ensures Canonical(Pieces(q, r) + rest)
  {
    var p := Pieces(q, r);
    if p == [] {
      assert p + rest == rest;
    } else if |p| == 1 {
      CanonicalCons(p[0], rest);
      assert p == [p[0]];
    } else {
      CanonicalCons(p[1], rest);
      CanonicalCons(p[0], [p[1]] + rest);
      assert p + rest == [p[0]] + ([p[1]] + rest);
    }
  }

  lemma {:induction false} SubtractedCanonical(rs: seq<Range>, r: Range)
    requires Canonical(rs) && 0 < r.length
    ensures Canonical(Subtracted(rs, r))
    ensures Subtracted(rs, r) != [] ==> rs != [] && rs[0].start <= Subtracted(rs, r)[0].start
  {
    if rs == [] {
    } else {
      SubtractedCanonical(rs[1..], r);
      PiecesCanonical(rs[0], r, Subtracted(rs[1..], r));
    }
  }

  /** Ranges past the end of `r` stay as they are. */
  lemma {:induction false} SubtractedClear(rs: seq<Range>, r: Range)
    requires Canonical(rs) && (rs != [] ==> r.End() <= rs[0].start)
    ensures Subtracted(rs, r) == rs
  {
    if rs == [] {
    } else {
      SubtractedClear(rs[1..], r);
    }
  }

  /** Cutting the beginning off the first range after `kept`. */
  lemma TrimFirst(kept: seq<Range>, rest: seq<Range>, r: Range)
    requires rest != [] && r.start <= rest[0].start < r.End() < rest[0].End()
    ensures (kept + rest)[|kept| := Range(r.End(), rest[0].End() - r.End())] == kept + (Pieces(rest[0], r) + rest[1..])
  {
  }

  /** Passing a range of the list that leaves one piece behind. */
  lemma SubtractedStep(rs: seq<Range>, i: nat, done: seq<Range>, r: Range, piece: Range)
    requires i < |rs| && Pieces(rs[i], r) == [piece]
    ensures done + Subtracted(rs[i..], r) == done + [piece] + Subtracted(rs[i + 1..], r)
    ensures (done + rs[i..])[|done| := piece] == done + [piece] + rs[i + 1..]
  {
    assert rs[i..][1..] == rs[i + 1..];
  }

  /** A range of the list that reaches past both ends of `r` is the only one touched. */
  lemma SubtractedHole(rs: seq<Range>, i: nat, done: seq<Range>, r: Range)
    requires Canonical(rs) && i < |rs| && r.End() < rs[i].End()
    ensures done + Subtracted(rs[i..], r) == done + Pieces(rs[i], r) + rs[i + 1..]
  {
    assert Subtracted(rs[i..], r) == Pieces(rs[i], r) + rs[i + 1..] by {
      CanonicalAt(rs, i);
      CanonicalDrop(rs, i + 1);
      SubtractedClear(rs[i + 1..], r);
      assert rs[i..][1..] == rs[i + 1..];
    }
    Reassociate(done, Pieces(rs[i], r), rs[i + 1..]);
  }

  // ----- intersecting -----

  lemma OverlapInterval(r: Range, q: Range)
    ensures r.End() <= q.start || q.End() <= r.start ==> Interval(r) * Interval(q) == {}
    ensures var start, end := Max(r.start, q.start), Min(r.End(), q.End());
            start <= end ==> Interval(r) * Interval(q) == Interval(Range(start, end - start))
  {
    var start, end := Max(r.start, q.start), Min(r.End(), q.End());
    if start <= end {
      forall x
        ensures x in Interval(r) * Interval(q) <==> x in Interval(Range(start, end - start))
      {
        assert Range(start, end - start).Covers(x) <==> r.Covers(x) && q.Covers(x);
      }
    }
  }

  /** The part of an intersection that two suffixes still have to contribute. */
  ghost function Meet(a: seq<Range>, i: nat, b: seq<Range>, j: nat): set<int>
    requires i <= |a| && j <= |b|
  {
    Members(a[i..]) * Members(b[j..])
  }

  /** The range that ends first meets nothing of the other suffix but its first range. */
  lemma MeetFirst(a: seq<Range>, i: nat, b: seq<Range>, j: nat)
    requires Canonical(b) && i < |a| && j < |b| && a[i].End() <= b[j].End()
    ensures Meet(a, i, b, j) == Interval(a[i]) * Interval(b[j]) + Meet(a, i + 1, b, j)
  {
    MembersDrop(a, i);
    MembersDrop(b, j);
    CanonicalDrop(b, j);
    AboveFirst(b[j..]);
    assert b[j..][1..] == b[j + 1..];
    assert Interval(a[i]) * Members(b[j + 1..]) == {};
  }

  /** So passing it costs exactly the overlap of the two current ranges. */
  lemma MeetStep(a: seq<Range>, i: nat, b: seq<Range>, j: nat, done: set<int>)
    requires Canonical(b) && i < |a| && j < |b| && a[i].End() <= b[j].End()
    ensures done + Meet(a, i, b, j) == done + Interval(a[i]) * Interval(b[j]) + Meet(a, i + 1, b, j)
  {
    MeetFirst(a, i, b, j);
    UnionAssociates(done, Interval(a[i]) * Interval(b[j]), Meet(a, i + 1, b, j));
  }

  /** A range that lies before the other meets nothing. */
  lemma MeetSkip(a: seq<Range>, i: nat, b: seq<Range>, j: nat)
    requires Canonical(b) && i < |a| && j < |b| && a[i].End() <= b[j].start
    ensures Meet(a, i, b, j) == Meet(a, i + 1, b, j)
  {
    MeetFirst(a, i, b, j);
    OverlapInterval(a[i], b[j]);
  }

  lemma MeetSkipOther(a: seq<Range>, i: nat, b: seq<Range>, j: nat)
    requires Canonical(a) && i < |a| && j < |b| && b[j].End() <= a[i].start
    ensures Meet(a, i, b, j) == Meet(a, i, b, j + 1)
  {
    MeetCommutes(a, i, b, j);
    MeetSkip(b, j, a, i);
    MeetCommutes(a, i, b, j + 1);
  }

  lemma UnionAssociates(a: set<int>, b: set<int>, c: set<int>)
    ensures a + (b + c) == a + b + c
  {
  }

  lemma MeetCommutes(a: seq<Range>, i: nat, b: seq<Range>, j: nat)
    requires i <= |a| && j <= |b|
    ensures Meet(a, i, b, j) == Meet(b, j, a, i)
  {
  }

  lemma MeetStepOther(a: seq<Range>, i: nat, b: seq<Range>, j: nat, done: set<int>)
    requires Canonical(a) && i < |a| && j < |b| && b[j].End() <= a[i].End()
    ensures done + Meet(a, i, b, j) == done + Interval(a[i]) * Interval(b[j]) + Meet(a, i, b, j + 1)
  {
    MeetCommutes(a, i, b, j);
    MeetCommutes(a, i, b, j + 1);
    assert Interval(a[i]) * Interval(b[j]) == Interval(b[j]) * Interval(a[i]);
    MeetStep(b, j, a, i, done);
  }

  // ----- canonical lists are unique -----

  lemma FirstIsMember(rs: seq<Range>)
    requires Canonical(rs) && rs != []
    ensures rs[0].start in Members(rs) && rs[0].End() !in Members(rs)
  {
    assert rs[0].Covers(rs[0].start);
    AboveFirst(rs);
  }

  /** One set, one canonical list. */
  lemma {:induction false} CanonicalUnique(a: seq<Range>, b: seq<Range>)
    requires Canonical(a) && Canonical(b) && Members(a) == Members(b)
    ensures a == b
  {
    if a == [] {
      if b != [] {
        FirstIsMember(b);
      }
    } else {
      FirstIsMember(a);
      AboveFirst(a);
      assert b != [];
      FirstIsMember(b);
      AboveFirst(b);
      assert a[0].start == b[0].start;
      assert !b[0].Covers(a[0].End()) && !a[0].Covers(b[0].End());
      assert Interval(a[0]) == Interval(b[0]);
      assert Members(a[1..]) == Members(a) - Interval(a[0]);
      assert Members(b[1..]) == Members(b) - Interval(b[0]);
      CanonicalUnique(a[1..], b[1..]);
    }
  }

  // ----- cardinality -----

  lemma {:induction false} IntervalSize(r: Range)
    ensures |Interval(r)| == r.length
    decreases r.length
  {
    if r.length == 0 {
      assert Interval(r) == {};
    } else {
      var shorter := Range(r.start, r.length - 1);
      IntervalSize(shorter);
      assert Interval(r) == Interval(shorter) + {r.End() - 1};
    }
  }

  /** In a canonical list no value is counted twice. */
  lemma FirstApart(rs: seq<Range>)
    requires Canonical(rs) && rs != []
    ensures |Members(rs)| == rs[0].length + |Members(rs[1..])|
  {
    AboveFirst(rs);
    IntervalSize(rs[0]);
    assert Interval(rs[0]) !! Members(rs[1..]);
  }

  class RangeSet {
    var ranges: seq<Range>

    ghost predicate Valid()
      reads this
    {
      Canonical(ranges)
    }

    ghost function Set(): set<int>
      reads this
    {
      Members(ranges)
    }

    constructor ()
      ensures Valid() && Set() == {}
    {
      ranges := [];
    }

    constructor Clone(other: RangeSet)
      ensures ranges == other.ranges
    {
      ranges := other.ranges;
    }

    method Len() returns (total: nat)
      requires Valid()
      ensures total == |Set()|
    {
      total := 0;
      assert ranges[0..] == ranges;
      for i := 0 to |ranges|
        invariant Canonical(ranges[i..]) && total + |Members(ranges[i..])| == |Set()|
      {
        FirstApart(ranges[i..]);
        assert ranges[i..][1..] == ranges[i + 1..];
        total := total + ranges[i].length;
      }
    }

    method Contains(value: nat) returns (found: bool)
      requires Valid()
      ensures found <==> value in Set()
    {
      assert ranges[0..] == ranges;
      for i := 0 to |ranges|
        invariant Canonical(ranges[i..])
        invariant value in Set() <==> value in Members(ranges[i..])
      {
        AboveFirst(ranges[i..]);
        MembersDrop(ranges, i);
        assert ranges[i..][1..] == ranges[i + 1..];
        if value < ranges[i].start {
          return false;
        } else if ranges[i].start <= value && value < ranges[i].End() {
          assert ranges[i].Covers(value);
          return true;
        }
      }
      return false;
    }

    /** The longest run of members that begins at `value`. */
    method ContainedLengthFromValue(value: nat) returns (n: nat)
      requires Valid()
      ensures forall x :: value <= x < value + n ==> x in Set()
      ensures value + n !in Set()
    {
      assert ranges[0..] == ranges;
      for i := 0 to |ranges|
        invariant Canonical(ranges[i..])
        invariant forall x :: value <= x ==> (x in Set() <==> x in Members(ranges[i..]))
      {
        var r := ranges[i];
        AboveFirst(ranges[i..]);
        MembersDrop(ranges, i);
        assert ranges[i..][1..] == ranges[i + 1..];
        if value < r.start {
          return 0;
        } else if r.start <= value && value < r.End() {
          assert forall x :: value <= x < r.End() ==> r.Covers(x);
          return r.End() - value;
        }
      }
      return 0;
    }

    method ContainsRangeSet(other: RangeSet) returns (all: bool)
      requires Valid() && other.Valid()
      ensures all <==> other.Set() <= Set()
    {
      assert other.ranges[0..] == other.ranges;
      for i := 0 to |other.ranges|
        invariant other.Set() <= Set() <==> Members(other.ranges[i..]) <= Set()
      {
        var r := other.ranges[i];
        MembersDrop(other.ranges, i);
        var run := ContainedLengthFromValue(r.start);
        if run < r.length {
          assert r.Covers(r.start + run);
          return false;
        }
        assert Interval(r) <= Set();
      }
      return true;
    }

    method AddRange(range: Range)
      requires Valid()
      modifies this
      ensures Valid() && Set() == old(Set()) + Interval(range)
    {
      if range.length == 0 {
        assert Interval(range) == {};
        return;
      }
      AddedMembers(ranges, range);
      AddedCanonical(ranges, range);
      Place(range);
    }

    /** The loops of `add_range`, for a range that is not empty. */
    method Place(range: Range)
      requires Valid() && 0 < range.length
      modifies this
      ensures ranges == Added(old(ranges), range)
    {
      var index := 0;
      assert ranges[0..] == ranges;
      while index < |ranges|
        invariant 0 <= index <= |ranges| && ranges == old(ranges)
        invariant Added(ranges, range) == ranges[..index] + Added(ranges[index..], range)
      {
        assert ranges[index..][1..] == ranges[index + 1..];
        if range.End() < ranges[index].start {
          ranges := ranges[..index] + [range] + ranges[index..];
          return;
        } else if range.start <= ranges[index].End() && ranges[index].start <= range.End() {
          MergeAt(index, range);
          return;
        }
        index := index + 1;
      }
      ranges := ranges + [range];
    }

    /** The inner loop of `add_range`: swallows every range the growing one touches. */
    method MergeAt(index: nat, range: Range)
      requires Valid() && index < |ranges|
      requires range.start <= ranges[index].End() && ranges[index].start <= range.End()
      modifies this
      ensures ranges == old(ranges)[..index] + Added(old(ranges)[index..], range)
    {
      ghost var was := ranges;
      ghost var hi: nat := index;
      var newRange := range;
      while index < |ranges| && ranges[index].start <= newRange.End()
        invariant index <= hi <= |was| && ranges == was[..index] + was[hi..]
        invariant hi < |was| ==> newRange.start <= was[hi].End()
        invariant Added(was[index..], range) == Added(was[hi..], newRange)
        decreases |ranges|
      {
        CanonicalAt(was, hi);
        assert was[hi..][1..] == was[hi + 1..];
        var newEnd := Max(newRange.End(), ranges[index].End());
        var newStart := Min(newRange.start, ranges[index].start);
        newRange := Range(newStart, newEnd - newStart);
        ranges := ranges[..index] + ranges[index + 1..];
        hi := hi + 1;
      }
      assert hi < |was| ==> was[hi] == ranges[index];
      ranges := ranges[..index] + [newRange] + ranges[index..];
    }

    method AddRangeSet(other: RangeSet)
      requires Valid() && other.Valid() && other != this
      modifies this
      ensures Valid() && Set() == old(Set()) + other.Set()
    {
      assert other.ranges[0..] == other.ranges;
      for i := 0 to |other.ranges|
        invariant Valid() && Set() + Members(other.ranges[i..]) == old(Set()) + other.Set()
      {
        MembersDrop(other.ranges, i);
        AddRange(other.ranges[i]);
      }
    }

    method Union(other: RangeSet) returns (result: RangeSet)
      requires Valid() && other.Valid()
      ensures fresh(result) && result.Valid() && result.Set() == Set() + other.Set()
    {
      result := new RangeSet.Clone(this);
      result.AddRangeSet(other);
    }

    method SubtractRange(range: Range)
      requires Valid()
      modifies this
      ensures Valid() && Set() == old(Set()) - Interval(range)
    {
      if range.length == 0 {
        assert Interval(range) == {};
        return;
      }
      SubtractedMembers(ranges, range);
      SubtractedCanonical(ranges, range);
      CutOut(range);
    }

    /** The loops of `subtract_range`, for a range that is not empty. */
    method CutOut(range: Range)
      requires Valid() && 0 < range.length
      modifies this
      ensures ranges == Subtracted(old(ranges), range)
    {
      ghost var was, all := ranges, Subtracted(ranges, range);
      ghost var done: seq<Range> := [];
      var index := 0;
      assert ranges[0..] == ranges && [] + all == all;
      while index < |ranges|
        invariant index == |done| <= |was| && ranges == done + was[index..]
        invariant all == done + Subtracted(was[index..], range)
      {
        if range.End() <= ranges[index].start {
          CanonicalDrop(was, index);
          SubtractedClear(was[index..], range);
          return;
        } else if range.start <= ranges[index].start && ranges[index].start < range.End() {
          CanonicalDrop(was, index);
          assert ranges[index..] == was[index..] && ranges[..index] == done;
          CutBeginnings(index, range);
          return;
        } else if range.End() < ranges[index].End() {
          SubtractedHole(was, index, done, range);
          assert ranges[index + 1..] == was[index + 1..] && ranges[..index] == done;
          PunchHole(index, range);
          return;
        }
        ghost var piece := Pieces(ranges[index], range)[0];
        SubtractedStep(was, index, done, range, piece);
        assert ranges == ranges[index := ranges[index]];
        if range.start < ranges[index].End() {
          ranges := ranges[index := Range(ranges[index].start, range.start - ranges[index].start)];
        }
        done := done + [piece];
        index := index + 1;
      }
    }

    /** The branch for a range that lies within the one at `index`. */
    method PunchHole(index: nat, range: Range)
      requires index < |ranges| && ranges[index].start < range.start && 0 < range.length && range.End() < ranges[index].End()
      modifies this
      ensures ranges == old(ranges)[..index] + Pieces(old(ranges)[index], range) + old(ranges)[index + 1..]
    {
      var firstRange := Range(ranges[index].start, range.start - ranges[index].start);
      ranges := ranges[index := Range(range.End(), ranges[index].length - (range.End() - ranges[index].start))];
      ranges := ranges[..index] + [firstRange] + ranges[index..];
    }

    /** The branch for a range that starts at or before the one at `index`. */
    method CutBeginnings(index: nat, range: Range)
      requires index < |ranges| && 0 < range.length && Canonical(ranges[index..])
      requires range.start <= ranges[index].start < range.End()
      modifies this
      ensures ranges == old(ranges)[..index] + Subtracted(old(ranges)[index..], range)
    {
      ghost var kept, rest := ranges[..index], ranges[index..];
      while index < |ranges| && ranges[index].End() <= range.End()
        invariant ranges == kept + rest && Canonical(rest)
        invariant rest != [] ==> range.start <= rest[0].start
        invariant Subtracted(rest, range) == Subtracted(old(ranges)[index..], range)
        decreases |ranges|
      {
        assert Pieces(rest[0], range) == [];
        assert [] + Subtracted(rest[1..], range) == Subtracted(rest[1..], range);
        rest := rest[1..];
        ranges := ranges[..index] + ranges[index + 1..];
      }
      if index < |ranges| && ranges[index].start < range.End() {
        SubtractedClear(rest[1..], range);
        TrimFirst(kept, rest, range);
        ranges := ranges[index := Range(range.End(), ranges[index].length - (range.End() - ranges[index].start))];
      } else {
        SubtractedClear(rest, range);
      }
    }

    method SubtractRangeSet(other: RangeSet)
      requires Valid() && other.Valid() && other != this
      modifies this
      ensures Valid() && Set() == old(Set()) - other.Set()
    {
      assert other.ranges[0..] == other.ranges;
      for i := 0 to |other.ranges|
        invariant Valid() && Set() - Members(other.ranges[i..]) == old(Set()) - other.Set()
      {
        MembersDrop(other.ranges, i);
        SubtractRange(other.ranges[i]);
      }
    }

    method Minus(other: RangeSet) returns (result: RangeSet)
      requires Valid() && other.Valid()
      ensures fresh(result) && result.Valid() && result.Set() == Set() - other.Set()
    {
      result := new RangeSet.Clone(this);
      result.SubtractRangeSet(other);
    }

    method Intersection(other: RangeSet) returns (result: RangeSet)
      requires Valid() && other.Valid()
      ensures fresh(result) && result.Valid() && result.Set() == Set() * other.Set()
    {
      result := new RangeSet();
      ghost var all := Set() * other.Set();
      assert ranges[0..] == ranges && other.ranges[0..] == other.ranges;
      var selfIndex, otherIndex := 0, 0;
      while selfIndex < |ranges| && otherIndex < |other.ranges|
        invariant 0 <= selfIndex <= |ranges| && 0 <= otherIndex <= |other.ranges|
        invariant fresh(result) && result.Valid()
        invariant result.Set() + Meet(ranges, selfIndex, other.ranges, otherIndex) == all
        decreases |ranges| - selfIndex + |other.ranges| - otherIndex
      {
        var mine, theirs := ranges[selfIndex], other.ranges[otherIndex];
        if mine.End() <= theirs.start {
          MeetSkip(ranges, selfIndex, other.ranges, otherIndex);
          selfIndex := selfIndex + 1;
        } else if theirs.End() <= mine.start {
          MeetSkipOther(ranges, selfIndex, other.ranges, otherIndex);
          otherIndex := otherIndex + 1;
        } else {
          ghost var done := result.Set();
          result.AddOverlap(mine, theirs);
          if mine.End() <= theirs.End() {
            MeetStep(ranges, selfIndex, other.ranges, otherIndex, done);
            selfIndex := selfIndex + 1;
          } else {
            MeetStepOther(ranges, selfIndex, other.ranges, otherIndex, done);
            otherIndex := otherIndex + 1;
          }
        }
      }
    }

    /** Adds what two ranges have in common. */
    method AddOverlap(mine: Range, theirs: Range)
      requires Valid() && theirs.start < mine.End() && mine.start < theirs.End()
      modifies this
      ensures Valid() && Set() == old(Set()) + Interval(mine) * Interval(theirs)
    {
      var newStart := Max(mine.start, theirs.start);
      var newEnd := Min(mine.End(), theirs.End());
      OverlapInterval(mine, theirs);
      AddRange(Range(newStart, newEnd - newStart));
    }
  }
}
