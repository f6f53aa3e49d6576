/** The audio cache's size limit: least recently used files go first. `core/src/cache.rs`. */
module SizeLimiters {
  import opened Wrappers

  type Path = string
  type Time = nat

  // ----- sums over a map -----

  ghost function Total(sizes: map<Path, nat>): nat
    decreases |sizes|
  {
    if sizes == map[] then 0
    else
      var p :| p in sizes;
      sizes[p] + Total(sizes - {p})
  }

  lemma {:induction false} TotalWithout(sizes: map<Path, nat>, p: Path)
    requires p in sizes
    ensures Total(sizes) == sizes[p] + Total(sizes - {p})
    decreases |sizes|
  {
    var q :| q in sizes && Total(sizes) == sizes[q] + Total(sizes - {q});
    if p != q {
      TotalWithout(sizes - {q}, p);
      TotalWithout(sizes - {p}, q);
      assert sizes - {q} - {p} == sizes - {p} - {q};
    }
  }

  lemma TotalUpdated(sizes: map<Path, nat>, p: Path, size: nat)
    ensures Total(sizes[p := size]) == size + Total(sizes - {p})
  {
    TotalWithout(sizes[p := size], p);
    assert sizes[p := size] - {p} == sizes - {p};
  }

  // ----- which files a prune evicts -----

  predicate IsOldest(queue: map<Path, Time>, p: Path) {
    p in queue && forall q :: q in queue ==> queue[p] <= queue[q]
  }

  lemma {:induction false} OldestExists(queue: map<Path, Time>)
    requires queue != map[]
    ensures exists p :: IsOldest(queue, p)
    decreases |queue|
  {
    var p :| p in queue;
    var rest := queue - {p};
    assert forall q :: q in queue && q != p ==> q in rest;
    if rest == map[] {
      assert IsOldest(queue, p);
    } else {
      OldestExists(rest);
      var o :| IsOldest(rest, o);
      assert IsOldest(queue, if queue[p] <= queue[o] then p else o);
    }
  }

  /** `evicted`, in order, is what popping until the limit is met takes out of the cache. */
  ghost predicate Evicts(queue: map<Path, Time>, sizes: map<Path, nat>, limit: nat, evicted: seq<Path>)
    decreases |evicted|
  {
    if evicted == [] then Total(sizes) <= limit
    else
      && limit < Total(sizes)
      && IsOldest(queue, evicted[0])
      && Evicts(queue - {evicted[0]}, sizes - {evicted[0]}, limit, evicted[1..])
  }

  ghost function Gone(evicted: seq<Path>): set<Path> {
    set p | p in evicted
  }

  // ----- a prune among other threads -----

  /** What the limiter holds at a moment when nobody has it locked. */
  datatype Moment = Moment(queue: map<Path, Time>, sizes: map<Path, nat>)

  /** What another thread may do with it; a pop of its own removes a file. */
  datatype Op = Added(file: Path, size: nat, accessed: Time) | Touched(file: Path, accessed: Time) | Removed(file: Path)

  function Without(m: Moment, p: Path): Moment {
    Moment(m.queue - {p}, m.sizes - {p})
  }

  function AfterOp(m: Moment, op: Op): Moment {
    match op
    case Added(file, size, accessed) => Moment(m.queue[file := accessed], m.sizes[file := size])
    case Touched(file, accessed) => if file in m.queue then m.(queue := m.queue[file := accessed]) else m
    case Removed(file) => Without(m, file)
  }

  function AfterOps(m: Moment, ops: seq<Op>): Moment {
    if ops == [] then m else AfterOp(AfterOps(m, ops[..|ops| - 1]), ops[|ops| - 1])
  }

  /** What others do between the k-th pop and the next. */
  function Between(others: seq<seq<Op>>, k: nat): seq<Op> {
    if k < |others| then others[k] else []
  }

  /** What a pop takes at a moment that is over the limit, and what the next pop then finds. */
  ghost predicate PopsTo(m: Moment, limit: nat, p: Path, ops: seq<Op>, next: Moment) {
    limit < Total(m.sizes) && IsOldest(m.queue, p) && next == AfterOps(Without(m, p), ops)
  }

  /** Each pop finds the limit exceeded and takes the oldest file there is then. */
  ghost predicate Pops(moments: seq<Moment>, others: seq<seq<Op>>, limit: nat, evicted: seq<Path>) {
    && |moments| == |evicted| + 1
    && forall k :: 0 <= k < |evicted| ==> PopsTo(moments[k], limit, evicted[k], Between(others, k), moments[k + 1])
  }

  lemma PopsSnoc(moments: seq<Moment>, others: seq<seq<Op>>, limit: nat, evicted: seq<Path>, p: Path, next: Moment)
    requires Pops(moments, others, limit, evicted)
    requires PopsTo(moments[|evicted|], limit, p, Between(others, |evicted|), next)
    ensures Pops(moments + [next], others, limit, evicted + [p])
  {
  }

  /** The pops of a prune, the last of which finds the limit met. */
  ghost predicate EvictsAmid(moments: seq<Moment>, others: seq<seq<Op>>, limit: nat, evicted: seq<Path>) {
    Pops(moments, others, limit, evicted) && Total(moments[|evicted|].sizes) <= limit
  }

  /** With no other thread about, a prune is a plain eviction, and what it leaves is what it did not evict. */
  lemma {:induction false} AloneEvicts(moments: seq<Moment>, limit: nat, evicted: seq<Path>)
    requires EvictsAmid(moments, [], limit, evicted)
    ensures Evicts(moments[0].queue, moments[0].sizes, limit, evicted)
    ensures moments[|evicted|].queue == moments[0].queue - Gone(evicted)
    ensures moments[|evicted|].sizes == moments[0].sizes - Gone(evicted)
    decreases |evicted|
  {
    if evicted == [] {
      assert Gone(evicted) == {};
    } else {
      var rest := evicted[1..];
      assert PopsTo(moments[0], limit, evicted[0], Between([], 0), moments[1]);
      forall k | 0 <= k < |rest|
        ensures PopsTo(moments[1..][k], limit, rest[k], Between([], k), moments[1..][k + 1])
      {
        assert PopsTo(moments[k + 1], limit, evicted[k + 1], Between([], k + 1), moments[k + 2]);
      }
      AloneEvicts(moments[1..], limit, rest);
      assert Gone(evicted) == {evicted[0]} + Gone(rest);
    }
  }

  /** How many of the first n deletions succeed. */
  function Successes(deletes: nat -> bool, n: nat): nat {
    if n == 0 then 0 else Successes(deletes, n - 1) + if deletes(n - 1) then 1 else 0
  }

  /** The last file that could not be deleted. */
  function LastFailure(deletes: nat -> bool, evicted: seq<Path>): Option<Path> {
    if evicted == [] then None
    else
      var n := |evicted| - 1;
      if deletes(n) then LastFailure(deletes, evicted[..n]) else Some(evicted[n])
  }

  lemma TallySnoc(deletes: nat -> bool, evicted: seq<Path>, p: Path)
    ensures LastFailure(deletes, evicted + [p]) == if deletes(|evicted|) then LastFailure(deletes, evicted) else Some(p)
    ensures Successes(deletes, |evicted + [p]|) == Successes(deletes, |evicted|) + if deletes(|evicted|) then 1 else 0
  {
    assert (evicted + [p])[..|evicted|] == evicted;
  }

  /** An error is reported exactly if a deletion failed, which is when fewer files are counted than were evicted. */
  lemma {:induction false} FailureExactly(deletes: nat -> bool, evicted: seq<Path>)
    ensures LastFailure(deletes, evicted).None? <==> forall k :: 0 <= k < |evicted| ==> deletes(k)
    ensures Successes(deletes, |evicted|) == |evicted| <==> LastFailure(deletes, evicted).None?
    ensures Successes(deletes, |evicted|) <= |evicted|
  {
    if evicted == [] {
    } else {
      FailureExactly(deletes, evicted[..|evicted| - 1]);
    }
  }

  /** What is evicted was there, is evicted once, oldest first, and no survivor is older. */
  lemma {:induction false} EvictsOldestFirst(queue: map<Path, Time>, sizes: map<Path, nat>, limit: nat, evicted: seq<Path>)
    requires Evicts(queue, sizes, limit, evicted)
    ensures forall i :: 0 <= i < |evicted| ==> evicted[i] in queue
    ensures forall i, j :: 0 <= i < j < |evicted| ==> evicted[i] != evicted[j] && queue[evicted[i]] <= queue[evicted[j]]
    ensures forall i, p :: 0 <= i < |evicted| && p in queue && p !in evicted ==> queue[evicted[i]] <= queue[p]
    decreases |evicted|
  {
    if evicted == [] {
    } else {
      EvictsOldestFirst(queue - {evicted[0]}, sizes - {evicted[0]}, limit, evicted[1..]);
      assert evicted == [evicted[0]] + evicted[1..];
    }
  }

  /** What is left fits, and before each eviction it did not. */
  lemma {:induction false} EvictsJustEnough(queue: map<Path, Time>, sizes: map<Path, nat>, limit: nat, evicted: seq<Path>)
    requires Evicts(queue, sizes, limit, evicted)
    ensures Total(sizes - Gone(evicted)) <= limit
    ensures forall k :: 0 <= k < |evicted| ==> limit < Total(sizes - Gone(evicted[..k]))
    decreases |evicted|
  {
    if evicted == [] {
      assert sizes - Gone(evicted) == sizes;
    } else {
      var p, rest := evicted[0], evicted[1..];
      EvictsJustEnough(queue - {p}, sizes - {p}, limit, rest);
      assert sizes - Gone(evicted) == sizes - {p} - Gone(rest);
      forall k | 0 <= k < |evicted|
        ensures limit < Total(sizes - Gone(evicted[..k]))
      {
        if k == 0 {
          assert sizes - Gone(evicted[..0]) == sizes;
        } else {
          assert evicted[..k] == [p] + rest[..k - 1];
          assert sizes - Gone(evicted[..k]) == sizes - {p} - Gone(rest[..k - 1]);
        }
      }
    }
  }

  /** Without ties there is only one way to prune. */
  lemma {:induction false} EvictionUnique(queue: map<Path, Time>, sizes: map<Path, nat>, limit: nat, a: seq<Path>, b: seq<Path>)
    requires forall p, q :: p in queue && q in queue && p != q ==> queue[p] != queue[q]
    requires Evicts(queue, sizes, limit, a) && Evicts(queue, sizes, limit, b)
    ensures a == b
    decreases |a|
  {
    if a == [] {
    } else {
      assert b != [] && a[0] == b[0];
      EvictionUnique(queue - {a[0]}, sizes - {a[0]}, limit, a[1..], b[1..]);
      assert a == [a[0]] + a[1..] && b == [b[0]] + b[1..];
    }
  }

  class SizeLimiter {
    var queue: map<Path, Time>
    var sizes: map<Path, nat>
    const sizeLimit: nat
    var inUse: nat

    ghost predicate Valid()
      reads this
    {
      queue.Keys == sizes.Keys && inUse == Total(sizes)
    }

    constructor (limit: nat)
      ensures Valid() && sizeLimit == limit && sizes == map[]
    {
      queue := map[];
      sizes := map[];
      sizeLimit := limit;
      inUse := 0;
    }

    method Add(file: Path, size: nat, accessed: Time)
      requires Valid()
      modifies this
      ensures Valid()
      ensures queue == old(queue)[file := accessed] && sizes == old(sizes)[file := size]
    {
      TotalUpdated(sizes, file, size);
      if file in sizes {
        TotalWithout(sizes, file);
      } else {
        assert sizes - {file} == sizes;
      }
      inUse := inUse + size;
      queue := queue[file := accessed];
      var oldSize := if file in sizes then Some(sizes[file]) else None;
      sizes := sizes[file := size];
      if oldSize.Some? {
        inUse := inUse - oldSize.value;
      }
    }

    predicate ExceedsLimit()
      reads this
    {
      sizeLimit < inUse
    }

    /** Neither of the source's two error branches can be reached. */
    method Pop() returns (next: Option<Path>)
      requires Valid()
      modifies this
      ensures Valid()
      ensures next.None? ==> old(Total(sizes)) <= sizeLimit && queue == old(queue) && sizes == old(sizes)
      ensures next.Some? ==> sizeLimit < old(Total(sizes)) && IsOldest(old(queue), next.value)
      ensures next.Some? ==> queue == old(queue) - {next.value} && sizes == old(sizes) - {next.value}
    {
      assert queue == map[] ==> sizes.Keys == {};
      if ExceedsLimit() {
        if queue != map[] {
          OldestExists(queue);
          var p :| IsOldest(queue, p);
          queue := queue - {p};
          if p in sizes {
            TotalWithout(sizes, p);
            inUse := inUse - sizes[p];
            sizes := sizes - {p};
          } else {
            assert false;
          }
          return Some(p);
        } else {
          assert false;
        }
      }
      return None;
    }

    method Update(file: Path, accessTime: Time) returns (existed: bool)
      requires Valid()
      modifies this
      ensures Valid() && existed == (file in old(queue)) && sizes == old(sizes)
      ensures queue == if existed then old(queue)[file := accessTime] else old(queue)
    {
      if file in queue {
        queue := queue[file := accessTime];
        return true;
      }
      return false;
    }

    method Remove(file: Path) returns (existed: bool)
      requires Valid()
      modifies this
      ensures Valid() && existed == (file in old(queue))
      ensures queue == old(queue) - {file} && sizes == old(sizes) - {file}
    {
      if file !in queue {
        assert queue - {file} == queue && sizes - {file} == sizes;
        return false;
      }
      queue := queue - {file};
      if file in sizes {
        TotalWithout(sizes, file);
        inUse := inUse - sizes[file];
        sizes := sizes - {file};
      } else {
        assert false;
      }
      return true;
    }

    ghost function Now(): Moment
      reads this
    {
      Moment(queue, sizes)
    }

    method Apply(ops: seq<Op>)
      requires Valid()
      modifies this
      ensures Valid() && Now() == AfterOps(old(Now()), ops)
    {
      ghost var before := Now();
      for i := 0 to |ops|
        invariant Valid() && Now() == AfterOps(before, ops[..i])
      {
        assert ops[..i + 1][..i] == ops[..i];
        match ops[i] {
          case Added(file, size, accessed) =>
            Add(file, size, accessed);
          case Touched(file, accessed) =>
            var existed := Update(file, accessed);
          case Removed(file) =>
            var existed := Remove(file);
        }
      }
      assert ops[..|ops|] == ops;
    }

    /** A pop with the lock held, and then what others do before the next one. */
    method PopThen(ops: seq<Op>) returns (next: Option<Path>)
      requires Valid()
      modifies this
      ensures Valid()
      ensures next.None? ==> !ExceedsLimit() && Now() == old(Now())
      ensures next.Some? ==> PopsTo(old(Now()), sizeLimit, next.value, ops, Now())
      ensures next.Some? && ops == [] ==> |queue| < old(|queue|)
    {
      next := Pop();
      if next.Some? {
        assert |queue| < old(|queue|) by {
          assert queue.Keys == old(queue.Keys) - {next.value};
        }
        Apply(ops);
      }
    }

    /**
     * `prune`: the limiter is locked for each pop alone, so `others` may change it in between. `deletes` says what the
     * file system answers to the k-th deletion.
     */
    method Prune(others: seq<seq<Op>>, deletes: nat -> bool)
      returns (evicted: seq<Path>, count: nat, lastError: Option<Path>, ghost moments: seq<Moment>)
      requires Valid()
      modifies this
      ensures Valid() && !ExceedsLimit()
      ensures EvictsAmid(moments, others, sizeLimit, evicted) && moments[0] == old(Now()) && moments[|evicted|] == Now()
      ensures lastError == LastFailure(deletes, evicted) && count == Successes(deletes, |evicted|)
    {
      evicted, count, lastError := [], 0, None;
      moments := [Now()];
      while true
        invariant Valid() && Pops(moments, others, sizeLimit, evicted)
        invariant moments[0] == old(Now()) && moments[|evicted|] == Now()
        invariant lastError == LastFailure(deletes, evicted) && count == Successes(deletes, |evicted|)
        decreases if |evicted| < |others| then |others| - |evicted| else 0, |queue|
      {
        var file := PopThen(Between(others, |evicted|));
        if file.None? {
          return;
        }
        if deletes(|evicted|) {
          count := count + 1;
        } else {
          lastError := file;
        }
        PopsSnoc(moments, others, sizeLimit, evicted, file.value, Now());
        TallySnoc(deletes, evicted, file.value);
        evicted := evicted + [file.value];
        moments := moments + [Now()];
      }
    }
  }
}
