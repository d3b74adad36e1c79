/** Record liveness on one node: what bumps, merges, flushes and the clock do to stored bytes. */
module Liveness {
  import opened Core
  import opened Record

  /** The RAM-resident state a read consults. */
  datatype Node = Node(now: nat, epoch: u32, generations: map<u32, u64>)

  const NEVER: u64 := 0
  const EPOCHS: nat := U32_MAX + 1

  predicate IsExpired(r: View, now: nat) { r.meta.expiresAt != NEVER && r.meta.expiresAt <= now }
  predicate IsFlushed(r: View, epoch: u32) { r.meta.epoch != epoch }

  /** Every tag is still at the generation captured; an unknown tag fails closed. */
  predicate TagsAlive(r: View, generations: map<u32, u64>) {
    forall i :: 0 <= i < |r.tags| ==>
      r.tags[i].id in generations && generations[r.tags[i].id] == r.tags[i].generation
  }

  predicate IsAlive(r: View, n: Node) {
    !IsExpired(r, n.now) && !IsFlushed(r, n.epoch) && TagsAlive(r, n.generations)
  }

  datatype Event =
    | Advance(ms: nat)
    | Register(id: u32, start: u64)
    | Bump(id: u32)
    | Merge(id: u32, generation: u64)
    | Flush

  function Apply(n: Node, e: Event): Node {
    match e
    case Advance(ms) => n.(now := n.now + ms)
    case Register(id, start) =>
      if id in n.generations then n else n.(generations := n.generations[id := start])
    case Bump(id) =>
      if id !in n.generations then n
      else n.(generations := n.generations[id := Min(n.generations[id] as int + 1, U64_MAX)])
    case Merge(id, generation) =>
      if id !in n.generations then n.(generations := n.generations[id := generation])
      else n.(generations := n.generations[id := Max(n.generations[id], generation)])
    case Flush => n.(epoch := (n.epoch as int + 1) % EPOCHS)
  }

  function Run(n: Node, es: seq<Event>): Node
    decreases |es|
  {
    if es == [] then n else Run(Apply(n, es[0]), es[1..])
  }

  /** The step raised the generation of a tag the record carries. */
  predicate Raises(n: Node, e: Event, r: View) {
    exists i :: 0 <= i < |r.tags| && Raised(n, e, r.tags[i].id)
  }

  predicate Raised(n: Node, e: Event, id: u32) {
    id in n.generations && Apply(n, e).generations[id] > n.generations[id]
  }

  predicate EverRaised(n: Node, es: seq<Event>, r: View)
    decreases |es|
  {
    es != [] && (Raises(n, es[0], r) || EverRaised(Apply(n, es[0]), es[1..], r))
  }

  function Flushes(es: seq<Event>): nat {
    if es == [] then 0 else (if es[0].Flush? then 1 else 0) + Flushes(es[1..])
  }

  /** Milliseconds the clock moved on by. */
  function Elapsed(es: seq<Event>): nat {
    if es == [] then 0 else (if es[0].Advance? then es[0].ms else 0) + Elapsed(es[1..])
  }

  /** The header a write captures: the current epoch and the current generation of every tag. */
  predicate WrittenAt(r: View, n: Node) { r.meta.epoch == n.epoch && TagsAlive(r, n.generations) }

  /** Generations only rise, on every tag a node has ever registered. */
  lemma {:induction false} GenerationsRise(n: Node, es: seq<Event>, id: u32)
    requires id in n.generations
    ensures id in Run(n, es).generations && Run(n, es).generations[id] >= n.generations[id]
    decreases |es|
  {
    if es != [] { GenerationsRise(Apply(n, es[0]), es[1..], id); }
  }

  lemma {:induction false} EpochCounts(n: Node, es: seq<Event>)
    ensures Run(n, es).epoch == (n.epoch + Flushes(es)) % EPOCHS
    decreases |es|
  {
    if es != [] {
      EpochCounts(Apply(n, es[0]), es[1..]);
      NextEpoch(n.epoch, Flushes(es[1..]));
    }
  }

  lemma NextEpoch(e: u32, k: nat)
    ensures ((e as int + 1) % EPOCHS + k) % EPOCHS == (e as int + 1 + k) % EPOCHS
  {
    if e == U32_MAX {
      assert EPOCHS + k == 1 * EPOCHS + k;
    }
  }

  lemma {:induction false} TagsAliveExactly(n: Node, es: seq<Event>, r: View)
    requires TagsAlive(r, n.generations)
    ensures TagsAlive(r, Run(n, es).generations) <==> !EverRaised(n, es, r)
    decreases |es|
  {
    if es != [] {
      var n' := Apply(n, es[0]);
      if Raises(n, es[0], r) {
        var i :| 0 <= i < |r.tags| && Raised(n, es[0], r.tags[i].id);
        GenerationsRise(n', es[1..], r.tags[i].id);
      } else {
        forall i | 0 <= i < |r.tags|
          ensures r.tags[i].id in n'.generations && n'.generations[r.tags[i].id] == r.tags[i].generation
        {
          assert !Raised(n, es[0], r.tags[i].id);
        }
        TagsAliveExactly(n', es[1..], r);
      }
    }
  }

  lemma {:induction false} ClockCounts(n: Node, es: seq<Event>)
    ensures Run(n, es).now == n.now + Elapsed(es)
    decreases |es|
  {
    if es != [] { ClockCounts(Apply(n, es[0]), es[1..]); }
  }

  /** Over every run, the bytes are alive exactly while the deadline, if they have one, is still to
      come by the time that has gone by, no tag of theirs has been raised, and the flushes since the write come to a whole turn of the 32-bit
      epoch; short of that turn, exactly while there has been no flush. */
  lemma AliveExactly(n: Node, es: seq<Event>, r: View)
    requires WrittenAt(r, n)
    ensures IsAlive(r, Run(n, es)) <==>
      && (r.meta.expiresAt == 0 || n.now + Elapsed(es) < r.meta.expiresAt)
      && Flushes(es) % 0x1_0000_0000 == 0 && !EverRaised(n, es, r)
    ensures Flushes(es) < EPOCHS ==> (Flushes(es) % EPOCHS == 0 <==> Flushes(es) == 0)
  {
    TagsAliveExactly(n, es, r);
    ClockCounts(n, es);
    EpochCounts(n, es);
    TurnsBack(n.epoch, Flushes(es));
  }

  lemma TurnsBack(e: u32, k: nat)
    ensures (e + k) % EPOCHS == e <==> k % EPOCHS == 0
  {
    var q, m := k / EPOCHS, k % EPOCHS;
    assert k == q * EPOCHS + m;
    assert (e + k) % EPOCHS == (e + m) % EPOCHS;
  }

  lemma {:induction false} RunSplits(n: Node, a: seq<Event>, b: seq<Event>)
    ensures Run(n, a + b) == Run(Run(n, a), b)
    ensures Flushes(a + b) == Flushes(a) + Flushes(b) && Elapsed(a + b) == Elapsed(a) + Elapsed(b)
    decreases |a|
  {
    if a == [] {
      assert a + b == b;
    } else {
      assert (a + b)[1..] == a[1..] + b;
      RunSplits(Apply(n, a[0]), a[1..], b);
    }
  }

  /** The dead stay dead: within one turn of the epoch no continuation of the run revives them. */
  lemma DeadForGood(n: Node, a: seq<Event>, b: seq<Event>, r: View)
    requires WrittenAt(r, n) && Flushes(a + b) < EPOCHS
    requires !IsAlive(r, Run(n, a))
    ensures !IsAlive(r, Run(n, a + b))
  {
    RunSplits(n, a, b);
    AliveExactly(n, a, r);
    AliveExactly(n, a + b, r);
    if EverRaised(n, a, r) { RaisedStays(n, a, b, r); }
  }

  lemma {:induction false} RaisedStays(n: Node, a: seq<Event>, b: seq<Event>, r: View)
    requires EverRaised(n, a, r)
    ensures EverRaised(n, a + b, r)
    decreases |a|
  {
    assert (a + b)[1..] == a[1..] + b;
    if !Raises(n, a[0], r) { RaisedStays(Apply(n, a[0]), a[1..], b, r); }
  }

  /** A local invalidation retires every live record of the tag unless the counter has saturated; one
      learned from a peer does exactly if it is past the generation held; and neither touches a
      record without the tag. */
  lemma BumpRetires(n: Node, id: u32, g: u64, r: View)
    requires IsAlive(r, n)
    ensures
      var carries := exists i :: 0 <= i < |r.tags| && r.tags[i].id == id;
      && (IsAlive(r, Apply(n, Bump(id))) <==> !carries || n.generations[id] == U64_MAX)
      && (IsAlive(r, Apply(n, Merge(id, g))) <==> !carries || g <= n.generations[id])
  {
    if i :| 0 <= i < |r.tags| && r.tags[i].id == id {
      assert r.tags[i].generation == n.generations[id];
      if n.generations[id] != U64_MAX {
        assert Apply(n, Bump(id)).generations[r.tags[i].id] != r.tags[i].generation;
      }
      if g > n.generations[id] {
        assert Apply(n, Merge(id, g)).generations[r.tags[i].id] != r.tags[i].generation;
      }
    }
  }

  /** A tag the node has never heard of keeps its records dead, bumped or not; registered or learned, it
      starts where it was said to, and revives exactly the records that captured that generation. */
  lemma FirstHeard(n: Node, id: u32, g: u64, r: View)
    requires id !in n.generations && |r.tags| == 1 && r.tags[0].id == id
    requires r.meta.epoch == n.epoch && r.meta.expiresAt == 0
    ensures !IsAlive(r, n) && !IsAlive(r, Apply(n, Bump(id)))
    ensures IsAlive(r, Apply(n, Register(id, g))) <==> r.tags[0].generation == g
    ensures IsAlive(r, Apply(n, Merge(id, g))) <==> r.tags[0].generation == g
  {
    assert r.tags[0].id !in n.generations;
  }
}
