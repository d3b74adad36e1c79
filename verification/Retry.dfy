/** A failed batch retried one write at a time, and exactly when batching shows in values or tokens. */
module Retry {
  import opened Core
  import opened Commands
  import opened Store
  import opened SetMany
  import Clock

  // -- Writing the same effects twice --------------------------------------------------------

  /** The deadline a later write would inherit from one stored with this deadline. */
  function Seen(cfg: Config, deadline: nat): nat { if Expired(cfg, deadline) then NEVER else deadline }

  function Then(cfg: Config, a: Change, b: Change): Change {
    match a
    case Fix(at) => Fix(DeadlineAfter(b, Seen(cfg, at)))
    case Fallback(at) =>
      if b.Fix? then b else Fallback(DeadlineAfter(b, Seen(cfg, at)))
  }

  /** What a sequence of writes to one key comes to, as one write. */
  function Sum(cfg: Config, es: seq<Effect>): Effect
    requires es != []
  {
    if |es| == 1 then es[0]
    else
      var rest := Sum(cfg, es[1..]);
      rest.(change := Then(cfg, es[0].change, rest.change))
  }

  predicate AllCurrent(g: Generations, es: seq<Effect>) {
    forall e :: e in es ==> Current(g, e.tags)
  }

  lemma {:induction false} RunIsSum(cfg: Config, g: Generations, v: Option<Record>, es: seq<Effect>)
    requires es != [] && AllCurrent(g, es)
    ensures RunKey(cfg, g, v, es) == Some(Stored(cfg, g, v, Sum(cfg, es)))
    ensures Current(g, Sum(cfg, es).tags)
    decreases |es|
  {
    assert es[0] in es;
    var first := Stored(cfg, g, v, es[0]);
    if |es| == 1 {
      assert es[1..] == [];
      assert RunKey(cfg, g, Some(first), []) == Some(first);
    } else {
      RunIsSum(cfg, g, Some(first), es[1..]);
    }
  }

  lemma {:induction false} EffectsAreCurrent(cfg: Config, g: Generations, xs: seq<Write>, k: Key)
    ensures AllCurrent(g, OfKey(cfg, g, xs, k))
  {
    if xs != [] { EffectsAreCurrent(cfg, g, xs[1..], k); }
  }

  /** Re-applying a key's writes to what they left behind changes nothing, even where a write
      inherits the deadline it finds. */
  lemma RunAgain(cfg: Config, g: Generations, v: Option<Record>, es: seq<Effect>)
    requires AllCurrent(g, es)
    ensures RunKey(cfg, g, RunKey(cfg, g, v, es), es) == RunKey(cfg, g, v, es)
  {
    if es != [] {
      RunIsSum(cfg, g, v, es);
      RunIsSum(cfg, g, RunKey(cfg, g, v, es), es);
    }
  }

  // -- A batch that fails --------------------------------------------------------------------

  lemma {:induction false} WithinMembers(cfg: Config, xs: seq<Write>, shards: set<nat>, x: Write)
    ensures x in Within(cfg, xs, shards) <==> x in xs && cfg.shardOf(x.key) in shards
  {
    if xs != [] { WithinMembers(cfg, xs[1..], shards, x); }
  }

  lemma {:induction false} CommittedAccepted(cfg: Config, g: Generations, xs: seq<Write>, shards: set<nat>, k: Key)
    requires AllAcceptable(cfg, Within(cfg, xs, shards)) && cfg.shardOf(k) in shards
    ensures OfKey(cfg, g, Accepted(cfg, xs), k) == OfKey(cfg, g, xs, k)
  {
    if xs != [] {
      forall x | x in Within(cfg, xs[1..], shards) ensures Acceptable(cfg, x) {
        assert x in Within(cfg, xs, shards);
      }
      CommittedAccepted(cfg, g, xs[1..], shards, k);
      if xs[0].key == k { assert xs[0] in Within(cfg, xs, shards); }
    }
  }

  lemma {:induction false} AllFitting(cfg: Config, xs: seq<Write>)
    requires forall x :: x in xs ==> TagsFit(cfg, x)
    ensures Fitting(cfg, xs) == xs
  {
    if xs != [] {
      assert xs[0] in xs;
      AllFitting(cfg, xs[1..]);
    }
  }

  lemma RegisteredBefore(cfg: Config, xs: seq<Write>, f: Fate)
    requires Possible(cfg, xs, f) && !f.ok
    ensures f.registered <= Names(Fitting(cfg, xs))
  {
    if !TooManyTags(cfg, xs) { AllFitting(cfg, xs); }
  }

  lemma CommittedAcceptable(cfg: Config, xs: seq<Write>, f: Fate)
    requires Possible(cfg, xs, f) && !f.ok
    ensures AllAcceptable(cfg, Within(cfg, xs, f.committed))
  {
    forall x | x in Within(cfg, xs, f.committed) ensures Acceptable(cfg, x) {
      WithinMembers(cfg, xs, f.committed, x);
      assert Sent(f, cfg.shardOf(x.key));
    }
  }

  /** Retrying a failed batch leaves the contents the writes would have left one at a time, however
      many names and whole shard groups the failed attempt had already written. */
  lemma RetryContents(cfg: Config, s: State, xs: seq<Write>, f: Fate)
    requires Possible(cfg, xs, f) && !f.ok && Harmless(cfg, s.contents.generations, xs, f)
    ensures LandAll(cfg, Landed(cfg, s, f).contents, xs) == LandAll(cfg, s.contents, xs)
  {
    hide Possible, Harmless;
    var c, d := s.contents, Landed(cfg, s, f).contents;
    var base := Registered(c, f.registered);
    var g, h := c.generations, base.generations;
    var done := Applied(cfg, f);
    var accepted := Accepted(cfg, xs);
    RegisterKeepsGen(g, f.registered);
    forall k ensures View(LandAll(cfg, d, xs), k) == View(LandAll(cfg, c, xs), k) {
      PutAllView(cfg, base, done, k);
      LandAllView(cfg, c, xs, k);
      LandAllView(cfg, d, xs, k);
      RetryView(cfg, g, h, View(c, k), xs, f, k);
    }
    PutAllView(cfg, base, done, []);
    LandAllView(cfg, c, xs, []);
    LandAllView(cfg, d, xs, []);
    RegisteredBefore(cfg, xs, f);
    RegisterTwice(g, f.registered, Names(Fitting(cfg, xs)));
    assert f.registered + Names(Fitting(cfg, xs)) == Names(Fitting(cfg, xs));
    SameViews(LandAll(cfg, d, xs), LandAll(cfg, c, xs));
  }

  lemma {:induction false} FixedEffects(cfg: Config, g: Generations, xs: seq<Write>, k: Key)
    requires FixedLifetimes(xs)
    ensures forall e :: e in OfKey(cfg, g, xs, k) ==> e.change.Fix?
  {
    if xs != [] {
      assert xs[0] in xs;
      FixedEffects(cfg, g, xs[1..], k);
    }
  }

  /** Writes with lifetimes of their own leave the same record whatever they start from. */
  lemma {:induction false} FixedForgets(cfg: Config, g: Generations, v: Option<Record>, w: Option<Record>, es: seq<Effect>)
    requires es != [] && forall e :: e in es ==> e.change.Fix?
    ensures RunKey(cfg, g, v, es) == RunKey(cfg, g, w, es)
  {
    assert es[0] in es;
    assert Stored(cfg, g, v, es[0]) == Stored(cfg, g, w, es[0]);
  }

  lemma NeverNamed(cfg: Config, g: Generations, xs: seq<Write>, order: seq<Write>, k: Key)
    requires multiset(order) == multiset(xs) && OfKey(cfg, g, xs, k) == []
    ensures OfKey(cfg, g, order, k) == []
  {
    OfKeyMembers(cfg, g, xs, k);
    OfKeyMembers(cfg, g, order, k);
    TallyPermutes(xs, order, k);
  }

  lemma RetryView(cfg: Config, g: Generations, h: Generations, v: Option<Record>, xs: seq<Write>, f: Fate, k: Key)
    requires Possible(cfg, xs, f) && !f.ok && Harmless(cfg, g, xs, f) && SameGen(g, h)
    ensures
      var es := OfKey(cfg, h, Accepted(cfg, xs), k);
      RunKey(cfg, h, RunKey(cfg, h, v, OfKey(cfg, h, Applied(cfg, f), k)), es)
      == RunKey(cfg, g, v, OfKey(cfg, g, Accepted(cfg, xs), k))
  {
    hide Interrupted;
    var es := OfKey(cfg, g, Accepted(cfg, xs), k);
    SameOfKey(cfg, g, h, Accepted(cfg, xs), k);
    SameOfKey(cfg, g, h, Applied(cfg, f), k);
    OfKeyWithin(cfg, g, f.order, f.committed, k);
    SameRunKey(cfg, g, h, v, es);
    if cfg.shardOf(k) in f.committed {
      CommittedAcceptable(cfg, xs, f);
      CommittedAccepted(cfg, g, xs, f.committed, k);
      if KeepsKeys(cfg, g, xs, f.order) {
        assert OfKey(cfg, g, f.order, k) == OfKey(cfg, g, xs, k);
        EffectsAreCurrent(cfg, h, Accepted(cfg, xs), k);
        RunAgain(cfg, h, v, es);
      } else if es == [] {
        NeverNamed(cfg, g, xs, f.order, k);
      } else {
        FixedEffects(cfg, g, xs, k);
        FixedForgets(cfg, h, RunKey(cfg, h, v, OfKey(cfg, h, Applied(cfg, f), k)), v, es);
      }
    }
  }

  // -- Tokens --------------------------------------------------------------------------------

  lemma {:induction false} CountersCount(cfg: Config, s: Stamps, xs: seq<Write>, n: nat)
    ensures Store.Counter(StampWrites(cfg, s, xs), n) == Store.Counter(s, n) + |Within(cfg, xs, {n})|
    decreases |xs|
  {
    if xs != [] { CountersCount(cfg, Stamp(cfg, s, xs[0].key), xs[1..], n); }
  }

  /** Nothing reached the store: no group committed and no transaction was aborted. */
  predicate Untouched(cfg: Config, f: Fate) { Applied(cfg, f) == [] && f.spent == map[] }

  /** A failed batch leaves the very state one-at-a-time execution leaves, tokens included, exactly
      when it had committed nothing and spent no token. */
  lemma RetryExactIff(cfg: Config, s: State, xs: seq<Write>, f: Fate)
    requires Possible(cfg, xs, f) && !f.ok && Harmless(cfg, s.contents.generations, xs, f)
    requires AllDeferrable(xs)
    ensures OneByOne(cfg, Landed(cfg, s, f), xs) == OneByOne(cfg, s, xs) <==> Untouched(cfg, f)
  {
    var done, accepted := Applied(cfg, f), Accepted(cfg, xs);
    var t := Landed(cfg, s, f);
    OneByOneSplits(cfg, s, xs);
    OneByOneSplits(cfg, t, xs);
    RetryContents(cfg, s, xs, f);
    if !Untouched(cfg, f) {
      var n: nat := if done != [] then cfg.shardOf(done[0].key) else var n :| n in f.spent; n;
      if done != [] { WithinMembers(cfg, done, {n}, done[0]); }
      CountersRise(cfg, s, xs, f, n);
      CountersCount(cfg, t.stamps, accepted, n);
      CountersCount(cfg, s.stamps, accepted, n);
    }
  }

  lemma CountersRise(cfg: Config, s: State, xs: seq<Write>, f: Fate, n: nat)
    requires Possible(cfg, xs, f) && (n in f.spent || Within(cfg, Applied(cfg, f), {n}) != [])
    ensures Store.Counter(Landed(cfg, s, f).stamps, n) > Store.Counter(s.stamps, n)
  {
    CountersCount(cfg, Burned(s.stamps, f.spent), Applied(cfg, f), n);
  }

  /** A submission that reached nothing, whatever order it would have used, leaves no trace. */
  lemma NothingCommitted(cfg: Config, s: State, xs: seq<Write>, f: Fate)
    requires Possible(cfg, xs, f) && !f.ok && Untouched(cfg, f) && AllDeferrable(xs)
    ensures OneByOne(cfg, Landed(cfg, s, f), xs) == OneByOne(cfg, s, xs)
  {
    var plain := f.(order := xs);
    WithinPresence(cfg, xs, f.order, f.committed);
    RetryExactIff(cfg, s, xs, plain);
  }

  lemma WithinPresence(cfg: Config, xs: seq<Write>, ys: seq<Write>, shards: set<nat>)
    requires multiset(xs) == multiset(ys)
    ensures Within(cfg, xs, shards) != [] ==> Within(cfg, ys, shards) != []
  {
    if Within(cfg, xs, shards) != [] {
      var x := Within(cfg, xs, shards)[0];
      WithinMembers(cfg, xs, shards, x);
      assert x in multiset(ys);
      WithinMembers(cfg, ys, shards, x);
    }
  }

  /** The lowest shard the batch touches holds a write the store refuses. */
  predicate LowestRefuses(cfg: Config, xs: seq<Write>) {
    exists y :: y in xs && !Acceptable(cfg, y) && Lowest(cfg, xs, y)
  }

  predicate Lowest(cfg: Config, xs: seq<Write>, y: Write) {
    forall x :: x in xs ==> cfg.shardOf(y.key) <= cfg.shardOf(x.key)
  }

  predicate OneShardOnly(cfg: Config, xs: seq<Write>) {
    forall x, y :: x in xs && y in xs ==> cfg.shardOf(x.key) == cfg.shardOf(y.key)
  }

  lemma {:induction false} SomeLowest(cfg: Config, xs: seq<Write>) returns (z: Write)
    requires xs != []
    ensures z in xs && Lowest(cfg, xs, z)
  {
    z := xs[0];
    if |xs| > 1 {
      var rest := SomeLowest(cfg, xs[1..]);
      if cfg.shardOf(rest.key) < cfg.shardOf(z.key) { z := rest; }
    }
  }

  /** When the first group is refused nothing is sent. */
  lemma RefusedSendsNothing(cfg: Config, xs: seq<Write>, f: Fate)
    requires Possible(cfg, xs, f) && !f.ok && (TooManyTags(cfg, xs) || LowestRefuses(cfg, xs))
    ensures Untouched(cfg, f)
  {
    hide Within;
    if Applied(cfg, f) != [] {
      var x := CommittedWrite(cfg, xs, f);
    }
    if f.spent != map[] {
      var n :| n in f.spent;
      WithinMembers(cfg, xs, {n}, Within(cfg, xs, {n})[0]);
    }
  }

  lemma CommittedWrite(cfg: Config, xs: seq<Write>, f: Fate) returns (x: Write)
    requires Possible(cfg, xs, f) && !f.ok && Applied(cfg, f) != []
    ensures x in xs && cfg.shardOf(x.key) in f.committed && Sent(f, cfg.shardOf(x.key))
  {
    x := Applied(cfg, f)[0];
    WithinMembers(cfg, f.order, f.committed, x);
    assert x in multiset(xs);
  }

  lemma OneShardCommitsNothing(cfg: Config, xs: seq<Write>, f: Fate)
    requires Possible(cfg, xs, f) && !f.ok && OneShardOnly(cfg, xs)
    ensures Applied(cfg, f) == []
  {
    if Applied(cfg, f) != [] {
      var x := CommittedWrite(cfg, xs, f);
    }
  }

  lemma DistinctRetries(cfg: Config, s: State, xs: seq<Write>, f: Fate)
    requires DistinctKeys(xs) && AllDeferrable(xs) && Possible(cfg, xs, f) && !f.ok
    ensures OneByOne(cfg, Landed(cfg, s, f), xs) == OneByOne(cfg, s, xs) <==> Untouched(cfg, f)
  {
    hide OneByOne, Landed;
    var g := s.contents.generations;
    DistinctIsConsistent(cfg, g, xs);
    ConsistentKeepsKeys(cfg, g, xs, f.order);
    RetryExactIff(cfg, s, xs, f);
  }

  /** A batch that fails without aborting a transaction can never show, not even in tokens, exactly
      when it touches one shard only, its lowest shard holds a write the store refuses, or a write
      names too many tags. */
  lemma CommitInvisibleIff(cfg: Config, s: State, xs: seq<Write>)
    requires DistinctKeys(xs) && AllDeferrable(xs)
    ensures (forall f :: Possible(cfg, xs, f) && !f.ok && f.spent == map[] ==>
               OneByOne(cfg, Landed(cfg, s, f), xs) == OneByOne(cfg, s, xs))
            <==> TooManyTags(cfg, xs) || OneShardOnly(cfg, xs) || LowestRefuses(cfg, xs)
  {
    hide OneByOne, Landed;
    if TooManyTags(cfg, xs) || OneShardOnly(cfg, xs) || LowestRefuses(cfg, xs) {
      forall f | Possible(cfg, xs, f) && !f.ok && f.spent == map[]
        ensures OneByOne(cfg, Landed(cfg, s, f), xs) == OneByOne(cfg, s, xs)
      {
        if OneShardOnly(cfg, xs) { OneShardCommitsNothing(cfg, xs, f); } else { RefusedSendsNothing(cfg, xs, f); }
        DistinctRetries(cfg, s, xs, f);
      }
    } else {
      var z := SomeLowest(cfg, xs);
      var f := Fate(false, xs, {cfg.shardOf(z.key)}, Names(xs), map[]);
      LowestMayCommit(cfg, xs, z, f);
      DistinctRetries(cfg, s, xs, f);
    }
  }

  lemma LowestMayCommit(cfg: Config, xs: seq<Write>, z: Write, f: Fate)
    requires !TooManyTags(cfg, xs) && !OneShardOnly(cfg, xs) && !LowestRefuses(cfg, xs)
    requires z in xs && Lowest(cfg, xs, z)
    requires f == Fate(false, xs, {cfg.shardOf(z.key)}, Names(xs), map[])
    ensures Possible(cfg, xs, f) && !Untouched(cfg, f)
  {
    WithinMembers(cfg, xs, f.committed, z);
    assert exists x :: x in xs && cfg.shardOf(x.key) !in f.committed;
    forall x, y | x in xs && y in xs && Sent(f, cfg.shardOf(x.key)) && !Acceptable(cfg, y)
      ensures cfg.shardOf(x.key) < cfg.shardOf(y.key)
    {
      assert !Lowest(cfg, xs, y);
    }
  }

  /** No failure of a batch can show, not even one that aborts a transaction, exactly when nothing
      of it can be sent: its lowest shard holds a write the store refuses, or a write names too
      many tags. */
  lemma FailureInvisibleIff(cfg: Config, s: State, xs: seq<Write>)
    requires DistinctKeys(xs) && AllDeferrable(xs)
    ensures (forall f :: Possible(cfg, xs, f) && !f.ok ==>
               OneByOne(cfg, Landed(cfg, s, f), xs) == OneByOne(cfg, s, xs))
            <==> xs == [] || TooManyTags(cfg, xs) || LowestRefuses(cfg, xs)
  {
    hide OneByOne, Landed;
    if TooManyTags(cfg, xs) || LowestRefuses(cfg, xs) {
      forall f | Possible(cfg, xs, f) && !f.ok
        ensures OneByOne(cfg, Landed(cfg, s, f), xs) == OneByOne(cfg, s, xs)
      {
        RefusedSendsNothing(cfg, xs, f);
        DistinctRetries(cfg, s, xs, f);
      }
    } else if xs != [] {
      var z := SomeLowest(cfg, xs);
      var f := Fate(false, xs, {}, Names(xs), map[cfg.shardOf(z.key) := 1]);
      LowestMayAbort(cfg, xs, z, f);
      DistinctRetries(cfg, s, xs, f);
    }
  }

  lemma LowestMayAbort(cfg: Config, xs: seq<Write>, z: Write, f: Fate)
    requires !TooManyTags(cfg, xs) && !LowestRefuses(cfg, xs) && z in xs && Lowest(cfg, xs, z)
    requires f == Fate(false, xs, {}, Names(xs), map[cfg.shardOf(z.key) := 1])
    ensures Possible(cfg, xs, f) && !Untouched(cfg, f)
  {
    var n := cfg.shardOf(z.key);
    assert n in f.spent;
    WithinMembers(cfg, xs, {n}, z);
    assert cfg.shardOf(z.key) !in f.committed;
    forall x, y | x in xs && y in xs && Sent(f, cfg.shardOf(x.key)) && !Acceptable(cfg, y)
      ensures cfg.shardOf(x.key) < cfg.shardOf(y.key)
    {
      assert !Lowest(cfg, xs, y);
    }
  }

  // -- Reordering ----------------------------------------------------------------------------

  ghost predicate OnePerShard(cfg: Config, xs: seq<Write>) {
    forall i, j :: 0 <= i < j < |xs| ==> cfg.shardOf(xs[i].key) != cfg.shardOf(xs[j].key)
  }

  lemma {:induction false} WithinAtMostOne(cfg: Config, xs: seq<Write>, n: nat)
    requires OnePerShard(cfg, xs)
    ensures |Within(cfg, xs, {n})| <= 1
  {
    if xs != [] {
      WithinAtMostOne(cfg, xs[1..], n);
      if cfg.shardOf(xs[0].key) == n && Within(cfg, xs[1..], {n}) != [] {
        WithinMembers(cfg, xs[1..], {n}, Within(cfg, xs[1..], {n})[0]);
      }
    }
  }

  lemma {:induction false} WithinRemove(cfg: Config, xs: seq<Write>, i: nat, n: nat)
    requires i < |xs|
    ensures |Within(cfg, xs, {n})|
            == |Within(cfg, xs[..i] + xs[i + 1..], {n})| + (if cfg.shardOf(xs[i].key) == n then 1 else 0)
  {
    if i == 0 {
      assert xs[..0] + xs[1..] == xs[1..];
    } else {
      WithinRemove(cfg, xs[1..], i - 1, n);
      assert (xs[..i] + xs[i + 1..])[1..] == xs[1..][..i - 1] + xs[1..][i..];
    }
  }

  lemma {:induction false} WithinPermutes(cfg: Config, xs: seq<Write>, ys: seq<Write>, n: nat)
    requires multiset(xs) == multiset(ys)
    ensures |Within(cfg, xs, {n})| == |Within(cfg, ys, {n})|
    decreases |xs|
  {
    if xs == [] {
      assert |ys| == |multiset(ys)| == 0;
    } else {
      hide Within;
      var i := FindFirst(xs, ys);
      WithinPermutes(cfg, xs[1..], ys[..i] + ys[i + 1..], n);
      WithinRemove(cfg, ys, i, n);
      WithinRemove(cfg, xs, 0, n);
      assert xs[..0] + xs[1..] == xs[1..];
    }
  }

  lemma OnePerShardInOrder(cfg: Config, xs: seq<Write>, order: seq<Write>)
    requires OnePerShard(cfg, xs) && multiset(order) == multiset(xs)
    ensures InOrder(cfg, xs, order)
  {
    forall n: nat ensures Within(cfg, order, {n}) == Within(cfg, xs, {n}) {
      var a, b := Within(cfg, order, {n}), Within(cfg, xs, {n});
      WithinAtMostOne(cfg, xs, n);
      WithinPermutes(cfg, xs, order, n);
      if b != [] {
        WithinMembers(cfg, order, {n}, a[0]);
        assert a[0] in multiset(xs);
        WithinMembers(cfg, xs, {n}, a[0]);
        assert b[0] == a[0];
      }
    }
  }

  lemma {:induction false} StampSplit(cfg: Config, s: Stamps, xs: seq<Write>, ys: seq<Write>)
    ensures StampWrites(cfg, s, xs + ys) == StampWrites(cfg, StampWrites(cfg, s, xs), ys)
    decreases |xs|
  {
    if xs == [] {
      assert xs + ys == ys;
    } else {
      assert (xs + ys)[1..] == xs[1..] + ys;
      StampSplit(cfg, Stamp(cfg, s, xs[0].key), xs[1..], ys);
    }
  }

  lemma {:induction false} PutSplit(cfg: Config, c: Contents, xs: seq<Write>, ys: seq<Write>)
    ensures PutAll(cfg, c, xs + ys) == PutAll(cfg, PutAll(cfg, c, xs), ys)
    decreases |xs|
  {
    if xs == [] {
      assert xs + ys == ys;
    } else {
      assert (xs + ys)[1..] == xs[1..] + ys;
      PutSplit(cfg, Put(cfg, c, xs[0]), xs[1..], ys);
    }
  }

  lemma TokenInjective(cfg: Config, a: nat, b: nat, n: nat)
    requires cfg.shards > 0 && a < b
    ensures Token(cfg, a, n) < Token(cfg, b, n)
  {
    assert b * cfg.shards == a * cfg.shards + (b - a) * cfg.shards;
    assert (b - a) * cfg.shards > 0;
  }

  /** The same two writes, one shard, either order: the later one's token is the greater. */
  lemma SwapShows(cfg: Config, s: Stamps, rest: seq<Write>, x: Write, y: Write)
    requires cfg.shards > 0 && x.key != y.key && cfg.shardOf(x.key) == cfg.shardOf(y.key)
    ensures StampWrites(cfg, s, rest + [x, y]) != StampWrites(cfg, s, rest + [y, x])
  {
    var t := StampWrites(cfg, s, rest);
    var n := cfg.shardOf(x.key);
    StampSplit(cfg, s, rest, [x, y]);
    StampSplit(cfg, s, rest, [y, x]);
    StampTwo(cfg, t, x, y);
    StampTwo(cfg, t, y, x);
    TokenInjective(cfg, Store.Counter(t, n) + 1, Store.Counter(t, n) + 2, n);
  }

  lemma StampTwo(cfg: Config, s: Stamps, x: Write, y: Write)
    requires x.key != y.key && cfg.shardOf(x.key) == cfg.shardOf(y.key)
    ensures
      var t := StampWrites(cfg, s, [x, y]);
      var n := cfg.shardOf(x.key);
      && x.key in t.tokens && t.tokens[x.key] == Token(cfg, Store.Counter(s, n) + 1, n)
      && y.key in t.tokens && t.tokens[y.key] == Token(cfg, Store.Counter(s, n) + 2, n)
  {
    var s1 := Stamp(cfg, s, x.key);
    assert [x, y][1..] == [y];
    assert [y][1..] == [];
    assert StampWrites(cfg, s, [x, y]) == StampWrites(cfg, s1, [y]);
    assert StampWrites(cfg, s1, [y]) == StampWrites(cfg, Stamp(cfg, s1, y.key), []);
  }

  lemma PullOut(xs: seq<Write>, i: nat, j: nat) returns (rest: seq<Write>)
    requires i < j < |xs|
    ensures multiset(rest + [xs[i], xs[j]]) == multiset(xs)
    ensures multiset(rest + [xs[j], xs[i]]) == multiset(xs)
  {
    rest := xs[..i] + xs[i + 1..j] + xs[j + 1..];
    assert xs == xs[..i] + [xs[i]] + xs[i + 1..j] + [xs[j]] + xs[j + 1..];
  }

  lemma BatchFate(cfg: Config, s: State, xs: seq<Write>, order: seq<Write>) returns (f: Fate)
    requires AllAcceptable(cfg, xs) && multiset(order) == multiset(xs)
    ensures f == Fate(true, order, {}, Names(xs), map[]) && Possible(cfg, xs, f)
  {
    f := Fate(true, order, {}, Names(xs), map[]);
  }

  /** Every order a successful batch may be applied in leaves the state one-at-a-time execution
      leaves, tokens included, exactly when no two of its writes share a shard. */
  lemma TokensExactIff(cfg: Config, s: State, xs: seq<Write>)
    requires DistinctKeys(xs) && AllDeferrable(xs) && AllAcceptable(cfg, xs) && cfg.shards > 0
    ensures (forall f :: Possible(cfg, xs, f) && f.ok ==> Landed(cfg, s, f) == OneByOne(cfg, s, xs))
            <==> OnePerShard(cfg, xs)
  {
    if OnePerShard(cfg, xs) {
      forall f | Possible(cfg, xs, f) && f.ok ensures Landed(cfg, s, f) == OneByOne(cfg, s, xs) {
        OnePerShardInOrder(cfg, xs, f.order);
        BatchExact(cfg, s, xs, f);
      }
    } else {
      var i, j :| 0 <= i < j < |xs| && cfg.shardOf(xs[i].key) == cfg.shardOf(xs[j].key);
      var rest := PullOut(xs, i, j);
      var a := BatchFate(cfg, s, xs, rest + [xs[i], xs[j]]);
      var b := BatchFate(cfg, s, xs, rest + [xs[j], xs[i]]);
      SwapShows(cfg, s.stamps, rest, xs[i], xs[j]);
      assert Landed(cfg, s, a).stamps != Landed(cfg, s, b).stamps;
    }
  }

  /** A batch applied shard by shard in request order is indistinguishable from one at a time. */
  lemma BatchExact(cfg: Config, s: State, xs: seq<Write>, f: Fate)
    requires Possible(cfg, xs, f) && f.ok && AllDeferrable(xs) && InOrder(cfg, xs, f.order)
    ensures Landed(cfg, s, f) == OneByOne(cfg, s, xs)
  {
    InOrderKeepsKeys(cfg, s.contents.generations, xs, f.order);
    BatchContents(cfg, s.contents, xs, f.order);
    StampsInOrder(cfg, s.stamps, xs, f.order);
    AllAccepted(cfg, xs);
    OneByOneSplits(cfg, s, xs);
  }

  /** A write with a lifetime of its own leaves the same record whatever it replaces. */
  lemma LastWriteStays(cfg: Config, c: Contents, rest: seq<Write>, x: Write)
    requires x.ttl.To?
    ensures
      var e := EffectOf(cfg, c.generations, x);
      View(PutAll(cfg, c, rest + [x]), x.key) == Some(Record(e.value, e.flags, e.change.at, e.tags))
  {
    PutSplit(cfg, c, rest, [x]);
    PutAllView(cfg, c, rest, x.key);
    var d := PutAll(cfg, c, rest);
    assert [x][1..] == [];
    assert PutAll(cfg, d, [x]) == PutAll(cfg, Put(cfg, d, x), []);
  }

  /** Every order a batch of fixed-lifetime writes may be applied in leaves the contents request
      order leaves, exactly when writes to one key agree on what they store. */
  lemma ValuesExactIff(cfg: Config, s: State, xs: seq<Write>)
    requires AllDeferrable(xs) && AllAcceptable(cfg, xs) && FixedLifetimes(xs)
    ensures (forall f :: Possible(cfg, xs, f) && f.ok ==>
               Landed(cfg, s, f).contents == OneByOne(cfg, s, xs).contents)
            <==> Consistent(cfg, s.contents.generations, xs)
  {
    var c := s.contents;
    var g := c.generations;
    OneByOneSplits(cfg, s, xs);
    if Consistent(cfg, g, xs) {
      forall f | Possible(cfg, xs, f) && f.ok
        ensures Landed(cfg, s, f).contents == OneByOne(cfg, s, xs).contents
      {
        ConsistentKeepsKeys(cfg, g, xs, f.order);
        BatchContents(cfg, c, xs, f.order);
      }
    } else {
      var a, b := InconsistentShows(cfg, s, xs);
    }
  }

  lemma InconsistentShows(cfg: Config, s: State, xs: seq<Write>) returns (a: Fate, b: Fate)
    requires AllAcceptable(cfg, xs) && FixedLifetimes(xs) && !Consistent(cfg, s.contents.generations, xs)
    ensures Possible(cfg, xs, a) && a.ok && Possible(cfg, xs, b) && b.ok
    ensures Landed(cfg, s, a).contents != Landed(cfg, s, b).contents
  {
    hide Landed, Possible, EffectOf;
    var g := s.contents.generations;
    var x, y :| x in xs && y in xs && x.key == y.key && EffectOf(cfg, g, x) != EffectOf(cfg, g, y);
    var i :| 0 <= i < |xs| && xs[i] == x;
    var j :| 0 <= j < |xs| && xs[j] == y;
    var rest := PullOut(xs, Min(i, j), Max(i, j));
    a := BatchFate(cfg, s, xs, rest + [x, y]);
    b := BatchFate(cfg, s, xs, rest + [y, x]);
    LastOfTwo(cfg, s, xs, rest, x, y);
    LastOfTwo(cfg, s, xs, rest, y, x);
    FixedEffect(cfg, g, x);
    FixedEffect(cfg, g, y);
  }

  lemma FixedEffect(cfg: Config, g: Generations, x: Write)
    requires x.ttl.To?
    ensures EffectOf(cfg, g, x).change.Fix?
  {
  }

  lemma LastOfTwo(cfg: Config, s: State, xs: seq<Write>, rest: seq<Write>, x: Write, y: Write)
    requires y.ttl.To?
    ensures
      var e := EffectOf(cfg, s.contents.generations, y);
      View(Landed(cfg, s, Fate(true, rest + [x, y], {}, Names(xs), map[])).contents, y.key)
      == Some(Record(e.value, e.flags, e.change.at, e.tags))
  {
    var d := Registered(s.contents, Names(xs));
    RegisterKeepsGen(s.contents.generations, Names(xs));
    SameEffect(cfg, s.contents.generations, d.generations, y);
    assert rest + [x, y] == rest + [x] + [y];
    LastWriteStays(cfg, d, rest + [x], y);
  }

  // -- What a `cas` can tell -----------------------------------------------------------------

  function CasReply(cfg: Config, s: State, x: Write): Result<Reply, Status> { Executed(cfg, s, Set(x)).1 }

  /** An empty write that goes through only if the key still has the token. */
  function Probe(k: Key, token: nat): Write { Write(k, [], To(0), 0, [], Cas(token), false) }

  lemma ProbeTells(cfg: Config, s: State, k: Key, token: nat)
    requires Find(cfg, s.contents, k).Some? && k in s.stamps.tokens
    ensures CasReply(cfg, s, Probe(k, token)) == Ok(if s.stamps.tokens[k] == token then StoredOk else Exists)
  {
    var d := Registered(s.contents, {});
    RegisterKeepsGen(s.contents.generations, {});
    assert Find(cfg, d, k) == Find(cfg, s.contents, k);
    assert NamesOf([]) == {};
  }

  /** Stored with a deadline already past. */
  predicate Stillborn(cfg: Config, x: Write)
    requires x.ttl.To?
  {
    Expired(cfg, Clock.ExpiryFromTtl(x.ttl.secs, cfg.now))
  }

  lemma BatchSame(cfg: Config, s: State, xs: seq<Write>, f: Fate)
    requires DistinctKeys(xs) && AllDeferrable(xs) && Possible(cfg, xs, f) && f.ok
    ensures Landed(cfg, s, f).contents == OneByOne(cfg, s, xs).contents
  {
    hide KeepsKeys, OneByOne, DistinctKeys;
    var g := s.contents.generations;
    DistinctIsConsistent(cfg, g, xs);
    ConsistentKeepsKeys(cfg, g, xs, f.order);
    BatchContents(cfg, s.contents, xs, f.order);
    OneByOneSplits(cfg, s, xs);
  }

  /** What a write of the batch left is there to be read unless it was stored already expired. */
  lemma WrittenIsSeen(cfg: Config, s: State, xs: seq<Write>, i: nat)
    requires DistinctKeys(xs) && AllDeferrable(xs) && AllAcceptable(cfg, xs) && i < |xs| && xs[i].ttl.To?
    ensures Find(cfg, OneByOne(cfg, s, xs).contents, xs[i].key).Some? <==> !Stillborn(cfg, xs[i])
  {
    hide OneByOne, DistinctKeys, PutAll, Possible;
    var x, rest, g := xs[i], xs[..i] + xs[i + 1..], s.contents.generations;
    assert xs == xs[..i] + [x] + xs[i + 1..];
    var f := BatchFate(cfg, s, xs, rest + [x]);
    BatchSame(cfg, s, xs, f);
    var d := Registered(s.contents, Names(xs));
    RegisterKeepsGen(g, Names(xs));
    SameEffect(cfg, g, d.generations, x);
    LastWriteStays(cfg, d, rest, x);
    PutAllView(cfg, d, rest + [x], x.key);
    forall t | t in Resolve(g, x.tags) ensures Gen(d.generations, t.name) == t.generation { ResolveKnown(g, x.tags, t); }
  }

  /** A write a read can find shares its shard with no other. */
  ghost predicate SeenAlone(cfg: Config, xs: seq<Write>)
    requires FixedLifetimes(xs)
  {
    forall i, j :: 0 <= i < |xs| && 0 <= j < |xs| && i != j && cfg.shardOf(xs[i].key) == cfg.shardOf(xs[j].key) ==>
      Stillborn(cfg, xs[i])
  }

  /** No `cas` that follows a successful batch can tell it from one write at a time, exactly when no
      write of it that a read would find shares its shard with another. */
  lemma CasExactIff(cfg: Config, s: State, xs: seq<Write>)
    requires DistinctKeys(xs) && AllDeferrable(xs) && AllAcceptable(cfg, xs) && FixedLifetimes(xs) && cfg.shards > 0
    ensures (forall f, x: Write :: Possible(cfg, xs, f) && f.ok && x.mode.Cas? ==>
               CasReply(cfg, Landed(cfg, s, f), x) == CasReply(cfg, OneByOne(cfg, s, xs), x))
            <==> SeenAlone(cfg, xs)
  {
    hide Possible, Landed, OneByOne, CasReply, Stillborn;
    if SeenAlone(cfg, xs) {
      forall f, x: Write | Possible(cfg, xs, f) && f.ok && x.mode.Cas?
        ensures CasReply(cfg, Landed(cfg, s, f), x) == CasReply(cfg, OneByOne(cfg, s, xs), x)
      {
        CasBlind(cfg, s, xs, f, x);
      }
    } else {
      var i, j :| 0 <= i < |xs| && 0 <= j < |xs| && i != j && cfg.shardOf(xs[i].key) == cfg.shardOf(xs[j].key)
                  && !Stillborn(cfg, xs[i]);
      var f, x := CasTells(cfg, s, xs, i, j);
    }
  }

  lemma CasTells(cfg: Config, s: State, xs: seq<Write>, i: nat, j: nat) returns (f: Fate, x: Write)
    requires DistinctKeys(xs) && AllDeferrable(xs) && AllAcceptable(cfg, xs) && FixedLifetimes(xs) && cfg.shards > 0
    requires i < |xs| && j < |xs| && i != j && cfg.shardOf(xs[i].key) == cfg.shardOf(xs[j].key) && !Stillborn(cfg, xs[i])
    ensures Possible(cfg, xs, f) && f.ok && x.mode.Cas?
    ensures CasReply(cfg, Landed(cfg, s, f), x) != CasReply(cfg, OneByOne(cfg, s, xs), x)
  {
    hide Possible, OneByOne, CasReply, StampWrites, PutAll, DistinctKeys, Landed, Stillborn, Find;
    var rest := PullOut(xs, Min(i, j), Max(i, j));
    var a := BatchFate(cfg, s, xs, rest + [xs[i], xs[j]]);
    var b := BatchFate(cfg, s, xs, rest + [xs[j], xs[i]]);
    KeysDiffer(xs, i, j);
    var k, one := xs[i].key, OneByOne(cfg, s, xs);
    BatchSame(cfg, s, xs, a);
    BatchSame(cfg, s, xs, b);
    WrittenIsSeen(cfg, s, xs, i);
    SwapDiffers(cfg, s, xs, rest, xs[i], xs[j]);
    OneByOneStamps(cfg, s, xs, i);
    f := if Landed(cfg, s, a).stamps.tokens[k] == one.stamps.tokens[k] then b else a;
    x := Probe(k, one.stamps.tokens[k]);
    ProbeTells(cfg, one, k, one.stamps.tokens[k]);
    ProbeTells(cfg, Landed(cfg, s, f), k, one.stamps.tokens[k]);
  }

  lemma KeysDiffer(xs: seq<Write>, i: nat, j: nat)
    requires DistinctKeys(xs) && i < |xs| && j < |xs| && i != j
    ensures xs[i].key != xs[j].key
  {
  }

  lemma SwapDiffers(cfg: Config, s: State, xs: seq<Write>, rest: seq<Write>, x: Write, y: Write)
    requires cfg.shards > 0 && x.key != y.key && cfg.shardOf(x.key) == cfg.shardOf(y.key)
    ensures
      var a := Landed(cfg, s, Fate(true, rest + [x, y], {}, Names(xs), map[])).stamps;
      var b := Landed(cfg, s, Fate(true, rest + [y, x], {}, Names(xs), map[])).stamps;
      x.key in a.tokens && x.key in b.tokens && a.tokens[x.key] != b.tokens[x.key]
  {
    hide PutAll, Names;
    var t := StampWrites(cfg, s.stamps, rest);
    var n := cfg.shardOf(x.key);
    StampSplit(cfg, s.stamps, rest, [x, y]);
    StampSplit(cfg, s.stamps, rest, [y, x]);
    StampTwo(cfg, t, x, y);
    StampTwo(cfg, t, y, x);
    TokenInjective(cfg, Store.Counter(t, n) + 1, Store.Counter(t, n) + 2, n);
  }

  lemma OneByOneStamps(cfg: Config, s: State, xs: seq<Write>, i: nat)
    requires AllDeferrable(xs) && AllAcceptable(cfg, xs) && i < |xs|
    ensures xs[i].key in OneByOne(cfg, s, xs).stamps.tokens
  {
    OneByOneSplits(cfg, s, xs);
    AllAccepted(cfg, xs);
    assert xs[i] in xs && Mentions(xs, xs[i].key);
    StampWritesAt(cfg, s.stamps, xs, xs[i].key);
  }

  /** Where a `cas` finds no record it does not come to the token. */
  lemma CasBlind(cfg: Config, s: State, xs: seq<Write>, f: Fate, x: Write)
    requires DistinctKeys(xs) && AllDeferrable(xs) && FixedLifetimes(xs) && SeenAlone(cfg, xs)
    requires Possible(cfg, xs, f) && f.ok && x.mode.Cas?
    ensures CasReply(cfg, Landed(cfg, s, f), x) == CasReply(cfg, OneByOne(cfg, s, xs), x)
  {
    hide Possible, Landed, OneByOne, DistinctKeys, SeenAlone, Stillborn;
    BatchSame(cfg, s, xs, f);
    var c := OneByOne(cfg, s, xs).contents;
    RegisterKeepsGen(c.generations, NamesOf(x.tags));
    assert Find(cfg, Registered(c, NamesOf(x.tags)), x.key) == Find(cfg, c, x.key);
    if Find(cfg, c, x.key).Some? { SeenKeepsToken(cfg, s, xs, f, x.key); }
  }

  /** A key a read finds after the batch has the token one write at a time gives it. */
  lemma SeenKeepsToken(cfg: Config, s: State, xs: seq<Write>, f: Fate, k: Key)
    requires DistinctKeys(xs) && AllDeferrable(xs) && FixedLifetimes(xs) && SeenAlone(cfg, xs)
    requires Possible(cfg, xs, f) && f.ok && Find(cfg, OneByOne(cfg, s, xs).contents, k).Some?
    ensures
      var a, b := Landed(cfg, s, f).stamps.tokens, OneByOne(cfg, s, xs).stamps.tokens;
      (k in a <==> k in b) && (k in a ==> a[k] == b[k])
  {
    hide OneByOne, DistinctKeys, SeenAlone, Stillborn, Find, StampWrites, Within, PutAll;
    OneByOneSplits(cfg, s, xs);
    AllAccepted(cfg, xs);
    if Mentions(xs, k) {
      var i :| 0 <= i < |xs| && xs[i].key == k;
      WrittenIsSeen(cfg, s, xs, i);
      AloneInOrder(cfg, xs, f.order, i);
      var n := cfg.shardOf(k);
      ShardsStampAlone(cfg, s.stamps, s.stamps, f.order, n);
      ShardsStampAlone(cfg, s.stamps, s.stamps, xs, n);
    } else {
      SameMentions(xs, f.order, k);
      StampWritesAt(cfg, s.stamps, xs, k);
      StampWritesAt(cfg, s.stamps, f.order, k);
    }
  }

  lemma SameMentions(xs: seq<Write>, order: seq<Write>, k: Key)
    requires multiset(order) == multiset(xs)
    ensures Mentions(order, k) ==> Mentions(xs, k)
  {
    if x :| x in order && x.key == k { assert x in multiset(xs); }
  }

  lemma AloneInOrder(cfg: Config, xs: seq<Write>, order: seq<Write>, i: nat)
    requires multiset(order) == multiset(xs) && FixedLifetimes(xs) && SeenAlone(cfg, xs)
    requires i < |xs| && !Stillborn(cfg, xs[i])
    ensures Within(cfg, order, {cfg.shardOf(xs[i].key)}) == Within(cfg, xs, {cfg.shardOf(xs[i].key)})
  {
    hide Within, Stillborn;
    var n := cfg.shardOf(xs[i].key);
    var a, b := Within(cfg, order, {n}), Within(cfg, xs, {n});
    var others := xs[..i] + xs[i + 1..];
    WithinRemove(cfg, xs, i, n);
    WithinPermutes(cfg, xs, order, n);
    if Within(cfg, others, {n}) != [] {
      WithinMembers(cfg, others, {n}, Within(cfg, others, {n})[0]);
    }
    WithinMembers(cfg, order, {n}, a[0]);
    assert a[0] in multiset(xs);
    OnlyOne(cfg, xs, i, n, a[0]);
    WithinMembers(cfg, xs, {n}, b[0]);
    OnlyOne(cfg, xs, i, n, b[0]);
  }

  lemma OnlyOne(cfg: Config, xs: seq<Write>, i: nat, n: nat, y: Write)
    requires FixedLifetimes(xs) && SeenAlone(cfg, xs) && i < |xs| && !Stillborn(cfg, xs[i])
    requires n == cfg.shardOf(xs[i].key) && y in xs && cfg.shardOf(y.key) == n
    ensures y == xs[i]
  {
    var j :| 0 <= j < |xs| && xs[j] == y;
  }

  // -- Where batching shows ------------------------------------------------------------------

  function ByParity(k: Key): nat { if k == [] then 0 else k[0] % 2 }

  /** Two shards, values of one byte, no tags. */
  function Example(): Config { Config(1, 1, 0, 2, ByParity, false, false) }

  function PlainWrite(key: Key, value: bytes): Write { Write(key, value, To(0), 0, [], Always, false) }

  /** More writes than a small-slice sort handles, alternating between the shards. */
  function ManyKeys(): seq<Write> { seq(22, i requires 0 <= i < 22 => PlainWrite([i], [7])) }
  function TwoKeys(): seq<Write> { seq(22, i requires 0 <= i < 22 => PlainWrite([i % 2], [i])) }

  const EMPTY: State := State(Contents(map[], map[]), Stamps(map[], map[]))

  /** Keys of one shard, written in one batch, may come back with each other's tokens. */
  lemma TokensMayPermute()
    ensures exists f ::
      Possible(Example(), ManyKeys(), f) && f.ok
      && Landed(Example(), EMPTY, f) != OneByOne(Example(), EMPTY, ManyKeys())
  {
    hide OneByOne, Landed, Possible;
    var cfg, xs := Example(), ManyKeys();
    assert cfg.shardOf(xs[0].key) == cfg.shardOf(xs[2].key);
    assert !OnePerShard(cfg, xs);
    TokensExactIff(cfg, EMPTY, xs);
  }

  /** A `cas` with the token request order gives a key may be refused after the batch: sets sent
      ahead of it in the same breath had their tokens given out in another order. */
  lemma CasMayDisagree()
    ensures exists f, x: Write ::
      Possible(Example(), ManyKeys(), f) && f.ok && x.mode.Cas?
      && CasReply(Example(), Landed(Example(), EMPTY, f), x) != CasReply(Example(), OneByOne(Example(), EMPTY, ManyKeys()), x)
  {
    hide OneByOne, Landed, Possible, CasReply;
    var cfg, xs := Example(), ManyKeys();
    assert cfg.shardOf(xs[0].key) == cfg.shardOf(xs[2].key) && !Stillborn(cfg, xs[0]);
    assert !SeenAlone(cfg, xs);
    CasExactIff(cfg, EMPTY, xs);
  }

  /** A key written more than once in one submission may keep an earlier value. */
  lemma EarlierValueMayWin()
    ensures exists f ::
      Possible(Example(), TwoKeys(), f) && f.ok
      && Landed(Example(), EMPTY, f).contents != OneByOne(Example(), EMPTY, TwoKeys()).contents
  {
    hide OneByOne, Landed, Possible;
    var cfg, xs := Example(), TwoKeys();
    var g := EMPTY.contents.generations;
    assert xs[0].key == xs[2].key && EffectOf(cfg, g, xs[0]).value != EffectOf(cfg, g, xs[2]).value;
    assert xs[0] in xs && xs[2] in xs;
    assert !Consistent(cfg, g, xs);
    ValuesExactIff(cfg, EMPTY, xs);
  }

  /** A batch refused for one shard's oversized value may leave another shard's key with a token
      one-at-a-time execution would not have given it. */
  lemma RetryMayShow()
    ensures
      var xs := [PlainWrite([0], [7]), PlainWrite([1], [7, 7])];
      exists f ::
        Possible(Example(), xs, f) && !f.ok
        && OneByOne(Example(), Landed(Example(), EMPTY, f), xs) != OneByOne(Example(), EMPTY, xs)
  {
    hide OneByOne, Landed, Possible;
    var cfg := Example();
    var xs := [PlainWrite([0], [7]), PlainWrite([1], [7, 7])];
    assert xs[0] in xs && xs[1] in xs && cfg.shardOf(xs[0].key) < cfg.shardOf(xs[1].key);
    assert forall x :: x in xs ==> x == xs[0] || x == xs[1];
    assert !LowestRefuses(cfg, xs);
    CommitInvisibleIff(cfg, EMPTY, xs);
  }
}
