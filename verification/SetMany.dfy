/** A batch of unconditional writes against the same writes one at a time: what the order a batch
    is applied in, and a batch that fails halfway, can and cannot change. */
module SetMany {
  import opened Core
  import opened Commands
  import opened Store

  // -- The batch operation -------------------------------------------------------------------

  predicate TagsFit(cfg: Config, x: Write) { |x.tags| <= cfg.maxTags }
  predicate Acceptable(cfg: Config, x: Write) { TagsFit(cfg, x) && |x.value| <= cfg.maxValue }
  predicate AllAcceptable(cfg: Config, xs: seq<Write>) { forall x :: x in xs ==> Acceptable(cfg, x) }
  predicate AllDeferrable(xs: seq<Write>) { forall x :: x in xs ==> Deferrable(x) }

  function Names(xs: seq<Write>): set<TagName> {
    if xs == [] then {} else NamesOf(xs[0].tags) + Names(xs[1..])
  }

  /** The writes whose key lives in one of the shards. */
  function Within(cfg: Config, xs: seq<Write>, shards: set<nat>): seq<Write> {
    if xs == [] then []
    else if cfg.shardOf(xs[0].key) in shards then [xs[0]] + Within(cfg, xs[1..], shards)
    else Within(cfg, xs[1..], shards)
  }

  function PutAll(cfg: Config, c: Contents, xs: seq<Write>): Contents
    decreases |xs|
  {
    if xs == [] then c else PutAll(cfg, Put(cfg, c, xs[0]), xs[1..])
  }

  function StampWrites(cfg: Config, s: Stamps, xs: seq<Write>): Stamps
    decreases |xs|
  {
    if xs == [] then s else StampWrites(cfg, Stamp(cfg, s, xs[0].key), xs[1..])
  }

  /** What one submission came to. Grouping by shard leaves the order of one shard's writes open,
      and the order between shards has no effect, so any reordering is allowed for. A submission
      that fails may have registered names and committed whole shard groups; a group whose
      transaction was aborted has spent tokens and written nothing. */
  datatype Fate = Fate(
    ok: bool, order: seq<Write>, committed: set<nat>, registered: set<TagName>, spent: map<nat, nat>)

  predicate Possible(cfg: Config, xs: seq<Write>, f: Fate) {
    && multiset(f.order) == multiset(xs)
    && f.registered <= Names(xs)
    && (f.ok ==> AllAcceptable(cfg, xs) && f.registered == Names(xs) && f.spent == map[])
    && (!f.ok ==> Interrupted(cfg, xs, f))
  }

  /** The shard's group reached its writer. */
  predicate Sent(f: Fate, n: nat) { n in f.committed || n in f.spent }

  predicate TooManyTags(cfg: Config, xs: seq<Write>) { exists x :: x in xs && !TagsFit(cfg, x) }

  /** A submission fails only if some group did not commit. Tags are counted before anything is
      registered, names are registered before anything is sent, and shards are sent in ascending
      order up to the first that holds a refused write. */
  predicate Interrupted(cfg: Config, xs: seq<Write>, f: Fate) {
    && (exists x :: x in xs && cfg.shardOf(x.key) !in f.committed)
    && (TooManyTags(cfg, xs) ==> f.registered == {})
    && (f.committed != {} || f.spent != map[] ==> !TooManyTags(cfg, xs) && f.registered == Names(xs))
    && (forall x, y :: x in xs && y in xs && Sent(f, cfg.shardOf(x.key)) && !Acceptable(cfg, y) ==>
          cfg.shardOf(x.key) < cfg.shardOf(y.key))
    && (forall n :: n in f.spent ==> n !in f.committed && 0 < f.spent[n] <= |Within(cfg, xs, {n})|)
  }

  function Applied(cfg: Config, f: Fate): seq<Write> {
    if f.ok then f.order else Within(cfg, f.order, f.committed)
  }

  /** Tokens an aborted transaction gave out are not given out again. */
  function Burned(s: Stamps, spent: map<nat, nat>): Stamps {
    if spent == map[] then s
    else
      s.(counters := map n | n in s.counters.Keys + spent.Keys ::
           Store.Counter(s, n) + if n in spent then spent[n] else 0)
  }

  function Landed(cfg: Config, s: State, f: Fate): State {
    State(PutAll(cfg, Registered(s.contents, f.registered), Applied(cfg, f)),
          StampWrites(cfg, Burned(s.stamps, f.spent), Applied(cfg, f)))
  }

  // -- One at a time -------------------------------------------------------------------------

  function Verdict(cfg: Config, x: Write): Result<Reply, Status> {
    if !TagsFit(cfg, x) then Err(BadRequest)
    else if |x.value| > cfg.maxValue then Err(TooLarge)
    else Ok(StoredOk)
  }

  function Land(cfg: Config, c: Contents, x: Write): Contents {
    if !TagsFit(cfg, x) then c
    else
      var d := Registered(c, NamesOf(x.tags));
      if Acceptable(cfg, x) then Put(cfg, d, x) else d
  }

  function LandAll(cfg: Config, c: Contents, xs: seq<Write>): Contents
    decreases |xs|
  {
    if xs == [] then c else LandAll(cfg, Land(cfg, c, xs[0]), xs[1..])
  }

  function OneByOne(cfg: Config, s: State, xs: seq<Write>): State
    decreases |xs|
  {
    if xs == [] then s else OneByOne(cfg, Executed(cfg, s, Set(xs[0])).0, xs[1..])
  }

  function Accepted(cfg: Config, xs: seq<Write>): seq<Write> {
    if xs == [] then []
    else if Acceptable(cfg, xs[0]) then [xs[0]] + Accepted(cfg, xs[1..])
    else Accepted(cfg, xs[1..])
  }

  function Fitting(cfg: Config, xs: seq<Write>): seq<Write> {
    if xs == [] then []
    else if TagsFit(cfg, xs[0]) then [xs[0]] + Fitting(cfg, xs[1..])
    else Fitting(cfg, xs[1..])
  }

  /** An unconditional write's verdict does not depend on what the store holds. */
  lemma VerdictIsFixed(cfg: Config, s: State, x: Write)
    requires Deferrable(x)
    ensures Executed(cfg, s, Set(x)).1 == Verdict(cfg, x)
    ensures Executed(cfg, s, Set(x)).0.contents == Land(cfg, s.contents, x)
    ensures Executed(cfg, s, Set(x)).0.stamps
            == if Acceptable(cfg, x) then Stamp(cfg, s.stamps, x.key) else s.stamps
  {
    var o := Perform(cfg, s.contents, Set(x), Matches(s, Set(x)));
    assert o.removed == {};
    if Acceptable(cfg, x) {
      assert o.written == [x.key];
      calc {
        StampAll(cfg, s.stamps, [x.key]);
        { assert [x.key][1..] == []; }
        StampAll(cfg, Stamp(cfg, s.stamps, x.key), []);
        Stamp(cfg, s.stamps, x.key);
      }
    } else {
      assert o.written == [];
    }
    var stamped := StampAll(cfg, s.stamps, o.written);
    assert stamped.tokens - {} == stamped.tokens;
    assert Commit(cfg, s, o).stamps == stamped;
  }

  lemma {:induction false} OneByOneSplits(cfg: Config, s: State, xs: seq<Write>)
    requires AllDeferrable(xs)
    ensures OneByOne(cfg, s, xs)
            == State(LandAll(cfg, s.contents, xs), StampWrites(cfg, s.stamps, Accepted(cfg, xs)))
    decreases |xs|
  {
    if xs != [] {
      VerdictIsFixed(cfg, s, xs[0]);
      OneByOneSplits(cfg, Executed(cfg, s, Set(xs[0])).0, xs[1..]);
    }
  }

  // -- The contents, key by key --------------------------------------------------------------

  function OfKey(cfg: Config, g: Generations, xs: seq<Write>, k: Key): seq<Effect> {
    if xs == [] then []
    else if xs[0].key == k then [EffectOf(cfg, g, xs[0])] + OfKey(cfg, g, xs[1..], k)
    else OfKey(cfg, g, xs[1..], k)
  }

  function RunKey(cfg: Config, g: Generations, v: Option<Record>, es: seq<Effect>): Option<Record>
    decreases |es|
  {
    if es == [] then v else RunKey(cfg, g, Some(Stored(cfg, g, v, es[0])), es[1..])
  }

  ghost predicate SameGen(g: Generations, h: Generations) { forall n :: Gen(g, n) == Gen(h, n) }

  lemma RegisterKeepsGen(g: Generations, names: set<TagName>)
    ensures SameGen(g, Register(g, names))
  {
  }

  lemma SameEffect(cfg: Config, g: Generations, h: Generations, x: Write)
    requires SameGen(g, h)
    ensures EffectOf(cfg, g, x) == EffectOf(cfg, h, x)
  {
    assert Resolve(g, x.tags) == Resolve(h, x.tags);
  }

  lemma {:induction false} SameOfKey(cfg: Config, g: Generations, h: Generations, xs: seq<Write>, k: Key)
    requires SameGen(g, h)
    ensures OfKey(cfg, g, xs, k) == OfKey(cfg, h, xs, k)
  {
    if xs != [] {
      SameEffect(cfg, g, h, xs[0]);
      SameOfKey(cfg, g, h, xs[1..], k);
    }
  }

  lemma {:induction false} SameRunKey(cfg: Config, g: Generations, h: Generations, v: Option<Record>, es: seq<Effect>)
    requires SameGen(g, h)
    ensures RunKey(cfg, g, v, es) == RunKey(cfg, h, v, es)
    decreases |es|
  {
    if es != [] {
      assert Stored(cfg, g, v, es[0]) == Stored(cfg, h, v, es[0]);
      SameRunKey(cfg, g, h, Some(Stored(cfg, g, v, es[0])), es[1..]);
    }
  }

  lemma {:induction false} PutAllView(cfg: Config, c: Contents, xs: seq<Write>, k: Key)
    ensures PutAll(cfg, c, xs).generations == c.generations
    ensures View(PutAll(cfg, c, xs), k)
            == RunKey(cfg, c.generations, View(c, k), OfKey(cfg, c.generations, xs, k))
    decreases |xs|
  {
    if xs != [] { PutAllView(cfg, Put(cfg, c, xs[0]), xs[1..], k); }
  }

  lemma RegisterTwice(g: Generations, a: set<TagName>, b: set<TagName>)
    ensures Register(Register(g, a), b) == Register(g, a + b)
  {
  }

  lemma LandView(cfg: Config, c: Contents, x: Write, k: Key)
    ensures
      var d := Land(cfg, c, x);
      && SameGen(c.generations, d.generations)
      && d.generations == Register(c.generations, if TagsFit(cfg, x) then NamesOf(x.tags) else {})
      && View(d, k) == if Acceptable(cfg, x) && x.key == k
           then Some(Stored(cfg, c.generations, View(c, k), EffectOf(cfg, c.generations, x)))
           else View(c, k)
  {
    var g := c.generations;
    assert Register(g, {}) == g;
    if TagsFit(cfg, x) {
      var h := Register(g, NamesOf(x.tags));
      RegisterKeepsGen(g, NamesOf(x.tags));
      SameEffect(cfg, g, h, x);
      assert Stored(cfg, g, View(c, x.key), EffectOf(cfg, g, x))
          == Stored(cfg, h, View(c, x.key), EffectOf(cfg, g, x));
    }
  }

  lemma {:induction false} LandAllView(cfg: Config, c: Contents, xs: seq<Write>, k: Key)
    ensures LandAll(cfg, c, xs).generations == Register(c.generations, Names(Fitting(cfg, xs)))
    ensures View(LandAll(cfg, c, xs), k)
            == RunKey(cfg, c.generations, View(c, k), OfKey(cfg, c.generations, Accepted(cfg, xs), k))
    decreases |xs|
  {
    hide Land, EffectOf, Stored, Register, SameGen, View;
    var g := c.generations;
    if xs == [] {
      assert Register(g, {}) == g by { RegisterNone(g); }
    } else {
      var d := Land(cfg, c, xs[0]);
      var rest := Accepted(cfg, xs[1..]);
      LandView(cfg, c, xs[0], k);
      LandAllView(cfg, d, xs[1..], k);
      SameOfKey(cfg, g, d.generations, rest, k);
      SameRunKey(cfg, g, d.generations, View(d, k), OfKey(cfg, g, rest, k));
      RegisterTwice(g, if TagsFit(cfg, xs[0]) then NamesOf(xs[0].tags) else {}, Names(Fitting(cfg, xs[1..])));
      assert {} + Names(Fitting(cfg, xs[1..])) == Names(Fitting(cfg, xs[1..]));
    }
  }

  lemma RegisterNone(g: Generations)
    ensures Register(g, {}) == g
  {
  }

  lemma SameViews(c: Contents, d: Contents)
    requires c.generations == d.generations
    requires forall k :: View(c, k) == View(d, k)
    ensures c == d
  {
    forall k ensures k in c.records <==> k in d.records
    ensures k in c.records ==> c.records[k] == d.records[k] { assert View(c, k) == View(d, k); }
    assert c.records == d.records;
  }

  // -- Order ---------------------------------------------------------------------------------

  /** Each key's writes are applied to the same effect, in the same order, as requested. */
  ghost predicate KeepsKeys(cfg: Config, g: Generations, xs: seq<Write>, order: seq<Write>) {
    forall k :: OfKey(cfg, g, order, k) == OfKey(cfg, g, xs, k)
  }

  predicate FixedLifetimes(xs: seq<Write>) { forall x :: x in xs ==> x.ttl.To? }

  /** No reordering that lasts: a failed submission of writes with lifetimes of their own is put
      right by the retry, whatever order it used. */
  ghost predicate Harmless(cfg: Config, g: Generations, xs: seq<Write>, f: Fate) {
    KeepsKeys(cfg, g, xs, f.order) || (!f.ok && FixedLifetimes(xs))
  }

  /** Writes to one key all leave the same behind. */
  predicate Consistent(cfg: Config, g: Generations, xs: seq<Write>) {
    forall x, y :: x in xs && y in xs && x.key == y.key ==> EffectOf(cfg, g, x) == EffectOf(cfg, g, y)
  }

  ghost predicate DistinctKeys(xs: seq<Write>) {
    forall i, j :: 0 <= i < j < |xs| ==> xs[i].key != xs[j].key
  }

  /** Each shard applies its writes in request order. */
  ghost predicate InOrder(cfg: Config, xs: seq<Write>, order: seq<Write>) {
    forall n: nat :: Within(cfg, order, {n}) == Within(cfg, xs, {n})
  }

  function Tally(xs: seq<Write>, k: Key): nat {
    if xs == [] then 0 else (if xs[0].key == k then 1 else 0) + Tally(xs[1..], k)
  }

  lemma {:induction false} TallyRemove(xs: seq<Write>, i: nat, k: Key)
    requires i < |xs|
    ensures Tally(xs, k) == Tally(xs[..i] + xs[i + 1..], k) + (if xs[i].key == k then 1 else 0)
  {
    if i == 0 {
      assert xs[..0] + xs[1..] == xs[1..];
    } else {
      TallyRemove(xs[1..], i - 1, k);
      assert (xs[..i] + xs[i + 1..])[1..] == xs[1..][..i - 1] + xs[1..][i..];
    }
  }

  lemma MultisetRemove(xs: seq<Write>, i: nat)
    requires i < |xs|
    ensures multiset(xs[..i] + xs[i + 1..]) == multiset(xs) - multiset{xs[i]}
  {
    assert xs == xs[..i] + [xs[i]] + xs[i + 1..];
  }

  lemma MultisetTail(xs: seq<Write>)
    requires xs != []
    ensures multiset(xs[1..]) == multiset(xs) - multiset{xs[0]}
  {
    assert xs == [xs[0]] + xs[1..];
  }

  lemma IndexOf(x: Write, ys: seq<Write>) returns (i: nat)
    requires x in multiset(ys)
    ensures i < |ys| && ys[i] == x
  {
    i :| 0 <= i < |ys| && ys[i] == x;
  }

  /** Where the first write of one order sits in another. */
  lemma FindFirst(xs: seq<Write>, ys: seq<Write>) returns (i: nat)
    requires multiset(xs) == multiset(ys) && xs != []
    ensures i < |ys| && ys[i] == xs[0]
    ensures multiset(xs[1..]) == multiset(ys[..i] + ys[i + 1..])
  {
    assert xs[0] in multiset(xs);
    i := IndexOf(xs[0], ys);
    MultisetRemove(ys, i);
    MultisetTail(xs);
  }

  lemma {:induction false} TallyPermutes(xs: seq<Write>, ys: seq<Write>, k: Key)
    requires multiset(xs) == multiset(ys)
    ensures Tally(xs, k) == Tally(ys, k)
    decreases |xs|
  {
    if xs == [] {
      assert |ys| == |multiset(ys)| == 0;
    } else {
      hide Tally;
      var i := FindFirst(xs, ys);
      TallyPermutes(xs[1..], ys[..i] + ys[i + 1..], k);
      TallyRemove(ys, i, k);
      TallyRemove(xs, 0, k);
      assert xs[..0] + xs[1..] == xs[1..];
    }
  }

  lemma {:induction false} OfKeyMembers(cfg: Config, g: Generations, xs: seq<Write>, k: Key)
    ensures |OfKey(cfg, g, xs, k)| == Tally(xs, k)
    ensures forall e :: e in OfKey(cfg, g, xs, k) ==>
              exists x :: x in xs && x.key == k && e == EffectOf(cfg, g, x)
  {
    if xs != [] { OfKeyMembers(cfg, g, xs[1..], k); }
  }

  /** Any reordering of consistent writes keeps every key's writes. */
  lemma ConsistentKeepsKeys(cfg: Config, g: Generations, xs: seq<Write>, order: seq<Write>)
    requires multiset(order) == multiset(xs) && Consistent(cfg, g, xs)
    ensures KeepsKeys(cfg, g, xs, order)
  {
    forall k ensures OfKey(cfg, g, order, k) == OfKey(cfg, g, xs, k) {
      OfKeyMembers(cfg, g, xs, k);
      OfKeyMembers(cfg, g, order, k);
      TallyPermutes(xs, order, k);
      forall i | 0 <= i < Tally(xs, k) ensures OfKey(cfg, g, order, k)[i] == OfKey(cfg, g, xs, k)[i] {
        var a, b := OfKey(cfg, g, order, k)[i], OfKey(cfg, g, xs, k)[i];
        assert a in OfKey(cfg, g, order, k) && b in OfKey(cfg, g, xs, k);
        var x :| x in order && x.key == k && a == EffectOf(cfg, g, x);
        var y :| y in xs && y.key == k && b == EffectOf(cfg, g, y);
        assert x in multiset(order);
      }
    }
  }

  lemma DistinctIsConsistent(cfg: Config, g: Generations, xs: seq<Write>)
    requires DistinctKeys(xs)
    ensures Consistent(cfg, g, xs)
  {
  }

  lemma {:induction false} OfKeyWithin(cfg: Config, g: Generations, xs: seq<Write>, shards: set<nat>, k: Key)
    ensures OfKey(cfg, g, Within(cfg, xs, shards), k)
            == if cfg.shardOf(k) in shards then OfKey(cfg, g, xs, k) else []
  {
    if xs != [] { OfKeyWithin(cfg, g, xs[1..], shards, k); }
  }

  lemma InOrderKeepsKeys(cfg: Config, g: Generations, xs: seq<Write>, order: seq<Write>)
    requires InOrder(cfg, xs, order)
    ensures KeepsKeys(cfg, g, xs, order)
  {
    forall k ensures OfKey(cfg, g, order, k) == OfKey(cfg, g, xs, k) {
      var n := cfg.shardOf(k);
      OfKeyWithin(cfg, g, xs, {n}, k);
      OfKeyWithin(cfg, g, order, {n}, k);
      assert Within(cfg, order, {n}) == Within(cfg, xs, {n});
    }
  }

  // -- A batch that succeeds -----------------------------------------------------------------

  lemma {:induction false} AllAccepted(cfg: Config, xs: seq<Write>)
    requires AllAcceptable(cfg, xs)
    ensures Accepted(cfg, xs) == xs && Fitting(cfg, xs) == xs
  {
    if xs != [] {
      assert xs[0] in xs;
      AllAccepted(cfg, xs[1..]);
    }
  }

  /** A batch that succeeds leaves the contents one-at-a-time execution leaves, whatever order it
      was applied in, so long as no key's writes were reordered to a different effect. */
  lemma BatchContents(cfg: Config, c: Contents, xs: seq<Write>, order: seq<Write>)
    requires AllAcceptable(cfg, xs) && KeepsKeys(cfg, c.generations, xs, order)
    ensures PutAll(cfg, Registered(c, Names(xs)), order) == LandAll(cfg, c, xs)
  {
    var g := c.generations;
    var d := Registered(c, Names(xs));
    var h := d.generations;
    AllAccepted(cfg, xs);
    RegisterKeepsGen(g, Names(xs));
    forall k ensures View(PutAll(cfg, d, order), k) == View(LandAll(cfg, c, xs), k) {
      PutAllView(cfg, d, order, k);
      LandAllView(cfg, c, xs, k);
      SameOfKey(cfg, g, h, order, k);
      SameRunKey(cfg, g, h, View(c, k), OfKey(cfg, g, xs, k));
      assert OfKey(cfg, g, order, k) == OfKey(cfg, g, xs, k);
    }
    PutAllView(cfg, d, order, []);
    LandAllView(cfg, c, xs, []);
    SameViews(PutAll(cfg, d, order), LandAll(cfg, c, xs));
  }

  /** The parts of two stampings that one shard owns agree. */
  ghost predicate AgreeOn(cfg: Config, a: Stamps, b: Stamps, n: nat) {
    && (n in a.counters <==> n in b.counters)
    && (n in a.counters ==> a.counters[n] == b.counters[n])
    && (forall k :: cfg.shardOf(k) == n ==>
          && (k in a.tokens <==> k in b.tokens)
          && (k in a.tokens ==> a.tokens[k] == b.tokens[k]))
  }

  lemma {:induction false} ShardsStampAlone(cfg: Config, a: Stamps, b: Stamps, xs: seq<Write>, n: nat)
    requires AgreeOn(cfg, a, b, n)
    ensures AgreeOn(cfg, StampWrites(cfg, a, xs), StampWrites(cfg, b, Within(cfg, xs, {n})), n)
    decreases |xs|
  {
    if xs != [] {
      var a' := Stamp(cfg, a, xs[0].key);
      if cfg.shardOf(xs[0].key) == n {
        var b' := Stamp(cfg, b, xs[0].key);
        assert AgreeOn(cfg, a', b', n);
        ShardsStampAlone(cfg, a', b', xs[1..], n);
        assert Within(cfg, xs, {n})[1..] == Within(cfg, xs[1..], {n});
      } else {
        assert AgreeOn(cfg, a', b, n);
        ShardsStampAlone(cfg, a', b, xs[1..], n);
      }
    }
  }

  predicate Mentions(xs: seq<Write>, k: Key) { exists x :: x in xs && x.key == k }

  lemma {:induction false} StampWritesAt(cfg: Config, s: Stamps, xs: seq<Write>, k: Key)
    ensures
      var t := StampWrites(cfg, s, xs);
      && (k in t.tokens <==> k in s.tokens || Mentions(xs, k))
      && (!Mentions(xs, k) && k in s.tokens ==> t.tokens[k] == s.tokens[k])
    decreases |xs|
  {
    if xs != [] {
      assert xs[0] in xs;
      StampWritesAt(cfg, Stamp(cfg, s, xs[0].key), xs[1..], k);
    }
  }

  lemma StampsInOrder(cfg: Config, s: Stamps, xs: seq<Write>, order: seq<Write>)
    requires InOrder(cfg, xs, order)
    ensures StampWrites(cfg, s, order) == StampWrites(cfg, s, xs)
  {
    var a, b := StampWrites(cfg, s, order), StampWrites(cfg, s, xs);
    forall n: nat ensures AgreeOn(cfg, a, b, n) {
      ShardsStampAlone(cfg, s, s, order, n);
      ShardsStampAlone(cfg, s, s, xs, n);
      assert Within(cfg, order, {n}) == Within(cfg, xs, {n});
    }
    forall k ensures k in a.tokens <==> k in b.tokens
    ensures k in a.tokens ==> a.tokens[k] == b.tokens[k] {
      assert AgreeOn(cfg, a, b, cfg.shardOf(k));
    }
    assert a.tokens == b.tokens;
    forall n: nat ensures n in a.counters <==> n in b.counters
    ensures n in a.counters ==> a.counters[n] == b.counters[n] {
      assert AgreeOn(cfg, a, b, n);
    }
    assert a.counters == b.counters;
  }
}
