/** Two stampings that no `cas` with a token already given out can tell apart. */
module Twins {
  import opened Core
  import opened Commands
  import opened Store
  import opened SetMany
  import Retry

  /** The key's token, if it has one, came after the first `base` of its shard. */
  ghost predicate Newer(cfg: Config, s: Stamps, base: nat, k: Key) {
    k in s.tokens ==> exists c: nat :: base < c && s.tokens[k] == Token(cfg, c, cfg.shardOf(k))
  }

  lemma {:induction false} StampAllNewer(cfg: Config, s: Stamps, keys: seq<Key>, base: nat, k: Key)
    requires base <= Store.Counter(s, cfg.shardOf(k))
    ensures base <= Store.Counter(StampAll(cfg, s, keys), cfg.shardOf(k))
    ensures k in keys || Newer(cfg, s, base, k) ==> Newer(cfg, StampAll(cfg, s, keys), base, k)
    decreases |keys|
  {
    if keys != [] {
      if keys[0] == k { assert Newer(cfg, Stamp(cfg, s, k), base, k); }
      StampAllNewer(cfg, Stamp(cfg, s, keys[0]), keys[1..], base, k);
    }
  }

  lemma {:induction false} StampWritesNewer(cfg: Config, s: Stamps, xs: seq<Write>, base: nat, k: Key)
    requires base <= Store.Counter(s, cfg.shardOf(k))
    ensures base <= Store.Counter(StampWrites(cfg, s, xs), cfg.shardOf(k))
    ensures Mentions(xs, k) || Newer(cfg, s, base, k) ==> Newer(cfg, StampWrites(cfg, s, xs), base, k)
    decreases |xs|
  {
    if xs != [] {
      if xs[0].key == k { assert Newer(cfg, Stamp(cfg, s, k), base, k); }
      StampWritesNewer(cfg, Stamp(cfg, s, xs[0].key), xs[1..], base, k);
    }
  }

  // -- Twins ---------------------------------------------------------------------------------

  /** Every shard has given out at least as many tokens. */
  ghost predicate Above(base: Stamps, s: Stamps) { forall n: nat :: Store.Counter(base, n) <= Store.Counter(s, n) }

  /** The key has a token on both sides or on neither; and the same one, or two that its shard had
      yet to give out at `base`. */
  ghost predicate TwinAt(cfg: Config, base: Stamps, v: Stamps, w: Stamps, k: Key) {
    && (k in v.tokens <==> k in w.tokens)
    && (k in v.tokens ==>
          || v.tokens[k] == w.tokens[k]
          || (Newer(cfg, v, Store.Counter(base, cfg.shardOf(k)), k) && Newer(cfg, w, Store.Counter(base, cfg.shardOf(k)), k)))
  }

  ghost predicate Twin(cfg: Config, base: Stamps, v: Stamps, w: Stamps) {
    Above(base, v) && Above(base, w) && forall k :: TwinAt(cfg, base, v, w, k)
  }

  lemma TwinSelf(cfg: Config, base: Stamps, v: Stamps)
    requires Above(base, v)
    ensures Twin(cfg, base, v, v)
  {
  }

  lemma TwinJoins(cfg: Config, base: Stamps, u: Stamps, v: Stamps, w: Stamps)
    requires Twin(cfg, base, u, v) && Twin(cfg, base, v, w)
    ensures Twin(cfg, base, u, w)
  {
    forall k ensures TwinAt(cfg, base, u, w, k) {
      assert TwinAt(cfg, base, u, v, k) && TwinAt(cfg, base, v, w, k);
    }
  }

  /** Twins from a later start are twins from an earlier one. */
  lemma TwinRebase(cfg: Config, low: Stamps, base: Stamps, v: Stamps, w: Stamps)
    requires Above(low, base) && Twin(cfg, base, v, w)
    ensures Twin(cfg, low, v, w)
  {
    forall k ensures TwinAt(cfg, low, v, w, k) {
      assert TwinAt(cfg, base, v, w, k);
      assert Store.Counter(low, cfg.shardOf(k)) <= Store.Counter(base, cfg.shardOf(k));
    }
    forall n: nat ensures Store.Counter(low, n) <= Store.Counter(v, n) && Store.Counter(low, n) <= Store.Counter(w, n) {
      assert Store.Counter(low, n) <= Store.Counter(base, n) <= Store.Counter(v, n);
    }
  }

  lemma StampRises(cfg: Config, base: Stamps, s: Stamps, k: Key)
    requires Above(base, s)
    ensures Above(base, Stamp(cfg, s, k)) && Newer(cfg, Stamp(cfg, s, k), Store.Counter(base, cfg.shardOf(k)), k)
  {
    assert Store.Counter(base, cfg.shardOf(k)) <= Store.Counter(s, cfg.shardOf(k));
  }

  lemma TwinStamp(cfg: Config, base: Stamps, v: Stamps, w: Stamps, k: Key)
    requires Twin(cfg, base, v, w)
    ensures Twin(cfg, base, Stamp(cfg, v, k), Stamp(cfg, w, k))
  {
    StampRises(cfg, base, v, k);
    StampRises(cfg, base, w, k);
    forall l ensures TwinAt(cfg, base, Stamp(cfg, v, k), Stamp(cfg, w, k), l) {
      assert TwinAt(cfg, base, v, w, l);
    }
  }

  lemma {:induction false} TwinStampAll(cfg: Config, base: Stamps, v: Stamps, w: Stamps, keys: seq<Key>)
    requires Twin(cfg, base, v, w)
    ensures Twin(cfg, base, StampAll(cfg, v, keys), StampAll(cfg, w, keys))
    decreases |keys|
  {
    hide Twin, Stamp;
    if keys != [] {
      TwinStamp(cfg, base, v, w, keys[0]);
      TwinStampAll(cfg, base, Stamp(cfg, v, keys[0]), Stamp(cfg, w, keys[0]), keys[1..]);
    }
  }

  lemma {:induction false} TwinStampWrites(cfg: Config, base: Stamps, v: Stamps, w: Stamps, xs: seq<Write>)
    requires Twin(cfg, base, v, w)
    ensures Twin(cfg, base, StampWrites(cfg, v, xs), StampWrites(cfg, w, xs))
    decreases |xs|
  {
    hide Twin, Stamp;
    if xs != [] {
      TwinStamp(cfg, base, v, w, xs[0].key);
      TwinStampWrites(cfg, base, Stamp(cfg, v, xs[0].key), Stamp(cfg, w, xs[0].key), xs[1..]);
    }
  }

  lemma TwinRemove(cfg: Config, base: Stamps, v: Stamps, w: Stamps, removed: set<Key>)
    requires Twin(cfg, base, v, w)
    ensures Twin(cfg, base, v.(tokens := v.tokens - removed), w.(tokens := w.tokens - removed))
  {
    var v', w' := v.(tokens := v.tokens - removed), w.(tokens := w.tokens - removed);
    forall k ensures TwinAt(cfg, base, v', w', k) { assert TwinAt(cfg, base, v, w, k); }
    forall n: nat ensures Store.Counter(v', n) == Store.Counter(v, n) && Store.Counter(w', n) == Store.Counter(w, n) {}
  }

  lemma TwinCommit(cfg: Config, base: Stamps, s: State, t: State, o: Outcome)
    requires Twin(cfg, base, s.stamps, t.stamps)
    ensures Twin(cfg, base, Commit(cfg, s, o).stamps, Commit(cfg, t, o).stamps)
  {
    hide Twin;
    TwinStampAll(cfg, base, s.stamps, t.stamps, o.written);
    TwinRemove(cfg, base, StampAll(cfg, s.stamps, o.written), StampAll(cfg, t.stamps, o.written), o.removed);
  }

  /** One write at a time does the same to twins. */
  lemma TwinOneByOne(cfg: Config, base: Stamps, s: State, t: State, xs: seq<Write>)
    requires Twin(cfg, base, s.stamps, t.stamps) && AllDeferrable(xs)
    ensures Twin(cfg, base, OneByOne(cfg, s, xs).stamps, OneByOne(cfg, t, xs).stamps)
  {
    hide Twin;
    OneByOneSplits(cfg, s, xs);
    OneByOneSplits(cfg, t, xs);
    TwinStampWrites(cfg, base, s.stamps, t.stamps, Accepted(cfg, xs));
  }

  lemma OneByOneRises(cfg: Config, s: State, xs: seq<Write>)
    requires AllDeferrable(xs)
    ensures Above(s.stamps, OneByOne(cfg, s, xs).stamps)
  {
    OneByOneSplits(cfg, s, xs);
    WritesRise(cfg, s.stamps, s.stamps, Accepted(cfg, xs));
  }

  // -- Tokens that decide --------------------------------------------------------------------

  /** The token is one the key's shard had yet to give out at `base`. */
  ghost predicate Ahead(cfg: Config, base: Stamps, k: Key, token: nat) {
    exists c: nat :: Store.Counter(base, cfg.shardOf(k)) < c && token == Token(cfg, c, cfg.shardOf(k))
  }

  ghost predicate AheadCas(cfg: Config, base: Stamps, cmd: Command) {
    cmd.Set? && cmd.write.mode.Cas? && Ahead(cfg, base, cmd.write.key, cmd.write.mode.token)
  }

  lemma AheadOfLater(cfg: Config, low: Stamps, base: Stamps, cmd: Command)
    requires Above(low, base) && AheadCas(cfg, base, cmd)
    ensures AheadCas(cfg, low, cmd)
  {
    assert Store.Counter(low, cfg.shardOf(cmd.write.key)) <= Store.Counter(base, cfg.shardOf(cmd.write.key));
  }

  /** A token already given out at `base` opens both of two twins or neither: if the key has been
      stamped since, it is stale on both sides, and if not both hold the same token. */
  lemma TwinsMatchAlike(cfg: Config, base: Stamps, s: State, t: State, cmd: Command)
    requires Twin(cfg, base, s.stamps, t.stamps) && !AheadCas(cfg, base, cmd)
    ensures Matches(s, cmd) == Matches(t, cmd)
  {
    if cmd.Set? { assert TwinAt(cfg, base, s.stamps, t.stamps, cmd.write.key); }
  }

  // -- A submission --------------------------------------------------------------------------

  lemma {:induction false} AcceptedMembers(cfg: Config, xs: seq<Write>, x: Write)
    ensures x in Accepted(cfg, xs) <==> x in xs && Acceptable(cfg, x)
  {
    if xs != [] { AcceptedMembers(cfg, xs[1..], x); }
  }

  /** Nothing is applied that one write at a time would refuse. */
  lemma AppliedIsAccepted(cfg: Config, xs: seq<Write>, f: Fate, k: Key)
    requires Possible(cfg, xs, f)
    ensures Mentions(Applied(cfg, f), k) ==> Mentions(Accepted(cfg, xs), k)
    ensures f.ok && Mentions(Accepted(cfg, xs), k) ==> Mentions(Applied(cfg, f), k)
  {
    if x :| x in Applied(cfg, f) && x.key == k {
      if !f.ok {
        Retry.WithinMembers(cfg, f.order, f.committed, x);
        assert x in multiset(xs);
        Retry.WithinMembers(cfg, xs, f.committed, x);
        Retry.CommittedAcceptable(cfg, xs, f);
      } else {
        assert x in multiset(xs);
      }
      AcceptedMembers(cfg, xs, x);
    }
    if y :| f.ok && y in Accepted(cfg, xs) && y.key == k {
      AcceptedMembers(cfg, xs, y);
      assert y in multiset(f.order);
    }
  }

  function Settled(cfg: Config, s: State, xs: seq<Write>, f: Fate): State {
    if f.ok then Landed(cfg, s, f) else OneByOne(cfg, Landed(cfg, s, f), xs)
  }

  lemma LandedRises(cfg: Config, s: State, xs: seq<Write>, f: Fate)
    requires Possible(cfg, xs, f)
    ensures Above(s.stamps, Landed(cfg, s, f).stamps)
  {
    forall n: nat ensures Store.Counter(s.stamps, n) <= Store.Counter(Landed(cfg, s, f).stamps, n) {
      Retry.CountersCount(cfg, Burned(s.stamps, f.spent), Applied(cfg, f), n);
    }
  }

  lemma WritesRise(cfg: Config, base: Stamps, s: Stamps, xs: seq<Write>)
    requires Above(base, s)
    ensures Above(base, StampWrites(cfg, s, xs))
  {
    forall n: nat ensures Store.Counter(base, n) <= Store.Counter(StampWrites(cfg, s, xs), n) {
      Retry.CountersCount(cfg, s, xs, n);
      assert Store.Counter(base, n) <= Store.Counter(s, n);
    }
  }

  /** However a submission turned out, once a failed one is retried its tokens are twins of those one
      write at a time leaves: every key it named was stamped afresh on both sides, and no other. */
  lemma SettledTwin(cfg: Config, s: State, xs: seq<Write>, f: Fate)
    requires Possible(cfg, xs, f) && AllDeferrable(xs)
    ensures Twin(cfg, s.stamps, Settled(cfg, s, xs, f).stamps, OneByOne(cfg, s, xs).stamps)
    ensures Above(s.stamps, Landed(cfg, s, f).stamps)
  {
    hide Possible, StampWrites, Landed, OneByOne;
    var accepted := Accepted(cfg, xs);
    var landed := Landed(cfg, s, f);
    LandedRises(cfg, s, xs, f);
    OneByOneSplits(cfg, s, xs);
    OneByOneSplits(cfg, landed, xs);
    WritesRise(cfg, s.stamps, s.stamps, accepted);
    WritesRise(cfg, s.stamps, landed.stamps, accepted);
    forall k ensures TwinAt(cfg, s.stamps, Settled(cfg, s, xs, f).stamps, OneByOne(cfg, s, xs).stamps, k) {
      SettledTwinAt(cfg, s, xs, f, k);
    }
  }

  lemma SettledTwinAt(cfg: Config, s: State, xs: seq<Write>, f: Fate, k: Key)
    requires Possible(cfg, xs, f) && AllDeferrable(xs)
    ensures TwinAt(cfg, s.stamps, Settled(cfg, s, xs, f).stamps, OneByOne(cfg, s, xs).stamps, k)
  {
    hide Possible, StampWrites, Accepted, Applied, Newer, Mentions, OneByOne;
    var accepted, landed := Accepted(cfg, xs), Landed(cfg, s, f);
    var base := Store.Counter(s.stamps, cfg.shardOf(k));
    var burned := Burned(s.stamps, f.spent);
    assert base <= Store.Counter(burned, cfg.shardOf(k)) && burned.tokens == s.stamps.tokens;
    OneByOneSplits(cfg, s, xs);
    OneByOneSplits(cfg, landed, xs);
    AppliedIsAccepted(cfg, xs, f, k);
    StampWritesAt(cfg, s.stamps, accepted, k);
    StampWritesAt(cfg, burned, Applied(cfg, f), k);
    StampWritesAt(cfg, landed.stamps, accepted, k);
    StampWritesNewer(cfg, s.stamps, accepted, base, k);
    StampWritesNewer(cfg, burned, Applied(cfg, f), base, k);
    StampWritesNewer(cfg, landed.stamps, accepted, base, k);
  }
}
