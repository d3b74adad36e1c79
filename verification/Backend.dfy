/** The store as the executors drive it, and the batch of held-back writes. */
module Backend {
  import opened Core
  import opened Commands
  import opened Store
  import opened SetMany
  import opened Twins
  import opened Serving
  import Auth
  import Retry

  /** A command that got as far as the store, and the session it came from. */
  datatype Visit = Visit(command: Command, session: Auth.Session)

  class Backend {
    const cfg: Config
    var state: State
    /** No submission since this was last set left anything but what one write at a time leaves. */
    ghost var exact: bool
    /** No submission since this was last set reordered a key's writes to a lasting effect. */
    ghost var orderly: bool
    ghost var visits: set<Visit>

    constructor (cfg: Config)
      ensures this.cfg == cfg && state == Retry.EMPTY && exact && orderly && visits == {}
    {
      this.cfg := cfg;
      state := Retry.EMPTY;
      exact, orderly, visits := true, true, {};
    }

    method Execute(cmd: Command, ghost session: Auth.Session) returns (r: Result<Reply, Status>)
      modifies this`state, this`visits
      ensures (state, r) == Executed(cfg, old(state), cmd)
      ensures visits == old(visits) + {Visit(cmd, session)}
    {
      visits := visits + {Visit(cmd, session)};
      var result := Executed(cfg, state, cmd);
      state, r := result.0, result.1;
    }

    /** One submission, grouped by shard. Whether it succeeds, the order each shard applies its
        writes in, and what a failure leaves behind are the storage tier's to choose. */
    method SetMany(xs: seq<Write>, ghost session: Auth.Session) returns (ok: bool, ghost f: Fate)
      modifies this
      ensures Possible(cfg, xs, f) && ok == f.ok && state == Landed(cfg, old(state), f)
      ensures exact == (old(exact) && if ok then InOrder(cfg, xs, f.order) else Retry.Untouched(cfg, f))
      ensures orderly == (old(orderly) && Harmless(cfg, old(state).contents.generations, xs, f))
      ensures visits == old(visits) + set x | x in xs :: Visit(Set(x), session)
    {
      var fate: Fate := *;
      if !Possible(cfg, xs, fate) {
        fate := Fate(xs == [], xs, {}, {}, map[]);
        assert xs != [] ==> cfg.shardOf(xs[0].key) !in fate.committed;
      }
      ok, f := fate.ok, fate;
      exact := exact && if ok then InOrder(cfg, xs, f.order) else Retry.Untouched(cfg, f);
      orderly := orderly && Harmless(cfg, state.contents.generations, xs, f);
      visits := visits + set x | x in xs :: Visit(Set(x), session);
      state := Landed(cfg, state, fate);
    }
  }

  /** A run of consecutive unconditional writes, held back so they are submitted together. */
  class SetBatch {
    var sets: seq<Write>
    var notes: seq<bool>
    /** The frames the writes came from. */
    ghost var frames: seq<Frame>

    ghost predicate Valid()
      reads this
    {
      && AllPlain(frames) && sets == Writes(frames) && |notes| == |frames|
      && (forall i :: 0 <= i < |frames| ==> notes[i] == frames[i].parsed.noreply)
      && DistinctKeys(sets)
    }

    constructor ()
      ensures Valid() && frames == []
    {
      sets, notes, frames := [], [], [];
    }

    predicate IsEmpty()
      reads this
    {
      sets == []
    }

    predicate Holds(key: Key)
      reads this
    {
      exists x :: x in sets && x.key == key
    }

    method Push(x: Write, noreply: bool, ghost f: Frame)
      requires Valid() && !Holds(x.key) && PlainSet(f) && x == WriteOf(f) && noreply == f.parsed.noreply
      modifies this
      ensures Valid() && frames == old(frames) + [f]
    {
      sets, notes, frames := sets + [x], notes + [noreply], frames + [f];
      WritesAppend(old(frames), f);
    }

    /** Submits the run and renders every reply in request order. Whatever the submission came to,
        replies and contents are those of one write at a time, and no token given out before it can
        tell the tokens apart; they are the same when it was exact. */
    method Flush(store: Backend, ghost session: Auth.Session, out0: seq<Line>) returns (out: seq<Line>)
      requires Valid()
      modifies this, store
      ensures Valid() && frames == []
      ensures out == out0 + Owed(store.cfg, old(frames))
      ensures store.state.contents == OneByOne(store.cfg, old(store.state), Writes(old(frames))).contents
      ensures Twin(store.cfg, old(store.state).stamps, store.state.stamps,
                   OneByOne(store.cfg, old(store.state), Writes(old(frames))).stamps)
      ensures store.exact ==>
        old(store.exact) && store.state == OneByOne(store.cfg, old(store.state), Writes(old(frames)))
      ensures store.orderly == old(store.orderly)
      ensures store.visits == old(store.visits) + set x | x in Writes(old(frames)) :: Visit(Set(x), session)
    {
      out := out0;
      if IsEmpty() {
        TwinSelf(store.cfg, store.state.stamps, store.state.stamps);
        return;
      }
      hide Owed, OneByOne, DistinctKeys, Twin;
      out := Submit(store, session, out0);
      sets, notes, frames := [], [], [];
      NothingIsDistinct();
    }

    method Submit(store: Backend, ghost session: Auth.Session, out0: seq<Line>) returns (out: seq<Line>)
      requires Valid()
      modifies store
      ensures out == out0 + Owed(store.cfg, frames)
      ensures store.state.contents == OneByOne(store.cfg, old(store.state), sets).contents
      ensures Twin(store.cfg, old(store.state).stamps, store.state.stamps,
                   OneByOne(store.cfg, old(store.state), sets).stamps)
      ensures store.exact ==> old(store.exact) && store.state == OneByOne(store.cfg, old(store.state), sets)
      ensures store.orderly == old(store.orderly)
      ensures store.visits == old(store.visits) + set x | x in sets :: Visit(Set(x), session)
    {
      hide Owed, Possible, Harmless, InOrder, Landed, OneByOne, Twin, Retry.Untouched;
      ghost var s := store.state;
      var ok, f := store.SetMany(sets, session);
      SubmissionSettles(store.cfg, s, sets, f);
      if ok {
        out := Acknowledge(store, out0);
      } else {
        out := RetryEach(store, session, out0);
      }
    }

    method Acknowledge(store: Backend, out0: seq<Line>) returns (out: seq<Line>)
      requires Valid() && AllAcceptable(store.cfg, sets)
      ensures out == out0 + Owed(store.cfg, frames)
    {
      out := out0;
      for i := 0 to |notes|
        invariant out + Owed(store.cfg, frames[i..]) == out0 + Owed(store.cfg, frames)
      {
        assert sets[i] in sets;
        OwedStep(store.cfg, out, frames, i);
        out := out + Unless(notes[i], [Said(STORED)]);
      }
    }

    method RetryEach(store: Backend, ghost session: Auth.Session, out0: seq<Line>) returns (out: seq<Line>)
      requires Valid() && forall x :: x in sets ==> Visit(Set(x), session) in store.visits
      modifies store`state, store`visits
      ensures out == out0 + Owed(store.cfg, frames)
      ensures store.state == OneByOne(store.cfg, old(store.state), sets)
      ensures store.visits == old(store.visits)
    {
      hide Executed, Land, DistinctKeys, OneByOne;
      out := out0;
      assert sets[0..] == sets && frames[0..] == frames;
      for i := 0 to |sets|
        invariant out + Owed(store.cfg, frames[i..]) == out0 + Owed(store.cfg, frames)
        invariant OneByOne(store.cfg, store.state, sets[i..]) == OneByOne(store.cfg, old(store.state), sets)
        invariant store.visits == old(store.visits)
      {
        OwedStep(store.cfg, out, frames, i);
        OneByOneStep(store.cfg, store.state, sets[i..]);
        assert sets[i..][1..] == sets[i + 1..];
        VerdictIsFixed(store.cfg, store.state, sets[i]);
        var r := store.Execute(Set(sets[i]), session);
        out := out + RetryLines(notes[i], r);
      }
      assert sets[|sets|..] == [];
      assert OneByOne(store.cfg, store.state, []) == store.state by { OneByOneNone(store.cfg, store.state); }
    }
  }

  /** A held batch, however its submission turned out, comes to one write at a time once a failed
      one has been retried. */
  lemma SubmissionSettles(cfg: Config, s: State, xs: seq<Write>, f: Fate)
    requires Possible(cfg, xs, f) && DistinctKeys(xs) && AllDeferrable(xs)
    ensures Harmless(cfg, s.contents.generations, xs, f)
    ensures f.ok ==> AllAcceptable(cfg, xs)
    ensures
      var settled := Settled(cfg, s, xs, f);
      && settled.contents == OneByOne(cfg, s, xs).contents
      && Twin(cfg, s.stamps, settled.stamps, OneByOne(cfg, s, xs).stamps)
      && ((if f.ok then InOrder(cfg, xs, f.order) else Retry.Untouched(cfg, f)) ==> settled == OneByOne(cfg, s, xs))
  {
    hide KeepsKeys, InOrder, OneByOne, DistinctKeys, Twin;
    var g := s.contents.generations;
    SettledTwin(cfg, s, xs, f);
    DistinctIsConsistent(cfg, g, xs);
    ConsistentKeepsKeys(cfg, g, xs, f.order);
    OneByOneSplits(cfg, s, xs);
    if f.ok {
      BatchContents(cfg, s.contents, xs, f.order);
      if InOrder(cfg, xs, f.order) { Retry.BatchExact(cfg, s, xs, f); }
    } else {
      OneByOneSplits(cfg, Landed(cfg, s, f), xs);
      Retry.RetryContents(cfg, s, xs, f);
      Retry.RetryExactIff(cfg, s, xs, f);
    }
  }

  /** How a retried write's own verdict is rendered. */
  function RetryLines(quiet: bool, r: Result<Reply, Status>): seq<Line> {
    Unless(quiet,
      match r
      case Ok(StoredOk) => [Said(STORED)]
      case Ok(_) => [Failure(Internal)]
      case Err(status) => [Failure(status)])
  }

  lemma NothingIsDistinct()
    ensures DistinctKeys([])
  {
  }

  lemma OneByOneNone(cfg: Config, s: State)
    ensures OneByOne(cfg, s, []) == s
  {
  }

  lemma {:induction false} WritesAppend(fs: seq<Frame>, f: Frame)
    requires AllPlain(fs) && PlainSet(f)
    ensures AllPlain(fs + [f]) && Writes(fs + [f]) == Writes(fs) + [WriteOf(f)]
  {
  }
}
