/** One slice of a block, served by the block executor or submitted and awaited as a run of writes. */
module Slices {
  import opened Core
  import opened Commands
  import opened Store
  import opened SetMany
  import opened Twins
  import opened Serving
  import opened Framing
  import opened B = Backend
  import opened E = Executor
  import Auth
  import Retry

  // -- Serving a slice -----------------------------------------------------------------------

  lemma {:induction false} ServeSession(sv: Server, v: World, w: World, fs: seq<Frame>)
    requires v.session == w.session && v.closed == w.closed
    ensures Serve(sv, v, fs).session == Serve(sv, w, fs).session
    ensures Serve(sv, v, fs).closed == Serve(sv, w, fs).closed
    decreases |fs|
  {
    hide Step;
    if fs != [] {
      StepSession(sv, v, w, fs[0]);
      ServeSession(sv, Step(sv, v, fs[0]), Step(sv, w, fs[0]), fs[1..]);
    }
  }

  /** Serving a slice from where the executor stands agrees with the whole run's reference. */
  lemma SliceTracks(free: bool, hidden: bool, inner: bool, sv: Server, base: Stamps, w: World, fs: seq<Frame>,
                    a: Snapshot, b: Snapshot)
    requires Tracks(sv.cfg, base, a.exact, free, hidden, a.store, a.session, a.out, w) && !w.closed
    requires Tracks(sv.cfg, a.store.stamps, b.exact, inner, NoneShows(fs), b.store, b.session, b.out,
                    Serve(sv, World(a.store, a.session, a.out, false), fs))
    requires (b.exact ==> a.exact) && (free ==> NoneAhead(sv.cfg, base, fs)) && (hidden ==> NoneShows(fs))
    ensures Tracks(sv.cfg, base, b.exact, free && inner, hidden, b.store, b.session, b.out, Serve(sv, w, fs))
  {
    hide Serve, MaskedAll, NoneAhead, NoneShows, TwinAt;
    var here := World(a.store, a.session, a.out, false);
    ServeSession(sv, here, w, fs);
    if free {
      TwinServe(sv, base, here, w, fs);
      if inner {
        var mid := Serve(sv, here, fs).store.stamps;
        TwinRebase(sv.cfg, base, a.store.stamps, b.store.stamps, mid);
        TwinJoins(sv.cfg, base, b.store.stamps, mid, Serve(sv, w, fs).store.stamps);
      }
    }
  }

  lemma SliceJustified(sv: Server, run: Reference, k: nat, e: nat, sub: Reference, v: Visit)
    requires k <= e <= |run.fs| && sub.fs == run.fs[k..e]
    requires sub.start.session == WorldAt(sv, run, k).session && sub.start.closed == WorldAt(sv, run, k).closed
    requires Justified(sv, sub, v)
    ensures Justified(sv, run, v)
  {
    hide Serve, Reaches, Target;
    var i :| 0 <= i < |sub.fs| && JustifiedAt(sv, sub, i, v);
    var j := k + i;
    assert sub.fs[i] == run.fs[j] && sub.fs[..i] == run.fs[k..j];
    ServeOn(sv, run, k, j);
    ServeSession(sv, sub.start, WorldAt(sv, run, k), run.fs[k..j]);
    assert JustifiedAt(sv, run, j, v);
  }

  /** Where a stretch of the run, served from where the executor stood, agrees with its own
      reference, the whole run's reference is agreed with too. */
  lemma SliceAgrees(free: bool, kept: bool, sv: Server, run: Reference, k: nat, e: nat, closing: bool, a: Snapshot, b: Snapshot)
    requires AgreesIf(free, sv, run, k, false, a) && k <= e <= |run.fs|
    requires
      var sub := Reference(World(a.store, a.session, a.out, false), run.fs[k..e], a.visits);
      AgreesIf(Free(sv, sub) && kept, sv, sub, |sub.fs|, closing, b)
    requires (b.exact ==> a.exact) && (free ==> Free(sv, run))
    ensures AgreesIf(free && kept, sv, run, e, closing, b)
  {
    hide Serve, Justified, Tracks, LooksAhead;
    var sub := Reference(World(a.store, a.session, a.out, false), run.fs[k..e], a.visits);
    var w := WorldAt(sv, run, k);
    var base := run.start.store.stamps;
    AgreedSession(free, sv, run, k, a);
    ServeOn(sv, run, k, e);
    assert sub.fs[..|sub.fs|] == sub.fs;
    assert NoneShows(run.fs) ==> NoneShows(sub.fs);
    assert free ==> NoneAhead(sv.cfg, base, sub.fs);
    if free { NoneAheadOfLater(sv.cfg, base, a.store.stamps, sub.fs); }
    SliceTracks(free, NoneShows(run.fs), Free(sv, sub) && kept, sv, base, w, sub.fs, a, b);
    ServeSession(sv, sub.start, w, sub.fs);
    forall v | v in b.visits - run.visits ensures Justified(sv, run, v) {
      if v !in a.visits { SliceJustified(sv, run, k, e, sub, v); }
    }
  }

  lemma AgreedSession(free: bool, sv: Server, run: Reference, k: nat, a: Snapshot)
    requires AgreesIf(free, sv, run, k, false, a)
    ensures a.session == WorldAt(sv, run, k).session && !WorldAt(sv, run, k).closed
    ensures free ==> Above(run.start.store.stamps, a.store.stamps)
  {
  }

  // -- Awaited writes ------------------------------------------------------------------------

  predicate AllAwaitable(fs: seq<Frame>) { forall i :: 0 <= i < |fs| ==> AwaitableSet(fs[i]) }

  function Quiet(fs: seq<Frame>): (notes: seq<bool>)
    requires AllPlain(fs)
    ensures |notes| == |fs| && forall i :: 0 <= i < |fs| ==> notes[i] == fs[i].parsed.noreply
  {
    seq(|fs|, i requires 0 <= i < |fs| => fs[i].parsed.noreply)
  }

  datatype Decoding = Declined | WriteRun(sets: seq<Write>, suppress: seq<bool>)

  /** Decodes a block that is nothing but untagged plain sets, and declines any other. */
  method ParseWrites(parse: Parser, block: bytes) returns (r: Decoding)
    requires Framed(parse)
    ensures r.WriteRun? <==> Whole(parse, block) && AllAwaitable(Frames(parse, block))
    ensures r.WriteRun? ==> r == WriteRun(Writes(Frames(parse, block)), Quiet(Frames(parse, block)))
  {
    hide Framed, FramedAt;
    ghost var fs := Frames(parse, block);
    ghost var m: nat := 0;
    var sets, suppress, rest := [], [], block;
    while rest != []
      invariant m <= |fs| && Frames(parse, rest) == fs[m..] && |sets| == |suppress| == m
      invariant Whole(parse, rest) == Whole(parse, block)
      invariant forall i :: 0 <= i < m ==> AwaitableSet(fs[i]) && sets[i] == WriteOf(fs[i])
      invariant forall i :: 0 <= i < m ==> suppress[i] == fs[i].parsed.noreply
      decreases |rest|
    {
      NextFrame(parse, rest, fs, m);
      var parsed := parse(rest);
      if !parsed.Complete? || !AwaitableSet(parsed.frame) {
        return Declined;
      }
      sets := sets + [parsed.frame.parsed.command.write];
      suppress := suppress + [parsed.frame.parsed.noreply];
      rest := rest[parsed.consumed..];
      m := m + 1;
    }
    assert sets == Writes(fs) && suppress == Quiet(fs);
    r := WriteRun(sets, suppress);
  }

  /** A submission was declined, and running the same writes again comes to what running them once
      would have: the contents, if no key's writes were reordered, and the tokens, if exact; twins
      of them otherwise. */
  ghost predicate Repeatable(cfg: Config, xs: seq<Write>, kept: bool, a: Snapshot, b: Snapshot) {
    && b.session == a.session && b.out == a.out && (b.exact ==> a.exact)
    && Above(a.store.stamps, b.store.stamps)
    && Twin(cfg, a.store.stamps, OneByOne(cfg, b.store, xs).stamps, OneByOne(cfg, a.store, xs).stamps)
    && (kept ==> OneByOne(cfg, b.store, xs).contents == OneByOne(cfg, a.store, xs).contents)
    && (b.exact ==> OneByOne(cfg, b.store, xs) == OneByOne(cfg, a.store, xs))
  }

  ghost function Asked(fs: seq<Frame>, session: Auth.Session): set<Visit>
    requires AllPlain(fs)
  {
    set x | x in Writes(fs) :: Visit(Set(x), session)
  }

  lemma FailedIsRepeatable(cfg: Config, xs: seq<Write>, f: Fate, a: Snapshot, b: Snapshot)
    requires AllDeferrable(xs) && Possible(cfg, xs, f) && !f.ok && b.store == Landed(cfg, a.store, f)
    requires b.session == a.session && b.out == a.out && b.exact == (a.exact && Retry.Untouched(cfg, f))
    ensures Repeatable(cfg, xs, Harmless(cfg, a.store.contents.generations, xs, f), a, b)
  {
    hide Possible, Harmless, Landed, OneByOne, Twin, Above;
    OneByOneSplits(cfg, a.store, xs);
    OneByOneSplits(cfg, b.store, xs);
    SettledTwin(cfg, a.store, xs, f);
    if Harmless(cfg, a.store.contents.generations, xs, f) { Retry.RetryContents(cfg, a.store, xs, f); }
    if b.exact { Retry.NothingCommitted(cfg, a.store, xs, f); }
  }

  lemma SubmittedSteps(cfg: Config, fs: seq<Frame>, f: Fate, a: Snapshot, b: Snapshot)
    requires AllPlain(fs) && Possible(cfg, Writes(fs), f) && f.ok && b.store == Landed(cfg, a.store, f)
    requires b.session == a.session && b.out == a.out + Owed(cfg, fs)
    requires b.exact == (a.exact && InOrder(cfg, Writes(fs), f.order))
    ensures FlushStep(cfg, fs, Harmless(cfg, a.store.contents.generations, Writes(fs), f), a, b)
  {
    hide KeepsKeys, InOrder, OneByOne, Owed, Writes, Twin;
    var xs := Writes(fs);
    OneByOneSplits(cfg, a.store, xs);
    SettledTwin(cfg, a.store, xs, f);
    if KeepsKeys(cfg, a.store.contents.generations, xs, f.order) {
      BatchContents(cfg, a.store.contents, xs, f.order);
    }
    if b.exact { Retry.BatchExact(cfg, a.store, xs, f); }
  }

  lemma ConsistentKept(cfg: Config, g: Generations, xs: seq<Write>, f: Fate)
    requires Possible(cfg, xs, f) && Consistent(cfg, g, xs)
    ensures Harmless(cfg, g, xs, f)
  {
    ConsistentKeepsKeys(cfg, g, xs, f.order);
  }

  /** Submits a run of writes and awaits it, or declines and leaves the run to the executor. */
  method AwaitWrites(exec: Executor, parse: Parser, slice: bytes, ghost fs: seq<Frame>) returns (done: bool)
    requires exec.store.cfg == exec.sv.cfg && Framed(parse) && fs == Frames(parse, slice)
    modifies exec`out, exec.store
    ensures done ==> AllPlain(fs) && FlushStep(exec.sv.cfg, fs, exec.store.orderly, old(exec.Snap()), exec.Snap())
    ensures !done && AllPlain(fs) ==>
      Repeatable(exec.sv.cfg, Writes(fs), exec.store.orderly, old(exec.Snap()), exec.Snap())
    ensures AllPlain(fs) ==> exec.store.visits <= old(exec.store.visits) + Asked(fs, exec.conn.Now())
    ensures !AllPlain(fs) ==> exec.Snap() == old(exec.Snap())
    ensures (exec.store.orderly ==> old(exec.store.orderly)) && (exec.store.exact ==> old(exec.store.exact))
    ensures AllPlain(fs) && Consistent(exec.sv.cfg, old(exec.store.state).contents.generations, Writes(fs))
            ==> exec.store.orderly == old(exec.store.orderly)
  {
    hide FlushStep, Repeatable, Consistent, OneByOne, Framed;
    done := false;
    var run := ParseWrites(parse, slice);
    if run.Declined? || run.sets == [] {
      UnchangedRepeats(exec.sv.cfg, fs, exec.store.orderly, exec.Snap());
      return;
    }
    done := SubmitWrites(exec, run.sets, run.suppress, fs);
  }

  method SubmitWrites(exec: Executor, sets: seq<Write>, suppress: seq<bool>, ghost fs: seq<Frame>) returns (ok: bool)
    requires exec.store.cfg == exec.sv.cfg && AllPlain(fs) && sets == Writes(fs) && suppress == Quiet(fs)
    modifies exec`out, exec.store
    ensures ok ==> FlushStep(exec.sv.cfg, fs, exec.store.orderly, old(exec.Snap()), exec.Snap())
    ensures !ok ==> Repeatable(exec.sv.cfg, sets, exec.store.orderly, old(exec.Snap()), exec.Snap())
    ensures exec.store.visits == old(exec.store.visits) + Asked(fs, exec.conn.Now())
    ensures (exec.store.orderly ==> old(exec.store.orderly)) && (exec.store.exact ==> old(exec.store.exact))
    ensures Consistent(exec.sv.cfg, old(exec.store.state).contents.generations, sets) ==>
      exec.store.orderly == old(exec.store.orderly)
  {
    hide FlushStep, Repeatable, Possible, Harmless, InOrder, Consistent, Landed, Owed, OneByOne, Retry.Untouched;
    ghost var a := exec.Snap();
    ghost var g := exec.store.state.contents.generations;
    ghost var f;
    ok, f := exec.store.SetMany(sets, exec.conn.Now());
    if Consistent(exec.sv.cfg, g, sets) { ConsistentKept(exec.sv.cfg, g, sets, f); }
    if ok {
      AllStored(exec.sv.cfg, sets, f);
      exec.out := Acknowledged(exec.sv.cfg, exec.out, suppress, fs);
      SubmittedSteps(exec.sv.cfg, fs, f, a, exec.Snap());
      WeakerStep(exec.sv.cfg, fs, Harmless(exec.sv.cfg, g, sets, f), exec.store.orderly, a, exec.Snap());
    } else {
      FailedIsRepeatable(exec.sv.cfg, sets, f, a, exec.Snap());
      WeakerRepeat(exec.sv.cfg, sets, Harmless(exec.sv.cfg, g, sets, f), exec.store.orderly, a, exec.Snap());
    }
  }

  lemma AllStored(cfg: Config, xs: seq<Write>, f: Fate)
    requires Possible(cfg, xs, f) && f.ok
    ensures AllAcceptable(cfg, xs)
  {
  }

  lemma WeakerStep(cfg: Config, fs: seq<Frame>, kept: bool, weaker: bool, a: Snapshot, b: Snapshot)
    requires AllPlain(fs) && FlushStep(cfg, fs, kept, a, b) && (weaker ==> kept)
    ensures FlushStep(cfg, fs, weaker, a, b)
  {
  }

  lemma WeakerRepeat(cfg: Config, xs: seq<Write>, kept: bool, weaker: bool, a: Snapshot, b: Snapshot)
    requires Repeatable(cfg, xs, kept, a, b) && (weaker ==> kept)
    ensures Repeatable(cfg, xs, weaker, a, b)
  {
  }

  lemma UnchangedRepeats(cfg: Config, fs: seq<Frame>, kept: bool, a: Snapshot)
    ensures AllPlain(fs) ==> Repeatable(cfg, Writes(fs), kept, a, a)
  {
    if AllPlain(fs) {
      OneByOneRises(cfg, a.store, Writes(fs));
      TwinSelf(cfg, a.store.stamps, OneByOne(cfg, a.store, Writes(fs)).stamps);
    }
  }

  /** `STORED` for every write that did not ask for silence. */
  method Acknowledged(cfg: Config, out0: seq<Line>, suppress: seq<bool>, ghost fs: seq<Frame>)
    returns (out: seq<Line>)
    requires AllPlain(fs) && suppress == Quiet(fs) && AllAcceptable(cfg, Writes(fs))
    ensures out == out0 + Owed(cfg, fs)
  {
    out := out0;
    for i := 0 to |suppress|
      invariant out + Owed(cfg, fs[i..]) == out0 + Owed(cfg, fs)
    {
      hide Owed;
      assert Writes(fs)[i] in Writes(fs);
      OwedStep(cfg, out, fs, i);
      out := out + Unless(suppress[i], [Said(STORED)]);
    }
  }

  /** A declined run, run again by the executor, comes to writing it once. */
  lemma RepeatSteps(sv: Server, fs: seq<Frame>, kept: bool, visits: set<Visit>, a: Snapshot, d: Snapshot, closing: bool, c: Snapshot)
    requires AllPlain(fs) && MayWrite(sv, a.session) && Repeatable(sv.cfg, Writes(fs), kept, a, d)
    requires
      var sub := Reference(World(d.store, d.session, d.out, false), fs, visits);
      Agrees(sv, sub, |fs|, closing, c)
    requires c.exact ==> d.exact
    ensures !closing && FlushStep(sv.cfg, fs, kept, a, c) && c.session == a.session
  {
    hide OneByOne, Owed, MayWrite, Writes, AllJustified, Serve, LooksAhead, TwinAt, Above;
    var here := World(d.store, d.session, d.out, false);
    assert fs[..|fs|] == fs;
    assert NoneShows(fs);
    PlainNoneAhead(sv.cfg, d.store.stamps, fs);
    PlainServe(sv, here, fs);
    var xs, base := Writes(fs), a.store.stamps;
    TwinRebase(sv.cfg, base, d.store.stamps, c.store.stamps, OneByOne(sv.cfg, d.store, xs).stamps);
    TwinJoins(sv.cfg, base, c.store.stamps, OneByOne(sv.cfg, d.store, xs).stamps, OneByOne(sv.cfg, a.store, xs).stamps);
  }

  lemma PlainNoneAhead(cfg: Config, base: Stamps, fs: seq<Frame>)
    requires AllPlain(fs)
    ensures NoneAhead(cfg, base, fs)
  {
  }

  lemma RepeatVisits(free: bool, sv: Server, run: Reference, k: nat, e: nat, a: Snapshot, d: Snapshot, closing: bool, c: Snapshot)
    requires AgreesIf(free, sv, run, k, false, a) && k <= e <= |run.fs|
    requires d.session == a.session && AllJustified(sv, run, d.visits)
    requires
      var sub := Reference(World(d.store, d.session, d.out, false), run.fs[k..e], d.visits);
      Agrees(sv, sub, |sub.fs|, closing, c)
    ensures AllJustified(sv, run, c.visits)
  {
    hide Serve, Justified, Tracks, WorldAt;
    var sub := Reference(World(d.store, d.session, d.out, false), run.fs[k..e], d.visits);
    AgreedSession(free, sv, run, k, a);
    forall v | v in c.visits - run.visits ensures Justified(sv, run, v) {
      if v !in d.visits { SliceJustified(sv, run, k, e, sub, v); }
    }
  }

  lemma RepeatableKeeps(cfg: Config, xs: seq<Write>, kept: bool, a: Snapshot, b: Snapshot)
    requires Repeatable(cfg, xs, kept, a, b)
    ensures b.session == a.session
  {
  }

  /** One slice of the block, on the tier chosen for it: submitted and awaited if it is a run of
      writes, and served by the block executor if it is not or the submission was declined. */
  method RunSlice(exec: Executor, parse: Parser, slice: bytes, awaitable: bool, ghost run: Reference, ghost k: nat, ghost e: nat)
    returns (closing: bool)
    requires exec.store.cfg == exec.sv.cfg && Framed(parse)
    requires k <= e <= |run.fs| && Frames(parse, slice) == run.fs[k..e]
    requires AgreesIf(Free(exec.sv, run) && exec.store.orderly, exec.sv, run, k, false, exec.Snap())
    requires awaitable ==> AllPlain(run.fs[k..e]) && MayWrite(exec.sv, exec.conn.Now())
    modifies exec`out, exec.conn, exec.store
    ensures AgreesIf(Free(exec.sv, run) && exec.store.orderly, exec.sv, run, e, closing, exec.Snap())
    ensures exec.store.exact ==> old(exec.store.exact)
    ensures exec.store.orderly ==> old(exec.store.orderly)
    ensures awaitable ==> !closing && exec.conn.Now() == old(exec.conn.Now())
    ensures !awaitable || Consistent(exec.sv.cfg, old(exec.store.state).contents.generations, Writes(run.fs[k..e]))
            ==> exec.store.orderly == old(exec.store.orderly)
    ensures !awaitable && AllReads(run.fs[k..e]) ==> exec.store.state == old(exec.store.state)
  {
    hide AgreesIf, Free, AllPlain, MayWrite, FlushStep, Repeatable, Framed, Frames, Consistent, Writes, AllReads;
    ghost var fs := run.fs[k..e];
    ghost var a, free := exec.Snap(), Free(exec.sv, run) && exec.store.orderly;
    if awaitable {
      var done := AwaitWrites(exec, parse, slice, fs);
      if done {
        FlushVisits(free, exec.sv, run, k, e, a, exec.store.visits);
        FlushAgrees(free, exec.sv, run, k, e, exec.store.orderly, a, exec.Snap());
        return false;
      }
    }
    ghost var d, visits := exec.Snap(), exec.store.visits;
    closing := exec.ExecuteBlock(parse, slice);
    assert |fs| == |run.fs[k..e]|;
    if awaitable {
      RepeatSteps(exec.sv, fs, exec.store.orderly, visits, a, d, closing, exec.Snap());
      RepeatableKeeps(exec.sv.cfg, Writes(fs), exec.store.orderly, a, d);
      FlushVisits(free, exec.sv, run, k, e, a, visits);
      RepeatVisits(free, exec.sv, run, k, e, a, d, closing, exec.Snap());
      FlushAgrees(free, exec.sv, run, k, e, exec.store.orderly, a, exec.Snap());
    } else {
      SliceAgrees(free, true, exec.sv, run, k, e, closing, a, exec.Snap());
    }
  }
}
