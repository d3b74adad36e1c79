/** What a command is worth to the reads that come after it, whatever happens in between. */
module Histories {
  import opened Core
  import opened Commands
  import opened Store
  import opened SetMany
  import opened Twins
  import opened StoreLaws
  import Arithmetic
  import Clock
  import Decimal

  // -- One command and a later read ----------------------------------------------------------

  /** What a storage command leaves where a read found `was`. */
  function Written(cfg: Config, g: Generations, x: Write, was: Option<Record>): Record
    requires x.mode.Append? || x.mode.Prepend? ==> was.Some?
  {
    var tags := Resolve(g, x.tags);
    match x.mode
    case Append => Record(was.value.value + x.value, was.value.flags, was.value.deadline, tags)
    case Prepend => Record(x.value + was.value.value, was.value.flags, was.value.deadline, tags)
    case _ => Record(x.value, x.flags, LifetimeAfter(cfg, x.ttl, was), tags)
  }

  /** What a counter operation leaves where a read found `was`. */
  function Tallied(cfg: Config, left: int, ttl: TtlChange, was: Option<Record>): Record {
    var prior := if was.Some? then was.value else Record([], 0, 0, []);
    prior.(value := Decimal.Text(left), deadline := LifetimeAfter(cfg, ttl, was))
  }

  /** The record a command leaves under the key, in terms of what a read finds before it. */
  function Left(cfg: Config, c: Contents, cmd: Command, matches: bool, k: Key): Option<Record> {
    var was := Find(cfg, c, k);
    match cmd
    case Set(x) =>
      if k == x.key && Applies(cfg, x, was, matches) then Some(Written(cfg, c.generations, x, was)) else was
    case Delete(k0) => if k == k0 then None else was
    case Touch(k0, secs) =>
      if k == k0 && was.Some? then Some(was.value.(deadline := Clock.ExpiryFromTtl(secs, cfg.now))) else was
    case GetAndTouch(keys, secs) =>
      if k in keys && was.Some? then Some(was.value.(deadline := Clock.ExpiryFromTtl(secs, cfg.now))) else was
    case Count(k0, op, ttl) =>
      if k == k0 && Counted(cfg, op, was).Some? then Some(Tallied(cfg, Counted(cfg, op, was).value, ttl, was)) else was
    case DeleteByTag(n) =>
      if was.Some? && Carries(was.value, n) && Gen(c.generations, n) < U64_MAX then None else was
    case Flush => if cfg.flushEnabled then None else was
    case _ => was
  }

  /** A record as a read at `t` reports it. */
  function ServedAt(t: nat, r: Option<Record>): Option<Record> {
    if r.Some? && (r.value.deadline == 0 || t < r.value.deadline) then r else None
  }

  /** Whatever the command, a read of any key from then on finds what the command left there, until
      its deadline. */
  lemma ReadAfter(cfg: Config, c: Contents, cmd: Command, matches: bool, k: Key, later: nat)
    requires TagsKnown(c) && cfg.now <= later
    ensures Find(cfg.(now := later), Perform(cfg, c, cmd, matches).contents, k)
            == ServedAt(later, Left(cfg, c, cmd, matches, k))
  {
    hide PerformSet, PerformCount, Left, TagsKnown;
    var d := Perform(cfg, c, cmd, matches).contents;
    if !Concerns(cfg, c, cmd, k) {
      OthersUnaffected(cfg, c, cmd, matches, k, later);
      NotConcerned(cfg, c, cmd, matches, k);
      ReadLater(cfg, c, k, later);
    } else {
      match cmd
      case Set(x) => SetRead(cfg, c, x, matches, later);
      case Count(k0, op, ttl) => CountRead(cfg, c, k0, op, ttl, matches, later);
      case DeleteByTag(n) => TagRead(cfg, c, n, k, matches, later);
      case GetAndTouch(keys, secs) => GetAndTouchRead(cfg, c, keys, secs, k, matches, later);
      case _ => PlainRead(cfg, c, cmd, k, matches, later);
    }
  }

  lemma ReadLater(cfg: Config, c: Contents, k: Key, later: nat)
    requires cfg.now <= later
    ensures Find(cfg.(now := later), c, k) == ServedAt(later, Find(cfg, c, k))
  {
  }

  lemma NotConcerned(cfg: Config, c: Contents, cmd: Command, matches: bool, k: Key)
    requires !Concerns(cfg, c, cmd, k)
    ensures Left(cfg, c, cmd, matches, k) == Find(cfg, c, k)
  {
  }

  lemma PlainRead(cfg: Config, c: Contents, cmd: Command, k: Key, matches: bool, later: nat)
    requires cmd.Delete? || cmd.Touch? || cmd.Flush?
    requires Concerns(cfg, c, cmd, k) && cfg.now <= later
    ensures Find(cfg.(now := later), Perform(cfg, c, cmd, matches).contents, k)
            == ServedAt(later, Left(cfg, c, cmd, matches, k))
  {
  }

  lemma TagRead(cfg: Config, c: Contents, n: TagName, k: Key, matches: bool, later: nat)
    requires TagsKnown(c) && k in c.records && Carries(c.records[k], n) && cfg.now <= later
    ensures Find(cfg.(now := later), Perform(cfg, c, DeleteByTag(n), matches).contents, k)
            == ServedAt(later, Left(cfg, c, DeleteByTag(n), matches, k))
  {
    TagRetires(cfg.(now := later), c, n, k);
    ReadLater(cfg, c, k, later);
  }

  lemma SetRead(cfg: Config, c: Contents, x: Write, matches: bool, later: nat)
    requires cfg.now <= later
    ensures Find(cfg.(now := later), PerformSet(cfg, c, x, matches).contents, x.key)
            == ServedAt(later, Left(cfg, c, Set(x), matches, x.key))
  {
    SetStores(cfg, c, x, matches);
    var was, d := Find(cfg, c, x.key), PerformSet(cfg, c, x, matches).contents;
    if Applies(cfg, x, was, matches) {
      FreshTagsLive(c.generations, x.tags);
      assert Current(d.generations, Resolve(c.generations, x.tags));
    } else {
      RegisteredFind(cfg.(now := later), c, NamesOf(x.tags), x.key);
      ReadLater(cfg, c, x.key, later);
    }
  }

  /** What a storage command does to the table itself. */
  lemma SetStores(cfg: Config, c: Contents, x: Write, matches: bool)
    ensures
      var d := PerformSet(cfg, c, x, matches).contents;
      var was := Find(cfg, c, x.key);
      && SameGen(c.generations, d.generations)
      && (Applies(cfg, x, was, matches) ==> View(d, x.key) == Some(Written(cfg, c.generations, x, was)))
      && (!Applies(cfg, x, was, matches) ==> d == c || d == Registered(c, NamesOf(x.tags)))
  {
    var d := Registered(c, NamesOf(x.tags));
    RegisterKeepsGen(c.generations, NamesOf(x.tags));
    RegisteredFind(cfg, c, NamesOf(x.tags), x.key);
    SameEffect(cfg, c.generations, d.generations, x);
    assert Resolve(c.generations, x.tags) == Resolve(d.generations, x.tags);
  }

  lemma CountRead(cfg: Config, c: Contents, k: Key, op: Arithmetic.Operation, ttl: TtlChange, matches: bool, later: nat)
    requires cfg.now <= later
    ensures Find(cfg.(now := later), PerformCount(cfg, c, k, op, ttl).contents, k)
            == ServedAt(later, Left(cfg, c, Count(k, op, ttl), matches, k))
  {
    hide PerformCount, Counted, LifetimeAfter;
    CountIsSeen(cfg, c, k, op, ttl);
    ReadLater(cfg, c, k, later);
    assert PerformCount(cfg, c, k, op, ttl) == Perform(cfg, c, Count(k, op, ttl), false);
  }

  lemma GetAndTouchRead(cfg: Config, c: Contents, keys: seq<Key>, secs: u32, k: Key, matches: bool, later: nat)
    requires k in keys && cfg.now <= later
    ensures Find(cfg.(now := later), Perform(cfg, c, GetAndTouch(keys, secs), matches).contents, k)
            == ServedAt(later, Left(cfg, c, GetAndTouch(keys, secs), matches, k))
  {
    LiveKeysMembers(cfg, c, keys, k);
    var live := LiveKeys(cfg, c, keys);
    TouchedAllOthers(cfg, c, live, secs, k);
    if Find(cfg, c, k).Some? {
      TouchedAllStores(cfg, c, live, secs, k);
    } else {
      SameUnderFinds(cfg.(now := later), c, TouchedAll(cfg, c, live, secs).0, k);
      ReadLater(cfg, c, k, later);
    }
  }

  lemma {:induction false} TouchedAllStores(cfg: Config, c: Contents, keys: seq<Key>, secs: u32, k: Key)
    requires Find(cfg, c, k).Some?
    ensures k in keys ==>
      View(TouchedAll(cfg, c, keys, secs).0, k)
      == Some(Find(cfg, c, k).value.(deadline := Clock.ExpiryFromTtl(secs, cfg.now)))
    ensures k in keys ==> k in TouchedAll(cfg, c, keys, secs).1
    decreases |keys|
  {
    if keys != [] {
      var d := Store.Touched(cfg, c, keys[0], secs);
      if keys[0] != k {
        TouchedAllStores(cfg, d, keys[1..], secs, k);
      } else {
        Retouched(cfg, d, keys[1..], secs, k);
      }
    }
  }

  /** Touching again what carries the deadline already changes nothing. */
  lemma {:induction false} Retouched(cfg: Config, c: Contents, keys: seq<Key>, secs: u32, k: Key)
    requires k in c.records && c.records[k].deadline == Clock.ExpiryFromTtl(secs, cfg.now)
    ensures View(TouchedAll(cfg, c, keys, secs).0, k) == View(c, k)
    decreases |keys|
  {
    if keys != [] { Retouched(cfg, Store.Touched(cfg, c, keys[0], secs), keys[1..], secs, k); }
  }

  // -- What a command answers ----------------------------------------------------------------

  function Sighting(r: Option<Record>): Reply { if r.Some? then Value(r.value) else NotFound }

  /** What the commands that do not write a value answer, in terms of what a read finds. */
  lemma RepliesMean(cfg: Config, c: Contents, cmd: Command, matches: bool)
    ensures
      var reply := Perform(cfg, c, cmd, matches).reply;
      match cmd
      case Get(k) => reply == Ok(Sighting(Find(cfg, c, k)))
      case GetMany(keys) => FoundEach(cfg, c, keys, reply)
      case GetAndTouch(keys, _) => FoundEach(cfg, c, keys, reply)
      case Delete(k) => reply == Ok(if Find(cfg, c, k).Some? then DeletedOk else NotFound)
      case Touch(k, _) => reply == Ok(if Find(cfg, c, k).Some? then TouchedOk else NotFound)
      case DeleteByTag(n) => reply == Ok(Invalidated(n in c.generations))
      case Flush => reply == if cfg.flushEnabled then Ok(Flushed) else Err(Unauthorized)
      case ListKeys =>
        if cfg.listingEnabled then ListsAll(cfg, c, reply) else reply == Err(Unauthorized)
      case Ping => reply == Ok(Pong)
      case Stats => reply == Ok(StatsReply)
      case Version => reply == Ok(VersionReply)
      case Quit => reply == Ok(Closing)
      case _ => true
  {
  }

  /** One answer a key, in the order asked. */
  predicate FoundEach(cfg: Config, c: Contents, keys: seq<Key>, reply: Result<Reply, Status>) {
    && reply.Ok? && reply.value.Values? && |reply.value.found| == |keys|
    && forall i :: 0 <= i < |keys| ==> reply.value.found[i] == Find(cfg, c, keys[i])
  }

  /** A listing shows every key a read would find, and as a read would find it. */
  ghost predicate ListsAll(cfg: Config, c: Contents, reply: Result<Reply, Status>) {
    && reply.Ok? && reply.value.Listing?
    && forall k :: Find(cfg, Contents(reply.value.records, reply.value.generations), k) == Find(cfg, c, k)
  }

  // -- Tokens --------------------------------------------------------------------------------

  /** The command takes the key's record away. */
  predicate Removes(cfg: Config, c: Contents, cmd: Command, k: Key) {
    (cmd.Delete? && cmd.key == k) || (cmd.Flush? && cfg.flushEnabled && k in c.records)
  }

  /** The command writes the key's record. */
  predicate Rewrites(cfg: Config, c: Contents, cmd: Command, matches: bool, k: Key) {
    var was := Find(cfg, c, k);
    match cmd
    case Set(x) => k == x.key && Applies(cfg, x, was, matches)
    case Touch(k0, _) => k == k0 && was.Some?
    case GetAndTouch(keys, _) => k in keys && was.Some?
    case Count(k0, op, _) => k == k0 && Counted(cfg, op, was).Some?
    case _ => false
  }

  /** A command that writes a record gives it a token its shard had never given out, one that takes a
      record away takes its token, and no other token moves. */
  lemma TokenAfter(cfg: Config, s: State, cmd: Command, k: Key)
    ensures
      var t := Executed(cfg, s, cmd).0.stamps;
      if Removes(cfg, s.contents, cmd, k) then k !in t.tokens
      else if Rewrites(cfg, s.contents, cmd, Matches(s, cmd), k) then
        k in t.tokens && Newer(cfg, t, Store.Counter(s.stamps, cfg.shardOf(k)), k)
      else (k in t.tokens <==> k in s.stamps.tokens) && (k in t.tokens ==> t.tokens[k] == s.stamps.tokens[k])
  {
    hide Perform;
    var o := Perform(cfg, s.contents, cmd, Matches(s, cmd));
    WrittenExactly(cfg, s.contents, cmd, Matches(s, cmd), k);
    StampAllNewer(cfg, s.stamps, o.written, Store.Counter(s.stamps, cfg.shardOf(k)), k);
    StampAllAt(cfg, s.stamps, o.written, k);
  }

  lemma {:induction false} StampAllAt(cfg: Config, s: Stamps, keys: seq<Key>, k: Key)
    ensures
      var t := StampAll(cfg, s, keys).tokens;
      (k in t <==> k in s.tokens || k in keys) && (k !in keys && k in s.tokens ==> t[k] == s.tokens[k])
    decreases |keys|
  {
    if keys != [] { StampAllAt(cfg, Stamp(cfg, s, keys[0]), keys[1..], k); }
  }

  lemma WrittenExactly(cfg: Config, c: Contents, cmd: Command, matches: bool, k: Key)
    ensures
      var o := Perform(cfg, c, cmd, matches);
      (k in o.removed <==> Removes(cfg, c, cmd, k)) && (k in o.written <==> Rewrites(cfg, c, cmd, matches, k))
  {
    hide PerformSet, PerformCount, Counted, Applies;
    match cmd
    case Set(x) =>
      SetIsSeen(cfg, c, x, matches, k);
      SetRemovesNothing(cfg, c, x, matches);
    case Count(k0, op, ttl) =>
      CountIsSeen(cfg, c, k0, op, ttl);
      CountRemovesNothing(cfg, c, k0, op, ttl);
    case GetAndTouch(keys, secs) =>
      LiveKeysMembers(cfg, c, keys, k);
      TouchedAllOthers(cfg, c, LiveKeys(cfg, c, keys), secs, k);
      if Find(cfg, c, k).Some? { TouchedAllStores(cfg, c, LiveKeys(cfg, c, keys), secs, k); }
    case _ =>
  }

  lemma SetRemovesNothing(cfg: Config, c: Contents, x: Write, matches: bool)
    ensures PerformSet(cfg, c, x, matches).removed == {}
  {
  }

  lemma CountRemovesNothing(cfg: Config, c: Contents, k: Key, op: Arithmetic.Operation, ttl: TtlChange)
    ensures PerformCount(cfg, c, k, op, ttl).removed == {}
  {
    hide Arithmetic.Evaluate;
  }

  // -- Any run in between --------------------------------------------------------------------

  /** A command and the clock reading it is run at. */
  datatype Timed = Timed(at: nat, command: Command)

  function Play(cfg: Config, s: State, es: seq<Timed>): State
    decreases |es|
  {
    if es == [] then s else Play(cfg, Executed(cfg.(now := es[0].at), s, es[0].command).0, es[1..])
  }

  /** No command of the run is about the key. */
  predicate Spares(cfg: Config, s: State, es: seq<Timed>, k: Key)
    decreases |es|
  {
    es == [] ||
    (!Concerns(cfg.(now := es[0].at), s.contents, es[0].command, k)
     && Spares(cfg, Executed(cfg.(now := es[0].at), s, es[0].command).0, es[1..], k))
  }

  /** A run that spares a key leaves it to be read, and to be compared and swapped, as if it had not
      happened. */
  lemma {:induction false} SparedReads(cfg: Config, s: State, es: seq<Timed>, k: Key, later: nat)
    requires Spares(cfg, s, es, k)
    ensures
      var t := Play(cfg, s, es);
      && Find(cfg.(now := later), t.contents, k) == Find(cfg.(now := later), s.contents, k)
      && (k in t.stamps.tokens <==> k in s.stamps.tokens)
      && (k in s.stamps.tokens ==> t.stamps.tokens[k] == s.stamps.tokens[k])
    decreases |es|
  {
    hide Perform, Concerns, Find;
    if es != [] {
      var now := cfg.(now := es[0].at);
      var m := Matches(s, es[0].command);
      OthersUnaffected(now, s.contents, es[0].command, m, k, later);
      StampAllAt(now, s.stamps, Perform(now, s.contents, es[0].command, m).written, k);
      assert now.(now := later) == cfg.(now := later);
      SparedReads(cfg, Executed(now, s, es[0].command).0, es[1..], k, later);
    }
  }

  /** A command, any run that spares the key, and a read at any time after the command: the read
      answers with what the command left, until its deadline. */
  lemma GetAfter(cfg: Config, s: State, cmd: Command, es: seq<Timed>, k: Key, later: nat)
    requires TagsKnown(s.contents) && cfg.now <= later
    requires Spares(cfg, Executed(cfg, s, cmd).0, es, k)
    ensures
      var t := Play(cfg, Executed(cfg, s, cmd).0, es);
      Executed(cfg.(now := later), t, Get(k)).1
      == Ok(Sighting(ServedAt(later, Left(cfg, s.contents, cmd, Matches(s, cmd), k))))
  {
    hide Perform, Find, Left, Spares, Play;
    var after := Executed(cfg, s, cmd).0;
    ReadAfter(cfg, s.contents, cmd, Matches(s, cmd), k, later);
    SparedReads(cfg, after, es, k, later);
    RepliesMean(cfg.(now := later), Play(cfg, after, es).contents, Get(k), Matches(Play(cfg, after, es), Get(k)));
  }

  /** The lifetime field, given at `now`, has not run out at `later`: never if it is zero, at once if it
      is all ones, after that many seconds up to thirty days, and at that point in time past them. */
  predicate Lasts(secs: u32, now: nat, later: nat) {
    if secs == 0 then true
    else if secs == 0xFFFF_FFFF then later == 0
    else if secs <= 2_592_000 then later - now < 1000 * secs
    else later < 1000 * secs
  }

  /** A set is read back exactly until the lifetime it asks for is over. */
  lemma SetLasts(cfg: Config, s: State, x: Write, es: seq<Timed>, secs: u32, later: nat)
    requires TagsKnown(s.contents) && cfg.now <= later && x.mode.Always? && x.ttl == To(secs) && Acceptable(cfg, x)
    requires Spares(cfg, Executed(cfg, s, Set(x)).0, es, x.key)
    ensures
      var t := Play(cfg, Executed(cfg, s, Set(x)).0, es);
      var reply := Executed(cfg.(now := later), t, Get(x.key)).1;
      if Lasts(secs, cfg.now, later)
      then reply.Ok? && reply.value.Value? && reply.value.record.value == x.value && reply.value.record.flags == x.flags
      else reply == Ok(NotFound)
  {
    hide Perform, Find, Spares, Play, Executed;
    GetAfter(cfg, s, Set(x), es, x.key, later);
    Clock.TtlMeans(secs, cfg.now, later);
  }

  /** A tag given with a set, and no other, retires the record when it is invalidated. */
  lemma SetThenInvalidate(cfg: Config, s: State, x: Write, n: TagName, later: nat)
    requires TagsKnown(s.contents) && cfg.now <= later && x.mode.Always? && x.ttl == To(0) && Acceptable(cfg, x)
    requires Gen(s.contents.generations, n) < U64_MAX
    ensures
      var gone := Executed(cfg, Executed(cfg, s, Set(x)).0, DeleteByTag(n)).0;
      Executed(cfg.(now := later), gone, Get(x.key)).1 == Ok(NotFound) <==> n in x.tags
  {
    hide Perform, Find, Spares, Executed;
    var held := Executed(cfg, s, Set(x)).0;
    var gone := Executed(cfg, held, DeleteByTag(n)).0;
    TagsKept(cfg, s, Set(x));
    ReadAfter(cfg, s.contents, Set(x), Matches(s, Set(x)), x.key, cfg.now);
    assert cfg.(now := cfg.now) == cfg;
    SetStoresGens(cfg, s, x, n);
    ResolvedCarries(s.contents.generations, x.tags, n);
    NothingPlayed(cfg, gone, x.key);
    GetAfter(cfg, held, DeleteByTag(n), [], x.key, later);
  }

  lemma NothingPlayed(cfg: Config, s: State, k: Key)
    ensures Play(cfg, s, []) == s && Spares(cfg, s, [], k)
  {
  }

  lemma TagsKept(cfg: Config, s: State, cmd: Command)
    requires TagsKnown(s.contents)
    ensures TagsKnown(Executed(cfg, s, cmd).0.contents)
    ensures Executed(cfg, s, cmd).0.contents == Perform(cfg, s.contents, cmd, Matches(s, cmd)).contents
  {
    TagsStayKnown(cfg, s.contents, cmd, Matches(s, cmd));
  }

  lemma SetStoresGens(cfg: Config, s: State, x: Write, n: TagName)
    ensures Gen(Executed(cfg, s, Set(x)).0.contents.generations, n) == Gen(s.contents.generations, n)
  {
    SetStores(cfg, s.contents, x, Matches(s, Set(x)));
  }

  lemma ResolvedCarries(g: Generations, names: seq<TagName>, n: TagName)
    ensures (exists t :: t in Resolve(g, names) && t.name == n) <==> n in names
  {
    if n in names {
      var i :| 0 <= i < |names| && names[i] == n;
      assert Resolve(g, names)[i].name == n;
    }
    forall t | t in Resolve(g, names) ensures t.name in names { ResolveKnown(g, names, t); }
  }
}
