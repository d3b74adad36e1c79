/** The store as one client's commands see it: live records, tag generations, and the tokens each
    write is stamped with. Contents and tokens are kept apart because only `cas` reads a token. */
module Store {
  import opened Core
  import opened Commands
  import Arithmetic
  import Clock

  const NEVER: nat := Clock.NEVER

  datatype Tag = Tag(name: TagName, generation: u64)
  datatype Record = Record(value: bytes, flags: u32, deadline: nat, tags: seq<Tag>)
  type Generations = map<TagName, u64>
  datatype Contents = Contents(records: map<Key, Record>, generations: Generations)
  datatype Stamps = Stamps(tokens: map<Key, nat>, counters: map<nat, nat>)
  datatype State = State(contents: Contents, stamps: Stamps)

  /** What a run of commands holds fixed: the clock reading, limits, routing and gates. */
  datatype Config = Config(
    now: nat, maxValue: nat, maxTags: nat, shards: nat, shardOf: Key -> nat,
    flushEnabled: bool, listingEnabled: bool)

  // -- Liveness ------------------------------------------------------------------------------

  /** A name no write has registered is read as the generation it would be registered at. */
  function Gen(g: Generations, n: TagName): u64 { if n in g then g[n] else 0 }

  predicate Expired(cfg: Config, deadline: nat) { deadline != NEVER && deadline <= cfg.now }

  predicate Current(g: Generations, tags: seq<Tag>) {
    forall t :: t in tags ==> Gen(g, t.name) == t.generation
  }

  predicate Live(cfg: Config, g: Generations, r: Record) {
    !Expired(cfg, r.deadline) && Current(g, r.tags)
  }

  function View(c: Contents, k: Key): Option<Record> {
    if k in c.records then Some(c.records[k]) else None
  }

  /** The record a client would see under the key. */
  function Find(cfg: Config, c: Contents, k: Key): Option<Record> {
    if k in c.records && Live(cfg, c.generations, c.records[k]) then Some(c.records[k]) else None
  }

  // -- Unconditional writes ------------------------------------------------------------------

  function NamesOf(names: seq<TagName>): set<TagName> { set n | n in names }

  function Register(g: Generations, names: set<TagName>): Generations {
    map n | n in g.Keys + names :: Gen(g, n)
  }

  function Registered(c: Contents, names: set<TagName>): Contents {
    c.(generations := Register(c.generations, names))
  }

  function Resolve(g: Generations, names: seq<TagName>): seq<Tag> {
    seq(|names|, i requires 0 <= i < |names| => Tag(names[i], Gen(g, names[i])))
  }

  /** A lifetime change settled as far as it can be without the record it replaces. */
  datatype Change = Fix(at: nat) | Fallback(at: nat)

  function Settle(cfg: Config, ttl: TtlChange): Change {
    match ttl
    case Keep => Fallback(NEVER)
    case To(secs) => Fix(Clock.ExpiryFromTtl(secs, cfg.now))
    case IfPersistent(secs) => Fallback(Clock.ExpiryFromTtl(secs, cfg.now))
  }

  function DeadlineAfter(ch: Change, current: nat): nat {
    match ch
    case Fix(at) => at
    case Fallback(at) => if current == NEVER then at else current
  }

  /** The deadline a rewrite inherits: a dead or absent record has none worth keeping. */
  function Inherited(cfg: Config, g: Generations, v: Option<Record>): nat {
    if v.Some? && Live(cfg, g, v.value) then v.value.deadline else NEVER
  }

  /** All an unconditional write leaves behind, up to the deadline it inherits. */
  datatype Effect = Effect(value: bytes, flags: u32, tags: seq<Tag>, change: Change)

  function EffectOf(cfg: Config, g: Generations, x: Write): Effect {
    Effect(x.value, x.flags, Resolve(g, x.tags), Settle(cfg, x.ttl))
  }

  function Stored(cfg: Config, g: Generations, v: Option<Record>, e: Effect): Record {
    Record(e.value, e.flags, DeadlineAfter(e.change, Inherited(cfg, g, v)), e.tags)
  }

  function Put(cfg: Config, c: Contents, x: Write): Contents {
    var g := c.generations;
    c.(records := c.records[x.key := Stored(cfg, g, View(c, x.key), EffectOf(cfg, g, x))])
  }

  // -- One command ---------------------------------------------------------------------------

  datatype Status = BadRequest | TooLarge | NotNumeric | Unauthorized | Internal

  datatype Reply =
    | Pong
    | Value(record: Record)
    | Values(found: seq<Option<Record>>)
    | StoredOk
    | NotStored
    | Exists
    | NotFound
    | Swapped(verdict: Reply, previous: Option<Record>)
    | DeletedOk
    | TouchedOk
    | Number(report: Arithmetic.Applied)
    | Invalidated(known: bool)
    | Flushed
    | Listing(records: map<Key, Record>, generations: Generations)
    | StatsReply
    | VersionReply
    | Closing

  /** The new contents, the answer, the keys stamped with a fresh token in order, and those removed. */
  datatype Outcome = Outcome(
    contents: Contents, reply: Result<Reply, Status>, written: seq<Key>, removed: set<Key>)

  function Unwritten(c: Contents, r: Reply): Outcome { Outcome(c, Ok(r), [], {}) }
  function Failed(c: Contents, s: Status): Outcome { Outcome(c, Err(s), [], {}) }

  /** The guard's refusal, if it refuses. */
  function Refusal(mode: SetMode, found: Option<Record>, matches: bool): Option<Reply> {
    match mode
    case Always => None
    case Add => if found.Some? then Some(NotStored) else None
    case Replace => if found.None? then Some(NotStored) else None
    case Append => if found.None? then Some(NotStored) else None
    case Prepend => if found.None? then Some(NotStored) else None
    case Cas(_) =>
      if found.None? then Some(NotFound) else if !matches then Some(Exists) else None
  }

  function Answered(x: Write, verdict: Reply, found: Option<Record>): Reply {
    if x.returnPrevious then Swapped(verdict, found) else verdict
  }

  function PerformSet(cfg: Config, c0: Contents, x: Write, matches: bool): Outcome {
    if |x.tags| > cfg.maxTags then Failed(c0, BadRequest)
    else
      var c := Registered(c0, NamesOf(x.tags));
      if |x.value| > cfg.maxValue then Failed(c, TooLarge)
      else
        var found := Find(cfg, c, x.key);
        var refused := Refusal(x.mode, found, matches);
        if refused.Some? then Unwritten(c, Answered(x, refused.value, found))
        else if x.mode.Append? || x.mode.Prepend? then
          var prior := found.value;
          var combined := if x.mode.Append? then prior.value + x.value else x.value + prior.value;
          if |combined| > cfg.maxValue then Failed(c, TooLarge)
          else
            var r := Record(combined, prior.flags, prior.deadline, Resolve(c.generations, x.tags));
            Outcome(c.(records := c.records[x.key := r]), Ok(Answered(x, StoredOk, found)), [x.key], {})
        else Outcome(Put(cfg, c, x), Ok(Answered(x, StoredOk, found)), [x.key], {})
  }

  function Touched(cfg: Config, c: Contents, k: Key, secs: u32): Contents {
    match Find(cfg, c, k)
    case None => c
    case Some(r) =>
      c.(records := c.records[k := r.(deadline := Clock.ExpiryFromTtl(secs, cfg.now))])
  }

  /** Re-stamps each key that is live when its turn comes. */
  function TouchedAll(cfg: Config, c: Contents, keys: seq<Key>, secs: u32): (Contents, seq<Key>)
    decreases |keys|
  {
    if keys == [] then (c, [])
    else
      var (rest, written) := TouchedAll(cfg, Touched(cfg, c, keys[0], secs), keys[1..], secs);
      (rest, if Find(cfg, c, keys[0]).Some? then [keys[0]] + written else written)
  }

  function FindAll(cfg: Config, c: Contents, keys: seq<Key>): seq<Option<Record>> {
    seq(|keys|, i requires 0 <= i < |keys| => Find(cfg, c, keys[i]))
  }

  function LiveKeys(cfg: Config, c: Contents, keys: seq<Key>): seq<Key> {
    if keys == [] then []
    else if Find(cfg, c, keys[0]).Some? then [keys[0]] + LiveKeys(cfg, c, keys[1..])
    else LiveKeys(cfg, c, keys[1..])
  }

  function PerformCount(cfg: Config, c: Contents, k: Key, op: Arithmetic.Operation, ttl: TtlChange)
    : Outcome
  {
    var found := Find(cfg, c, k);
    match Arithmetic.Evaluate(op, if found.Some? then Some(found.value.value) else None)
    case Err(_) => Failed(c, NotNumeric)
    case Ok(Absent) => Unwritten(c, NotFound)
    case Ok(Unchanged(report)) => Unwritten(c, Number(report))
    case Ok(Store(text, report)) =>
      if |text| > cfg.maxValue then Failed(c, TooLarge)
      else
        var prior := if found.Some? then found.value else Record([], 0, NEVER, []);
        var r := Record(text, prior.flags, DeadlineAfter(Settle(cfg, ttl), prior.deadline), prior.tags);
        Outcome(c.(records := c.records[k := r]), Ok(Number(report)), [k], {})
  }

  /** What a command does to the contents and answers. `matches` says whether the token a `cas`
      carries is the record's own; no other command consults it. */
  function Perform(cfg: Config, c: Contents, cmd: Command, matches: bool): Outcome {
    match cmd
    case Ping => Unwritten(c, Pong)
    case Get(k) =>
      (match Find(cfg, c, k) case Some(r) => Unwritten(c, Value(r)) case None => Unwritten(c, NotFound))
    case GetMany(keys) => Unwritten(c, Values(FindAll(cfg, c, keys)))
    case Set(x) => PerformSet(cfg, c, x, matches)
    case Delete(k) =>
      var reply := if Find(cfg, c, k).Some? then DeletedOk else NotFound;
      Outcome(c.(records := c.records - {k}), Ok(reply), [], {k})
    case Touch(k, secs) =>
      if Find(cfg, c, k).None? then Unwritten(c, NotFound)
      else Outcome(Touched(cfg, c, k, secs), Ok(TouchedOk), [k], {})
    case GetAndTouch(keys, secs) =>
      var (c', written) := TouchedAll(cfg, c, LiveKeys(cfg, c, keys), secs);
      Outcome(c', Ok(Values(FindAll(cfg, c, keys))), written, {})
    case Count(k, op, ttl) => PerformCount(cfg, c, k, op, ttl)
    case DeleteByTag(n) =>
      if n !in c.generations then Unwritten(c, Invalidated(false))
      else
        var raised: u64 := Min(c.generations[n] as int + 1, U64_MAX);
        Unwritten(c.(generations := c.generations[n := raised]), Invalidated(true))
    case Flush =>
      if !cfg.flushEnabled then Failed(c, Unauthorized)
      else Outcome(c.(records := map[]), Ok(Flushed), [], c.records.Keys)
    case ListKeys =>
      if !cfg.listingEnabled then Failed(c, Unauthorized)
      else Unwritten(c, Listing(c.records, c.generations))
    case Stats => Unwritten(c, StatsReply)
    case Version => Unwritten(c, VersionReply)
    case Quit => Unwritten(c, Closing)
  }

  // -- Tokens --------------------------------------------------------------------------------

  function Counter(s: Stamps, shard: nat): nat { if shard in s.counters then s.counters[shard] else 0 }

  /** Each shard counts on its own; striping keeps tokens unique across shards. */
  function Token(cfg: Config, counter: nat, shard: nat): nat { counter * cfg.shards + shard }

  function Stamp(cfg: Config, s: Stamps, k: Key): Stamps {
    var shard := cfg.shardOf(k);
    var counter := Counter(s, shard) + 1;
    Stamps(s.tokens[k := Token(cfg, counter, shard)], s.counters[shard := counter])
  }

  function StampAll(cfg: Config, s: Stamps, keys: seq<Key>): Stamps
    decreases |keys|
  {
    if keys == [] then s else StampAll(cfg, Stamp(cfg, s, keys[0]), keys[1..])
  }

  predicate Matches(s: State, cmd: Command) {
    cmd.Set? && cmd.write.mode.Cas? && cmd.write.key in s.stamps.tokens
    && s.stamps.tokens[cmd.write.key] == cmd.write.mode.token
  }

  function Commit(cfg: Config, s: State, o: Outcome): State {
    var stamped := StampAll(cfg, s.stamps, o.written);
    State(o.contents, stamped.(tokens := stamped.tokens - o.removed))
  }

  function Executed(cfg: Config, s: State, cmd: Command): (State, Result<Reply, Status>) {
    var o := Perform(cfg, s.contents, cmd, Matches(s, cmd));
    (Commit(cfg, s, o), o.reply)
  }

  // -- Tag registration ----------------------------------------------------------------------

  /** Every tag a stored record carries is registered, at a generation the record has seen. */
  ghost predicate TagsKnown(c: Contents) {
    forall k, t :: k in c.records && t in c.records[k].tags ==>
      t.name in c.generations && t.generation <= c.generations[t.name]
  }

  lemma ResolveKnown(g: Generations, names: seq<TagName>, t: Tag)
    requires t in Resolve(g, names)
    ensures t.name in names && t.generation == Gen(g, t.name)
  {
  }

  lemma TouchedKeepsTags(cfg: Config, c: Contents, keys: seq<Key>, secs: u32)
    requires TagsKnown(c)
    ensures TagsKnown(TouchedAll(cfg, c, keys, secs).0)
    decreases |keys|
  {
    if keys != [] { TouchedKeepsTags(cfg, Touched(cfg, c, keys[0], secs), keys[1..], secs); }
  }

  /** No command stores a record whose tags are unregistered or from a generation yet to come. So
      an unregistered name never decides a stored record's liveness, and no record that its tags
      have killed can come back. */
  lemma TagsStayKnown(cfg: Config, c: Contents, cmd: Command, matches: bool)
    requires TagsKnown(c)
    ensures TagsKnown(Perform(cfg, c, cmd, matches).contents)
  {
    match cmd
    case Set(x) => SetKeepsTags(cfg, c, x, matches);
    case GetAndTouch(keys, secs) => TouchedKeepsTags(cfg, c, LiveKeys(cfg, c, keys), secs);
    case _ =>
  }

  lemma SetKeepsTags(cfg: Config, c: Contents, x: Write, matches: bool)
    requires TagsKnown(c)
    ensures TagsKnown(PerformSet(cfg, c, x, matches).contents)
  {
    var g := Register(c.generations, NamesOf(x.tags));
    forall t | t in Resolve(g, x.tags) ensures t.name in g && t.generation == g[t.name] {
      ResolveKnown(g, x.tags, t);
    }
  }
}
