/** What each command does to what a client sees, and what a token is worth. */
module StoreLaws {
  import opened Core
  import opened Commands
  import opened Store
  import opened SetMany
  import opened Twins
  import Arithmetic
  import Auth
  import Clock
  import Decimal

  /** A record as reads report it: an expired one is a miss. */
  function Served(cfg: Config, r: Record): Option<Record> {
    if Expired(cfg, r.deadline) then None else Some(r)
  }

  predicate Concatenates(mode: SetMode) { mode.Append? || mode.Prepend? }

  /** The guard each storage verb names, judged by what a read would find. */
  predicate Applies(cfg: Config, x: Write, was: Option<Record>, matches: bool) {
    && Acceptable(cfg, x)
    && (x.mode.Add? ==> was.None?)
    && (x.mode.Replace? || x.mode.Cas? || Concatenates(x.mode) ==> was.Some?)
    && (x.mode.Cas? ==> matches)
    && !Grows(cfg, x, was)
  }

  /** Concatenating would pass the value ceiling. */
  predicate Grows(cfg: Config, x: Write, was: Option<Record>) {
    Concatenates(x.mode) && was.Some? && |was.value.value| + |x.value| > cfg.maxValue
  }

  function LifetimeAfter(cfg: Config, ttl: TtlChange, was: Option<Record>): nat {
    match ttl
    case To(secs) => Clock.ExpiryFromTtl(secs, cfg.now)
    case Keep => if was.Some? then was.value.deadline else NEVER
    case IfPersistent(secs) =>
      if was.Some? && was.value.deadline != NEVER then was.value.deadline
      else Clock.ExpiryFromTtl(secs, cfg.now)
  }

  /** The word a guard refuses with. */
  function RefusalWord(x: Write, was: Option<Record>): Reply {
    if x.mode.Cas? then (if was.None? then NotFound else Exists) else NotStored
  }

  /** A write that asks is told what a read would have found, whether or not it applied. */
  function Reported(x: Write, verdict: Reply, was: Option<Record>): Reply {
    if x.returnPrevious then Swapped(verdict, was) else verdict
  }

  lemma RegisteredFind(cfg: Config, c: Contents, names: set<TagName>, k: Key)
    ensures Find(cfg, Registered(c, names), k) == Find(cfg, c, k)
  {
    RegisterKeepsGen(c.generations, names);
  }

  lemma FreshTagsLive(g: Generations, names: seq<TagName>)
    ensures Current(g, Resolve(g, names))
  {
    forall t | t in Resolve(g, names) ensures Gen(g, t.name) == t.generation { ResolveKnown(g, names, t); }
  }

  /** A storage command writes exactly when its guard holds of what a read would find, a read then
      finds what it stored, and no other key is affected either way. */
  lemma SetIsSeen(cfg: Config, c: Contents, x: Write, matches: bool, k: Key)
    ensures
      var o := Perform(cfg, c, Set(x), matches);
      var was := Find(cfg, c, x.key);
      var tags := Resolve(c.generations, x.tags);
      && (o.written == if Applies(cfg, x, was, matches) then [x.key] else [])
      && (o.reply == if |x.tags| > cfg.maxTags then Err(BadRequest)
                     else if Applies(cfg, x, was, matches) then Ok(Reported(x, StoredOk, was))
                     else if |x.value| > cfg.maxValue || Grows(cfg, x, was) then Err(TooLarge)
                     else Ok(Reported(x, RefusalWord(x, was), was)))
      && (k != x.key || o.written == [] ==> Find(cfg, o.contents, k) == Find(cfg, c, k))
      && (o.written != [] ==>
            Find(cfg, o.contents, x.key)
            == match x.mode
               case Append =>
                 Some(Record(was.value.value + x.value, was.value.flags, was.value.deadline, tags))
               case Prepend =>
                 Some(Record(x.value + was.value.value, was.value.flags, was.value.deadline, tags))
               case _ => Served(cfg, Record(x.value, x.flags, LifetimeAfter(cfg, x.ttl, was), tags)))
  {
    var d := Registered(c, NamesOf(x.tags));
    var g, h := c.generations, d.generations;
    RegisteredFind(cfg, c, NamesOf(x.tags), k);
    RegisteredFind(cfg, c, NamesOf(x.tags), x.key);
    RegisterKeepsGen(g, NamesOf(x.tags));
    SameEffect(cfg, g, h, x);
    FreshTagsLive(h, x.tags);
  }

  /** A write may be held back exactly when the store has no say in its reply. */
  lemma DeferrableExactly(cfg: Config, x: Write)
    requires Acceptable(cfg, x)
    ensures Deferrable(x) <==> forall s, t :: Executed(cfg, s, Set(x)).1 == Executed(cfg, t, Set(x)).1
  {
    hide Executed;
    if Deferrable(x) {
      forall s, t ensures Executed(cfg, s, Set(x)).1 == Executed(cfg, t, Set(x)).1 {
        VerdictIsFixed(cfg, s, x);
        VerdictIsFixed(cfg, t, x);
      }
    } else {
      var bare := State(Contents(map[], map[]), Stamps(map[], map[]));
      var held := State(Contents(map[x.key := Record([], 0, 0, [])], map[]), Stamps(map[], map[]));
      ReplyTells(cfg, bare, held, x);
    }
  }

  lemma ReplyTells(cfg: Config, bare: State, held: State, x: Write)
    requires Acceptable(cfg, x) && !Deferrable(x) && Find(cfg, bare.contents, x.key).None?
    requires held == State(Contents(map[x.key := Record([], 0, 0, [])], map[]), Stamps(map[], map[]))
    ensures Executed(cfg, bare, Set(x)).1 != Executed(cfg, held, Set(x)).1
  {
    SetIsSeen(cfg, bare.contents, x, Matches(bare, Set(x)), x.key);
    SetIsSeen(cfg, held.contents, x, Matches(held, Set(x)), x.key);
    hide Perform;
    assert Find(cfg, held.contents, x.key) == Some(Record([], 0, 0, []));
  }

  /** A tag names the record. */
  predicate Carries(r: Record, n: TagName) { exists t :: t in r.tags && t.name == n }

  /** Invalidating a registered tag hides exactly the records carrying it, unless its generation has
      run out. */
  lemma TagRetires(cfg: Config, c: Contents, n: TagName, k: Key)
    requires TagsKnown(c)
    ensures
      var o := Perform(cfg, c, DeleteByTag(n), false);
      Find(cfg, o.contents, k)
      == if k in c.records && Carries(c.records[k], n) && c.generations[n] < U64_MAX
         then None else Find(cfg, c, k)
    ensures n in c.generations <==> Perform(cfg, c, DeleteByTag(n), false).reply == Ok(Invalidated(true))
  {
    var g := c.generations;
    if n in g && k in c.records {
      var r := c.records[k];
      if Carries(r, n) && g[n] < U64_MAX {
        var t :| t in r.tags && t.name == n;
        assert Gen(g[n := g[n] + 1], t.name) != t.generation;
      } else {
        forall t | t in r.tags ensures Gen(Perform(cfg, c, DeleteByTag(n), false).contents.generations, t.name) == Gen(g, t.name) {}
      }
    }
  }

  function TouchedView(cfg: Config, c: Contents, named: bool, secs: u32, k: Key): Option<Record> {
    match Find(cfg, c, k)
    case None => None
    case Some(r) =>
      if named then Served(cfg, r.(deadline := Clock.ExpiryFromTtl(secs, cfg.now))) else Some(r)
  }

  lemma {:induction false} TouchedAllView(cfg: Config, c: Contents, keys: seq<Key>, secs: u32, k: Key)
    ensures Find(cfg, TouchedAll(cfg, c, keys, secs).0, k) == TouchedView(cfg, c, k in keys, secs, k)
    decreases |keys|
  {
    if keys != [] { TouchedAllView(cfg, Store.Touched(cfg, c, keys[0], secs), keys[1..], secs, k); }
  }

  lemma {:induction false} LiveKeysMembers(cfg: Config, c: Contents, keys: seq<Key>, k: Key)
    ensures k in LiveKeys(cfg, c, keys) <==> k in keys && Find(cfg, c, k).Some?
  {
    if keys != [] { LiveKeysMembers(cfg, c, keys[1..], k); }
  }

  /** A get-and-touch answers with what it found before touching, and leaves every live key it
      named, however often, with the new deadline. */
  lemma GetAndTouchIsSeen(cfg: Config, c: Contents, keys: seq<Key>, secs: u32, k: Key)
    ensures
      var o := Perform(cfg, c, GetAndTouch(keys, secs), false);
      && o.reply == Perform(cfg, c, GetMany(keys), false).reply
      && Find(cfg, o.contents, k) == TouchedView(cfg, c, k in keys, secs, k)
  {
    LiveKeysMembers(cfg, c, keys, k);
    TouchedAllView(cfg, c, LiveKeys(cfg, c, keys), secs, k);
  }

  /** Where a counter of the memcached domain goes from `v`: up and round past the largest u64, or
      down to no less than zero. */
  function CounterLeft(v: int, step: u64, decrement: bool): int {
    if decrement then (if step <= v then v - step else 0)
    else if v + step <= U64_MAX then v + step
    else v + step - 0x1_0000_0000_0000_0000
  }

  /** Where the integer domain goes from `v`: to the sum if the bounds allow it, else wherever the
      policy says, if anywhere. */
  function IntLeft(v: int, delta: i64, lower: i64, upper: i64, onBound: Arithmetic.OnBound): Option<int> {
    var sum := v + delta;
    var kept := if sum > upper then upper as int else if sum < lower then lower as int else sum;
    if (kept == sum || onBound.Clamp?) && I64_MIN <= kept - v <= I64_MAX then Some(kept) else None
  }

  /** The number a counter operation stores, of the one it starts from. */
  function NumberLeft(op: Arithmetic.Operation, v: int): Option<int> {
    match op.delta
    case ByCounter(step, decrement) => Some(CounterLeft(v, step, decrement))
    case ByInt(delta, lower, upper) => IntLeft(v, delta, lower, upper, op.onBound)
  }

  function TextOf(r: Option<Record>): Option<bytes> { if r.Some? then Some(r.value.value) else None }

  /** The number the operation stores under a key a read finds like this, if it stores one. */
  function Counted(cfg: Config, op: Arithmetic.Operation, was: Option<Record>): Option<int> {
    var start := Arithmetic.Start(op, TextOf(was));
    if (was.None? && op.missing.Miss?) || start.None? then None
    else
      var left := NumberLeft(op, start.value);
      if left.Some? && |Decimal.Text(left.value)| <= cfg.maxValue then left else None
  }

  /** How far the number moved, as its domain reports it. */
  function Distance(op: Arithmetic.Operation, moved: int): int {
    if op.delta.ByCounter? && moved < 0 then moved + 0x1_0000_0000_0000_0000 else moved
  }

  /** A counter operation that stores a number leaves its text under the key, with the key's flags and
      tags and the lifetime asked for, and reports the number and the distance it moved; one that
      does not changes nothing, the lifetime included, and is a miss, a number left alone, or an
      error. */
  lemma CountIsSeen(cfg: Config, c: Contents, k0: Key, op: Arithmetic.Operation, ttl: TtlChange)
    ensures
      var o := Perform(cfg, c, Count(k0, op, ttl), false);
      var was := Find(cfg, c, k0);
      var start := Arithmetic.Start(op, TextOf(was));
      var left := Counted(cfg, op, was);
      var prior := if was.Some? then was.value else Record([], 0, NEVER, []);
      && (left.None? ==> o.contents == c && o.written == [])
      && (left.Some? ==>
            && start.Some? && o.written == [k0] && o.reply.Ok? && o.reply.value.Number?
            && o.reply.value.report.wrote
            && o.reply.value.report.value.Amount() == left.value
            && o.reply.value.report.applied.Amount() == Distance(op, left.value - start.value)
            && o.contents == c.(records := c.records[k0 :=
                 prior.(value := Decimal.Text(left.value), deadline := LifetimeAfter(cfg, ttl, was))]))
      && (was.None? && op.missing.Miss? <==> o.reply == Ok(NotFound))
      && (start.None? ==> o.reply == Err(NotNumeric))
      && (left.None? && o.reply.Ok? && o.reply.value.Number? ==>
            && op.delta.ByInt? && op.onBound.Skip? && start.Some?
            && o.reply.value.report.value.Amount() == start.value
            && o.reply.value.report.applied.Amount() == 0 && !o.reply.value.report.wrote)
  {
    hide Decimal.Text, Arithmetic.Start, Arithmetic.Evaluate, NumberLeft, Distance;
    CountEvaluates(op, TextOf(Find(cfg, c, k0)));
  }

  lemma CountEvaluates(op: Arithmetic.Operation, stored: Option<bytes>)
    ensures
      var r := Arithmetic.Evaluate(op, stored);
      var start := Arithmetic.Start(op, stored);
      if stored.None? && op.missing.Miss? then start.Some? && r == Ok(Arithmetic.Absent)
      else if start.None? then r.Err?
      else
        match NumberLeft(op, start.value)
        case Some(left) =>
          && r.Ok? && r.value.Store? && r.value.text == Decimal.Text(left) && r.value.report.wrote
          && r.value.report.value.Amount() == left
          && r.value.report.applied.Amount() == Distance(op, left - start.value)
        case None =>
          && op.delta.ByInt? && (op.onBound.Skip? || r.Err?)
          && (r.Ok? ==>
                && r.value.Unchanged? && r.value.report.value.Amount() == start.value
                && r.value.report.applied.Amount() == 0 && !r.value.report.wrote)
  {
    hide Decimal.Text, Decimal.ParseInt, Decimal.ParseCounter, Arithmetic.Evaluate, Arithmetic.EvaluateCounter, Arithmetic.EvaluateInt;
    var start := Arithmetic.Start(op, stored);
    Arithmetic.EvaluateExactly(op, stored);
    if start.Some? && !(stored.None? && op.missing.Miss?) {
      match op.delta
      case ByCounter(step, decrement) => Arithmetic.CounterEvaluationExact(step, decrement, start.value);
      case ByInt(delta, lower, upper) => Arithmetic.IntEvaluationExact(delta, lower, upper, op.onBound, start.value);
    }
  }

  /** The keys a command can be said to be about. */
  predicate Concerns(cfg: Config, c: Contents, cmd: Command, k: Key) {
    match cmd
    case Set(x) => k == x.key
    case Delete(k0) => k == k0
    case Touch(k0, _) => k == k0
    case GetAndTouch(keys, _) => k in keys
    case Count(k0, _, _) => k == k0
    case DeleteByTag(n) => k in c.records && Carries(c.records[k], n)
    case Flush => cfg.flushEnabled
    case _ => false
  }

  /** A key's record is the same and so are the generations its tags are held to. */
  predicate SameUnder(c: Contents, d: Contents, k: Key) {
    && View(d, k) == View(c, k)
    && (k in c.records ==>
          forall t :: t in c.records[k].tags ==> Gen(d.generations, t.name) == Gen(c.generations, t.name))
  }

  lemma SameUnderFinds(cfg: Config, c: Contents, d: Contents, k: Key)
    requires SameUnder(c, d, k)
    ensures Find(cfg, d, k) == Find(cfg, c, k)
  {
  }

  /** Whatever the command, a read of any key it is not about finds at any time what it would have
      found before, and no such key is stamped or loses its token. */
  lemma OthersUnaffected(cfg: Config, c: Contents, cmd: Command, matches: bool, k: Key, later: nat)
    requires !Concerns(cfg, c, cmd, k)
    ensures
      var o := Perform(cfg, c, cmd, matches);
      && Find(cfg.(now := later), o.contents, k) == Find(cfg.(now := later), c, k)
      && SameUnder(c, o.contents, k) && k !in o.written && k !in o.removed
  {
    OthersSame(cfg, c, cmd, matches, k);
    SameUnderFinds(cfg.(now := later), c, Perform(cfg, c, cmd, matches).contents, k);
  }

  lemma OthersSame(cfg: Config, c: Contents, cmd: Command, matches: bool, k: Key)
    requires !Concerns(cfg, c, cmd, k)
    ensures
      var o := Perform(cfg, c, cmd, matches);
      SameUnder(c, o.contents, k) && k !in o.written && k !in o.removed
  {
    match cmd
    case Set(x) => RegisterKeepsGen(c.generations, NamesOf(x.tags));
    case GetAndTouch(keys, secs) =>
      LiveKeysMembers(cfg, c, keys, k);
      TouchedAllOthers(cfg, c, LiveKeys(cfg, c, keys), secs, k);
    case Count(_, _, _) => hide Arithmetic.Evaluate;
    case _ =>
  }

  lemma {:induction false} TouchedAllOthers(cfg: Config, c: Contents, keys: seq<Key>, secs: u32, k: Key)
    ensures TouchedAll(cfg, c, keys, secs).0.generations == c.generations
    ensures k in TouchedAll(cfg, c, keys, secs).1 ==> k in keys
    ensures k !in keys ==> View(TouchedAll(cfg, c, keys, secs).0, k) == View(c, k)
    decreases |keys|
  {
    if keys != [] { TouchedAllOthers(cfg, Store.Touched(cfg, c, keys[0], secs), keys[1..], secs, k); }
  }

  // -- Roles ---------------------------------------------------------------------------------

  const CHANGING: Auth.Roles := 0x16

  /** Without a role to write, invalidate or flush, nothing a connection may run changes the store. */
  lemma ReadersChangeNothing(cfg: Config, s: State, held: Auth.Roles, cmd: Command)
    requires Auth.Permits(held, Auth.RolesFor(cmd)) && held & CHANGING == 0
    ensures Executed(cfg, s, cmd).0 == s
  {
    NothingRemoved(s.stamps);
    RoleBits(held);
  }

  predicate Discloses(r: Reply) { r.Value? || r.Values? || r.Number? || r.Swapped? || r.Listing? }

  /** Without the roles to read or list, no reply a connection may be sent carries stored data. */
  lemma WritersLearnNothing(cfg: Config, s: State, held: Auth.Roles, cmd: Command)
    requires Auth.Permits(held, Auth.RolesFor(cmd)) && held & (Auth.READ | Auth.LIST) == 0
    ensures Executed(cfg, s, cmd).1.Ok? ==> !Discloses(Executed(cfg, s, cmd).1.value)
  {
    ReadBits(held);
  }

  lemma NothingRemoved(s: Stamps)
    ensures s.(tokens := s.tokens - {}) == s
  {
    assert s.tokens - {} == s.tokens;
  }

  lemma RoleBits(held: Auth.Roles)
    requires held & CHANGING == 0
    ensures !Auth.Permits(held, Auth.WRITE) && !Auth.Permits(held, Auth.READ_WRITE)
    ensures !Auth.Permits(held, Auth.INVALIDATE) && !Auth.Permits(held, Auth.FLUSH)
  {
  }

  lemma ReadBits(held: Auth.Roles)
    requires held & (Auth.READ | Auth.LIST) == 0
    ensures !Auth.Permits(held, Auth.READ) && !Auth.Permits(held, Auth.READ_WRITE) && !Auth.Permits(held, Auth.LIST)
  {
  }

  // -- Tokens --------------------------------------------------------------------------------

  ghost predicate Routed(cfg: Config) { cfg.shards > 0 && forall k :: cfg.shardOf(k) < cfg.shards }

  /** The token is one its shard has given out. */
  ghost predicate GivenOut(cfg: Config, s: Stamps, k: Key, token: nat) {
    exists c: nat :: 0 < c <= Store.Counter(s, cfg.shardOf(k)) && token == Token(cfg, c, cfg.shardOf(k))
  }

  /** Every record's token was given out by its own shard, and no two records share one. */
  ghost predicate Unique(cfg: Config, s: Stamps) {
    && (forall k :: k in s.tokens ==> GivenOut(cfg, s, k, s.tokens[k]))
    && (forall k, l :: k in s.tokens && l in s.tokens && k != l ==> s.tokens[k] != s.tokens[l])
  }

  lemma TokenParts(cfg: Config, c: nat, n: nat, d: nat, m: nat)
    requires n < cfg.shards && m < cfg.shards && Token(cfg, c, n) == Token(cfg, d, m)
    ensures c == d && n == m
  {
    if c < d { Striping(cfg.shards, c, n, d); }
    if d < c { Striping(cfg.shards, d, m, c); }
  }

  lemma Striping(s: nat, c: nat, n: nat, d: nat)
    requires n < s && c < d
    ensures c * s + n < d * s
  {
    var e: nat := d - c - 1;
    calc {
      d * s;
      (c + 1 + e) * s;
      c * s + s + e * s;
    }
  }

  lemma FreshToken(cfg: Config, s: Stamps, k: Key, l: Key)
    requires Routed(cfg) && Unique(cfg, s) && l in s.tokens
    ensures s.tokens[l] != Token(cfg, Store.Counter(s, cfg.shardOf(k)) + 1, cfg.shardOf(k))
  {
    var c: nat :| 0 < c <= Store.Counter(s, cfg.shardOf(l)) && s.tokens[l] == Token(cfg, c, cfg.shardOf(l));
    if s.tokens[l] == Token(cfg, Store.Counter(s, cfg.shardOf(k)) + 1, cfg.shardOf(k)) {
      TokenParts(cfg, c, cfg.shardOf(l), Store.Counter(s, cfg.shardOf(k)) + 1, cfg.shardOf(k));
    }
  }

  lemma StampKeepsUnique(cfg: Config, s: Stamps, k: Key)
    requires Routed(cfg) && Unique(cfg, s)
    ensures Unique(cfg, Stamp(cfg, s, k))
  {
    var t := Stamp(cfg, s, k);
    forall l | l in t.tokens ensures GivenOut(cfg, t, l, t.tokens[l]) {
      if l != k {
        var c: nat :| 0 < c <= Store.Counter(s, cfg.shardOf(l)) && s.tokens[l] == Token(cfg, c, cfg.shardOf(l));
      }
    }
    forall l | l in s.tokens ensures s.tokens[l] != t.tokens[k] { FreshToken(cfg, s, k, l); }
  }

  lemma {:induction false} StampAllKeepsUnique(cfg: Config, s: Stamps, keys: seq<Key>)
    requires Routed(cfg) && Unique(cfg, s)
    ensures Unique(cfg, StampAll(cfg, s, keys))
    decreases |keys|
  {
    hide Unique;
    if keys != [] {
      StampKeepsUnique(cfg, s, keys[0]);
      StampAllKeepsUnique(cfg, Stamp(cfg, s, keys[0]), keys[1..]);
    }
  }

  lemma {:induction false} StampWritesKeepsUnique(cfg: Config, s: Stamps, xs: seq<Write>)
    requires Routed(cfg) && Unique(cfg, s)
    ensures Unique(cfg, StampWrites(cfg, s, xs))
    decreases |xs|
  {
    hide Unique;
    if xs != [] {
      StampKeepsUnique(cfg, s, xs[0].key);
      StampWritesKeepsUnique(cfg, Stamp(cfg, s, xs[0].key), xs[1..]);
    }
  }

  /** Tokens stay unique server-wide through every command, and through a batch however it is
      ordered and however far a failed one got. */
  lemma TokensStayUnique(cfg: Config, s: State, cmd: Command, f: Fate)
    requires Routed(cfg) && Unique(cfg, s.stamps)
    ensures Unique(cfg, Executed(cfg, s, cmd).0.stamps) && Unique(cfg, Landed(cfg, s, f).stamps)
  {
    var o := Perform(cfg, s.contents, cmd, Matches(s, cmd));
    StampAllKeepsUnique(cfg, s.stamps, o.written);
    RemovalKeepsUnique(cfg, StampAll(cfg, s.stamps, o.written), o.removed);
    BurnKeepsUnique(cfg, s.stamps, f.spent);
    StampWritesKeepsUnique(cfg, Burned(s.stamps, f.spent), Applied(cfg, f));
  }

  lemma BurnKeepsUnique(cfg: Config, s: Stamps, spent: map<nat, nat>)
    requires Unique(cfg, s)
    ensures Unique(cfg, Burned(s, spent))
  {
    var t := Burned(s, spent);
    forall k | k in t.tokens ensures GivenOut(cfg, t, k, t.tokens[k]) {
      var c: nat :| 0 < c <= Store.Counter(s, cfg.shardOf(k)) && s.tokens[k] == Token(cfg, c, cfg.shardOf(k));
      assert Store.Counter(t, cfg.shardOf(k)) >= Store.Counter(s, cfg.shardOf(k));
    }
  }

  lemma RemovalKeepsUnique(cfg: Config, s: Stamps, removed: set<Key>)
    requires Unique(cfg, s)
    ensures Unique(cfg, s.(tokens := s.tokens - removed))
  {
    var t := s.(tokens := s.tokens - removed);
    forall k | k in t.tokens ensures GivenOut(cfg, t, k, t.tokens[k]) {
      var c: nat :| 0 < c <= Store.Counter(s, cfg.shardOf(k)) && s.tokens[k] == Token(cfg, c, cfg.shardOf(k));
      assert Store.Counter(t, cfg.shardOf(k)) == Store.Counter(s, cfg.shardOf(k));
    }
  }

  // -- Stale tokens --------------------------------------------------------------------------

  /** Anything that can happen to the store between a client's reading a token and using it. */
  datatype Move = Ran(command: Command) | Submitted(fate: Fate)

  function After(cfg: Config, s: State, m: Move): State {
    match m
    case Ran(cmd) => Executed(cfg, s, cmd).0
    case Submitted(f) => Landed(cfg, s, f)
  }

  function AfterAll(cfg: Config, s: State, ms: seq<Move>): State
    decreases |ms|
  {
    if ms == [] then s else AfterAll(cfg, After(cfg, s, ms[0]), ms[1..])
  }

  /** The move stamps the key afresh. */
  predicate Restamps(cfg: Config, s: State, m: Move, k: Key) {
    match m
    case Ran(cmd) => k in Perform(cfg, s.contents, cmd, Matches(s, cmd)).written
    case Submitted(f) => Mentions(Applied(cfg, f), k)
  }

  predicate Rewritten(cfg: Config, s: State, ms: seq<Move>, k: Key)
    decreases |ms|
  {
    ms != [] && (Restamps(cfg, s, ms[0], k) || Rewritten(cfg, After(cfg, s, ms[0]), ms[1..], k))
  }

  lemma MoveNewer(cfg: Config, s: State, m: Move, base: nat, k: Key)
    requires base <= Store.Counter(s.stamps, cfg.shardOf(k))
    ensures base <= Store.Counter(After(cfg, s, m).stamps, cfg.shardOf(k))
    ensures Restamps(cfg, s, m, k) || Newer(cfg, s.stamps, base, k) ==> Newer(cfg, After(cfg, s, m).stamps, base, k)
  {
    hide Perform;
    match m
    case Ran(cmd) =>
      StampAllNewer(cfg, s.stamps, Perform(cfg, s.contents, cmd, Matches(s, cmd)).written, base, k);
    case Submitted(f) =>
      StampWritesNewer(cfg, Burned(s.stamps, f.spent), Applied(cfg, f), base, k);
  }

  lemma {:induction false} RunNewer(cfg: Config, s: State, ms: seq<Move>, base: nat, k: Key)
    requires base <= Store.Counter(s.stamps, cfg.shardOf(k))
    ensures Rewritten(cfg, s, ms, k) || Newer(cfg, s.stamps, base, k) ==> Newer(cfg, AfterAll(cfg, s, ms).stamps, base, k)
    decreases |ms|
  {
    hide Newer, After, Restamps;
    if ms != [] {
      MoveNewer(cfg, s, ms[0], base, k);
      RunNewer(cfg, After(cfg, s, ms[0]), ms[1..], base, k);
    }
  }

  /** Over any run of commands and batches in which its key was rewritten, deleted in between or not,
      a token given out before the run opens nothing: a `cas` carrying it is refused and no record
      changes. */
  lemma StaleTokenRefused(cfg: Config, s: State, ms: seq<Move>, token: nat, x: Write)
    requires Routed(cfg) && GivenOut(cfg, s.stamps, x.key, token)
    requires Rewritten(cfg, s, ms, x.key) && x.mode == Cas(token)
    ensures
      var after := AfterAll(cfg, s, ms);
      var (last, reply) := Executed(cfg, after, Set(x));
      && last.contents.records == after.contents.records && last.stamps == after.stamps
      && (Acceptable(cfg, x) ==>
            var was := Find(cfg, after.contents, x.key);
            reply == Ok(Reported(x, if was.Some? then Exists else NotFound, was)))
  {
    var after := AfterAll(cfg, s, ms);
    var base := Store.Counter(s.stamps, cfg.shardOf(x.key));
    RunNewer(cfg, s, ms, base, x.key);
    StaleMisses(cfg, s.stamps, after.stamps, token, x.key);
    assert !Matches(after, Set(x));
    RegisteredFind(cfg, after.contents, NamesOf(x.tags), x.key);
    NothingRemoved(after.stamps);
  }

  /** A token already given out is not one to come: a client that only uses tokens it was shown
      never names one that its shard had yet to give out. */
  lemma GivenOutIsNotAhead(cfg: Config, s: Stamps, k: Key, token: nat)
    requires Routed(cfg) && GivenOut(cfg, s, k, token)
    ensures !Ahead(cfg, s, k, token)
  {
    var n := cfg.shardOf(k);
    var c: nat :| 0 < c <= Store.Counter(s, n) && token == Token(cfg, c, n);
    if Ahead(cfg, s, k, token) {
      var d: nat :| Store.Counter(s, n) < d && token == Token(cfg, d, n);
      TokenParts(cfg, c, n, d, n);
    }
  }

  lemma StaleMisses(cfg: Config, s: Stamps, t: Stamps, token: nat, k: Key)
    requires Routed(cfg) && GivenOut(cfg, s, k, token) && Newer(cfg, t, Store.Counter(s, cfg.shardOf(k)), k)
    ensures k in t.tokens ==> t.tokens[k] != token
  {
    var n := cfg.shardOf(k);
    var c: nat :| 0 < c <= Store.Counter(s, n) && token == Token(cfg, c, n);
    if k in t.tokens {
      var d: nat :| Store.Counter(s, n) < d && t.tokens[k] == Token(cfg, d, n);
      if t.tokens[k] == token { TokenParts(cfg, c, n, d, n); }
    }
  }
}
