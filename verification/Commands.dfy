/** The domain commands the memcached grammar produces, and how each reply is to be rendered. */
module Commands {
  import opened Core
  import Arithmetic

  type Key = bytes
  type TagName = bytes

  datatype TtlChange = Keep | To(secs: u32) | IfPersistent(secs: u32)
  datatype SetMode = Always | Add | Replace | Append | Prepend | Cas(token: nat)

  datatype Write = Write(
    key: Key, value: bytes, ttl: TtlChange, flags: u32, tags: seq<TagName>,
    mode: SetMode, returnPrevious: bool)

  datatype Command =
    | Ping
    | Get(key: Key)
    | GetMany(keys: seq<Key>)
    | Set(write: Write)
    | Delete(key: Key)
    | Touch(key: Key, secs: u32)
    | GetAndTouch(keys: seq<Key>, secs: u32)
    | Count(key: Key, op: Arithmetic.Operation, ttl: TtlChange)
    | DeleteByTag(tag: TagName)
    | Flush
    | ListKeys
    | Stats
    | Version
    | Quit

  /** A runtime worker may execute the command itself: no write, no long scan. */
  predicate InlineSafe(c: Command) {
    c.Ping? || c.Stats? || c.Version? || c.Quit? || c.Get? || c.GetMany?
  }

  /** An unconditional write whose reply cannot depend on what the store finds. */
  predicate Deferrable(x: Write) { x.mode.Always? && !x.returnPrevious }

  predicate Batchable(c: Command) { c.Set? && Deferrable(c.write) }

  /** Batchable, and registering no tag name, which would block. */
  predicate Awaitable(c: Command) { Batchable(c) && c.write.tags == [] }

  datatype MetaVerb = MetaGet | MetaSet | MetaDelete | MetaArithmetic | MetaNoOp | MetaDebug

  datatype Style =
    | Retrieval(withCas: bool)
    | Storage
    | Deleted
    | Touched
    | Counter
    | Okay
    | Statistics(general: bool)
    | VersionLine
    | Hangup
    | Meta(verb: MetaVerb, wantCas: bool, flags: bytes)
    | Dump(full: bool, selected: bool)
    | CacheDump(selected: bool, limit: u32)

  /** The rendered reply names a record's compare-and-swap token. */
  predicate ShowsCas(s: Style) {
    match s
    case Retrieval(withCas) => withCas
    case Meta(verb, wantCas, _) => verb.MetaDebug? || (wantCas && (verb.MetaGet? || verb.MetaSet?))
    case Dump(full, _) => full
    case _ => false
  }

  datatype Parsed = Parsed(command: Command, style: Style, noreply: bool)

  /** A command the parser framed: decoded, or recoverably malformed. */
  datatype Frame = Decoded(parsed: Parsed) | Malformed(response: bytes)

  predicate ShowsToken(f: Frame) { f.Decoded? && ShowsCas(f.parsed.style) }

  /** A plain `set` of the classic grammar, the only write a batch may hold. */
  predicate PlainSet(f: Frame) {
    f.Decoded? && f.parsed.style.Storage? && Batchable(f.parsed.command)
  }

  predicate AwaitableSet(f: Frame) { PlainSet(f) && f.parsed.command.write.tags == [] }
}
