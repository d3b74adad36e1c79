/** Roles, a connection's identity, and the one decision behind every gate. */
module Auth {
  import opened Core
  import opened Commands

  type Roles = bv8

  const NONE: Roles := 0
  const READ: Roles := 0x01
  const WRITE: Roles := 0x02
  const INVALIDATE: Roles := 0x04
  const LIST: Roles := 0x08
  const FLUSH: Roles := 0x10
  const READ_WRITE: Roles := 0x03

  predicate Permits(held: Roles, needed: Roles) { held & needed == needed }
  function Missing(held: Roles, needed: Roles): Roles { needed & !held }

  /** What a denial names is exactly what has to be granted: nothing when nothing is missing, and
      any grant is enough if and only if it covers the missing roles. */
  lemma MissingIsExact(held: Roles, needed: Roles, granted: Roles)
    ensures Permits(held, needed) <==> Missing(held, needed) == NONE
    ensures Permits(held | granted, needed) <==> Permits(granted, Missing(held, needed))
  {
  }

  datatype Identity = Identity(name: bytes, roles: Roles)
  datatype Session = Session(identity: Option<Identity>, failures: u32)

  /** The credential table and whether it is enforced, fixed while a block runs. */
  datatype Gate = Gate(required: bool, verify: (bytes, bytes) -> Option<Identity>)

  datatype Refused = Unauthenticated | Lacking(roles: Roles)

  function Refusal(gate: Gate, s: Session, needed: Roles): Option<Refused> {
    match s.identity
    case None => if gate.required then Some(Unauthenticated) else None
    case Some(id) =>
      if Permits(id.roles, needed) then None else Some(Lacking(Missing(id.roles, needed)))
  }

  predicate Allows(gate: Gate, s: Session, needed: Roles) { Refusal(gate, s, needed).None? }

  /** Nobody has authenticated and somebody must. */
  predicate Locked(gate: Gate, s: Session) { s.identity.None? && gate.required }

  function RolesFor(c: Command): Roles {
    match c
    case Get(_) => READ
    case GetMany(_) => READ
    case Set(x) => if x.returnPrevious then READ_WRITE else WRITE
    case Delete(_) => WRITE
    case Touch(_, _) => WRITE
    case GetAndTouch(_, _) => READ_WRITE
    case Count(_, _, _) => READ_WRITE
    case DeleteByTag(_) => INVALIDATE
    case Flush => FLUSH
    case ListKeys => LIST
    case _ => NONE
  }

  /** A dump is a response style that reaches the listing without a command of its own. */
  function Needs(p: Parsed): Roles {
    if p.style.Dump? || p.style.CacheDump? then LIST else RolesFor(p.command)
  }

  predicate Lists(p: Parsed) { p.style.Dump? || p.style.CacheDump? }

  /** The reply may hold a stored value. */
  predicate ShowsValues(c: Command) {
    c.Get? || c.GetMany? || c.GetAndTouch? || c.Count? || (c.Set? && c.write.returnPrevious)
  }

  /** The command may change or remove the records it names. */
  predicate WritesRecords(c: Command) { c.Set? || c.Delete? || c.Touch? || c.GetAndTouch? || c.Count? }

  /** Role by role, who may send a frame: reading for what shows values, writing for what changes
      records, and a role each for invalidating, listing and flushing; nothing for the rest. */
  lemma RolesExactly(held: Roles, p: Parsed)
    ensures Permits(held, Needs(p)) <==>
      && (!Lists(p) && ShowsValues(p.command) ==> held & 0x01 != 0)
      && (!Lists(p) && WritesRecords(p.command) ==> held & 0x02 != 0)
      && (!Lists(p) && p.command.DeleteByTag? ==> held & 0x04 != 0)
      && (Lists(p) || p.command.ListKeys? ==> held & 0x08 != 0)
      && (!Lists(p) && p.command.Flush? ==> held & 0x10 != 0)
  {
    Bits(held);
  }

  /** What may run without leaving a runtime worker is exactly what needs no role but to read. */
  lemma InlineNeedsNoMore(c: Command)
    ensures InlineSafe(c) <==> Permits(0x01, RolesFor(c))
  {
    Bits(0x01);
  }

  lemma Bits(held: Roles)
    ensures held & 0x01 == 0x01 <==> held & 0x01 != 0
    ensures held & 0x02 == 0x02 <==> held & 0x02 != 0
    ensures held & 0x04 == 0x04 <==> held & 0x04 != 0
    ensures held & 0x08 == 0x08 <==> held & 0x08 != 0
    ensures held & 0x10 == 0x10 <==> held & 0x10 != 0
    ensures held & 0x03 == 0x03 <==> held & 0x01 != 0 && held & 0x02 != 0
    ensures held & 0x00 == 0x00
  {
  }

  function Succeeded(s: Session, id: Identity): Session { s.(identity := Some(id)) }
  function Attempted(s: Session): Session { s.(failures := Min(s.failures as int + 1, U32_MAX)) }

  const SPACE: byte := 32

  function FirstSpace(block: bytes): nat
    ensures FirstSpace(block) <= |block|
    ensures SPACE !in block[..FirstSpace(block)]
    ensures FirstSpace(block) < |block| ==> block[FirstSpace(block)] == SPACE
  {
    if block == [] || block[0] == SPACE then 0 else 1 + FirstSpace(block[1..])
  }

  /** Splits an authentication block into name and secret at its one space. */
  function SplitCredential(block: bytes): Option<(bytes, bytes)> {
    var at := FirstSpace(block);
    if at == |block| || at == 0 || at + 1 == |block| || SPACE in block[at + 1..] then None
    else Some((block[..at], block[at + 1..]))
  }

  /** The split succeeds on exactly the joins of two non-empty space-free words, and gives them back. */
  lemma SplitInvertsJoin(name: bytes, secret: bytes, block: bytes)
    ensures SplitCredential(block) == Some((name, secret))
            <==> block == name + [SPACE] + secret && name != [] && secret != []
                 && SPACE !in name && SPACE !in secret
  {
    var at := FirstSpace(block);
    if SplitCredential(block) == Some((name, secret)) {
      assert block == block[..at] + [SPACE] + block[at + 1..];
    }
    if block == name + [SPACE] + secret && name != [] && secret != [] && SPACE !in name && SPACE !in secret {
      FirstSpaceAfter(name, secret);
      assert block[..|name|] == name && block[|name| + 1..] == secret;
    }
  }

  lemma {:induction false} FirstSpaceAfter(name: bytes, rest: bytes)
    requires SPACE !in name
    ensures FirstSpace(name + [SPACE] + rest) == |name|
  {
    if name != [] {
      assert (name + [SPACE] + rest)[1..] == name[1..] + [SPACE] + rest;
      FirstSpaceAfter(name[1..], rest);
    }
  }

  /** One connection's authentication state. */
  class ConnAuth {
    var identity: Option<Identity>
    var failures: u32

    constructor ()
      ensures Now() == Session(None, 0)
    {
      identity, failures := None, 0;
    }

    function Now(): Session
      reads this
    {
      Session(identity, failures)
    }

    method Succeed(id: Identity)
      modifies this
      ensures Now() == Succeeded(old(Now()), id)
    {
      identity := Some(id);
    }

    method Fail()
      modifies this
      ensures Now() == Attempted(old(Now()))
    {
      failures := Min(failures as int + 1, U32_MAX);
    }
  }
}
