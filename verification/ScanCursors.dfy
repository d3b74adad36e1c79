/** The token table behind Redis `SCAN`, held to the plain history of what was issued. */
module ScanCursors {
  import opened Core

  /** The cursor that starts an iteration; never issued. */
  const START: nat := 0

  datatype Entry = Entry(token: nat, cursor: bytes, issued: nat)

  /** What a token names, read off the whole issue history: the position it was issued for, while
      it is younger than the TTL and fewer than `capacity` tokens have been issued after it. */
  function Lookup(history: seq<Entry>, capacity: nat, ttl: nat, token: nat, now: nat): Option<bytes> {
    if START < token <= START + |history|
       && now - history[token - START - 1].issued < ttl
       && START + |history| - token < capacity
    then Some(history[token - START - 1].cursor)
    else None
  }

  /** The history a server can produce: tokens count up from past `START`, clock readings never
      go back. */
  ghost predicate Chronicle(history: seq<Entry>, now: nat) {
    && (forall i :: 0 <= i < |history| ==> history[i].token == START + 1 + i && history[i].issued <= now)
    && (forall i, j :: 0 <= i < j < |history| ==> history[i].issued <= history[j].issued)
  }

  /** The i-th issue no longer resolves. */
  predicate Spent(history: seq<Entry>, capacity: nat, ttl: nat, i: nat, now: nat)
    requires i < |history|
  {
    now - history[i].issued >= ttl || |history| - 1 - i >= capacity
  }

  /** `live` is what remains of the history once its spent front is gone. */
  ghost predicate Remains(history: seq<Entry>, live: seq<Entry>, capacity: nat, ttl: nat, now: nat) {
    && |live| <= |history| && live == history[|history| - |live|..]
    && forall i :: 0 <= i < |history| - |live| ==> Spent(history, capacity, ttl, i, now)
  }

  lemma Evict(history: seq<Entry>, live: seq<Entry>, capacity: nat, ttl: nat, now: nat)
    requires Remains(history, live, capacity, ttl, now) && live != []
    requires |live| > capacity || now - live[0].issued >= ttl
    ensures Remains(history, live[1..], capacity, ttl, now)
  {
    assert live[0] == history[|history| - |live|];
  }

  lemma Append(history: seq<Entry>, live: seq<Entry>, capacity: nat, ttl: nat, now: nat, e: Entry, later: nat)
    requires Remains(history, live, capacity, ttl, now) && now <= later
    ensures Remains(history + [e], live + [e], capacity, ttl, later)
  {
    forall i | 0 <= i < |history| - |live|
      ensures Spent(history + [e], capacity, ttl, i, later)
    {
      assert Spent(history, capacity, ttl, i, now);
    }
  }

  lemma Continues(history: seq<Entry>, now: nat, e: Entry)
    requires Chronicle(history, now) && e.token == START + 1 + |history| && now <= e.issued
    ensures Chronicle(history + [e], e.issued)
  {
  }

  class Table {
    var live: seq<Entry>
    var next: nat
    const capacity: nat
    const ttl: nat
    /** Every entry ever issued, and the latest clock reading. */
    ghost var history: seq<Entry>
    ghost var clock: nat

    constructor (capacity: nat, ttl: nat)
      ensures Valid() && history == [] && this.capacity == capacity && this.ttl == ttl
    {
      live, next := [], START + 1;
      this.capacity, this.ttl := capacity, ttl;
      history, clock := [], 0;
    }

    ghost predicate Valid()
      reads this
    {
      && Chronicle(history, clock)
      && next == START + 1 + |history|
      && |live| <= capacity
      && Remains(history, live, capacity, ttl, clock)
    }

    /** Records a position, evicts what is over capacity and sweeps what is over age. */
    method Issue(cursor: bytes, now: nat) returns (token: nat)
      requires Valid() && clock <= now
      modifies this
      ensures Valid() && clock == now
      ensures token != 0 && token == 1 + |old(history)|
      ensures history == old(history) + [Entry(token, cursor, now)]
    {
      hide Chronicle, Remains;
      token := next;
      next := next + 1;
      var entry := Entry(token, cursor, now);
      Continues(history, clock, entry);
      Append(history, live, capacity, ttl, clock, entry, now);
      live := live + [entry];
      history := history + [entry];
      clock := now;
      while |live| > capacity
        invariant Remains(history, live, capacity, ttl, now)
        decreases |live|
        modifies `live
      {
        Evict(history, live, capacity, ttl, now);
        live := live[1..];
      }
      while live != [] && now - live[0].issued >= ttl
        invariant Remains(history, live, capacity, ttl, now) && |live| <= capacity
        decreases |live|
        modifies `live
      {
        Evict(history, live, capacity, ttl, now);
        live := live[1..];
      }
    }

    /** Binary search of the live deque; agrees with the history for every token and instant. */
    method Resolve(token: nat, now: nat) returns (r: Option<bytes>)
      requires Valid() && clock <= now
      ensures r == Lookup(history, capacity, ttl, token, now)
    {
      hide Chronicle, Remains, Lookup, Spent;
      ghost var first := START + 1 + |history| - |live|;
      Consecutive(history, live, capacity, ttl, clock);
      var lo, hi := 0, |live|;
      while lo < hi
        invariant 0 <= lo <= hi <= |live|
        invariant (lo == 0 || first + lo <= token) && (hi == |live| || token < first + hi)
      {
        var mid := (lo + hi) / 2;
        assert live[mid].token == first + mid;
        if live[mid].token == token {
          var entry := live[mid];
          LiveResolves(history, live, capacity, ttl, clock, mid, now);
          return if now - entry.issued < ttl then Some(entry.cursor) else None;
        } else if live[mid].token < token {
          lo := mid + 1;
        } else {
          hi := mid;
        }
      }
      OthersMiss(history, live, capacity, ttl, clock, token, now);
      r := None;
    }
  }

  /** What remains of the history still counts up, one token at a time. */
  lemma Consecutive(history: seq<Entry>, live: seq<Entry>, capacity: nat, ttl: nat, clock: nat)
    requires Chronicle(history, clock) && Remains(history, live, capacity, ttl, clock)
    ensures |live| <= |history|
    ensures forall i :: 0 <= i < |live| ==> live[i].token == START + 1 + |history| - |live| + i
  {
  }

  lemma LiveResolves(history: seq<Entry>, live: seq<Entry>, capacity: nat, ttl: nat, clock: nat, i: nat, now: nat)
    requires Chronicle(history, clock) && Remains(history, live, capacity, ttl, clock)
    requires i < |live| <= capacity
    ensures Lookup(history, capacity, ttl, live[i].token, now)
            == if now - live[i].issued < ttl then Some(live[i].cursor) else None
  {
    assert live[i] == history[|history| - |live| + i];
  }

  lemma OthersMiss(history: seq<Entry>, live: seq<Entry>, capacity: nat, ttl: nat, clock: nat, token: nat, now: nat)
    requires Chronicle(history, clock) && Remains(history, live, capacity, ttl, clock) && clock <= now
    requires token < START + 1 + |history| - |live| || START + |history| < token
    ensures Lookup(history, capacity, ttl, token, now).None?
  {
    if START < token <= START + |history| {
      assert Spent(history, capacity, ttl, token - START - 1, clock);
    }
  }

  /** An entry never comes back: once a token issued in the past does not resolve, no later issue
      and no later clock reading makes it resolve again. */
  lemma SpentForGood(history: seq<Entry>, more: seq<Entry>, capacity: nat, ttl: nat, token: nat, now: nat, later: nat)
    requires token <= START + |history| && now <= later
    requires Lookup(history, capacity, ttl, token, now).None?
    ensures Lookup(history + more, capacity, ttl, token, later).None?
  {
    if START < token {
      assert (history + more)[token - START - 1] == history[token - START - 1];
    }
  }
}
