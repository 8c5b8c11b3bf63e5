/** Histories of calls on a cache, and what they say about one key. Both caches of the service are
    held to them, whatever their items look like and however they evict. */
module Histories {
  import opened Common

  /** The calls, with a payload `P` for what a `Set` is given. */
  datatype Op<P> =
    | Get(key: string)
    | Set(key: string, payload: P, ttl: int)
    | Delete(key: string)
    | Clear
    | Cleanup

  /** One call at time `now`, and what a `Get` finds. */
  datatype Event<P, R> = Event(op: Op<P>, now: int, found: Option<R>)

  predicate Stores<P, R>(e: Event<P, R>, key: string) {
    e.op.Set? && e.op.key == key
  }

  predicate Asks<P, R>(e: Event<P, R>, key: string) {
    e.op.Get? && e.op.key == key
  }

  predicate Forgets<P, R>(e: Event<P, R>, key: string) {
    e.op.Clear? || (e.op.Delete? && e.op.key == key)
  }

  /** The last `Set` of a key, unless the key was deleted or everything was cleared since. */
  function LastSet<P, R>(past: seq<Event<P, R>>, key: string): (r: Option<Event<P, R>>)
    ensures r.Some? ==> Stores(r.value, key)
  {
    if past == [] then None
    else
      var e, before := past[|past| - 1], past[..|past| - 1];
      if Stores(e, key) then Some(e) else if Forgets(e, key) then None else LastSet(before, key)
  }

  /** How often it has been asked for since it was last set. */
  function Uses<P, R>(past: seq<Event<P, R>>, key: string): nat {
    if past == [] then 0
    else
      var e, before := past[|past| - 1], past[..|past| - 1];
      if Stores(e, key) then 0 else Uses(before, key) + Bit(Asks(e, key))
  }

  /** When it was last set or asked for. */
  function LastUse<P, R>(past: seq<Event<P, R>>, key: string): int {
    if past == [] then 0
    else
      var e, before := past[|past| - 1], past[..|past| - 1];
      if Stores(e, key) || Asks(e, key) then e.now else LastUse(before, key)
  }

  lemma JustSet<P, R>(past: seq<Event<P, R>>, e: Event<P, R>)
    requires e.op.Set?
    ensures var past', key := past + [e], e.op.key;
            LastSet(past', key) == Some(e) && Uses(past', key) == 0 && LastUse(past', key) == e.now
  {
    assert (past + [e])[|past|] == e;
  }

  lemma GoesOn<P, R>(past: seq<Event<P, R>>, e: Event<P, R>, key: string)
    requires !Stores(e, key) && !Forgets(e, key)
    ensures var past' := past + [e];
            && LastSet(past', key) == LastSet(past, key)
            && Uses(past', key) == Uses(past, key) + Bit(Asks(e, key))
            && LastUse(past', key) == if Asks(e, key) then e.now else LastUse(past, key)
  {
    assert (past + [e])[|past|] == e && (past + [e])[..|past|] == past;
  }

  lemma Forgotten<P, R>(past: seq<Event<P, R>>, e: Event<P, R>, key: string)
    requires Forgets(e, key)
    ensures LastSet(past + [e], key) == None
  {
    assert (past + [e])[|past|] == e;
  }

  /** A `Set` that is not repeated is the last one, or forgotten. */
  lemma {:induction false} LastSetIs<P, R>(events: seq<Event<P, R>>, i: nat, key: string)
    requires i < |events| && Stores(events[i], key) && forall k :: i < k < |events| ==> !Stores(events[k], key)
    ensures LastSet(events, key) in {None, Some(events[i])}
    decreases |events|
  {
    if i < |events| - 1 { LastSetIs(events[..|events| - 1], i, key); }
  }
}
