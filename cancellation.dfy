/** The cancellation registry: a map from context id to the timestamp of the
    last cancellation directive recorded for that context (its watermark),
    and the test that decides, when an item is polled, whether it is
    cancelled instead of processed. */
module Cancellation {
  import opened QueueOptions

  /** `shouldBeCancelled`: the item's context has a watermark that is
      truthy (not 0) and strictly later than the item's own timestamp. */
  predicate ShouldBeCancelled<P(!new)>(registry: map<string, int>, getContextId: Message<P> -> Option<string>, m: Message<P>): (r: bool)
    ensures r ==> getContextId(m).Some? && getContextId(m).value in registry
    ensures r ==> registry[getContextId(m).value] != 0 && m.timestamp < registry[getContextId(m).value]
    ensures (getContextId(m).Some? && getContextId(m).value in registry
             && registry[getContextId(m).value] != 0 && m.timestamp < registry[getContextId(m).value]) ==> r
  {
    match getContextId(m)
    case None => false
    case Some(id) => id in registry && registry[id] != 0 && registry[id] > m.timestamp
  }

  /** Cancellation only reaches backward in time: an item at or after the
      watermark survives, one cancelled stays cancelled at any earlier time,
      and a watermark of 0 cancels nothing. */
  lemma CancellationReachesBackward<P(!new)>(registry: map<string, int>, getContextId: Message<P> -> Option<string>, m: Message<P>, m': Message<P>)
    requires getContextId(m') == getContextId(m) && m'.timestamp <= m.timestamp
    ensures ShouldBeCancelled(registry, getContextId, m) ==> ShouldBeCancelled(registry, getContextId, m')
    ensures (getContextId(m).Some? && getContextId(m).value in registry
             && registry[getContextId(m).value] <= m.timestamp) ==> !ShouldBeCancelled(registry, getContextId, m)
    ensures (getContextId(m).Some? && getContextId(m).value in registry
             && registry[getContextId(m).value] == 0) ==> !ShouldBeCancelled(registry, getContextId, m)
  {
  }

  /** Ingress records m as a cancellation only if it is classified as one
      and has a defined context id. */
  predicate IsDirective<P(!new)>(cfg: Config<P>, m: Message<P>): (r: bool)
    ensures r ==> cfg.getContextId(m).Some? && IsDirectiveFor(cfg, m, cfg.getContextId(m).value)
    ensures forall ctx :: IsDirectiveFor(cfg, m, ctx) ==> r
  {
    cfg.isCancelMessage(m) && cfg.getContextId(m).Some?
  }

  /** m is a recorded cancellation for context ctx. */
  predicate IsDirectiveFor<P(!new)>(cfg: Config<P>, m: Message<P>, ctx: string) {
    cfg.isCancelMessage(m) && cfg.getContextId(m) == Some(ctx)
  }

  /** The registry after ingress of m: a directive overwrites its context's
      watermark with its own timestamp (not the maximum of the two);
      anything else leaves the registry alone. */
  function Record<P(!new)>(cfg: Config<P>, registry: map<string, int>, m: Message<P>): (r: map<string, int>)
    ensures IsDirective(cfg, m) ==> r.Keys == registry.Keys + {cfg.getContextId(m).value}
    ensures IsDirective(cfg, m) ==> r[cfg.getContextId(m).value] == m.timestamp
    ensures forall id :: id in registry && !IsDirectiveFor(cfg, m, id) ==> id in r && r[id] == registry[id]
    ensures forall id :: id in r && !IsDirectiveFor(cfg, m, id) ==> id in registry
  {
    if IsDirective(cfg, m) then registry[cfg.getContextId(m).value := m.timestamp] else registry
  }

  /** The registry after ingress of each message of h in turn. */
  function RegistryAfter<P(!new)>(cfg: Config<P>, start: map<string, int>, h: seq<Message<P>>): (r: map<string, int>)
    ensures start.Keys <= r.Keys
    ensures forall id :: id in r && id !in start ==> LastDirective(cfg, h, id).Some?
    decreases |h|
  {
    if h == [] then start else Record(cfg, RegistryAfter(cfg, start, h[..|h| - 1]), h[|h| - 1])
  }

  /** The position of the last directive for ctx in h, if there is one. */
  function LastDirective<P(!new)>(cfg: Config<P>, h: seq<Message<P>>, ctx: string): (r: Option<nat>)
    ensures r.Some? ==> r.value < |h| && IsDirectiveFor(cfg, h[r.value], ctx)
    ensures r.Some? ==> forall j :: r.value < j < |h| ==> !IsDirectiveFor(cfg, h[j], ctx)
    ensures r.None? ==> forall j :: 0 <= j < |h| ==> !IsDirectiveFor(cfg, h[j], ctx)
    decreases |h|
  {
    if h == [] then None
    else if IsDirectiveFor(cfg, h[|h| - 1], ctx) then Some(|h| - 1)
    else LastDirective(cfg, h[..|h| - 1], ctx)
  }

  /** Last one wins: whatever the order of arrival, a context's watermark
      is the timestamp of the last directive for it, and a context no
      directive names keeps what it had. */
  lemma {:induction false} RegistryHoldsLastDirective<P(!new)>(cfg: Config<P>, start: map<string, int>, h: seq<Message<P>>, ctx: string)
    ensures LastDirective(cfg, h, ctx).Some? ==>
      ctx in RegistryAfter(cfg, start, h)
      && RegistryAfter(cfg, start, h)[ctx] == h[LastDirective(cfg, h, ctx).value].timestamp
    ensures LastDirective(cfg, h, ctx).None? ==>
      (ctx in RegistryAfter(cfg, start, h) <==> ctx in start)
      && (ctx in start ==> RegistryAfter(cfg, start, h)[ctx] == start[ctx])
    decreases |h|
  {
    if h != [] {
      RegistryHoldsLastDirective(cfg, start, h[..|h| - 1], ctx);
    }
  }

  /** From a fresh registry, an item is cancelled exactly when the last
      directive for its context has a nonzero timestamp later than the
      item's; an item with no context id is never cancelled. */
  lemma CancelledByLastDirective<P(!new)>(cfg: Config<P>, h: seq<Message<P>>, m: Message<P>)
    ensures cfg.getContextId(m).None? ==> !ShouldBeCancelled(RegistryAfter(cfg, map[], h), cfg.getContextId, m)
    ensures cfg.getContextId(m).Some? ==>
      (ShouldBeCancelled(RegistryAfter(cfg, map[], h), cfg.getContextId, m) <==>
        var last := LastDirective(cfg, h, cfg.getContextId(m).value);
        last.Some? && h[last.value].timestamp != 0 && h[last.value].timestamp > m.timestamp)
  {
    if cfg.getContextId(m).Some? {
      RegistryHoldsLastDirective(cfg, map[], h, cfg.getContextId(m).value);
    }
  }
}
