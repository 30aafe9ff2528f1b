/** The job queue built by `makeJobQueue`: ingress classifies each message
    and either records a cancellation or enqueues it, then starts a tick
    unless a drain is already in flight; each tick compacts if needed, stops
    when nothing is pending, and otherwise polls one item, hands it to the
    cancel or the process sink, and reschedules itself through the host's
    yield primitive. */
module Queue {
  import opened QueueOptions
  import opened Container
  import opened Cancellation

  /** Identifies one (processMessage, cancelMessage) pair bound to a queue;
      every pair shares the queue's container, registry and drain flag. */
  type SinkId = nat

  datatype Sink = Process | Cancel

  /** One call of a sink: of which pair, which callback, with what message. */
  datatype Delivery<P> = Delivery(sinks: SinkId, sink: Sink, message: Message<P>)

  /** Where a polled item goes: to the cancel sink if the registry cancels
      it, to the process sink otherwise; never to both. */
  function Deliver<P(!new)>(cfg: Config<P>, registry: map<string, int>, sinks: SinkId, m: Message<P>): (d: Delivery<P>)
    ensures d.sinks == sinks && d.message == m
    ensures d.sink == Cancel <==> ShouldBeCancelled(registry, cfg.getContextId, m)
  {
    Delivery(sinks, if ShouldBeCancelled(registry, cfg.getContextId, m) then Cancel else Process, m)
  }

  /** The messages delivered, in delivery order. */
  function Messages<P>(log: seq<Delivery<P>>): (ms: seq<Message<P>>)
    ensures |ms| == |log|
    ensures forall k :: 0 <= k < |log| ==> ms[k] == log[k].message
  {
    seq(|log|, k requires 0 <= k < |log| => log[k].message)
  }

  /** The state of one queue: the live contents of the container and its
      slack, the registry, the drain flag, whether a tick callback is
      waiting in the host (and for which sink pair), and the sink calls. */
  datatype State<P(==)> = State(
    pending: multiset<Message<P>>,
    slack: nat,
    registry: map<string, int>,
    isProcessing: bool,
    tickScheduled: bool,
    drainSinks: SinkId,
    log: seq<Delivery<P>>)

  /** The ingress closure before its drain guard: a cancellation with a
      defined context id updates the registry and is not queued; any other
      message, including a cancellation whose context id is undefined, is
      added to the container. */
  function Accept<P(==,!new)>(cfg: Config<P>, s: State<P>, m: Message<P>): (s': State<P>)
    ensures IsDirective(cfg, m) ==> s' == s.(registry := Record(cfg, s.registry, m))
    ensures !IsDirective(cfg, m) ==>
      s' == s.(pending := s.pending + multiset{m}, slack := SlackAfterAdd(s.slack))
  {
    if IsDirective(cfg, m) then s.(registry := Record(cfg, s.registry, m))
    else s.(pending := s.pending + multiset{m}, slack := SlackAfterAdd(s.slack))
  }

  /** One run of `_exec` by the chain of sink pair `sinks`, taking s to s':
      compact if the slack is over the threshold; on an empty container go
      idle and schedule nothing; otherwise poll a compare-minimal item,
      deliver it, and schedule exactly one further tick. */
  ghost predicate IsTick<P(!new)>(cfg: Config<P>, s: State<P>, s': State<P>, sinks: SinkId) {
    && !s.tickScheduled
    && s'.registry == s.registry
    && s'.slack == SlackAfterTick(s.slack, cfg.threshold, s.pending != multiset{})
    && if s.pending == multiset{} then
         && s'.pending == s.pending
         && !s'.isProcessing && !s'.tickScheduled
         && s'.drainSinks == s.drainSinks
         && s'.log == s.log
       else
         && s'.isProcessing && s'.tickScheduled
         && s'.drainSinks == sinks
         && |s'.log| == |s.log| + 1
         && var m := s'.log[|s.log|].message;
         && IsMinimal(cfg.compare, m, s.pending)
         && s'.pending == s.pending - multiset{m}
         && s'.log == s.log + [Deliver(cfg, s.registry, sinks, m)]
  }

  /** The facts a tick that found nothing pending establishes make it a
      tick. */
  lemma IdleTick<P(!new)>(cfg: Config<P>, s: State<P>, s': State<P>, sinks: SinkId)
    requires !s.tickScheduled && s.pending == multiset{}
    requires s'.registry == s.registry && s'.pending == s.pending && s'.log == s.log
    requires s'.slack == SlackAfterTick(s.slack, cfg.threshold, false)
    requires !s'.isProcessing && !s'.tickScheduled && s'.drainSinks == s.drainSinks
    ensures IsTick(cfg, s, s', sinks)
  {
  }

  /** The facts a tick that polled m establishes make it a tick. */
  lemma PolledTick<P(!new)>(cfg: Config<P>, s: State<P>, s': State<P>, sinks: SinkId, m: Message<P>)
    requires !s.tickScheduled && IsMinimal(cfg.compare, m, s.pending)
    requires s'.registry == s.registry
    requires s'.slack == SlackAfterTick(s.slack, cfg.threshold, true)
    requires s'.isProcessing && s'.tickScheduled && s'.drainSinks == sinks
    requires s'.pending == s.pending - multiset{m}
    requires s'.log == s.log + [Deliver(cfg, s.registry, sinks, m)]
    ensures IsTick(cfg, s, s', sinks)
  {
    assert s'.log[|s.log|].message == m;
  }

  /** A tick hands out at most one item, and exactly one when there was
      one: what was pending is what is still pending plus what it
      delivered; the registry and earlier deliveries are untouched. */
  lemma TickConservesItems<P(!new)>(cfg: Config<P>, s: State<P>, s': State<P>, sinks: SinkId)
    requires IsTick(cfg, s, s', sinks)
    ensures |s.log| <= |s'.log| && s'.log[..|s.log|] == s.log
    ensures |s'.log| == |s.log| + (if s.pending == multiset{} then 0 else 1)
    ensures s.pending == s'.pending + multiset(Messages(s'.log[|s.log|..]))
    ensures s'.registry == s.registry
    ensures s'.isProcessing == s'.tickScheduled == (s.pending != multiset{})
  {
    if s.pending != multiset{} {
      var m := s'.log[|s.log|].message;
      assert s'.log[|s.log|..] == [s'.log[|s.log|]];
      assert Messages(s'.log[|s.log|..]) == [m];
    }
  }

  /** Part way through a drain episode that began with p0 pending: out has
      been delivered and rest is still pending. Each delivery went to the
      sink the registry selects, and nothing delivered later, or still
      pending, has priority over anything delivered earlier. */
  ghost predicate DrainedSoFar<P(!new)>(cfg: Config<P>, p0: multiset<Message<P>>, out: seq<Delivery<P>>,
                                       rest: multiset<Message<P>>, sinks: SinkId, registry: map<string, int>) {
    && multiset(Messages(out)) + rest == p0
    && PriorityOrdered(cfg.compare, Messages(out))
    && (forall k, x :: 0 <= k < |out| && x in rest ==> !cfg.compare(x, out[k].message))
    && (forall k :: 0 <= k < |out| ==> out[k] == Deliver(cfg, registry, sinks, out[k].message))
  }

  /** One tick of the drain keeps DrainedSoFar, with what it delivered (d,
      the item it polled if any) appended to what has been delivered. */
  lemma DrainStep<P(!new)>(cfg: Config<P>, p0: multiset<Message<P>>, out: seq<Delivery<P>>, s: State<P>, s': State<P>)
      returns (d: seq<Delivery<P>>)
    requires IsTick(cfg, s, s', s.drainSinks)
    requires DrainedSoFar(cfg, p0, out, s.pending, s.drainSinks, s.registry)
    ensures s'.log == s.log + d
    ensures DrainedSoFar(cfg, p0, out + d, s'.pending, s'.drainSinks, s'.registry)
  {
    d := s'.log[|s.log|..];
    if s.pending == multiset{} {
      assert d == [];
      assert out + d == out;
    } else {
      var m := s'.log[|s.log|].message;
      assert d == [Deliver(cfg, s.registry, s.drainSinks, m)];
      AppendPolled(cfg, p0, out, s.pending, s.drainSinks, s.registry, m);
    }
  }

  /** Sequence concatenation associates. Used by Drain only to keep that
      loop's proof cheap: stated inline there, the same step costs the
      solver far more than through this lemma. */
  lemma AppendAssociates<T>(a: seq<T>, b: seq<T>, c: seq<T>)
    ensures (a + b) + c == a + (b + c)
  {
  }

  /** One tick of the drain moves the slack one step along SlackAfterDrain,
      and the tick that finds nothing pending ends the episode. */
  lemma DrainSlackStep<P(!new)>(cfg: Config<P>, s: State<P>, s': State<P>)
    requires IsTick(cfg, s, s', s.drainSinks)
    ensures s.pending != multiset{} ==>
      s'.tickScheduled && |s'.pending| == |s.pending| - 1
      && SlackAfterDrain(s'.slack, cfg.threshold, |s'.pending|) == SlackAfterDrain(s.slack, cfg.threshold, |s.pending|)
    ensures s.pending == multiset{} ==>
      !s'.tickScheduled && s'.slack == SlackAfterDrain(s.slack, cfg.threshold, |s.pending|)
  {
  }

  /** Delivering a compare-minimal pending item keeps DrainedSoFar. */
  lemma AppendPolled<P(!new)>(cfg: Config<P>, p0: multiset<Message<P>>, out: seq<Delivery<P>>,
                              rest: multiset<Message<P>>, sinks: SinkId, registry: map<string, int>, m: Message<P>)
    requires DrainedSoFar(cfg, p0, out, rest, sinks, registry)
    requires IsMinimal(cfg.compare, m, rest)
    ensures DrainedSoFar(cfg, p0, out + [Deliver(cfg, registry, sinks, m)], rest - multiset{m}, sinks, registry)
  {
    var out' := out + [Deliver(cfg, registry, sinks, m)];
    var rest' := rest - multiset{m};
    var ms := Messages(out);
    var ms' := Messages(out');
    assert ms' == ms + [m];
    assert multiset(ms') == multiset(ms) + multiset{m};
    assert rest == rest' + multiset{m};
    assert multiset(ms') + rest' == p0;
    forall i, j | 0 <= i < j < |ms'| ensures !cfg.compare(ms'[j], ms'[i]) {
      if j == |ms| {
        assert m in rest;
        assert ms'[i] == out[i].message;
      } else {
        assert ms'[i] == ms[i] && ms'[j] == ms[j];
      }
    }
    forall k, x | 0 <= k < |out'| && x in rest' ensures !cfg.compare(x, out'[k].message) {
      assert x in rest;
    }
  }

  /** A drain that has emptied the container delivered exactly what was
      pending. */
  ghost predicate Delivered<P(!new)>(cfg: Config<P>, p0: multiset<Message<P>>, out: seq<Delivery<P>>, sinks: SinkId, registry: map<string, int>) {
    && multiset(Messages(out)) == p0
    && PriorityOrdered(cfg.compare, Messages(out))
    && (forall k :: 0 <= k < |out| ==> out[k] == Deliver(cfg, registry, sinks, out[k].message))
  }

  /** A tick with exactly one item pending delivers that item. */
  lemma OneItemTick<P(!new)>(cfg: Config<P>, s: State<P>, s': State<P>, sinks: SinkId, m: Message<P>)
    requires IsTick(cfg, s, s', sinks) && s.pending == multiset{m}
    ensures s'.pending == multiset{} && s'.registry == s.registry
    ensures s'.log == s.log + [Deliver(cfg, s.registry, sinks, m)]
  {
    var x := s'.log[|s.log|].message;
    assert x in s.pending;
  }

  /** A drain episode with one item pending delivers just that item. */
  lemma OneItemDelivered<P(!new)>(cfg: Config<P>, m: Message<P>, out: seq<Delivery<P>>, sinks: SinkId, registry: map<string, int>)
    requires Delivered(cfg, multiset{m}, out, sinks, registry)
    ensures out == [Deliver(cfg, registry, sinks, m)]
  {
    assert |Messages(out)| == 1;
    assert Messages(out)[0] in multiset(Messages(out));
  }

  /** A drain episode with two items pending, a having priority over b,
      delivers a, then b. */
  lemma PriorityPairDelivered<P(!new)>(cfg: Config<P>, a: Message<P>, b: Message<P>, out: seq<Delivery<P>>, sinks: SinkId, registry: map<string, int>)
    requires Delivered(cfg, multiset{a, b}, out, sinks, registry)
    requires cfg.compare(a, b)
    ensures out == [Deliver(cfg, registry, sinks, a), Deliver(cfg, registry, sinks, b)]
  {
    var ms := Messages(out);
    assert |ms| == |multiset(ms)| == 2;
    assert ms == [ms[0], ms[1]];
    assert multiset(ms) == multiset{ms[0], ms[1]};
    assert ms[0] in multiset{a, b} && ms[1] in multiset{a, b};
  }

  class JobQueue<P(==,!new)> {
    const config: Config<P>
    /** the live items of the priority container */
    var pending: multiset<Message<P>>
    /** physical length of the container's array minus its size */
    var slack: nat
    /** context id to cancellation watermark (`cancelledContexts`) */
    var registry: map<string, int>
    var isProcessing: bool
    /** a `_exec` callback handed to the yield primitive has not run yet */
    var tickScheduled: bool
    /** the sink pair that callback belongs to */
    var drainSinks: SinkId
    /** every sink call so far, in order */
    var log: seq<Delivery<P>>

    function Snapshot(): State<P>
      reads this
    {
      State(pending, slack, registry, isProcessing, tickScheduled, drainSinks, log)
    }

    /** Draining exactly when one tick callback is waiting, and idle only
        with nothing pending. */
    ghost predicate Valid()
      reads this
    {
      && StrictWeakOrder(config.compare)
      && (isProcessing <==> tickScheduled)
      && (!isProcessing ==> pending == multiset{})
    }

    /** `makeJobQueue(yield)(options)`: the defaults merged in, an empty
        container and registry, idle. */
    constructor (user: UserOptions<P>)
      requires user.compare.Some? ==> StrictWeakOrder(user.compare.value)
      ensures Valid()
      ensures config == Resolve(user)
      ensures Snapshot() == State(multiset{}, 0, map[], false, false, 0, [])
    {
      config := Resolve(user);
      pending := multiset{};
      slack := 0;
      registry := map[];
      isProcessing := false;
      tickScheduled := false;
      drainSinks := 0;
      log := [];
      new;
      ResolvedCompareIsWeakOrder(user);
    }

    /** `queue.trim()` when the slack exceeds the threshold. */
    method CompactIfNeeded()
      modifies this`slack
      ensures slack == if NeedsCompaction(old(slack), config.threshold) then 0 else old(slack)
      ensures pending == old(pending) && registry == old(registry) && log == old(log)
    {
      if NeedsCompaction(slack, config.threshold) {
        slack := 0;
      }
    }

    /** `queue.poll()` on a non-empty container. */
    method Poll() returns (m: Message<P>)
      requires StrictWeakOrder(config.compare)
      requires pending != multiset{}
      modifies this`pending, this`slack
      ensures IsMinimal(config.compare, m, old(pending))
      ensures pending == old(pending) - multiset{m}
      ensures slack == old(slack) + 1
      ensures registry == old(registry) && log == old(log)
    {
      MinimalExists(config.compare, pending);
      m :| m in pending && IsMinimal(config.compare, m, pending);
      pending := pending - multiset{m};
      slack := slack + 1;
    }

    /** `queue.add(m)`. */
    method Add(m: Message<P>)
      modifies this`pending, this`slack
      ensures pending == old(pending) + multiset{m}
      ensures slack == SlackAfterAdd(old(slack))
    {
      pending := pending + multiset{m};
      slack := SlackAfterAdd(slack);
    }

    /** The call of `cancelMessage` or `processMessage` of sink pair `sinks`. */
    method Dispatch(sinks: SinkId, m: Message<P>)
      modifies this`log
      ensures log == old(log) + [Deliver(config, registry, sinks, m)]
      ensures pending == old(pending) && slack == old(slack) && registry == old(registry)
    {
      if ShouldBeCancelled(registry, config.getContextId, m) {
        log := log + [Delivery(sinks, Cancel, m)];
      } else {
        log := log + [Delivery(sinks, Process, m)];
      }
    }

    /** `_exec` of sink pair `sinks`; its last step hands the next tick to
        the yield primitive, which only records that one is waiting. */
    method Tick(sinks: SinkId)
      requires StrictWeakOrder(config.compare)
      requires !tickScheduled
      modifies this
      ensures Valid()
      ensures IsTick(config, old(Snapshot()), Snapshot(), sinks)
    {
      ghost var s0 := Snapshot();
      CompactIfNeeded();
      if pending == multiset{} {
        isProcessing := false;
        IdleTick(config, s0, Snapshot(), sinks);
        return;
      }
      isProcessing := true;
      var m := Poll();
      Dispatch(sinks, m);
      drainSinks := sinks;
      tickScheduled := true;
      PolledTick(config, s0, Snapshot(), sinks, m);
    }

    /** The ingress function of sink pair `sinks`. */
    method Ingress(sinks: SinkId, m: Message<P>)
      requires Valid()
      modifies this
      ensures Valid()
      ensures var s := Accept(config, old(Snapshot()), m);
        if old(isProcessing) then Snapshot() == s else IsTick(config, s, Snapshot(), sinks)
    {
      if config.isCancelMessage(m) && config.getContextId(m).Some? {
        registry := registry[config.getContextId(m).value := m.timestamp];
      } else {
        Add(m);
      }
      if isProcessing {
        return;
      }
      Tick(sinks);
    }

    /** The host runs the waiting tick callback. */
    method RunScheduled()
      requires Valid()
      requires tickScheduled
      modifies this
      ensures Valid()
      ensures IsTick(config, old(Snapshot()).(tickScheduled := false), Snapshot(), old(drainSinks))
    {
      tickScheduled := false;
      Tick(drainSinks);
    }

    /** The host runs waiting ticks until none is left: what a synchronous
        yield primitive does inside the first tick, and what a deferred one
        does once the caller's turn ends with no further ingress. Every item
        pending at the start is delivered exactly once, in an order no later
        item has priority over an earlier one, to the sink the registry
        selects; one more tick than items is run, the last one only to find
        the container empty and go idle. */
    method Drain() returns (ticks: nat)
      requires Valid()
      modifies this
      ensures Valid() && !isProcessing && !tickScheduled && pending == multiset{}
      ensures registry == old(registry) && drainSinks == old(drainSinks)
      ensures |old(log)| <= |log| && log[..|old(log)|] == old(log)
      ensures Delivered(config, old(pending), log[|old(log)|..], drainSinks, registry)
      ensures ticks == if old(tickScheduled) then |old(pending)| + 1 else 0
      ensures slack == if old(tickScheduled) then SlackAfterDrain(old(slack), config.threshold, |old(pending)|) else old(slack)
    {
      ticks := 0;
      ghost var out: seq<Delivery<P>> := [];
      ghost var p0 := pending;
      ghost var finalSlack := if tickScheduled then SlackAfterDrain(slack, config.threshold, |pending|) else slack;
      while tickScheduled
        invariant Valid()
        invariant registry == old(registry) && drainSinks == old(drainSinks)
        invariant log == old(log) + out
        invariant DrainedSoFar(config, p0, out, pending, drainSinks, registry)
        invariant tickScheduled ==> ticks == |out| && SlackAfterDrain(slack, config.threshold, |pending|) == finalSlack
        invariant !tickScheduled ==> slack == finalSlack && ticks == if old(tickScheduled) then |p0| + 1 else 0
        decreases |pending| + (if tickScheduled then 1 else 0)
      {
        ghost var before := Snapshot();
        RunScheduled();
        ticks := ticks + 1;
        ghost var d := DrainStep(config, p0, out, before.(tickScheduled := false), Snapshot());
        DrainSlackStep(config, before.(tickScheduled := false), Snapshot());
        AppendAssociates(old(log), out, d);
        out := out + d;
      }
      assert log[|old(log)|..] == out;
    }
  }
}
