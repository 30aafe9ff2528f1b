/** The behaviour the queue's tests expect, stated on the model: messages
    carry an id (or context id) and an optional type tag, as in the tests'
    `{ id, timestamp, type? }` and `{ contextId, timestamp, type? }`. */
module Scenarios {
  import opened QueueOptions
  import opened Container
  import opened Cancellation
  import opened Queue

  /** The id or context id (None for `undefined`) and the `type` tag. */
  datatype Tag = Tag(key: Option<string>, kind: Option<string>)

  function Work(id: string, ts: int): (m: Message<Tag>)
    ensures KeyOf(m) == Some(id) && !IsCancel(m) && m.timestamp == ts
  {
    Message(ts, Tag(Some(id), None))
  }

  function CancelOf(id: string, ts: int): (m: Message<Tag>)
    ensures KeyOf(m) == Some(id) && IsCancel(m) && m.timestamp == ts
  {
    Message(ts, Tag(Some(id), Some("cancel")))
  }

  /** `(message) => message.id` (or `.contextId`): undefined exactly when
      the message carries none. */
  function KeyOf(m: Message<Tag>): (k: Option<string>)
    ensures k.None? <==> m.body.key.None?
    ensures k.Some? ==> k.value == m.body.key.value
  {
    m.body.key
  }

  /** `(message) => message.type === 'cancel'`. */
  predicate IsCancel(m: Message<Tag>): (r: bool)
    ensures r <==> m.body.kind.Some? && m.body.kind.value == "cancel"
  {
    m.body.kind == Some("cancel")
  }

  /** The message of the priority test, `{ id, timestamp }`: its id is
      always defined. */
  datatype Job = Job(id: string)

  function Numbered(id: string): (m: Message<Job>)
    ensures m.body.id == id && m.timestamp == 0
  {
    Message(0, Job(id))
  }

  /** `(message) => message.id` on the priority test's messages. */
  function JobId(m: Message<Job>): (k: Option<string>)
    ensures k.Some? && k.value == m.body.id
  {
    Some(m.body.id)
  }

  /** JavaScript's `<` on two strings, for strings of characters from the
      Basic Multilingual Plane (such as the tests' ASCII ids): lexicographic
      by character, a proper prefix first. */
  predicate LexLess(a: string, b: string): (r: bool)
    ensures r ==> a != b
    ensures |a| < |b| && a == b[..|a|] ==> r
    decreases |a|
  {
    |b| != 0 && (|a| == 0 || a[0] < b[0] || (a[0] == b[0] && LexLess(a[1..], b[1..])))
  }

  lemma {:induction false} LexLessTransitive(a: string, b: string, c: string)
    requires LexLess(a, b) && LexLess(b, c)
    ensures LexLess(a, c)
    decreases |a|
  {
    if |a| != 0 && a[0] == b[0] && b[0] == c[0] {
      LexLessTransitive(a[1..], b[1..], c[1..]);
    }
  }

  /** Of two different strings, one is less than the other. */
  lemma {:induction false} LexLessTotal(a: string, b: string)
    requires a != b
    ensures LexLess(a, b) || LexLess(b, a)
    decreases |a|
  {
    if |a| != 0 && |b| != 0 && a[0] == b[0] {
      assert a == [a[0]] + a[1..] && b == [b[0]] + b[1..];
      LexLessTotal(a[1..], b[1..]);
    }
  }

  /** `LOWER_ID_HAS_HIGHER_PRIORITY = (a, b) => a.id < b.id`. */
  predicate LowerIdFirst(a: Message<Job>, b: Message<Job>): (r: bool)
    ensures r ==> a.body.id != b.body.id
  {
    LexLess(a.body.id, b.body.id)
  }

  /** The test's comparator is a strict weak order: two messages are
      incomparable exactly when their ids are equal. */
  lemma LowerIdFirstIsWeakOrder()
    ensures StrictWeakOrder(LowerIdFirst)
  {
    forall a: Message<Job>, b: Message<Job>, c: Message<Job>
      | Precedes(LowerIdFirst, a, b) && Precedes(LowerIdFirst, b, c)
      ensures Precedes(LowerIdFirst, a, c)
    {
      LexLessTransitive(a.body.id, b.body.id, c.body.id);
    }
    forall a: Message<Job>, b: Message<Job>, c: Message<Job>
      | Incomparable(LowerIdFirst, a, b) && Incomparable(LowerIdFirst, b, c)
      ensures Incomparable(LowerIdFirst, a, c)
    {
      if a.body.id != b.body.id {
        LexLessTotal(a.body.id, b.body.id);
      }
      if b.body.id != c.body.id {
        LexLessTotal(b.body.id, c.body.id);
      }
    }
  }

  /** Ingress of a message that is not a directive into an idle queue:
      the tick it starts delivers it at once and leaves a drain in flight. */
  method IngressIdle<P(==,!new)>(q: JobQueue<P>, sinks: SinkId, m: Message<P>)
    requires q.Valid() && !q.isProcessing && !IsDirective(q.config, m)
    modifies q
    ensures q.Valid() && q.isProcessing && q.pending == multiset{}
    ensures q.registry == old(q.registry) && q.drainSinks == sinks
    ensures q.log == old(q.log) + [Deliver(q.config, q.registry, sinks, m)]
  {
    ghost var s := Accept(q.config, q.Snapshot(), m);
    q.Ingress(sinks, m);
    OneItemTick(q.config, s, q.Snapshot(), sinks, m);
  }

  /** Ingress while a drain is in flight only records or enqueues. */
  method IngressBusy<P(==,!new)>(q: JobQueue<P>, sinks: SinkId, m: Message<P>)
    requires q.Valid() && q.isProcessing
    modifies q
    ensures q.Valid() && q.isProcessing && q.drainSinks == old(q.drainSinks) && q.log == old(q.log)
    ensures q.registry == Record(q.config, old(q.registry), m)
    ensures q.pending == if IsDirective(q.config, m) then old(q.pending) else old(q.pending) + multiset{m}
  {
    q.Ingress(sinks, m);
  }

  /** Running the waiting ticks to the end, seen through what was
      delivered. */
  method DrainAll<P(==,!new)>(q: JobQueue<P>) returns (out: seq<Delivery<P>>)
    requires q.Valid()
    modifies q
    ensures q.Valid() && !q.isProcessing
    ensures q.log == old(q.log) + out
    ensures Delivered(q.config, old(q.pending), out, q.drainSinks, q.registry)
    ensures q.registry == old(q.registry) && q.drainSinks == old(q.drainSinks)
  {
    var n := |q.log|;
    var ticks := q.Drain();
    out := q.log[n..];
    assert q.log == old(q.log) + out;
  }

  /** 'should process message': a synchronous yield primitive processes the
      message inside the ingress call. */
  method ProcessesMessage() returns (log: seq<Delivery<Tag>>)
    ensures log == [Delivery(0, Process, Work("1", 0))]
  {
    var q := new JobQueue(UserOptions(KeyOf, None, None, None));
    IngressIdle(q, 0, Work("1", 0));
    var out := DrainAll(q);
    assert |Messages(out)| == 0;
    log := q.log;
  }

  /** 'should cancel message': the first message is processed by the tick
      its ingress starts; the second waits, and the cancellation for its id
      at a later timestamp voids it. */
  method CancelsMessage() returns (log: seq<Delivery<Tag>>)
    ensures log == [Delivery(0, Process, Work("1", 0)), Delivery(0, Cancel, Work("2", 0))]
  {
    var q := new JobQueue(UserOptions(KeyOf, None, Some(IsCancel), None));
    assert !IsCancel(Work("1", 0)) && !IsCancel(Work("2", 0)) && IsCancel(CancelOf("2", 1));
    IngressIdle(q, 0, Work("1", 0));
    assert q.log == [Delivery(0, Process, Work("1", 0))];
    IngressBusy(q, 0, Work("2", 0));
    assert q.pending == multiset{Work("2", 0)};
    IngressBusy(q, 0, CancelOf("2", 1));
    assert q.registry == map["2" := 1];
    var out := DrainAll(q);
    OneItemDelivered(q.config, Work("2", 0), out, 0, q.registry);
    assert ShouldBeCancelled(q.registry, KeyOf, Work("2", 0));
    log := q.log;
  }

  /** What the drain in 'should cancel all messages within context before
      cancellation timestamp' delivers, from its pending items and the
      watermark 9 for context "2". */
  lemma ContextTwoDeliveries(cfg: Config<Tag>, out: seq<Delivery<Tag>>, registry: map<string, int>)
    requires cfg.getContextId == KeyOf && registry == map["2" := 9]
    requires Delivered(cfg, multiset{Work("2", 0), Work("2", 5), Work("2", 10)}, out, 0, registry)
    ensures |out| == 3
    ensures forall k :: 0 <= k < |out| ==>
      out[k].sinks == 0 && out[k].sink == (if out[k].message.timestamp < 9 then Cancel else Process)
  {
    assert |Messages(out)| == |multiset(Messages(out))| == 3;
    forall k | 0 <= k < |out|
      ensures out[k].sinks == 0 && out[k].sink == (if out[k].message.timestamp < 9 then Cancel else Process)
    {
      assert Messages(out)[k] in multiset(Messages(out));
    }
  }

  /** 'should cancel all messages within context before cancellation
      timestamp': a cancellation at 9 voids the items of its context at 0
      and 5, leaves the one at 10, and does not touch another context. The
      default comparator relates nothing, so the order of the last three
      deliveries is left open. */
  method CancelsEarlierInContext() returns (log: seq<Delivery<Tag>>)
    ensures |log| == 4 && log[0] == Delivery(0, Process, Work("1", 0))
    ensures multiset(Messages(log[1..])) == multiset{Work("2", 0), Work("2", 5), Work("2", 10)}
    ensures forall k :: 1 <= k < |log| ==>
      log[k].sinks == 0 && log[k].sink == (if log[k].message.timestamp < 9 then Cancel else Process)
  {
    var q := new JobQueue(UserOptions(KeyOf, None, Some(IsCancel), None));
    IngressContextTwo(q);
    var out := DrainAll(q);
    ContextTwoDeliveries(q.config, out, q.registry);
    log := q.log;
    assert log[1..] == out;
  }

  /** The ingress calls of that test, up to the cancellation. */
  method IngressContextTwo(q: JobQueue<Tag>)
    requires q.Valid() && q.config == Resolve(UserOptions(KeyOf, None, Some(IsCancel), None))
    requires !q.isProcessing && q.log == [] && q.registry == map[]
    modifies q
    ensures q.Valid() && q.isProcessing && q.drainSinks == 0
    ensures q.log == [Delivery(0, Process, Work("1", 0))]
    ensures q.pending == multiset{Work("2", 0), Work("2", 5), Work("2", 10)}
    ensures q.registry == map["2" := 9]
  {
    assert !IsCancel(Work("1", 0)) && !IsCancel(Work("2", 0)) && !IsCancel(Work("2", 5));
    assert !IsCancel(Work("2", 10)) && IsCancel(CancelOf("2", 9));
    IngressIdle(q, 0, Work("1", 0));
    assert q.log == [Delivery(0, Process, Work("1", 0))];
    IngressBusy(q, 0, Work("2", 0));
    IngressBusy(q, 0, Work("2", 5));
    IngressBusy(q, 0, Work("2", 10));
    assert q.pending == multiset{Work("2", 0), Work("2", 5), Work("2", 10)};
    IngressBusy(q, 0, CancelOf("2", 9));
  }

  /** 'should process in order from lowest number to highest': id 3 is
      processed alone by the tick its ingress starts; 2 and 1 arrive while
      that drain is in flight, and 1 has priority over 2. */
  method ProcessesInPriorityOrder() returns (log: seq<Delivery<Job>>)
    ensures log == [Delivery(0, Process, Numbered("3")), Delivery(0, Process, Numbered("1")), Delivery(0, Process, Numbered("2"))]
  {
    LowerIdFirstIsWeakOrder();
    var q := new JobQueue(UserOptions(JobId, Some(LowerIdFirst), None, None));
    IngressIdle(q, 0, Numbered("3"));
    assert q.log == [Delivery(0, Process, Numbered("3"))];
    IngressBusy(q, 0, Numbered("2"));
    IngressBusy(q, 0, Numbered("1"));
    assert q.pending == multiset{Numbered("1"), Numbered("2")};
    assert LowerIdFirst(Numbered("1"), Numbered("2"));
    var out := DrainAll(q);
    PriorityPairDelivered(q.config, Numbered("1"), Numbered("2"), out, 0, q.registry);
    log := q.log;
  }

  /** A cancellation whose context id is undefined is not recorded: it is
      queued like any other message and handed to the process sink. */
  method UndefinedContextCancelIsProcessed() returns (log: seq<Delivery<Tag>>, registry: map<string, int>)
    ensures log == [Delivery(0, Process, Message(4, Tag(None, Some("cancel"))))]
    ensures registry == map[]
  {
    var q := new JobQueue(UserOptions(KeyOf, None, Some(IsCancel), None));
    IngressIdle(q, 0, Message(4, Tag(None, Some("cancel"))));
    var out := DrainAll(q);
    assert |Messages(out)| == 0;
    log := q.log;
    registry := q.registry;
  }

  /** The drain flag is shared by sink pairs built from one options object:
      a message that comes in through pair 1 while pair 0's drain is in
      flight is delivered to pair 0's sinks. */
  method SinkPairsShareOneDrain() returns (log: seq<Delivery<Tag>>)
    ensures log == [Delivery(0, Process, Work("a", 0)), Delivery(0, Process, Work("b", 0))]
  {
    var q := new JobQueue(UserOptions(KeyOf, None, None, None));
    IngressIdle(q, 0, Work("a", 0));
    assert q.log == [Delivery(0, Process, Work("a", 0))];
    IngressBusy(q, 1, Work("b", 0));
    assert q.pending == multiset{Work("b", 0)};
    var out := DrainAll(q);
    OneItemDelivered(q.config, Work("b", 0), out, 0, q.registry);
    log := q.log;
  }

  /** The last directive wins, not the highest: after cancellations for
      context "a" at 9 and then at 3, an item of "a" at 5 is processed. */
  lemma LastCancellationWins()
    ensures var cfg := Resolve(UserOptions(KeyOf, None, Some(IsCancel), None));
      && ShouldBeCancelled(RegistryAfter(cfg, map[], [CancelOf("a", 9)]), KeyOf, Work("a", 5))
      && !ShouldBeCancelled(RegistryAfter(cfg, map[], [CancelOf("a", 9), CancelOf("a", 3)]), KeyOf, Work("a", 5))
  {
    var cfg := Resolve(UserOptions(KeyOf, None, Some(IsCancel), None));
    assert [CancelOf("a", 9), CancelOf("a", 3)][..1] == [CancelOf("a", 9)];
    assert [CancelOf("a", 9)][..0] == [];
  }
}
