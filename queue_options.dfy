/** The options a job queue is built from, their defaults, and how the
    effective configuration is selected from what the caller supplies. */
module QueueOptions {

  datatype Option<+T> = None | Some(value: T)

  /** A message as the queue sees it: every message carries a numeric
      timestamp; everything else about it is the caller's. */
  datatype Message<P> = Message(timestamp: int, body: P)

  /** A value given for `compactThreshold`: a number, or one that no slack
      can ever exceed (`Number.MAX_VALUE`, `Infinity`). */
  datatype Limit = AtMost(n: int) | Unlimited

  /** What the caller passes: `getContextId` is required, the other three
      options may be absent (None). A context id of `undefined` is None. */
  datatype UserOptions<!P(!new)> = UserOptions(
    getContextId: Message<P> -> Option<string>,
    compare: Option<(Message<P>, Message<P>) -> bool>,
    isCancelMessage: Option<Message<P> -> bool>,
    compactThreshold: Option<Limit>)

  /** The options after the defaults are merged in and the compaction
      threshold is selected. */
  datatype Config<!P(!new)> = Config(
    getContextId: Message<P> -> Option<string>,
    compare: (Message<P>, Message<P>) -> bool,
    isCancelMessage: Message<P> -> bool,
    threshold: Limit)

  /** The threshold used when the caller supplies a falsy one. */
  const DefaultCompactThreshold: int := 1000

  /** `compare(a, b)`: a has priority over b. Stated through this name so
      that the transitivity of StrictWeakOrder is only used where a proof
      mentions it. */
  ghost predicate Precedes<P>(compare: (Message<P>, Message<P>) -> bool, a: Message<P>, b: Message<P>) {
    compare(a, b)
  }

  /** Neither of a and b has priority over the other. */
  ghost predicate Incomparable<P>(compare: (Message<P>, Message<P>) -> bool, a: Message<P>, b: Message<P>) {
    !compare(a, b) && !compare(b, a)
  }

  /** What a binary heap needs of `compare` for its root to be an item no
      other item has priority over: irreflexive, transitive, and with
      incomparability transitive too (a strict weak order). */
  ghost predicate StrictWeakOrder<P(!new)>(compare: (Message<P>, Message<P>) -> bool) {
    && (forall a :: !compare(a, a))
    && (forall a, b, c {:trigger Precedes(compare, a, b), Precedes(compare, b, c)} ::
          Precedes(compare, a, b) && Precedes(compare, b, c) ==> Precedes(compare, a, c))
    && (forall a, b, c {:trigger Incomparable(compare, a, b), Incomparable(compare, b, c)} ::
          Incomparable(compare, a, b) && Incomparable(compare, b, c) ==> Incomparable(compare, a, c))
  }

  /** `compactThreshold || 1000` over `{...defaultOptions(), ..._options}`:
      an absent option takes the default `Number.MAX_VALUE`; only a falsy
      number supplied by the caller falls back to 1000. */
  function EffectiveThreshold(user: Option<Limit>): (t: Limit)
    ensures t.AtMost? <==> user.Some? && user.value.AtMost?
    ensures t.AtMost? ==> t.n != 0
    ensures t.AtMost? && user.value.n != 0 ==> t.n == user.value.n
    ensures t.AtMost? && user.value.n == 0 ==> t.n == DefaultCompactThreshold
  {
    match user
    case None => Unlimited
    case Some(Unlimited) => Unlimited
    case Some(AtMost(n)) => if n == 0 then AtMost(DefaultCompactThreshold) else AtMost(n)
  }

  /** Whether the container's slack (physical length minus size) calls for
      a compaction pass: strictly more slack than the threshold. */
  predicate NeedsCompaction(slack: nat, threshold: Limit): (r: bool)
    ensures r ==> threshold.AtMost?
    ensures threshold.AtMost? ==> (r <==> slack > threshold.n)
    ensures threshold.AtMost? && threshold.n < 0 ==> r
  {
    threshold.AtMost? && slack > threshold.n
  }

  /** The compaction trigger as selected from the caller's option. */
  lemma CompactionTrigger(user: Option<Limit>, slack: nat)
    ensures user == None ==> !NeedsCompaction(slack, EffectiveThreshold(user))
    ensures user == Some(Unlimited) ==> !NeedsCompaction(slack, EffectiveThreshold(user))
    ensures user == Some(AtMost(0)) ==>
      (NeedsCompaction(slack, EffectiveThreshold(user)) <==> slack > DefaultCompactThreshold)
    ensures forall n :: n != 0 && user == Some(AtMost(n)) ==>
      (NeedsCompaction(slack, EffectiveThreshold(user)) <==> slack > n)
  {
  }

  /** Merging the caller's options over `defaultOptions()`. */
  function Resolve<P(!new)>(user: UserOptions<P>): (c: Config<P>)
    ensures c.getContextId == user.getContextId
    ensures user.compare.Some? ==> c.compare == user.compare.value
    ensures user.compare.None? ==> forall a, b :: !c.compare(a, b)
    ensures user.isCancelMessage.Some? ==> c.isCancelMessage == user.isCancelMessage.value
    ensures user.isCancelMessage.None? ==> forall m :: !c.isCancelMessage(m)
    ensures c.threshold == EffectiveThreshold(user.compactThreshold)
  {
    Config(
      user.getContextId,
      match user.compare case Some(f) => f case None => (a: Message<P>, b: Message<P>) => false,
      match user.isCancelMessage case Some(f) => f case None => (m: Message<P>) => false,
      EffectiveThreshold(user.compactThreshold))
  }

  /** The comparator the queue would use is a strict weak order whenever the
      caller's one is: the default relates nothing. */
  lemma ResolvedCompareIsWeakOrder<P(!new)>(user: UserOptions<P>)
    requires user.compare.Some? ==> StrictWeakOrder(user.compare.value)
    ensures StrictWeakOrder(Resolve(user).compare)
  {
  }
}
