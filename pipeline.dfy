/**
 * The pipeline state machine of `AbstractPipeline`, `CachingPipeline` and
 * `AsyncCachePipeline`, with the `CacheRefreshManagerImpl` that the
 * asynchronous pipeline hands stale keys to.
 *
 * A component is a record of what the pipeline can observe of it: which
 * of the Starter/Finisher/Producer/Consumer interfaces it implements,
 * what its `setup` or the producer's `setConsumer` throws, if anything,
 * and what `constructCacheKey` returns or throws if it is a caching
 * component. The pipeline
 * records every call it makes on its components in `trace`. A run of the
 * chain is given as the bytes the Finisher writes and whether the Starter
 * then throws.
 *
 * The streams are kept as their contents: `output` is what the stream
 * given to `setup` has received, `tee` what the `CachingOutputStream`
 * wrapped around it has buffered (the class is modelled and proved in
 * its own module), and `refresh` the byte buffer of the last refresh.
 */
module Pipelines {
  import opened Wrappers
  import opened JavaLang
  import opened CacheKeys
  import opened CacheValues
  import opened SimpleCaches

  const ERR_MSG_FIRST_NOT_STARTER: string := "Cannot execute pipeline, first pipeline component is not starter"
  const ERR_MSG_LAST_NOT_FINISHER: string := "Cannot execute pipeline, last pipeline component is not finisher"
  const ERR_MSG_NO_PRODUCER: string := "Cannot link components: First component is no producer."
  const ERR_MSG_NO_CONSUMER: string := "Cannot link components: Second component is no consumer."
  const ERR_MSG_NO_STREAM: string := "An output stream must be passed."
  const ERR_MSG_ADD_AFTER_SETUP: string := "Pass all pipeline components to the pipeline before calling this method."
  const ERR_MSG_NOT_SET_UP: string := "The pipeline wasn't setup correctly. Call #setup() first."
  const ERR_MSG_STARTER_FAILED: string := "The starter failed."

  /** The size of the refresh manager's worker pool. */
  const THREAD_POOL_SIZE: nat := 50

  datatype Component = Component(
    starter: bool, finisher: bool, producer: bool, consumer: bool,
    /** What `setConsumer` throws when the component, as a producer, rejects its consumer; `None` when it accepts. */
    rejection: Option<Exception>,
    /** What the component's `setup` throws; `None` when it passes. */
    setupError: Option<Exception>,
    /** `None` for a component that is not a `CachingPipelineComponent`, else what its `constructCacheKey` returns or throws. */
    cacheKey: Option<Result<Option<CacheKey>>>,
    contentType: Option<string>)

  /** A call the pipeline makes on its components, by list position. */
  datatype Call = SetUp(index: nat) | Linked(producer: nat, consumer: nat) | StreamSet(index: nat)
    | Started(index: nat) | Finished(index: nat)

  datatype Mode = Plain | Caching | Async

  /** Where the Finisher writes: nowhere yet, the stream set up by `setup`, or the buffer of a refresh. */
  datatype Target = NoStream | SetupStream | RefreshBuffer

  datatype Sinks = Sinks(output: Option<seq<byte>>, tee: Option<seq<byte>>, refresh: seq<byte>)

  /** One execution of the chain: what the Finisher writes, and whether the Starter throws afterwards. */
  datatype Run = Run(bytes: seq<byte>, fails: bool)

  /** An outcome and the component calls made on the way to it. */
  datatype Progress = Progress(outcome: Outcome, calls: seq<Call>)

  // ---------------------------------------------------------------------
  // Setup

  /** Does `linkComponents(a, b)` get as far as calling `setConsumer`? */
  predicate CallsSetConsumer(a: Component, b: Component) {
    a.producer && b.consumer
  }

  /**
   * `linkComponents(a, b)`: a Producer, then a Consumer, which the Producer
   * accepts; a rejection is whatever exception the producer's
   * `setConsumer` throws.
   */
  function LinkError(a: Component, b: Component): (r: Option<Exception>)
    ensures r.None? <==> CallsSetConsumer(a, b) && a.rejection.None?
    ensures !a.producer ==> r == Some(Setup(ERR_MSG_NO_PRODUCER))
    ensures a.producer && !b.consumer ==> r == Some(Setup(ERR_MSG_NO_CONSUMER))
    ensures CallsSetConsumer(a, b) ==> r == a.rejection
  {
    if !a.producer then Some(Setup(ERR_MSG_NO_PRODUCER))
    else if !b.consumer then Some(Setup(ERR_MSG_NO_CONSUMER))
    else a.rejection
  }

  /** The calls `linkComponents` makes on the way: `setConsumer`, once both ends have the right type. */
  function LinkCalls(cs: seq<Component>, i: nat): seq<Call>
    requires i + 1 < |cs|
  {
    if CallsSetConsumer(cs[i], cs[i + 1]) then [Linked(i, i + 1)] else []
  }

  /** The setup loop from the point where component `i` is set up: link, set up the next, and finally give the Finisher its stream. */
  function LinkFrom(cs: seq<Component>, i: nat): Progress
    requires i < |cs|
    decreases |cs| - i
  {
    if i + 1 == |cs| then Progress(Pass, [StreamSet(i)])
    else match LinkError(cs[i], cs[i + 1])
      case Some(e) => Progress(Fail(e), LinkCalls(cs, i))
      case None =>
        if cs[i + 1].setupError.Some? then Progress(Fail(cs[i + 1].setupError.value), [Linked(i, i + 1), SetUp(i + 1)])
        else
          var rest := LinkFrom(cs, i + 1);
          Progress(rest.outcome, [Linked(i, i + 1), SetUp(i + 1)] + rest.calls)
  }

  /** One step of `LinkFrom` short of the end. */
  lemma LinkFromUnrolled(cs: seq<Component>, i: nat)
    requires i + 1 < |cs|
    ensures LinkError(cs[i], cs[i + 1]).Some? ==> LinkFrom(cs, i) == Progress(Fail(LinkError(cs[i], cs[i + 1]).value), LinkCalls(cs, i))
    ensures LinkError(cs[i], cs[i + 1]).None? && cs[i + 1].setupError.Some? ==>
      LinkFrom(cs, i) == Progress(Fail(cs[i + 1].setupError.value), [Linked(i, i + 1), SetUp(i + 1)])
    ensures LinkError(cs[i], cs[i + 1]).None? && cs[i + 1].setupError.None? ==>
      LinkFrom(cs, i) == Progress(LinkFrom(cs, i + 1).outcome, [Linked(i, i + 1), SetUp(i + 1)] + LinkFrom(cs, i + 1).calls)
  {
  }

  /** `setupComponents`: check the ends, then set up and link the components in list order. */
  function SetupComponents(cs: seq<Component>): Progress {
    if cs == [] then Progress(Fail(NoSuchElement), [])
    else if !cs[0].starter then Progress(Fail(Setup(ERR_MSG_FIRST_NOT_STARTER)), [])
    else if !cs[|cs| - 1].finisher then Progress(Fail(Setup(ERR_MSG_LAST_NOT_FINISHER)), [])
    else if cs[0].setupError.Some? then Progress(Fail(cs[0].setupError.value), [SetUp(0)])
    else
      var rest := LinkFrom(cs, 0);
      Progress(rest.outcome, [SetUp(0)] + rest.calls)
  }

  /** The calls of a complete setup from component `i` on: each link, then the linked component's setup, then the stream. */
  function SetupTraceFrom(i: nat, n: nat): (r: seq<Call>)
    requires i < n
    ensures |r| == 2 * (n - 1 - i) + 1
    decreases n - i
  {
    if i + 1 == n then [StreamSet(i)] else [Linked(i, i + 1), SetUp(i + 1)] + SetupTraceFrom(i + 1, n)
  }

  /** The calls of a complete setup of `n` components. */
  function SetupTrace(n: nat): (r: seq<Call>)
    requires n > 0
    ensures |r| == 2 * n
  {
    [SetUp(0)] + SetupTraceFrom(0, n)
  }

  /** What linking component `j` to its predecessor and then setting it up throws first, if anything. */
  function StepError(cs: seq<Component>, j: nat): Option<Exception>
    requires 0 < j < |cs|
  {
    if LinkError(cs[j - 1], cs[j]).Some? then LinkError(cs[j - 1], cs[j]) else cs[j].setupError
  }

  /** The number of calls the step for component `j` makes: the `setConsumer` and the `setup` that were reached. */
  function StepCalls(cs: seq<Component>, j: nat): nat
    requires 0 < j < |cs|
  {
    if LinkError(cs[j - 1], cs[j]).None? then 2 else if CallsSetConsumer(cs[j - 1], cs[j]) then 1 else 0
  }

  /** Every component after `i` can be linked to its predecessor and set up. */
  predicate Linkable(cs: seq<Component>, i: nat)
    requires i < |cs|
  {
    forall j :: i < j < |cs| ==> StepError(cs, j).None?
  }

  /**
   * The setup loop passes exactly when every step does, and then makes the
   * calls of `SetupTraceFrom`. Otherwise it throws the exception of the
   * first step that fails, which is the component's own exception when
   * `setConsumer` or `setup` throws, and it stops right after the calls
   * of that step that were reached.
   */
  lemma {:induction false} LinkFromSpec(cs: seq<Component>, i: nat)
    requires i < |cs|
    ensures var p := LinkFrom(cs, i); p.outcome.Pass? <==> Linkable(cs, i)
    ensures var p := LinkFrom(cs, i); p.calls <= SetupTraceFrom(i, |cs|)
    ensures var p := LinkFrom(cs, i); p.outcome.Pass? ==> p.calls == SetupTraceFrom(i, |cs|)
    ensures var p := LinkFrom(cs, i); p.outcome.Fail? ==>
      exists j :: i < j < |cs| && StepError(cs, j) == Some(p.outcome.error)
        && |p.calls| == 2 * (j - 1 - i) + StepCalls(cs, j)
        && forall k :: i < k < j ==> StepError(cs, k).None?
    decreases |cs| - i
  {
    if i + 1 < |cs| {
      var head := [Linked(i, i + 1), SetUp(i + 1)];
      assert SetupTraceFrom(i, |cs|) == head + SetupTraceFrom(i + 1, |cs|);
      if StepError(cs, i + 1).None? {
        LinkFromSpec(cs, i + 1);
        var rest := LinkFrom(cs, i + 1);
        if rest.outcome.Pass? {
          assert Linkable(cs, i);
        } else {
          assert !Linkable(cs, i + 1);
          var j :| i + 1 < j < |cs| && StepError(cs, j) == Some(rest.outcome.error)
            && |rest.calls| == 2 * (j - 1 - (i + 1)) + StepCalls(cs, j)
            && forall k :: i + 1 < k < j ==> StepError(cs, k).None?;
          assert forall k :: i < k < j ==> StepError(cs, k).None?;
        }
      } else {
        assert !Linkable(cs, i) by {
          assert i < i + 1 < |cs|;
        }
      }
    }
  }

  /**
   * Setup succeeds exactly when the first component is a Starter, the last
   * a Finisher, every adjacent pair links and every setup passes; it then
   * makes exactly the calls of `SetupTrace`, and a failing setup makes a
   * prefix of them. A bad first or last component fails before any
   * component is set up.
   */
  lemma SetupComponentsSpec(cs: seq<Component>)
    ensures var p := SetupComponents(cs);
      p.outcome.Pass? <==> cs != [] && cs[0].starter && cs[|cs| - 1].finisher && cs[0].setupError.None? && Linkable(cs, 0)
    ensures var p := SetupComponents(cs);
      cs != [] && cs[0].starter && cs[|cs| - 1].finisher && cs[0].setupError.Some? ==> p == Progress(Fail(cs[0].setupError.value), [SetUp(0)])
    ensures var p := SetupComponents(cs);
      cs != [] && cs[0].starter && cs[|cs| - 1].finisher && cs[0].setupError.None? && p.outcome.Fail? ==>
        exists j :: 0 < j < |cs| && StepError(cs, j) == Some(p.outcome.error) && forall k :: 0 < k < j ==> StepError(cs, k).None?
    ensures var p := SetupComponents(cs);
      cs != [] && (!cs[0].starter || !cs[|cs| - 1].finisher) ==> p.outcome.Fail? && p.outcome.error.Setup? && p.calls == []
    ensures var p := SetupComponents(cs); cs != [] ==> p.calls <= SetupTrace(|cs|)
    ensures var p := SetupComponents(cs); p.outcome.Pass? ==> p.calls == SetupTrace(|cs|)
  {
    if cs != [] && cs[0].starter && cs[|cs| - 1].finisher && cs[0].setupError.None? {
      LinkFromSpec(cs, 0);
      var rest := LinkFrom(cs, 0);
    }
  }

  /** In the setup calls each component after the first is linked to its predecessor right before its own setup, and the Finisher gets its stream last. */
  lemma {:induction false} SetupTraceFromAt(i: nat, n: nat, k: nat)
    requires i < n && k < |SetupTraceFrom(i, n)|
    ensures k % 2 == 0 ==> SetupTraceFrom(i, n)[k] == (if k + 1 == 2 * (n - 1 - i) + 1 then StreamSet(n - 1) else Linked(i + k / 2, i + k / 2 + 1))
    ensures k % 2 == 1 ==> SetupTraceFrom(i, n)[k] == SetUp(i + k / 2 + 1)
    decreases n - i
  {
    if i + 1 < n && k >= 2 {
      SetupTraceFromAt(i + 1, n, k - 2);
      assert SetupTraceFrom(i, n)[k] == SetupTraceFrom(i + 1, n)[k - 2];
    }
  }

  /** `setup(stream)` of a plain pipeline: the stream must not be `null`. */
  function PlainSetupCheck(outputStream: Option<seq<byte>>): (r: Outcome)
    ensures r.Fail? <==> outputStream.None?
  {
    if outputStream.None? then Fail(Setup(ERR_MSG_NO_STREAM)) else Pass
  }

  // ---------------------------------------------------------------------
  // Cache key

  /** Does the component contribute a non-null cache key? */
  predicate Contributes(c: Component) {
    c.cacheKey.Some? && c.cacheKey.value.Ok? && c.cacheKey.value.value.Some?
  }

  /** Does the component's `constructCacheKey` throw? */
  predicate KeyThrows(c: Component) {
    c.cacheKey.Some? && c.cacheKey.value.Err?
  }

  /** The key fragments of the first `n` components, which all contribute. */
  function Fragments(cs: seq<Component>, n: nat): (r: seq<Option<CacheKey>>)
    requires n <= |cs| && forall i :: 0 <= i < n ==> Contributes(cs[i])
    ensures |r| == n && forall i :: 0 <= i < n ==> cs[i].cacheKey == Some(Ok(r[i]))
  {
    if n == 0 then [] else assert Contributes(cs[n - 1]); Fragments(cs, n - 1) + [cs[n - 1].cacheKey.value.value]
  }

  /** Where `constructCacheKey`'s loop stops: the first component without a key fragment, or the end of the list. */
  function StopAt(cs: seq<Component>): (r: nat)
    ensures r <= |cs| && forall i :: 0 <= i < r ==> Contributes(cs[i])
    ensures r < |cs| ==> !Contributes(cs[r])
  {
    if cs == [] then 0
    else if !Contributes(cs[0]) then 0
    else
      var r := 1 + StopAt(cs[1..]);
      assert forall i :: 1 <= i < r ==> cs[i] == cs[1..][i - 1];
      r
  }

  /**
   * `constructCacheKey` at clock time `now`: the compound of all fragments
   * in list order, wrapped in an expires key when `expires` is set. The
   * first component without a fragment ends the loop: what its own
   * `constructCacheKey` throws is thrown; otherwise the result is an
   * expires key around an invalid key seeded by `expiresCacheKey` if
   * `expires` is set, else `null`.
   */
  function CacheKeyFor(cs: seq<Component>, expires: Option<string>, expiresCacheKey: Option<string>, now: int): (r: Result<Option<CacheKey>>)
    requires IsLong(now)
  {
    var n := StopAt(cs);
    if n == |cs| then
      var compound := Compound(Fragments(cs, |cs|));
      if expires.None? then Ok(Some(compound))
      else match NewExpires(compound, expires.value, now)
        case Err(e) => Err(e)
        case Ok(k) => Ok(Some(k))
    else if KeyThrows(cs[n]) then Err(cs[n].cacheKey.value.error)
    else if expires.None? then Ok(None)
    else match NewInvalid(expiresCacheKey)
      case Err(e) => Err(e)
      case Ok(invalid) =>
        match NewExpires(invalid, expires.value, now)
        case Err(e) => Err(e)
        case Ok(k) => Ok(Some(k))
  }

  /** The cases of `constructCacheKey`, as its callers rely on them. */
  lemma CacheKeyForSpec(cs: seq<Component>, expires: Option<string>, expiresCacheKey: Option<string>, now: int)
    requires IsLong(now)
    ensures var r := CacheKeyFor(cs, expires, expiresCacheKey, now);
      (forall i :: 0 <= i < |cs| ==> Contributes(cs[i])) && expires.None? ==>
        r.Ok? && r.value.Some? && r.value.value.Compound? && |r.value.value.parts| == |cs|
        && forall i :: 0 <= i < |cs| ==> cs[i].cacheKey == Some(Ok(r.value.value.parts[i]))
    ensures var r := CacheKeyFor(cs, expires, expiresCacheKey, now); var n := StopAt(cs);
      n < |cs| && KeyThrows(cs[n]) ==> r == Err(cs[n].cacheKey.value.error)
    ensures var r := CacheKeyFor(cs, expires, expiresCacheKey, now); var n := StopAt(cs);
      n < |cs| && !KeyThrows(cs[n]) && expires.None? ==> r == Ok(None)
    ensures var r := CacheKeyFor(cs, expires, expiresCacheKey, now); var n := StopAt(cs);
      n < |cs| && !KeyThrows(cs[n]) && expires.Some? && expiresCacheKey.Some? && ParseLong(expires.value).Ok? ==>
        r.Ok? && r.value.Some? && r.value.value.Expires? && r.value.value.inner == Invalid(expiresCacheKey.value)
    ensures var r := CacheKeyFor(cs, expires, expiresCacheKey, now); var n := StopAt(cs);
      n < |cs| && !KeyThrows(cs[n]) && expires.Some? && expiresCacheKey.None? ==>
        r.Err? && r.error.IllegalArgument?
    ensures var r := CacheKeyFor(cs, expires, expiresCacheKey, now);
      (forall i :: 0 <= i < |cs| ==> Contributes(cs[i])) && expires.Some? && ParseLong(expires.value).Ok? ==>
        r.Ok? && r.value.Some? && r.value.value.Expires? && r.value.value.inner == Compound(Fragments(cs, |cs|))
    ensures var r := CacheKeyFor(cs, expires, expiresCacheKey, now);
      (forall i :: 0 <= i < |cs| ==> Contributes(cs[i]) && NullFree(cs[i].cacheKey.value.value.value)) && r.Ok? ==>
        r.value.Some? && NullFree(r.value.value)
  {
    hide NewExpires, NewInvalid, ParseLong, Fragments;
  }

  /** The key fragments, as `constructCacheKey`'s loop meets them, give the same key. */
  lemma FragmentsExtend(cs: seq<Component>, n: nat)
    requires n < |cs| && forall i :: 0 <= i <= n ==> Contributes(cs[i])
    ensures Fragments(cs, n + 1) == Fragments(cs, n) + [cs[n].cacheKey.value.value]
  {
  }

  // ---------------------------------------------------------------------
  // Running the chain

  /**
   * What the Finisher's writes do to the streams. Through the caching
   * stream, every byte goes to the underlying stream first and is then
   * buffered, so a `null` underlying stream fails before anything is
   * buffered.
   */
  function Deliver(target: Target, sinks: Sinks, bytes: seq<byte>): (r: (Outcome, Sinks))
    ensures target == NoStream ==> r == (Fail(NullPointer), sinks)
    ensures target == SetupStream && sinks.output.None? ==> r == (Fail(NullPointer), sinks)
    ensures target == SetupStream && sinks.output.Some? ==>
      r.0 == Pass && r.1.output == Some(sinks.output.value + bytes) && r.1.refresh == sinks.refresh
      && (sinks.tee.None? ==> r.1.tee.None?) && (sinks.tee.Some? ==> r.1.tee == Some(sinks.tee.value + bytes))
    ensures target == RefreshBuffer ==> r == (Pass, sinks.(refresh := sinks.refresh + bytes))
  {
    match target
    case NoStream => (Fail(NullPointer), sinks)
    case RefreshBuffer => (Pass, sinks.(refresh := sinks.refresh + bytes))
    case SetupStream =>
      if sinks.output.None? then (Fail(NullPointer), sinks)
      else
        var tee := if sinks.tee.None? then None else Some(sinks.tee.value + bytes);
        (Pass, Sinks(Some(sinks.output.value + bytes), tee, sinks.refresh))
  }

  /** The `finish` calls on components `0 .. n-1`, in order. */
  function Finishes(n: nat): (r: seq<Call>)
    ensures |r| == n && forall i :: 0 <= i < n ==> r[i] == Finished(i)
  {
    if n == 0 then [] else Finishes(n - 1) + [Finished(n - 1)]
  }

  /** `invokeStarter`'s outcome, without the `finally` loop that follows it. */
  function StarterOutcome(cs: seq<Component>, target: Target, sinks: Sinks, run: Run): (r: (Outcome, Sinks))
    ensures cs == [] ==> r == (Fail(NoSuchElement), sinks)
    ensures cs != [] && !cs[0].starter ==> r == (Fail(ClassCast), sinks)
    ensures cs != [] && cs[0].starter && Deliver(target, sinks, run.bytes).0.Pass? && !run.fails ==>
      r == (Pass, Deliver(target, sinks, run.bytes).1)
    ensures r.0.Pass? ==> cs != [] && cs[0].starter && !run.fails
  {
    if cs == [] then (Fail(NoSuchElement), sinks)
    else if !cs[0].starter then (Fail(ClassCast), sinks)
    else
      var d := Deliver(target, sinks, run.bytes);
      if d.0.Fail? then d
      else if run.fails then (Fail(Processing(ERR_MSG_STARTER_FAILED)), d.1)
      else d
  }

  /** The component calls of one `invokeStarter`: `execute` on the Starter if the first component is one, then `finish` on all. */
  function RunCalls(cs: seq<Component>): (r: seq<Call>)
    ensures cs != [] && cs[0].starter ==> r == [Started(0)] + Finishes(|cs|)
    ensures cs == [] || !cs[0].starter ==> r == Finishes(|cs|)
  {
    (if cs != [] && cs[0].starter then [Started(0)] else []) + Finishes(|cs|)
  }

  /**
   * `cachedValue.writeTo(cachingOutputStream.getOutputStream())`: a stored
   * value goes straight to the stream given to `setup`, bypassing the
   * caching stream; without a caching stream, or with a `null` stream
   * under it, the write throws.
   */
  function WriteStored(sinks: Sinks, value: CacheValue): (r: (Outcome, Sinks))
    ensures r.0.Pass? <==> sinks.tee.Some? && WriteTo(value).Ok? && sinks.output.Some?
    ensures r.0.Pass? ==> r.1 == sinks.(output := Some(sinks.output.value + WriteTo(value).value))
    ensures r.0.Fail? ==> r.1 == sinks
    ensures sinks.tee.Some? && WriteTo(value).Err? ==> r.0 == Fail(WriteTo(value).error)
  {
    if sinks.tee.None? then (Fail(NullPointer), sinks)
    else match WriteTo(value)
      case Err(e) => (Fail(e), sinks)
      case Ok(bytes) =>
        if sinks.output.None? then (Fail(NullPointer), sinks)
        else (Pass, sinks.(output := Some(sinks.output.value + bytes)))
  }

  /** A caching pipeline's run on a miss: the chain's outcome, then `getContent` on the caching stream, which must exist. */
  function MissOutcome(cs: seq<Component>, target: Target, sinks: Sinks, run: Run): (r: (Outcome, Sinks))
    ensures r.1 == StarterOutcome(cs, target, sinks, run).1
    ensures r.0.Pass? <==> StarterOutcome(cs, target, sinks, run).0.Pass? && r.1.tee.Some?
    ensures StarterOutcome(cs, target, sinks, run).0.Fail? ==> r.0 == StarterOutcome(cs, target, sinks, run).0
  {
    var s := StarterOutcome(cs, target, sinks, run);
    if s.0.Fail? then s
    else if s.1.tee.None? then (Fail(NullPointer), s.1)
    else s
  }

  // ---------------------------------------------------------------------
  // Refresh bookkeeping

  /** `pendingCacheKeys.contains(key)`: some pending key that `key` equals. */
  predicate IsPending(pending: seq<CacheKey>, key: CacheKey) {
    exists i :: 0 <= i < |pending| && CacheKeys.Equals(key, Some(pending[i]))
  }

  /** No pending key equals an earlier one. */
  ghost predicate DistinctKeys(pending: seq<CacheKey>) {
    forall i, j :: 0 <= i < j < |pending| ==> !CacheKeys.Equals(pending[j], Some(pending[i]))
  }

  /** The position of the first pending key that `key` equals. */
  function IndexOf(pending: seq<CacheKey>, key: CacheKey): (r: Option<nat>)
    ensures r.None? <==> !IsPending(pending, key)
    ensures r.Some? ==> r.value < |pending| && CacheKeys.Equals(key, Some(pending[r.value]))
    ensures r.Some? ==> forall j :: 0 <= j < r.value ==> !CacheKeys.Equals(key, Some(pending[j]))
  {
    if pending == [] then None
    else if CacheKeys.Equals(key, Some(pending[0])) then Some(0)
    else match IndexOf(pending[1..], key)
      case None =>
        assert forall j :: 1 <= j < |pending| ==> pending[j] == pending[1..][j - 1];
        None
      case Some(i) => Some(i + 1)
  }

  /** `pendingCacheKeys.remove(key)`: drops the first pending key that `key` equals. */
  function RemovePending(pending: seq<CacheKey>, key: CacheKey): (r: seq<CacheKey>)
    ensures IsPending(pending, key) ==> |r| == |pending| - 1
    ensures IsPending(pending, key) ==> forall j :: 0 <= j < |r| ==> r[j] == pending[if j < IndexOf(pending, key).value then j else j + 1]
    ensures !IsPending(pending, key) ==> r == pending
  {
    match IndexOf(pending, key)
    case None => pending
    case Some(i) => pending[..i] + pending[i + 1..]
  }

  /** A request only adds a key that is not pending, so the pending keys stay distinct. */
  lemma AddPendingDistinct(pending: seq<CacheKey>, key: CacheKey)
    requires DistinctKeys(pending) && !IsPending(pending, key)
    ensures DistinctKeys(pending + [key])
  {
    var p := pending + [key];
    forall i, j | 0 <= i < j < |p|
      ensures !CacheKeys.Equals(p[j], Some(p[i]))
    {
      if j == |pending| {
        assert !CacheKeys.Equals(key, Some(pending[i]));
      }
    }
  }

  /** Removing a key keeps the pending keys distinct. */
  lemma RemovedStillDistinct(pending: seq<CacheKey>, key: CacheKey)
    requires DistinctKeys(pending)
    ensures DistinctKeys(RemovePending(pending, key))
  {
    if IsPending(pending, key) {
      var i := IndexOf(pending, key).value;
      var r := RemovePending(pending, key);
      forall a, b | 0 <= a < b < |r|
        ensures !CacheKeys.Equals(r[b], Some(r[a]))
      {
        var a' := if a < i then a else a + 1;
        var b' := if b < i then b else b + 1;
        assert r[a] == pending[a'] && r[b] == pending[b'] && a' < b';
      }
    }
  }

  /** Once a refresh has succeeded and its key is removed, the key is no longer pending. */
  lemma RemovedNotPending(pending: seq<CacheKey>, key: CacheKey)
    requires DistinctKeys(pending)
    ensures !IsPending(RemovePending(pending, key), key)
  {
    if IsPending(pending, key) {
      var i := IndexOf(pending, key).value;
      var r := RemovePending(pending, key);
      forall j | 0 <= j < |r|
        ensures !CacheKeys.Equals(key, Some(r[j]))
      {
        if j >= i {
          assert r[j] == pending[j + 1];
          if CacheKeys.Equals(key, Some(pending[j + 1])) {
            EqualsSymmetric(key, pending[j + 1]);
            EqualsTransitive(pending[j + 1], key, pending[i]);
            assert false;
          }
        }
      }
    }
  }

  /** Removing one key leaves every pending key that it does not equal pending. */
  lemma RemovedKeepsOthers(pending: seq<CacheKey>, key: CacheKey, other: CacheKey)
    requires IsPending(pending, other) && !CacheKeys.Equals(other, Some(key))
    ensures IsPending(RemovePending(pending, key), other)
  {
    var r := RemovePending(pending, key);
    var k :| 0 <= k < |pending| && CacheKeys.Equals(other, Some(pending[k]));
    if IsPending(pending, key) {
      var i := IndexOf(pending, key).value;
      if k == i {
        EqualsSymmetric(key, pending[i]);
        EqualsTransitive(other, pending[i], key);
        assert false;
      }
      var k' := if k < i then k else k - 1;
      assert r[k'] == pending[k];
    }
  }

  /** A key equal to a pending one is itself pending: a second request for it is ignored. */
  lemma PendingAbsorbsEqual(pending: seq<CacheKey>, key: CacheKey, again: CacheKey)
    requires IsPending(pending, key) && CacheKeys.Equals(again, Some(key))
    ensures IsPending(pending, again)
  {
    var i :| 0 <= i < |pending| && CacheKeys.Equals(key, Some(pending[i]));
    EqualsTransitive(again, key, pending[i]);
  }

  datatype RefreshJob = RefreshJob(key: CacheKey, pipeline: Pipeline)

  class CacheRefreshManager {
    var pending: seq<CacheKey>
    /** The jobs submitted to the executor and not yet run, oldest first. */
    var jobs: seq<RefreshJob>

    ghost predicate Valid()
      reads this
    {
      DistinctKeys(pending)
    }

    constructor ()
      ensures Valid() && pending == [] && jobs == []
    {
      pending := [];
      jobs := [];
    }

    /** `refreshCacheValue`: ignored while an equal key is pending; otherwise the key becomes pending and one job is submitted. */
    method RefreshCacheValue(key: CacheKey, job: Pipeline)
      requires Valid()
      modifies this
      ensures Valid()
      ensures old(IsPending(pending, key)) ==> pending == old(pending) && jobs == old(jobs)
      ensures !old(IsPending(pending, key)) ==> pending == old(pending) + [key] && jobs == old(jobs) + [RefreshJob(key, job)]
    {
      if IsPending(pending, key) {
        return;
      }
      AddPendingDistinct(pending, key);
      pending := pending + [key];
      jobs := jobs + [RefreshJob(key, job)];
    }

    /**
     * One worker run of the oldest submitted job (`executeCacheRefreshJob`):
     * the pipeline refreshes the key, and only if that does not throw is
     * the key removed from the pending keys.
     */
    method Step(run: Run) returns (outcome: Option<Outcome>)
      requires Valid()
      requires jobs != [] ==> jobs[0].pipeline.Valid()
      modifies this, if jobs == [] then {} else {jobs[0].pipeline}, if jobs == [] || jobs[0].pipeline.cache == null then {} else {jobs[0].pipeline.cache}
      ensures Valid()
      ensures old(jobs) == [] ==> outcome.None? && jobs == [] && pending == old(pending)
      ensures old(jobs) != [] ==> outcome.Some? && jobs == old(jobs)[1..]
      ensures old(jobs) != [] && outcome.Some? && outcome.value.Pass? ==> pending == RemovePending(old(pending), old(jobs)[0].key)
      ensures old(jobs) != [] && outcome.Some? && outcome.value.Fail? ==> pending == old(pending)
    {
      if jobs == [] {
        return None;
      }
      var job := jobs[0];
      jobs := jobs[1..];
      var refreshed := job.pipeline.Refresh(job.key, run);
      if refreshed.Fail? {
        return Some(refreshed);
      }
      RemovedStillDistinct(pending, job.key);
      pending := RemovePending(pending, job.key);
      return Some(Pass);
    }
  }

  // ---------------------------------------------------------------------
  // The pipeline

  class Pipeline {
    const mode: Mode
    var components: seq<Component>
    var setupDone: bool
    var trace: seq<Call>
    var target: Target
    var sinks: Sinks
    var cache: SimpleCache?
    var cacheKey: Option<CacheKey>
    var expires: Option<string>
    var expiresCacheKey: Option<string>
    var refreshManager: CacheRefreshManager?

    ghost predicate Valid()
      reads this, cache
    {
      cache != null ==> cache.Valid()
    }

    constructor (mode: Mode)
      ensures Valid() && this.mode == mode
      ensures components == [] && !setupDone && trace == [] && target == NoStream
      ensures sinks == Sinks(None, None, []) && cache == null && cacheKey.None?
      ensures expires.None? && expiresCacheKey.None? && refreshManager == null
    {
      this.mode := mode;
      components := [];
      setupDone := false;
      trace := [];
      target := NoStream;
      sinks := Sinks(None, None, []);
      cache := null;
      cacheKey := None;
      expires := None;
      expiresCacheKey := None;
      refreshManager := null;
    }

    /** `addComponent`: appends before setup, throws after it. */
    method AddComponent(c: Component) returns (outcome: Outcome)
      modifies this`components
      ensures old(setupDone) ==> outcome == Fail(Exception.Setup(ERR_MSG_ADD_AFTER_SETUP)) && components == old(components)
      ensures !old(setupDone) ==> outcome == Pass && components == old(components) + [c]
    {
      if setupDone {
        return Fail(Exception.Setup(ERR_MSG_ADD_AFTER_SETUP));
      }
      components := components + [c];
      return Pass;
    }

    method SetCache(cache: SimpleCache?)
      requires cache != null ==> cache.Valid()
      modifies this`cache
      ensures Valid() && this.cache == cache
    {
      this.cache := cache;
    }

    method SetExpires(expires: Option<string>)
      modifies this`expires
      ensures this.expires == expires
    {
      this.expires := expires;
    }

    method SetExpiresCacheKey(expiresCacheKey: Option<string>)
      modifies this`expiresCacheKey
      ensures this.expiresCacheKey == expiresCacheKey
    {
      this.expiresCacheKey := expiresCacheKey;
    }

    method SetCacheRefreshManager(manager: CacheRefreshManager?)
      modifies this`refreshManager
      ensures refreshManager == manager
    {
      refreshManager := manager;
    }

    /** `setConfiguration`: a caching pipeline reads `expires` and `expires-cache-key`, absent ones as `null`; a plain one ignores it. */
    method SetConfiguration(parameters: map<string, string>)
      modifies this`expires, this`expiresCacheKey
      ensures mode == Plain ==> expires == old(expires) && expiresCacheKey == old(expiresCacheKey)
      ensures mode != Plain ==> expires == (if "expires" in parameters then Some(parameters["expires"]) else None)
      ensures mode != Plain ==> expiresCacheKey == (if "expires-cache-key" in parameters then Some(parameters["expires-cache-key"]) else None)
    {
      if mode == Plain {
        return;
      }
      expires := if "expires" in parameters then Some(parameters["expires"]) else None;
      expiresCacheKey := if "expires-cache-key" in parameters then Some(parameters["expires-cache-key"]) else None;
    }

    /** `setupComponents`: the checks of both ends, then the linking loop. */
    method SetupComponentsLoop() returns (outcome: Outcome)
      modifies this`trace, this`target
      ensures outcome == SetupComponents(components).outcome
      ensures trace == old(trace) + SetupComponents(components).calls
      ensures outcome.Pass? ==> target == SetupStream
      ensures outcome.Fail? ==> target == old(target)
    {
      if components == [] {
        return Fail(NoSuchElement);
      }
      if !components[0].starter {
        return Fail(Exception.Setup(ERR_MSG_FIRST_NOT_STARTER));
      }
      if !components[|components| - 1].finisher {
        return Fail(Exception.Setup(ERR_MSG_LAST_NOT_FINISHER));
      }
      trace := trace + [SetUp(0)];
      if components[0].setupError.Some? {
        return Fail(components[0].setupError.value);
      }
      assert SetupComponents(components) == Progress(LinkFrom(components, 0).outcome, [SetUp(0)] + LinkFrom(components, 0).calls);
      hide SetupComponents;
      var i := 0;
      while i + 1 < |components|
        invariant 0 <= i < |components|
        invariant SetupComponents(components).outcome == LinkFrom(components, i).outcome
        invariant old(trace) + SetupComponents(components).calls == trace + LinkFrom(components, i).calls
        invariant target == old(target)
      {
        LinkFromUnrolled(components, i);
        hide LinkFrom;
        var current, next := components[i], components[i + 1];
        if !current.producer {
          return Fail(Exception.Setup(ERR_MSG_NO_PRODUCER));
        }
        if !next.consumer {
          return Fail(Exception.Setup(ERR_MSG_NO_CONSUMER));
        }
        trace := trace + [Linked(i, i + 1)];
        if current.rejection.Some? {
          return Fail(current.rejection.value);
        }
        trace := trace + [SetUp(i + 1)];
        if next.setupError.Some? {
          return Fail(next.setupError.value);
        }
        i := i + 1;
      }
      trace := trace + [StreamSet(i)];
      target := SetupStream;
      return Pass;
    }

    /** `constructCacheKey`'s loop over the components, at clock time `now`. */
    method ConstructCacheKey(now: int) returns (r: Result<Option<CacheKey>>)
      requires IsLong(now)
      ensures r == CacheKeyFor(components, expires, expiresCacheKey, now)
    {
      hide NewExpires, NewInvalid, ParseLong;
      var parts: seq<Option<CacheKey>> := [];
      var i := 0;
      while i < |components|
        invariant 0 <= i <= |components|
        invariant forall j :: 0 <= j < i ==> Contributes(components[j])
        invariant parts == Fragments(components, i)
        invariant i <= StopAt(components)
      {
        var c := components[i];
        if c.cacheKey.Some? {
          if c.cacheKey.value.Err? {
            return Err(c.cacheKey.value.error);
          }
          if c.cacheKey.value.value.Some? {
            parts := parts + [c.cacheKey.value.value];
            i := i + 1;
            continue;
          }
        }
        if expires.Some? {
          var invalid := NewInvalid(expiresCacheKey);
          if invalid.Err? {
            return Err(invalid.error);
          }
          var k := NewExpires(invalid.value, expires.value, now);
          if k.Err? {
            return Err(k.error);
          }
          return Ok(Some(k.value));
        }
        return Ok(None);
      }
      if expires.Some? {
        var k := NewExpires(Compound(parts), expires.value, now);
        if k.Err? {
          return Err(k.error);
        }
        return Ok(Some(k.value));
      }
      return Ok(Some(Compound(parts)));
    }

    /**
     * `setup(stream)`. A caching pipeline wraps the stream in a fresh
     * `CachingOutputStream` first, so the `null` check that follows never
     * fails for it; it then sets up its components and finally computes
     * its cache key.
     */
    method Setup(outputStream: Option<seq<byte>>, now: int) returns (outcome: Outcome)
      requires IsLong(now)
      modifies this`trace, this`target, this`sinks, this`setupDone, this`cacheKey
      ensures mode == Plain && outputStream.None? ==>
        outcome == Fail(Exception.Setup(ERR_MSG_NO_STREAM)) && trace == old(trace) && target == old(target)
        && sinks == old(sinks) && setupDone == old(setupDone) && cacheKey == old(cacheKey)
      ensures mode != Plain || outputStream.Some? ==> trace == old(trace) + SetupComponents(components).calls
      ensures (mode != Plain || outputStream.Some?) && SetupComponents(components).outcome.Fail? ==>
        outcome == SetupComponents(components).outcome && target == old(target) && setupDone == old(setupDone) && cacheKey == old(cacheKey)
      ensures (mode != Plain || outputStream.Some?) && SetupComponents(components).outcome.Pass? ==> target == SetupStream && setupDone
      ensures mode != Plain ==> sinks == Sinks(outputStream, Some([]), old(sinks).refresh)
      ensures mode == Plain && outputStream.Some? ==>
        sinks == (if SetupComponents(components).outcome.Pass? then old(sinks).(output := outputStream) else old(sinks))
      ensures mode == Plain && outputStream.Some? && SetupComponents(components).outcome.Pass? ==> outcome == Pass && cacheKey == old(cacheKey)
      ensures mode != Plain && SetupComponents(components).outcome.Pass? ==>
        var k := CacheKeyFor(components, expires, expiresCacheKey, now);
        (k.Ok? ==> outcome == Pass && cacheKey == k.value) && (k.Err? ==> outcome == Fail(k.error) && cacheKey == old(cacheKey))
    {
      if mode == Plain {
        if outputStream.None? {
          return Fail(Exception.Setup(ERR_MSG_NO_STREAM));
        }
        outcome := SetupComponentsLoop();
        if outcome.Fail? {
          return;
        }
        sinks := sinks.(output := outputStream);
        setupDone := true;
        return;
      }
      sinks := Sinks(outputStream, Some([]), sinks.refresh);
      outcome := SetupComponentsLoop();
      if outcome.Fail? {
        return;
      }
      setupDone := true;
      var key := ConstructCacheKey(now);
      if key.Err? {
        return Fail(key.error);
      }
      cacheKey := key.value;
      return Pass;
    }

    /** `invokeStarter`: runs the Starter, then `finish` on every component in list order, whether or not the Starter threw. */
    method InvokeStarter(run: Run) returns (outcome: Outcome)
      modifies this`trace, this`sinks
      ensures (outcome, sinks) == StarterOutcome(components, target, old(sinks), run)
      ensures trace == old(trace) + RunCalls(components)
    {
      var result := StarterOutcome(components, target, sinks, run);
      if components != [] && components[0].starter {
        trace := trace + [Started(0)];
      }
      outcome, sinks := result.0, result.1;
      FinishAll();
    }

    /** The `finally` block of `invokeStarter`: `finish` on every component, in list order. */
    method FinishAll()
      modifies this`trace
      ensures trace == old(trace) + Finishes(|components|)
    {
      var i := 0;
      while i < |components|
        invariant 0 <= i <= |components|
        invariant trace == old(trace) + Finishes(i)
      {
        trace := trace + [Finished(i)];
        i := i + 1;
      }
    }

    /** `getCachedValue`: `null` without a key or without a cache, else whatever is stored, valid or not. */
    function GetCachedValue(key: Option<CacheKey>): (r: Option<CacheValue>)
      reads this, cache
      ensures key.None? || cache == null ==> r.None?
      ensures key.Some? && cache != null ==> r == Get(cache.hash, cache.entries, key, true)
    {
      if key.None? || cache == null then None else cache.GetValue(key, true)
    }

    /** `setCachedValue`: a no-op without a key or without a cache. */
    method SetCachedValue(key: Option<CacheKey>, value: CacheValue)
      requires Valid()
      modifies cache
      ensures Valid()
      ensures cache != null && key.None? ==> cache.entries == old(cache.entries)
      ensures cache != null && key.Some? ==> cache.entries == Stored(cache.hash, old(cache.entries), key, Some(value))
    {
      if key.None? || cache == null {
        return;
      }
      cache.Put(key, Some(value));
    }

    /** The miss path shared by both caching pipelines: run the chain, then store everything the caching stream has buffered. */
    method RunAndStore(run: Run) returns (outcome: Outcome)
      requires Valid()
      modifies this`trace, this`sinks, cache
      ensures Valid()
      ensures (outcome, sinks) == MissOutcome(components, target, old(sinks), run)
      ensures trace == old(trace) + RunCalls(components)
      ensures cache != null && (outcome.Fail? || cacheKey.None?) ==> cache.entries == old(cache.entries)
      ensures cache != null && outcome.Pass? && cacheKey.Some? ==>
        cache.entries == Stored(cache.hash, old(cache.entries), cacheKey, Some(Complete(sinks.tee.value, cacheKey)))
    {
      outcome := InvokeStarter(run);
      if outcome.Fail? {
        return;
      }
      if sinks.tee.None? {
        return Fail(NullPointer);
      }
      SetCachedValue(cacheKey, Complete(sinks.tee.value, cacheKey));
    }

    /** `AbstractPipeline.execute`: only a set-up pipeline runs its chain. */
    method ExecutePlain(run: Run) returns (outcome: Outcome)
      requires mode == Plain
      modifies this`trace, this`sinks
      ensures !setupDone ==> outcome == Fail(Processing(ERR_MSG_NOT_SET_UP)) && trace == old(trace) && sinks == old(sinks)
      ensures setupDone ==> (outcome, sinks) == StarterOutcome(components, target, old(sinks), run) && trace == old(trace) + RunCalls(components)
    {
      if !setupDone {
        return Fail(Processing(ERR_MSG_NOT_SET_UP));
      }
      outcome := InvokeStarter(run);
    }

    /**
     * `CachingPipeline.execute`, which does not check that setup was done:
     * a valid stored value is written out and nothing runs; otherwise the
     * chain runs and its output is stored under the pipeline's key.
     */
    method ExecuteCaching(run: Run) returns (outcome: Outcome)
      requires mode == Caching && Valid()
      modifies this`trace, this`sinks, cache
      ensures Valid()
      ensures var stored := old(GetCachedValue(cacheKey));
        stored.Some? && IsValid(stored.value, cacheKey) ==>
          (outcome, sinks) == WriteStored(old(sinks), stored.value) && trace == old(trace)
          && (cache != null ==> cache.entries == old(cache.entries))
      ensures var stored := old(GetCachedValue(cacheKey));
        !(stored.Some? && IsValid(stored.value, cacheKey)) ==>
          (outcome, sinks) == MissOutcome(components, target, old(sinks), run) && trace == old(trace) + RunCalls(components)
          && (cache != null && (outcome.Fail? || cacheKey.None?) ==> cache.entries == old(cache.entries))
          && (cache != null && outcome.Pass? && cacheKey.Some? ==>
            cache.entries == Stored(cache.hash, old(cache.entries), cacheKey, Some(Complete(sinks.tee.value, cacheKey))))
    {
      var stored := GetCachedValue(cacheKey);
      if stored.Some? && IsValid(stored.value, cacheKey) {
        var written := WriteStored(sinks, stored.value);
        outcome, sinks := written.0, written.1;
        return;
      }
      outcome := RunAndStore(run);
    }

    /**
     * `AsyncCachePipeline.execute`: the key is computed afresh; any stored
     * value, valid or not, is written out, and a stale one is handed to the
     * refresh manager; only when nothing is stored does the chain run.
     */
    method ExecuteAsync(run: Run, now: int) returns (outcome: Outcome)
      requires mode == Async && Valid() && IsLong(now)
      requires refreshManager != null ==> refreshManager.Valid()
      modifies this`trace, this`sinks, this`cacheKey, cache, refreshManager
      ensures Valid()
      ensures refreshManager != null ==> refreshManager.Valid()
      ensures var k := CacheKeyFor(components, expires, expiresCacheKey, now);
        k.Err? ==>
          outcome == Fail(k.error) && cacheKey == old(cacheKey) && trace == old(trace) && sinks == old(sinks)
          && (cache != null ==> cache.entries == old(cache.entries))
          && (refreshManager != null ==> refreshManager.jobs == old(refreshManager.jobs))
      ensures var k := CacheKeyFor(components, expires, expiresCacheKey, now);
        k.Ok? ==> cacheKey == k.value
      ensures var k := CacheKeyFor(components, expires, expiresCacheKey, now);
        k.Ok? && old(GetCachedValue(k.value)).Some? ==>
          var stored := old(GetCachedValue(k.value)).value;
          var written := WriteStored(old(sinks), stored);
          sinks == written.1 && trace == old(trace) && (cache != null ==> cache.entries == old(cache.entries))
          && (written.0.Fail? || IsValid(stored, k.value) ==>
            outcome == written.0 && (refreshManager != null ==> refreshManager.jobs == old(refreshManager.jobs)))
          && (written.0.Pass? && !IsValid(stored, k.value) && refreshManager == null ==> outcome == Fail(NullPointer))
          && (written.0.Pass? && !IsValid(stored, k.value) && refreshManager != null ==>
            outcome == Pass
            && (old(IsPending(refreshManager.pending, k.value.value)) ==> refreshManager.jobs == old(refreshManager.jobs))
            && (!old(IsPending(refreshManager.pending, k.value.value)) ==>
              refreshManager.jobs == old(refreshManager.jobs) + [RefreshJob(k.value.value, this)]))
      ensures var k := CacheKeyFor(components, expires, expiresCacheKey, now);
        k.Ok? && old(GetCachedValue(k.value)).None? ==>
          (outcome, sinks) == MissOutcome(components, target, old(sinks), run) && trace == old(trace) + RunCalls(components)
          && (refreshManager != null ==> refreshManager.jobs == old(refreshManager.jobs))
          && (cache != null && (outcome.Fail? || k.value.None?) ==> cache.entries == old(cache.entries))
          && (cache != null && outcome.Pass? && k.value.Some? ==>
            cache.entries == Stored(cache.hash, old(cache.entries), k.value, Some(Complete(sinks.tee.value, k.value))))
    {
      hide CacheKeyFor, NewExpires, NewInvalid, ParseLong, WriteStored, MissOutcome, IsValid, IsPending, Stored;
      var key := ConstructCacheKey(now);
      if key.Err? {
        return Fail(key.error);
      }
      cacheKey := key.value;
      var stored := GetCachedValue(cacheKey);
      if stored.Some? {
        var written := WriteStored(sinks, stored.value);
        outcome, sinks := written.0, written.1;
        if outcome.Fail? || IsValid(stored.value, cacheKey) {
          return;
        }
        if refreshManager == null {
          return Fail(NullPointer);
        }
        refreshManager.RefreshCacheValue(cacheKey.value, this);
        return Pass;
      }
      outcome := RunAndStore(run);
    }

    /**
     * `refresh(key)`: the Finisher is given a fresh buffer for good,
     * the chain runs, and the buffer is stored under the key.
     */
    method Refresh(key: CacheKey, run: Run) returns (outcome: Outcome)
      requires Valid()
      modifies this`trace, this`target, this`sinks, cache
      ensures Valid()
      ensures components == [] ==> outcome == Fail(NoSuchElement) && trace == old(trace)
      ensures components != [] && !components[|components| - 1].finisher ==> outcome == Fail(ClassCast) && trace == old(trace)
      ensures components != [] && components[|components| - 1].finisher ==>
        target == RefreshBuffer && trace == old(trace) + [StreamSet(|components| - 1)] + RunCalls(components)
        && (outcome, sinks) == StarterOutcome(components, RefreshBuffer, old(sinks).(refresh := []), run)
      ensures cache != null && outcome.Pass? ==> cache.entries == Stored(cache.hash, old(cache.entries), Some(key), Some(Complete(sinks.refresh, Some(key))))
      ensures cache != null && outcome.Fail? ==> cache.entries == old(cache.entries)
    {
      if components == [] {
        return Fail(NoSuchElement);
      }
      if !components[|components| - 1].finisher {
        return Fail(ClassCast);
      }
      target := RefreshBuffer;
      trace := trace + [StreamSet(|components| - 1)];
      sinks := sinks.(refresh := []);
      outcome := InvokeStarter(run);
      if outcome.Fail? {
        return;
      }
      SetCachedValue(Some(key), Complete(sinks.refresh, Some(key)));
    }

    /** `getLastModified`: -1 for a plain pipeline and for a caching pipeline without a key, else what the key's reports. */
    function GetLastModified(lastModifiedOf: string -> int): (r: Result<int>)
      reads this
      ensures mode == Plain || cacheKey.None? ==> r == Ok(-1)
      ensures mode != Plain && cacheKey.Some? ==> r == LastModifiedOutcome(cacheKey.value, lastModifiedOf)
      ensures mode != Plain && cacheKey.Some? && NullFree(cacheKey.value) ==> r == Ok(LastModified(cacheKey.value, lastModifiedOf))
    {
      if mode == Plain || cacheKey.None? then Ok(-1)
      else
        if NullFree(cacheKey.value) then NullFreeLastModified(cacheKey.value, lastModifiedOf); LastModifiedOutcome(cacheKey.value, lastModifiedOf)
        else LastModifiedOutcome(cacheKey.value, lastModifiedOf)
    }

    /** `getContentType`: the last component's, which must be a Finisher. */
    function GetContentType(): (r: Result<Option<string>>)
      reads this
      ensures components == [] ==> r == Err(NoSuchElement)
      ensures components != [] && !components[|components| - 1].finisher ==> r == Err(ClassCast)
      ensures components != [] && components[|components| - 1].finisher ==> r == Ok(components[|components| - 1].contentType)
    {
      if components == [] then Err(NoSuchElement)
      else if !components[|components| - 1].finisher then Err(ClassCast)
      else Ok(components[|components| - 1].contentType)
    }
  }
}
