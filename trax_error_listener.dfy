/**
 * `TraxErrorListener`: the error listener of an XSLT transformation. A
 * warning is kept back; an error or fatal error without a cause that
 * follows a warning is replaced by that warning (the stylesheet-directed
 * termination of an XSLT processor first warns with the useful message,
 * then reports a bare error). The exception thrown last is recorded, and
 * `getThrowable` unwraps its cause. Logging is not modelled.
 */
module TraxErrorListeners {
  import opened Wrappers

  /** A `TransformerException`, or any other `Throwable`, with its message and its cause. */
  datatype Failure = Failure(message: string, cause: Option<Failure>)

  /** The two fields the callbacks set: `exception` and `warningEx`. */
  datatype ListenerState = ListenerState(exception: Option<Failure>, warning: Option<Failure>)

  /** One callback. */
  datatype Report = Warning(ex: Failure) | Error(ex: Failure) | FatalError(ex: Failure)

  /** The exception `error` and `fatalError` record and rethrow. */
  function Thrown(s: ListenerState, ex: Failure): (r: Failure)
    ensures s.warning.Some? && ex.cause.None? ==> r == s.warning.value
    ensures s.warning.None? || ex.cause.Some? ==> r == ex
  {
    if s.warning.Some? && ex.cause.None? then s.warning.value else ex
  }

  /** The state after a callback. */
  function OnReport(s: ListenerState, report: Report): (r: ListenerState)
    ensures report.Warning? ==> r == ListenerState(s.exception, Some(report.ex))
    ensures !report.Warning? ==> r == ListenerState(Some(Thrown(s, report.ex)), None)
  {
    match report
    case Warning(ex) => ListenerState(s.exception, Some(ex))
    case Error(ex) => ListenerState(Some(Thrown(s, ex)), None)
    case FatalError(ex) => ListenerState(Some(Thrown(s, ex)), None)
  }

  /** The state after a sequence of callbacks. */
  function Replay(s: ListenerState, reports: seq<Report>): ListenerState
    decreases |reports|
  {
    if reports == [] then s else OnReport(Replay(s, reports[..|reports| - 1]), reports[|reports| - 1])
  }

  /** `getThrowable`: `null` when nothing was recorded, else the recorded exception's cause, else the exception. */
  function Throwable(s: ListenerState): (r: Option<Failure>)
    ensures r.None? <==> s.exception.None?
    ensures s.exception.Some? && s.exception.value.cause.Some? ==> r == s.exception.value.cause
    ensures s.exception.Some? && s.exception.value.cause.None? ==> r == s.exception
  {
    if s.exception.None? then None
    else if s.exception.value.cause.Some? then s.exception.value.cause
    else s.exception
  }

  /** A warning never changes what `getThrowable` reports. */
  lemma WarningKeepsThrowable(s: ListenerState, ex: Failure)
    ensures Throwable(OnReport(s, Warning(ex))) == Throwable(s)
  {
  }

  /** `error` and `fatalError` have the same effect in every state. */
  lemma FatalErrorIsError(s: ListenerState, ex: Failure)
    ensures OnReport(s, FatalError(ex)) == OnReport(s, Error(ex))
  {
  }

  /**
   * A warning followed by an error without a cause records the warning,
   * so the warning's message is the one reported afterwards.
   */
  lemma {:induction false} WarningThenBareError(s: ListenerState, w: Failure, message: string)
    ensures var after := Replay(s, [Warning(w), Error(Failure(message, None))]);
      after == ListenerState(Some(w), None) &&
      Throwable(after) == (if w.cause.Some? then w.cause else Some(w))
  {
    var reports := [Warning(w), Error(Failure(message, None))];
    assert reports[..1] == [Warning(w)];
    assert [Warning(w)][..0] == [];
    assert Replay(s, [Warning(w)]) == ListenerState(s.exception, Some(w));
  }

  /** An error with a cause is recorded as it is, whatever warning came before. */
  lemma ErrorWithCauseRecorded(s: ListenerState, ex: Failure)
    requires ex.cause.Some?
    ensures Throwable(OnReport(s, Error(ex))) == ex.cause
  {
  }

  /**
   * After an error the pending warning is gone: a later error without a
   * cause is recorded as itself unless a new warning came in between.
   */
  lemma {:induction false} ErrorClearsWarning(s: ListenerState, first: Failure, reports: seq<Report>, ex: Failure)
    requires forall k :: 0 <= k < |reports| ==> !reports[k].Warning?
    ensures Replay(s, [Error(first)] + reports + [Error(ex)]).exception == Some(ex)
    ensures Replay(s, [Error(first)] + reports).warning.None?
    decreases |reports|
  {
    var all := [Error(first)] + reports;
    assert (all + [Error(ex)])[..|all|] == all;
    if reports == [] {
      assert all[..0] == [];
    } else {
      var shorter := reports[..|reports| - 1];
      assert all[..|all| - 1] == [Error(first)] + shorter;
      ErrorClearsWarning(s, first, shorter, ex);
    }
  }

  /** The last error's exception is recorded, or the warning just before it when the exception has no cause. */
  lemma LastErrorRecorded(s: ListenerState, reports: seq<Report>, ex: Failure)
    ensures var before := Replay(s, reports);
      Replay(s, reports + [Error(ex)]).exception == Some(if before.warning.Some? && ex.cause.None? then before.warning.value else ex)
  {
    assert (reports + [Error(ex)])[..|reports|] == reports;
  }

  class TraxErrorListener {
    var exception: Option<Failure>
    var warningEx: Option<Failure>
    /** The stylesheet's location, used only in log messages. */
    const uri: string

    function State(): ListenerState
      reads this
    {
      ListenerState(exception, warningEx)
    }

    constructor (uri: string)
      ensures State() == ListenerState(None, None) && this.uri == uri
    {
      exception := None;
      warningEx := None;
      this.uri := uri;
    }

    /** `error`: always rethrows; `thrown` is the exception it throws. */
    method Error(ex: Failure) returns (thrown: Failure)
      modifies this
      ensures thrown == Thrown(old(State()), ex) && State() == OnReport(old(State()), Report.Error(ex))
    {
      var e := ex;
      if warningEx.Some? && e.cause.None? {
        e := warningEx.value;
      }
      warningEx := None;
      exception := Some(e);
      return e;
    }

    /** `fatalError`: written out again in the source, with exactly the behaviour of `error`. */
    method FatalError(ex: Failure) returns (thrown: Failure)
      modifies this
      ensures thrown == Thrown(old(State()), ex) && State() == OnReport(old(State()), Report.FatalError(ex))
    {
      var e := ex;
      if warningEx.Some? && e.cause.None? {
        e := warningEx.value;
      }
      warningEx := None;
      exception := Some(e);
      return e;
    }

    /** `warning`: the exception is kept as the pending warning and nothing is thrown. */
    method Warning(ex: Failure)
      modifies this
      ensures State() == OnReport(old(State()), Report.Warning(ex))
    {
      warningEx := Some(ex);
    }

    method GetThrowable() returns (r: Option<Failure>)
      ensures r == Throwable(State())
    {
      if exception.None? {
        return None;
      }
      if exception.value.cause.Some? {
        return exception.value.cause;
      }
      return exception;
    }
  }
}
