/** `AsyncCall.execute` and `AsyncCall.executeOn`: the control flow of their try, catch and finally
    blocks. What the interceptor chain, the callback and the executor do is a parameter. These two
    methods justify the `Signal`, `Submit` and `Decrement` steps of the dispatcher's state machine. */
module AsyncCalls {

  /** How a call into foreign code ends. */
  datatype Ending = Returns | ThrowsIO | ThrowsRejected | ThrowsOther

  datatype Attempt = OnResponse | OnFailure

  predicate Fatal(e: Ending) { e == ThrowsRejected || e == ThrowsOther }

  /** `execute`: whatever the chain and the callback do, there is exactly one attempted callback, it is
      `onResponse` exactly when the chain returned a response, and `finished` is called exactly once,
      after it. Each call of `finished` is listed with the number of attempts made before it. */
  method Execute(chain: Ending, onResponse: Ending, onFailure: Ending)
    returns (attempts: seq<Attempt>, finished: seq<nat>, canceled: bool, escapes: Ending)
    ensures attempts == [if chain.Returns? then OnResponse else OnFailure]
    ensures finished == [1]
    ensures canceled <==> Fatal(if chain.Returns? then onResponse else chain)
    ensures escapes.Returns? <==> if chain.Returns? then !Fatal(onResponse) else chain.ThrowsIO? && onFailure.Returns?
  {
    var signalledCallback := false;
    attempts, finished, canceled := [], [], false;
    // try
    var thrown := chain;
    if thrown.Returns? {
      signalledCallback := true;
      attempts := attempts + [OnResponse];
      thrown := onResponse;
    }
    if thrown.ThrowsIO? { // catch (IOException e)
      if signalledCallback {
        thrown := Returns; // logged
      } else {
        attempts := attempts + [OnFailure];
        thrown := onFailure;
      }
    } else if !thrown.Returns? { // catch (Throwable t)
      canceled := true;
      if !signalledCallback {
        attempts := attempts + [OnFailure];
        if !onFailure.Returns? {
          thrown := onFailure;
        }
      }
    }
    // finally
    finished := finished + [|attempts|];
    escapes := thrown;
  }

  /** `executeOn`: a call that the executor accepted is left to `execute`; one that it rejected has one
      attempted `onFailure` and is finished after it, even when the callback throws. */
  method ExecuteOn(executor: Ending, onFailure: Ending)
    returns (attempts: seq<Attempt>, finished: seq<nat>, escapes: Ending)
    ensures executor.Returns? ==> attempts == [] && finished == [] && escapes.Returns?
    ensures executor.ThrowsRejected? ==> attempts == [OnFailure] && finished == [1] && escapes == onFailure
    ensures executor.ThrowsIO? || executor.ThrowsOther? ==> attempts == [] && finished == [0] && escapes == executor
  {
    var success := false;
    attempts, finished := [], [];
    var thrown := executor;
    if thrown.Returns? {
      success := true;
    } else if thrown.ThrowsRejected? { // catch (RejectedExecutionException e)
      attempts := attempts + [OnFailure];
      thrown := onFailure;
    }
    // finally
    if !success {
      finished := finished + [|attempts|];
    }
    escapes := thrown;
  }
}
