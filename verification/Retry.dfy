/** Running a contract verification with retries. */
module Retry {
  import opened Wrappers

  /** What an error's message says; the three texts are looked for independently. */
  datatype Failure = Failure(alreadyVerified: bool, fatal: bool, unableToVerify: bool)

  datatype Action = Run(relatedSources: bool, failure: Option<Failure>) | Cleanup

  class Params {
    var relatedSources: bool

    constructor (relatedSources: bool)
      ensures this.relatedSources == relatedSources
    {
      this.relatedSources := relatedSources;
    }
  }

  /** The environment that runs the contract verification, with whatever outcome. */
  class Environment {
    var log: seq<Action>

    method RunTask(params: Params) returns (failure: Option<Failure>)
      modifies this
      ensures log == old(log) + [Run(params.relatedSources, failure)]
    {
      failure := *;
      log := log + [Run(params.relatedSources, failure)];
    }

    method CleanUp()
      modifies this
      ensures log == old(log) + [Cleanup]
    {
      log := log + [Cleanup];
    }
  }

  predicate Stops(f: Failure) {
    f.alreadyVerified || f.fatal
  }

  /** What one call may do, step by step. */
  predicate Allowed(times: nat, related: bool, trace: seq<Action>) {
    if times == 0 then trace == [Cleanup]
    else
      var related' := related && times > 1;
      && |trace| > 0 && trace[0].Run? && trace[0].relatedSources == related'
      && match trace[0].failure
         case None => trace[1..] == [Cleanup]
         case Some(f) =>
           if Stops(f) then |trace| == 1
           else Allowed(times - 1, related' && !f.unableToVerify, trace[1..])
  }

  method RunTaskWithRetry(env: Environment, params: Params, times: int)
    modifies env, params
    ensures old(env.log) <= env.log
    ensures Allowed(if times < 0 then 0 else times, old(params.relatedSources), env.log[|old(env.log)|..])
    decreases if times < 0 then 0 else times
  {
    if times <= 0 {
      env.CleanUp();
      return;
    }
    if times == 1 {
      params.relatedSources := false;
    }
    var failure := env.RunTask(params);
    if failure.None? {
      env.CleanUp();
      return;
    }
    if Stops(failure.value) {
      return;
    }
    if failure.value.unableToVerify {
      params.relatedSources := false;
    }
    ghost var ran := env.log;
    RunTaskWithRetry(env, params, times - 1);
    assert env.log[|old(env.log)|..][1..] == env.log[|ran|..];
  }

  // ----- what every trace is like -----

  /** How many runs a trace has. */
  function Runs(trace: seq<Action>): nat {
    if trace == [] then 0 else (if trace[0].Run? then 1 else 0) + Runs(trace[1..])
  }

  /** Some run ended in an error that stops the retries without cleaning up. */
  predicate StoppedEarly(trace: seq<Action>) {
    |trace| > 0 &&
    var last := trace[|trace| - 1];
    last.Run? && last.failure.Some? && (last.failure.value.alreadyVerified || last.failure.value.fatal)
  }

  /** A trace is a row of at most times runs, all but the last of which failed in a way worth a retry;
      then comes exactly one cleanup, unless the last run failed in a way that stops, when there is
      none. Retries end early only after a success or such a failure. */
  lemma {:induction false} TraceShape(times: nat, related: bool, t: seq<Action>)
    requires Allowed(times, related, t)
    ensures |t| >= 1 && Runs(t) <= times
    ensures forall i :: 0 <= i < |t| - 1 ==>
              t[i].Run? && (t[i].failure.Some? ==> !t[i].failure.value.alreadyVerified && !t[i].failure.value.fatal)
    ensures forall i :: 0 <= i < |t| - 2 ==> t[i].failure.Some?
    ensures t[|t| - 1].Cleanup? <==> !StoppedEarly(t)
    ensures Runs(t) == if t[|t| - 1].Cleanup? then |t| - 1 else |t|
    ensures t[|t| - 1].Cleanup? ==> Runs(t) == times || t[|t| - 2].failure.None?
  {
    if times == 0 {
      assert t[1..] == [];
    } else if t[0].failure.None? {
      assert t == [t[0], Cleanup] && Runs([Cleanup][1..]) == 0 && Runs([Cleanup]) == 0;
    } else if Stops(t[0].failure.value) {
      assert t[1..] == [];
    } else {
      TraceShape(times - 1, related && times > 1 && !t[0].failure.value.unableToVerify, t[1..]);
    }
  }

  /** The i-th run uses related sources exactly if the call did, a further run was still allowed after
      it, and no earlier run reported that it was unable to verify. */
  lemma {:induction false} RelatedSourcesExactly(times: nat, related: bool, t: seq<Action>, i: nat)
    requires Allowed(times, related, t) && i < |t| && t[i].Run?
    ensures forall j :: 0 <= j < i ==> t[j].Run? && t[j].failure.Some?
    ensures t[i].relatedSources <==>
              related && i + 1 < times && forall j :: 0 <= j < i ==> !t[j].failure.value.unableToVerify
  {
    if i > 0 {
      var related' := related && times > 1 && !t[0].failure.value.unableToVerify;
      RelatedSourcesExactly(times - 1, related', t[1..], i - 1);
      assert forall j :: 1 <= j < i ==> t[j] == t[1..][j - 1];
      assert forall j :: 0 <= j < i - 1 ==> t[1..][j] == t[j + 1];
    }
  }
}
