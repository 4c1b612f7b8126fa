/** The trampoline of TailCall.java: a computation is either finished
    (Return) or one deferred step away from its continuation (Suspend). */
module TailCalls {
  import opened Results

  datatype TailCall<T> = Return(t: T) | Suspend(resume: () -> TailCall<T>)
  {
    /** Return.isSuspend answers false, Suspend.isSuspend answers true. */
    predicate IsSuspend()
      ensures IsSuspend() <==> !Return?
    {
      match this
      case Return(_) => false
      case Suspend(_) => true
    }

    /** Return.resume throws; Suspend.resume runs the deferred step once. */
    function Resume(): (r: Result<TailCall<T>>)
      ensures r.Failure? <==> Return?
      ensures r.Failure? ==> r.fault == IllegalState("Return has no resume")
      ensures Suspend? ==> r == Success(resume())
    {
      match this
      case Return(_) => Failure(IllegalState("Return has no resume"))
      case Suspend(k) => Success(k())
    }

    /** The chain of steps starting here reaches a Return after at most n
        resumes. A thunk may go on forever, so this is what eval needs. */
    ghost predicate HaltsWithin(n: nat)
      decreases n
    {
      Return? || (n > 0 && resume().HaltsWithin(n - 1))
    }

    ghost predicate Halts()
    {
      exists n: nat :: HaltsWithin(n)
    }

    /** The value the chain reaches, by direct recursion on the steps; the
        bound n is a ghost witness of termination and does not change the
        value (see RunBoundIrrelevant). */
    function Run(ghost n: nat): T
      requires HaltsWithin(n)
      decreases n
    {
      if Return? then t else resume().Run(n - 1)
    }

    /** Suspend.eval: resume while suspended, then answer the value of the
        Return reached; Return.eval answers its own value. */
    method Eval() returns (r: T)
      requires Halts()
      ensures Return? ==> r == t
      ensures forall n: nat :: HaltsWithin(n) ==> r == Run(n)
    {
      ghost var bound: nat :| HaltsWithin(bound);
      var tailRec := this;
      ghost var k := bound;
      while tailRec.IsSuspend()
        invariant tailRec.HaltsWithin(k)
        invariant tailRec.Run(k) == Run(bound)
        decreases k
      {
        tailRec := tailRec.resume();
        k := k - 1;
      }
      r := tailRec.t;
      forall n: nat | HaltsWithin(n)
        ensures r == Run(n)
      {
        RunBoundIrrelevant(this, bound, n);
      }
    }
  }

  /** Any two termination bounds give the same value. */
  lemma {:induction false} RunBoundIrrelevant<T>(tc: TailCall<T>, n: nat, m: nat)
    requires tc.HaltsWithin(n) && tc.HaltsWithin(m)
    ensures tc.Run(n) == tc.Run(m)
    decreases n
  {
    if tc.Suspend? {
      RunBoundIrrelevant(tc.resume(), n - 1, m - 1);
    }
  }

  /** Evaluating a Suspend is evaluating what its resume yields: the chain
      halts exactly when its continuation does, and with the same value. */
  lemma ResumeKeepsValue<T>(tc: TailCall<T>)
    requires tc.Suspend?
    ensures tc.Halts() <==> tc.Resume().value.Halts()
    ensures forall n: nat, m: nat | tc.HaltsWithin(n) && tc.Resume().value.HaltsWithin(m) ::
      tc.Run(n) == tc.Resume().value.Run(m)
  {
    var next := tc.resume();
    if tc.Halts() {
      var n: nat :| tc.HaltsWithin(n);
      assert next.HaltsWithin(n - 1);
    }
    if next.Halts() {
      var m: nat :| next.HaltsWithin(m);
      assert tc.HaltsWithin(m + 1);
    }
    forall n: nat, m: nat | tc.HaltsWithin(n) && next.HaltsWithin(m)
      ensures tc.Run(n) == next.Run(m)
    {
      RunBoundIrrelevant(next, n - 1, m);
    }
  }
}
