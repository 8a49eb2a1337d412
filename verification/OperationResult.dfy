/** The one-shot result of an operation. It leaves pending once, by the first call that
    finishes or cancels it; every later call changes nothing. */
module OperationResultClass {
  import opened Wrappers

  datatype State = Pending | Returned | Cancelled

  datatype Error = NotFinished | WasCancelled

  datatype Held<T> = Value(value: T) | Failed(error: Error)

  /** What someone asked of the result: a worker that ran the operation, or a cancel. */
  datatype Attempt<T> = Finishes(value: T) | Cancels

  /** What a result holds after the attempts made on it: the first one decides. */
  function Decided<T>(attempts: seq<Attempt<T>>): Held<T> {
    if attempts == [] then Failed(NotFinished)
    else match attempts[0]
      case Finishes(value) => Value(value)
      case Cancels => Failed(WasCancelled)
  }

  /** Once decided, a result stays as it is whatever is asked of it later. */
  lemma DecidedStays<T>(earlier: seq<Attempt<T>>, later: seq<Attempt<T>>)
    ensures Decided(earlier) != Failed(NotFinished) ==> Decided(earlier + later) == Decided(earlier)
    ensures Decided(earlier) == Failed(NotFinished) <==> earlier == []
  {
    if earlier != [] {
      assert (earlier + later)[0] == earlier[0];
    }
  }

  class OperationResult<T> {
    var state: State
    var value: Option<T>
    ghost var attempts: seq<Attempt<T>>

    ghost predicate Valid()
      reads this
    {
      && (state.Pending? <==> attempts == [])
      && (state.Returned? <==> value.Some?)
      && (state.Returned? ==> Decided(attempts) == Value(value.value))
      && (state.Cancelled? ==> Decided(attempts) == Failed(WasCancelled))
    }

    constructor ()
      ensures Valid() && attempts == []
    {
      state, value, attempts := Pending, None, [];
    }

    method IsFinished() returns (finished: bool)
      requires Valid()
      ensures finished <==> attempts != []
    {
      finished := !state.Pending?;
    }

    method GetHeld() returns (held: Held<T>)
      requires Valid()
      ensures held == Decided(attempts)
    {
      if state.Pending? {
        return Failed(NotFinished);
      }
      if state.Cancelled? {
        return Failed(WasCancelled);
      }
      held := Value(value.value);
    }

    method Finish(v: T)
      requires Valid()
      modifies this
      ensures Valid() && attempts == old(attempts) + [Finishes(v)]
      ensures old(attempts) != [] ==> state == old(state) && value == old(value)
    {
      attempts := attempts + [Finishes(v)];
      if !state.Pending? {
        return;
      }
      value := Some(v);
      state := Returned;
    }

    method Cancel()
      requires Valid()
      modifies this
      ensures Valid() && attempts == old(attempts) + [Cancels]
      ensures old(attempts) != [] ==> state == old(state) && value == old(value)
    {
      attempts := attempts + [Cancels];
      if !state.Pending? {
        return;
      }
      state := Cancelled;
    }
  }
}
