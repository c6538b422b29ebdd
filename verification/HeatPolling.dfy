// The polling loops of the OpenStack driver
// (apmec/mem/infra_drivers/openstack/openstack.py): create_wait, delete_wait and scale_wait.
// Heat's answers come from outside, one per request.
module HeatPolling {

  datatype StackStatus =
    | CREATE_IN_PROGRESS
    | CREATE_COMPLETE
    | DELETE_IN_PROGRESS
    | DELETE_COMPLETE
    | OTHER(name: string)

  datatype Answer = Stack(status: StackStatus) | HttpNotFound | ApiError

  // A wait returns, raises its own WaitFailed error, or lets another exception escape.
  datatype Wait = Returned | WaitFailed | Escaped

  // Request k leaves the loop waiting. The first request is not guarded by a try block.
  predicate Undecided(answer: nat -> Answer, k: nat, waiting: StackStatus, notFoundEnds: bool) {
    || answer(k) == Stack(waiting)
    || (k > 0 && (answer(k) == ApiError || (answer(k) == HttpNotFound && !notFoundEnds)))
  }

  // Request k is the first that settles the wait, and it is asked within the retries.
  ghost predicate Settles(answer: nat -> Answer, k: nat, retries: int, waiting: StackStatus, notFoundEnds: bool) {
    && (k == 0 || k <= retries)
    && !Undecided(answer, k, waiting, notFoundEnds)
    && forall j: nat | j < k :: Undecided(answer, j, waiting, notFoundEnds)
  }

  // The first telling answer within the retries says that the creation is complete.
  ghost predicate Completes(answer: nat -> Answer, stackRetries: int) {
    exists k: nat :: Settles(answer, k, stackRetries, CREATE_IN_PROGRESS, false) && answer(k) == Stack(CREATE_COMPLETE)
  }

  // The answers one after the other; after the last Heat cannot be reached.
  function From(answers: seq<Answer>): nat -> Answer {
    (k: nat) => if k < |answers| then answers[k] else ApiError
  }

  // How create_wait ends.
  ghost function CreateOutcome(answer: nat -> Answer, stackRetries: int, lookedUp: bool): Wait {
    if !answer(0).Stack? then Escaped
    else if !Completes(answer, stackRetries) then WaitFailed
    else if lookedUp then Returned
    else Escaped
  }

  // create_wait returns exactly when the creation completes in time and the addresses can then be
  // looked up, by more requests to Heat if the MEA scales. Nothing guards that look-up, nor the
  // first request; a failing request during the wait is no answer.
  method CreateWait(answer: nat -> Answer, stackRetries: int, lookedUp: bool) returns (r: Wait)
    ensures r == Returned <==> Completes(answer, stackRetries) && lookedUp
    ensures r == Escaped <==> !answer(0).Stack? || (Completes(answer, stackRetries) && !lookedUp)
    ensures r == CreateOutcome(answer, stackRetries, lookedUp)
  {
    if !answer(0).Stack? {
      assert !Undecided(answer, 0, CREATE_IN_PROGRESS, false);
      return Escaped;
    }
    var status := answer(0).status;
    var retries := stackRetries;
    var asked: nat := 0;
    while status == CREATE_IN_PROGRESS && retries > 0
      invariant retries == stackRetries - asked && (asked == 0 || 0 <= retries)
      invariant forall j: nat | j < asked :: Undecided(answer, j, CREATE_IN_PROGRESS, false)
      invariant if Undecided(answer, asked, CREATE_IN_PROGRESS, false) then status == CREATE_IN_PROGRESS
                else answer(asked) == Stack(status)
      decreases retries
    {
      asked := asked + 1;
      if answer(asked).Stack? {
        status := answer(asked).status;
      }
      retries := retries - 1;
    }
    if status != CREATE_COMPLETE {
      return WaitFailed;
    }
    assert Settles(answer, asked, stackRetries, CREATE_IN_PROGRESS, false);
    return if lookedUp then Returned else Escaped;
  }

  // delete_wait also returns once Heat no longer knows the stack, except on the very first
  // request: a stack that is gone before the wait begins makes the wait raise.
  method DeleteWait(answer: nat -> Answer, stackRetries: int) returns (r: Wait)
    ensures r == Returned <==>
            exists k: nat :: Settles(answer, k, stackRetries, DELETE_IN_PROGRESS, true)
                             && (answer(k) == Stack(DELETE_COMPLETE) || (answer(k) == HttpNotFound && k > 0))
    ensures r == Escaped <==> !answer(0).Stack?
  {
    if !answer(0).Stack? {
      assert !Undecided(answer, 0, DELETE_IN_PROGRESS, true);
      return Escaped;
    }
    var status := answer(0).status;
    var retries := stackRetries;
    var asked: nat := 0;
    while status == DELETE_IN_PROGRESS && retries > 0
      invariant retries == stackRetries - asked && (asked == 0 || 0 <= retries)
      invariant forall j: nat | j < asked :: Undecided(answer, j, DELETE_IN_PROGRESS, true)
      invariant if Undecided(answer, asked, DELETE_IN_PROGRESS, true) then status == DELETE_IN_PROGRESS
                else answer(asked) == Stack(status)
      decreases retries
    {
      asked := asked + 1;
      if answer(asked) == HttpNotFound {
        assert Settles(answer, asked, stackRetries, DELETE_IN_PROGRESS, true);
        return Returned;
      }
      if answer(asked).Stack? {
        status := answer(asked).status;
      }
      retries := retries - 1;
    }
    if status == DELETE_COMPLETE {
      assert Settles(answer, asked, stackRetries, DELETE_IN_PROGRESS, true);
      return Returned;
    }
    return WaitFailed;
  }

  // A stack that is already gone when the wait begins makes it raise, although nothing is left
  // to delete.
  method GoneBeforeWait(stackRetries: int) returns (r: Wait)
    ensures r == Escaped
  {
    r := DeleteWait(k => HttpNotFound, stackRetries);
  }

  // The last event of a scaling policy, or a request that fails or finds none.
  datatype Signal = Event(id: nat, complete: bool) | SignalError

  // Heat's word on whether a scaling is in progress, asked for outside the try block.
  datatype Metadata = InProgress(yes: bool) | MetadataError

  predicate Fresh(s: Signal, lastEvent: nat) {
    s.Event? && s.id != lastEvent && s.complete
  }

  // Request k says nothing new.
  predicate Stale(signal: nat -> Signal, lastEvent: nat, k: nat) {
    signal(k).Event? && !Fresh(signal(k), lastEvent)
  }

  // Request k is the first to say something.
  ghost predicate Speaks(signal: nat -> Signal, lastEvent: nat, stackRetries: nat, k: nat) {
    k <= stackRetries && !Stale(signal, lastEvent, k) && forall j: nat | j < k :: Stale(signal, lastEvent, j)
  }

  ghost predicate Signalled(signal: nat -> Signal, lastEvent: nat, stackRetries: nat) {
    exists k: nat :: Speaks(signal, lastEvent, stackRetries, k) && Fresh(signal(k), lastEvent)
  }

  ghost predicate Breaks(signal: nat -> Signal, lastEvent: nat, stackRetries: nat) {
    exists k: nat :: Speaks(signal, lastEvent, stackRetries, k) && signal(k).SignalError?
  }

  // scale_wait ends the waiting well when a new SIGNAL_COMPLETE event shows up before any request
  // fails, or when the retries run out quietly and Heat says no scaling is in progress. It then
  // still has to look up the addresses, unguarded. A scaling that is still in progress is
  // reported with a format that Python refuses, so that error never comes out as WaitFailed:
  // only a failing request makes it raise that.
  method ScaleWait(signal: nat -> Signal, lastEvent: nat, stackRetries: nat, metadata: Metadata, lookedUp: bool)
    returns (r: Wait)
    ensures r == WaitFailed <==> Breaks(signal, lastEvent, stackRetries)
    ensures r == Returned <==>
            && lookedUp && !Breaks(signal, lastEvent, stackRetries)
            && (Signalled(signal, lastEvent, stackRetries) || metadata == InProgress(false))
  {
    var retries := stackRetries;
    var asked: nat := 0;
    while !Fresh(signal(asked), lastEvent)
      invariant retries == stackRetries - asked && 0 <= retries
      invariant forall j: nat | j < asked :: Stale(signal, lastEvent, j)
      decreases retries
    {
      if signal(asked).SignalError? {
        assert Speaks(signal, lastEvent, stackRetries, asked);
        return WaitFailed;
      }
      if retries == 0 {
        assert forall j: nat | j <= stackRetries :: Stale(signal, lastEvent, j);
        if metadata != InProgress(false) {
          return Escaped;
        }
        return if lookedUp then Returned else Escaped;
      }
      retries := retries - 1;
      asked := asked + 1;
    }
    assert Speaks(signal, lastEvent, stackRetries, asked);
    return if lookedUp then Returned else Escaped;
  }

  // No signal in time and a scaling still in progress: the error that comes out is not the one
  // scale_wait is meant to raise.
  method StillScaling(lastEvent: nat, stackRetries: nat, lookedUp: bool) returns (r: Wait)
    ensures r == Escaped
  {
    r := ScaleWait(k => Event(lastEvent, true), lastEvent, stackRetries, InProgress(true), lookedUp);
  }
}
