// The application state shared by the HTTP worker and the swap handlers:
// PLAYING when idle, PROCESSING while a command runs, ERROR after a
// failure, with the header's promise that ERROR lasts until reboot.
module AppState {
  /** app_state_t. */
  datatype State = Playing | Processing | Error

  /** The enum's numeric value. */
  function Code(s: State): int
  {
    match s
    case Playing => 0
    case Processing => 1
    case Error => 2
  }

  /** app_state_str over any value the enum variable may hold. */
  function StateStr(code: int): (r: string)
    ensures code == Code(Playing) <==> r == "PLAYING"
    ensures code == Code(Processing) <==> r == "PROCESSING"
    ensures code == Code(Error) <==> r == "ERROR"
    ensures r == "UNKNOWN" <==> !(0 <= code <= 2)
  {
    if code == 0 then "PLAYING"
    else if code == 1 then "PROCESSING"
    else if code == 2 then "ERROR"
    else "UNKNOWN"
  }

  /** The names are distinct, so the code of a known state can be read back from its name. */
  lemma NamesIdentifyStates(a: State, b: State)
    ensures StateStr(Code(a)) == StateStr(Code(b)) ==> a == b
  {
  }

  // ---------------------------------------------------------------------
  // set_state as written, and as the header documents it
  // ---------------------------------------------------------------------

  /** set_state as written: the requested state always replaces the current one. */
  function SetStateAsWritten(current: State, requested: State): State
  {
    requested
  }

  /** The state after a run of transitions under a given rule. */
  function RunAsWritten(start: State, requests: seq<State>): State
    decreases |requests|
  {
    if |requests| == 0 then start
    else RunAsWritten(SetStateAsWritten(start, requests[0]), requests[1..])
  }

  /** As written, the worker's enter_playing after enter_error leaves the device out of ERROR. */
  lemma ErrorNotStickyAsWritten()
    ensures RunAsWritten(Error, [Processing, Playing]) == Playing
    ensures RunAsWritten(Playing, [Error, Playing]) != Error
  {
  }

  /** set_state as app_state.h documents it: ERROR is left only by a reboot (app_state_init). */
  function SetState(current: State, requested: State): (r: State)
    ensures current == Error ==> r == Error
    ensures current != Error ==> r == requested
  {
    if current == Error then Error else requested
  }

  /** The state after a run of transitions under the documented rule. */
  function Run(start: State, requests: seq<State>): State
    decreases |requests|
  {
    if |requests| == 0 then start
    else Run(SetState(start, requests[0]), requests[1..])
  }

  /** Under the documented rule, no sequence of transitions leaves ERROR. */
  lemma {:induction false} ErrorIsSticky(requests: seq<State>)
    ensures Run(Error, requests) == Error
    decreases |requests|
  {
    if |requests| > 0 {
      ErrorIsSticky(requests[1..]);
    }
  }

  /** Without an error request the two rules agree, so the correction changes nothing else. */
  lemma {:induction false} RulesAgreeWithoutError(start: State, requests: seq<State>)
    requires start != Error
    requires forall i :: 0 <= i < |requests| ==> requests[i] != Error
    ensures Run(start, requests) == RunAsWritten(start, requests)
    ensures Run(start, requests) != Error
    decreases |requests|
  {
    if |requests| > 0 {
      RulesAgreeWithoutError(requests[0], requests[1..]);
    }
  }

  /** Once an error is requested, the documented rule ends in ERROR. */
  lemma {:induction false} ErrorRequestEndsInError(start: State, requests: seq<State>, i: nat)
    requires i < |requests| && requests[i] == Error
    ensures Run(start, requests) == Error
    decreases |requests|
  {
    if i == 0 {
      ErrorIsSticky(requests[1..]);
    } else {
      ErrorRequestEndsInError(SetState(start, requests[0]), requests[1..], i - 1);
    }
  }

  /** g_state with its accessors; the mutex only serialises these calls and is not modelled. */
  class AppStateStore {
    var state: State

    /** app_state_init. */
    constructor ()
      ensures state == Playing
    {
      state := Playing;
    }

    /** app_state_get. */
    method Get() returns (s: State)
      ensures s == state
    {
      s := state;
    }

    /** set_state as written: the requested state replaces the current one, ERROR included. */
    method Set(requested: State)
      modifies this
      ensures state == SetStateAsWritten(old(state), requested)
    {
      state := requested;
    }

    /** app_state_enter_playing. */
    method EnterPlaying()
      modifies this
      ensures state == Playing
    {
      Set(Playing);
    }

    /** app_state_enter_processing. */
    method EnterProcessing()
      modifies this
      ensures state == Processing
    {
      Set(Processing);
    }

    /** app_state_enter_error. */
    method EnterError()
      modifies this
      ensures state == Error
    {
      Set(Error);
    }
  }
}
