/**
 * The React reducer of the push context (`contexts/PushReducer.ts`). Each of
 * its two actions replaces one client; the SDK objects are opaque type
 * parameters and the setters opaque callbacks.
 */
module PushReducer {
  import opened Wrappers

  datatype PushState<Core, !Auth, !Push> = PushState(
    core: Core,
    authClient: Option<Auth>,
    setAuthClient: Auth -> (),
    pushClient: Option<Push>,
    setPushClient: Push -> ())

  /** An action type the reducer does not recognise. */
  type OtherKind = k: string | k != "SET_AUTH_CLIENT" && k != "SET_PUSH_CLIENT" witness ""

  /** `SET_AUTH_CLIENT`, `SET_PUSH_CLIENT`, or any other action type. */
  datatype Action<Auth, Push> = SetAuthClient(auth: Auth) | SetPushClient(push: Push) | Other(kind: OtherKind)

  function Reduce<Core, Auth, Push>(state: PushState<Core, Auth, Push>, action: Action<Auth, Push>): (next: PushState<Core, Auth, Push>)
    // the core and the setters are never replaced
    ensures next.core == state.core
    ensures next.setAuthClient == state.setAuthClient && next.setPushClient == state.setPushClient
    // each action writes its own client and leaves the other one alone
    ensures next.pushClient == if action.SetPushClient? then Some(action.push) else state.pushClient
    ensures next.authClient == if action.SetAuthClient? then Some(action.auth) else state.authClient
  {
    match action
    case SetPushClient(push) => state.(pushClient := Some(push))
    case SetAuthClient(auth) => state.(authClient := Some(auth))
    case Other(_) => state
  }

  /** An unknown action type returns the state it was given. */
  lemma OtherActionKeepsState<Core, Auth, Push>(state: PushState<Core, Auth, Push>, kind: OtherKind)
    ensures Reduce(state, Other(kind)) == state
  {
  }

  /** Dispatching the same action twice is the same as dispatching it once. */
  lemma ReduceIdempotent<Core, Auth, Push>(state: PushState<Core, Auth, Push>, action: Action<Auth, Push>)
    ensures Reduce(Reduce(state, action), action) == Reduce(state, action)
  {
  }

  /** The two setters write disjoint fields, so their order does not matter. */
  lemma SettersCommute<Core, Auth, Push>(state: PushState<Core, Auth, Push>, auth: Auth, push: Push)
    ensures Reduce(Reduce(state, SetAuthClient(auth)), SetPushClient(push)) ==
            Reduce(Reduce(state, SetPushClient(push)), SetAuthClient(auth))
  {
  }

  /** The state `useReducer` holds after the actions are dispatched in order. */
  function Replay<Core, Auth, Push>(state: PushState<Core, Auth, Push>, actions: seq<Action<Auth, Push>>): PushState<Core, Auth, Push> {
    if actions == [] then state
    else Reduce(Replay(state, actions[..|actions| - 1]), actions[|actions| - 1])
  }

  /**
   * After a run of dispatches the push client is the payload of the last
   * `SET_PUSH_CLIENT`, or the initial one when there was none; the core and
   * the setters are the initial ones.
   */
  lemma {:induction false} ReplayLastPushClientWins<Core, Auth, Push>(
    state: PushState<Core, Auth, Push>, actions: seq<Action<Auth, Push>>)
    ensures Replay(state, actions).core == state.core
    ensures Replay(state, actions).setAuthClient == state.setAuthClient
    ensures Replay(state, actions).setPushClient == state.setPushClient
    ensures (forall i :: 0 <= i < |actions| ==> !actions[i].SetPushClient?) ==>
      Replay(state, actions).pushClient == state.pushClient
    ensures forall k :: (0 <= k < |actions| && actions[k].SetPushClient? &&
                         forall j :: k < j < |actions| ==> !actions[j].SetPushClient?) ==>
      Replay(state, actions).pushClient == Some(actions[k].push)
  {
    if actions != [] {
      var init := actions[..|actions| - 1];
      ReplayLastPushClientWins(state, init);
      assert forall i :: 0 <= i < |init| ==> init[i] == actions[i];
    }
  }
}
