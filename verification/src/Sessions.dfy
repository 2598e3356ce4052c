// The session state machine of the path selector and the session object.
module Sessions {
  import opened Wrappers
  import opened Transports

  /** `Unset` is the zero value of the state field. */
  datatype SessionState =
    | Unset | Idle | Authenticating | ControlReady | Probing | PathSelected
    | Degraded | HandingOver | Failed | Closed

  datatype PathError =
    | NotRegistered(path: string)
    | ProbeFailed(path: string, cause: string)
    | OpenFailed(path: string, cause: string)
    | Cause(cause: string)

  datatype SessionView = SessionView(
    state: SessionState,
    activePath: string,
    active: Option<Handle>,
    lastError: Option<PathError>,
    lastFailover: Option<int>)

  function SessionOf(h: Option<Handle>): Option<nat> {
    if h.Some? then Some(h.value.session) else None
  }

  function Edges(from: SessionState): set<SessionState> {
    match from
    case Unset => {}
    case Idle => {Authenticating, Closed}
    case Authenticating => {ControlReady, Failed, Closed}
    case ControlReady => {Probing, Failed, Closed}
    case Probing => {PathSelected, Failed, Closed}
    case PathSelected => {Degraded, HandingOver, Probing, Failed, Closed}
    case Degraded => {Probing, HandingOver, PathSelected, Failed, Closed}
    case HandingOver => {PathSelected, Degraded, Failed, Closed}
    case Failed => {Probing, Authenticating, Closed}
    case Closed => {}
  }

  function Named(s: SessionState): SessionState {
    if s.Unset? then Idle else s
  }

  predicate Allowed(from: SessionState, next: SessionState) {
    Named(from) == next || next in Edges(Named(from))
  }

  /** The state after asking for `next`: a refused request leaves the state alone. */
  function After(from: SessionState, next: SessionState): SessionState {
    if Allowed(from, next) then next else Named(from)
  }

  function AfterAll(from: SessionState, path: seq<SessionState>): SessionState
    decreases |path|
  {
    if path == [] then from else AfterAll(After(from, path[0]), path[1..])
  }

  /** Closed is absorbing: no sequence of requests leaves it. */
  lemma {:induction false} ClosedIsAbsorbing(path: seq<SessionState>)
    ensures AfterAll(Closed, path) == Closed
  {
    if path != [] {
      ClosedIsAbsorbing(path[1..]);
    }
  }

  /** It is the only such state: every other state has a request that moves it. */
  lemma OnlyClosedIsAbsorbing(s: SessionState)
    ensures Named(s) == Closed <==> (forall next :: After(s, next) == s)
  {
    if s != Closed {
      assert After(s, Closed) != s;
    }
  }

  /** The states from which a request for `next` moves the session. */
  function Sources(next: SessionState): set<SessionState> {
    match next
    case Unset => {}
    case Idle => {}
    case Authenticating => {Idle, Failed}
    case ControlReady => {Authenticating}
    case Probing => {ControlReady, PathSelected, Degraded, Failed}
    case PathSelected => {Probing, Degraded, HandingOver}
    case Degraded => {PathSelected, HandingOver}
    case HandingOver => {PathSelected, Degraded}
    case Failed => {Authenticating, ControlReady, Probing, PathSelected, Degraded, HandingOver}
    case Closed => {Idle, Authenticating, ControlReady, Probing, PathSelected, Degraded, HandingOver, Failed}
  }

  /** The table read by its targets: a request moves a named state exactly from these; an unset state acts as idle. */
  lemma MovesExactly(s: SessionState, next: SessionState)
    ensures After(Unset, next) == After(Idle, next)
    ensures s != Unset ==> After(s, next) == if s in Sources(next) then next else s
  {
  }

  class Session {
    var state: SessionState
    var activePath: string
    var active: Option<Handle>
    var lastError: Option<PathError>
    var lastFailover: Option<int>

    constructor ()
      ensures View() == SessionView(Idle, "", None, None, None)
    {
      state, activePath, active, lastError, lastFailover := Idle, "", None, None, None;
    }

    ghost function View(): SessionView
      reads this
    {
      SessionView(state, activePath, active, lastError, lastFailover)
    }

    method Transition(next: SessionState) returns (ok: bool)
      modifies this`state
      ensures ok == Allowed(old(state), next)
      ensures state == After(old(state), next)
    {
      if state == Unset {
        state := Idle;
      }
      if state == next {
        return true;
      }
      if next !in Edges(state) {
        return false;
      }
      state := next;
      ok := true;
    }

    method ClearActive(net: Network)
      modifies this, net`open
      ensures View() == old(View()).(active := None, activePath := "")
      ensures net.open == Without(old(net.open), SessionOf(old(active)))
    {
      if active.Some? {
        net.CloseSession(active.value.session);
      }
      active := None;
      activePath := "";
    }
  }
}
