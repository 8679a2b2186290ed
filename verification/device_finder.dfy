/** The Windows session finder's bookkeeping: the throttled reaction to
    default-device changes, and how GetAllSessions composes its steps. The
    audio API calls behind each step are inputs. */
module DeviceFinder {
  import opened Base
  import opened Sessions

  /** Notifications closer than this to the last accepted one are ignored, in milliseconds. */
  const MinDefaultDeviceChangeThreshold: int := 100

  /** A master (device-level) session and whether a device change made it stale. */
  datatype MasterSession = MasterSession(session: Session, stale: bool)

  /** The finder's state. `lastDefaultDeviceChange` is None until the first
      accepted notification (Go's zero time, far enough in the past that the
      first notification is always accepted). */
  datatype Finder = Finder(
    hasEnumerator: bool,
    notificationRegistered: bool,
    lastDefaultDeviceChange: Option<int>,
    masterOut: Option<MasterSession>,
    masterIn: Option<MasterSession>)

  const NewFinder: Finder := Finder(false, false, None, None, None)

  function MarkStale(m: Option<MasterSession>): (r: Option<MasterSession>)
    ensures r.Some? <==> m.Some?
    ensures r.Some? ==> r.value.stale && r.value.session == m.value.session
  {
    match m
    case None => None
    case Some(ms) => Some(MasterSession(ms.session, true))
  }

  /** A notification is ignored when it comes less than 100 ms after the last accepted one. */
  predicate Throttled(f: Finder, now: int)
  {
    f.lastDefaultDeviceChange.Some? && now - f.lastDefaultDeviceChange.value < MinDefaultDeviceChangeThreshold
  }

  /** defaultDeviceChangedCallback: unless throttled, record the time and mark
      both master sessions stale. The callback always answers 0. */
  function DefaultDeviceChanged(f: Finder, now: int): (r: (Finder, int))
    ensures r.1 == 0
    ensures Throttled(f, now) ==> r.0 == f
    ensures !Throttled(f, now) ==>
              && r.0.lastDefaultDeviceChange == Some(now)
              && (r.0.masterOut.Some? <==> f.masterOut.Some?) && (r.0.masterOut.Some? ==> r.0.masterOut.value.stale)
              && (r.0.masterIn.Some? <==> f.masterIn.Some?) && (r.0.masterIn.Some? ==> r.0.masterIn.value.stale)
              && r.0.hasEnumerator == f.hasEnumerator && r.0.notificationRegistered == f.notificationRegistered
  {
    if Throttled(f, now) then (f, 0)
    else (f.(lastDefaultDeviceChange := Some(now), masterOut := MarkStale(f.masterOut), masterIn := MarkStale(f.masterIn)), 0)
  }

  /** The throttle is measured from the last ACCEPTED notification: after one
      accepted at t, every notification before t + 100 is ignored, however
      many arrive. */
  lemma {:induction false} BurstIgnored(f: Finder, t: int, later: seq<int>)
    requires !Throttled(f, t)
    requires forall j | 0 <= j < |later| :: t <= later[j] < t + MinDefaultDeviceChangeThreshold
    ensures Replay(DefaultDeviceChanged(f, t).0, later) == DefaultDeviceChanged(f, t).0
  {
    var g := DefaultDeviceChanged(f, t).0;
    BurstIgnoredFrom(g, t, later);
  }

  lemma {:induction false} BurstIgnoredFrom(g: Finder, t: int, later: seq<int>)
    requires g.lastDefaultDeviceChange == Some(t)
    requires forall j | 0 <= j < |later| :: t <= later[j] < t + MinDefaultDeviceChangeThreshold
    ensures Replay(g, later) == g
  {
    if |later| > 0 {
      assert Throttled(g, later[0]);
      BurstIgnoredFrom(g, t, later[1..]);
    }
  }

  /** Notifications delivered one after another. */
  function Replay(f: Finder, times: seq<int>): Finder
    decreases |times|
  {
    if |times| == 0 then f else Replay(DefaultDeviceChanged(f, times[0]).0, times[1..])
  }

  // ---------------------------------------------------------------------------
  // GetAllSessions
  // ---------------------------------------------------------------------------

  /** The answer of the COM initialisation. */
  datatype CoInit = CoInitOk | OleError(code: int) | OtherInitError

  /** The step that made GetAllSessions fail. */
  datatype FindError =
    | InitializeCOM
    | GetDeviceEnumerator
    | GetDefaultEndpoints
    | RegisterCallback
    | GetMasterOutput
    | GetMasterInput
    | EnumerateSessions

  /** What each step of one GetAllSessions call yields: the COM initialisation;
      whether creating the device enumerator succeeds; the default endpoints
      (whether an input endpoint exists), or failure; whether registering the
      device-change callback succeeds; the master output and input sessions;
      and the enumerated device and process sessions. */
  datatype Steps = Steps(
    coInit: CoInit,
    createEnumerator: bool,
    endpoints: Option<bool>,
    register: bool,
    masterOut: Option<Session>,
    masterIn: Option<Session>,
    enumerated: Option<seq<Session>>)

  /** A redundant initialisation (OLE code 1) is tolerated; any other failure is fatal. */
  predicate CoInitAccepted(c: CoInit)
  {
    c.CoInitOk? || (c.OleError? && c.code == 1)
  }

  /** GetAllSessions: initialise COM, obtain the device enumerator (once),
      get the default endpoints, register for device changes (once), fetch
      the master output session and, when there is an input endpoint, the
      master input session, then enumerate the rest. The first failing step
      ends the call with its error and returns no sessions; the steps already
      taken keep their effect on the finder. */
  function GetAllSessions(f: Finder, steps: Steps): (r: (Finder, Result<seq<Session>, FindError>))
  {
    if !CoInitAccepted(steps.coInit) then (f, Err(InitializeCOM))
    else if !f.hasEnumerator && !steps.createEnumerator then (f, Err(GetDeviceEnumerator))
    else
      var f1 := f.(hasEnumerator := true);
      match steps.endpoints
      case None => (f1, Err(GetDefaultEndpoints))
      case Some(hasInput) =>
        if !f1.notificationRegistered && !steps.register then (f1, Err(RegisterCallback))
        else
          var f2 := f1.(notificationRegistered := true);
          match steps.masterOut
          case None => (f2.(masterOut := None), Err(GetMasterOutput))
          case Some(out) =>
            var f3 := f2.(masterOut := Some(MasterSession(out, false)));
            if hasInput && steps.masterIn.None? then (f3.(masterIn := None), Err(GetMasterInput))
            else
              var f4 := if hasInput then f3.(masterIn := Some(MasterSession(steps.masterIn.value, false))) else f3;
              var inputs := if hasInput then [steps.masterIn.value] else [];
              match steps.enumerated
              case None => (f4, Err(EnumerateSessions))
              case Some(rest) => (f4, Ok([out] + inputs + rest))
  }

  /** Every step succeeding. */
  predicate AllSucceed(f: Finder, steps: Steps)
  {
    && CoInitAccepted(steps.coInit)
    && (f.hasEnumerator || steps.createEnumerator)
    && steps.endpoints.Some?
    && (f.notificationRegistered || steps.register)
    && steps.masterOut.Some?
    && (steps.endpoints.value ==> steps.masterIn.Some?)
    && steps.enumerated.Some?
  }

  /** All or nothing: the call lists sessions exactly when every step succeeds,
      and then the master output comes first, the master input (when there is
      an input endpoint) second, and the enumerated sessions after them; the
      finder then holds fresh (not stale) master sessions, an enumerator and a
      registration. */
  lemma GetAllSessionsAllOrNothing(f: Finder, steps: Steps)
    ensures GetAllSessions(f, steps).1.Ok? <==> AllSucceed(f, steps)
    ensures AllSucceed(f, steps) ==>
              var (g, r) := GetAllSessions(f, steps);
              && r.value == [steps.masterOut.value]
                            + (if steps.endpoints.value then [steps.masterIn.value] else [])
                            + steps.enumerated.value
              && g.hasEnumerator && g.notificationRegistered
              && g.masterOut == Some(MasterSession(steps.masterOut.value, false))
              && (steps.endpoints.value ==> g.masterIn == Some(MasterSession(steps.masterIn.value, false)))
  {
  }

  /** The enumerator is created and the callback registered at most once:
      after one complete call, later calls do not depend on whether creating
      or registering would succeed. */
  lemma SetUpOnce(f: Finder, s1: Steps, s2: Steps, create: bool, register: bool)
    requires AllSucceed(f, s1)
    ensures var g := GetAllSessions(f, s1).0;
            GetAllSessions(g, s2) == GetAllSessions(g, s2.(createEnumerator := create, register := register))
  {
  }

  /** A fresh finder accepts the first device-change notification whatever
      its time, and its first GetAllSessions call fails unless the device
      enumerator can be created. */
  lemma NewFinderFirstUse(now: int, steps: Steps)
    ensures !Throttled(NewFinder, now)
    ensures DefaultDeviceChanged(NewFinder, now).0 == NewFinder.(lastDefaultDeviceChange := Some(now))
    ensures CoInitAccepted(steps.coInit) && !steps.createEnumerator ==>
              GetAllSessions(NewFinder, steps) == (NewFinder, Err(GetDeviceEnumerator))
  {
  }

  /** A redundant COM initialisation behaves like a successful one. */
  lemma RedundantInitTolerated(f: Finder, steps: Steps)
    ensures GetAllSessions(f, steps.(coInit := OleError(1))) == GetAllSessions(f, steps.(coInit := CoInitOk))
    ensures GetAllSessions(f, steps.(coInit := OleError(2))) == (f, Err(InitializeCOM))
  {
  }

  /** A device change after a complete call marks the fresh masters stale;
      the next complete call replaces them with fresh ones. */
  lemma DeviceChangeThenRefresh(f: Finder, s1: Steps, now: int, s2: Steps)
    requires AllSucceed(f, s1)
    ensures var g := GetAllSessions(f, s1).0;
            var h := DefaultDeviceChanged(g, now).0;
            && (!Throttled(g, now) ==> h.masterOut.Some? && h.masterOut.value.stale)
            && (AllSucceed(h, s2) ==> !GetAllSessions(h, s2).0.masterOut.value.stale)
  {
  }
}
