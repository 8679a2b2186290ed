/** The session map: audio sessions grouped by key, the sessions no slider
    maps, the time of the last refresh, and the handling of a slider move. */
module SessionMap {
  import opened Base
  import opened Sessions
  import opened Targets
  import SliderMapping
  import Multimap

  /** Refresh throttle and staleness bound, in milliseconds. */
  const MinTimeBetweenSessionRefreshes: int := 5000
  const MaxTimeBetweenSessionRefreshes: int := 45000

  type Groups = map<string, seq<Session>>

  /** The map's state; time is in milliseconds. */
  datatype State = State(sessions: Groups, unmapped: seq<Session>, lastRefresh: int)

  /** The error the session finder reports when it cannot list sessions. */
  datatype FinderError = FinderError

  /** The sessions under a key, or none. */
  function Get(m: Groups, key: string): (r: seq<Session>)
    ensures key !in m ==> r == []
  {
    if key in m then m[key] else []
  }

  /** sessionMap.add: the session is appended to the list of its key. */
  function Add(m: Groups, s: Session): (r: Groups)
    ensures r.Keys == m.Keys + {Key(s)}
    ensures forall k :: Get(r, k) == Get(m, k) + (if k == Key(s) then [s] else [])
  {
    m[Key(s) := Get(m, Key(s)) + [s]]
  }

  /** The sessions of `ss` with key k, in order. */
  function WithKey(ss: seq<Session>, k: string): seq<Session>
  {
    if |ss| == 0 then []
    else WithKey(ss[..|ss| - 1], k) + (if Key(ss[|ss| - 1]) == k then [ss[|ss| - 1]] else [])
  }

  /** The keys of the sessions in `ss`. */
  function KeysOf(ss: seq<Session>): set<string>
  {
    set s | s in ss :: Key(s)
  }

  /** Adding sessions one after another groups them by key, in order. */
  function AddAll(m: Groups, ss: seq<Session>): (r: Groups)
    ensures r.Keys == m.Keys + KeysOf(ss)
    ensures forall k :: Get(r, k) == Get(m, k) + WithKey(ss, k)
  {
    if |ss| == 0 then m
    else
      var mid := AddAll(m, ss[..|ss| - 1]);
      AddSnoc(m, ss, mid);
      KeysOfSnoc(ss);
      Add(mid, ss[|ss| - 1])
  }

  /** One more session on top of the grouping of the ones before it. */
  lemma AddSnoc(m: Groups, ss: seq<Session>, mid: Groups)
    requires |ss| > 0
    requires forall k :: Get(mid, k) == Get(m, k) + WithKey(ss[..|ss| - 1], k)
    ensures forall k :: Get(Add(mid, ss[|ss| - 1]), k) == Get(m, k) + WithKey(ss, k)
  {
    forall k
      ensures Get(Add(mid, ss[|ss| - 1]), k) == Get(m, k) + WithKey(ss, k)
    {
      AddSnocAt(m, ss, mid, k, Get(mid, k));
    }
  }

  lemma AddSnocAt(m: Groups, ss: seq<Session>, mid: Groups, k: string, before: seq<Session>)
    requires |ss| > 0
    requires before == Get(mid, k) == Get(m, k) + WithKey(ss[..|ss| - 1], k)
    ensures Get(Add(mid, ss[|ss| - 1]), k) == Get(m, k) + WithKey(ss, k)
  {
    var last := ss[|ss| - 1];
    var here := if Key(last) == k then [last] else [];
    Regroup(Get(m, k), WithKey(ss[..|ss| - 1], k), here, Get(Add(mid, last), k), WithKey(ss, k));
  }

  lemma Regroup<T>(a: seq<T>, b: seq<T>, c: seq<T>, x: seq<T>, y: seq<T>)
    requires x == (a + b) + c && y == b + c
    ensures x == a + y
  {
  }

  lemma KeysOfSnoc(ss: seq<Session>)
    requires |ss| > 0
    ensures KeysOf(ss) == KeysOf(ss[..|ss| - 1]) + {Key(ss[|ss| - 1])}
  {
    var init := ss[..|ss| - 1];
    assert ss == init + [ss[|ss| - 1]];
    assert forall s :: s in ss <==> s in init || s == ss[|ss| - 1];
  }

  /** Every session held in the map. */
  function Held(m: Groups): set<Session>
  {
    set k, s | k in m && s in m[k] :: s
  }

  /** The number of sessions held, over a traversal: the count sessionMap.String reports. */
  function SessionCount(m: Groups, order: seq<string>): (n: nat)
    requires Enumerates(order, m.Keys)
  {
    Multimap.Total(m, order)
  }

  /** Adding a session raises the count by one, whatever the traversals. */
  lemma AddCount(m: Groups, s: Session, o: seq<string>, o': seq<string>)
    requires Enumerates(o, m.Keys) && Enumerates(o', Add(m, s).Keys)
    ensures SessionCount(Add(m, s), o') == SessionCount(m, o) + 1
  {
    var k := Key(s);
    var m' := Add(m, s);
    if k in m {
      assert m' == m[k := m[k] + [s]];
      assert forall j | 0 <= j < |o'| :: o'[j] in m.Keys;
      assert Enumerates(o', m.Keys);
      Multimap.TraversalIndependent(m, o, o');
      Multimap.TotalUpdate(m, o', k, m[k] + [s]);
    } else {
      assert Get(m, k) + [s] == [s];
      assert m' == m[k := [s]];
      assert Multimap.InMap(m, o);
      Multimap.TotalUnaffected(m, o, k, [s]);
      var o2 := o + [k];
      assert Enumerates(o2, m'.Keys) by {
        assert forall j | 0 <= j < |o| :: o2[j] == o[j];
        assert o2[|o|] == k;
      }
      Multimap.TotalAppend(m', o, [k]);
      assert Multimap.Total(m', [k]) == 1 by {
        assert [k][1..] == [];
      }
      Multimap.TraversalIndependent(m', o2, o');
    }
  }

  /** Adding n sessions raises the count by n. */
  lemma {:induction false} AddAllCount(m: Groups, ss: seq<Session>, o: seq<string>, o': seq<string>)
    requires Enumerates(o, m.Keys) && Enumerates(o', AddAll(m, ss).Keys)
    ensures SessionCount(AddAll(m, ss), o') == SessionCount(m, o) + |ss|
    decreases |ss|
  {
    if |ss| == 0 {
      Multimap.TraversalIndependent(m, o, o');
    } else {
      var init := ss[..|ss| - 1];
      var mid := AddAll(m, init);
      var om := Multimap.SomeTraversal(mid);
      assert AddAll(m, ss) == Add(mid, ss[|ss| - 1]);
      AddAllCount(m, init, o, om);
      AddCount(mid, ss[|ss| - 1], om, o');
    }
  }

  // ---------------------------------------------------------------------------
  // getAndAddSessions and refreshSessions
  // ---------------------------------------------------------------------------

  /** The sessions of `ss` no slider maps, in order. */
  function UnmappedAmong(ss: seq<Session>, mapping: SliderMapping.SliderMap, order: seq<int>): (r: seq<Session>)
    requires Enumerates(order, mapping.Keys)
    ensures forall s :: s in r <==> s in ss && !SessionMapped(Key(s), mapping, order)
  {
    if |ss| == 0 then []
    else
      var init := ss[..|ss| - 1];
      var last := ss[|ss| - 1];
      assert forall s :: s in ss <==> s in init || s == last by {
        assert ss == init + [last];
      }
      UnmappedAmong(init, mapping, order) + (if SessionMapped(Key(last), mapping, order) then [] else [last])
  }

  /** Sessions are kept or dropped one at a time, so the unmapped list follows
      the discovery order and keeps repeated sessions. */
  lemma {:induction false} UnmappedAmongAppend(a: seq<Session>, b: seq<Session>,
                                               mapping: SliderMapping.SliderMap, order: seq<int>)
    requires Enumerates(order, mapping.Keys)
    ensures UnmappedAmong(a + b, mapping, order) == UnmappedAmong(a, mapping, order) + UnmappedAmong(b, mapping, order)
    decreases |b|
  {
    if |b| == 0 {
      assert a + b == a;
    } else {
      var init := b[..|b| - 1];
      assert (a + b)[..|a + b| - 1] == a + init;
      assert (a + b)[|a + b| - 1] == b[|b| - 1];
      UnmappedAmongAppend(a, init, mapping, order);
    }
  }

  /** A single session is tracked exactly when no slider maps it. */
  lemma UnmappedAmongOne(s: Session, mapping: SliderMapping.SliderMap, order: seq<int>)
    requires Enumerates(order, mapping.Keys)
    ensures UnmappedAmong([s], mapping, order) == if SessionMapped(Key(s), mapping, order) then [] else [s]
  {
    assert [s][..0] == [];
  }

  /** getAndAddSessions: stamp the refresh time and reset the unmapped list
      first; on success add every discovered session and track the unmapped
      ones. The boolean tells whether discovery succeeded. */
  function GetAndAddSessions(st: State, now: int, mapping: SliderMapping.SliderMap, order: seq<int>,
                             discovered: Result<seq<Session>, FinderError>): (r: (State, bool))
    requires Enumerates(order, mapping.Keys)
    ensures r.0.lastRefresh == now
    ensures r.1 <==> discovered.Ok?
    ensures discovered.Err? ==> r.0.sessions == st.sessions && r.0.unmapped == []
    ensures discovered.Ok? ==> forall k :: Get(r.0.sessions, k) == Get(st.sessions, k) + WithKey(discovered.value, k)
    ensures discovered.Ok? ==> forall s :: s in r.0.unmapped <==> s in discovered.value && !SessionMapped(Key(s), mapping, order)
    ensures discovered.Ok? ==> r.0.unmapped == UnmappedAmong(discovered.value, mapping, order)
  {
    match discovered
    case Err(_) => (State(st.sessions, [], now), false)
    case Ok(ss) => (State(AddAll(st.sessions, ss), UnmappedAmong(ss, mapping, order), now), true)
  }

  /** What a refresh did: the new state, the sessions it released, and whether
      it queried the session finder at all. */
  datatype RefreshOutcome = RefreshOutcome(state: State, released: set<Session>, queried: bool)

  /** refreshSessions: unless forced, nothing happens within 5 seconds of the
      last refresh; otherwise every held session is released, the map cleared,
      and the sessions re-acquired. */
  function Refresh(st: State, force: bool, now: int, mapping: SliderMapping.SliderMap, order: seq<int>,
                   discovered: Result<seq<Session>, FinderError>): (r: RefreshOutcome)
    requires Enumerates(order, mapping.Keys)
    ensures r.queried <==> force || st.lastRefresh + MinTimeBetweenSessionRefreshes <= now
    ensures !r.queried ==> r == RefreshOutcome(st, {}, false)
    ensures r.queried ==> r.released == Held(st.sessions) && r.state.lastRefresh == now
  {
    if !force && st.lastRefresh + MinTimeBetweenSessionRefreshes > now then RefreshOutcome(st, {}, false)
    else RefreshOutcome(GetAndAddSessions(State(map[], st.unmapped, st.lastRefresh), now, mapping, order, discovered).0,
                        Held(st.sessions), true)
  }

  /** After a refresh that queried, the map holds exactly the discovered
      sessions grouped by key, the unmapped list holds exactly the discovered
      sessions no slider maps, and the count is the number discovered; a failed
      query leaves an empty map. */
  lemma RefreshContents(st: State, force: bool, now: int, mapping: SliderMapping.SliderMap, order: seq<int>,
                        discovered: Result<seq<Session>, FinderError>, o: seq<string>)
    requires Enumerates(order, mapping.Keys)
    requires Refresh(st, force, now, mapping, order, discovered).queried
    requires Enumerates(o, Refresh(st, force, now, mapping, order, discovered).state.sessions.Keys)
    ensures var r := Refresh(st, force, now, mapping, order, discovered).state;
            && (discovered.Err? ==> r.sessions == map[] && r.unmapped == [])
            && (discovered.Ok? ==>
                 && (forall k :: Get(r.sessions, k) == WithKey(discovered.value, k))
                 && (forall s :: s in r.unmapped <==> s in discovered.value && !SessionMapped(Key(s), mapping, order))
                 && SessionCount(r.sessions, o) == |discovered.value|)
  {
    if discovered.Ok? {
      var empty: Groups := map[];
      assert Enumerates([], empty.Keys);
      AddAllCount(empty, discovered.value, [], o);
    }
  }

  /** A refresh triggered within 5 seconds of the last one, unforced, is a no-op;
      in particular a second refresh at the same instant never queries. */
  lemma RefreshThrottled(st: State, now: int, mapping: SliderMapping.SliderMap, order: seq<int>,
                         d1: Result<seq<Session>, FinderError>, d2: Result<seq<Session>, FinderError>)
    requires Enumerates(order, mapping.Keys)
    ensures var first := Refresh(st, true, now, mapping, order, d1);
            !Refresh(first.state, false, now, mapping, order, d2).queried
  {
  }

  /** initialize: a fresh map acquires every session; it fails when discovery does. */
  function Initialize(now: int, mapping: SliderMapping.SliderMap, order: seq<int>,
                      discovered: Result<seq<Session>, FinderError>): (r: Result<State, FinderError>)
    requires Enumerates(order, mapping.Keys)
    ensures r.Err? <==> discovered.Err?
    ensures r.Ok? ==> r.value.lastRefresh == now && forall k :: Get(r.value.sessions, k) == WithKey(discovered.value, k)
  {
    var (st, ok) := GetAndAddSessions(State(map[], [], now), now, mapping, order, discovered);
    if ok then Ok(st) else Err(FinderError)
  }

  /** The configuration-reload subscriber: an unforced refresh. */
  function OnConfigReload(st: State, now: int, mapping: SliderMapping.SliderMap, order: seq<int>,
                          discovered: Result<seq<Session>, FinderError>): (r: RefreshOutcome)
    requires Enumerates(order, mapping.Keys)
    ensures r.queried <==> st.lastRefresh + MinTimeBetweenSessionRefreshes <= now
  {
    Refresh(st, false, now, mapping, order, discovered)
  }

  // ---------------------------------------------------------------------------
  // handleSliderMoveEvent
  // ---------------------------------------------------------------------------

  /** The keys a slider's targets resolve to, target after target. */
  function ResolvedKeys(targets: seq<string>, ctx: ResolveContext): (r: seq<string>)
    ensures forall x :: x in r <==> exists t | t in targets :: x in Resolve(t, ctx)
  {
    if |targets| == 0 then []
    else
      var init := targets[..|targets| - 1];
      assert forall t :: t in targets <==> t in init || t == targets[|targets| - 1] by {
        assert targets == init + [targets[|targets| - 1]];
      }
      ResolvedKeys(init, ctx) + Resolve(targets[|targets| - 1], ctx)
  }

  /** The sessions reached through resolved keys, key after key; keys without
      sessions reach nothing. */
  function Reached(keys: seq<string>, m: Groups): (r: seq<Session>)
    ensures forall s :: s in r <==> exists k | k in keys :: k in m && s in m[k]
  {
    if |keys| == 0 then []
    else
      var init := keys[..|keys| - 1];
      var last := keys[|keys| - 1];
      assert forall k :: k in keys <==> k in init || k == last by {
        assert keys == init + [last];
      }
      Reached(init, m) + Get(m, last)
  }

  /** Some resolved key is in the map. */
  predicate AnyFound(keys: seq<string>, m: Groups)
  {
    exists k | k in keys :: k in m
  }

  /** Sets the new volume on each reached session whose volume differs. A
      session whose set succeeded then reports the new volume, so it is not
      set again; one whose set failed is retried when reached again.
      `volume` and `setFails` stand for the sessions' own answers. */
  method ApplyVolume(reached: seq<Session>, v: real, volume: Session -> real, setFails: Session -> bool)
    returns (calls: seq<Session>, failed: bool)
    ensures forall j | 0 <= j < |calls| :: calls[j] in reached && volume(calls[j]) != v
    ensures forall s | s in reached && volume(s) != v :: s in calls
    ensures failed <==> exists j | 0 <= j < |calls| :: setFails(calls[j])
    ensures forall a, b | 0 <= a < b < |calls| && calls[a] == calls[b] :: setFails(calls[a])
  {
    calls := [];
    failed := false;
    var done: set<Session> := {};
    var i := 0;
    while i < |reached|
      invariant 0 <= i <= |reached|
      invariant forall j | 0 <= j < |calls| :: calls[j] in reached[..i] && volume(calls[j]) != v
      invariant forall s | s in reached[..i] && volume(s) != v :: s in calls
      invariant failed <==> exists j | 0 <= j < |calls| :: setFails(calls[j])
      invariant forall s :: s in done <==> exists j | 0 <= j < |calls| :: calls[j] == s && !setFails(s)
      invariant forall a, b | 0 <= a < b < |calls| && calls[a] == calls[b] :: setFails(calls[a])
    {
      var s := reached[i];
      assert reached[..i + 1] == reached[..i] + [s];
      var current := if s in done then v else volume(s);
      if current != v {
        calls := calls + [s];
        if setFails(s) {
          failed := true;
        } else {
          done := done + {s};
        }
      }
      i := i + 1;
    }
    assert reached[..i] == reached;
  }

  /** What the handler asks for after setting volumes. */
  datatype FollowUp = NoRefresh | SoftRefresh | ForcedRefresh

  /** The answers the outside world gives during one event: the session
      finder's results for a refresh on staleness and for the follow-up
      refresh, the foreground-window query, and the sessions' volumes and set
      failures. */
  datatype Environment = Environment(
    staleDiscovery: Result<seq<Session>, FinderError>,
    followUpDiscovery: Result<seq<Session>, FinderError>,
    currentWindow: Option<seq<string>>,
    volume: Session -> real,
    setFails: Session -> bool)

  datatype HandleOutcome = HandleOutcome(
    state: State,
    staleRefresh: bool,
    calls: seq<Session>,
    followUp: FollowUp,
    followUpQueried: bool)

  /** handleSliderMoveEvent: refresh when stale (45 seconds), then set the
      volume of every session the slider's targets reach; when no target
      resolved to a known key ask for an unforced refresh, when some set failed
      force one. */
  method HandleSliderMoveEvent(st: State, mapping: SliderMapping.SliderMap, order: seq<int>,
                               sliderId: int, percentValue: real, now: int, env: Environment)
    returns (out: HandleOutcome)
    requires Enumerates(order, mapping.Keys)
    ensures out.staleRefresh <==> st.lastRefresh + MaxTimeBetweenSessionRefreshes < now
    ensures sliderId !in mapping ==> out.calls == [] && out.followUp == NoRefresh
    ensures var st1 := if out.staleRefresh then Refresh(st, true, now, mapping, order, env.staleDiscovery).state else st;
            && (sliderId in mapping ==>
                 var keys := ResolvedKeys(mapping[sliderId], ResolveContext(env.currentWindow, st1.unmapped));
                 && (forall j | 0 <= j < |out.calls| :: out.calls[j] in Reached(keys, st1.sessions) && env.volume(out.calls[j]) != percentValue)
                 && (forall s | s in Reached(keys, st1.sessions) && env.volume(s) != percentValue :: s in out.calls)
                 && (out.followUp == SoftRefresh <==> !AnyFound(keys, st1.sessions))
                 && (out.followUp == ForcedRefresh <==>
                      AnyFound(keys, st1.sessions) && exists j | 0 <= j < |out.calls| :: env.setFails(out.calls[j])))
            && (out.followUp == NoRefresh ==> out.state == st1 && !out.followUpQueried)
            && (out.followUp != NoRefresh ==>
                 var rr := Refresh(st1, out.followUp == ForcedRefresh, now, mapping, order, env.followUpDiscovery);
                 out.state == rr.state && out.followUpQueried == rr.queried)
    ensures out.followUp == ForcedRefresh ==> out.followUpQueried && out.state.lastRefresh == now
    ensures out.staleRefresh && out.followUp == SoftRefresh ==> !out.followUpQueried
  {
    var st1 := st;
    var stale := st.lastRefresh + MaxTimeBetweenSessionRefreshes < now;
    if stale {
      st1 := Refresh(st, true, now, mapping, order, env.staleDiscovery).state;
    }
    var (targets, ok) := SliderMapping.Get(mapping, sliderId);
    if !ok {
      return HandleOutcome(st1, stale, [], NoRefresh, false);
    }
    var keys := ResolvedKeys(targets, ResolveContext(env.currentWindow, st1.unmapped));
    var found := exists k | k in keys :: k in st1.sessions;
    var calls, failed := ApplyVolume(Reached(keys, st1.sessions), percentValue, env.volume, env.setFails);
    if !found {
      var r := Refresh(st1, false, now, mapping, order, env.followUpDiscovery);
      out := HandleOutcome(r.state, stale, calls, SoftRefresh, r.queried);
    } else if failed {
      var r := Refresh(st1, true, now, mapping, order, env.followUpDiscovery);
      out := HandleOutcome(r.state, stale, calls, ForcedRefresh, r.queried);
    } else {
      out := HandleOutcome(st1, stale, calls, NoRefresh, false);
    }
  }
}
