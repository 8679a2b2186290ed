/** The Windows foreground-window query: the process names of the focused
    window and its child windows, answered from a cache for 350 ms after each
    query. */
module Foreground {
  import opened Base

  /** Minimum time between two queries, in milliseconds. */
  const CooldownMs: int := 350

  /** The cache: when the last query started and the last result stored. */
  datatype Cache = Cache(lastCall: int, lastResult: seq<string>)

  /** The cache at process start: stamped with the start time and empty, so
      queries in the first 350 ms answer nothing. */
  function InitialCache(startTime: int): Cache
  {
    Cache(startTime, [])
  }

  /** What the operating system answers: the foreground window's owner process
      id, the process ids of its child windows in enumeration order, and the
      executable name of every process id the process lookup finds. */
  datatype Desktop = Desktop(ownerPid: nat, childPids: seq<nat>, names: map<nat, string>)

  /** The owner process could not be looked up. */
  datatype QueryError = OwnerLookupFailed(pid: nat)

  datatype QueryOutcome = QueryOutcome(cache: Cache, result: Result<seq<string>, QueryError>, queried: bool)

  /** The names of the child windows' processes that differ from the owner,
      in enumeration order; children whose lookup fails are skipped, repeats kept. */
  function ChildNames(pids: seq<nat>, owner: nat, names: map<nat, string>): (r: seq<string>)
    ensures |r| <= |pids|
    ensures forall x :: x in r <==> exists j | 0 <= j < |pids| :: pids[j] != owner && pids[j] in names && names[pids[j]] == x
  {
    if |pids| == 0 then []
    else
      var rest := ChildNames(pids[1..], owner, names);
      assert forall j | 1 <= j < |pids| :: pids[j] == pids[1..][j - 1];
      if pids[0] != owner && pids[0] in names then [names[pids[0]]] + rest else rest
  }

  /** Children are looked up one at a time: the names follow the enumeration
      order of the child windows, and a process with several windows is named
      once per window. */
  lemma {:induction false} ChildNamesAppend(a: seq<nat>, b: seq<nat>, owner: nat, names: map<nat, string>)
    ensures ChildNames(a + b, owner, names) == ChildNames(a, owner, names) + ChildNames(b, owner, names)
    ensures |b| == 1 ==> ChildNames(b, owner, names) == if b[0] != owner && b[0] in names then [names[b[0]]] else []
    decreases |a|
  {
    if |a| > 0 {
      assert (a + b)[1..] == a[1..] + b;
      ChildNamesAppend(a[1..], b, owner, names);
    } else {
      assert a + b == b;
    }
    if |b| == 1 {
      assert b[1..] == [];
    }
  }

  /** getCurrentWindowProcessNames. Within the cooldown the cached result is
      returned without asking the system. Otherwise the call is stamped first;
      a system-owned window (pid 0) answers nothing and a failed owner lookup
      an error, both leaving the stored result as it was; a successful query
      stores and returns the owner's name followed by the child names. */
  function GetCurrentWindowProcessNames(cache: Cache, now: int, desktop: Desktop): (r: QueryOutcome)
    ensures !r.queried <==> cache.lastCall + CooldownMs > now
    ensures !r.queried ==> r.cache == cache && r.result == Ok(cache.lastResult)
    ensures r.queried ==> r.cache.lastCall == now
    ensures r.queried && r.result.Ok? && |r.result.value| > 0 ==>
              && r.cache.lastResult == r.result.value
              && desktop.ownerPid in desktop.names
              && r.result.value[0] == desktop.names[desktop.ownerPid]
    ensures r.queried && (desktop.ownerPid == 0 || r.result.Err?) ==> r.cache.lastResult == cache.lastResult
    ensures r.queried ==> (r.result.Err? <==> desktop.ownerPid != 0 && desktop.ownerPid !in desktop.names)
    ensures r.queried && desktop.ownerPid == 0 ==> r.result == Ok([])
  {
    if cache.lastCall + CooldownMs > now then QueryOutcome(cache, Ok(cache.lastResult), false)
    else
      var stamped := Cache(now, cache.lastResult);
      if desktop.ownerPid == 0 then QueryOutcome(stamped, Ok([]), true)
      else if desktop.ownerPid !in desktop.names then QueryOutcome(stamped, Err(OwnerLookupFailed(desktop.ownerPid)), true)
      else
        var result := [desktop.names[desktop.ownerPid]] + ChildNames(desktop.childPids, desktop.ownerPid, desktop.names);
        QueryOutcome(Cache(now, result), Ok(result), true)
  }

  /** A successful query lists the owner's process name and then exactly the
      names of the child windows' processes other than the owner. */
  lemma QueryContents(cache: Cache, now: int, desktop: Desktop)
    requires cache.lastCall + CooldownMs <= now && desktop.ownerPid != 0 && desktop.ownerPid in desktop.names
    ensures var r := GetCurrentWindowProcessNames(cache, now, desktop).result;
            && r.Ok? && |r.value| >= 1
            && r.value[0] == desktop.names[desktop.ownerPid]
            && forall x :: x in r.value[1..] <==>
                 exists j | 0 <= j < |desktop.childPids| ::
                   desktop.childPids[j] != desktop.ownerPid && desktop.childPids[j] in desktop.names
                   && desktop.names[desktop.childPids[j]] == x
  {
    var r := GetCurrentWindowProcessNames(cache, now, desktop).result;
    assert r.value[1..] == ChildNames(desktop.childPids, desktop.ownerPid, desktop.names);
  }

  /** At most one system query per cooldown: a call within 350 ms of a call
      that queried answers from the cache, whatever the system would say. */
  lemma AtMostOneQueryPerCooldown(cache: Cache, t1: int, d1: Desktop, t2: int, d2: Desktop)
    requires t1 <= t2 < t1 + CooldownMs
    ensures var first := GetCurrentWindowProcessNames(cache, t1, d1);
            var second := GetCurrentWindowProcessNames(first.cache, t2, d2);
            first.queried ==> !second.queried && second.result == Ok(first.cache.lastResult)
  {
  }

  /** When the query finds a system-owned window, calls during the following
      cooldown answer with the result stored before it, not with the empty answer. */
  lemma EmptyAnswerNotCached(cache: Cache, t1: int, d1: Desktop, t2: int, d2: Desktop)
    requires cache.lastCall + CooldownMs <= t1 <= t2 < t1 + CooldownMs && d1.ownerPid == 0
    ensures GetCurrentWindowProcessNames(cache, t1, d1).result == Ok([])
    ensures var first := GetCurrentWindowProcessNames(cache, t1, d1);
            GetCurrentWindowProcessNames(first.cache, t2, d2).result == Ok(cache.lastResult)
  {
  }

  /** In the first 350 ms after start-up every query answers the empty list
      without asking the system; the first query after that asks it. */
  lemma StartUpAnswersNothing(startTime: int, now: int, desktop: Desktop)
    requires startTime <= now
    ensures now < startTime + CooldownMs ==>
              GetCurrentWindowProcessNames(InitialCache(startTime), now, desktop) == QueryOutcome(InitialCache(startTime), Ok([]), false)
    ensures now >= startTime + CooldownMs ==> GetCurrentWindowProcessNames(InitialCache(startTime), now, desktop).queried
  {
  }

  /** The answer the target resolver works with: the names, or nothing on error. */
  function AsTargets(r: Result<seq<string>, QueryError>): (o: Option<seq<string>>)
    ensures o.None? <==> r.Err?
  {
    match r
    case Ok(names) => Some(names)
    case Err(_) => None
  }
}
