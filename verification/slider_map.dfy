/** The slider map: slider index to the list of target names it controls, built
    by merging the user's mapping with the internal (preferences) mapping. */
module SliderMapping {
  import opened Base
  import opened Text
  import Multimap

  type SliderMap = map<int, seq<string>>

  /** A mapping as read from a configuration file: string keys that should
      hold slider indices. */
  type RawMapping = map<string, seq<string>>

  // ---------------------------------------------------------------------------
  // Filtering target lists
  // ---------------------------------------------------------------------------

  /** The targets of `ts`, in order, that are non-empty and not in `existing`.
      Repeats inside `ts` itself are kept: only `existing` is consulted. */
  function FilterNew(ts: seq<string>, existing: seq<string>): (r: seq<string>)
    ensures |r| <= |ts|
    ensures forall t :: t in r <==> t in ts && t != "" && t !in existing
  {
    if |ts| == 0 then []
    else if ts[0] != "" && ts[0] !in existing then [ts[0]] + FilterNew(ts[1..], existing)
    else FilterNew(ts[1..], existing)
  }

  /** The non-empty targets of `ts`, in order. */
  function FilterNonEmpty(ts: seq<string>): (r: seq<string>)
    ensures |r| <= |ts|
    ensures forall t :: t in r <==> t in ts && t != ""
  {
    FilterNew(ts, [])
  }

  /** Filtering distributes over concatenation: it keeps or drops each target on its own. */
  lemma {:induction false} FilterNewAppend(a: seq<string>, b: seq<string>, existing: seq<string>)
    ensures FilterNew(a + b, existing) == FilterNew(a, existing) + FilterNew(b, existing)
  {
    if |a| > 0 {
      assert (a + b)[1..] == a[1..] + b;
      FilterNewAppend(a[1..], b, existing);
    } else {
      assert a + b == b;
    }
  }

  /** A list with no empty target and nothing from `existing` passes unchanged. */
  lemma {:induction false} FilterNewKeepsClean(ts: seq<string>, existing: seq<string>)
    requires forall j | 0 <= j < |ts| :: ts[j] != "" && ts[j] !in existing
    ensures FilterNew(ts, existing) == ts
  {
    if |ts| > 0 {
      FilterNewKeepsClean(ts[1..], existing);
    }
  }

  // ---------------------------------------------------------------------------
  // get / set / iterate
  // ---------------------------------------------------------------------------

  /** sliderMap.get: the targets of a slider and whether it is mapped; an
      unmapped slider yields the empty (nil) list. */
  function Get(m: SliderMap, key: int): (r: (seq<string>, bool))
    ensures r.1 <==> key in m
    ensures r.1 ==> r.0 == m[key]
    ensures !r.1 ==> r.0 == []
  {
    if key in m then (m[key], true) else ([], false)
  }

  /** sliderMap.set: map a slider to a target list, replacing any previous one. */
  function Set(m: SliderMap, key: int, targets: seq<string>): (r: SliderMap)
    ensures r.Keys == m.Keys + {key}
  {
    m[key := targets]
  }

  /** get after set returns what was set, and set leaves every other slider alone. */
  lemma GetAfterSet(m: SliderMap, key: int, targets: seq<string>, other: int)
    ensures Get(Set(m, key, targets), key) == (targets, true)
    ensures other != key ==> Get(Set(m, key, targets), other) == Get(m, other)
  {
  }

  /** sliderMap.iterate: the (slider, targets) pairs a callback receives, in
      the traversal order of the underlying map. */
  function Visits(m: SliderMap, order: seq<int>): (r: seq<(int, seq<string>)>)
    requires Multimap.InMap(m, order)
    ensures |r| == |order|
  {
    seq(|order|, j requires 0 <= j < |order| => (order[j], m[order[j]]))
  }

  /** Over a traversal of the whole map, the callback sees every slider exactly
      once, each with its own targets. */
  lemma VisitsEachSliderOnce(m: SliderMap, order: seq<int>)
    requires Enumerates(order, m.Keys)
    ensures var r := Visits(m, order);
            && (forall a, b | 0 <= a < b < |r| :: r[a].0 != r[b].0)
            && (forall j | 0 <= j < |r| :: r[j].0 in m && r[j].1 == m[r[j].0])
            && (forall k | k in m :: exists j | 0 <= j < |r| :: r[j] == (k, m[k]))
  {
    var r := Visits(m, order);
    forall k | k in m
      ensures exists j | 0 <= j < |r| :: r[j] == (k, m[k])
    {
      var j :| 0 <= j < |order| && order[j] == k;
      assert r[j] == (k, m[k]);
    }
  }

  // ---------------------------------------------------------------------------
  // sliderMapFromConfigs
  // ---------------------------------------------------------------------------

  /** The slider indices the keys in `order` parse to; keys that do not parse are skipped. */
  function IndicesOf(order: seq<string>): set<int>
  {
    set k | k in order && Atoi(k).Ok? :: Atoi(k).value
  }

  /** The slider indices a raw mapping's keys parse to. */
  function ParsedIndices(raw: RawMapping): set<int>
  {
    set k | k in raw && Atoi(k).Ok? :: Atoi(k).value
  }

  /** No two keys of a raw mapping parse to the same index ("1" and "01" would). */
  predicate Injective(raw: RawMapping)
  {
    forall a, b | a in raw && b in raw && Atoi(a).Ok? && Atoi(b).Ok? && Atoi(a).value == Atoi(b).value :: a == b
  }

  /** No target list holds the empty target. */
  predicate NoEmptyTargets(m: SliderMap)
  {
    forall i | i in m :: "" !in m[i]
  }

  predicate Covers(raw: RawMapping, order: seq<string>)
  {
    forall j | 0 <= j < |order| :: order[j] in raw
  }

  lemma IndicesOfCons(order: seq<string>)
    requires |order| > 0
    ensures IndicesOf(order) == IndicesOf(order[1..]) + (if Atoi(order[0]).Ok? then {Atoi(order[0]).value} else {})
  {
    assert forall k :: k in order <==> k == order[0] || k in order[1..];
  }

  /** The user phase: each key that parses sets its slider to the non-empty
      targets of its list, replacing what an earlier key with the same index set. */
  function UserPhase(m: SliderMap, user: RawMapping, order: seq<string>): (r: SliderMap)
    requires Covers(user, order)
    ensures r.Keys == m.Keys + IndicesOf(order)
    ensures NoEmptyTargets(m) ==> NoEmptyTargets(r)
    decreases |order|
  {
    if |order| == 0 then m
    else
      IndicesOfCons(order);
      match Atoi(order[0])
      case Err(_) => UserPhase(m, user, order[1..])
      case Ok(i) => UserPhase(Set(m, i, FilterNonEmpty(user[order[0]])), user, order[1..])
  }

  /** The internal phase: each key that parses appends to its slider's targets
      those of its list that are non-empty and not already there. */
  function InternalPhase(m: SliderMap, internal: RawMapping, order: seq<string>): (r: SliderMap)
    requires Covers(internal, order)
    ensures r.Keys == m.Keys + IndicesOf(order)
    ensures NoEmptyTargets(m) ==> NoEmptyTargets(r)
    decreases |order|
  {
    if |order| == 0 then m
    else
      IndicesOfCons(order);
      match Atoi(order[0])
      case Err(_) => InternalPhase(m, internal, order[1..])
      case Ok(i) =>
        var existing := Get(m, i).0;
        InternalPhase(Set(m, i, existing + FilterNew(internal[order[0]], existing)), internal, order[1..])
  }

  /** sliderMapFromConfigs: the user mapping first, then the internal mapping
      merged into it, each traversed in its map's iteration order. Every slider
      either mapping names is mapped, and no target list holds an empty name. */
  function FromConfigs(user: RawMapping, userOrder: seq<string>, internal: RawMapping, internalOrder: seq<string>): (r: SliderMap)
    requires Enumerates(userOrder, user.Keys) && Enumerates(internalOrder, internal.Keys)
    ensures r.Keys == ParsedIndices(user) + ParsedIndices(internal)
    ensures NoEmptyTargets(r)
  {
    assert IndicesOf(userOrder) == ParsedIndices(user);
    assert IndicesOf(internalOrder) == ParsedIndices(internal);
    InternalPhase(UserPhase(map[], user, userOrder), internal, internalOrder)
  }

  /** The last key of `order` that parses to slider `i`, if any. */
  function LastFor(order: seq<string>, i: int): (r: Option<string>)
    ensures r.Some? ==> r.value in order && Atoi(r.value) == Ok(i)
    ensures r.None? ==> forall k | k in order :: Atoi(k) != Ok(i)
  {
    if |order| == 0 then None
    else
      var rest := LastFor(order[1..], i);
      if rest.Some? then rest
      else if Atoi(order[0]) == Ok(i) then Some(order[0])
      else None
  }

  /** The entry of slider i, if mapped. */
  function Entry(m: SliderMap, i: int): Option<seq<string>>
  {
    if i in m then Some(m[i]) else None
  }

  /** After the user phase a slider holds the filtered list of the last key
      parsing to it, or what it held before when no key does. */
  lemma {:induction false} UserPhaseSlot(m: SliderMap, user: RawMapping, order: seq<string>, i: int)
    requires Covers(user, order)
    ensures Entry(UserPhase(m, user, order), i)
         == match LastFor(order, i)
            case Some(k) => Some(FilterNonEmpty(user[k]))
            case None => Entry(m, i)
    decreases |order|
  {
    if |order| > 0 {
      match Atoi(order[0])
      case Err(_) =>
        UserPhaseSlot(m, user, order[1..], i);
      case Ok(j) =>
        UserPhaseSlot(Set(m, j, FilterNonEmpty(user[order[0]])), user, order[1..], i);
    }
  }

  /** One slider's list under the internal phase: each key of `order` that
      parses to slider i, in turn, appends its non-empty targets not yet in
      the list; keys for other sliders leave it alone. */
  function SlotFold(existing: seq<string>, internal: RawMapping, order: seq<string>, i: int): seq<string>
    requires Covers(internal, order)
    decreases |order|
  {
    if |order| == 0 then existing
    else
      var next := if Atoi(order[0]) == Ok(i) then existing + FilterNew(internal[order[0]], existing) else existing;
      SlotFold(next, internal, order[1..], i)
  }

  /** Keys for other sliders leave slot i's list unchanged. */
  lemma {:induction false} SlotFoldNone(existing: seq<string>, internal: RawMapping, order: seq<string>, i: int)
    requires Covers(internal, order) && LastFor(order, i).None?
    ensures SlotFold(existing, internal, order, i) == existing
    decreases |order|
  {
    if |order| > 0 {
      assert order[0] in order;
      SlotFoldNone(existing, internal, order[1..], i);
    }
  }

  /** After the internal phase, slider i holds what it held before when no
      key parses to it, and otherwise its old targets extended by every key
      parsing to it, in traversal order. When two keys parse to the same
      slider ("1" and "01") both contribute, in the order of the traversal. */
  lemma {:induction false} InternalPhaseSlot(m: SliderMap, internal: RawMapping, order: seq<string>, i: int)
    requires Covers(internal, order)
    ensures Entry(InternalPhase(m, internal, order), i)
         == if LastFor(order, i).None? then Entry(m, i) else Some(SlotFold(Get(m, i).0, internal, order, i))
    decreases |order|
  {
    if |order| > 0 {
      match Atoi(order[0])
      case Err(_) =>
        InternalPhaseSlot(m, internal, order[1..], i);
      case Ok(j) =>
        var existing := Get(m, j).0;
        var m' := Set(m, j, existing + FilterNew(internal[order[0]], existing));
        InternalPhaseSlot(m', internal, order[1..], i);
        if j == i && LastFor(order[1..], i).None? {
          SlotFoldNone(Get(m', i).0, internal, order[1..], i);
        }
    }
  }

  /** Two internal keys for one slider both contribute: with "1" and "01" the
      slider gets the targets of the first key traversed, then those of the
      second that are new. */
  lemma SlotFoldTwoKeys(existing: seq<string>, internal: RawMapping, k1: string, k2: string, i: int)
    requires k1 in internal && k2 in internal && Atoi(k1) == Ok(i) && Atoi(k2) == Ok(i)
    ensures var first := existing + FilterNew(internal[k1], existing);
            SlotFold(existing, internal, [k1, k2], i) == first + FilterNew(internal[k2], first)
  {
    var first := existing + FilterNew(internal[k1], existing);
    assert [k1, k2][1..] == [k2];
    assert [k2][1..] == [];
    assert SlotFold(existing, internal, [k1, k2], i) == SlotFold(first, internal, [k2], i);
    assert SlotFold(first, internal, [k2], i) == SlotFold(first + FilterNew(internal[k2], first), internal, [], i);
  }

  /** After the internal phase, when only key k (or no key) parses to slider
      i, the slider holds its old targets followed by the new ones of k. */
  lemma {:induction false} InternalPhaseSlotUnique(m: SliderMap, internal: RawMapping, order: seq<string>, i: int)
    requires Covers(internal, order) && NoDup(order) && Injective(internal)
    ensures Entry(InternalPhase(m, internal, order), i)
         == match LastFor(order, i)
            case Some(k) => Some(Get(m, i).0 + FilterNew(internal[k], Get(m, i).0))
            case None => Entry(m, i)
    decreases |order|
  {
    if |order| > 0 {
      assert NoDup(order[1..]) by {
        forall a, b | 0 <= a < b < |order[1..]|
          ensures order[1..][a] != order[1..][b]
        {
          assert order[1..][a] == order[a + 1] && order[1..][b] == order[b + 1];
        }
      }
      assert order[0] !in order[1..] by {
        forall b | 0 <= b < |order[1..]|
          ensures order[1..][b] != order[0]
        {
          assert order[1..][b] == order[b + 1];
        }
      }
      match Atoi(order[0])
      case Err(_) =>
        InternalPhaseSlotUnique(m, internal, order[1..], i);
      case Ok(j) =>
        var existing := Get(m, j).0;
        var m' := Set(m, j, existing + FilterNew(internal[order[0]], existing));
        InternalPhaseSlotUnique(m', internal, order[1..], i);
        if j == i {
          assert LastFor(order[1..], i).None? by {
            forall k | k in order[1..]
              ensures Atoi(k) != Ok(i)
            {
              assert k != order[0];
            }
          }
        }
    }
  }

  /** How one slider's two lists combine: the user's non-empty targets, then
      the internal list's non-empty targets the user list does not already name. */
  function Merged(userTargets: Option<seq<string>>, internalTargets: Option<seq<string>>): Option<seq<string>>
  {
    match (userTargets, internalTargets)
    case (None, None) => None
    case (Some(u), None) => Some(FilterNonEmpty(u))
    case (None, Some(t)) => Some(FilterNew(t, []))
    case (Some(u), Some(t)) => Some(FilterNonEmpty(u) + FilterNew(t, FilterNonEmpty(u)))
  }

  /** The raw list behind a key, if any. */
  function ListOf(raw: RawMapping, key: Option<string>): Option<seq<string>>
    requires key.Some? ==> key.value in raw
  {
    match key
    case None => None
    case Some(k) => Some(raw[k])
  }

  /** The merge law: when no two internal keys parse to the same index, each
      slider of the result is the merge of its user list (from the last user
      key for it in traversal order) and its internal list. */
  lemma MergeLaw(user: RawMapping, userOrder: seq<string>, internal: RawMapping, internalOrder: seq<string>, i: int)
    requires Enumerates(userOrder, user.Keys) && Enumerates(internalOrder, internal.Keys)
    requires Injective(internal)
    ensures Entry(FromConfigs(user, userOrder, internal, internalOrder), i)
         == Merged(ListOf(user, LastFor(userOrder, i)), ListOf(internal, LastFor(internalOrder, i)))
  {
    var u := UserPhase(map[], user, userOrder);
    UserPhaseSlot(map[], user, userOrder, i);
    InternalPhaseSlotUnique(u, internal, internalOrder, i);
    var ut := ListOf(user, LastFor(userOrder, i));
    var existing := Get(u, i).0;
    assert existing == if ut.Some? then FilterNonEmpty(ut.value) else [];
    match LastFor(internalOrder, i)
    case None =>
    case Some(k) =>
      if ut.None? {
        assert existing + FilterNew(internal[k], existing) == FilterNew(internal[k], []);
      }
  }

  /** Without two keys for one index, the key found for an index does not
      depend on the traversal. */
  lemma SameLastFor(raw: RawMapping, a: seq<string>, b: seq<string>, i: int)
    requires Enumerates(a, raw.Keys) && Enumerates(b, raw.Keys) && Injective(raw)
    ensures LastFor(a, i) == LastFor(b, i)
  {
    var la := LastFor(a, i);
    var lb := LastFor(b, i);
    if la.Some? {
      assert la.value in raw;
      assert la.value in b;
    }
    if lb.Some? {
      assert lb.value in raw;
      assert lb.value in a;
    }
  }

  /** With no index named twice on either side, the merged map does not depend
      on either map's iteration order. */
  lemma FromConfigsOrderIndependent(user: RawMapping, uo: seq<string>, uo': seq<string>,
                                    internal: RawMapping, io: seq<string>, io': seq<string>)
    requires Enumerates(uo, user.Keys) && Enumerates(uo', user.Keys)
    requires Enumerates(io, internal.Keys) && Enumerates(io', internal.Keys)
    requires Injective(user) && Injective(internal)
    ensures FromConfigs(user, uo, internal, io) == FromConfigs(user, uo', internal, io')
  {
    var a := FromConfigs(user, uo, internal, io);
    var b := FromConfigs(user, uo', internal, io');
    forall i | i in a
      ensures a[i] == b[i]
    {
      MergeLaw(user, uo, internal, io, i);
      MergeLaw(user, uo', internal, io', i);
      SameLastFor(user, uo, uo', i);
      SameLastFor(internal, io, io', i);
    }
  }

  /** "0" parses to slider 0. */
  lemma AtoiZero()
    ensures Atoi("0") == Ok(0)
  {
    assert DigitsValue("0") == 0;
  }

  /** A user list with an empty entry merged with an internal list: empties
      dropped, targets the user already names not repeated. */
  lemma MergeExample()
    ensures FromConfigs(map["0" := ["a", ""]], ["0"], map["0" := ["b", "a"]], ["0"]) == map[0 := ["a", "b"]]
  {
    var user := map["0" := ["a", ""]];
    var internal := map["0" := ["b", "a"]];
    AtoiZero();
    var r := FromConfigs(user, ["0"], internal, ["0"]);
    assert ParsedIndices(user) == {0} && ParsedIndices(internal) == {0};
    MergeLaw(user, ["0"], internal, ["0"], 0);
    assert FilterNonEmpty(["a", ""]) == ["a"] by {
      assert ["a", ""][1..] == [""];
    }
    assert FilterNew(["b", "a"], ["a"]) == ["b"] by {
      assert ["b", "a"][1..] == ["a"];
    }
    assert r[0] == ["a", "b"];
  }

  /** Repeats within one internal list are kept, as only the targets already
      present are consulted. */
  lemma InternalRepeatsKept()
    ensures FromConfigs(map[], [], map["0" := ["a", "a"]], ["0"]) == map[0 := ["a", "a"]]
  {
    var user: RawMapping := map[];
    var internal := map["0" := ["a", "a"]];
    AtoiZero();
    var r := FromConfigs(user, [], internal, ["0"]);
    assert ParsedIndices(user) == {} && ParsedIndices(internal) == {0};
    MergeLaw(user, [], internal, ["0"], 0);
    FilterNewKeepsClean(["a", "a"], []);
    assert r[0] == ["a", "a"];
  }

  // ---------------------------------------------------------------------------
  // String
  // ---------------------------------------------------------------------------

  /** sliderMap.String's two counts: sliders mapped, and targets summed over a
      traversal of the map. */
  method Describe(m: SliderMap, order: seq<int>) returns (sliders: nat, targets: nat)
    requires Enumerates(order, m.Keys)
    ensures sliders == |m.Keys|
    ensures targets == Multimap.Total(m, order)
  {
    sliders := |m.Keys|;
    targets := 0;
    var n := 0;
    while n < |order|
      invariant 0 <= n <= |order|
      invariant targets == Multimap.Total(m, order[..n])
    {
      Multimap.TotalAppend(m, order[..n], [order[n]]);
      assert order[..n + 1] == order[..n] + [order[n]];
      targets := targets + |m[order[n]]|;
      n := n + 1;
    }
    assert order[..n] == order;
  }

  /** The target count does not depend on the traversal order. */
  lemma DescribeOrderIndependent(m: SliderMap, a: seq<int>, b: seq<int>)
    requires Enumerates(a, m.Keys) && Enumerates(b, m.Keys)
    ensures Multimap.Total(m, a) == Multimap.Total(m, b)
  {
    Multimap.TraversalIndependent(m, a, b);
  }
}
