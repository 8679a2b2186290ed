/** Target names: how a configured target resolves to session keys, and which
    sessions count as already mapped to some slider. */
module Targets {
  import opened Base
  import opened Text
  import opened Sessions
  import SliderMapping

  const SpecialTargetTransformPrefix: string := "deej."
  const SpecialTargetCurrentWindow: string := "current"
  const SpecialTargetAllUnmapped: string := "unmapped"

  /** What resolution may consult: the foreground-window query's answer (None
      when it failed) and the sessions currently tracked as unmapped. */
  datatype ResolveContext = ResolveContext(currentWindow: Option<seq<string>>, unmapped: seq<Session>)

  /** targetHasSpecialTransform. */
  predicate HasSpecialTransform(target: string)
  {
    HasPrefix(target, SpecialTargetTransformPrefix)
  }

  /** getCurrentWindowProcessNames: the foreground process names lower-cased,
      first occurrences only; nothing when the query failed. */
  function CurrentWindowTargets(currentWindow: Option<seq<string>>): (r: seq<string>)
    ensures NoDup(r)
    ensures forall k | 0 <= k < |r| :: IsLowercase(r[k])
    ensures currentWindow.None? ==> r == []
    ensures currentWindow.Some? ==> forall x :: x in r <==> exists j | 0 <= j < |currentWindow.value| :: x == Lower(currentWindow.value[j])
  {
    match currentWindow
    case None => []
    case Some(names) =>
      var lowered := seq(|names|, j requires 0 <= j < |names| => Lower(names[j]));
      assert forall x :: x in lowered <==> exists j | 0 <= j < |names| :: x == Lower(names[j]) by {
        forall x | x in lowered
          ensures exists j | 0 <= j < |names| :: x == Lower(names[j])
        {
          var j :| 0 <= j < |lowered| && lowered[j] == x;
        }
        forall x, j | 0 <= j < |names| && x == Lower(names[j])
          ensures x in lowered
        {
          assert lowered[j] == x;
        }
      }
      var r := Uniq(lowered);
      assert forall k | 0 <= k < |r| :: r[k] in lowered;
      r
  }

  /** getUnmappedSessionKeys: the keys of the unmapped sessions, in order. */
  function UnmappedKeys(unmapped: seq<Session>): (r: seq<string>)
    ensures |r| == |unmapped|
    ensures forall k | 0 <= k < |r| :: r[k] == Key(unmapped[k])
  {
    seq(|unmapped|, k requires 0 <= k < |unmapped| => Key(unmapped[k]))
  }

  /** applyTargetTransform: the special name after the prefix picks a target
      list; an unknown special name resolves to nothing. */
  function ApplyTargetTransform(name: string, ctx: ResolveContext): (r: seq<string>)
    ensures name != SpecialTargetCurrentWindow && name != SpecialTargetAllUnmapped ==> r == []
  {
    if name == SpecialTargetCurrentWindow then CurrentWindowTargets(ctx.currentWindow)
    else if name == SpecialTargetAllUnmapped then UnmappedKeys(ctx.unmapped)
    else []
  }

  /** resolveTarget: a target is compared in lower case; a special target
      expands to its list, any other target stands for itself. */
  function Resolve(target: string, ctx: ResolveContext): (r: seq<string>)
    ensures !HasSpecialTransform(Lower(target)) ==> r == [Lower(target)]
    ensures forall k | 0 <= k < |r| :: IsLowercase(r[k])
  {
    var t := Lower(target);
    if HasSpecialTransform(t) then ApplyTargetTransform(TrimPrefix(t, SpecialTargetTransformPrefix), ctx)
    else [t]
  }

  /** Resolution ignores case: a target and its lower-cased form resolve alike. */
  lemma ResolveIgnoresCase(target: string, ctx: ResolveContext)
    ensures Resolve(target, ctx) == Resolve(Lower(target), ctx)
  {
    LowerFixesExactlyLowercase(Lower(target));
  }

  /** "deej.current" resolves to the foreground process names, "deej.unmapped"
      to the unmapped sessions' keys, in any letter case. */
  lemma ResolveSpecialTargets(ctx: ResolveContext)
    ensures Resolve("deej.current", ctx) == CurrentWindowTargets(ctx.currentWindow)
    ensures Resolve("DEEJ.Unmapped", ctx) == UnmappedKeys(ctx.unmapped)
  {
    assert Lower("deej.current") == "deej.current";
    assert Lower("DEEJ.Unmapped") == "deej.unmapped";
    assert "deej.current"[5..] == "current";
    assert "deej.unmapped"[5..] == "unmapped";
  }

  // ---------------------------------------------------------------------------
  // Device keys: the pattern `^.+ \(.+\)$`
  // ---------------------------------------------------------------------------

  /** A friendly device name such as "headphones (realtek audio)": some text, a
      space and an opening parenthesis, more text, and a closing parenthesis at
      the end; `.` does not match a line break. */
  predicate IsDeviceKey(k: string)
  {
    && |k| >= 5
    && k[|k| - 1] == ')'
    && '\n' !in k
    && exists i | 1 <= i <= |k| - 4 :: k[i] == ' ' && k[i + 1] == '('
  }

  /** The pattern matches exactly the strings a + " (" + b + ")" with a and b
      non-empty and free of line breaks. */
  lemma DeviceKeyShape(k: string)
    ensures IsDeviceKey(k) <==>
      exists a: string, b: string | |a| > 0 && |b| > 0 && '\n' !in a && '\n' !in b :: k == a + " (" + b + ")"
  {
    if IsDeviceKey(k) {
      var i :| 1 <= i <= |k| - 4 && k[i] == ' ' && k[i + 1] == '(';
      var a, b := k[..i], k[i + 2..|k| - 1];
      assert k == a + " (" + b + ")";
      assert '\n' !in a && '\n' !in b by {
        assert forall j | 0 <= j < |a| :: a[j] == k[j];
        assert forall j | 0 <= j < |b| :: b[j] == k[i + 2 + j];
      }
    }
    if exists a: string, b: string | |a| > 0 && |b| > 0 && '\n' !in a && '\n' !in b :: k == a + " (" + b + ")" {
      var a: string, b: string :| |a| > 0 && |b| > 0 && '\n' !in a && '\n' !in b && k == a + " (" + b + ")";
      assert k[|a|] == ' ' && k[|a| + 1] == '(';
      assert forall j | 0 <= j < |k| :: k[j] == '\n' ==> false by {
        forall j | 0 <= j < |k|
          ensures k[j] != '\n'
        {
          if j < |a| {
            assert k[j] == a[j];
          } else if |a| + 2 <= j < |k| - 1 {
            assert k[j] == b[j - |a| - 2];
          }
        }
      }
    }
  }

  // ---------------------------------------------------------------------------
  // sessionMapped
  // ---------------------------------------------------------------------------

  /** The reserved names and device keys count as mapped whatever the sliders say. */
  predicate AlwaysMapped(key: string)
  {
    key in [MasterSessionName, SystemSessionName, InputSessionName] || IsDeviceKey(key)
  }

  /** Some slider has a plain (non-special, compared in lower case) target
      naming `key`. */
  predicate NamedByPlainTarget(key: string, mapping: SliderMapping.SliderMap)
  {
    exists i | i in mapping :: exists t | t in mapping[i] :: PlainTargetNames(t, key)
  }

  /** A target that is not special, in lower case, and names `key`. */
  predicate PlainTargetNames(t: string, key: string)
  {
    !HasSpecialTransform(Lower(t)) && Lower(t) == key
  }

  /** sessionMapped, as evidently intended: a target is special when its
      lower-cased form carries the prefix, and special targets are skipped. */
  function ScanTargets(targets: seq<string>, key: string): (found: bool)
    ensures found <==> exists t | t in targets :: PlainTargetNames(t, key)
  {
    if |targets| == 0 then false
    else if PlainTargetNames(targets[0], key) then true
    else ScanTargets(targets[1..], key)
  }

  /** sessionMapped over a traversal of the slider map. */
  function ScanSliders(mapping: SliderMapping.SliderMap, order: seq<int>, key: string): (found: bool)
    requires forall j | 0 <= j < |order| :: order[j] in mapping
    ensures found <==> exists j | 0 <= j < |order| :: ScanTargets(mapping[order[j]], key)
  {
    if |order| == 0 then false
    else ScanTargets(mapping[order[0]], key) || ScanSliders(mapping, order[1..], key)
  }

  /** sessionMapped (corrected): reserved names and device keys, or a plain
      target naming the key on some slider. */
  function SessionMapped(key: string, mapping: SliderMapping.SliderMap, order: seq<int>): (r: bool)
    requires Enumerates(order, mapping.Keys)
    ensures r <==> AlwaysMapped(key) || NamedByPlainTarget(key, mapping)
  {
    if AlwaysMapped(key) then true
    else
      assert ScanSliders(mapping, order, key) <==> NamedByPlainTarget(key, mapping) by {
        if NamedByPlainTarget(key, mapping) {
          var i :| i in mapping && exists t | t in mapping[i] :: PlainTargetNames(t, key);
          var j :| 0 <= j < |order| && order[j] == i;
          assert ScanTargets(mapping[order[j]], key);
        }
        if ScanSliders(mapping, order, key) {
          var j :| 0 <= j < |order| && ScanTargets(mapping[order[j]], key);
          var i := order[j];
          assert i in mapping.Keys;
          var t :| t in mapping[i] && PlainTargetNames(t, key);
          assert NamedByPlainTarget(key, mapping);
        }
      }
      ScanSliders(mapping, order, key)
  }

  // ---------------------------------------------------------------------------
  // sessionMapped as written
  // ---------------------------------------------------------------------------

  /** The run-time failure of indexing the first element of an empty list. */
  datatype Panic = IndexOutOfRange

  /** One slider's targets as written: the prefix is checked on the target as
      configured, the first resolved key is compared, and the scan of this
      slider stops at the first match. */
  function ScanTargetsAsWritten(targets: seq<string>, key: string, ctx: ResolveContext): (r: Result<bool, Panic>)
  {
    if |targets| == 0 then Ok(false)
    else if HasSpecialTransform(targets[0]) then ScanTargetsAsWritten(targets[1..], key, ctx)
    else
      var resolved := Resolve(targets[0], ctx);
      if |resolved| == 0 then Err(IndexOutOfRange)
      else if resolved[0] == key then Ok(true)
      else ScanTargetsAsWritten(targets[1..], key, ctx)
  }

  /** All sliders as written: every slider is scanned, and a panic on any of
      them ends the call. */
  function ScanSlidersAsWritten(mapping: SliderMapping.SliderMap, order: seq<int>, key: string, ctx: ResolveContext): (r: Result<bool, Panic>)
    requires forall j | 0 <= j < |order| :: order[j] in mapping
    ensures r.Err? <==> exists j | 0 <= j < |order| :: ScanTargetsAsWritten(mapping[order[j]], key, ctx).Err?
    ensures r.Ok? ==> (r.value <==> exists j | 0 <= j < |order| :: ScanTargetsAsWritten(mapping[order[j]], key, ctx) == Ok(true))
  {
    if |order| == 0 then Ok(false)
    else
      match ScanTargetsAsWritten(mapping[order[0]], key, ctx)
      case Err(p) => Err(p)
      case Ok(here) =>
        match ScanSlidersAsWritten(mapping, order[1..], key, ctx)
        case Err(p) => Err(p)
        case Ok(rest) => Ok(here || rest)
  }

  /** sessionMapped as written. */
  function SessionMappedAsWritten(key: string, mapping: SliderMapping.SliderMap, order: seq<int>, ctx: ResolveContext): (r: Result<bool, Panic>)
    requires Enumerates(order, mapping.Keys)
    ensures AlwaysMapped(key) ==> r == Ok(true)
  {
    if AlwaysMapped(key) then Ok(true) else ScanSlidersAsWritten(mapping, order, key, ctx)
  }

  /** A target the as-written test treats as plain although it resolves as special. */
  predicate MixedCaseSpecial(t: string)
  {
    !HasSpecialTransform(t) && HasSpecialTransform(Lower(t))
  }

  /** Without such targets on a slider, the as-written scan of it agrees with the corrected one. */
  lemma {:induction false} ScanTargetsAgree(targets: seq<string>, key: string, ctx: ResolveContext)
    requires forall j | 0 <= j < |targets| :: !MixedCaseSpecial(targets[j])
    ensures ScanTargetsAsWritten(targets, key, ctx) == Ok(ScanTargets(targets, key))
  {
    if |targets| > 0 {
      var t := targets[0];
      assert !MixedCaseSpecial(t);
      if HasSpecialTransform(t) {
        assert HasSpecialTransform(Lower(t)) by {
          assert forall j | 0 <= j < |SpecialTargetTransformPrefix| :: !IsUpper(SpecialTargetTransformPrefix[j]);
          assert forall j | 0 <= j < |SpecialTargetTransformPrefix| :: Lower(t)[j] == LowerChar(t[j]) == t[j];
        }
      }
      ScanTargetsAgree(targets[1..], key, ctx);
    }
  }

  /** Without mixed-case special targets anywhere in the mapping, sessionMapped
      as written never panics and agrees with the corrected version. */
  lemma AsWrittenAgrees(key: string, mapping: SliderMapping.SliderMap, order: seq<int>, ctx: ResolveContext)
    requires Enumerates(order, mapping.Keys)
    requires forall i | i in mapping :: forall t | t in mapping[i] :: !MixedCaseSpecial(t)
    ensures SessionMappedAsWritten(key, mapping, order, ctx) == Ok(SessionMapped(key, mapping, order))
  {
    forall j | 0 <= j < |order|
      ensures ScanTargetsAsWritten(mapping[order[j]], key, ctx) == Ok(ScanTargets(mapping[order[j]], key))
    {
      var i := order[j];
      assert i in mapping.Keys;
      var ts := mapping[i];
      assert forall t | t in ts :: !MixedCaseSpecial(t);
      forall k | 0 <= k < |ts|
        ensures !MixedCaseSpecial(ts[k])
      {
        assert ts[k] in ts;
      }
      ScanTargetsAgree(ts, key, ctx);
    }
  }

  /** The discrepancy: with slider 0 mapped to "Deej.foo", asking whether
      "chrome.exe" is mapped fails with an index out of range; the corrected
      version answers no. */
  lemma AsWrittenPanics(ctx: ResolveContext)
    ensures SessionMappedAsWritten("chrome.exe", map[0 := ["Deej.foo"]], [0], ctx) == Err(IndexOutOfRange)
    ensures !SessionMapped("chrome.exe", map[0 := ["Deej.foo"]], [0])
  {
    var t := "Deej.foo";
    assert !HasSpecialTransform(t) by {
      assert t[..5] != SpecialTargetTransformPrefix by {
        assert t[0] != SpecialTargetTransformPrefix[0];
      }
    }
    assert Lower(t) == "deej.foo";
    assert TrimPrefix("deej.foo", SpecialTargetTransformPrefix) == "foo";
    assert Resolve(t, ctx) == [];
    assert ScanTargetsAsWritten([t], "chrome.exe", ctx) == Err(IndexOutOfRange);
    assert !AlwaysMapped("chrome.exe") by {
      assert "chrome.exe"[|"chrome.exe"| - 1] != ')';
    }
  }
}
