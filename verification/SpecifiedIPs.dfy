/** Address lists in workload annotations (pkg/kube/specified_ip_util.go and the judgement in specified_ip.go). */
module SpecifiedIPs {
  import opened Common

  const SPECIFIED_IPS := "ipam.caicloud.io/specified-ips"
  const DECREASING := "controller.caicloud.io/specified-ips-decreasing"
  const RELEASE_LABEL := "controller.caicloud.io/release"

  datatype IPSet = IPSet(network: string, subnet: string, ips: seq<string>)

  /** JSON decoding and net.ParseIP are foreign: functions of their text. */
  datatype Library = Library(decode: string -> Option<seq<IPSet>>, isIP: string -> bool)

  // ---------- Annotations ----------

  /** A Go string map: possibly nil. */
  type StringMap = Option<map<string, string>>

  /** The value under a key, and whether the key is there. */
  function Get(m: StringMap, k: string): (string, bool) {
    if m.Some? && k in m.value then (m.value[k], true) else ("", false)
  }

  /**
   setRuntimeObjectAnnotationValue: for an object without any annotations the source writes to a
   new map that it never attaches, yet reports an update.
   */
  function Set(m: StringMap, k: string, v: string): (StringMap, bool) {
    match m
    case None => (None, true)
    case Some(present) => (Some(present[k := v]), k !in present || present[k] != v)
  }

  /** A written value can be read back exactly when the object had an annotation map. */
  lemma SetIsReadBackIff(m: StringMap, k: string, v: string)
    ensures Get(Set(m, k, v).0, k) == (v, true) <==> m.Some?
    ensures m.Some? ==> (Set(m, k, v).1 <==> Get(m, k) != (v, true))
    ensures forall other | other != k :: Get(Set(m, k, v).0, other) == Get(m, other)
  {
  }

  /** A workload's annotations after the intermediate write of a shrink. */
  function MarkedAnnotations(current: StringMap, target: string): StringMap {
    Set(Set(current, SPECIFIED_IPS, target).0, DECREASING, "").0
  }

  lemma MarkerIsWritten(current: StringMap, target: string)
    requires current.Some?
    ensures Get(MarkedAnnotations(current, target), SPECIFIED_IPS).0 == target
    ensures Get(MarkedAnnotations(current, target), DECREASING) == ("", true)
  {
    assert |SPECIFIED_IPS| != |DECREASING|;
  }

  // ---------- Validation ----------

  function SetKey(s: IPSet): string {
    s.network + "/" + s.subnet
  }

  /** All addresses of a list of sets, in order. */
  function AllIPs(sets: seq<IPSet>): seq<string> {
    if sets == [] then [] else AllIPs(sets[..|sets| - 1]) + sets[|sets| - 1].ips
  }

  /** Every set names a network and an address, and no two sets share network and subnet. */
  ghost predicate KeysValid(sets: seq<IPSet>) {
    && (forall s | s in sets :: s.network != "" && s.ips != [])
    && (forall i, j | 0 <= i < j < |sets| :: SetKey(sets[i]) != SetKey(sets[j]))
  }

  /** Moreover no address occurs twice anywhere, and each is one. */
  ghost predicate ValidSets(sets: seq<IPSet>, lib: Library) {
    && KeysValid(sets)
    && Distinct(AllIPs(sets))
    && (forall ip | ip in AllIPs(sets) :: lib.isIP(ip))
  }

  lemma AllIPsStep(sets: seq<IPSet>, i: nat)
    requires i < |sets|
    ensures AllIPs(sets[..i + 1]) == AllIPs(sets[..i]) + sets[i].ips
  {
    assert sets[..i + 1][..i] == sets[..i];
  }

  lemma {:induction false} AllIPsPrefix(sets: seq<IPSet>, i: nat)
    requires i <= |sets|
    ensures AllIPs(sets[..i]) <= AllIPs(sets)
    decreases |sets| - i
  {
    if i < |sets| {
      AllIPsStep(sets, i);
      AllIPsPrefix(sets, i + 1);
    } else {
      assert sets[..i] == sets;
    }
  }

  /** The first loop of validateSpecifiedIPsSets. */
  method ValidateKeys(sets: seq<IPSet>) returns (ok: bool)
    ensures ok <==> KeysValid(sets)
  {
    var keys: set<string> := {};
    for i := 0 to |sets|
      invariant forall j | 0 <= j < i :: sets[j].network != "" && sets[j].ips != [] && SetKey(sets[j]) in keys
      invariant forall k | k in keys :: exists j | 0 <= j < i :: SetKey(sets[j]) == k
      invariant forall j, k | 0 <= j < k < i :: SetKey(sets[j]) != SetKey(sets[k])
    {
      var s := sets[i];
      if s.network == "" || |s.ips| == 0 {
        assert s in sets;
        return false;
      }
      if SetKey(s) in keys {
        return false;
      }
      keys := keys + {SetKey(s)};
    }
    return true;
  }

  /** The inner loop over one set, with the addresses seen before. */
  method ValidateAddresses(ips: seq<string>, seen: set<string>, ghost before: seq<string>, lib: Library)
    returns (ok: bool, all: set<string>)
    requires Distinct(before) && forall ip :: ip in before <==> ip in seen
    ensures ok <==> Distinct(before + ips) && forall ip | ip in ips :: lib.isIP(ip)
    ensures ok ==> forall ip :: ip in before + ips <==> ip in all
  {
    all := seen;
    for i := 0 to |ips|
      invariant Distinct(before + ips[..i])
      invariant forall ip :: ip in before + ips[..i] <==> ip in all
      invariant forall j | 0 <= j < i :: lib.isIP(ips[j])
    {
      var ip := ips[i];
      if !lib.isIP(ip) {
        assert ip in ips;
        return false, all;
      }
      if ip in all {
        ghost var j :| 0 <= j < |before| + i && (before + ips[..i])[j] == ip;
        assert (before + ips)[j] == ip && (before + ips)[|before| + i] == ip;
        return false, all;
      }
      all := all + {ip};
      assert before + ips[..i + 1] == (before + ips[..i]) + [ip];
    }
    assert ips[..|ips|] == ips;
    return true, all;
  }

  method ValidateSets(sets: seq<IPSet>, lib: Library) returns (ok: bool)
    ensures ok <==> ValidSets(sets, lib)
  {
    if |sets| == 0 {
      return true;
    }
    ok := ValidateKeys(sets);
    if !ok {
      return;
    }
    var seen: set<string> := {};
    for i := 0 to |sets|
      invariant Distinct(AllIPs(sets[..i]))
      invariant forall ip :: ip in AllIPs(sets[..i]) <==> ip in seen
      invariant forall ip | ip in AllIPs(sets[..i]) :: lib.isIP(ip)
    {
      ghost var before := AllIPs(sets[..i]);
      AllIPsStep(sets, i);
      var good, all := ValidateAddresses(sets[i].ips, seen, before, lib);
      if !good {
        AllIPsPrefix(sets, i + 1);
        PrefixInvalid(before + sets[i].ips, AllIPs(sets), lib);
        return false;
      }
      seen := all;
    }
    assert sets[..|sets|] == sets;
    return true;
  }

  lemma PrefixInvalid(p: seq<string>, all: seq<string>, lib: Library)
    requires p <= all && !(Distinct(p) && forall ip | ip in p :: lib.isIP(ip))
    ensures !(Distinct(all) && forall ip | ip in all :: lib.isIP(ip))
  {
    if !Distinct(p) {
      var i, j :| 0 <= i < j < |p| && p[i] == p[j];
      assert all[i] == all[j];
    } else {
      var ip :| ip in p && !lib.isIP(ip);
      assert ip in all;
    }
  }

  // ---------- Parsing ----------

  /** parseSpecifiedIPSetsFromString up to the order of sets and addresses. */
  ghost function Parse(raw: string, lib: Library): Result<seq<IPSet>, ()> {
    if raw == "" then Ok([])
    else match lib.decode(raw)
         case None => Err(())
         case Some(sets) => if ValidSets(sets, lib) then Ok(sets) else Err(())
  }

  method ParseSets(raw: string, lib: Library) returns (r: Result<seq<IPSet>, ()>)
    ensures r == Parse(raw, lib)
  {
    if |raw| == 0 {
      return Ok([]);
    }
    match lib.decode(raw)
    case None => return Err(());
    case Some(sets) =>
      var ok := ValidateSets(sets, lib);
      return if ok then Ok(sets) else Err(());
  }

  /** The addresses an annotation grants; none when it does not parse. */
  ghost function Addresses(raw: string, lib: Library): set<string> {
    match Parse(raw, lib)
    case Ok(sets) => set ip | ip in AllIPs(sets)
    case Err(_) => {}
  }

  /** ipSets2AddressMap. */
  method AddressMap(sets: seq<IPSet>) returns (m: set<string>)
    ensures m == set ip | ip in AllIPs(sets)
  {
    m := {};
    for i := 0 to |sets|
      invariant m == set ip | ip in AllIPs(sets[..i])
    {
      AllIPsStep(sets, i);
      for j := 0 to |sets[i].ips|
        invariant m == set ip | ip in AllIPs(sets[..i]) + sets[i].ips[..j]
      {
        m := m + {sets[i].ips[j]};
        assert AllIPs(sets[..i]) + sets[i].ips[..j + 1] == (AllIPs(sets[..i]) + sets[i].ips[..j]) + [sets[i].ips[j]];
      }
      assert sets[i].ips[..|sets[i].ips|] == sets[i].ips;
    }
    assert sets[..|sets|] == sets;
  }

  // ---------- Judgement ----------

  /** Whether an update must go through the shrinking protocol; an error for an unusable target. */
  ghost function Judge(target: StringMap, existing: StringMap, lib: Library): Result<bool, ()> {
    var t, e := Get(target, SPECIFIED_IPS).0, Get(existing, SPECIFIED_IPS).0;
    if Get(existing, DECREASING).1 then Ok(true)
    else if t == e then Ok(false)
    else if Parse(t, lib).Err? then Err(())
    else Ok(!(Addresses(e, lib) <= Addresses(t, lib)))
  }

  method JudgeDecreasing(target: StringMap, existing: StringMap, lib: Library) returns (r: Result<bool, ()>)
    ensures r == Judge(target, existing, lib)
  {
    var (_, decreasing) := Get(existing, DECREASING);
    if decreasing {
      return Ok(true);
    }
    var (targetRaw, _) := Get(target, SPECIFIED_IPS);
    var (existingRaw, _) := Get(existing, SPECIFIED_IPS);
    if targetRaw == existingRaw {
      return Ok(false);
    }
    var targetIPs := ParseSets(targetRaw, lib);
    if targetIPs.Err? {
      return Err(());
    }
    var existingIPs := ParseSets(existingRaw, lib);
    if existingIPs.Err? || |existingIPs.value| == 0 {
      return Ok(false);
    }
    var m := AddressMap(targetIPs.value);
    var covered := Covered(existingIPs.value, m);
    return Ok(!covered);
  }

  /** The nested loop over the existing addresses. */
  method Covered(sets: seq<IPSet>, m: set<string>) returns (covered: bool)
    ensures covered <==> forall ip | ip in AllIPs(sets) :: ip in m
  {
    for i := 0 to |sets|
      invariant forall ip | ip in AllIPs(sets[..i]) :: ip in m
    {
      AllIPsStep(sets, i);
      AllIPsPrefix(sets, i + 1);
      for j := 0 to |sets[i].ips|
        invariant forall k | 0 <= k < j :: sets[i].ips[k] in m
      {
        if sets[i].ips[j] !in m {
          assert AllIPs(sets[..i + 1])[|AllIPs(sets[..i])| + j] == sets[i].ips[j];
          assert sets[i].ips[j] in AllIPs(sets);
          return false;
        }
      }
    }
    assert sets[..|sets|] == sets;
    return true;
  }
}
