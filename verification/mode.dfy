/**
 * Availability-mode detection of the daemon: whether the node profiles call
 * for the high-availability mode (one phc2sys profile watching several ptp4l
 * profiles), and whether a ptp4l configuration describes a single
 * time-transmitter-only clock (T-TSC).
 */
module Mode {
  import opened Wrappers
  import opened GoStrings
  import opened GoStrconv

  /** A node profile, reduced to whether it carries ptp4l options and phc2sys options. */
  datatype Profile = Profile(hasPtp4lOpts: bool, hasPhc2sysOpts: bool)

  /** The number of profiles that satisfy `f`. */
  function CountWhere(ps: seq<Profile>, f: Profile -> bool): (n: nat)
    ensures n <= |ps|
  {
    if ps == [] then 0 else CountWhere(ps[..|ps| - 1], f) + (if f(ps[|ps| - 1]) then 1 else 0)
  }

  function Phc2sys(p: Profile): bool { p.hasPhc2sysOpts }
  function Ptp4l(p: Profile): bool { p.hasPtp4lOpts }

  /**
   * The high-availability mode: no profile carries both sets of options,
   * exactly one carries phc2sys options and at least one carries ptp4l options.
   */
  predicate HighAvailability(ps: seq<Profile>) {
    (forall i :: 0 <= i < |ps| ==> !(ps[i].hasPtp4lOpts && ps[i].hasPhc2sysOpts))
    && CountWhere(ps, Phc2sys) == 1
    && CountWhere(ps, Ptp4l) >= 1
  }

  /** The daemon's mode check: counts phc2sys and ptp4l profiles, giving up on the first profile that has both. */
  method IsHighAvailability(profiles: seq<Profile>) returns (ha: bool)
    ensures ha == HighAvailability(profiles)
  {
    var phc2sysCount := 0;
    var ptp4lCount := 0;
    var i := 0;
    while i < |profiles|
      invariant 0 <= i <= |profiles|
      invariant forall k :: 0 <= k < i ==> !(profiles[k].hasPtp4lOpts && profiles[k].hasPhc2sysOpts)
      invariant phc2sysCount == CountWhere(profiles[..i], Phc2sys)
      invariant ptp4lCount == CountWhere(profiles[..i], Ptp4l)
    {
      var profile := profiles[i];
      assert profiles[..i + 1][..i] == profiles[..i];
      if profile.hasPtp4lOpts && profile.hasPhc2sysOpts {
        return false;
      }
      if profile.hasPhc2sysOpts {
        phc2sysCount := phc2sysCount + 1;
      }
      if profile.hasPtp4lOpts {
        ptp4lCount := ptp4lCount + 1;
      }
      i := i + 1;
    }
    assert profiles[..i] == profiles;
    return phc2sysCount == 1 && ptp4lCount >= 1;
  }

  /** Counting over a concatenation adds up. */
  lemma {:induction false} CountAppend(s: seq<Profile>, t: seq<Profile>, f: Profile -> bool)
    ensures CountWhere(s + t, f) == CountWhere(s, f) + CountWhere(t, f)
    decreases |t|
  {
    if t == [] {
      assert s + t == s;
    } else {
      var t0 := t[..|t| - 1];
      assert (s + t)[..|s + t| - 1] == s + t0;
      CountAppend(s, t0, f);
    }
  }

  /** Removing one profile from the middle lowers the count by that profile's share. */
  lemma {:induction false} CountRemove(s: seq<Profile>, j: nat, f: Profile -> bool)
    requires j < |s|
    ensures CountWhere(s, f) == CountWhere(s[..j] + s[j + 1..], f) + (if f(s[j]) then 1 else 0)
  {
    assert s == s[..j] + [s[j]] + s[j + 1..];
    CountAppend(s[..j] + [s[j]], s[j + 1..], f);
    CountAppend(s[..j], [s[j]], f);
    CountAppend(s[..j], s[j + 1..], f);
    assert CountWhere([s[j]], f) == (if f(s[j]) then 1 else 0) by {
      assert [s[j]][..0] == [];
    }
  }

  /** Counts depend only on which profiles there are, not on their order. */
  lemma {:induction false} CountPermutation(s: seq<Profile>, t: seq<Profile>, f: Profile -> bool)
    requires multiset(s) == multiset(t)
    ensures CountWhere(s, f) == CountWhere(t, f)
    decreases |s|
  {
    if s == [] {
      assert |t| == |multiset(t)|;
    } else {
      var last := s[|s| - 1];
      assert last in multiset(t) by {
        assert last in s;
      }
      var j :| 0 <= j < |t| && t[j] == last;
      RemoveAt(s, |s| - 1);
      RemoveAt(t, j);
      assert s[..|s| - 1] + s[|s|..] == s[..|s| - 1];
      CountPermutation(s[..|s| - 1], t[..j] + t[j + 1..], f);
      CountRemove(t, j, f);
    }
  }

  /** Taking one element out of a sequence takes it out of its multiset. */
  lemma {:induction false} RemoveAt<T>(s: seq<T>, j: nat)
    requires j < |s|
    ensures multiset(s[..j] + s[j + 1..]) == multiset(s) - multiset{s[j]}
  {
    assert s == s[..j] + [s[j]] + s[j + 1..];
    assert multiset(s) == multiset(s[..j]) + multiset{s[j]} + multiset(s[j + 1..]);
  }

  /** The mode does not depend on the order of the profiles, although the check stops at the first conflicting one. */
  lemma {:induction false} HighAvailabilityPermutation(s: seq<Profile>, t: seq<Profile>)
    requires multiset(s) == multiset(t)
    ensures HighAvailability(s) == HighAvailability(t)
  {
    CountPermutation(s, t, Phc2sys);
    CountPermutation(s, t, Ptp4l);
    forall i | 0 <= i < |s|
      ensures s[i] in multiset(t)
    {
      assert s[i] in multiset(s);
    }
    forall i | 0 <= i < |t|
      ensures t[i] in multiset(s)
    {
      assert t[i] in multiset(t);
    }
  }

  /** No profiles, no high availability; a profile carrying both option sets rules it out. */
  lemma {:induction false} HighAvailabilityNeedsProfiles(ps: seq<Profile>, i: nat)
    requires i < |ps| && ps[i].hasPtp4lOpts && ps[i].hasPhc2sysOpts
    ensures !HighAvailability([]) && !HighAvailability(ps)
  {
  }

  /** One phc2sys profile beside ptp4l-only profiles is the high-availability layout. */
  lemma {:induction false} HighAvailabilityLayout(ptp4lProfiles: nat)
    requires ptp4lProfiles >= 1
    ensures HighAvailability([Profile(false, true)] + seq(ptp4lProfiles, _ => Profile(true, false)))
  {
    var ps := seq(ptp4lProfiles, _ => Profile(true, false));
    PtpOnlyCounts(ptp4lProfiles);
    CountAppend([Profile(false, true)], ps, Phc2sys);
    CountAppend([Profile(false, true)], ps, Ptp4l);
    assert [Profile(false, true)][..0] == [];
  }

  lemma {:induction false} PtpOnlyCounts(n: nat)
    ensures CountWhere(seq(n, _ => Profile(true, false)), Phc2sys) == 0
    ensures CountWhere(seq(n, _ => Profile(true, false)), Ptp4l) == n
  {
    if n > 0 {
      PtpOnlyCounts(n - 1);
      assert seq(n, _ => Profile(true, false))[..n - 1] == seq(n - 1, _ => Profile(true, false));
    }
  }

  const TTscOnlyDirective: string := "masterOnly"

  /**
   * A section of the ptp4l configuration, as the INI library gives it: its name
   * and what section.Key("masterOnly").Int() returns for it.
   */
  datatype IniSection = IniSection(name: string, masterOnly: NumResult)

  /** What the profile's ptp4l configuration gives: none at all, text the INI loader rejects, or its sections in order. */
  datatype Ptp4lConf = NoPtp4lConf | LoadFailed | Loaded(sections: seq<IniSection>)

  /** Sections that describe no interface: the global ones, the unicast master tables and the loader's DEFAULT section. */
  predicate NotAnInterface(name: string) {
    Contains(name, "global") || Contains(name, "unicast_master_table") || name == "DEFAULT" || name == "global"
  }

  /**
   * A section with key/value pairs `keys`: Key.Int reads the masterOnly text with
   * ParseInt in base 0, and a missing key reads as empty text.
   */
  function SectionOf(name: string, keys: map<string, string>): (s: IniSection)
    ensures TTscOnlyDirective !in keys ==> s.masterOnly == SyntaxError
  {
    var text := if TTscOnlyDirective in keys then keys[TTscOnlyDirective] else "";
    IniSection(name, ParseInt(text, 0, 64))
  }

  /** The interface sections, in order. */
  function Interfaces(sections: seq<IniSection>): (r: seq<IniSection>)
    ensures |r| <= |sections|
  {
    if sections == [] then []
    else
      var last := sections[|sections| - 1];
      Interfaces(sections[..|sections| - 1]) + (if NotAnInterface(last.name) then [] else [last])
  }

  /**
   * The sum of the masterOnly values, as Key.Int reads them (ParseInt with base 0),
   * added in Go's wrapping 64-bit arithmetic; None if one of them is not an int.
   */
  function MasterOnlySum(sections: seq<IniSection>): Option<Int64> {
    if sections == [] then Some(0)
    else
      match MasterOnlySum(sections[..|sections| - 1])
      case None => None
      case Some(sum) =>
        var v := sections[|sections| - 1].masterOnly;
        if v.Parsed? then Some(Wrap64(sum + v.n)) else None
  }

  /**
   * A single T-TSC: the configuration loads, every interface section has an
   * integer masterOnly, and the interface count less the sum of those values is
   * 1 in 64-bit arithmetic.
   */
  predicate SingleTTsc(conf: Ptp4lConf) {
    conf.Loaded?
    && var ifs := Interfaces(conf.sections);
       MasterOnlySum(ifs).Some? && Wrap64(|ifs| - MasterOnlySum(ifs).value) == 1
  }

  /** isSingleTTsc: counts the interface sections and adds up their masterOnly values in a loop. */
  method IsSingleTTsc(conf: Ptp4lConf) returns (single: bool)
    ensures single == SingleTTsc(conf)
  {
    if conf.NoPtp4lConf? || conf.LoadFailed? {
      return false;
    }
    var sections := conf.sections;
    var tBcOnlyCount: Int64 := 0;
    var interfaceCount := 0;
    ghost var ifs: seq<IniSection> := [];
    var i := 0;
    while i < |sections|
      invariant 0 <= i <= |sections|
      invariant ifs == Interfaces(sections[..i])
      invariant interfaceCount == |ifs|
      invariant MasterOnlySum(ifs) == Some(tBcOnlyCount)
    {
      var section := sections[i];
      InterfacesStep(sections, i);
      if NotAnInterface(section.name) {
        i := i + 1;
        continue;
      }
      interfaceCount := interfaceCount + 1;
      var tBcOnlyFlag := section.masterOnly;
      SumStep(ifs, section);
      if !tBcOnlyFlag.Parsed? {
        InterfacesPrefixFails(sections, i + 1);
        return false;
      }
      tBcOnlyCount := Wrap64(tBcOnlyCount + tBcOnlyFlag.n);
      ifs := ifs + [section];
      i := i + 1;
    }
    assert sections[..i] == sections;
    single := Wrap64(interfaceCount - tBcOnlyCount) == 1;
    FinalCount(sections, ifs, interfaceCount, tBcOnlyCount);
  }

  /** After the loop: the counts it kept decide the outcome. */
  lemma {:induction false} FinalCount(sections: seq<IniSection>, ifs: seq<IniSection>, count: int, sum: Int64)
    requires ifs == Interfaces(sections) && count == |ifs| && MasterOnlySum(ifs) == Some(sum)
    ensures SingleTTsc(Loaded(sections)) == (Wrap64(count - sum) == 1)
  {
  }

  /** One more section: the interface sections grow by it when it is one. */
  lemma {:induction false} InterfacesStep(sections: seq<IniSection>, i: nat)
    requires i < |sections|
    ensures NotAnInterface(sections[i].name) ==> Interfaces(sections[..i + 1]) == Interfaces(sections[..i])
    ensures !NotAnInterface(sections[i].name) ==> Interfaces(sections[..i + 1]) == Interfaces(sections[..i]) + [sections[i]]
  {
    assert sections[..i + 1][..i] == sections[..i];
    assert Interfaces(sections[..i]) + [] == Interfaces(sections[..i]);
  }

  /** One more interface section adds its masterOnly value to the sum, or makes it fail. */
  lemma {:induction false} SumStep(xs: seq<IniSection>, section: IniSection)
    ensures MasterOnlySum(xs + [section])
         == var v := section.masterOnly;
            if MasterOnlySum(xs).Some? && v.Parsed? then Some(Wrap64(MasterOnlySum(xs).value + v.n)) else None
  {
    assert (xs + [section])[..|xs|] == xs;
  }

  /** The interface sections of a concatenation are those of its parts. */
  lemma {:induction false} InterfacesAppend(s: seq<IniSection>, t: seq<IniSection>)
    ensures Interfaces(s + t) == Interfaces(s) + Interfaces(t)
    decreases |t|
  {
    if t == [] {
      assert s + t == s;
      assert Interfaces(s) + [] == Interfaces(s);
    } else {
      var t0 := t[..|t| - 1];
      assert (s + t)[..|s + t| - 1] == s + t0;
      assert (s + t)[|s + t| - 1] == t[|t| - 1];
      InterfacesAppend(s, t0);
    }
  }

  /** Once a prefix has a masterOnly that is not an int, so does every extension. */
  lemma {:induction false} SumFailsOnExtension(s: seq<IniSection>, t: seq<IniSection>)
    requires MasterOnlySum(s).None?
    ensures MasterOnlySum(s + t).None?
    decreases |t|
  {
    if t == [] {
      assert s + t == s;
    } else {
      assert (s + t)[..|s + t| - 1] == s + t[..|t| - 1];
      SumFailsOnExtension(s, t[..|t| - 1]);
    }
  }

  /** A failing prefix makes the whole configuration fail. */
  lemma {:induction false} InterfacesPrefixFails(sections: seq<IniSection>, n: nat)
    requires n <= |sections|
    requires MasterOnlySum(Interfaces(sections[..n])).None?
    ensures !SingleTTsc(Loaded(sections))
  {
    assert sections == sections[..n] + sections[n..];
    InterfacesAppend(sections[..n], sections[n..]);
    SumFailsOnExtension(Interfaces(sections[..n]), Interfaces(sections[n..]));
  }

  /** An interface section whose masterOnly is missing or not an int rules out a single T-TSC, wherever it stands. */
  lemma {:induction false} MissingMasterOnlyRulesOut(sections: seq<IniSection>, i: nat)
    requires i < |sections| && !NotAnInterface(sections[i].name)
    requires !sections[i].masterOnly.Parsed?
    ensures !SingleTTsc(Loaded(sections))
  {
    InterfacesStep(sections, i);
    SumStep(Interfaces(sections[..i]), sections[i]);
    InterfacesPrefixFails(sections, i + 1);
  }

  /** Sections that describe no interface do not change the outcome. */
  lemma {:induction false} NonInterfaceIgnored(sections: seq<IniSection>, extra: IniSection)
    requires NotAnInterface(extra.name)
    ensures SingleTTsc(Loaded(sections + [extra])) == SingleTTsc(Loaded(sections))
  {
    var all := sections + [extra];
    assert all[..|sections|] == sections && all[..|sections| + 1] == all;
    InterfacesStep(all, |sections|);
  }

  /** A global section followed by one interface section that is not masterOnly is a single T-TSC. */
  lemma {:induction false} OneInterfaceIsSingle(global: IniSection, iface: IniSection)
    requires NotAnInterface(global.name) && !NotAnInterface(iface.name)
    requires iface.masterOnly == Parsed(0)
    ensures SingleTTsc(Loaded([global, iface]))
  {
    var conf := [global, iface];
    assert Interfaces(conf) == [iface] by {
      InterfacesStep(conf, 0);
      InterfacesStep(conf, 1);
      assert conf[..0] == [] && conf[..2] == conf;
    }
    assert MasterOnlySum([iface]) == Some(0 as Int64) by {
      assert [iface][..0] == [];
    }
  }

  /** A section that sets masterOnly to "0" reads it as the integer 0. */
  lemma {:induction false} ZeroMasterOnly(name: string)
    ensures SectionOf(name, map[TTscOnlyDirective := "0"]).masterOnly == Parsed(0)
  {
    assert ParseInt("0", 0, 64) == Parsed(0);
  }

  /** A global section followed by an interface section that sets masterOnly to "0" is a single T-TSC. */
  lemma {:induction false} ZeroInterfaceIsSingle(global: IniSection, ifaceName: string)
    requires NotAnInterface(global.name) && !NotAnInterface(ifaceName)
    ensures SingleTTsc(Loaded([global, SectionOf(ifaceName, map[TTscOnlyDirective := "0"])]))
  {
    ZeroMasterOnly(ifaceName);
    OneInterfaceIsSingle(global, SectionOf(ifaceName, map[TTscOnlyDirective := "0"]));
  }

  /** The number of sections whose masterOnly reads as 0, that is the sections that are not time-transmitter only. */
  function NotMasterOnlyCount(sections: seq<IniSection>): (n: nat)
    ensures n <= |sections|
  {
    if sections == [] then 0
    else
      NotMasterOnlyCount(sections[..|sections| - 1])
      + (if sections[|sections| - 1].masterOnly == Parsed(0) then 1 else 0)
  }

  /** masterOnly is a flag: each of the sections sets it to 0 or 1. */
  predicate FlagsOnly(sections: seq<IniSection>) {
    sections == []
    || (FlagsOnly(sections[..|sections| - 1])
        && sections[|sections| - 1].masterOnly in {Parsed(0), Parsed(1)})
  }

  /** When every value is 0 or 1 the 64-bit sum does not wrap: it counts the master-only sections. */
  lemma {:induction false} FlagSum(xs: seq<IniSection>)
    requires |xs| < TwoTo63 && FlagsOnly(xs)
    ensures MasterOnlySum(xs) == Some(|xs| - NotMasterOnlyCount(xs))
    decreases |xs|
  {
    if xs != [] {
      FlagSum(xs[..|xs| - 1]);
    }
  }

  /** A configuration whose masterOnly values add up to the interface count less `zeros` is a single T-TSC exactly when `zeros` is 1. */
  lemma {:induction false} SingleTTscByCount(sections: seq<IniSection>, ifs: seq<IniSection>, zeros: nat)
    requires ifs == Interfaces(sections) && zeros <= |ifs| < TwoTo63
    requires MasterOnlySum(ifs) == Some(|ifs| - zeros)
    ensures SingleTTsc(Loaded(sections)) <==> zeros == 1
  {
    assert Wrap64(zeros) == zeros;
  }

  /**
   * With masterOnly a 0/1 flag on every interface section, the configuration is a
   * single T-TSC exactly when one interface section is not master-only.
   */
  lemma {:induction false} SingleTTscMeaning(sections: seq<IniSection>)
    requires |sections| < TwoTo63 && FlagsOnly(Interfaces(sections))
    ensures SingleTTsc(Loaded(sections)) <==> NotMasterOnlyCount(Interfaces(sections)) == 1
  {
    var ifs := Interfaces(sections);
    var zeros := NotMasterOnlyCount(ifs);
    FlagSum(ifs);
    SingleTTscByCount(sections, ifs, zeros);
  }
}
