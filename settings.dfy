/**
 * Application settings (src/awscleanup/config/settings.py): the table of service
 * configurations, kept in insertion order like the Python dict it models, the UI
 * flags, the region-list parser, and the known-name filter applied when the
 * service configuration file is read.
 */
module Config {
  import opened Wrappers
  import opened Strings
  import opened Models

  // ---------------------------------------------------------------- regions

  /** A well-formed region name: trimmed, with no comma in it. */
  predicate RegionName(r: string) {
    Trimmed(r) && ',' !in r
  }

  /** Every entry is a well-formed region name. */
  predicate RegionList(rs: seq<string>) {
    rs == [] || (RegionName(rs[0]) && RegionList(rs[1..]))
  }

  /** `[r.strip() for r in parts if r.strip()]`. */
  function StrippedParts(parts: seq<string>): seq<string> {
    if parts == [] then []
    else
      var p := Strip(parts[0]);
      (if p != [] then [p] else []) + StrippedParts(parts[1..])
  }

  /** Stripping comma-free parts and dropping the blank ones leaves well-formed region names. */
  lemma {:induction false} StrippedPartsAreRegions(parts: seq<string>)
    requires forall j :: 0 <= j < |parts| ==> ',' !in parts[j]
    ensures RegionList(StrippedParts(parts))
  {
    if parts != [] {
      assert forall j :: 1 <= j < |parts| ==> parts[j] == parts[1..][j - 1];
      StrippedPartsAreRegions(parts[1..]);
      var p := Strip(parts[0]);
      var rest := StrippedParts(parts[1..]);
      if p != [] {
        StripRegionName(parts[0]);
        RegionListCons(p, rest);
        assert StrippedParts(parts) == [p] + rest;
      } else {
        assert StrippedParts(parts) == [] + rest == rest;
      }
    }
  }

  /** A comma-free part that is not blank strips to a well-formed region name. */
  lemma StripRegionName(part: string)
    requires ',' !in part && !IsBlank(part)
    ensures RegionName(Strip(part))
  {
    StripKeepsOut(part, ',');
  }

  lemma RegionListCons(r: string, rs: seq<string>)
    requires RegionName(r) && RegionList(rs)
    ensures RegionList([r] + rs)
  {
    assert ([r] + rs)[0] == r && ([r] + rs)[1..] == rs;
  }

  /**
   * `_parse_regions`: None for a blank string, otherwise the comma-separated
   * entries with surrounding whitespace removed and empty entries dropped.
   */
  function ParseRegions(regionsStr: string): (r: Option<seq<string>>)
    ensures r.None? <==> IsBlank(regionsStr)
    ensures r.Some? ==> RegionList(r.value)
  {
    if Strip(regionsStr) == [] then None
    else
      StrippedPartsAreRegions(Split(regionsStr, ','));
      Some(StrippedParts(Split(regionsStr, ',')))
  }

  /**
   * What `save_service_config` writes (`','.join(regions or [])`) reads back as
   * the same list, and an empty list reads back as None.
   */
  lemma ParseRegionsOfJoin(regions: seq<string>)
    requires RegionList(regions)
    ensures ParseRegions(Join(regions, ',')) == if regions == [] then None else Some(regions)
  {
    if regions != [] {
      var s := Join(regions, ',');
      assert s[0] == regions[0][0] by {
        if |regions| > 1 {
          assert s == regions[0] + [','] + Join(regions[1..], ',');
        }
      }
      assert !IsBlank(s);
      CommaFreeEntries(regions);
      SplitOfJoin(regions, ',');
      AllKept(regions);
    }
  }

  lemma {:induction false} CommaFreeEntries(regions: seq<string>)
    requires RegionList(regions)
    ensures forall k :: 0 <= k < |regions| ==> ',' !in regions[k]
  {
    if regions != [] {
      CommaFreeEntries(regions[1..]);
      assert forall k :: 1 <= k < |regions| ==> regions[k] == regions[1..][k - 1];
    }
  }

  /** Well-formed region names come through stripping unchanged. */
  lemma {:induction false} AllKept(regions: seq<string>)
    requires RegionList(regions)
    ensures StrippedParts(regions) == regions
  {
    if regions != [] {
      var r := regions[0];
      var rest := regions[1..];
      assert regions == [r] + rest;
      AllKept(rest);
      StrippedPartsCons(r, rest);
    }
  }

  lemma StrippedPartsCons(r: string, rest: seq<string>)
    requires Trimmed(r)
    ensures StrippedParts([r] + rest) == [r] + StrippedParts(rest)
  {
    StripUnchanged(r);
    assert ([r] + rest)[0] == r && ([r] + rest)[1..] == rest;
  }

  /** A string of commas alone is not blank, so it parses to an empty list rather than None. */
  lemma OnlyCommasParseToEmptyList()
    ensures ParseRegions(",") == Some([])
  {
    assert [','][1..] == [];
    assert Split(",", ',') == [[], []];
    assert Strip([]) == [];
    assert StrippedParts([[]]) == [];
    assert StrippedParts([[], []]) == [];
    assert !IsSpace(',');
    assert Strip(",") == ",";
  }

  // ---------------------------------------------------------------- configparser values

  /** The words configparser reads as True, compared after lowercasing. */
  predicate TrueWord(v: string) {
    v == "1" || v == "yes" || v == "true" || v == "on"
  }

  /** The words configparser reads as False, compared after lowercasing. */
  predicate FalseWord(v: string) {
    v == "0" || v == "no" || v == "false" || v == "off"
  }

  /** `SectionProxy.getboolean(key, default)`; a value it does not recognise raises ValueError (None). */
  function GetBoolean(section: map<string, string>, key: string, default: bool): (r: Option<bool>)
    ensures key !in section ==> r == Some(default)
    ensures key in section ==> (r == Some(true) <==> TrueWord(Lower(section[key])))
    ensures key in section ==> (r == Some(false) <==> FalseWord(Lower(section[key])))
    ensures key in section ==> (r.None? <==> !TrueWord(Lower(section[key])) && !FalseWord(Lower(section[key])))
  {
    if key !in section then Some(default)
    else
      var v := Lower(section[key]);
      if TrueWord(v) then Some(true)
      else if FalseWord(v) then Some(false)
      else None
  }

  /** `section.get(key, default)`. */
  function GetString(section: map<string, string>, key: string, default: string): string {
    if key in section then section[key] else default
  }

  /** The configuration one section describes, or None when a flag does not parse. */
  function SectionConfig(name: string, section: map<string, string>): (r: Option<ServiceConfig>)
    ensures r.Some? ==> r.value.name == name
    ensures r.Some? ==> r.value.discoveryRegions == ParseRegions(GetString(section, "regions", ""))
    ensures r.None? <==> GetBoolean(section, "enabled", true).None? || GetBoolean(section, "protected", false).None?
  {
    match (GetBoolean(section, "enabled", true), GetBoolean(section, "protected", false))
    case (Some(enabled), Some(protected)) =>
      Some(ServiceConfig(name, enabled, protected, ParseRegions(GetString(section, "regions", ""))))
    case _ => None
  }

  /**
   * What `load_service_config` does with one entry: an entry without a section is
   * kept, one with a section gets the configuration it describes, and None stands
   * for a flag that does not parse.
   */
  function LoadEntry(entry: ServiceConfig, config: map<string, map<string, string>>): (r: Option<ServiceConfig>)
    ensures entry.name !in config ==> r == Some(entry)
    ensures entry.name in config ==> r == SectionConfig(entry.name, config[entry.name])
    ensures r.Some? ==> r.value.name == entry.name
  {
    if entry.name !in config then Some(entry) else SectionConfig(entry.name, config[entry.name])
  }

  /** What loading each entry of the table on its own gives. */
  function Outcomes(table: seq<ServiceConfig>, config: map<string, map<string, string>>): (r: seq<Option<ServiceConfig>>)
    ensures |r| == |table|
    ensures forall i :: 0 <= i < |table| ==> r[i] == LoadEntry(table[i], config)
  {
    seq(|table|, i requires 0 <= i < |table| => LoadEntry(table[i], config))
  }

  /**
   * A visit of the entries in order with the given outcomes: a loaded entry
   * replaces the one it came from, and the first None ends the visit, leaving the
   * rest of the table as it was.
   */
  function Applied(table: seq<ServiceConfig>, outcomes: seq<Option<ServiceConfig>>): (r: seq<ServiceConfig>)
    requires |outcomes| == |table|
    ensures |r| == |table|
  {
    if table == [] then []
    else match outcomes[0]
      case None => table
      case Some(c) => [c] + Applied(table[1..], outcomes[1..])
  }

  /**
   * The table after `load_service_config` has visited the entries of `table` in
   * order; the first flag that does not parse ends the loop (the exception is
   * caught and printed), keeping what was done before it.
   */
  function ApplySections(table: seq<ServiceConfig>, config: map<string, map<string, string>>): (r: seq<ServiceConfig>)
    ensures |r| == |table|
  {
    Applied(table, Outcomes(table, config))
  }

  /** A visit keeps every name the outcomes keep, and an entry whose outcome is itself stays as it was. */
  lemma {:induction false} AppliedAt(table: seq<ServiceConfig>, outcomes: seq<Option<ServiceConfig>>, i: nat)
    requires |outcomes| == |table| && i < |table|
    requires forall k :: 0 <= k < |table| && outcomes[k].Some? ==> outcomes[k].value.name == table[k].name
    ensures Applied(table, outcomes)[i].name == table[i].name
    ensures outcomes[i] == Some(table[i]) ==> Applied(table, outcomes)[i] == table[i]
    decreases i
  {
    if i > 0 && outcomes[0].Some? {
      assert forall k :: 1 <= k < |table| ==> table[1..][k - 1] == table[k] && outcomes[1..][k - 1] == outcomes[k];
      AppliedAt(table[1..], outcomes[1..], i - 1);
    }
  }

  /** Loading keeps every entry's name, and an entry without a section is left as it was. */
  lemma ApplySectionsAt(table: seq<ServiceConfig>, config: map<string, map<string, string>>, i: nat)
    requires i < |table|
    ensures ApplySections(table, config)[i].name == table[i].name
    ensures table[i].name !in config ==> ApplySections(table, config)[i] == table[i]
  {
    AppliedAt(table, Outcomes(table, config), i);
  }

  /** Sections for names outside the table are ignored: adding one changes nothing. */
  lemma ApplySectionsIgnoresUnknown(table: seq<ServiceConfig>, config: map<string, map<string, string>>,
                                    extra: string, section: map<string, string>)
    requires forall i :: 0 <= i < |table| ==> table[i].name != extra
    requires extra !in config
    ensures ApplySections(table, config[extra := section]) == ApplySections(table, config)
  {
    forall i | 0 <= i < |table|
      ensures LoadEntry(table[i], config[extra := section]) == LoadEntry(table[i], config)
    {
      assert table[i].name != extra;
    }
    assert Outcomes(table, config[extra := section]) == Outcomes(table, config);
  }

  // ---------------------------------------------------------------- the service lists

  /** `[name for name, config in services.items() if config.enabled and not config.protected]`. */
  function EnabledNames(table: seq<ServiceConfig>): (r: seq<string>)
    ensures |r| <= |table|
  {
    if table == [] then []
    else (if table[0].IsAllowed() then [table[0].name] else []) + EnabledNames(table[1..])
  }

  /** `[name for name, config in services.items() if config.protected]`. */
  function ProtectedNames(table: seq<ServiceConfig>): (r: seq<string>)
    ensures |r| <= |table|
  {
    if table == [] then []
    else (if table[0].protected then [table[0].name] else []) + ProtectedNames(table[1..])
  }

  /**
   * With distinct names, a service is on the enabled list exactly when
   * `get_service_config` finds it and its entry `is_allowed`.
   */
  lemma EnabledIffLookupAllowed(table: seq<ServiceConfig>, n: string)
    requires DistinctNames(table)
    ensures n in EnabledNames(table) <==> IndexOf(table, n).Some? && table[IndexOf(table, n).value].IsAllowed()
  {
    EnabledMembers(table, n);
    if n in EnabledNames(table) {
      var i :| 0 <= i < |table| && table[i].name == n && table[i].IsAllowed();
      var k := IndexOf(table, n).value;
      assert table[k].name == table[i].name;
      assert k == i;
    }
  }

  /** The enabled list names exactly the entries that are enabled and not protected. */
  lemma {:induction false} EnabledMembers(table: seq<ServiceConfig>, n: string)
    ensures n in EnabledNames(table) <==> exists i :: 0 <= i < |table| && table[i].name == n && table[i].IsAllowed()
  {
    if table != [] {
      EnabledMembers(table[1..], n);
      assert forall i :: 1 <= i < |table| ==> table[i] == table[1..][i - 1];
      if n in EnabledNames(table[1..]) {
        var i :| 0 <= i < |table[1..]| && table[1..][i].name == n && table[1..][i].IsAllowed();
        assert table[i + 1] == table[1..][i];
      }
    }
  }

  /** The protected list names exactly the protected entries. */
  lemma {:induction false} ProtectedMembers(table: seq<ServiceConfig>, n: string)
    ensures n in ProtectedNames(table) <==> exists i :: 0 <= i < |table| && table[i].name == n && table[i].protected
  {
    if table != [] {
      ProtectedMembers(table[1..], n);
      assert forall i :: 1 <= i < |table| ==> table[i] == table[1..][i - 1];
      if n in ProtectedNames(table[1..]) {
        var i :| 0 <= i < |table[1..]| && table[1..][i].name == n && table[1..][i].protected;
        assert table[i + 1] == table[1..][i];
      }
    }
  }

  lemma EnabledListMembers(table: seq<ServiceConfig>)
    ensures forall n :: n in EnabledNames(table) <==>
              exists i :: 0 <= i < |table| && table[i].name == n && table[i].IsAllowed()
  {
    forall n ensures n in EnabledNames(table) <==>
                     exists i :: 0 <= i < |table| && table[i].name == n && table[i].IsAllowed() {
      EnabledMembers(table, n);
    }
  }

  lemma ProtectedListMembers(table: seq<ServiceConfig>)
    ensures forall n :: n in ProtectedNames(table) <==>
              exists i :: 0 <= i < |table| && table[i].name == n && table[i].protected
  {
    forall n ensures n in ProtectedNames(table) <==>
                     exists i :: 0 <= i < |table| && table[i].name == n && table[i].protected {
      ProtectedMembers(table, n);
    }
  }

  /** The enabled list keeps table order: a table made of two parts lists each part in turn. */
  lemma {:induction false} EnabledNamesConcat(a: seq<ServiceConfig>, b: seq<ServiceConfig>)
    ensures EnabledNames(a + b) == EnabledNames(a) + EnabledNames(b)
  {
    if a == [] {
      assert a + b == b;
    } else {
      assert (a + b)[0] == a[0] && (a + b)[1..] == a[1..] + b;
      EnabledNamesConcat(a[1..], b);
    }
  }

  /** So does the protected list. */
  lemma {:induction false} ProtectedNamesConcat(a: seq<ServiceConfig>, b: seq<ServiceConfig>)
    ensures ProtectedNames(a + b) == ProtectedNames(a) + ProtectedNames(b)
  {
    if a == [] {
      assert a + b == b;
    } else {
      assert (a + b)[0] == a[0] && (a + b)[1..] == a[1..] + b;
      ProtectedNamesConcat(a[1..], b);
    }
  }

  /** In a table with distinct names, no service is both offered for cleanup and protected. */
  lemma EnabledAndProtectedDisjoint(table: seq<ServiceConfig>, n: string)
    requires DistinctNames(table)
    ensures !(n in EnabledNames(table) && n in ProtectedNames(table))
  {
    EnabledMembers(table, n);
    ProtectedMembers(table, n);
  }

  /** Each name occurs at most once, as in the dict keyed by name that the table models. */
  predicate DistinctNames(table: seq<ServiceConfig>) {
    forall i, j :: 0 <= i < j < |table| ==> table[i].name != table[j].name
  }

  /** The built-in table, in insertion order. */
  const DefaultTable: seq<ServiceConfig> := [
    ServiceConfig("ec2", true, false, None),
    ServiceConfig("s3", true, false, None),
    ServiceConfig("rds", true, false, None),
    ServiceConfig("lambda", true, false, None),
    ServiceConfig("iam", false, true, None),
    ServiceConfig("route53", false, true, None),
    ServiceConfig("cloudformation", false, true, None)
  ]

  /** With the built-in table, ec2, s3, rds and lambda are offered; iam, route53 and cloudformation are protected. */
  lemma DefaultServiceLists()
    ensures EnabledNames(DefaultTable) == ["ec2", "s3", "rds", "lambda"]
    ensures ProtectedNames(DefaultTable) == ["iam", "route53", "cloudformation"]
  {
  }

  // ---------------------------------------------------------------- Settings

  /** The table with the named entry's `enabled` flag set; the other entries as they were. */
  function WithEnabled(table: seq<ServiceConfig>, serviceName: string, enabled: bool): (r: seq<ServiceConfig>)
    ensures |r| == |table|
  {
    seq(|table|, i requires 0 <= i < |table| =>
      if table[i].name == serviceName then table[i].(enabled := enabled) else table[i])
  }

  /** The table with the named entry's `protected` flag set; the other entries as they were. */
  function WithProtected(table: seq<ServiceConfig>, serviceName: string, protected: bool): (r: seq<ServiceConfig>)
    ensures |r| == |table|
  {
    seq(|table|, i requires 0 <= i < |table| =>
      if table[i].name == serviceName then table[i].(protected := protected) else table[i])
  }

  /**
   * Setting a service's `enabled` flag is seen by the lookup: every name is found
   * where it was, the named entry carries the new flag and every other entry reads
   * as before.
   */
  lemma {:induction false} WithEnabledLookup(table: seq<ServiceConfig>, serviceName: string, enabled: bool, m: string)
    ensures IndexOf(WithEnabled(table, serviceName, enabled), m) == IndexOf(table, m)
    ensures IndexOf(table, m).Some? ==>
              WithEnabled(table, serviceName, enabled)[IndexOf(table, m).value] ==
              if m == serviceName then table[IndexOf(table, m).value].(enabled := enabled)
              else table[IndexOf(table, m).value]
  {
    if table != [] {
      var t := WithEnabled(table, serviceName, enabled);
      assert t[1..] == WithEnabled(table[1..], serviceName, enabled);
      assert t[0].name == table[0].name;
      WithEnabledLookup(table[1..], serviceName, enabled, m);
    }
  }

  /** The same for the `protected` flag. */
  lemma {:induction false} WithProtectedLookup(table: seq<ServiceConfig>, serviceName: string, protected: bool, m: string)
    ensures IndexOf(WithProtected(table, serviceName, protected), m) == IndexOf(table, m)
    ensures IndexOf(table, m).Some? ==>
              WithProtected(table, serviceName, protected)[IndexOf(table, m).value] ==
              if m == serviceName then table[IndexOf(table, m).value].(protected := protected)
              else table[IndexOf(table, m).value]
  {
    if table != [] {
      var t := WithProtected(table, serviceName, protected);
      assert t[1..] == WithProtected(table[1..], serviceName, protected);
      assert t[0].name == table[0].name;
      WithProtectedLookup(table[1..], serviceName, protected, m);
    }
  }

  /** Where the named entry sits, if the table has one. */
  function IndexOf(table: seq<ServiceConfig>, serviceName: string): (r: Option<nat>)
    ensures r.Some? ==> r.value < |table| && table[r.value].name == serviceName
    ensures r.None? ==> forall i :: 0 <= i < |table| ==> table[i].name != serviceName
  {
    if table == [] then None
    else if table[0].name == serviceName then Some(0)
    else match IndexOf(table[1..], serviceName)
      case None => None
      case Some(i) => Some(i + 1)
  }

  /**
   * Settings. `services` is the `default_services` dict: its entries in insertion
   * order, each keyed by its own name. The file paths are left out; the UI flags are
   * fields of their own.
   */
  class Settings {
    var services: seq<ServiceConfig>
    var retroMode: bool
    var animationSpeed: string
    var soundEffects: bool
    var colorScheme: string
    var easterEggs: bool

    ghost predicate Valid()
      reads this
    {
      DistinctNames(services)
    }

    /** `__init__` without the file reads, which `LoadServiceConfig` models. */
    constructor ()
      ensures Valid()
      ensures services == DefaultTable
      ensures retroMode && animationSpeed == "normal" && !soundEffects && colorScheme == "neon" && easterEggs
    {
      services := DefaultTable;
      retroMode := true;
      animationSpeed := "normal";
      soundEffects := false;
      colorScheme := "neon";
      easterEggs := true;
    }

    /** `get_service_config`: the entry for the name, None for an unknown name. */
    function GetServiceConfig(serviceName: string): (r: Option<ServiceConfig>)
      reads this
      ensures r.Some? ==> r.value in services && r.value.name == serviceName
      ensures r.None? <==> forall i :: 0 <= i < |services| ==> services[i].name != serviceName
    {
      match IndexOf(services, serviceName)
      case None => None
      case Some(i) => Some(services[i])
    }

    /** `set_service_enabled`: only the named service's flag changes; an unknown name changes nothing. */
    method SetServiceEnabled(serviceName: string, enabled: bool)
      requires Valid()
      modifies this`services
      ensures Valid()
      ensures services == WithEnabled(old(services), serviceName, enabled)
    {
      match IndexOf(services, serviceName)
      case None =>
        assert services == WithEnabled(services, serviceName, enabled);
      case Some(i) =>
        services := services[i := services[i].(enabled := enabled)];
        assert services == WithEnabled(old(services), serviceName, enabled);
    }

    /** `set_service_protected`: only the named service's flag changes; an unknown name changes nothing. */
    method SetServiceProtected(serviceName: string, protected: bool)
      requires Valid()
      modifies this`services
      ensures Valid()
      ensures services == WithProtected(old(services), serviceName, protected)
    {
      match IndexOf(services, serviceName)
      case None =>
        assert services == WithProtected(services, serviceName, protected);
      case Some(i) =>
        services := services[i := services[i].(protected := protected)];
        assert services == WithProtected(old(services), serviceName, protected);
    }

    /** `get_enabled_services`: the enabled, unprotected services, in table order. */
    function GetEnabledServices(): (r: seq<string>)
      reads this
      ensures r == EnabledNames(services)
      ensures forall n :: n in r <==>
                exists i :: 0 <= i < |services| && services[i].name == n && services[i].IsAllowed()
    {
      EnabledListMembers(services);
      EnabledNames(services)
    }

    /** `get_protected_services`: the protected services, in table order. */
    function GetProtectedServices(): (r: seq<string>)
      reads this
      ensures r == ProtectedNames(services)
      ensures forall n :: n in r <==>
                exists i :: 0 <= i < |services| && services[i].name == n && services[i].protected
    {
      ProtectedListMembers(services);
      ProtectedNames(services)
    }

    /** `toggle_easter_eggs`: negates the flag and returns its new value. */
    method ToggleEasterEggs() returns (r: bool)
      modifies this`easterEggs
      ensures easterEggs == !old(easterEggs) && r == easterEggs
    {
      easterEggs := !easterEggs;
      r := easterEggs;
    }

    /**
     * `load_service_config`. `config` is the parsed file, None when there is none (the
     * defaults are then written out, which changes nothing here).
     */
    method LoadServiceConfig(config: Option<map<string, map<string, string>>>)
      requires Valid()
      modifies this`services
      ensures Valid()
      ensures config.None? ==> services == old(services)
      ensures config.Some? ==> services == ApplySections(old(services), config.value)
    {
      if config.None? {
        return;
      }
      DistinctNamesKept(services, config.value);
      services := LoadSections(services, config.value);
    }
  }

  /**
   * The `for service_name in self.default_services` loop of `load_service_config`,
   * run on the table's value: each entry with a section is replaced by the entry the
   * section describes, and the first flag that does not parse ends the loop.
   */
  method LoadSections(start: seq<ServiceConfig>, sections: map<string, map<string, string>>)
    returns (table: seq<ServiceConfig>)
    ensures table == ApplySections(start, sections)
  {
    table := start;
    ghost var target := ApplySections(start, sections);
    ghost var outcomes := Outcomes(start, sections);
    ghost var done: seq<ServiceConfig> := [];
    assert start[0..] == start && outcomes[0..] == outcomes;
    for i := 0 to |start|
      invariant LoadingAt(start, outcomes, target, i, done, table)
    {
      var next, loaded := LoadStep(table, sections, start, outcomes, target, i, done);
      if next.None? {
        return;
      }
      table := loaded;
      done := done + [next.value];
    }
    LoadFinished(start, outcomes, target, done, table);
  }

  /**
   * The state of the loading loop before entry `i`: the first `i` entries are the
   * loaded ones (`done`), the rest are still the original entries, and the visit of
   * the rest completes the target table.
   */
  ghost predicate LoadingAt(start: seq<ServiceConfig>, outcomes: seq<Option<ServiceConfig>>,
                            target: seq<ServiceConfig>, i: nat, done: seq<ServiceConfig>, table: seq<ServiceConfig>)
  {
    |outcomes| == |start| && |done| == i <= |start| && table == done + start[i..]
    && target == done + Applied(start[i..], outcomes[i..])
  }

  /** Once every entry is visited, the table is the target. */
  lemma LoadFinished(start: seq<ServiceConfig>, outcomes: seq<Option<ServiceConfig>>,
                     target: seq<ServiceConfig>, done: seq<ServiceConfig>, table: seq<ServiceConfig>)
    requires LoadingAt(start, outcomes, target, |start|, done, table)
    ensures table == target
  {
    assert start[|start|..] == [];
  }

  /**
   * One pass of the loop body: the entry at `i` is loaded from its section, and
   * either replaced in the table or, when a flag does not parse, the loop stops
   * with the table as it is.
   */
  method LoadStep(table: seq<ServiceConfig>, sections: map<string, map<string, string>>,
                  ghost start: seq<ServiceConfig>, ghost outcomes: seq<Option<ServiceConfig>>,
                  ghost target: seq<ServiceConfig>, i: nat, ghost done: seq<ServiceConfig>)
    returns (next: Option<ServiceConfig>, loaded: seq<ServiceConfig>)
    requires i < |start| && outcomes == Outcomes(start, sections)
    requires LoadingAt(start, outcomes, target, i, done, table)
    ensures next.None? ==> target == table
    ensures next.Some? ==> LoadingAt(start, outcomes, target, i + 1, done + [next.value], loaded)
  {
    assert table[i] == start[i];
    next := LoadEntry(table[i], sections);
    loaded := table;
    if next.None? {
      LoadStop(start, outcomes, target, i, done);
    } else {
      LoadAdvance(start, outcomes, target, i, done, next.value);
      ReplaceNext(done, start, i, next.value);
      loaded := table[i := next.value];
    }
  }

  /** Loading keeps every name, so the names stay distinct. */
  lemma DistinctNamesKept(table: seq<ServiceConfig>, config: map<string, map<string, string>>)
    requires DistinctNames(table)
    ensures DistinctNames(ApplySections(table, config))
  {
    forall i, j | 0 <= i < j < |table|
      ensures ApplySections(table, config)[i].name != ApplySections(table, config)[j].name
    {
      ApplySectionsAt(table, config, i);
      ApplySectionsAt(table, config, j);
    }
  }

  /** Storing the loaded entry in place extends the finished part by one. */
  lemma ReplaceNext(done: seq<ServiceConfig>, start: seq<ServiceConfig>, i: nat, c: ServiceConfig)
    requires |done| == i < |start|
    ensures (done + start[i..])[i := c] == (done + [c]) + start[i + 1..]
  {
  }

  /** One entry of a visit. */
  lemma AppliedStep(start: seq<ServiceConfig>, outcomes: seq<Option<ServiceConfig>>, i: nat)
    requires |outcomes| == |start| && i < |start|
    ensures outcomes[i].None? ==> Applied(start[i..], outcomes[i..]) == start[i..]
    ensures outcomes[i].Some? ==>
              Applied(start[i..], outcomes[i..]) == [outcomes[i].value] + Applied(start[i + 1..], outcomes[i + 1..])
  {
    var t := start[i..];
    var o := outcomes[i..];
    assert t[0] == start[i] && t[1..] == start[i + 1..];
    assert o[0] == outcomes[i] && o[1..] == outcomes[i + 1..];
  }

  /** The loop stops at an entry whose flags do not parse, with the rest of the table as it was. */
  lemma LoadStop(start: seq<ServiceConfig>, outcomes: seq<Option<ServiceConfig>>, target: seq<ServiceConfig>,
                 i: nat, done: seq<ServiceConfig>)
    requires |outcomes| == |start| && |done| == i < |start|
    requires target == done + Applied(start[i..], outcomes[i..])
    requires outcomes[i].None?
    ensures target == done + start[i..]
  {
    AppliedStep(start, outcomes, i);
  }

  /** After an entry that loads, the loop's state still agrees with the visit. */
  lemma LoadAdvance(start: seq<ServiceConfig>, outcomes: seq<Option<ServiceConfig>>, target: seq<ServiceConfig>,
                    i: nat, done: seq<ServiceConfig>, c: ServiceConfig)
    requires |outcomes| == |start| && |done| == i < |start|
    requires target == done + Applied(start[i..], outcomes[i..])
    requires outcomes[i] == Some(c)
    ensures target == (done + [c]) + Applied(start[i + 1..], outcomes[i + 1..])
  {
    AppliedStep(start, outcomes, i);
    AppendOne(done, c, Applied(start[i + 1..], outcomes[i + 1..]));
  }

  lemma AppendOne(done: seq<ServiceConfig>, c: ServiceConfig, rest: seq<ServiceConfig>)
    ensures done + ([c] + rest) == (done + [c]) + rest
  {
  }

  /** Enabling an unprotected service puts it on the enabled list. */
  lemma EnablingLists(table: seq<ServiceConfig>, n: string)
    requires exists i :: 0 <= i < |table| && table[i].name == n && !table[i].protected
    ensures n in EnabledNames(WithEnabled(table, n, true))
  {
    var i :| 0 <= i < |table| && table[i].name == n && !table[i].protected;
    assert WithEnabled(table, n, true)[i].IsAllowed();
    EnabledMembers(WithEnabled(table, n, true), n);
  }

  /** Protecting a service takes it off the enabled list and puts it on the protected list. */
  lemma ProtectingUnlists(table: seq<ServiceConfig>, n: string)
    requires exists i :: 0 <= i < |table| && table[i].name == n
    ensures n !in EnabledNames(WithProtected(table, n, true))
    ensures n in ProtectedNames(WithProtected(table, n, true))
  {
    var i :| 0 <= i < |table| && table[i].name == n;
    assert WithProtected(table, n, true)[i].protected;
    EnabledMembers(WithProtected(table, n, true), n);
    ProtectedMembers(WithProtected(table, n, true), n);
  }
}
