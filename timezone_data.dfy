/**
 * The timezone catalogue: the region names, the table of selectable
 * timezones, grouping the table by region, and lookup by IANA id.
 */
module TimezoneData {
  import opened Wrappers

  datatype TimezoneOption = TimezoneOption(value: string, labelText: string, group: string, utcOffset: string)

  const AsiaKey: string := "asia"
  const EuropeKey: string := "europe"
  const NorthAmericaKey: string := "northAmerica"
  const SouthAmericaKey: string := "southAmerica"
  const OceaniaKey: string := "oceania"
  const AfricaKey: string := "africa"

  /** Region key to the heading shown for it. */
  const TimezoneGroups: map<string, string> := map[
    AsiaKey := "亚洲时区",
    EuropeKey := "欧洲时区",
    NorthAmericaKey := "北美时区",
    SouthAmericaKey := "南美时区",
    OceaniaKey := "大洋洲时区",
    AfricaKey := "非洲时区"
  ]

  /** The selectable timezones, in display order, region by region. */
  const TimezoneOptions: seq<TimezoneOption> :=
    AsiaTimezones + EuropeTimezones + NorthAmericaTimezones + SouthAmericaTimezones + OceaniaTimezones + AfricaTimezones

  const AsiaTimezones: seq<TimezoneOption> := [
    TimezoneOption("Asia/Shanghai", "中国标准时间 (北京)", AsiaKey, "UTC+8"),
    TimezoneOption("Asia/Tokyo", "日本标准时间 (东京)", AsiaKey, "UTC+9"),
    TimezoneOption("Asia/Seoul", "韩国标准时间 (首尔)", AsiaKey, "UTC+9"),
    TimezoneOption("Asia/Hong_Kong", "香港时间", AsiaKey, "UTC+8"),
    TimezoneOption("Asia/Taipei", "台北时间", AsiaKey, "UTC+8"),
    TimezoneOption("Asia/Singapore", "新加坡时间", AsiaKey, "UTC+8"),
    TimezoneOption("Asia/Bangkok", "泰国时间 (曼谷)", AsiaKey, "UTC+7"),
    TimezoneOption("Asia/Jakarta", "印尼西部时间 (雅加达)", AsiaKey, "UTC+7"),
    TimezoneOption("Asia/Manila", "菲律宾时间 (马尼拉)", AsiaKey, "UTC+8"),
    TimezoneOption("Asia/Kuala_Lumpur", "马来西亚时间 (吉隆坡)", AsiaKey, "UTC+8"),
    TimezoneOption("Asia/Ho_Chi_Minh", "越南时间 (胡志明市)", AsiaKey, "UTC+7"),
    TimezoneOption("Asia/Kolkata", "印度标准时间 (加尔各答)", AsiaKey, "UTC+5:30"),
    TimezoneOption("Asia/Karachi", "巴基斯坦时间 (卡拉奇)", AsiaKey, "UTC+5"),
    TimezoneOption("Asia/Dubai", "阿联酋时间 (迪拜)", AsiaKey, "UTC+4"),
    TimezoneOption("Asia/Tehran", "伊朗时间 (德黑兰)", AsiaKey, "UTC+3:30"),
    TimezoneOption("Asia/Riyadh", "沙特阿拉伯时间 (利雅得)", AsiaKey, "UTC+3"),
    TimezoneOption("Asia/Jerusalem", "以色列时间 (耶路撒冷)", AsiaKey, "UTC+2")
  ]

  const EuropeTimezones: seq<TimezoneOption> := [
    TimezoneOption("Europe/London", "格林威治标准时间 (伦敦)", EuropeKey, "UTC+0/+1"),
    TimezoneOption("Europe/Paris", "中欧时间 (巴黎)", EuropeKey, "UTC+1/+2"),
    TimezoneOption("Europe/Berlin", "中欧时间 (柏林)", EuropeKey, "UTC+1/+2"),
    TimezoneOption("Europe/Rome", "中欧时间 (罗马)", EuropeKey, "UTC+1/+2"),
    TimezoneOption("Europe/Madrid", "中欧时间 (马德里)", EuropeKey, "UTC+1/+2"),
    TimezoneOption("Europe/Amsterdam", "中欧时间 (阿姆斯特丹)", EuropeKey, "UTC+1/+2"),
    TimezoneOption("Europe/Brussels", "中欧时间 (布鲁塞尔)", EuropeKey, "UTC+1/+2"),
    TimezoneOption("Europe/Vienna", "中欧时间 (维也纳)", EuropeKey, "UTC+1/+2"),
    TimezoneOption("Europe/Zurich", "中欧时间 (苏黎世)", EuropeKey, "UTC+1/+2"),
    TimezoneOption("Europe/Stockholm", "中欧时间 (斯德哥尔摩)", EuropeKey, "UTC+1/+2"),
    TimezoneOption("Europe/Oslo", "中欧时间 (奥斯陆)", EuropeKey, "UTC+1/+2"),
    TimezoneOption("Europe/Copenhagen", "中欧时间 (哥本哈根)", EuropeKey, "UTC+1/+2"),
    TimezoneOption("Europe/Helsinki", "东欧时间 (赫尔辛基)", EuropeKey, "UTC+2/+3"),
    TimezoneOption("Europe/Warsaw", "中欧时间 (华沙)", EuropeKey, "UTC+1/+2"),
    TimezoneOption("Europe/Prague", "中欧时间 (布拉格)", EuropeKey, "UTC+1/+2"),
    TimezoneOption("Europe/Budapest", "中欧时间 (布达佩斯)", EuropeKey, "UTC+1/+2"),
    TimezoneOption("Europe/Athens", "东欧时间 (雅典)", EuropeKey, "UTC+2/+3"),
    TimezoneOption("Europe/Istanbul", "土耳其时间 (伊斯坦布尔)", EuropeKey, "UTC+3"),
    TimezoneOption("Europe/Moscow", "莫斯科时间", EuropeKey, "UTC+3")
  ]

  const NorthAmericaTimezones: seq<TimezoneOption> := [
    TimezoneOption("America/New_York", "美国东部时间 (纽约)", NorthAmericaKey, "UTC-5/-4"),
    TimezoneOption("America/Chicago", "美国中部时间 (芝加哥)", NorthAmericaKey, "UTC-6/-5"),
    TimezoneOption("America/Denver", "美国山地时间 (丹佛)", NorthAmericaKey, "UTC-7/-6"),
    TimezoneOption("America/Los_Angeles", "美国太平洋时间 (洛杉矶)", NorthAmericaKey, "UTC-8/-7"),
    TimezoneOption("America/Anchorage", "阿拉斯加时间 (安克雷奇)", NorthAmericaKey, "UTC-9/-8"),
    TimezoneOption("Pacific/Honolulu", "夏威夷时间 (檀香山)", NorthAmericaKey, "UTC-10"),
    TimezoneOption("America/Toronto", "加拿大东部时间 (多伦多)", NorthAmericaKey, "UTC-5/-4"),
    TimezoneOption("America/Vancouver", "加拿大太平洋时间 (温哥华)", NorthAmericaKey, "UTC-8/-7"),
    TimezoneOption("America/Montreal", "加拿大东部时间 (蒙特利尔)", NorthAmericaKey, "UTC-5/-4"),
    TimezoneOption("America/Mexico_City", "墨西哥中部时间 (墨西哥城)", NorthAmericaKey, "UTC-6/-5")
  ]

  const SouthAmericaTimezones: seq<TimezoneOption> := [
    TimezoneOption("America/Sao_Paulo", "巴西时间 (圣保罗)", SouthAmericaKey, "UTC-3/-2"),
    TimezoneOption("America/Argentina/Buenos_Aires", "阿根廷时间 (布宜诺斯艾利斯)", SouthAmericaKey, "UTC-3"),
    TimezoneOption("America/Santiago", "智利时间 (圣地亚哥)", SouthAmericaKey, "UTC-4/-3"),
    TimezoneOption("America/Lima", "秘鲁时间 (利马)", SouthAmericaKey, "UTC-5"),
    TimezoneOption("America/Bogota", "哥伦比亚时间 (波哥大)", SouthAmericaKey, "UTC-5"),
    TimezoneOption("America/Caracas", "委内瑞拉时间 (加拉加斯)", SouthAmericaKey, "UTC-4")
  ]

  const OceaniaTimezones: seq<TimezoneOption> := [
    TimezoneOption("Australia/Sydney", "澳大利亚东部时间 (悉尼)", OceaniaKey, "UTC+10/+11"),
    TimezoneOption("Australia/Melbourne", "澳大利亚东部时间 (墨尔本)", OceaniaKey, "UTC+10/+11"),
    TimezoneOption("Australia/Brisbane", "澳大利亚东部标准时间 (布里斯班)", OceaniaKey, "UTC+10"),
    TimezoneOption("Australia/Perth", "澳大利亚西部时间 (珀斯)", OceaniaKey, "UTC+8"),
    TimezoneOption("Australia/Adelaide", "澳大利亚中部时间 (阿德莱德)", OceaniaKey, "UTC+9:30/+10:30"),
    TimezoneOption("Pacific/Auckland", "新西兰时间 (奥克兰)", OceaniaKey, "UTC+12/+13"),
    TimezoneOption("Pacific/Fiji", "斐济时间", OceaniaKey, "UTC+12/+13")
  ]

  const AfricaTimezones: seq<TimezoneOption> := [
    TimezoneOption("Africa/Cairo", "埃及时间 (开罗)", AfricaKey, "UTC+2"),
    TimezoneOption("Africa/Johannesburg", "南非时间 (约翰内斯堡)", AfricaKey, "UTC+2"),
    TimezoneOption("Africa/Lagos", "西非时间 (拉各斯)", AfricaKey, "UTC+1"),
    TimezoneOption("Africa/Nairobi", "东非时间 (内罗毕)", AfricaKey, "UTC+3"),
    TimezoneOption("Africa/Casablanca", "摩洛哥时间 (卡萨布兰卡)", AfricaKey, "UTC+0/+1")
  ]

  // ---------------------------------------------------------------------------
  // getTimezonesByGroup
  // ---------------------------------------------------------------------------

  /**
   * A string-keyed record of lists: the keys in insertion order (the order
   * `Object.entries` reports them) and the list stored under each.
   */
  datatype Grouping = Grouping(keys: seq<string>, lists: map<string, seq<TimezoneOption>>)

  /** The groups of `t` in order of first occurrence. */
  function GroupKeys(t: seq<TimezoneOption>): (keys: seq<string>)
    ensures forall g :: g in keys <==> exists i :: 0 <= i < |t| && t[i].group == g
    ensures forall j, k :: 0 <= j < k < |keys| ==> keys[j] != keys[k]
  {
    if t == [] then []
    else
      var keys := GroupKeys(t[..|t| - 1]);
      assert forall i :: 0 <= i < |t| - 1 ==> t[..|t| - 1][i] == t[i];
      if t[|t| - 1].group in keys then keys else keys + [t[|t| - 1].group]
  }

  /** The entries of `t` whose group is `g`, in their order in `t`. */
  function Members(t: seq<TimezoneOption>, g: string): (m: seq<TimezoneOption>)
    ensures forall j :: 0 <= j < |m| ==> m[j].group == g
  {
    if t == [] then []
    else Members(t[..|t| - 1], g) + (if t[|t| - 1].group == g then [t[|t| - 1]] else [])
  }

  /** What grouping `t` yields: one list per group, holding that group's members. */
  function GroupBy(t: seq<TimezoneOption>): Grouping {
    var keys := GroupKeys(t);
    Grouping(keys, map g | g in keys :: Members(t, g))
  }

  /**
   * `getTimezonesByGroup()` over the entries `options` (the table, in the
   * source): for each entry, create its group's list if missing, then append.
   */
  method GetTimezonesByGroup(options: seq<TimezoneOption>) returns (grouped: Grouping)
    ensures grouped == GroupBy(options)
  {
    grouped := Grouping([], map[]);
    var i := 0;
    while i < |options|
      invariant 0 <= i <= |options|
      invariant grouped.keys == GroupKeys(options[..i])
      invariant forall g :: g in grouped.lists <==> g in grouped.keys
      invariant forall g :: g in grouped.lists ==> grouped.lists[g] == Members(options[..i], g)
    {
      var timezone := options[i];
      assert options[..i + 1][..i] == options[..i];
      if timezone.group !in grouped.lists {
        MembersOfAbsent(options[..i], timezone.group);
        grouped := Grouping(grouped.keys + [timezone.group], grouped.lists[timezone.group := []]);
      }
      grouped := grouped.(lists := grouped.lists[timezone.group := grouped.lists[timezone.group] + [timezone]]);
      i := i + 1;
    }
    assert options[..i] == options;
  }

  /** A group that does not occur has no members. */
  lemma {:induction false} MembersOfAbsent(t: seq<TimezoneOption>, g: string)
    requires g !in GroupKeys(t)
    ensures Members(t, g) == []
  {
    if t != [] {
      assert t[|t| - 1].group != g;
      assert g !in GroupKeys(t[..|t| - 1]);
      MembersOfAbsent(t[..|t| - 1], g);
    }
  }

  /**
   * Where the members of `g` sit in `t`: increasing positions, one per member,
   * covering every entry of that group.
   */
  function Positions(t: seq<TimezoneOption>, g: string): (p: seq<nat>)
    ensures |p| == |Members(t, g)|
    ensures forall j :: 0 <= j < |p| ==> p[j] < |t| && t[p[j]] == Members(t, g)[j]
    ensures forall j, k :: 0 <= j < k < |p| ==> p[j] < p[k]
    ensures forall i :: 0 <= i < |t| && t[i].group == g ==> i in p
  {
    if t == [] then []
    else
      var init := t[..|t| - 1];
      var p := Positions(init, g);
      assert forall i :: 0 <= i < |t| - 1 ==> init[i] == t[i];
      if t[|t| - 1].group == g then p + [|t| - 1] else p
  }

  /** Each occurrence of an entry is counted in its own group's list and in no other. */
  lemma {:induction false} MembersCount(t: seq<TimezoneOption>, g: string, x: TimezoneOption)
    ensures multiset(Members(t, g))[x] == if x.group == g then multiset(t)[x] else 0
  {
    if t != [] {
      var init := t[..|t| - 1];
      MembersCount(init, g, x);
      assert t == init + [t[|t| - 1]];
    }
  }

  /** A group has members exactly when it is one of the keys. */
  lemma {:induction false} MembersNonEmpty(t: seq<TimezoneOption>, g: string)
    ensures |Members(t, g)| > 0 <==> g in GroupKeys(t)
  {
    if g in GroupKeys(t) {
      var i :| 0 <= i < |t| && t[i].group == g;
      assert i in Positions(t, g);
    } else {
      MembersOfAbsent(t, g);
    }
  }

  /** All the lists, one after the other in key order. */
  function Flatten(keys: seq<string>, lists: map<string, seq<TimezoneOption>>): seq<TimezoneOption> {
    if keys == [] then []
    else (if keys[0] in lists then lists[keys[0]] else []) + Flatten(keys[1..], lists)
  }

  /** Counting an entry in the flattened lists when only its group's list can hold it. */
  lemma {:induction false} FlattenCount(
    keys: seq<string>, lists: map<string, seq<TimezoneOption>>, x: TimezoneOption, c: nat)
    requires forall j, k :: 0 <= j < k < |keys| ==> keys[j] != keys[k]
    requires forall k :: k in keys ==> k in lists
    requires forall k :: k in keys ==> multiset(lists[k])[x] == if k == x.group then c else 0
    ensures multiset(Flatten(keys, lists))[x] == if x.group in keys then c else 0
  {
    if keys != [] {
      var rest := keys[1..];
      assert forall j, k :: 0 <= j < k < |rest| ==> rest[j] != rest[k] by {
        forall j, k | 0 <= j < k < |rest| ensures rest[j] != rest[k] {
          assert rest[j] == keys[j + 1] && rest[k] == keys[k + 1];
        }
      }
      FlattenCount(rest, lists, x, c);
      assert keys[0] !in rest;
      assert x.group in keys <==> x.group == keys[0] || x.group in rest;
    }
  }

  /**
   * The keys of the grouping of `t` are exactly the groups occurring in `t`,
   * each once, and no list is empty.
   */
  lemma GroupByKeys(t: seq<TimezoneOption>)
    ensures var r := GroupBy(t);
      && (forall g :: g in r.lists <==> exists i :: 0 <= i < |t| && t[i].group == g)
      && (forall j, k :: 0 <= j < k < |r.keys| ==> r.keys[j] != r.keys[k])
      && (forall g :: g in r.lists ==> |r.lists[g]| > 0)
  {
    var r := GroupBy(t);
    forall g | g in r.lists ensures |r.lists[g]| > 0 {
      MembersNonEmpty(t, g);
    }
  }

  /** An entry of `t` is in a list of the grouping exactly when that list is its group's. */
  lemma GroupByMembership(t: seq<TimezoneOption>)
    ensures var r := GroupBy(t);
      forall i, g :: 0 <= i < |t| && g in r.lists ==> (t[i] in r.lists[g] <==> t[i].group == g)
  {
    var r := GroupBy(t);
    forall i, g | 0 <= i < |t| && g in r.lists ensures t[i] in r.lists[g] <==> t[i].group == g {
      MembersCount(t, g, t[i]);
      assert t[i] in multiset(t);
    }
  }

  /** The lists of the grouping of `t`, taken in key order, are a permutation of `t`. */
  lemma GroupByPermutation(t: seq<TimezoneOption>)
    ensures var r := GroupBy(t);
      multiset(Flatten(r.keys, r.lists)) == multiset(t)
  {
    var r := GroupBy(t);
    forall x ensures multiset(Flatten(r.keys, r.lists))[x] == multiset(t)[x] {
      forall k | k in r.keys ensures multiset(r.lists[k])[x] == if k == x.group then multiset(t)[x] else 0 {
        MembersCount(t, k, x);
      }
      FlattenCount(r.keys, r.lists, x, multiset(t)[x]);
    }
  }

  // ---------------------------------------------------------------------------
  // findTimezoneByValue
  // ---------------------------------------------------------------------------

  /**
   * `findTimezoneByValue(value)` over the entries `options`: the first entry
   * with that id, or None (undefined) when there is none.
   */
  function FindTimezoneByValue(options: seq<TimezoneOption>, value: string): (r: Option<TimezoneOption>)
    ensures r.None? <==> forall i :: 0 <= i < |options| ==> options[i].value != value
    ensures r.Some? ==> exists i :: 0 <= i < |options| && options[i] == r.value && FirstWithValue(options, value, i)
  {
    if options == [] then None
    else if options[0].value == value then
      assert FirstWithValue(options, value, 0);
      Some(options[0])
    else
      var r := FindTimezoneByValue(options[1..], value);
      assert forall i :: 0 < i < |options| ==> options[i] == options[1..][i - 1];
      if r.Some? then
        var i :| 0 <= i < |options[1..]| && options[1..][i] == r.value && FirstWithValue(options[1..], value, i);
        assert FirstWithValue(options, value, i + 1);
        r
      else r
  }

  /** Position `i` holds the first entry of `options` whose id is `value`. */
  predicate FirstWithValue(options: seq<TimezoneOption>, value: string, i: int) {
    && 0 <= i < |options| && options[i].value == value
    && forall j :: 0 <= j < i ==> options[j].value != value
  }

  // ---------------------------------------------------------------------------
  // Facts about the table
  // ---------------------------------------------------------------------------

  /** The table has 64 entries under six region headings. */
  lemma TableShape()
    ensures |TimezoneOptions| == 64
    ensures TimezoneGroups.Keys == {AsiaKey, EuropeKey, NorthAmericaKey, SouthAmericaKey, OceaniaKey, AfricaKey}
    ensures |TimezoneGroups| == 6
  {
  }

  /** Every entry's region has a heading. */
  lemma TableGroupsNamed()
    ensures forall x :: x in TimezoneOptions ==> x.group in TimezoneGroups
  {
    AsiaBlockWellFormed();
    EuropeBlockWellFormed();
    NorthAmericaBlockWellFormed();
    SouthAmericaBlockWellFormed();
    OceaniaBlockWellFormed();
    AfricaBlockWellFormed();
  }

  /** Each region block lists its own region and named ids only. */
  lemma AsiaBlockWellFormed()
    ensures InRegion(AsiaTimezones, AsiaKey)
    ensures NamedIds(AsiaTimezones)
  {
  }

  lemma EuropeBlockWellFormed()
    ensures InRegion(EuropeTimezones, EuropeKey)
    ensures NamedIds(EuropeTimezones)
  {
  }

  lemma NorthAmericaBlockWellFormed()
    ensures InRegion(NorthAmericaTimezones, NorthAmericaKey)
    ensures NamedIds(NorthAmericaTimezones)
  {
  }

  lemma SouthAmericaBlockWellFormed()
    ensures InRegion(SouthAmericaTimezones, SouthAmericaKey)
    ensures NamedIds(SouthAmericaTimezones)
  {
  }

  lemma OceaniaBlockWellFormed()
    ensures InRegion(OceaniaTimezones, OceaniaKey)
    ensures NamedIds(OceaniaTimezones)
  {
  }

  lemma AfricaBlockWellFormed()
    ensures InRegion(AfricaTimezones, AfricaKey)
    ensures NamedIds(AfricaTimezones)
  {
  }

  /** Every entry of the table has a non-empty id. */
  lemma TableValuesNonEmpty()
    ensures forall i :: 0 <= i < |TimezoneOptions| ==> TimezoneOptions[i].value != ""
  {
    AsiaBlockWellFormed();
    EuropeBlockWellFormed();
    NorthAmericaBlockWellFormed();
    SouthAmericaBlockWellFormed();
    OceaniaBlockWellFormed();
    AfricaBlockWellFormed();
  }

  predicate NamedIds(region: seq<TimezoneOption>) {
    forall i :: 0 <= i < |region| ==> |region[i].value| > 0
  }

  predicate InRegion(region: seq<TimezoneOption>, g: string) {
    forall i :: 0 <= i < |region| ==> region[i].group == g
  }

  /** The default timezone is in the table, first, with offset UTC+8. */
  lemma DefaultTimezoneListed()
    ensures var r := FindTimezoneByValue(TimezoneOptions, "Asia/Shanghai");
      r.Some? && r.value == TimezoneOptions[0] && r.value.utcOffset == "UTC+8"
  {
    assert TimezoneOptions[0].value == "Asia/Shanghai";
    assert TimezoneOptions[0].utcOffset == "UTC+8";
  }
}
