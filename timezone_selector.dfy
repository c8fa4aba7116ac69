/**
 * The timezone dropdown: its grouped options and its search predicate.
 */
module TimeZoneSelector {
  import opened Wrappers
  import opened JsText
  import opened TimezoneData

  /** `renderOption(tz)` without its markup: the shown label and offset, keyed by id. */
  datatype SelectItem = SelectItem(value: string, key: string, labelText: string, utcOffset: string)

  /** One titled group of the dropdown; the heading is undefined for a key without one. */
  datatype OptionGroup = OptionGroup(heading: Option<string>, items: seq<SelectItem>)

  function RenderOption(tz: TimezoneOption): SelectItem {
    SelectItem(tz.value, tz.value, tz.labelText, tz.utcOffset)
  }

  function Heading(groupKey: string): Option<string> {
    if groupKey in TimezoneGroups then Some(TimezoneGroups[groupKey]) else None
  }

  /** What a list of entries renders to. */
  function RenderAll(timezones: seq<TimezoneOption>): (items: seq<SelectItem>)
    ensures |items| == |timezones|
    ensures forall j :: 0 <= j < |items| ==> items[j] == RenderOption(timezones[j])
  {
    if timezones == [] then [] else [RenderOption(timezones[0])] + RenderAll(timezones[1..])
  }

  /**
   * `options`: one group per key of the grouping, in key order, titled with
   * the region heading and listing that key's entries.
   */
  function Options(grouped: Grouping): (r: seq<OptionGroup>)
    decreases |grouped.keys|
    ensures |r| == |grouped.keys|
    ensures forall k :: 0 <= k < |r| ==> r[k].heading == Heading(grouped.keys[k])
    ensures forall k :: 0 <= k < |r| && grouped.keys[k] in grouped.lists ==>
      r[k].items == RenderAll(grouped.lists[grouped.keys[k]])
  {
    if grouped.keys == [] then []
    else
      var groupKey := grouped.keys[0];
      var timezones := if groupKey in grouped.lists then grouped.lists[groupKey] else [];
      [OptionGroup(Heading(groupKey), RenderAll(timezones))]
        + Options(grouped.(keys := grouped.keys[1..]))
  }

  /**
   * Built from the grouping of `t`, the dropdown has one group per region
   * occurring in `t`, each listing exactly that
   * region's entries in their order in `t`, each item keyed by its id.
   */
  lemma OptionsFollowGrouping(t: seq<TimezoneOption>)
    ensures var keys, r := GroupKeys(t), Options(GroupBy(t));
      && |r| == |keys|
      && forall k :: 0 <= k < |r| ==>
           && r[k].items == RenderAll(Members(t, keys[k]))
           && |r[k].items| > 0
           && forall j :: 0 <= j < |r[k].items| ==> r[k].items[j].key == Members(t, keys[k])[j].value
  {
    GroupByKeys(t);
  }

  /** In the dropdown built from the table, every group has its region heading. */
  lemma TableOptionsHeaded()
    ensures var r := Options(GroupBy(TimezoneOptions));
      forall k :: 0 <= k < |r| ==> r[k].heading.Some?
  {
    TableGroupsNamed();
    var keys := GroupKeys(TimezoneOptions);
    forall k | 0 <= k < |keys| ensures keys[k] in TimezoneGroups {
      assert keys[k] in keys;
      var i :| 0 <= i < |TimezoneOptions| && TimezoneOptions[i].group == keys[k];
      assert TimezoneOptions[i] in TimezoneOptions;
    }
  }

  // ---------------------------------------------------------------------------
  // filterOption
  // ---------------------------------------------------------------------------

  /**
   * `filterOption(input, option)` over the entries `options` (the table, in
   * the source), the option given by its value (None when there is no
   * option). The option's entry is looked up, and the lower-cased input is
   * searched for in its lower-cased label, id and offset.
   */
  function FilterOption(options: seq<TimezoneOption>, input: string, optionValue: Option<string>): (r: bool)
    ensures optionValue.None? || optionValue.value == "" ==> !r
    ensures optionValue.Some? && FindTimezoneByValue(options, optionValue.value).None? ==> !r
  {
    if optionValue.None? || optionValue.value == "" then false
    else
      match FindTimezoneByValue(options, optionValue.value)
      case None => false
      case Some(timezone) =>
        var searchText := ToLower(input);
        || Includes(ToLower(timezone.labelText), searchText)
        || Includes(ToLower(timezone.value), searchText)
        || Includes(ToLower(timezone.utcOffset), searchText)
  }

  /** An id that is not among the entries never matches. */
  lemma FilterUnknownValue(options: seq<TimezoneOption>, input: string, v: string)
    requires forall i :: 0 <= i < |options| ==> options[i].value != v
    ensures !FilterOption(options, input, Some(v))
  {
  }

  /**
   * For a non-empty id whose first entry is `options[i]`, the option matches
   * exactly when the lower-cased input occurs in the lower-cased label, id or
   * offset of that entry.
   */
  lemma FilterMatchesSubstring(options: seq<TimezoneOption>, input: string, v: string, i: int)
    requires v != "" && FirstWithValue(options, v, i)
    ensures FilterOption(options, input, Some(v)) <==> Mentions(options[i], ToLower(input))
  {
    var tz, q := options[i], ToLower(input);
    var r := FindTimezoneByValue(options, v);
    var k :| 0 <= k < |options| && options[k] == r.value && FirstWithValue(options, v, k);
    assert k == i;
    assert r == Some(tz);
    assert FilterOption(options, input, Some(v)) ==
      (Includes(ToLower(tz.labelText), q) || Includes(ToLower(tz.value), q) || Includes(ToLower(tz.utcOffset), q));
    IncludesIffOccurs(ToLower(tz.labelText), q);
    IncludesIffOccurs(ToLower(tz.value), q);
    IncludesIffOccurs(ToLower(tz.utcOffset), q);
  }

  /** `q` occurs somewhere in the lower-cased label, id or offset of `tz`. */
  ghost predicate Mentions(tz: TimezoneOption, q: string) {
    || (exists j :: OccursAt(ToLower(tz.labelText), q, j))
    || (exists j :: OccursAt(ToLower(tz.value), q, j))
    || (exists j :: OccursAt(ToLower(tz.utcOffset), q, j))
  }

  /** An empty search matches every entry whose id is non-empty. */
  lemma {:induction false} EmptySearchMatches(options: seq<TimezoneOption>, i: int)
    requires 0 <= i < |options| && options[i].value != ""
    ensures FilterOption(options, "", Some(options[i].value))
  {
    var r := FindTimezoneByValue(options, options[i].value);
    assert r.Some?;
    IncludesEmpty(ToLower(r.value.labelText));
  }

  /** In the table every id is non-empty, so an empty search lists every timezone. */
  lemma EmptySearchMatchesTable(i: int)
    requires 0 <= i < |TimezoneOptions|
    ensures FilterOption(TimezoneOptions, "", Some(TimezoneOptions[i].value))
  {
    TableValuesNonEmpty();
    EmptySearchMatches(TimezoneOptions, i);
  }

  /** Inputs that lower-case alike get the same answer. */
  lemma FilterIgnoresCase(options: seq<TimezoneOption>, a: string, b: string, optionValue: Option<string>)
    requires ToLower(a) == ToLower(b)
    ensures FilterOption(options, a, optionValue) == FilterOption(options, b, optionValue)
  {
  }
}
