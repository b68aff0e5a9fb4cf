// The settings schema a host registers through the
// `wpsf_register_settings_{group}` filter, and the pure derivations the
// framework makes from it: whether there are tabs, which tab has
// sections, the stable setting key, the form field name, the settings
// page slug, the page a section is registered on, the section-order
// comparator, and the `wpsf_get_setting` lookup.

module Schema {
  import opened PhpValues

  /** One entry of an AND list: `['field' => ..., 'value' => [...]]`, either key possibly unset. */
  datatype Clause = Clause(field: Option<string>, value: Option<seq<string>>)

  /**
   * One element of a `show_if` / `hide_if` array. With `field` set and a
   * non-empty `value` it is a single OR clause; otherwise its entries are
   * read as an AND list of clauses (entries that are not clauses are
   * skipped by the source, so they are not represented).
   */
  datatype Condition = Condition(field: Option<string>, value: Option<seq<string>>, clauses: seq<Clause>)

  /** `show_if` and `hide_if`; None when the key is unset or not an array. */
  datatype Visibility = Visibility(showIf: Option<seq<Condition>>, hideIf: Option<seq<Condition>>)

  /** A field; unset keys are None, an unset `default` is Null. */
  datatype Field = Field(
    id: Option<string>,
    fieldType: Option<string>,
    default: Value,
    cssClass: Option<string>,
    visibility: Visibility,
    subfields: seq<Field>)

  datatype Section = Section(
    sectionId: Option<string>,
    sectionTitle: Option<string>,
    sectionOrder: Option<int>,
    tabId: Option<string>,
    fields: seq<Field>)

  datatype Tab = Tab(id: string, visibility: Visibility)

  /**
   * What the registration filter returned: an array with a `sections` key
   * (and perhaps `tabs`), or a plain array that is itself the section list.
   */
  datatype Wrapper =
    | Keyed(tabs: Option<seq<Tab>>, sections: seq<Section>)
    | SectionList(sections: seq<Section>)

  /** An id or title as sprintf('%s') prints it: an unset key prints as "". */
  function Text(s: Option<string>): string {
    s.GetOr("")
  }

  function FieldIdText(f: Field): string {
    Text(f.id)
  }

  // ---------------------------------------------------------------------
  // has_tabs / tab_has_settings

  predicate HasTabs(tabs: seq<Tab>) {
    |tabs| > 0
  }

  /** tab_has_settings: a search over the sections, returning at the first whose tab_id is identical. */
  function TabHasSettings(settings: seq<Section>, tabId: string): (r: bool)
    ensures r <==> exists i :: 0 <= i < |settings| && settings[i].tabId == Some(tabId)
  {
    if |settings| == 0 then false
    else if settings[0].tabId != Some(tabId) then
      var rest := TabHasSettings(settings[1..], tabId);
      assert forall i :: 1 <= i < |settings| ==> settings[i] == settings[1..][i - 1];
      rest
    else true
  }

  // ---------------------------------------------------------------------
  // Stable key and names

  /** The key a field's value is stored under: `tab_section_field` with tabs, `section_field` without. */
  function SettingKey(hasTabs: bool, tabId: string, sectionId: string, fieldId: string): string {
    if hasTabs then tabId + "_" + sectionId + "_" + fieldId else sectionId + "_" + fieldId
  }

  /** The key is the section prefix (tab id first when tabbed) followed by the field id, and splits back into the two. */
  lemma SettingKeyShape(hasTabs: bool, tabId: string, sectionId: string, fieldId: string)
    ensures var k := SettingKey(hasTabs, tabId, sectionId, fieldId);
            var prefix := if hasTabs then tabId + "_" + sectionId + "_" else sectionId + "_";
            |k| == |prefix| + |fieldId| && k[..|prefix|] == prefix && k[|prefix|..] == fieldId
  {
  }

  /** The key of field f of section s; unset ids print as "". */
  function FieldKey(hasTabs: bool, s: Section, f: Field): string {
    SettingKey(hasTabs, Text(s.tabId), Text(s.sectionId), FieldIdText(f))
  }

  /** generate_field_name: the form name `{group}_settings[{key}]`; the key can be read back from it. */
  function FieldName(group: string, key: string): (n: string)
    ensures KeyOfFieldName(group, n) == Some(key)
  {
    var p := group + "_settings[";
    var n := p + key + "]";
    assert n[..|p|] == p;
    assert n[|p|..|n| - 1] == key;
    n
  }

  /** Recovers the key from a posted form name of this group. */
  function KeyOfFieldName(group: string, name: string): Option<string> {
    var p := group + "_settings[";
    if |name| >= |p| + 1 && name[..|p|] == p && name[|name| - 1] == ']'
    then Some(name[|p|..|name| - 1])
    else None
  }

  /** Two keys of one group never share a form name. */
  lemma FieldNameInjective(group: string, k1: string, k2: string)
    requires FieldName(group, k1) == FieldName(group, k2)
    ensures k1 == k2
  {
  }

  /** The settings page slug: underscores become dashes, then `-settings` unless on the ClassicPress security page. */
  function PageSlug(group: string, cpSecurityPage: bool): (slug: string)
    ensures '_' !in slug
    ensures |slug| == |group| + (if cpSecurityPage then 0 else 9)
    ensures slug[..|group|] == ReplaceUnderscores(group)
    ensures !cpSecurityPage ==> slug[|group|..] == "-settings"
  {
    var base := ReplaceUnderscores(group);
    if cpSecurityPage then base else base + "-settings"
  }

  /** The settings page a section is added to: `{group}_{tab_id}` with tabs, `{group}` without. */
  function PageName(group: string, hasTabs: bool, s: Section): string {
    if hasTabs then group + "_" + Text(s.tabId) else group
  }

  /**
   * has_tabs decides the layout: with a non-empty tab list a section goes to
   * the page `{group}_{tab_id}` and its keys carry the tab id in front;
   * with none, the page is the group and keys are `section_field`.
   */
  lemma TabsDecideLayout(group: string, tabs: seq<Tab>, s: Section, f: Field)
    ensures HasTabs(tabs) <==> tabs != []
    ensures PageName(group, HasTabs(tabs), s) == if tabs == [] then group else group + "_" + Text(s.tabId)
    ensures FieldKey(HasTabs(tabs), s, f) == if tabs == [] then FieldKey(false, s, f) else Text(s.tabId) + "_" + FieldKey(false, s, f)
  {
    TabbedKeyExtendsUntabbed(Text(s.tabId), Text(s.sectionId), FieldIdText(f));
  }

  /** Tabbed pages of one group are distinct per tab id, and never the untabbed page. */
  lemma PageNameSeparatesTabs(group: string, s1: Section, s2: Section)
    ensures PageName(group, true, s1) == PageName(group, true, s2) <==> Text(s1.tabId) == Text(s2.tabId)
    ensures PageName(group, true, s1) != PageName(group, false, s1)
  {
    var p := group + "_";
    assert Text(s1.tabId) == PageName(group, true, s1)[|p|..];
    assert Text(s2.tabId) == PageName(group, true, s2)[|p|..];
    assert |PageName(group, true, s1)| > |group|;
  }

  // ---------------------------------------------------------------------
  // Injectivity of the key formula

  /** a_b == c_d splits uniquely when neither a nor c holds an underscore. */
  lemma SplitAtUnderscore(a: string, b: string, c: string, d: string)
    requires '_' !in a && '_' !in c
    requires a + "_" + b == c + "_" + d
    ensures a == c && b == d
  {
    SplitAtFirst('_', a, b, c, d);
  }

  /** With underscore-free tab and section ids, distinct (tab, section, field) triples get distinct keys. */
  lemma SettingKeyInjective(hasTabs: bool, t1: string, s1: string, f1: string, t2: string, s2: string, f2: string)
    requires '_' !in s1 && '_' !in s2
    requires hasTabs ==> '_' !in t1 && '_' !in t2
    requires SettingKey(hasTabs, t1, s1, f1) == SettingKey(hasTabs, t2, s2, f2)
    ensures s1 == s2 && f1 == f2
    ensures hasTabs ==> t1 == t2
  {
    if hasTabs {
      assert t1 + "_" + s1 + "_" + f1 == t1 + "_" + (s1 + "_" + f1);
      assert t2 + "_" + s2 + "_" + f2 == t2 + "_" + (s2 + "_" + f2);
      SplitAtUnderscore(t1, s1 + "_" + f1, t2, s2 + "_" + f2);
      SplitAtUnderscore(s1, f1, s2, f2);
    } else {
      SplitAtUnderscore(s1, f1, s2, f2);
    }
  }

  /** Without that restriction the formula collides: section `a_b` field `c` and section `a` field `b_c`. */
  lemma SettingKeyCollision()
    ensures SettingKey(false, "", "a_b", "c") == SettingKey(false, "", "a", "b_c")
    ensures SettingKey(true, "t_u", "s", "f") == SettingKey(true, "t", "u_s", "f")
  {
  }

  /** A tabbed and an untabbed schema give different keys to the same ids (the tab is a prefix). */
  lemma TabbedKeyExtendsUntabbed(t: string, s: string, f: string)
    ensures SettingKey(true, t, s, f) == t + "_" + SettingKey(false, t, s, f)
  {
  }

  // ---------------------------------------------------------------------
  // The section-order comparator (sort_array)

  /**
   * PHP's `$x > $y` where $y is a section_order that may be unset: an unset
   * key reads as null, and an int compared with null is compared as a bool.
   */
  predicate OrderGreater(x: int, y: Option<int>) {
    match y
    case Some(z) => x > z
    case None => x != 0
  }

  /** sort_array: 0 when a has no section_order, else 1 exactly when a's order is greater than b's. */
  function SortArray(a: Section, b: Section): (r: int)
    ensures r == 0 || r == 1
    ensures a.sectionOrder.None? ==> r == 0
    ensures r == 1 <==> a.sectionOrder.Some? && OrderGreater(a.sectionOrder.value, b.sectionOrder)
  {
    if a.sectionOrder.None? then 0
    else if OrderGreater(a.sectionOrder.value, b.sectionOrder) then 1 else 0
  }

  /**
   * The comparator does not treat a missing section_order as order 0: a
   * section with order -1 compares greater than one without an order,
   * but not greater than one with order 0.
   */
  lemma MissingOrderIsNotZero()
    ensures SortArray(Section(None, None, Some(-1), None, []), Section(None, None, None, None, [])) == 1
    ensures SortArray(Section(None, None, Some(-1), None, []), Section(None, None, Some(0), None, [])) == 0
  {
  }

  // ---------------------------------------------------------------------
  // wpsf_get_setting

  /**
   * wpsf_get_setting: the stored value under `{section_id}_{field_id}` of
   * the group's option, or false when it is not set.
   */
  function GetSetting(optionsTable: map<string, map<string, Value>>, group: string, sectionId: string, fieldId: string): (r: Value)
    ensures IsSet(r)
    ensures var name := group + "_settings";
            var k := SettingKey(false, "", sectionId, fieldId);
            name in optionsTable && k in optionsTable[name] && IsSet(optionsTable[name][k]) ==> r == optionsTable[name][k]
    ensures var name := group + "_settings";
            var k := SettingKey(false, "", sectionId, fieldId);
            r == Bool(false) || (name in optionsTable && k in optionsTable[name] && r == optionsTable[name][k])
  {
    var name := group + "_settings";
    if name !in optionsTable then Bool(false)
    else
      var opts := optionsTable[name];
      var k := sectionId + "_" + fieldId;
      if k in opts && IsSet(opts[k]) then opts[k] else Bool(false)
  }

  /** Passing `{tab_id}_{section_id}` as the section reads the key of a tabbed field. */
  lemma GetSettingTabbed(optionsTable: map<string, map<string, Value>>, group: string, tabId: string, sectionId: string, fieldId: string)
    requires group + "_settings" in optionsTable
    ensures var opts := optionsTable[group + "_settings"];
            var k := SettingKey(true, tabId, sectionId, fieldId);
            GetSetting(optionsTable, group, tabId + "_" + sectionId, fieldId) == if k in opts && IsSet(opts[k]) then opts[k] else Bool(false)
  {
  }
}
