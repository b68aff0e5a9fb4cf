// The SettingsFramework object: one instance per option group. It takes
// in the registered schema, resolves the effective settings (memoised in
// what the source keeps as function-static arrays, here fields of the
// instance), sorts and registers sections and fields, prepares each field
// for rendering, and imports a settings blob. WordPress itself is reduced
// to what the logic reads and writes: the stored option is a map field,
// registration calls are recorded, and nonce checks and JSON decoding
// are inputs.

module Framework {
  import opened PhpValues
  import opened Schema
  import opened Resolver
  import opened ShowHide
  import opened FieldRegistry

  // ---------------------------------------------------------------------
  // Registration of sections and fields (process_settings)

  /** A recorded add_settings_section / add_settings_field call. */
  datatype Registration =
    | SectionAdded(sectionId: string, title: string, page: string)
    | FieldAdded(fieldId: string, page: string, sectionId: string, rowClass: string, section: Section, field: Field)

  /** A section is registered when its section_id is set and truthy and its section_title is set. */
  predicate SectionShown(s: Section) {
    !EmptyOpt(s.sectionId) && s.sectionTitle.Some?
  }

  /** A field is registered when its id is set and truthy. */
  predicate FieldShown(f: Field) {
    !EmptyOpt(f.id)
  }

  /** The table row class: `hidden` for hidden fields (an identical type comparison). */
  function RowClass(f: Field): (c: string)
    ensures c == "hidden" <==> f.fieldType == Some("hidden")
    ensures c != "hidden" ==> c == ""
  {
    if f.fieldType == Some("hidden") then "hidden" else ""
  }

  /**
   * The row class compares the type exactly while dispatch ignores case: a
   * field of type `Hidden` is rendered by the hidden generator in a row
   * that is not hidden.
   */
  lemma HiddenRowClassIsCaseSensitive(f: Field)
    requires f.fieldType == Some("Hidden")
    ensures RowClass(f) == ""
    ensures Render("g", false, map[], Section(None, None, None, None, [f]), f).generator == Some(HiddenField)
  {
    assert Lower("Hidden") == "hidden";
  }

  function FieldRegistration(group: string, hasTabs: bool, s: Section, f: Field): Registration
    requires SectionShown(s) && FieldShown(f)
  {
    FieldAdded(f.id.value, PageName(group, hasTabs, s), s.sectionId.value, RowClass(f), s, f)
  }

  function FieldRegistrations(group: string, hasTabs: bool, s: Section, fields: seq<Field>): seq<Registration>
    requires SectionShown(s)
    decreases |fields|
  {
    if |fields| == 0 then []
    else
      var f := fields[|fields| - 1];
      FieldRegistrations(group, hasTabs, s, fields[..|fields| - 1])
      + (if FieldShown(f) then [FieldRegistration(group, hasTabs, s, f)] else [])
  }

  function SectionRegistrations(group: string, hasTabs: bool, s: Section): seq<Registration> {
    if SectionShown(s)
    then [SectionAdded(s.sectionId.value, s.sectionTitle.value, PageName(group, hasTabs, s))]
         + FieldRegistrations(group, hasTabs, s, s.fields)
    else []
  }

  /** Every registration call process_settings makes for the sections ss, in order. */
  function Registrations(group: string, hasTabs: bool, ss: seq<Section>): seq<Registration>
    decreases |ss|
  {
    if |ss| == 0 then []
    else Registrations(group, hasTabs, ss[..|ss| - 1]) + SectionRegistrations(group, hasTabs, ss[|ss| - 1])
  }

  lemma {:induction false} FieldRegistrationsMembership(group: string, hasTabs: bool, s: Section, fields: seq<Field>, r: Registration)
    requires SectionShown(s)
    ensures r in FieldRegistrations(group, hasTabs, s, fields) <==>
            exists f :: f in fields && FieldShown(f) && r == FieldRegistration(group, hasTabs, s, f)
    decreases |fields|
  {
    if |fields| > 0 {
      var init := fields[..|fields| - 1];
      FieldRegistrationsMembership(group, hasTabs, s, init, r);
      assert forall f :: f in fields <==> f in init || f == fields[|fields| - 1];
    }
  }

  /** Every shown field of every shown section is registered, on its section's page. */
  lemma {:induction false} ShownFieldIsRegistered(group: string, hasTabs: bool, ss: seq<Section>, s: Section, f: Field)
    requires s in ss && SectionShown(s) && f in s.fields && FieldShown(f)
    ensures FieldRegistration(group, hasTabs, s, f) in Registrations(group, hasTabs, ss)
    decreases |ss|
  {
    var last := ss[|ss| - 1];
    if s == last {
      FieldRegistrationsMembership(group, hasTabs, s, s.fields, FieldRegistration(group, hasTabs, s, f));
    } else {
      assert s in ss[..|ss| - 1];
      ShownFieldIsRegistered(group, hasTabs, ss[..|ss| - 1], s, f);
    }
  }

  /** Every registered field is a shown field of a shown section, registered with that section's page and ids. */
  lemma {:induction false} RegisteredFieldOrigin(group: string, hasTabs: bool, ss: seq<Section>, r: Registration)
    requires r in Registrations(group, hasTabs, ss) && r.FieldAdded?
    ensures r.section in ss && SectionShown(r.section) && r.field in r.section.fields && FieldShown(r.field)
    ensures r == FieldRegistration(group, hasTabs, r.section, r.field)
    decreases |ss|
  {
    var init := ss[..|ss| - 1];
    var last := ss[|ss| - 1];
    if r in Registrations(group, hasTabs, init) {
      RegisteredFieldOrigin(group, hasTabs, init, r);
    } else {
      assert r in SectionRegistrations(group, hasTabs, last);
      assert SectionShown(last);
      assert r in FieldRegistrations(group, hasTabs, last, last.fields);
      FieldRegistrationsMembership(group, hasTabs, last, last.fields, r);
    }
  }

  /** Sections without a truthy id or without a title register nothing, not even their fields. */
  lemma {:induction false} HiddenSectionRegistersNothing(group: string, hasTabs: bool, ss: seq<Section>, r: Registration)
    requires r in Registrations(group, hasTabs, ss)
    ensures r.SectionAdded? ==> exists s :: s in ss && SectionShown(s) && r == SectionAdded(s.sectionId.value, s.sectionTitle.value, PageName(group, hasTabs, s))
    decreases |ss|
  {
    var init := ss[..|ss| - 1];
    var last := ss[|ss| - 1];
    if r in Registrations(group, hasTabs, init) {
      HiddenSectionRegistersNothing(group, hasTabs, init, r);
      if r.SectionAdded? {
        var s :| s in init && SectionShown(s) && r == SectionAdded(s.sectionId.value, s.sectionTitle.value, PageName(group, hasTabs, s));
        assert s in ss;
      }
    } else if r.SectionAdded? {
      assert SectionShown(last);
      FieldRegistrationsMembership(group, hasTabs, last, last.fields, r);
      assert r == SectionAdded(last.sectionId.value, last.sectionTitle.value, PageName(group, hasTabs, last));
    }
  }

  // ---------------------------------------------------------------------
  // The usort step

  /**
   * The exchanges a comparison sort may make with sort_array: a pair
   * (x, y) with x < y is exchanged only when sort_array says a[x] > a[y].
   * Which pairs usort inspects is its own algorithm and is an input here.
   */
  function ApplyExchange(a: seq<Section>, x: nat, y: nat): (b: seq<Section>)
    ensures multiset(b) == multiset(a) && |b| == |a|
    ensures b != a ==> x < y < |a| && SortArray(a[x], a[y]) == 1
  {
    if x < y < |a| && SortArray(a[x], a[y]) == 1 then a[x := a[y]][y := a[x]] else a
  }

  /** With no section_order anywhere, sort_array is always 0 and no exchange happens. */
  lemma UnorderedSectionsStay(a: seq<Section>, x: nat, y: nat)
    requires forall s :: s in a ==> s.sectionOrder.None?
    ensures ApplyExchange(a, x, y) == a
  {
    if x < y < |a| {
      assert a[x] in a;
    }
  }

  // ---------------------------------------------------------------------
  // Preparing one field for rendering (generate_setting)

  /** What generate_setting hands to the field generator. */
  datatype RenderedField = RenderedField(id: string, name: string, value: Value, cssClass: string, generator: Option<Generator>)

  /** The key generate_setting derives: the field's id after wp_parse_args, which defaults it to `default_field`. */
  function RenderKey(hasTabs: bool, s: Section, f: Field): (k: string)
    ensures f.id.Some? ==> k == FieldKey(hasTabs, s, f)
  {
    SettingKey(hasTabs, Text(s.tabId), Text(s.sectionId), f.id.GetOr("default_field"))
  }

  /** The arguments generate_setting prepares for field f of section s. */
  function Render(group: string, hasTabs: bool, stored: map<string, Value>, s: Section, f: Field): (r: RenderedField)
    ensures KeyOfFieldName(group, r.name) == Some(r.id)
    ensures r.id == RenderKey(hasTabs, s, f)
    ensures r.id in stored && IsSet(stored[r.id]) ==> r.value == stored[r.id]
    ensures !(r.id in stored && IsSet(stored[r.id])) ==> r.value == (if IsSet(f.default) then f.default else Str(""))
    ensures IsSet(r.value)
    ensures r.cssClass == Text(f.cssClass) + ShowHideClasses(f.visibility, "show_if")
    ensures forall g :: r.generator == Some(g) <==> Lower(f.fieldType.GetOr("text")) == Tag(g)
  {
    var id := RenderKey(hasTabs, s, f);
    RenderedField(
      id,
      FieldName(group, id),
      if id in stored && IsSet(stored[id]) then stored[id] else Coalesce(f.default, Str("")),
      Text(f.cssClass) + ShowHideClasses(f.visibility, "show_if"),
      Dispatch(f.fieldType.GetOr("text")))
  }

  /**
   * A registered field is rendered under the key the resolver stores its
   * value under, and a set stored value is shown exactly as resolved.
   */
  lemma RegisteredFieldRendersResolvedKey(group: string, hasTabs: bool, ss: seq<Section>, stored: map<string, Value>, r: Registration)
    requires r in Registrations(group, hasTabs, ss) && r.FieldAdded?
    ensures var rf := Render(group, hasTabs, stored, r.section, r.field);
            rf.id == FieldKey(hasTabs, r.section, r.field) && rf.id in Resolved(hasTabs, ss, stored)
    ensures var rf := Render(group, hasTabs, stored, r.section, r.field);
            rf.id in stored && IsSet(stored[rf.id]) ==> rf.value == Resolved(hasTabs, ss, stored)[rf.id]
  {
    RegisteredFieldOrigin(group, hasTabs, ss, r);
    var k := FieldKey(hasTabs, r.section, r.field);
    ResolvedDomain(hasTabs, ss, stored, k);
    if k in stored && IsSet(stored[k]) {
      StoredValueWins(hasTabs, ss, stored, k);
    }
  }

  /**
   * With nothing stored, rendering and resolving fall back differently for
   * a field without a default: the form shows "" while the resolver holds
   * false.
   */
  lemma RenderFallbackDiffers(s: Section, f: Field)
    requires f == Field(Some("f"), None, Null, None, Visibility(None, None), [])
    requires s == Section(Some("s"), Some("S"), None, None, [f])
    ensures Render("g", false, map[], s, f).value == Str("")
    ensures Resolved(false, [s], map[]) == map["s_f" := Bool(false)]
  {
    var e := Entry("s_f", "f", Bool(false));
    assert MakeEntry(false, s, f, map[]) == e;
    assert [f][..0] == [];
    assert FieldEntries(false, s, [f], map[]) == [e];
    assert [s][..0] == [];
    assert Entries(false, [s], map[]) == [e];
    assert KeyPairs([e]) == [("s_f", Bool(false))];
    assert [("s_f", Bool(false))][..0] == [];
  }

  // ---------------------------------------------------------------------
  // Import

  datatype ImportOutcome = Ignored | Rejected | Imported

  /**
   * import_settings: a request for another group is ignored; a missing or
   * invalid nonce, a payload that is not a string, or one that does not
   * decode to an array is rejected; anything else is imported.
   */
  function ImportDecision(group: string, postedGroup: Option<string>, nonce: Option<string>, nonceValid: bool,
                          payload: Option<string>, decoded: Option<map<string, Value>>): (o: ImportOutcome)
    ensures o == Ignored <==> postedGroup != Some(group)
    ensures o == Imported <==> postedGroup == Some(group) && !EmptyOpt(nonce) && nonceValid && payload.Some? && decoded.Some?
  {
    if postedGroup != Some(group) then Ignored
    else if EmptyOpt(nonce) || !nonceValid then Rejected
    else if payload.None? || decoded.None? then Rejected
    else Imported
  }

  // ---------------------------------------------------------------------
  // The object

  class SettingsFramework {
    const optionGroup: string
    const cpSecurityPage: bool
    var tabs: seq<Tab>
    var settings: seq<Section>
    var settingsPageSlug: string
    /** The `{group}_settings` option as stored. */
    var stored: map<string, Value>
    /** get_settings' static `$settings`: resolved maps by option name. */
    var cache: map<string, map<string, Value>>
    /** get_settings' static `$settings_raw`: values by bare field id. */
    var cacheRaw: map<string, Value>
    /** The class-static `$options` get_option reads. */
    var options: map<string, Value>
    /** The registration calls made so far. */
    var registered: seq<Registration>

    ghost predicate Valid()
      reads this
    {
      !EmptyString(optionGroup) && settingsPageSlug == PageSlug(optionGroup, cpSecurityPage)
    }

    /**
     * The constructor: an empty option group is fatal (wp_die), so callers
     * must supply one. staticCache and staticRaw are what get_settings'
     * statics already hold when this instance is created.
     */
    constructor(optionGroup: string, wrapper: Wrapper, cpVersionSet: bool, addToCpSecurity: bool,
                stored: map<string, Value>, staticCache: map<string, map<string, Value>>, staticRaw: map<string, Value>)
      requires !EmptyString(optionGroup)
      ensures Valid()
      ensures this.optionGroup == optionGroup && cpSecurityPage == (cpVersionSet && addToCpSecurity)
      ensures wrapper.Keyed? ==> tabs == wrapper.tabs.GetOr([]) && settings == wrapper.sections
      ensures wrapper.SectionList? ==> tabs == [] && settings == wrapper.sections
      ensures this.stored == stored && registered == []
      ensures optionGroup + "_settings" in staticCache ==>
                options == staticCache[optionGroup + "_settings"] && cache == staticCache && cacheRaw == staticRaw
      ensures optionGroup + "_settings" !in staticCache ==>
                options == RawAfter(staticRaw, HasTabs(tabs), settings, stored) && cacheRaw == options &&
                cache == staticCache[optionGroup + "_settings" := Resolved(HasTabs(tabs), settings, stored)]
    {
      this.optionGroup := optionGroup;
      cpSecurityPage := cpVersionSet && addToCpSecurity;
      this.stored := stored;
      cache := staticCache;
      cacheRaw := staticRaw;
      tabs := [];
      settings := [];
      settingsPageSlug := "";
      options := map[];
      registered := [];
      new;
      ConstructSettings(wrapper);
      options := GetSettings(true);
    }

    /** construct_settings: splits the wrapper into tabs and sections and derives the page slug. */
    method ConstructSettings(wrapper: Wrapper)
      requires !EmptyString(optionGroup)
      modifies this`tabs, this`settings, this`settingsPageSlug
      ensures Valid()
      ensures wrapper.Keyed? ==> tabs == wrapper.tabs.GetOr([]) && settings == wrapper.sections
      ensures wrapper.SectionList? ==> tabs == old(tabs) && settings == wrapper.sections
    {
      match wrapper {
        case Keyed(ts, ss) =>
          tabs := ts.GetOr([]);
          settings := ss;
        case SectionList(ss) =>
          settings := ss;
      }
      var base := ReplaceUnderscores(optionGroup);
      settingsPageSlug := if cpSecurityPage then base else base + "-settings";
    }

    /**
     * get_settings: the first call for this group resolves the schema
     * against the stored option and caches the prefixed map; every later
     * call returns that cached map, even when the unprefixed one is asked
     * for, and reads nothing from storage.
     */
    method GetSettings(unprefixed: bool) returns (r: map<string, Value>)
      requires Valid()
      modifies this`cache, this`cacheRaw
      ensures Valid()
      ensures var name := optionGroup + "_settings";
              name in old(cache) ==> r == old(cache)[name] && cache == old(cache) && cacheRaw == old(cacheRaw)
      ensures var name := optionGroup + "_settings";
              name !in old(cache) ==>
                cache == old(cache)[name := Resolved(HasTabs(tabs), settings, stored)] &&
                cacheRaw == RawAfter(old(cacheRaw), HasTabs(tabs), settings, stored) &&
                r == (if unprefixed then cacheRaw else cache[name])
    {
      var name := optionGroup + "_settings";
      if name in cache {
        return cache[name];
      }
      var hasTabs := HasTabs(tabs);
      var prefixed, raw := ResolveSections(hasTabs, settings, stored, cacheRaw);
      cache := cache[name := prefixed];
      cacheRaw := raw;
      r := if unprefixed then raw else prefixed;
    }

    /**
     * process_settings: sorts the sections in place with sort_array (the
     * exchanges usort makes are the input), then registers every shown
     * section and every shown field of it. Nothing happens with no sections.
     */
    method ProcessSettings(exchanges: seq<(nat, nat)>)
      requires Valid()
      modifies this`settings, this`registered
      ensures Valid()
      ensures multiset(settings) == multiset(old(settings))
      ensures (forall s :: s in old(settings) ==> s.sectionOrder.None?) ==> settings == old(settings)
      ensures registered == old(registered) + Registrations(optionGroup, HasTabs(tabs), settings)
    {
      if |settings| == 0 {
        assert Registrations(optionGroup, HasTabs(tabs), settings) == [];
        assert registered == registered + [];
        return;
      }
      var original := settings;
      var a := original;
      for k := 0 to |exchanges|
        invariant multiset(a) == multiset(original)
        invariant registered == old(registered)
        invariant (forall s :: s in original ==> s.sectionOrder.None?) ==> a == original
      {
        if forall s :: s in original ==> s.sectionOrder.None? {
          UnorderedSectionsStay(a, exchanges[k].0, exchanges[k].1);
        }
        a := ApplyExchange(a, exchanges[k].0, exchanges[k].1);
      }
      settings := a;
      var regs := RegisterSections(optionGroup, HasTabs(tabs), a);
      registered := registered + regs;
    }

    /** import_settings: replaces the stored option wholesale, or leaves it untouched. */
    method ImportSettings(postedGroup: Option<string>, nonce: Option<string>, nonceValid: bool,
                          payload: Option<string>, decoded: Option<map<string, Value>>) returns (outcome: ImportOutcome)
      requires Valid()
      modifies this`stored
      ensures Valid()
      ensures outcome == ImportDecision(optionGroup, postedGroup, nonce, nonceValid, payload, decoded)
      ensures outcome == Imported ==> stored == decoded.value
      ensures outcome != Imported ==> stored == old(stored)
    {
      if postedGroup != Some(optionGroup) {
        return Ignored;
      }
      if EmptyOpt(nonce) || !nonceValid {
        return Rejected;
      }
      if payload.None? || decoded.None? {
        return Rejected;
      }
      stored := decoded.value;
      outcome := Imported;
    }

    /** generate_setting: derives the id, value, name, class and generator of one registered field. */
    method GenerateSetting(section: Section, field: Field) returns (r: RenderedField)
      ensures r == Render(optionGroup, HasTabs(tabs), stored, section, field)
    {
      var id := RenderKey(HasTabs(tabs), section, field);
      var value := if id in stored && IsSet(stored[id]) then stored[id] else Coalesce(field.default, Str(""));
      var visibilityClasses := AddShowHideClasses(field.visibility, "show_if");
      r := RenderedField(id, FieldName(optionGroup, id), value, Text(field.cssClass) + visibilityClasses,
                         Dispatch(field.fieldType.GetOr("text")));
    }
  }

  // ---------------------------------------------------------------------
  // The loops of get_settings and process_settings

  lemma WriteEntry(m: map<string, Value>, raw: map<string, Value>, es: seq<Entry>, e: Entry)
    ensures Overlay(m, KeyPairs(es + [e])) == Overlay(m, KeyPairs(es))[e.key := e.value]
    ensures Overlay(raw, IdPairs(es + [e])) == Overlay(raw, IdPairs(es))[e.id := e.value]
  {
    PairsAppend(es, e);
    OverlayAppend(m, KeyPairs(es), (e.key, e.value));
    OverlayAppend(raw, IdPairs(es), (e.id, e.value));
  }

  /** The inner loop over one section's fields: writes each field's effective value under its key and under its bare id. */
  method ResolveFields(hasTabs: bool, s: Section, saved: map<string, Value>,
                       ghost before: seq<Entry>, prefixed0: map<string, Value>, raw0: map<string, Value>, base: map<string, Value>)
    returns (prefixed: map<string, Value>, raw: map<string, Value>)
    requires prefixed0 == Overlay(map[], KeyPairs(before))
    requires raw0 == Overlay(base, IdPairs(before))
    ensures prefixed == Overlay(map[], KeyPairs(before + FieldEntries(hasTabs, s, s.fields, saved)))
    ensures raw == Overlay(base, IdPairs(before + FieldEntries(hasTabs, s, s.fields, saved)))
  {
    prefixed, raw := prefixed0, raw0;
    assert s.fields[..0] == [];
    assert before + FieldEntries(hasTabs, s, [], saved) == before;
    for j := 0 to |s.fields|
      invariant prefixed == Overlay(map[], KeyPairs(before + FieldEntries(hasTabs, s, s.fields[..j], saved)))
      invariant raw == Overlay(base, IdPairs(before + FieldEntries(hasTabs, s, s.fields[..j], saved)))
    {
      var field := s.fields[j];
      var key := SettingKey(hasTabs, Text(s.tabId), Text(s.sectionId), FieldIdText(field));
      var value: Value;
      if key in saved && IsSet(saved[key]) {
        value := saved[key];
      } else {
        var d := NormalisedDefault(field);
        value := if IsSet(d) then d else Bool(false);
      }
      FieldStep(hasTabs, s, saved, before, j, base);
      prefixed := prefixed[key := value];
      raw := raw[FieldIdText(field) := value];
    }
    assert s.fields[..|s.fields|] == s.fields;
  }

  /** Writing field j's entry extends the prefix of entries by that field. */
  lemma FieldStep(hasTabs: bool, s: Section, saved: map<string, Value>, before: seq<Entry>, j: nat, base: map<string, Value>)
    requires j < |s.fields|
    ensures var e := MakeEntry(hasTabs, s, s.fields[j], saved);
            var done := before + FieldEntries(hasTabs, s, s.fields[..j], saved);
            var next := before + FieldEntries(hasTabs, s, s.fields[..j + 1], saved);
            Overlay(map[], KeyPairs(next)) == Overlay(map[], KeyPairs(done))[e.key := e.value] &&
            Overlay(base, IdPairs(next)) == Overlay(base, IdPairs(done))[e.id := e.value]
  {
    var done := before + FieldEntries(hasTabs, s, s.fields[..j], saved);
    var e := MakeEntry(hasTabs, s, s.fields[j], saved);
    assert s.fields[..j + 1][..j] == s.fields[..j];
    assert before + FieldEntries(hasTabs, s, s.fields[..j + 1], saved) == done + [e];
    WriteEntry(map[], base, done, e);
  }

  /** The outer loop of get_settings: every section with fields, in order. */
  method ResolveSections(hasTabs: bool, ss: seq<Section>, saved: map<string, Value>, raw0: map<string, Value>)
    returns (prefixed: map<string, Value>, raw: map<string, Value>)
    ensures prefixed == Resolved(hasTabs, ss, saved)
    ensures raw == RawAfter(raw0, hasTabs, ss, saved)
  {
    prefixed, raw := map[], raw0;
    assert ss[..0] == [];
    for i := 0 to |ss|
      invariant prefixed == Overlay(map[], KeyPairs(Entries(hasTabs, ss[..i], saved)))
      invariant raw == Overlay(raw0, IdPairs(Entries(hasTabs, ss[..i], saved)))
    {
      var section := ss[i];
      ghost var before := Entries(hasTabs, ss[..i], saved);
      assert ss[..i + 1][..i] == ss[..i];
      assert Entries(hasTabs, ss[..i + 1], saved) == before + SectionEntries(hasTabs, section, saved);
      if |section.fields| > 0 {
        prefixed, raw := ResolveFields(hasTabs, section, saved, before, prefixed, raw, raw0);
      } else {
        assert before + SectionEntries(hasTabs, section, saved) == before;
      }
    }
    assert ss[..|ss|] == ss;
  }

  /** The registration loop of process_settings over the sorted sections. */
  method RegisterSections(group: string, hasTabs: bool, ss: seq<Section>) returns (regs: seq<Registration>)
    ensures regs == Registrations(group, hasTabs, ss)
  {
    regs := [];
    assert ss[..0] == [];
    for i := 0 to |ss|
      invariant regs == Registrations(group, hasTabs, ss[..i])
    {
      var section := ss[i];
      assert ss[..i + 1][..i] == ss[..i];
      if !EmptyOpt(section.sectionId) && section.sectionTitle.Some? {
        var page := PageName(group, hasTabs, section);
        var fieldRegs := RegisterFields(group, hasTabs, section);
        regs := regs + [SectionAdded(section.sectionId.value, section.sectionTitle.value, page)] + fieldRegs;
      }
    }
    assert ss[..|ss|] == ss;
  }

  /** The inner loop: one add_settings_field per field with a truthy id. */
  method RegisterFields(group: string, hasTabs: bool, s: Section) returns (regs: seq<Registration>)
    requires SectionShown(s)
    ensures regs == FieldRegistrations(group, hasTabs, s, s.fields)
  {
    regs := [];
    assert s.fields[..0] == [];
    for j := 0 to |s.fields|
      invariant regs == FieldRegistrations(group, hasTabs, s, s.fields[..j])
    {
      var field := s.fields[j];
      assert s.fields[..j + 1][..j] == s.fields[..j];
      if field.id.Some? && !EmptyString(field.id.value) {
        regs := regs + [FieldAdded(field.id.value, PageName(group, hasTabs, s), s.sectionId.value, RowClass(field), s, field)];
      }
    }
    assert s.fields[..|s.fields|] == s.fields;
  }

  /**
   * Once a group's resolution is cached, asking again for the unprefixed
   * map returns the prefixed one. The precondition (group not cached) holds
   * only inside the constructor, before its own get_settings(true): the
   * first call here stands for that call, the second for any later one.
   */
  method ReadSettingsTwice(fw: SettingsFramework) returns (first: map<string, Value>, second: map<string, Value>)
    requires fw.Valid() && fw.optionGroup + "_settings" !in fw.cache
    modifies fw`cache, fw`cacheRaw
    ensures first == RawAfter(old(fw.cacheRaw), HasTabs(fw.tabs), fw.settings, fw.stored)
    ensures second == Resolved(HasTabs(fw.tabs), fw.settings, fw.stored)
  {
    first := fw.GetSettings(true);
    second := fw.GetSettings(true);
  }

  /**
   * An import rewrites the stored option but not get_settings' cache: once
   * a group is resolved, reading it after an import still returns the map
   * resolved before it.
   */
  method ImportThenRead(fw: SettingsFramework, postedGroup: Option<string>, nonce: Option<string>, nonceValid: bool,
                        payload: Option<string>, decoded: Option<map<string, Value>>)
    returns (outcome: ImportOutcome, after: map<string, Value>)
    requires fw.Valid() && fw.optionGroup + "_settings" in fw.cache
    modifies fw`stored, fw`cache, fw`cacheRaw
    ensures outcome == ImportDecision(fw.optionGroup, postedGroup, nonce, nonceValid, payload, decoded)
    ensures outcome == Imported ==> fw.stored == decoded.value
    ensures after == old(fw.cache[fw.optionGroup + "_settings"])
  {
    outcome := fw.ImportSettings(postedGroup, nonce, nonceValid, payload, decoded);
    after := fw.GetSettings(false);
  }
}
