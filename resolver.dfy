// What get_settings computes from the schema and the stored option, and
// what get_option reads back. The walk over sections and fields is
// flattened into a list of entries (derived key, bare field id, effective
// value), in iteration order; the prefixed map and the bare-id map are
// that list written into a map one entry at a time, so a later entry
// overwrites an earlier one with the same key.

module Resolver {
  import opened PhpValues
  import opened Schema

  datatype Entry = Entry(key: string, id: string, value: Value)

  /** A non-empty array default is re-indexed with array_values; other defaults are kept. */
  function NormalisedDefault(f: Field): (d: Value)
    ensures IsSet(d) <==> IsSet(f.default)
    ensures !f.default.Arr? ==> d == f.default
    ensures f.default.Arr? ==> d == Arr(ArrayValues(f.default.entries))
  {
    if !Empty(f.default) && f.default.Arr? then Arr(ArrayValues(f.default.entries)) else f.default
  }

  /** Stored value if it is set, else the (normalised) default if set, else false. */
  function EffectiveValue(stored: map<string, Value>, key: string, f: Field): (v: Value)
    ensures IsSet(v)
    ensures key in stored && IsSet(stored[key]) ==> v == stored[key]
    ensures !(key in stored && IsSet(stored[key])) && IsSet(f.default) ==> v == NormalisedDefault(f)
    ensures !(key in stored && IsSet(stored[key])) && !IsSet(f.default) ==> v == Bool(false)
  {
    if key in stored && IsSet(stored[key]) then stored[key]
    else
      var d := NormalisedDefault(f);
      if IsSet(d) then d else Bool(false)
  }

  function MakeEntry(hasTabs: bool, s: Section, f: Field, stored: map<string, Value>): Entry {
    var key := FieldKey(hasTabs, s, f);
    Entry(key, FieldIdText(f), EffectiveValue(stored, key, f))
  }

  function FieldEntries(hasTabs: bool, s: Section, fields: seq<Field>, stored: map<string, Value>): (es: seq<Entry>)
    ensures |es| == |fields|
    decreases |fields|
  {
    if |fields| == 0 then []
    else FieldEntries(hasTabs, s, fields[..|fields| - 1], stored) + [MakeEntry(hasTabs, s, fields[|fields| - 1], stored)]
  }

  /** A section with empty `fields` is skipped. */
  function SectionEntries(hasTabs: bool, s: Section, stored: map<string, Value>): seq<Entry> {
    if |s.fields| == 0 then [] else FieldEntries(hasTabs, s, s.fields, stored)
  }

  function Entries(hasTabs: bool, ss: seq<Section>, stored: map<string, Value>): seq<Entry>
    decreases |ss|
  {
    if |ss| == 0 then []
    else Entries(hasTabs, ss[..|ss| - 1], stored) + SectionEntries(hasTabs, ss[|ss| - 1], stored)
  }

  /** Writes each pair into m in order; a later pair overwrites an earlier one. */
  function Overlay(m: map<string, Value>, ps: seq<(string, Value)>): map<string, Value>
    decreases |ps|
  {
    if |ps| == 0 then m
    else Overlay(m, ps[..|ps| - 1])[ps[|ps| - 1].0 := ps[|ps| - 1].1]
  }

  function KeyPairs(es: seq<Entry>): (ps: seq<(string, Value)>)
    ensures |ps| == |es|
    ensures forall i :: 0 <= i < |es| ==> ps[i] == (es[i].key, es[i].value)
  {
    seq(|es|, i requires 0 <= i < |es| => (es[i].key, es[i].value))
  }

  function IdPairs(es: seq<Entry>): (ps: seq<(string, Value)>)
    ensures |ps| == |es|
    ensures forall i :: 0 <= i < |es| ==> ps[i] == (es[i].id, es[i].value)
  {
    seq(|es|, i requires 0 <= i < |es| => (es[i].id, es[i].value))
  }

  /** The map get_settings caches under `{group}_settings`. */
  function Resolved(hasTabs: bool, ss: seq<Section>, stored: map<string, Value>): map<string, Value> {
    Overlay(map[], KeyPairs(Entries(hasTabs, ss, stored)))
  }

  /** The bare-id map after one resolution, starting from what the static held before. */
  function RawAfter(raw: map<string, Value>, hasTabs: bool, ss: seq<Section>, stored: map<string, Value>): map<string, Value> {
    Overlay(raw, IdPairs(Entries(hasTabs, ss, stored)))
  }

  /** get_option: the value under the bare field id unless it is empty(), else the caller's default. */
  function GetOption(options: map<string, Value>, fieldId: string, default: Value): (r: Value)
    ensures r == default || (fieldId in options && r == options[fieldId] && !Empty(r))
    ensures fieldId in options && !Empty(options[fieldId]) ==> r == options[fieldId]
  {
    if fieldId in options && IsSet(options[fieldId]) && !Empty(options[fieldId]) then options[fieldId] else default
  }

  // ---------------------------------------------------------------------
  // Overlay: last write wins

  lemma {:induction false} OverlayDomain(m: map<string, Value>, ps: seq<(string, Value)>, k: string)
    ensures k in Overlay(m, ps) <==> k in m || exists i :: 0 <= i < |ps| && ps[i].0 == k
    decreases |ps|
  {
    if |ps| > 0 {
      var init := ps[..|ps| - 1];
      OverlayDomain(m, init, k);
      if exists i :: 0 <= i < |init| && init[i].0 == k {
        var i :| 0 <= i < |init| && init[i].0 == k;
        assert ps[i].0 == k;
      }
      if exists i :: 0 <= i < |ps| && ps[i].0 == k {
        var i :| 0 <= i < |ps| && ps[i].0 == k;
        if i < |init| {
          assert init[i].0 == k;
        }
      }
    }
  }

  /** The value under a key is the one of the last pair with that key. */
  lemma {:induction false} OverlayLast(m: map<string, Value>, ps: seq<(string, Value)>, i: nat)
    requires i < |ps|
    requires forall j :: i < j < |ps| ==> ps[j].0 != ps[i].0
    ensures ps[i].0 in Overlay(m, ps) && Overlay(m, ps)[ps[i].0] == ps[i].1
    decreases |ps|
  {
    if i < |ps| - 1 {
      var init := ps[..|ps| - 1];
      assert ps[|ps| - 1].0 != ps[i].0;
      OverlayLast(m, init, i);
    }
  }

  /** A key no pair mentions keeps its old value. */
  lemma {:induction false} OverlayUntouched(m: map<string, Value>, ps: seq<(string, Value)>, k: string)
    requires k in m
    requires forall j :: 0 <= j < |ps| ==> ps[j].0 != k
    ensures k in Overlay(m, ps) && Overlay(m, ps)[k] == m[k]
    decreases |ps|
  {
    if |ps| > 0 {
      OverlayUntouched(m, ps[..|ps| - 1], k);
    }
  }

  /** Every value in the overlay came from m or from some pair. */
  lemma {:induction false} OverlayValueOrigin(m: map<string, Value>, ps: seq<(string, Value)>, k: string)
    requires k in Overlay(m, ps)
    ensures (exists i :: 0 <= i < |ps| && ps[i] == (k, Overlay(m, ps)[k])) || (k in m && Overlay(m, ps)[k] == m[k])
    decreases |ps|
  {
    if |ps| > 0 {
      var init := ps[..|ps| - 1];
      if ps[|ps| - 1].0 != k {
        OverlayValueOrigin(m, init, k);
        if exists i :: 0 <= i < |init| && init[i] == (k, Overlay(m, init)[k]) {
          var i :| 0 <= i < |init| && init[i] == (k, Overlay(m, init)[k]);
          assert ps[i] == init[i];
        }
      } else {
        assert ps[|ps| - 1] == (k, Overlay(m, ps)[k]);
      }
    }
  }

  /** Appending one entry to the walk writes that one key. */
  /** A written key holds the value of one of its writes, at or after any given one. */
  lemma {:induction false} OverlayWrittenValue(m: map<string, Value>, ps: seq<(string, Value)>, k: string, i: nat)
    requires i < |ps| && ps[i].0 == k
    ensures k in Overlay(m, ps)
    ensures exists j :: i <= j < |ps| && ps[j] == (k, Overlay(m, ps)[k])
    decreases |ps|
  {
    if ps[|ps| - 1].0 != k {
      var init := ps[..|ps| - 1];
      OverlayWrittenValue(m, init, k, i);
      var j :| i <= j < |init| && init[j] == (k, Overlay(m, init)[k]);
      assert ps[j] == init[j];
    } else {
      assert ps[|ps| - 1] == (k, Overlay(m, ps)[k]);
    }
  }

  lemma OverlayAppend(m: map<string, Value>, ps: seq<(string, Value)>, p: (string, Value))
    ensures Overlay(m, ps + [p]) == Overlay(m, ps)[p.0 := p.1]
  {
    assert (ps + [p])[..|ps|] == ps;
  }

  lemma PairsAppend(es: seq<Entry>, e: Entry)
    ensures KeyPairs(es + [e]) == KeyPairs(es) + [(e.key, e.value)]
    ensures IdPairs(es + [e]) == IdPairs(es) + [(e.id, e.value)]
  {
  }

  // ---------------------------------------------------------------------
  // Which entries the walk produces

  lemma {:induction false} FieldEntriesMembership(hasTabs: bool, s: Section, fields: seq<Field>, stored: map<string, Value>)
    ensures forall e :: e in FieldEntries(hasTabs, s, fields, stored) <==>
                        exists f :: f in fields && e == MakeEntry(hasTabs, s, f, stored)
    decreases |fields|
  {
    if |fields| > 0 {
      var init := fields[..|fields| - 1];
      FieldEntriesMembership(hasTabs, s, init, stored);
      assert forall f :: f in fields <==> f in init || f == fields[|fields| - 1];
    }
  }

  lemma {:induction false} EntriesMembership(hasTabs: bool, ss: seq<Section>, stored: map<string, Value>)
    ensures forall e :: e in Entries(hasTabs, ss, stored) <==>
                        exists s, f :: s in ss && f in s.fields && e == MakeEntry(hasTabs, s, f, stored)
    decreases |ss|
  {
    if |ss| > 0 {
      var init := ss[..|ss| - 1];
      var last := ss[|ss| - 1];
      EntriesMembership(hasTabs, init, stored);
      FieldEntriesMembership(hasTabs, last, last.fields, stored);
      assert forall s :: s in ss <==> s in init || s == last;
    }
  }

  // ---------------------------------------------------------------------
  // Properties of the resolved maps

  /** The prefixed map has exactly the derived keys of the schema's fields: no stored key outside the schema appears. */
  lemma ResolvedDomain(hasTabs: bool, ss: seq<Section>, stored: map<string, Value>, k: string)
    ensures k in Resolved(hasTabs, ss, stored) <==>
            exists s, f :: s in ss && f in s.fields && FieldKey(hasTabs, s, f) == k
  {
    var es := Entries(hasTabs, ss, stored);
    var ps := KeyPairs(es);
    OverlayDomain(map[], ps, k);
    EntriesMembership(hasTabs, ss, stored);
    if exists i :: 0 <= i < |ps| && ps[i].0 == k {
      var i :| 0 <= i < |ps| && ps[i].0 == k;
      assert es[i] in es;
    }
    if exists s, f :: s in ss && f in s.fields && FieldKey(hasTabs, s, f) == k {
      var s, f :| s in ss && f in s.fields && FieldKey(hasTabs, s, f) == k;
      var e := MakeEntry(hasTabs, s, f, stored);
      assert e in es;
      var i :| 0 <= i < |es| && es[i] == e;
      assert ps[i].0 == k;
    }
  }

  /** Every resolved value is the effective value (stored, else default, else false) of a field with that key. */
  lemma ResolvedValue(hasTabs: bool, ss: seq<Section>, stored: map<string, Value>, k: string)
    requires k in Resolved(hasTabs, ss, stored)
    ensures exists s, f :: s in ss && f in s.fields && FieldKey(hasTabs, s, f) == k &&
                           Resolved(hasTabs, ss, stored)[k] == EffectiveValue(stored, k, f)
  {
    var es := Entries(hasTabs, ss, stored);
    var ps := KeyPairs(es);
    OverlayValueOrigin(map[], ps, k);
    var i :| 0 <= i < |ps| && ps[i] == (k, Overlay(map[], ps)[k]);
    EntriesMembership(hasTabs, ss, stored);
    assert es[i] in es;
  }

  /** A stored value that is set always wins over the field's default. */
  lemma StoredValueWins(hasTabs: bool, ss: seq<Section>, stored: map<string, Value>, k: string)
    requires k in stored && IsSet(stored[k])
    requires exists s, f :: s in ss && f in s.fields && FieldKey(hasTabs, s, f) == k
    ensures k in Resolved(hasTabs, ss, stored) && Resolved(hasTabs, ss, stored)[k] == stored[k]
  {
    ResolvedDomain(hasTabs, ss, stored, k);
    ResolvedValue(hasTabs, ss, stored, k);
  }

  /** Stored keys that no schema field derives are never in the result. */
  lemma UnknownStoredKeysDropped(hasTabs: bool, ss: seq<Section>, stored: map<string, Value>, k: string)
    requires forall s, f :: s in ss && f in s.fields ==> FieldKey(hasTabs, s, f) != k
    ensures k !in Resolved(hasTabs, ss, stored)
  {
    ResolvedDomain(hasTabs, ss, stored, k);
  }

  /**
   * When every field deriving key k declares the same default (as when the
   * key is unique), the resolved value is f's stored value if set, else
   * its normalised default if set, else false.
   */
  lemma ResolvedPrecedence(hasTabs: bool, ss: seq<Section>, stored: map<string, Value>, s: Section, f: Field)
    requires s in ss && f in s.fields
    requires forall s', f' :: s' in ss && f' in s'.fields && FieldKey(hasTabs, s', f') == FieldKey(hasTabs, s, f) ==> f'.default == f.default
    ensures var k := FieldKey(hasTabs, s, f);
            var r := Resolved(hasTabs, ss, stored);
            k in r &&
            (k in stored && IsSet(stored[k]) ==> r[k] == stored[k]) &&
            (!(k in stored && IsSet(stored[k])) && IsSet(f.default) ==> r[k] == NormalisedDefault(f)) &&
            (!(k in stored && IsSet(stored[k])) && !IsSet(f.default) ==> r[k] == Bool(false))
  {
    var k := FieldKey(hasTabs, s, f);
    ResolvedDomain(hasTabs, ss, stored, k);
    ResolvedValue(hasTabs, ss, stored, k);
  }

  /**
   * The bare-id map holds, for each id, the value of the last field with
   * that id; when that entry is also the last with its derived key, it
   * equals the value in the prefixed map.
   */
  lemma RawMatchesPrefixed(raw: map<string, Value>, hasTabs: bool, ss: seq<Section>, stored: map<string, Value>, i: nat)
    requires i < |Entries(hasTabs, ss, stored)|
    requires var es := Entries(hasTabs, ss, stored);
             forall j :: i < j < |es| ==> es[j].id != es[i].id
    ensures var es := Entries(hasTabs, ss, stored);
            es[i].id in RawAfter(raw, hasTabs, ss, stored) && RawAfter(raw, hasTabs, ss, stored)[es[i].id] == es[i].value
    ensures var es := Entries(hasTabs, ss, stored);
            (forall j :: i < j < |es| ==> es[j].key != es[i].key) ==>
              es[i].key in Resolved(hasTabs, ss, stored) &&
              RawAfter(raw, hasTabs, ss, stored)[es[i].id] == Resolved(hasTabs, ss, stored)[es[i].key]
  {
    var es := Entries(hasTabs, ss, stored);
    OverlayLast(raw, IdPairs(es), i);
    if forall j :: i < j < |es| ==> es[j].key != es[i].key {
      OverlayLast(map[], KeyPairs(es), i);
    }
  }

  /**
   * get_option after a construction that resolved the group itself (it was
   * not cached yet), over whatever the raw static held before: for a field
   * whose id no other field with a different key or default shares, it
   * returns the field's effective value unless that is empty(), and the
   * caller's default otherwise.
   */
  lemma GetOptionReadsEffective(raw: map<string, Value>, hasTabs: bool, ss: seq<Section>, stored: map<string, Value>, s: Section, f: Field, default: Value)
    requires s in ss && f in s.fields
    requires forall s', f' :: s' in ss && f' in s'.fields && FieldIdText(f') == FieldIdText(f) ==>
               FieldKey(hasTabs, s', f') == FieldKey(hasTabs, s, f) && f'.default == f.default
    ensures var v := EffectiveValue(stored, FieldKey(hasTabs, s, f), f);
            GetOption(RawAfter(raw, hasTabs, ss, stored), FieldIdText(f), default) == if Empty(v) then default else v
  {
    var es := Entries(hasTabs, ss, stored);
    var ps := IdPairs(es);
    var x := FieldIdText(f);
    var v := EffectiveValue(stored, FieldKey(hasTabs, s, f), f);
    EntriesMembership(hasTabs, ss, stored);
    var e := MakeEntry(hasTabs, s, f, stored);
    assert e in es;
    var i :| 0 <= i < |es| && es[i] == e;
    assert ps[i].0 == x;
    OverlayWrittenValue(raw, ps, x, i);
    var j :| i <= j < |ps| && ps[j] == (x, Overlay(raw, ps)[x]);
    assert es[j] in es;
  }

  /**
   * When the group is already cached, the constructor sets get_option's
   * static to the cached prefixed map, where bare field ids are not keys:
   * get_option then returns the caller's default although a value is
   * stored, while after a fresh resolution it returns that value.
   */
  lemma CachedGroupHidesOptions(s: Section, f: Field, stored: map<string, Value>)
    requires f == Field(Some("x"), None, Null, None, Visibility(None, None), [])
    requires s == Section(Some("s"), Some("S"), None, None, [f])
    requires stored == map["s_x" := Str("v")]
    ensures GetOption(Resolved(false, [s], stored), "x", Bool(false)) == Bool(false)
    ensures GetOption(RawAfter(map[], false, [s], stored), "x", Bool(false)) == Str("v")
  {
    var e := Entry("s_x", "x", Str("v"));
    assert FieldKey(false, s, f) == "s_x";
    assert EffectiveValue(stored, "s_x", f) == Str("v");
    assert MakeEntry(false, s, f, stored) == e;
    assert [f][..0] == [];
    assert FieldEntries(false, s, [f], stored) == [e];
    assert [s][..0] == [];
    assert Entries(false, [s], stored) == [e];
    assert KeyPairs([e]) == [("s_x", Str("v"))];
    assert IdPairs([e]) == [("x", Str("v"))];
    assert [("s_x", Str("v"))][..0] == [];
    assert [("x", Str("v"))][..0] == [];
  }

  /** wpsf_get_setting agrees with the resolver on untabbed keys whose stored value is set. */
  lemma GetSettingAgreesWhenStored(optionsTable: map<string, map<string, Value>>, group: string, ss: seq<Section>, s: Section, f: Field)
    requires s in ss && f in s.fields
    requires group + "_settings" in optionsTable
    requires var stored := optionsTable[group + "_settings"];
             var k := FieldKey(false, s, f);
             k in stored && IsSet(stored[k])
    ensures FieldKey(false, s, f) in Resolved(false, ss, optionsTable[group + "_settings"])
    ensures GetSetting(optionsTable, group, Text(s.sectionId), FieldIdText(f)) ==
            Resolved(false, ss, optionsTable[group + "_settings"])[FieldKey(false, s, f)]
  {
    StoredValueWins(false, ss, optionsTable[group + "_settings"], FieldKey(false, s, f));
  }
}
