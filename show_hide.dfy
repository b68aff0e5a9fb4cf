// add_show_hide_classes: compiles a field's (or tab's) `show_if` and
// `hide_if` condition arrays into CSS class names that the settings
// page's script reads. A single clause becomes `slug--field===v1||v2`, an
// AND list becomes `slug--f1===v1&&f2===v2`, and the hide pass is always
// appended after the show pass.
//
// The functions below state what each accumulator holds after its loop;
// the methods are the loops themselves, proved against them. The lemmas
// relate the emitted text to a plain OR/AND serialisation and pin down
// the two quirks that come from PHP's empty(): a leading "0" value is
// glued to the next one without `||`, and `&&` is written before it is
// known whether the next clause contributes anything.

module ShowHide {
  import opened PhpValues
  import opened Schema

  // ---------------------------------------------------------------------
  // What the accumulators hold

  /** `$value_string` after its loop: `||` is added only while the text so far is not empty(). */
  function JoinValues(values: seq<string>): string
    decreases |values|
  {
    if |values| == 0 then ""
    else
      var acc := JoinValues(values[..|values| - 1]);
      (if EmptyString(acc) then acc else acc + "||") + values[|values| - 1]
  }

  /** `$and_string` after its loop over the clauses of an AND list. */
  function AndString(clauses: seq<Clause>): string
    decreases |clauses|
  {
    if |clauses| == 0 then ""
    else AndStep(AndString(clauses[..|clauses| - 1]), clauses[|clauses| - 1])
  }

  /** One iteration of the AND loop: what clause c does to `$and_string` acc. */
  function AndStep(acc: string, c: Clause): string {
    if c.field.None? || c.value.None? then acc
    else
      var withSep := if EmptyString(acc) then acc else acc + "&&";
      var vs := JoinValues(c.value.value);
      if EmptyString(vs) then withSep else withSep + c.field.value + "===" + vs
  }

  /** A condition is a single OR clause when `field` is set and `value` is a non-empty array. */
  predicate IsSingleClause(c: Condition) {
    c.field.Some? && c.value.Some? && |c.value.value| > 0
  }

  /** What one element of the condition array adds to `$class`. */
  function ConditionClass(slug: string, c: Condition): string {
    if IsSingleClause(c) then
      var vs := JoinValues(c.value.value);
      if EmptyString(vs) then "" else slug + "--" + c.field.value + "===" + vs
    else
      var a := AndString(c.clauses);
      if EmptyString(a) then "" else slug + "--" + a
  }

  function ConditionsClass(slug: string, conds: seq<Condition>): string
    decreases |conds|
  {
    if |conds| == 0 then ""
    else ConditionsClass(slug, conds[..|conds| - 1]) + ConditionClass(slug, conds[|conds| - 1])
  }

  /** `' ' . str_replace('_', '-', $type)` */
  function Slug(kind: string): string {
    " " + ReplaceUnderscores(kind)
  }

  /** `$args[$type]` when it is an array. */
  function ConditionsOf(vis: Visibility, kind: string): Option<seq<Condition>> {
    if kind == "show_if" then vis.showIf
    else if kind == "hide_if" then vis.hideIf
    else None
  }

  /** One pass: the bare slug, then one class per condition that emits anything. */
  function PassClasses(conds: Option<seq<Condition>>, slug: string): string {
    match conds
    case None => ""
    case Some(cs) => slug + ConditionsClass(slug, cs)
  }

  /** The whole result of add_show_hide_classes($args, $type). */
  function ShowHideClasses(vis: Visibility, kind: string): string
    decreases if kind == "hide_if" then 0 else 1
  {
    var own := PassClasses(ConditionsOf(vis, kind), Slug(kind));
    if kind != "hide_if" then own + ShowHideClasses(vis, "hide_if") else own
  }

  // ---------------------------------------------------------------------
  // The loops

  method BuildValueString(values: seq<string>) returns (valueString: string)
    ensures valueString == JoinValues(values)
  {
    valueString := "";
    var i := 0;
    while i < |values|
      invariant 0 <= i <= |values|
      invariant valueString == JoinValues(values[..i])
    {
      if !EmptyString(valueString) {
        valueString := valueString + "||";
      }
      valueString := valueString + values[i];
      assert values[..i + 1][..i] == values[..i];
      i := i + 1;
    }
    assert values[..|values|] == values;
  }

  method BuildAndString(clauses: seq<Clause>) returns (andString: string)
    ensures andString == AndString(clauses)
  {
    andString := "";
    var i := 0;
    while i < |clauses|
      invariant 0 <= i <= |clauses|
      invariant andString == AndString(clauses[..i])
    {
      var c := clauses[i];
      assert clauses[..i + 1][..i] == clauses[..i];
      if c.field.Some? && c.value.Some? {
        if !EmptyString(andString) {
          andString := andString + "&&";
        }
        var valueString := BuildValueString(c.value.value);
        if !EmptyString(valueString) {
          andString := andString + c.field.value + "===" + valueString;
        }
      }
      i := i + 1;
    }
    assert clauses[..|clauses|] == clauses;
  }

  /** What the body of the foreach over the condition array appends for one condition. */
  method BuildConditionClass(slug: string, c: Condition) returns (cls: string)
    ensures cls == ConditionClass(slug, c)
  {
    cls := "";
    if c.field.Some? && c.value.Some? && |c.value.value| > 0 {
      var valueString := BuildValueString(c.value.value);
      if !EmptyString(valueString) {
        cls := slug + "--" + c.field.value + "===" + valueString;
      }
    } else {
      var andString := BuildAndString(c.clauses);
      if !EmptyString(andString) {
        cls := slug + "--" + andString;
      }
    }
  }

  /** One pass over a present condition array: the bare slug, then each condition's classes. */
  method BuildPassClasses(cs: seq<Condition>, slug: string) returns (cls: string)
    ensures cls == PassClasses(Some(cs), slug)
  {
    cls := slug;
    var i := 0;
    while i < |cs|
      invariant 0 <= i <= |cs|
      invariant cls == slug + ConditionsClass(slug, cs[..i])
    {
      var part := BuildConditionClass(slug, cs[i]);
      ConditionsClassStep(slug, cs, i);
      cls := cls + part;
      i := i + 1;
    }
    assert cs[..|cs|] == cs;
  }

  lemma ConditionsClassStep(slug: string, cs: seq<Condition>, i: nat)
    requires i < |cs|
    ensures slug + ConditionsClass(slug, cs[..i + 1]) == (slug + ConditionsClass(slug, cs[..i])) + ConditionClass(slug, cs[i])
  {
    assert cs[..i + 1][..i] == cs[..i];
  }

  /** add_show_hide_classes; the caller's default kind is "show_if". */
  method AddShowHideClasses(vis: Visibility, kind: string) returns (cls: string)
    ensures cls == ShowHideClasses(vis, kind)
    decreases if kind == "hide_if" then 0 else 1
  {
    cls := "";
    var slug := " " + ReplaceUnderscores(kind);
    var conds := ConditionsOf(vis, kind);
    if conds.Some? {
      cls := BuildPassClasses(conds.value, slug);
    }
    if kind != "hide_if" {
      var hidden := AddShowHideClasses(vis, "hide_if");
      cls := cls + hidden;
    }
  }

  // ---------------------------------------------------------------------
  // A plain serialisation to compare with

  /** The parts joined with sep between every two of them. */
  function JoinWith(sep: string, parts: seq<string>): string
    decreases |parts|
  {
    if |parts| == 0 then ""
    else if |parts| == 1 then parts[0]
    else JoinWith(sep, parts[..|parts| - 1]) + sep + parts[|parts| - 1]
  }

  /** All values concatenated with no separator. */
  function Concat(values: seq<string>): string
    decreases |values|
  {
    if |values| == 0 then "" else Concat(values[..|values| - 1]) + values[|values| - 1]
  }

  /** A value list whose OR text is the plain `||` join: non-empty, first value not empty(). */
  predicate GoodValues(vs: seq<string>) {
    |vs| > 0 && !EmptyString(vs[0])
  }

  /** `field===v1||v2||...` */
  function OrText(field: string, vs: seq<string>): string {
    field + "===" + JoinWith("||", vs)
  }

  predicate GoodClause(c: Clause) {
    c.field.Some? && c.value.Some? && GoodValues(c.value.value)
  }

  /** A clause the AND loop does not skip: both `field` and `value` are set. */
  predicate Complete(c: Clause) {
    c.field.Some? && c.value.Some?
  }

  /** The complete clauses of a list, in order. */
  function CompleteClauses(clauses: seq<Clause>): (r: seq<Clause>)
    ensures |r| <= |clauses|
    ensures forall c :: c in r <==> c in clauses && Complete(c)
    decreases |clauses|
  {
    if |clauses| == 0 then []
    else
      var init := clauses[..|clauses| - 1];
      var last := clauses[|clauses| - 1];
      assert clauses == init + [last];
      CompleteClauses(init) + (if Complete(last) then [last] else [])
  }

  function AndParts(clauses: seq<Clause>): (parts: seq<string>)
    requires forall i :: 0 <= i < |clauses| ==> GoodClause(clauses[i])
    ensures |parts| == |clauses|
    decreases |clauses|
  {
    if |clauses| == 0 then []
    else
      var last := clauses[|clauses| - 1];
      assert GoodClause(last);
      AndParts(clauses[..|clauses| - 1]) + [OrText(last.field.value, last.value.value)]
  }

  // ---------------------------------------------------------------------
  // Lemmas

  /**
   * The value string is empty() exactly when the concatenation of the
   * values is, and while it is empty() no separator has been added.
   */
  lemma {:induction false} JoinValuesEmptiness(vs: seq<string>)
    ensures EmptyString(Concat(vs)) ==> JoinValues(vs) == Concat(vs)
    ensures EmptyString(JoinValues(vs)) <==> EmptyString(Concat(vs))
    decreases |vs|
  {
    if |vs| > 0 {
      var init := vs[..|vs| - 1];
      var v := vs[|vs| - 1];
      JoinValuesEmptiness(init);
      var acc := JoinValues(init);
      if EmptyString(Concat(init) + v) {
        assert Concat(init) == (Concat(init) + v)[..|Concat(init)|];
        assert EmptyString(Concat(init));
      } else if EmptyString(Concat(init)) {
        assert JoinValues(vs) == Concat(vs);
      } else {
        assert JoinValues(vs) == acc + "||" + v;
        assert |JoinValues(vs)| >= 2;
      }
    }
  }

  /** When the first value is not empty(), the value string is the plain `||` join. */
  lemma {:induction false} JoinValuesIsPlainJoin(vs: seq<string>)
    requires GoodValues(vs)
    ensures JoinValues(vs) == JoinWith("||", vs)
    ensures !EmptyString(JoinValues(vs))
    decreases |vs|
  {
    if |vs| == 1 {
      assert vs[..0] == [];
    } else {
      var init := vs[..|vs| - 1];
      assert init[0] == vs[0];
      JoinValuesIsPlainJoin(init);
    }
  }

  /** The PHP empty() quirks, on concrete inputs. */
  lemma JoinValuesQuirks()
    ensures JoinValues(["0", "a"]) == "0a"
    ensures JoinValues(["", "a"]) == "a"
    ensures JoinValues(["a", "", "b"]) == "a||||b"
  {
    assert ["0", "a"][..1] == ["0"];
    assert ["0"][..0] == [];
    assert ["", "a"][..1] == [""];
    assert [""][..0] == [];
    assert ["a", "", "b"][..2] == ["a", ""];
    assert ["a", ""][..1] == ["a"];
    assert ["a"][..0] == [];
  }

  /** A single clause whose first value is not empty() compiles to `slug--field===v1||v2...`. */
  lemma SingleClauseClass(slug: string, c: Condition)
    requires IsSingleClause(c) && GoodValues(c.value.value)
    ensures ConditionClass(slug, c) == slug + "--" + OrText(c.field.value, c.value.value)
  {
    JoinValuesIsPlainJoin(c.value.value);
  }

  /** A single clause emits nothing exactly when its values concatenate to "" or "0". */
  lemma SingleClauseSilent(slug: string, c: Condition)
    requires IsSingleClause(c)
    ensures ConditionClass(slug, c) == "" <==> EmptyString(Concat(c.value.value))
  {
    JoinValuesEmptiness(c.value.value);
  }

  /** Clauses lacking `field` or `value` are skipped: they change nothing in the AND string. */
  lemma {:induction false} AndStringSkipsIncomplete(clauses: seq<Clause>, extra: Clause)
    requires extra.field.None? || extra.value.None?
    ensures AndString(clauses + [extra]) == AndString(clauses)
  {
    assert (clauses + [extra])[..|clauses|] == clauses;
  }

  /** An incomplete clause anywhere in the list changes nothing: `continue` skips it. */
  lemma {:induction false} AndStringDropIncomplete(a: seq<Clause>, x: Clause, b: seq<Clause>)
    requires !Complete(x)
    ensures AndString(a + [x] + b) == AndString(a + b)
    decreases |b|
  {
    if |b| == 0 {
      assert a + [x] + b == a + [x];
      assert a + b == a;
      AndStringSkipsIncomplete(a, x);
    } else {
      var init := b[..|b| - 1];
      AndStringDropIncomplete(a, x, init);
      assert (a + [x] + b)[..|a + [x] + b| - 1] == a + [x] + init;
      assert (a + b)[..|a + b| - 1] == a + init;
    }
  }

  /** The AND string of a list is the AND string of its complete clauses alone. */
  lemma {:induction false} AndStringOfComplete(clauses: seq<Clause>)
    ensures AndString(clauses) == AndString(CompleteClauses(clauses))
    decreases |clauses|
  {
    if |clauses| > 0 {
      var init := clauses[..|clauses| - 1];
      var last := clauses[|clauses| - 1];
      AndStringOfComplete(init);
      if Complete(last) {
        var ci := CompleteClauses(init);
        assert CompleteClauses(clauses) == ci + [last];
        assert (ci + [last])[..|ci|] == ci;
        assert AndString(ci + [last]) == AndStep(AndString(ci), last);
      } else {
        assert CompleteClauses(clauses) == CompleteClauses(init);
      }
    }
  }

  /** An AND list of complete clauses with good values compiles to the plain `&&` join of the OR texts. */
  lemma {:induction false} AndStringIsPlainJoin(clauses: seq<Clause>)
    requires forall i :: 0 <= i < |clauses| ==> GoodClause(clauses[i])
    ensures AndString(clauses) == JoinWith("&&", AndParts(clauses))
    ensures |clauses| > 0 ==> |AndString(clauses)| >= 4
    decreases |clauses|
  {
    if |clauses| > 0 {
      var init := clauses[..|clauses| - 1];
      var last := clauses[|clauses| - 1];
      assert clauses == init + [last];
      assert GoodClause(last);
      AndStringIsPlainJoin(init);
      AndStringSnoc(init, last);
      AndPartsSnoc(init, last);
      if |init| > 0 {
        JoinWithSnoc("&&", AndParts(init), OrText(last.field.value, last.value.value));
      }
    }
  }

  /** One more complete clause with good values appends `&&field===values` (no `&&` for the first). */
  lemma AndStringSnoc(init: seq<Clause>, last: Clause)
    requires GoodClause(last)
    requires |init| == 0 || |AndString(init)| >= 4
    ensures AndString(init + [last]) == (if |init| == 0 then "" else AndString(init) + "&&") + OrText(last.field.value, last.value.value)
    ensures |AndString(init + [last])| >= 4
  {
    var c := init + [last];
    assert c[..|c| - 1] == init;
    JoinValuesIsPlainJoin(last.value.value);
    var vs := JoinValues(last.value.value);
    var acc := AndString(init);
    var withSep := if |init| == 0 then "" else acc + "&&";
    assert withSep == if EmptyString(acc) then acc else acc + "&&";
    assert AndString(c) == withSep + last.field.value + "===" + vs;
    assert withSep + last.field.value + "===" + vs == withSep + (last.field.value + "===" + vs);
  }

  lemma AndPartsSnoc(init: seq<Clause>, last: Clause)
    requires forall i :: 0 <= i < |init| ==> GoodClause(init[i])
    requires GoodClause(last)
    ensures AndParts(init + [last]) == AndParts(init) + [OrText(last.field.value, last.value.value)]
  {
    assert (init + [last])[..|init|] == init;
  }

  lemma JoinWithSnoc(sep: string, parts: seq<string>, p: string)
    requires |parts| > 0
    ensures JoinWith(sep, parts + [p]) == JoinWith(sep, parts) + sep + p
  {
    assert (parts + [p])[..|parts|] == parts;
  }

  /** `&&` is written before the clause's values are looked at, so an empty value list leaves it dangling. */
  lemma AndStringTrailingSeparator()
    ensures AndString([Clause(Some("a"), Some(["1"])), Clause(Some("b"), Some([]))]) == "a===1&&"
  {
    var cs := [Clause(Some("a"), Some(["1"])), Clause(Some("b"), Some([]))];
    assert cs[..1] == [Clause(Some("a"), Some(["1"]))];
    assert cs[..1][..0] == [];
    assert ["1"][..0] == [];
    assert JoinValues(["1"]) == "1";
    assert AndString(cs[..1]) == "a===1";
    assert JoinValues([]) == "";
  }

  /**
   * An AND condition compiles to `slug--f1===...&&f2===...` over its
   * complete clauses, skipping those that lack `field` or `value`, when
   * there is at least one complete clause and each has good values.
   */
  lemma AndConditionClass(slug: string, c: Condition)
    requires !IsSingleClause(c) && |CompleteClauses(c.clauses)| > 0
    requires forall i :: 0 <= i < |CompleteClauses(c.clauses)| ==> GoodClause(CompleteClauses(c.clauses)[i])
    ensures ConditionClass(slug, c) == slug + "--" + JoinWith("&&", AndParts(CompleteClauses(c.clauses)))
  {
    AndStringOfComplete(c.clauses);
    AndStringIsPlainJoin(CompleteClauses(c.clauses));
  }

  lemma SlugTexts()
    ensures Slug("show_if") == " show-if"
    ensures Slug("hide_if") == " hide-if"
  {
    assert ReplaceUnderscores("show_if") == "show-if";
    assert ReplaceUnderscores("hide_if") == "hide-if";
  }

  /**
   * The show pass comes first and the hide pass is always appended after
   * it; the hide pass does not run again; with neither array the result
   * is empty, and each present array contributes its bare slug first.
   */
  lemma ShowHideLayout(vis: Visibility)
    ensures ShowHideClasses(vis, "show_if") == PassClasses(vis.showIf, " show-if") + PassClasses(vis.hideIf, " hide-if")
    ensures ShowHideClasses(vis, "hide_if") == PassClasses(vis.hideIf, " hide-if")
    ensures vis.showIf.None? && vis.hideIf.None? ==> ShowHideClasses(vis, "show_if") == ""
    ensures vis.showIf.Some? ==> ShowHideClasses(vis, "show_if")[..8] == " show-if"
  {
    SlugTexts();
  }
}
