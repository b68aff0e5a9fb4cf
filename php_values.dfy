// PHP values as the settings framework sees them, and the few PHP
// built-ins whose exact behaviour the framework's logic depends on:
// empty(), array_values(), (array) casts, `??`, `%d` formatting,
// str_replace('_', '-', ...) and the ASCII case folding of method names.

module PhpValues {

  datatype Option<+T> = None | Some(value: T) {
    function GetOr(default: T): T {
      match this
      case Some(v) => v
      case None => default
    }
  }

  /** A PHP array key: PHP normalises keys to integers or strings. */
  datatype Key = IntKey(n: int) | StrKey(s: string)

  /** The PHP values stored as settings: an array is an ordered list of entries. */
  datatype Value =
    | Null
    | Bool(b: bool)
    | Int(i: int)
    | Str(s: string)
    | Arr(entries: seq<(Key, Value)>)

  /** PHP's empty() on a string: true for "" and for "0". */
  predicate EmptyString(s: string) {
    s == "" || s == "0"
  }

  /** PHP's empty() on a value (also what a falsy test of the value means). */
  predicate Empty(v: Value) {
    match v
    case Null => true
    case Bool(b) => !b
    case Int(i) => i == 0
    case Str(s) => EmptyString(s)
    case Arr(es) => |es| == 0
  }

  /** empty() on an optional string, where None is a key that is not set. */
  predicate EmptyOpt(s: Option<string>) {
    s.None? || EmptyString(s.value)
  }

  /** PHP's isset() on a value: set unless it is null. */
  predicate IsSet(v: Value) {
    v != Null
  }

  /** The `??` operator. */
  function Coalesce(v: Value, fallback: Value): (r: Value)
    ensures IsSet(v) ==> r == v
    ensures !IsSet(v) ==> r == fallback
  {
    if v.Null? then fallback else v
  }

  /** array_values: the same values in the same order, re-keyed 0, 1, 2, ... */
  function ArrayValues(es: seq<(Key, Value)>): (r: seq<(Key, Value)>)
    ensures |r| == |es|
    ensures forall i :: 0 <= i < |r| ==> r[i] == (IntKey(i), es[i].1)
  {
    seq(|es|, i requires 0 <= i < |es| => (IntKey(i), es[i].1))
  }

  /** `$v[$k]` read under isset/`??`: the entry's value, or null when absent. */
  function Lookup(v: Value, k: Key): (r: Value)
    decreases |if v.Arr? then v.entries else []|
    ensures v.Arr? && |v.entries| > 0 && v.entries[0].0 == k ==> r == v.entries[0].1
    ensures !v.Arr? ==> r == Null
  {
    match v
    case Arr(es) =>
      if |es| == 0 then Null
      else if es[0].0 == k then es[0].1
      else Lookup(Arr(es[1..]), k)
    case _ => Null
  }

  lemma {:induction false} LookupFound(es: seq<(Key, Value)>, i: nat, k: Key)
    requires i < |es| && es[i].0 == k
    requires forall j :: 0 <= j < i ==> es[j].0 != k
    ensures Lookup(Arr(es), k) == es[i].1
  {
    if i > 0 {
      LookupFound(es[1..], i - 1, k);
    }
  }

  lemma {:induction false} LookupMissing(es: seq<(Key, Value)>, k: Key)
    requires forall j :: 0 <= j < |es| ==> es[j].0 != k
    ensures Lookup(Arr(es), k) == Null
  {
    if |es| > 0 {
      LookupMissing(es[1..], k);
    }
  }

  /** The `(array)` cast: null becomes [], a scalar becomes [scalar]. */
  function CastToArray(v: Value): (r: seq<(Key, Value)>)
    ensures v.Null? ==> r == []
    ensures v.Arr? ==> r == v.entries
    ensures !v.Null? && !v.Arr? ==> r == [(IntKey(0), v)]
  {
    match v
    case Null => []
    case Arr(es) => es
    case _ => [(IntKey(0), v)]
  }

  // ---------------------------------------------------------------------
  // Decimal formatting (`%d`, string interpolation of a row index).

  predicate IsDigit(c: char) {
    '0' <= c <= '9'
  }

  function DigitChar(d: nat): (c: char)
    requires d < 10
    ensures IsDigit(c) && c as int - '0' as int == d
  {
    ('0' as int + d) as char
  }

  /** The decimal text of n, as sprintf('%d', n) writes it. */
  function NatToString(n: nat): (s: string)
    decreases n
    ensures |s| > 0
    ensures forall i :: 0 <= i < |s| ==> IsDigit(s[i])
  {
    if n < 10 then [DigitChar(n)] else NatToString(n / 10) + [DigitChar(n % 10)]
  }

  /** Reads a string of digits back as a number. */
  function DigitsValue(s: string): nat
  {
    if |s| == 0 then 0
    else
      var d := s[|s| - 1] as int - '0' as int;
      DigitsValue(s[..|s| - 1]) * 10 + (if 0 <= d then d else 0)
  }

  lemma {:induction false} NatToStringRoundTrip(n: nat)
    ensures DigitsValue(NatToString(n)) == n
  {
    if n >= 10 {
      NatToStringRoundTrip(n / 10);
      var s := NatToString(n);
      assert s[..|s| - 1] == NatToString(n / 10);
    }
  }

  /** Distinct row indexes are printed as distinct texts. */
  lemma NatToStringInjective(a: nat, b: nat)
    requires NatToString(a) == NatToString(b)
    ensures a == b
  {
    NatToStringRoundTrip(a);
    NatToStringRoundTrip(b);
  }

  // ---------------------------------------------------------------------
  // Splitting a text at the first occurrence of a separator character.

  /** The index of the first sep in s, or |s| when there is none. */
  function FirstIndexOf(sep: char, s: string): nat {
    if |s| == 0 || s[0] == sep then 0 else 1 + FirstIndexOf(sep, s[1..])
  }

  lemma {:induction false} FirstIndexOfAfter(sep: char, a: string, b: string)
    requires sep !in a
    ensures FirstIndexOf(sep, a + [sep] + b) == |a|
  {
    if |a| > 0 {
      assert (a + [sep] + b)[1..] == a[1..] + [sep] + b;
      FirstIndexOfAfter(sep, a[1..], b);
    }
  }

  /** a + sep + b == c + sep + d splits uniquely when neither a nor c holds sep. */
  lemma SplitAtFirst(sep: char, a: string, b: string, c: string, d: string)
    requires sep !in a && sep !in c
    requires a + [sep] + b == c + [sep] + d
    ensures a == c && b == d
  {
    var x := a + [sep] + b;
    FirstIndexOfAfter(sep, a, b);
    FirstIndexOfAfter(sep, c, d);
    assert a == x[..|a|];
    assert c == (c + [sep] + d)[..|c|];
    assert b == x[|a| + 1..];
    assert d == (c + [sep] + d)[|c| + 1..];
  }

  // ---------------------------------------------------------------------
  // str_replace('_', '-', s) and ASCII lower-casing.

  function ReplaceUnderscores(s: string): (r: string)
    ensures |r| == |s|
    ensures '_' !in r
    ensures forall i :: 0 <= i < |s| && s[i] != '_' ==> r[i] == s[i]
    ensures forall i :: 0 <= i < |s| && s[i] == '_' ==> r[i] == '-'
  {
    seq(|s|, i requires 0 <= i < |s| => if s[i] == '_' then '-' else s[i])
  }

  function LowerChar(c: char): char {
    if 'A' <= c <= 'Z' then (c as int + 32) as char else c
  }

  /** ASCII lower-casing, as PHP folds method names when it looks them up. */
  function Lower(s: string): (r: string)
    ensures |r| == |s|
    ensures forall i :: 0 <= i < |s| ==> r[i] == LowerChar(s[i])
  {
    seq(|s|, i requires 0 <= i < |s| => LowerChar(s[i]))
  }

  lemma LowerConcat(a: string, b: string)
    ensures Lower(a + b) == Lower(a) + Lower(b)
  {
    assert forall i :: 0 <= i < |a + b| ==> Lower(a + b)[i] == (Lower(a) + Lower(b))[i];
  }

  predicate IsLowerText(s: string) {
    forall i :: 0 <= i < |s| ==> !('A' <= s[i] <= 'Z')
  }

  lemma LowerOfLowerText(s: string)
    requires IsLowerText(s)
    ensures Lower(s) == s
  {
  }
}
