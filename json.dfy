/** Parsed JSON documents and the one property access the translation lookup
    performs on them: JavaScript's `key in value` followed by `value[key]`,
    for the values a JSON document can hold. */
module JsonValues {
  import opened Wrappers

  /** A parsed JSON value. Numbers are kept as integers. */
  datatype Json =
    | JNull
    | JBool(b: bool)
    | JNum(n: int)
    | JStr(str: string)
    | JArr(items: seq<Json>)
    | JObj(fields: map<string, Json>)

  // ---------------------------------------------------------------------------
  // array indices as property names

  predicate IsDigit(c: char) {
    '0' <= c <= '9'
  }

  predicate AllDigits(s: string) {
    forall k :: 0 <= k < |s| ==> IsDigit(s[k])
  }

  function DigitChar(d: nat): (c: char)
    requires d < 10
    ensures IsDigit(c)
  {
    ('0' as int + d) as char
  }

  function DigitValue(c: char): (d: nat)
    requires IsDigit(c)
    ensures d < 10
  {
    c as int - '0' as int
  }

  /** The property name of array index `n`: its decimal numeral, `String(n)`. */
  function IndexKey(n: nat): (s: string)
    ensures s != [] && AllDigits(s)
    ensures s[|s| - 1] == DigitChar(n % 10)
    decreases n
  {
    if n < 10 then [DigitChar(n)] else IndexKey(n / 10) + [DigitChar(n % 10)]
  }

  /** The number a string of decimal digits denotes. */
  function DigitsValue(s: string): nat
    requires AllDigits(s)
    decreases |s|
  {
    if s == [] then 0 else 10 * DigitsValue(s[..|s| - 1]) + DigitValue(s[|s| - 1])
  }

  /** A canonical numeral: digits only, and no leading zero unless it is `"0"`. */
  predicate Canonical(key: string) {
    key != [] && AllDigits(key) && (key[0] != '0' || |key| == 1)
  }

  /** The array index a property name stands for, if it stands for one. */
  function ArrayIndex(key: string): (r: Option<nat>)
    ensures r.Some? <==> Canonical(key)
  {
    if Canonical(key) then Some(DigitsValue(key)) else None
  }

  lemma {:induction false} DigitCharValue(d: nat)
    requires d < 10
    ensures DigitValue(DigitChar(d)) == d
  {
  }

  /** The numeral of a positive number does not start with `0`. */
  lemma {:induction false} IndexKeyLeading(n: nat)
    ensures IndexKey(n)[0] == '0' <==> n == 0
    decreases n
  {
    if n >= 10 {
      IndexKeyLeading(n / 10);
      assert IndexKey(n)[0] == IndexKey(n / 10)[0];
    }
  }

  lemma {:induction false} IndexKeyValue(n: nat)
    ensures DigitsValue(IndexKey(n)) == n
    decreases n
  {
    var s := IndexKey(n);
    if n < 10 {
      DigitCharValue(n);
    } else {
      IndexKeyValue(n / 10);
      DigitCharValue(n % 10);
      assert s[..|s| - 1] == IndexKey(n / 10);
    }
  }

  /** Reading back the property name of an index gives the index. */
  lemma IndexKeyRoundTrip(n: nat)
    ensures ArrayIndex(IndexKey(n)) == Some(n)
  {
    IndexKeyLeading(n);
    IndexKeyValue(n);
  }

  /** A canonical numeral other than `"0"` denotes a positive number. */
  lemma {:induction false} CanonicalPositive(s: string)
    requires s != [] && AllDigits(s) && s[0] != '0'
    ensures DigitsValue(s) >= 1
    decreases |s|
  {
    if |s| > 1 {
      var p := s[..|s| - 1];
      assert p[0] == s[0];
      CanonicalPositive(p);
    }
  }

  lemma DivModTen(v: nat, d: nat)
    requires d < 10
    ensures (10 * v + d) / 10 == v && (10 * v + d) % 10 == d
  {
  }

  /** The only name that denotes index `n` is its numeral. */
  lemma {:induction false} ArrayIndexRoundTrip(key: string)
    requires Canonical(key)
    ensures key == IndexKey(DigitsValue(key))
    decreases |key|
  {
    var n := DigitsValue(key);
    var c := key[|key| - 1];
    if |key| == 1 {
      assert key[..|key| - 1] == [];
      assert DigitsValue(key) == 10 * DigitsValue(key[..|key| - 1]) + DigitValue(c);
      assert n == DigitValue(c);
      assert DigitChar(n) == c;
    } else {
      var p := key[..|key| - 1];
      assert p[0] == key[0];
      assert key[0] != '0';
      CanonicalPositive(p);
      ArrayIndexRoundTrip(p);
      DivModTen(DigitsValue(p), DigitValue(c));
      assert DigitChar(n % 10) == c;
      assert key == p + [c];
    }
  }

  // ---------------------------------------------------------------------------
  // one step of a dotted path

  /** `key in value ? value[key] : <absent>` guarded, as the lookup guards it,
      by `value` being a truthy object. Objects hold their own keys; arrays
      hold their indices and `length`; `null`, booleans, numbers and strings
      hold nothing. */
  function Step(value: Json, key: string): (r: Option<Json>)
    ensures r.Some? ==> value.JObj? || value.JArr?
    ensures value.JObj? ==> (r.Some? <==> key in value.fields)
    ensures value.JObj? && key in value.fields ==> r == Some(value.fields[key])
    ensures value.JArr? ==>
      (r.Some? <==> key == "length" || exists i :: 0 <= i < |value.items| && key == IndexKey(i))
  {
    match value
    case JObj(m) =>
      if key in m then Some(m[key]) else None
    case JArr(a) =>
      if key == "length" then Some(JNum(|a|))
      else if ArrayIndex(key).Some? && ArrayIndex(key).value < |a| then
        StepIndexWitness(a, key);
        Some(a[ArrayIndex(key).value])
      else
        StepIndexAbsent(a, key);
        None
    case _ => None
  }

  lemma StepIndexWitness(a: seq<Json>, key: string)
    requires ArrayIndex(key).Some? && ArrayIndex(key).value < |a|
    ensures exists i :: 0 <= i < |a| && key == IndexKey(i)
  {
    ArrayIndexRoundTrip(key);
  }

  lemma StepIndexAbsent(a: seq<Json>, key: string)
    requires !(ArrayIndex(key).Some? && ArrayIndex(key).value < |a|)
    ensures !exists i :: 0 <= i < |a| && key == IndexKey(i)
  {
    if i :| 0 <= i < |a| && key == IndexKey(i) {
      IndexKeyRoundTrip(i);
    }
  }

  /** Element `i` of an array is reached through the name `String(i)`. */
  lemma StepArrayElement(a: seq<Json>, i: nat)
    requires i < |a|
    ensures Step(JArr(a), IndexKey(i)) == Some(a[i])
  {
    IndexKeyRoundTrip(i);
    assert IndexKey(i) != "length" by {
      assert IsDigit(IndexKey(i)[0]);
    }
  }

  // ---------------------------------------------------------------------------
  // a whole path

  /** Following `keys` from `value`, one step each; `None` at the first step
      that finds nothing. */
  function Walk(value: Json, keys: seq<string>): (r: Option<Json>)
    ensures keys == [] ==> r == Some(value)
    ensures !(value.JObj? || value.JArr?) ==> (r.Some? <==> keys == [])
    ensures keys != [] && Step(value, keys[0]).None? ==> r.None?
    decreases |keys|
  {
    if keys == [] then Some(value)
    else
      match Step(value, keys[0])
      case None => None
      case Some(next) => Walk(next, keys[1..])
  }

  /** A walk along two paths in a row is the walk along their concatenation. */
  lemma {:induction false} WalkConcat(value: Json, ks: seq<string>, more: seq<string>)
    ensures Walk(value, ks + more) ==
      (match Walk(value, ks) case None => None case Some(w) => Walk(w, more))
    decreases |ks|
  {
    if ks != [] {
      assert (ks + more)[0] == ks[0];
      assert (ks + more)[1..] == ks[1..] + more;
      match Step(value, ks[0])
      case None =>
      case Some(next) => WalkConcat(next, ks[1..], more);
    } else {
      assert ks + more == more;
    }
  }

  /** The document that holds `leaf` under the nested keys `keys`. */
  function Nest(keys: seq<string>, leaf: Json): Json
    decreases |keys|
  {
    if keys == [] then leaf else JObj(map[keys[0] := Nest(keys[1..], leaf)])
  }

  /** Walking the keys of a nested document reaches its leaf. */
  lemma {:induction false} WalkNest(keys: seq<string>, leaf: Json)
    ensures Walk(Nest(keys, leaf), keys) == Some(leaf)
    decreases |keys|
  {
    if keys != [] {
      var inner := Nest(keys[1..], leaf);
      assert Step(Nest(keys, leaf), keys[0]) == Some(inner);
      WalkNest(keys[1..], leaf);
    }
  }
}
