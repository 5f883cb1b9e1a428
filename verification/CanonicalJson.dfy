/** The canonical form of recovery metadata: keys in one order at every level, so that equal
    values print alike. */
module CanonicalJson {
  import opened Ordering
  import opened Values

  datatype Field = Field(key: string, value: Json)

  /** JavaScript values: `Hole` is a missing element of a sparse array, `Foreign` anything that
      is not plain JSON, and the fields of an object stand in its property order. A finite number
      is an integer or, in lowest terms, `numerator / 2^shift`. */
  datatype Json =
    | Null | Bool(flag: bool) | Num(number: int) | Fraction(numerator: int, shift: nat) | Str(text: string)
    | Arr(items: seq<Json>) | Obj(fields: seq<Field>)
    | NonFinite | Hole | Foreign

  const MAX_DEPTH := 12

  predicate Unsafe(key: string) {
    key == "__proto__" || key == "constructor" || key == "prototype"
  }

  function FieldKey(f: Field): string { f.key }

  function KeySet(fields: seq<Field>): set<string> { set f | f in fields :: f.key }

  /** A list of fields of `v`, whatever their order. */
  predicate FieldsOf(fields: seq<Field>, v: Json) {
    v.Obj? && forall f :: f in fields ==> f in v.fields
  }

  lemma FieldSmaller(f: Field, v: Json)
    requires v.Obj? && f in v.fields
    ensures f.value < v
  {
    var i :| 0 <= i < |v.fields| && v.fields[i] == f;
    assert v.fields[i] < v;
  }

  /** None where the source throws. `before` is the order in which a canonical object lists
      its keys. */
  function Canonicalize(v: Json, depth: nat, before: (string, string) -> bool): Option<Json>
    decreases v, 1, 0
  {
    if depth > MAX_DEPTH then None
    else match v
      case Null => Some(v)
      case Bool(_) => Some(v)
      case Num(_) => Some(v)
      case Fraction(_, _) => Some(v)
      case Str(_) => Some(v)
      case Arr(items) =>
        var r := CanonicalItems(v, |items|, depth + 1, before);
        if r.None? then None else Some(Arr(r.value))
      case Obj(fields) =>
        SameMembers(Sort(fields, FieldKey, before), fields);
        var r := CanonicalFields(Sort(fields, FieldKey, before), v, depth + 1, before);
        if r.None? then None else Some(Obj(r.value))
      case _ => None
  }

  function CanonicalItems(v: Json, n: nat, depth: nat, before: (string, string) -> bool): Option<seq<Json>>
    requires v.Arr? && n <= |v.items|
    decreases v, 0, n
  {
    if n == 0 then Some([])
    else
      var most := CanonicalItems(v, n - 1, depth, before);
      if most.None? then None
      else
        var last := Canonicalize(v.items[n - 1], depth, before);
        if last.None? then None else Some(most.value + [last.value])
  }

  function CanonicalFields(fields: seq<Field>, v: Json, depth: nat, before: (string, string) -> bool): Option<seq<Field>>
    requires FieldsOf(fields, v)
    decreases v, 0, |fields|
  {
    if fields == [] then Some([])
    else
      var f := fields[|fields| - 1];
      var most := CanonicalFields(fields[..|fields| - 1], v, depth, before);
      if most.None? || Unsafe(f.key) then None
      else
        FieldSmaller(f, v);
        var last := Canonicalize(f.value, depth, before);
        if last.None? then None else Some(most.value + [Field(f.key, last.value)])
  }

  method CanonicalValue(v: Json, depth: nat, before: (string, string) -> bool) returns (r: Option<Json>)
    ensures r == Canonicalize(v, depth, before)
    decreases v, 1
  {
    if depth > MAX_DEPTH { return None; }
    match v
    case Arr(items) =>
      var result := CanonicalArray(v, depth + 1, before);
      r := if result == None then None else Some(Arr(result.value));
    case Obj(fields) =>
      var sorted := Sort(fields, FieldKey, before);
      SameMembers(sorted, fields);
      var result := CanonicalObject(sorted, v, depth + 1, before);
      r := if result == None then None else Some(Obj(result.value));
    case NonFinite => r := None;
    case Hole => r := None;
    case Foreign => r := None;
    case _ => r := Some(v);
  }

  method CanonicalArray(v: Json, depth: nat, before: (string, string) -> bool) returns (r: Option<seq<Json>>)
    requires v.Arr?
    ensures r == CanonicalItems(v, |v.items|, depth, before)
    decreases v, 0
  {
    var result: seq<Json> := [];
    for index := 0 to |v.items|
      invariant CanonicalItems(v, index, depth, before) == Some(result)
    {
      var item := CanonicalValue(v.items[index], depth, before);
      ItemsStep(v, index, depth, before);
      if item == None {
        ItemsFail(v, index + 1, |v.items|, depth, before);
        return None;
      }
      result := result + [item.value];
    }
    r := Some(result);
  }

  method CanonicalObject(fields: seq<Field>, v: Json, depth: nat, before: (string, string) -> bool) returns (r: Option<seq<Field>>)
    requires FieldsOf(fields, v)
    ensures r == CanonicalFields(fields, v, depth, before)
    decreases v, 0
  {
    var result: seq<Field> := [];
    for k := 0 to |fields|
      invariant CanonicalFields(fields[..k], v, depth, before) == Some(result)
    {
      FieldsStep(fields, v, k, depth, before);
      if Unsafe(fields[k].key) {
        FieldsFail(fields, v, k + 1, depth, before);
        return None;
      }
      FieldSmaller(fields[k], v);
      var value := CanonicalValue(fields[k].value, depth, before);
      if value == None {
        FieldsFail(fields, v, k + 1, depth, before);
        return None;
      }
      result := result + [Field(fields[k].key, value.value)];
    }
    assert fields[..|fields|] == fields;
    r := Some(result);
  }

  lemma ItemsStep(v: Json, k: nat, depth: nat, before: (string, string) -> bool)
    requires v.Arr? && k < |v.items| && CanonicalItems(v, k, depth, before).Some?
    ensures CanonicalItems(v, k + 1, depth, before) ==
            var last := Canonicalize(v.items[k], depth, before);
            if last.None? then None else Some(CanonicalItems(v, k, depth, before).value + [last.value])
  {
  }

  lemma FieldsStep(fields: seq<Field>, v: Json, k: nat, depth: nat, before: (string, string) -> bool)
    requires FieldsOf(fields, v) && k < |fields| && CanonicalFields(fields[..k], v, depth, before).Some?
    ensures CanonicalFields(fields[..k + 1], v, depth, before) ==
            var last := Canonicalize(fields[k].value, depth, before);
            if Unsafe(fields[k].key) || last.None? then None
            else Some(CanonicalFields(fields[..k], v, depth, before).value + [Field(fields[k].key, last.value)])
  {
    assert fields[..k + 1][..k] == fields[..k];
  }

  lemma {:induction false} ItemsFail(v: Json, k: nat, n: nat, depth: nat, before: (string, string) -> bool)
    requires v.Arr? && k <= n <= |v.items| && CanonicalItems(v, k, depth, before) == None
    ensures CanonicalItems(v, n, depth, before) == None
  {
    if k < n { ItemsFail(v, k, n - 1, depth, before); }
  }

  lemma {:induction false} FieldsFail(fields: seq<Field>, v: Json, k: nat, depth: nat, before: (string, string) -> bool)
    requires FieldsOf(fields, v) && k <= |fields| && CanonicalFields(fields[..k], v, depth, before) == None
    ensures CanonicalFields(fields, v, depth, before) == None
    decreases |fields|
  {
    if k == |fields| {
      assert fields[..k] == fields;
    } else {
      assert fields[..|fields| - 1][..k] == fields[..k];
      FieldsFail(fields[..|fields| - 1], v, k, depth, before);
    }
  }

  // ------------------------------------------------------ one step at a time

  /** Success means every field succeeded, in place. */
  lemma {:induction false} FieldsPointwise(fields: seq<Field>, v: Json, depth: nat, before: (string, string) -> bool)
    requires FieldsOf(fields, v)
    ensures CanonicalFields(fields, v, depth, before).Some? <==>
            forall k :: 0 <= k < |fields| ==> !Unsafe(fields[k].key) && Canonicalize(fields[k].value, depth, before).Some?
    ensures CanonicalFields(fields, v, depth, before).Some? ==>
              var r := CanonicalFields(fields, v, depth, before).value;
              |r| == |fields| && forall k :: 0 <= k < |fields| ==> r[k] == Field(fields[k].key, Canonicalize(fields[k].value, depth, before).value)
  {
    if fields != [] {
      var most := fields[..|fields| - 1];
      FieldsPointwise(most, v, depth, before);
      assert forall k :: 0 <= k < |most| ==> most[k] == fields[k];
    }
  }

  lemma {:induction false} ItemsPointwise(v: Json, n: nat, depth: nat, before: (string, string) -> bool)
    requires v.Arr? && n <= |v.items|
    ensures CanonicalItems(v, n, depth, before).Some? <==> forall k :: 0 <= k < n ==> Canonicalize(v.items[k], depth, before).Some?
    ensures CanonicalItems(v, n, depth, before).Some? ==>
              var r := CanonicalItems(v, n, depth, before).value;
              |r| == n && forall k :: 0 <= k < n ==> r[k] == Canonicalize(v.items[k], depth, before).value
  {
    if n > 0 {
      ItemsPointwise(v, n - 1, depth, before);
      if CanonicalItems(v, n - 1, depth, before).Some? { ItemsStep(v, n - 1, depth, before); }
    }
  }

  // ------------------------------------------------------- what canonical means

  const TWO_53 := 0x20_0000_0000_0000

  predicate Mantissa(n: int) { -TWO_53 < n < TWO_53 }

  /** A mantissa with k binary zeros behind it. */
  predicate HalvesTo(n: int, k: nat)
    decreases k
  {
    if k == 0 then Mantissa(n) else n % 2 == 0 && HalvesTo(n / 2, k - 1)
  }

  /** An integer a double holds exactly. */
  predicate DoubleInteger(n: int) {
    Mantissa(n) || exists k :: 0 <= k <= 971 && HalvesTo(n, k)
  }

  /** What a JavaScript program can hold: objects have each key once, and finite numbers are
      doubles. Negative zero is taken for zero, as its JSON text is. */
  predicate WellFormed(v: Json) {
    match v
    case Num(n) => DoubleInteger(n)
    case Fraction(m, shift) => m % 2 != 0 && Mantissa(m) && 1 <= shift <= 1074
    case Arr(items) => forall k :: 0 <= k < |items| ==> WellFormed(items[k])
    case Obj(fields) => DistinctKeys(fields, FieldKey) && forall k :: 0 <= k < |fields| ==> WellFormed(fields[k].value)
    case _ => true
  }

  /** The same value, whatever order its objects list their keys in. */
  predicate Same(a: Json, b: Json) {
    if a.Arr? && b.Arr? then
      |a.items| == |b.items| && forall k :: 0 <= k < |a.items| ==> Same(a.items[k], b.items[k])
    else if a.Obj? && b.Obj? then
      && KeySet(a.fields) == KeySet(b.fields)
      && forall i, j :: 0 <= i < |a.fields| && 0 <= j < |b.fields| && a.fields[i].key == b.fields[j].key ==>
                          Same(a.fields[i].value, b.fields[j].value)
    else a == b
  }

  lemma SortedFields(fields: seq<Field>, before: (string, string) -> bool)
    requires TotalOrder(before) && DistinctKeys(fields, FieldKey)
    ensures var s := Sort(fields, FieldKey, before);
            && Sorted(s, FieldKey, before) && DistinctKeys(s, FieldKey) && |s| == |fields|
            && (forall f :: f in s <==> f in fields) && KeySet(s) == KeySet(fields)
  {
    var s := Sort(fields, FieldKey, before);
    TotalIsWeak(before);
    SortSorts(fields, FieldKey, before);
    SameDistinct(fields, s, FieldKey);
    SameMembers(s, fields);
  }

  /** Sorted lists of fields with the same keys list them in the same places. */
  lemma {:induction false} SameKeyOrder(a: seq<Field>, b: seq<Field>, before: (string, string) -> bool)
    requires TotalOrder(before) && Sorted(a, FieldKey, before) && Sorted(b, FieldKey, before)
    requires DistinctKeys(a, FieldKey) && DistinctKeys(b, FieldKey) && KeySet(a) == KeySet(b)
    ensures |a| == |b| && forall k :: 0 <= k < |a| ==> a[k].key == b[k].key
  {
    var ka, kb := seq(|a|, i requires 0 <= i < |a| => a[i].key), seq(|b|, i requires 0 <= i < |b| => b[i].key);
    forall x
      ensures x in ka <==> x in KeySet(a)
      ensures x in kb <==> x in KeySet(b)
    {
      if f :| f in a && f.key == x {
        var i :| 0 <= i < |a| && a[i] == f;
        assert ka[i] == x;
      }
      if f :| f in b && f.key == x {
        var i :| 0 <= i < |b| && b[i] == f;
        assert kb[i] == x;
      }
    }
    var same := (x: string) => x;
    assert forall i :: 0 <= i < |a| ==> same(ka[i]) == FieldKey(a[i]);
    assert forall i :: 0 <= i < |b| ==> same(kb[i]) == FieldKey(b[i]);
    SortedUnique(ka, kb, same, before);
    assert forall k :: 0 <= k < |a| ==> ka[k] == kb[k];
  }

  /** How an object is made canonical: each value in its place in key order. */
  lemma ObjectPointwise(v: Json, depth: nat, before: (string, string) -> bool)
    requires v.Obj? && depth <= MAX_DEPTH && TotalOrder(before) && DistinctKeys(v.fields, FieldKey)
    ensures var s := Sort(v.fields, FieldKey, before);
            Canonicalize(v, depth, before).Some? <==>
            forall k :: 0 <= k < |s| ==> !Unsafe(s[k].key) && Canonicalize(s[k].value, depth + 1, before).Some?
    ensures Canonicalize(v, depth, before).Some? ==>
              var s, r := Sort(v.fields, FieldKey, before), Canonicalize(v, depth, before).value;
              && r.Obj? && |r.fields| == |s|
              && forall k :: 0 <= k < |s| ==> r.fields[k] == Field(s[k].key, Canonicalize(s[k].value, depth + 1, before).value)
  {
    SortedFields(v.fields, before);
    FieldsPointwise(Sort(v.fields, FieldKey, before), v, depth + 1, before);
  }

  lemma ArrayPointwise(v: Json, depth: nat, before: (string, string) -> bool)
    requires v.Arr? && depth <= MAX_DEPTH
    ensures Canonicalize(v, depth, before).Some? <==>
            forall k :: 0 <= k < |v.items| ==> Canonicalize(v.items[k], depth + 1, before).Some?
    ensures Canonicalize(v, depth, before).Some? ==>
              var r := Canonicalize(v, depth, before).value;
              && r.Arr? && |r.items| == |v.items|
              && forall k :: 0 <= k < |v.items| ==> r.items[k] == Canonicalize(v.items[k], depth + 1, before).value
  {
    ItemsPointwise(v, |v.items|, depth + 1, before);
  }

  lemma ArraysAlike(a: Option<Json>, b: Option<Json>)
    requires a.Some? == b.Some? && (a.Some? ==> a.value.Arr? && b.value.Arr? && |a.value.items| == |b.value.items|)
    requires a.Some? ==> forall k :: 0 <= k < |a.value.items| ==> a.value.items[k] == b.value.items[k]
    ensures a == b
  {
    if a.Some? { assert a.value.items == b.value.items; }
  }

  lemma SameFieldValues(a: Json, b: Json, f: Field, g: Field)
    requires a.Obj? && b.Obj? && Same(a, b) && f in a.fields && g in b.fields && f.key == g.key
    ensures Same(f.value, g.value)
  {
    var i :| 0 <= i < |a.fields| && a.fields[i] == f;
    var j :| 0 <= j < |b.fields| && b.fields[j] == g;
  }

  lemma ItemWellFormed(v: Json, x: Json)
    requires v.Arr? && WellFormed(v) && x in v.items
    ensures WellFormed(x)
  {
    var i :| 0 <= i < |v.items| && v.items[i] == x;
  }

  lemma FieldWellFormed(v: Json, f: Field)
    requires v.Obj? && WellFormed(v) && f in v.fields
    ensures WellFormed(f.value)
  {
    var i :| 0 <= i < |v.fields| && v.fields[i] == f;
  }

  /** The canonical form is blind to key order. */
  lemma {:induction false} CanonicalizeBlind(a: Json, b: Json, depth: nat, before: (string, string) -> bool)
    requires TotalOrder(before) && WellFormed(a) && WellFormed(b) && Same(a, b)
    ensures Canonicalize(a, depth, before) == Canonicalize(b, depth, before)
    decreases a
  {
    if depth > MAX_DEPTH {
    } else if a.Arr? {
      forall k | 0 <= k < |a.items|
        ensures Canonicalize(a.items[k], depth + 1, before) == Canonicalize(b.items[k], depth + 1, before)
      {
        CanonicalizeBlind(a.items[k], b.items[k], depth + 1, before);
      }
      ArrayPointwise(a, depth, before);
      ArrayPointwise(b, depth, before);
      ArraysAlike(Canonicalize(a, depth, before), Canonicalize(b, depth, before));
    } else if a.Obj? {
      var sa, sb := Sort(a.fields, FieldKey, before), Sort(b.fields, FieldKey, before);
      SortedFields(a.fields, before);
      SortedFields(b.fields, before);
      SameKeyOrder(sa, sb, before);
      forall k | 0 <= k < |sa|
        ensures Canonicalize(sa[k].value, depth + 1, before) == Canonicalize(sb[k].value, depth + 1, before)
      {
        assert sa[k] in sa && sb[k] in sb;
        FieldSmaller(sa[k], a);
        FieldWellFormed(a, sa[k]);
        FieldWellFormed(b, sb[k]);
        SameFieldValues(a, b, sa[k], sb[k]);
        CanonicalizeBlind(sa[k].value, sb[k].value, depth + 1, before);
      }
      ObjectPointwise(a, depth, before);
      ObjectPointwise(b, depth, before);
      ObjectsAlike(Canonicalize(a, depth, before), Canonicalize(b, depth, before));
    }
  }

  lemma ObjectsAlike(a: Option<Json>, b: Option<Json>)
    requires a.Some? == b.Some? && (a.Some? ==> a.value.Obj? && b.value.Obj? && |a.value.fields| == |b.value.fields|)
    requires a.Some? ==> forall k :: 0 <= k < |a.value.fields| ==> a.value.fields[k] == b.value.fields[k]
    ensures a == b
  {
    if a.Some? { assert a.value.fields == b.value.fields; }
  }

  /** And nothing else: values with one canonical form are the same up to key order. */
  lemma {:induction false} CanonicalizeTells(a: Json, b: Json, depth: nat, before: (string, string) -> bool)
    requires TotalOrder(before) && WellFormed(a) && WellFormed(b)
    requires Canonicalize(a, depth, before).Some? && Canonicalize(a, depth, before) == Canonicalize(b, depth, before)
    ensures Same(a, b)
    decreases a, 1
  {
    if a.Arr? {
      ArrayTells(a, b, depth, before);
    } else if a.Obj? {
      ObjectTells(a, b, depth, before);
    }
  }

  lemma {:induction false} ArrayTells(a: Json, b: Json, depth: nat, before: (string, string) -> bool)
    requires TotalOrder(before) && WellFormed(a) && WellFormed(b) && a.Arr? && b.Arr?
    requires Canonicalize(a, depth, before).Some? && Canonicalize(a, depth, before) == Canonicalize(b, depth, before)
    ensures Same(a, b)
    decreases a, 0
  {
    ArrayPointwise(a, depth, before);
    ArrayPointwise(b, depth, before);
    forall k | 0 <= k < |a.items|
      ensures Same(a.items[k], b.items[k])
    {
      CanonicalizeTells(a.items[k], b.items[k], depth + 1, before);
    }
  }

  lemma {:induction false} ObjectTells(a: Json, b: Json, depth: nat, before: (string, string) -> bool)
    requires TotalOrder(before) && WellFormed(a) && WellFormed(b) && a.Obj? && b.Obj?
    requires Canonicalize(a, depth, before).Some? && Canonicalize(a, depth, before) == Canonicalize(b, depth, before)
    ensures Same(a, b)
    decreases a, 0
  {
    var sa, sb := Sort(a.fields, FieldKey, before), Sort(b.fields, FieldKey, before);
    SortedFields(a.fields, before);
    SortedFields(b.fields, before);
    ObjectPointwise(a, depth, before);
    ObjectPointwise(b, depth, before);
    var c := Canonicalize(a, depth, before).value;
    assert |sa| == |c.fields| == |sb|;
    forall k | 0 <= k < |sa|
      ensures sa[k].key == sb[k].key && Same(sa[k].value, sb[k].value)
    {
      assert c.fields[k].key == sa[k].key == sb[k].key;
      assert sa[k] in sa && sb[k] in sb;
      FieldSmaller(sa[k], a);
      FieldWellFormed(a, sa[k]);
      FieldWellFormed(b, sb[k]);
      CanonicalizeTells(sa[k].value, sb[k].value, depth + 1, before);
    }
    SamePointwise(a, b, sa, sb);
  }

  /** Objects whose fields, in some common order, have the same keys and same values. */
  lemma SamePointwise(a: Json, b: Json, sa: seq<Field>, sb: seq<Field>)
    requires a.Obj? && b.Obj? && |sa| == |sb| && DistinctKeys(sb, FieldKey)
    requires (forall f :: f in sa <==> f in a.fields) && (forall f :: f in sb <==> f in b.fields)
    requires forall k :: 0 <= k < |sa| ==> sa[k].key == sb[k].key && Same(sa[k].value, sb[k].value)
    ensures Same(a, b)
  {
    SameKeySets(sa, sb);
    assert KeySet(a.fields) == KeySet(sa) && KeySet(b.fields) == KeySet(sb);
    forall i, j | 0 <= i < |a.fields| && 0 <= j < |b.fields| && a.fields[i].key == b.fields[j].key
      ensures Same(a.fields[i].value, b.fields[j].value)
    {
      assert a.fields[i] in sa && b.fields[j] in sb;
      var m :| 0 <= m < |sa| && sa[m] == a.fields[i];
      var n :| 0 <= n < |sb| && sb[n] == b.fields[j];
      assert FieldKey(sb[m]) == FieldKey(sb[n]);
    }
  }

  lemma SameKeySets(a: seq<Field>, b: seq<Field>)
    requires |a| == |b| && forall k :: 0 <= k < |a| ==> a[k].key == b[k].key
    ensures KeySet(a) == KeySet(b)
  {
    forall x
      ensures x in KeySet(a) <==> x in KeySet(b)
    {
      if f :| f in a && f.key == x {
        var i :| 0 <= i < |a| && a[i] == f;
        assert b[i] in b && b[i].key == x;
      }
      if f :| f in b && f.key == x {
        var i :| 0 <= i < |b| && b[i] == f;
        assert a[i] in a && a[i].key == x;
      }
    }
  }

  lemma KeysInOrder(s: seq<Field>, c: seq<Field>, before: (string, string) -> bool)
    requires TotalOrder(before) && Sorted(s, FieldKey, before) && DistinctKeys(s, FieldKey)
    requires |c| == |s| && forall k :: 0 <= k < |s| ==> c[k].key == s[k].key
    ensures DistinctKeys(c, FieldKey) && Sort(c, FieldKey, before) == c && KeySet(c) == KeySet(s)
  {
    assert forall k :: 0 <= k < |s| ==> FieldKey(c[k]) == FieldKey(s[k]);
    SortedFields(c, before);
    SortedUnique(Sort(c, FieldKey, before), c, FieldKey, before);
    SameKeySets(c, s);
  }

  /** A canonical object lists its keys in order already. */
  lemma CanonicalSorted(v: Json, depth: nat, before: (string, string) -> bool)
    requires TotalOrder(before) && v.Obj? && DistinctKeys(v.fields, FieldKey) && Canonicalize(v, depth, before).Some?
    ensures var c := Canonicalize(v, depth, before).value;
            && c.Obj? && DistinctKeys(c.fields, FieldKey) && Sort(c.fields, FieldKey, before) == c.fields && KeySet(c.fields) == KeySet(v.fields)
  {
    SortedFields(v.fields, before);
    ObjectPointwise(v, depth, before);
    KeysInOrder(Sort(v.fields, FieldKey, before), Canonicalize(v, depth, before).value.fields, before);
  }

  /** Left alone when made canonical at this depth. */
  predicate Fixed(c: Json, depth: nat, before: (string, string) -> bool) {
    WellFormed(c) && Canonicalize(c, depth, before) == Some(c)
  }

  predicate AllFixed(items: seq<Json>, depth: nat, before: (string, string) -> bool) {
    forall x :: x in items ==> Fixed(x, depth, before)
  }

  lemma ArrayFixed(c: Json, depth: nat, before: (string, string) -> bool)
    requires c.Arr? && depth <= MAX_DEPTH && AllFixed(c.items, depth + 1, before)
    ensures Fixed(c, depth, before)
  {
    assert forall k :: 0 <= k < |c.items| ==> c.items[k] in c.items;
    ArrayPointwise(c, depth, before);
    ArraysAlike(Canonicalize(c, depth, before), Some(c));
  }

  lemma ObjectFixed(c: Json, depth: nat, before: (string, string) -> bool)
    requires TotalOrder(before) && c.Obj? && depth <= MAX_DEPTH
    requires DistinctKeys(c.fields, FieldKey) && Sort(c.fields, FieldKey, before) == c.fields
    requires forall k :: 0 <= k < |c.fields| ==> !Unsafe(c.fields[k].key) && Fixed(c.fields[k].value, depth + 1, before)
    ensures Fixed(c, depth, before)
  {
    ObjectPointwise(c, depth, before);
    ObjectsAlike(Canonicalize(c, depth, before), Some(c));
  }

  /** What a canonical list or object is made of. */
  lemma ArrayParts(v: Json, c: Json, depth: nat, before: (string, string) -> bool)
    requires v.Arr? && Canonicalize(v, depth, before) == Some(c)
    ensures depth <= MAX_DEPTH && c.Arr? && ItemsStem(v, c.items, depth + 1, before)
  {
    ArrayPointwise(v, depth, before);
    forall x | x in c.items
      ensures StemsFrom(v, x, depth + 1, before)
    {
      var k :| 0 <= k < |c.items| && c.items[k] == x;
      assert v.items[k] in v.items;
    }
  }

  /** One of the items of `v` has this canonical form. */
  predicate StemsFrom(v: Json, x: Json, depth: nat, before: (string, string) -> bool)
    requires v.Arr?
  {
    exists y :: y in v.items && Canonicalize(y, depth, before) == Some(x)
  }

  predicate ItemsStem(v: Json, items: seq<Json>, depth: nat, before: (string, string) -> bool)
    requires v.Arr?
  {
    forall x :: x in items ==> StemsFrom(v, x, depth, before)
  }

  lemma ObjectParts(v: Json, c: Json, depth: nat, before: (string, string) -> bool)
    requires TotalOrder(before) && v.Obj? && DistinctKeys(v.fields, FieldKey) && Canonicalize(v, depth, before) == Some(c)
    ensures depth <= MAX_DEPTH && c.Obj? && DistinctKeys(c.fields, FieldKey) && Sort(c.fields, FieldKey, before) == c.fields
    ensures forall k :: 0 <= k < |c.fields| ==> !Unsafe(c.fields[k].key) && HasOrigin(v, c.fields[k], depth + 1, before)
  {
    var s := Sort(v.fields, FieldKey, before);
    SortedFields(v.fields, before);
    ObjectPointwise(v, depth, before);
    CanonicalSorted(v, depth, before);
    forall k | 0 <= k < |c.fields|
      ensures HasOrigin(v, c.fields[k], depth + 1, before)
    {
      assert s[k] in s;
      assert s[k] in v.fields;
    }
  }

  predicate HasOrigin(v: Json, g: Field, depth: nat, before: (string, string) -> bool)
    requires v.Obj?
  {
    exists f :: f in v.fields && Canonicalize(f.value, depth, before) == Some(g.value)
  }

  /** Canonicalizing twice changes nothing, and neither does starting less deep. */
  lemma {:induction false} CanonicalizeIdempotent(v: Json, c: Json, depth: nat, outer: nat, before: (string, string) -> bool)
    requires TotalOrder(before) && WellFormed(v) && outer <= depth && Canonicalize(v, depth, before) == Some(c)
    ensures Fixed(c, outer, before)
    decreases MAX_DEPTH + 2 - depth, 1
  {
    if v.Arr? {
      ArrayParts(v, c, depth, before);
      ArrayIdempotent(v, c, depth, outer, before);
    } else if v.Obj? {
      ObjectIdempotent(v, c, depth, outer, before);
    }
  }

  lemma {:induction false} ArrayIdempotent(v: Json, c: Json, depth: nat, outer: nat, before: (string, string) -> bool)
    requires TotalOrder(before) && WellFormed(v) && outer <= depth <= MAX_DEPTH && v.Arr? && c.Arr?
    requires ItemsStem(v, c.items, depth + 1, before)
    ensures Fixed(c, outer, before)
    decreases MAX_DEPTH + 2 - depth, 0
  {
    ItemsIdempotent(v, c.items, depth + 1, outer + 1, before);
    ArrayFixed(c, outer, before);
  }

  lemma {:induction false} ItemsIdempotent(v: Json, items: seq<Json>, depth: nat, outer: nat, before: (string, string) -> bool)
    requires TotalOrder(before) && v.Arr? && WellFormed(v) && outer <= depth && ItemsStem(v, items, depth, before)
    ensures AllFixed(items, outer, before)
    decreases MAX_DEPTH + 2 - depth, 3
  {
    forall x | x in items
      ensures Fixed(x, outer, before)
    {
      ItemIdempotent(v, x, depth, outer, before);
    }
  }

  lemma {:induction false} ItemIdempotent(v: Json, x: Json, depth: nat, outer: nat, before: (string, string) -> bool)
    requires TotalOrder(before) && v.Arr? && WellFormed(v) && outer <= depth && StemsFrom(v, x, depth, before)
    ensures Fixed(x, outer, before)
    decreases MAX_DEPTH + 2 - depth, 2
  {
    var y :| y in v.items && Canonicalize(y, depth, before) == Some(x);
    ItemWellFormed(v, y);
    CanonicalizeIdempotent(y, x, depth, outer, before);
  }

  lemma {:induction false} FieldIdempotent(v: Json, g: Field, depth: nat, outer: nat, before: (string, string) -> bool)
    requires TotalOrder(before) && v.Obj? && WellFormed(v) && outer <= depth && HasOrigin(v, g, depth, before)
    ensures Fixed(g.value, outer, before)
    decreases MAX_DEPTH + 2 - depth, 2
  {
    var f :| f in v.fields && Canonicalize(f.value, depth, before) == Some(g.value);
    FieldSmaller(f, v);
    FieldWellFormed(v, f);
    CanonicalizeIdempotent(f.value, g.value, depth, outer, before);
  }

  lemma {:induction false} ObjectIdempotent(v: Json, c: Json, depth: nat, outer: nat, before: (string, string) -> bool)
    requires TotalOrder(before) && WellFormed(v) && outer <= depth && v.Obj? && Canonicalize(v, depth, before) == Some(c)
    ensures Fixed(c, outer, before)
    decreases MAX_DEPTH + 2 - depth, 0
  {
    ObjectParts(v, c, depth, before);
    forall k | 0 <= k < |c.fields|
      ensures Fixed(c.fields[k].value, outer + 1, before)
    {
      FieldIdempotent(v, c.fields[k], depth + 1, outer + 1, before);
    }
    ObjectFixed(c, outer, before);
  }

  /** Depth decides only whether the canonical form exists. */
  lemma {:induction false} ShallowerSame(v: Json, c: Json, depth: nat, outer: nat, before: (string, string) -> bool)
    requires TotalOrder(before) && WellFormed(v) && outer <= depth && Canonicalize(v, depth, before) == Some(c)
    ensures Canonicalize(v, outer, before) == Some(c)
    decreases MAX_DEPTH + 2 - depth, 1
  {
    if v.Arr? {
      ItemsExist(v, depth, before);
      ArrayShallower(v, depth, outer, before);
    } else if v.Obj? {
      FieldsExist(v, depth, before);
      ObjectShallower(v, depth, outer, before);
    }
  }

  predicate ItemsAlike(v: Json, depth: nat, outer: nat, before: (string, string) -> bool)
    requires v.Arr?
  {
    forall x :: x in v.items ==> Canonicalize(x, outer, before) == Canonicalize(x, depth, before)
  }

  /** Lists whose items are canonical alike at two depths are canonical alike. */
  lemma AlikeItems(v: Json, depth: nat, outer: nat, before: (string, string) -> bool)
    requires v.Arr? && outer <= depth <= MAX_DEPTH && ItemsAlike(v, depth + 1, outer + 1, before)
    ensures Canonicalize(v, outer, before) == Canonicalize(v, depth, before)
  {
    assert forall k :: 0 <= k < |v.items| ==> v.items[k] in v.items;
    ArrayPointwise(v, depth, before);
    ArrayPointwise(v, outer, before);
    ArraysAlike(Canonicalize(v, outer, before), Canonicalize(v, depth, before));
  }

  predicate ItemsCanonical(v: Json, depth: nat, before: (string, string) -> bool)
    requires v.Arr?
  {
    forall x :: x in v.items ==> Canonicalize(x, depth, before).Some?
  }

  lemma ItemsExist(v: Json, depth: nat, before: (string, string) -> bool)
    requires v.Arr? && Canonicalize(v, depth, before).Some?
    ensures depth <= MAX_DEPTH && ItemsCanonical(v, depth + 1, before)
  {
    ArrayPointwise(v, depth, before);
    forall x | x in v.items
      ensures Canonicalize(x, depth + 1, before).Some?
    {
      var k :| 0 <= k < |v.items| && v.items[k] == x;
    }
  }

  lemma {:induction false} ArrayShallower(v: Json, depth: nat, outer: nat, before: (string, string) -> bool)
    requires TotalOrder(before) && v.Arr? && WellFormed(v) && outer <= depth <= MAX_DEPTH && ItemsCanonical(v, depth + 1, before)
    ensures Canonicalize(v, outer, before) == Canonicalize(v, depth, before)
    decreases MAX_DEPTH + 2 - depth, 0
  {
    assert ItemsAlike(v, depth + 1, outer + 1, before) by { ItemsShallower(v, depth + 1, outer + 1, before); }
    AlikeItems(v, depth, outer, before);
  }

  lemma {:induction false} ItemsShallower(v: Json, depth: nat, outer: nat, before: (string, string) -> bool)
    requires TotalOrder(before) && v.Arr? && WellFormed(v) && outer <= depth && ItemsCanonical(v, depth, before)
    ensures ItemsAlike(v, depth, outer, before)
    decreases MAX_DEPTH + 2 - depth, 3
  {
    forall x | x in v.items
      ensures Canonicalize(x, outer, before) == Canonicalize(x, depth, before)
    {
      ItemShallower(v, x, depth, outer, before);
    }
  }

  lemma {:induction false} ItemShallower(v: Json, x: Json, depth: nat, outer: nat, before: (string, string) -> bool)
    requires TotalOrder(before) && v.Arr? && WellFormed(v) && outer <= depth && x in v.items && Canonicalize(x, depth, before).Some?
    ensures Canonicalize(x, outer, before) == Canonicalize(x, depth, before)
    decreases MAX_DEPTH + 2 - depth, 2
  {
    ItemWellFormed(v, x);
    ShallowerSame(x, Canonicalize(x, depth, before).value, depth, outer, before);
  }

  lemma {:induction false} FieldShallower(v: Json, f: Field, depth: nat, outer: nat, before: (string, string) -> bool)
    requires TotalOrder(before) && v.Obj? && WellFormed(v) && outer <= depth && f in v.fields && Canonicalize(f.value, depth, before).Some?
    ensures Canonicalize(f.value, outer, before) == Canonicalize(f.value, depth, before)
    decreases MAX_DEPTH + 2 - depth, 2
  {
    FieldSmaller(f, v);
    FieldWellFormed(v, f);
    ShallowerSame(f.value, Canonicalize(f.value, depth, before).value, depth, outer, before);
  }

  predicate FieldsCanonical(v: Json, depth: nat, before: (string, string) -> bool)
    requires v.Obj?
  {
    forall f :: f in v.fields ==> Canonicalize(f.value, depth, before).Some?
  }

  predicate FieldsAlike(v: Json, depth: nat, outer: nat, before: (string, string) -> bool)
    requires v.Obj?
  {
    forall f :: f in v.fields ==> Canonicalize(f.value, outer, before) == Canonicalize(f.value, depth, before)
  }

  /** Objects whose fields are canonical alike at two depths are canonical alike. */
  lemma FieldsShallower(v: Json, depth: nat, outer: nat, before: (string, string) -> bool)
    requires TotalOrder(before) && v.Obj? && DistinctKeys(v.fields, FieldKey) && outer <= depth <= MAX_DEPTH
    requires FieldsAlike(v, depth + 1, outer + 1, before)
    ensures Canonicalize(v, outer, before) == Canonicalize(v, depth, before)
  {
    SortedFields(v.fields, before);
    assert forall k :: 0 <= k < |v.fields| ==> Sort(v.fields, FieldKey, before)[k] in v.fields;
    ObjectPointwise(v, depth, before);
    ObjectPointwise(v, outer, before);
    ObjectsAlike(Canonicalize(v, outer, before), Canonicalize(v, depth, before));
  }

  lemma FieldsExist(v: Json, depth: nat, before: (string, string) -> bool)
    requires TotalOrder(before) && v.Obj? && DistinctKeys(v.fields, FieldKey) && Canonicalize(v, depth, before).Some?
    ensures depth <= MAX_DEPTH && FieldsCanonical(v, depth + 1, before)
  {
    SortedFields(v.fields, before);
    ObjectPointwise(v, depth, before);
    forall f | f in v.fields
      ensures Canonicalize(f.value, depth + 1, before).Some?
    {
      assert f in Sort(v.fields, FieldKey, before);
    }
  }

  lemma {:induction false} AllShallower(v: Json, depth: nat, outer: nat, before: (string, string) -> bool)
    requires TotalOrder(before) && v.Obj? && WellFormed(v) && outer <= depth && FieldsCanonical(v, depth, before)
    ensures FieldsAlike(v, depth, outer, before)
    decreases MAX_DEPTH + 2 - depth, 3
  {
    forall f | f in v.fields
      ensures Canonicalize(f.value, outer, before) == Canonicalize(f.value, depth, before)
    {
      FieldShallower(v, f, depth, outer, before);
    }
  }

  lemma {:induction false} ObjectShallower(v: Json, depth: nat, outer: nat, before: (string, string) -> bool)
    requires TotalOrder(before) && v.Obj? && WellFormed(v) && outer <= depth <= MAX_DEPTH && FieldsCanonical(v, depth + 1, before)
    requires DistinctKeys(v.fields, FieldKey)
    ensures Canonicalize(v, outer, before) == Canonicalize(v, depth, before)
    decreases MAX_DEPTH + 2 - depth, 0
  {
    AllShallower(v, depth + 1, outer + 1, before);
    FieldsShallower(v, depth, outer, before);
  }

  // ------------------------------------------------------------------- lookups

  function Lookup(fields: seq<Field>, key: string): Option<Json> {
    if fields == [] then None else if fields[0].key == key then Some(fields[0].value) else Lookup(fields[1..], key)
  }

  lemma {:induction false} LookupFinds(fields: seq<Field>, f: Field)
    requires DistinctKeys(fields, FieldKey) && f in fields
    ensures Lookup(fields, f.key) == Some(f.value)
  {
    var i :| 0 <= i < |fields| && fields[i] == f;
    if i > 0 {
      assert FieldKey(fields[0]) != FieldKey(fields[i]);
      assert fields[1..][i - 1] == f;
      LookupFinds(fields[1..], f);
    }
  }

  /** What a canonical object holds under a key is the canonical form of what was there. */
  lemma CanonicalLookup(v: Json, f: Field, depth: nat, before: (string, string) -> bool)
    requires TotalOrder(before) && v.Obj? && DistinctKeys(v.fields, FieldKey) && f in v.fields
    requires Canonicalize(v, depth, before).Some?
    ensures Canonicalize(f.value, depth + 1, before).Some?
    ensures Canonicalize(v, depth, before).value.Obj?
    ensures Lookup(Canonicalize(v, depth, before).value.fields, f.key) == Canonicalize(f.value, depth + 1, before)
  {
    var s, c := Sort(v.fields, FieldKey, before), Canonicalize(v, depth, before).value;
    SortedFields(v.fields, before);
    ObjectPointwise(v, depth, before);
    CanonicalSorted(v, depth, before);
    assert f in s;
    var k :| 0 <= k < |s| && s[k] == f;
    LookupFinds(c.fields, c.fields[k]);
  }

  // ----------------------------------------------------- when there is a form

  /** Plain JSON all the way down, without an unsafe key. */
  predicate Plain(v: Json) {
    match v
    case Arr(items) => forall k :: 0 <= k < |items| ==> Plain(items[k])
    case Obj(fields) => forall k :: 0 <= k < |fields| ==> !Unsafe(fields[k].key) && Plain(fields[k].value)
    case NonFinite => false
    case Hole => false
    case Foreign => false
    case _ => true
  }

  function Max(a: nat, b: nat): nat { if a < b then b else a }

  /** How many levels lie below a value. */
  function Height(v: Json): nat
    decreases v, 1, 0
  {
    match v
    case Arr(items) => TallestItem(v, |items|)
    case Obj(fields) => TallestField(v, |fields|)
    case _ => 0
  }

  function TallestItem(v: Json, n: nat): nat
    requires v.Arr? && n <= |v.items|
    decreases v, 0, n
  {
    if n == 0 then 0 else Max(TallestItem(v, n - 1), 1 + Height(v.items[n - 1]))
  }

  function TallestField(v: Json, n: nat): nat
    requires v.Obj? && n <= |v.fields|
    decreases v, 0, n
  {
    if n == 0 then 0 else Max(TallestField(v, n - 1), 1 + Height(v.fields[n - 1].value))
  }

  lemma {:induction false} ItemBound(v: Json, n: nat, bound: int)
    requires v.Arr? && n <= |v.items| && bound >= 0
    ensures TallestItem(v, n) <= bound <==> forall k :: 0 <= k < n ==> 1 + Height(v.items[k]) <= bound
  {
    if n > 0 { ItemBound(v, n - 1, bound); }
  }

  lemma {:induction false} FieldBound(v: Json, n: nat, bound: int)
    requires v.Obj? && n <= |v.fields| && bound >= 0
    ensures TallestField(v, n) <= bound <==> forall k :: 0 <= k < n ==> 1 + Height(v.fields[k].value) <= bound
  {
    if n > 0 { FieldBound(v, n - 1, bound); }
  }

  /** A value has a canonical form exactly if it is plain and not nested too deeply. */
  lemma {:induction false} CanonicalIff(v: Json, depth: nat, before: (string, string) -> bool)
    requires TotalOrder(before) && WellFormed(v)
    ensures Canonicalize(v, depth, before).Some? <==> Plain(v) && depth + Height(v) <= MAX_DEPTH
    decreases v, 1
  {
    if depth <= MAX_DEPTH {
      if v.Arr? { ArrayIff(v, depth, before); }
      if v.Obj? { ObjectIff(v, depth, before); }
    }
  }

  lemma {:induction false} ArrayIff(v: Json, depth: nat, before: (string, string) -> bool)
    requires TotalOrder(before) && WellFormed(v) && v.Arr? && depth <= MAX_DEPTH
    ensures Canonicalize(v, depth, before).Some? <==> Plain(v) && depth + Height(v) <= MAX_DEPTH
    decreases v, 0
  {
    forall k | 0 <= k < |v.items|
      ensures Canonicalize(v.items[k], depth + 1, before).Some? <==> Plain(v.items[k]) && depth + 1 + Height(v.items[k]) <= MAX_DEPTH
    {
      CanonicalIff(v.items[k], depth + 1, before);
    }
    ArrayPointwise(v, depth, before);
    ItemBound(v, |v.items|, MAX_DEPTH - depth);
  }

  /** Every field has a form one level down. */
  lemma ObjectByFields(v: Json, depth: nat, before: (string, string) -> bool)
    requires TotalOrder(before) && v.Obj? && DistinctKeys(v.fields, FieldKey) && depth <= MAX_DEPTH
    ensures Canonicalize(v, depth, before).Some? <==>
            forall k :: 0 <= k < |v.fields| ==> !Unsafe(v.fields[k].key) && Canonicalize(v.fields[k].value, depth + 1, before).Some?
  {
    var s := Sort(v.fields, FieldKey, before);
    SortedFields(v.fields, before);
    ObjectPointwise(v, depth, before);
    assert forall k :: 0 <= k < |s| ==> s[k] in v.fields;
    assert forall k :: 0 <= k < |v.fields| ==> v.fields[k] in s;
  }

  lemma {:induction false} ObjectIff(v: Json, depth: nat, before: (string, string) -> bool)
    requires TotalOrder(before) && WellFormed(v) && v.Obj? && depth <= MAX_DEPTH
    ensures Canonicalize(v, depth, before).Some? <==> Plain(v) && depth + Height(v) <= MAX_DEPTH
    decreases v, 0
  {
    forall k | 0 <= k < |v.fields|
      ensures Canonicalize(v.fields[k].value, depth + 1, before).Some? <==>
              Plain(v.fields[k].value) && depth + 1 + Height(v.fields[k].value) <= MAX_DEPTH
    {
      CanonicalIff(v.fields[k].value, depth + 1, before);
    }
    ObjectIffStep(v, depth, before);
  }

  lemma ObjectIffStep(v: Json, depth: nat, before: (string, string) -> bool)
    requires TotalOrder(before) && v.Obj? && DistinctKeys(v.fields, FieldKey) && depth <= MAX_DEPTH
    requires forall k :: 0 <= k < |v.fields| ==>
               (Canonicalize(v.fields[k].value, depth + 1, before).Some? <==>
                Plain(v.fields[k].value) && depth + 1 + Height(v.fields[k].value) <= MAX_DEPTH)
    ensures Canonicalize(v, depth, before).Some? <==> Plain(v) && depth + Height(v) <= MAX_DEPTH
  {
    ObjectByFields(v, depth, before);
    FieldBound(v, |v.fields|, MAX_DEPTH - depth);
  }

  /** Objects within objects. */
  function Nested(n: nat): Json {
    Obj(if n == 0 then [] else [Field("a", Nested(n - 1))])
  }

  lemma {:induction false} NestedHeight(n: nat)
    ensures Height(Nested(n)) == n
  {
    if n > 0 {
      NestedHeight(n - 1);
      assert TallestField(Nested(n), 1) == Max(TallestField(Nested(n), 0), 1 + Height(Nested(n - 1)));
    }
  }

  lemma SortOne(fields: seq<Field>, before: (string, string) -> bool)
    requires |fields| <= 1
    ensures Sort(fields, FieldKey, before) == fields
  {
    if fields != [] { assert fields[..0] == []; }
  }

  lemma PlainKey()
    ensures !Unsafe("a")
  {
    assert |"a"| == 1;
  }

  lemma WrappedFixed(fields: seq<Field>, depth: nat, before: (string, string) -> bool)
    requires TotalOrder(before) && depth <= MAX_DEPTH && |fields| <= 1
    requires forall f :: f in fields ==> !Unsafe(f.key) && Fixed(f.value, depth + 1, before)
    ensures Fixed(Obj(fields), depth, before)
  {
    SortOne(fields, before);
    ObjectFixed(Obj(fields), depth, before);
  }

  lemma {:induction false} NestedFixed(n: nat, depth: nat, before: (string, string) -> bool)
    requires TotalOrder(before) && n + depth <= MAX_DEPTH
    ensures Fixed(Nested(n), depth, before)
  {
    if n == 0 {
      WrappedFixed([], depth, before);
    } else {
      NestedFixed(n - 1, depth + 1, before);
      PlainKey();
      WrappedFixed([Field("a", Nested(n - 1))], depth, before);
    }
  }
}
