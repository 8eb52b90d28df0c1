/** Fields of a document, and the key order in which the fields of a map are written. */
module Keys {
  /** Whatever a leaf holds: numbers, strings, dates. */
  type Data(!new)

  /** `Doc` keeps its order; `Map` lists a map's fields in whatever order iteration gives them. */
  datatype Value = Doc(fields: Fields) | Map(fields: Fields) | Arr(items: Items) | Leaf(data: Data)
  datatype Fields = NoField | Field(key: string, value: Value, rest: Fields)
  datatype Items = NoItem | Item(value: Value, rest: Items)

  /** Keys compare character by character, and a key comes before its extensions. */
  predicate KeyLess(a: string, b: string) {
    b != "" && (a == "" || a[0] < b[0] || (a[0] == b[0] && KeyLess(a[1..], b[1..])))
  }

  lemma {:induction false} KeysCompare(a: string, b: string)
    ensures a == b || KeyLess(a, b) || KeyLess(b, a)
    ensures !(KeyLess(a, b) && KeyLess(b, a)) && !KeyLess(a, a)
  {
    if a != "" && b != "" {
      KeysCompare(a[1..], b[1..]);
      assert a == [a[0]] + a[1..] && b == [b[0]] + b[1..];
    }
    if a != "" { KeysCompare(a[1..], a[1..]); }
  }

  lemma {:induction false} KeyLessOn(a: string, b: string, c: string)
    requires KeyLess(a, b) && KeyLess(b, c)
    ensures KeyLess(a, c)
  {
    if a != "" && a[0] == b[0] && b[0] == c[0] { KeyLessOn(a[1..], b[1..], c[1..]); }
  }

  function InsertField(key: string, value: Value, sorted: Fields): Fields {
    if sorted.NoField? || KeyLess(key, sorted.key) then Field(key, value, sorted)
    else Field(sorted.key, sorted.value, InsertField(key, value, sorted.rest))
  }

  /** The fields of a map in key order. */
  function SortFields(fields: Fields): Fields {
    if fields.NoField? then NoField else InsertField(fields.key, fields.value, SortFields(fields.rest))
  }

  predicate Has(fields: Fields, key: string, value: Value) {
    fields.Field? && ((fields.key == key && fields.value == value) || Has(fields.rest, key, value))
  }

  predicate HasKey(fields: Fields, key: string) {
    fields.Field? && (fields.key == key || HasKey(fields.rest, key))
  }

  predicate KeysDiffer(fields: Fields) {
    fields.NoField? || (!HasKey(fields.rest, fields.key) && KeysDiffer(fields.rest))
  }

  /** Every key comes after `key`. */
  predicate AllAfter(key: string, fields: Fields) {
    fields.NoField? || (KeyLess(key, fields.key) && AllAfter(key, fields.rest))
  }

  predicate Ascending(fields: Fields) {
    fields.NoField? || (AllAfter(fields.key, fields.rest) && Ascending(fields.rest))
  }

  lemma {:induction false} InsertHas(key: string, value: Value, sorted: Fields, k: string, v: Value)
    ensures Has(InsertField(key, value, sorted), k, v) <==> (k == key && v == value) || Has(sorted, k, v)
    ensures HasKey(InsertField(key, value, sorted), k) <==> k == key || HasKey(sorted, k)
  {
    if sorted.Field? { InsertHas(key, value, sorted.rest, k, v); }
  }

  lemma {:induction false} SortHas(fields: Fields, k: string, v: Value)
    ensures Has(SortFields(fields), k, v) <==> Has(fields, k, v)
    ensures HasKey(SortFields(fields), k) <==> HasKey(fields, k)
  {
    if fields.Field? {
      SortHas(fields.rest, k, v);
      InsertHas(fields.key, fields.value, SortFields(fields.rest), k, v);
    }
  }

  lemma {:induction false} AfterOn(a: string, b: string, fields: Fields)
    requires KeyLess(a, b) && AllAfter(b, fields)
    ensures AllAfter(a, fields)
  {
    if fields.Field? {
      KeyLessOn(a, b, fields.key);
      AfterOn(a, b, fields.rest);
    }
  }

  lemma {:induction false} InsertAfter(key: string, value: Value, sorted: Fields, k: string)
    requires KeyLess(k, key) && AllAfter(k, sorted)
    ensures AllAfter(k, InsertField(key, value, sorted))
  {
    if sorted.Field? { InsertAfter(key, value, sorted.rest, k); }
  }

  lemma {:induction false} InsertAscends(key: string, value: Value, sorted: Fields)
    requires Ascending(sorted) && !HasKey(sorted, key)
    ensures Ascending(InsertField(key, value, sorted))
  {
    if sorted.Field? {
      KeysCompare(key, sorted.key);
      if KeyLess(key, sorted.key) {
        AfterOn(key, sorted.key, sorted.rest);
      } else {
        InsertAscends(key, value, sorted.rest);
        InsertAfter(key, value, sorted.rest, sorted.key);
      }
    }
  }

  lemma {:induction false} SortAscends(fields: Fields)
    requires KeysDiffer(fields)
    ensures Ascending(SortFields(fields))
  {
    if fields.Field? {
      SortAscends(fields.rest);
      SortHas(fields.rest, fields.key, fields.value);
      InsertAscends(fields.key, fields.value, SortFields(fields.rest));
    }
  }

  lemma {:induction false} AfterHas(key: string, fields: Fields, k: string, v: Value)
    requires AllAfter(key, fields) && Has(fields, k, v)
    ensures KeyLess(key, k)
  {
    if !(fields.key == k && fields.value == v) { AfterHas(key, fields.rest, k, v); }
  }

  ghost predicate SameFields(a: Fields, b: Fields) {
    forall k, v :: Has(a, k, v) <==> Has(b, k, v)
  }

  lemma HeadsAgree(a: Fields, b: Fields)
    requires Ascending(a) && Ascending(b) && SameFields(a, b) && a.Field? && b.Field?
    ensures a.key == b.key && a.value == b.value
  {
    assert Has(b, a.key, a.value) && Has(a, b.key, b.value);
    if !(b.key == a.key && b.value == a.value) {
      AfterHas(b.key, b.rest, a.key, a.value);
      AfterHas(a.key, a.rest, b.key, b.value);
      KeysCompare(a.key, b.key);
    }
  }

  lemma TailsAgree(a: Fields, b: Fields)
    requires Ascending(a) && Ascending(b) && SameFields(a, b) && a.Field? && b.Field?
    requires a.key == b.key && a.value == b.value
    ensures SameFields(a.rest, b.rest)
  {
    forall k, v ensures Has(a.rest, k, v) <==> Has(b.rest, k, v) {
      assert Has(a, k, v) <==> Has(b, k, v);
      KeysCompare(a.key, a.key);
      if Has(a.rest, k, v) { AfterHas(a.key, a.rest, k, v); }
      if Has(b.rest, k, v) { AfterHas(b.key, b.rest, k, v); }
    }
  }

  lemma {:induction false} AscendingIsUnique(a: Fields, b: Fields)
    requires Ascending(a) && Ascending(b) && SameFields(a, b)
    ensures a == b
    decreases a
  {
    if a.Field? && b.Field? {
      HeadsAgree(a, b);
      TailsAgree(a, b);
      AscendingIsUnique(a.rest, b.rest);
    } else if a.Field? {
      assert Has(a, a.key, a.value);
    } else if b.Field? {
      assert Has(b, b.key, b.value);
    }
  }

  /** The order in which a map is iterated over does not matter. */
  lemma IterationOrderIsLost(a: Fields, b: Fields)
    requires KeysDiffer(a) && KeysDiffer(b) && SameFields(a, b)
    ensures SortFields(a) == SortFields(b)
  {
    SortAscends(a);
    SortAscends(b);
    forall k, v ensures Has(SortFields(a), k, v) <==> Has(SortFields(b), k, v) {
      SortHas(a, k, v);
      SortHas(b, k, v);
    }
    AscendingIsUnique(SortFields(a), SortFields(b));
  }
}
