/**
  The value-free text of a profiled command. A document is reduced to a shape: its visible field names,
  whether each array has none, one or more elements, and the shape of its first element, cut at depth 12.
  The text is written recursively into one shared builder, and it determines the shape.
  */
module ShapeText {
  import opened Keys

  datatype Shape = Object(entries: Entries) | NoneOf | OneOf(first: Shape) | ManyOf(first: Shape) | Anything | TooDeep
  datatype Entries = NoEntry | Entry(name: string, shape: Shape, rest: Entries)

  const MAX_SHAPE_DEPTH := 12

  const IGNORED: set<string> := {
    "lsid", "$clusterTime", "$db", "$readPreference", "txnNumber", "autocommit", "startTransaction", "comment",
    "maxTimeMS", "writeConcern", "readConcern", "apiVersion", "apiStrict", "apiDeprecationErrors", "shardVersion",
    "databaseVersion", "$audit", "$client", "mayBypassWriteBlocking", "cursor" }

  predicate IsFieldChar(c: char) {
    c in "_$.-" || 'a' <= c <= 'z' || 'A' <= c <= 'Z' || '0' <= c <= '9'
  }

  /** Identifier-like keys, dotted paths and operators. */
  predicate IsFieldName(s: string) {
    0 < |s| <= 64 && forall k :: 0 <= k < |s| ==> IsFieldChar(s[k])
  }

  function Masked(key: string): string {
    if IsFieldName(key) then key else "?"
  }

  // ---- Shapes ----------------------------------------------------------------------------------

  /** How many levels are left: what the recursion decreases, as the fields of a map are sorted on the way. */
  function Levels(depth: nat): nat {
    if depth > MAX_SHAPE_DEPTH then 0 else MAX_SHAPE_DEPTH + 1 - depth
  }

  /** The shape of a value found at some depth. */
  function ShapeOf(v: Value, depth: nat, top: bool): Shape
    decreases Levels(depth), 1
  {
    if depth > MAX_SHAPE_DEPTH then TooDeep
    else
      match v
      case Doc(fields) => Object(EntriesOf(fields, depth, top))
      case Map(fields) => Object(EntriesOf(SortFields(fields), depth, top))
      case Arr(NoItem) => NoneOf
      case Arr(Item(first, NoItem)) => OneOf(ShapeOf(first, depth + 1, false))
      case Arr(Item(first, _)) => ManyOf(ShapeOf(first, depth + 1, false))
      case Leaf(_) => Anything
  }

  function EntriesOf(fields: Fields, depth: nat, top: bool): Entries
    requires depth <= MAX_SHAPE_DEPTH
    decreases Levels(depth), 0, fields
  {
    match fields
    case NoField => NoEntry
    case Field(key, value, rest) =>
      if top && key in IGNORED then EntriesOf(rest, depth, top)
      else Entry(Masked(key), ShapeOf(value, depth + 1, false), EntriesOf(rest, depth, top))
  }

  // ---- Text ------------------------------------------------------------------------------------

  function Print(s: Shape): string {
    match s
    case Object(entries) => "{" + PrintEntries(entries, true) + "}"
    case NoneOf => "[]"
    case OneOf(first) => "[" + Print(first) + "]"
    case ManyOf(first) => "[" + Print(first) + (",\"…\"" + "]")
    case Anything => "\"?\""
    case TooDeep => "\"…\""
  }

  /** The entries of an object; `first` tells whether a comma is due. */
  function PrintEntries(entries: Entries, first: bool): string {
    match entries
    case NoEntry => ""
    case Entry(name, shape, rest) => PrintName(name, first) + Print(shape) + PrintEntries(rest, false)
  }

  function PrintName(name: string, first: bool): string {
    (if first then "" else ",") + ("\"" + name + "\":")
  }

  // ---- Writing ---------------------------------------------------------------------------------

  class Builder {
    var text: string

    constructor ()
      ensures text == ""
    {
      text := "";
    }

    method Write(s: string)
      modifies this
      ensures text == old(text) + s
    {
      text := text + s;
    }
  }

  method WriteShape(b: Builder, v: Value, depth: nat, top: bool)
    modifies b
    ensures b.text == old(b.text) + Print(ShapeOf(v, depth, top))
    decreases Levels(depth), 1
  {
    if depth > MAX_SHAPE_DEPTH {
      b.Write("\"…\"");
      return;
    }
    match v {
      case Doc(fields) =>
        WriteObject(b, fields, depth, top);
      case Map(fields) =>
        WriteObject(b, SortFields(fields), depth, top);
      case Arr(items) =>
        WriteArray(b, items, depth);
      case Leaf(_) =>
        b.Write("\"?\"");
    }
  }

  method WriteObject(b: Builder, fields: Fields, depth: nat, top: bool)
    requires depth <= MAX_SHAPE_DEPTH
    modifies b
    ensures b.text == old(b.text) + Print(Object(EntriesOf(fields, depth, top)))
    decreases Levels(depth), 0, 1
  {
    ghost var before, inner := b.text, PrintEntries(EntriesOf(fields, depth, top), true);
    b.Write("{");
    WriteFields(b, fields, depth, top);
    b.Write("}");
    Regroup(before, "{", inner, "}");
  }

  method WriteFields(b: Builder, fields: Fields, depth: nat, top: bool)
    requires depth <= MAX_SHAPE_DEPTH
    modifies b
    ensures b.text == old(b.text) + PrintEntries(EntriesOf(fields, depth, top), true)
    decreases Levels(depth), 0, 0
  {
    var rest, first := fields, true;
    while rest.Field?
      invariant b.text + PrintEntries(EntriesOf(rest, depth, top), first)
             == old(b.text) + PrintEntries(EntriesOf(fields, depth, top), true)
      decreases rest
    {
      if !(top && rest.key in IGNORED) {
        ghost var before, after := b.text, PrintEntries(EntriesOf(rest.rest, depth, top), false);
        WriteName(b, Masked(rest.key), first);
        WriteShape(b, rest.value, depth + 1, false);
        Regroup(before, PrintName(Masked(rest.key), first), Print(ShapeOf(rest.value, depth + 1, false)), after);
        first := false;
      }
      rest := rest.rest;
    }
    assert b.text + "" == b.text;
  }

  lemma Regroup(a: string, b: string, c: string, d: string)
    ensures a + b + c + d == a + (b + c + d)
  {
  }

  method WriteName(b: Builder, name: string, first: bool)
    modifies b
    ensures b.text == old(b.text) + PrintName(name, first)
  {
    if !first { b.Write(","); }
    b.Write("\"" + name + "\":");
  }

  method WriteArray(b: Builder, items: Items, depth: nat)
    requires depth <= MAX_SHAPE_DEPTH
    modifies b
    ensures b.text == old(b.text) + Print(ShapeOf(Arr(items), depth, false))
    decreases Levels(depth), 0
  {
    if items.NoItem? {
      b.Write("[]");
      return;
    }
    ghost var before, inner := b.text, Print(ShapeOf(items.value, depth + 1, false));
    b.Write("[");
    WriteShape(b, items.value, depth + 1, false);
    if items.rest.Item? {
      b.Write(",\"…\"");
      b.Write("]");
      Regroup(before + "[", inner, ",\"…\"", "]");
      Regroup(before, "[", inner, ",\"…\"" + "]");
    } else {
      b.Write("]");
      Regroup(before, "[", inner, "]");
    }
  }

  method RedactShape(fields: Fields) returns (text: string)
    ensures text == Print(ShapeOf(Doc(fields), 0, true))
  {
    var b := new Builder();
    WriteShape(b, Doc(fields), 0, true);
    text := b.text;
  }

  // ---- The text determines the shape -----------------------------------------------------------

  predicate Unquoted(s: string) {
    forall k :: 0 <= k < |s| ==> s[k] != '"'
  }

  predicate WellNamed(s: Shape) {
    match s
    case Object(entries) => EntriesWellNamed(entries)
    case OneOf(first) => WellNamed(first)
    case ManyOf(first) => WellNamed(first)
    case _ => true
  }

  predicate EntriesWellNamed(entries: Entries) {
    match entries
    case NoEntry => true
    case Entry(name, shape, rest) => Unquoted(name) && WellNamed(shape) && EntriesWellNamed(rest)
  }

  lemma {:induction false} ShapesAreWellNamed(v: Value, depth: nat, top: bool)
    ensures WellNamed(ShapeOf(v, depth, top))
    decreases Levels(depth), 1
  {
    if depth <= MAX_SHAPE_DEPTH {
      match v
      case Doc(fields) => EntriesAreWellNamed(fields, depth, top);
      case Map(fields) => EntriesAreWellNamed(SortFields(fields), depth, top);
      case Arr(Item(first, _)) => ShapesAreWellNamed(first, depth + 1, false);
      case _ =>
    }
  }

  lemma {:induction false} EntriesAreWellNamed(fields: Fields, depth: nat, top: bool)
    requires depth <= MAX_SHAPE_DEPTH
    ensures EntriesWellNamed(EntriesOf(fields, depth, top))
    decreases Levels(depth), 0, fields
  {
    if fields.Field? {
      EntriesAreWellNamed(fields.rest, depth, top);
      ShapesAreWellNamed(fields.value, depth + 1, false);
    }
  }

  lemma Cancel(p: string, x: string, y: string)
    requires p + x == p + y
    ensures x == y
  {
    assert x == (p + x)[|p|..] && y == (p + y)[|p|..];
  }

  /** The first character tells objects, arrays and leaves apart. */
  function Opening(s: Shape): char {
    match s
    case Object(_) => '{'
    case NoneOf => '['
    case OneOf(_) => '['
    case ManyOf(_) => '['
    case Anything => '"'
    case TooDeep => '"'
  }

  lemma OpensWith(s: Shape, x: string)
    ensures Print(s) + x != "" && (Print(s) + x)[0] == Opening(s)
  {
    match s
    case Object(entries) => Assoc("{", PrintEntries(entries, true) + "}", x);
    case OneOf(first) => Assoc("[", Print(first) + "]", x);
    case ManyOf(first) => Assoc("[", Print(first) + (",\"…\"" + "]"), x);
    case _ =>
  }

  lemma Assoc(a: string, b: string, c: string)
    ensures a + b + c == a + (b + c)
  {
  }

  lemma QuotedAt(n: string, x: string, k: nat)
    ensures (n + "\"" + x)[|n|] == '"'
    ensures k < |n| ==> (n + "\"" + x)[k] == n[k]
  {
  }

  /** A quoted name ends at its first quote. */
  lemma NameEnds(n: string, m: string, x: string, y: string)
    requires Unquoted(n) && Unquoted(m) && n + "\"" + x == m + "\"" + y
    ensures n == m && x == y
  {
    QuotedAt(n, x, |m|);
    QuotedAt(m, y, |n|);
    assert |n| == |m|;
    Assoc(n, "\"", x);
    Assoc(m, "\"", y);
    Halves(n, "\"" + x, m, "\"" + y);
    Cancel("\"", x, y);
  }

  lemma Halves(n: string, x: string, m: string, y: string)
    requires n + x == m + y && |n| == |m|
    ensures n == m && x == y
  {
    assert n == (n + x)[..|n|] && m == (m + y)[..|m|];
    Cancel(n, x, y);
  }

  /** What follows the opening bracket of an array. */
  function Inside(s: Shape): string
    requires s.NoneOf? || s.OneOf? || s.ManyOf?
  {
    match s
    case NoneOf => "]"
    case OneOf(first) => Print(first) + "]"
    case ManyOf(first) => Print(first) + (",\"…\"" + "]")
  }

  lemma ArrayPrints(s: Shape, x: string)
    requires s.NoneOf? || s.OneOf? || s.ManyOf?
    ensures Print(s) + x == "[" + (Inside(s) + x)
  {
    Assoc("[", Inside(s), x);
    match s
    case NoneOf => assert "[" + "]" == "[]";
    case OneOf(first) => Assoc("[", Print(first), "]");
    case ManyOf(first) => Assoc("[", Print(first), ",\"…\"" + "]");
  }

  /** Printing is unambiguous: no text continues one shape and starts another. */
  lemma {:induction false} Unambiguous(s: Shape, t: Shape, x: string, y: string)
    requires WellNamed(s) && WellNamed(t) && Print(s) + x == Print(t) + y
    ensures s == t && x == y
    decreases s, 1
  {
    OpensWith(s, x);
    OpensWith(t, y);
    match s
    case Object(entries) =>
      Assoc("{" + PrintEntries(entries, true), "}", x);
      Assoc("{", PrintEntries(entries, true), "}" + x);
      Assoc("{" + PrintEntries(t.entries, true), "}", y);
      Assoc("{", PrintEntries(t.entries, true), "}" + y);
      Cancel("{", PrintEntries(entries, true) + ("}" + x), PrintEntries(t.entries, true) + ("}" + y));
      EntriesUnambiguous(entries, t.entries, true, x, y);
    case Anything => LeavesDiffer(s, t, x, y);
    case TooDeep => LeavesDiffer(s, t, x, y);
    case _ =>
      ArrayPrints(s, x);
      ArrayPrints(t, y);
      Cancel("[", Inside(s) + x, Inside(t) + y);
      ArraysUnambiguous(s, t, x, y);
  }

  lemma LeavesDiffer(s: Shape, t: Shape, x: string, y: string)
    requires (s.Anything? || s.TooDeep?) && (t.Anything? || t.TooDeep?) && Print(s) + x == Print(t) + y
    ensures s == t && x == y
  {
    assert (Print(s) + x)[1] == (Print(t) + y)[1];
    assert (Print(s) + x)[3..] == x && (Print(t) + y)[3..] == y;
  }

  lemma {:induction false} ArraysUnambiguous(s: Shape, t: Shape, x: string, y: string)
    requires (s.NoneOf? || s.OneOf? || s.ManyOf?) && (t.NoneOf? || t.OneOf? || t.ManyOf?)
    requires WellNamed(s) && WellNamed(t) && Inside(s) + x == Inside(t) + y
    ensures s == t && x == y
    decreases s, 0
  {
    if s.NoneOf? || t.NoneOf? {
      EmptyArray(s, x);
      EmptyArray(t, y);
      Cancel("]", x, y);
    } else {
      var p, q := InsideTail(s), InsideTail(t);
      Assoc(Print(s.first), p, x);
      Assoc(Print(t.first), q, y);
      Unambiguous(s.first, t.first, p + x, q + y);
      assert (p + x)[0] == (q + y)[0];
      if s.OneOf? { Cancel("]", x, y); } else { Cancel(",\"…\"" + "]", x, y); }
    }
  }

  function InsideTail(s: Shape): string {
    if s.ManyOf? then ",\"…\"" + "]" else "]"
  }

  lemma EmptyArray(s: Shape, x: string)
    requires s.NoneOf? || s.OneOf? || s.ManyOf?
    ensures Inside(s) + x != "" && (s.NoneOf? <==> (Inside(s) + x)[0] == ']')
  {
    if !s.NoneOf? {
      Assoc(Print(s.first), InsideTail(s), x);
      OpensWith(s.first, InsideTail(s) + x);
    }
  }

  /** What follows the name of an entry. */
  function Following(e: Entries, x: string): string
    requires e.Entry?
  {
    Print(e.shape) + (PrintEntries(e.rest, false) + ("}" + x))
  }

  lemma EntryPrints(e: Entries, first: bool, x: string)
    requires e.Entry?
    ensures PrintEntries(e, first) + ("}" + x)
         == (if first then "\"" else ",\"") + (e.name + "\"" + (":" + Following(e, x)))
  {
    var opening := if first then "\"" else ",\"";
    NameOpens(e.name, first);
    Reassociate(opening, e.name + "\"", ":", Print(e.shape), PrintEntries(e.rest, false), "}" + x);
  }

  lemma NameOpens(name: string, first: bool)
    ensures PrintName(name, first) == (if first then "\"" else ",\"") + (name + "\"" + ":")
  {
  }

  lemma Reassociate(a: string, b: string, c: string, d: string, e: string, f: string)
    ensures a + (b + c) + d + e + f == a + (b + (c + (d + (e + f))))
  {
    Assoc(a + (b + c) + d, e, f);
    Assoc(a + (b + c), d, e + f);
    Assoc(a, b + c, d + (e + f));
    Assoc(b, c, d + (e + f));
  }

  lemma {:induction false} EntriesUnambiguous(e: Entries, f: Entries, first: bool, x: string, y: string)
    requires EntriesWellNamed(e) && EntriesWellNamed(f)
    requires PrintEntries(e, first) + ("}" + x) == PrintEntries(f, first) + ("}" + y)
    ensures e == f && x == y
    decreases e, 0
  {
    ClosingBrace(e, first, x);
    ClosingBrace(f, first, y);
    if e.NoEntry? {
      assert "" + ("}" + x) == "}" + x && "" + ("}" + y) == "}" + y;
      Cancel("}", x, y);
    } else {
      EntryPrints(e, first, x);
      EntryPrints(f, first, y);
      Cancel(if first then "\"" else ",\"", e.name + "\"" + (":" + Following(e, x)),
             f.name + "\"" + (":" + Following(f, y)));
      NameEnds(e.name, f.name, ":" + Following(e, x), ":" + Following(f, y));
      Cancel(":", Following(e, x), Following(f, y));
      Unambiguous(e.shape, f.shape, PrintEntries(e.rest, false) + ("}" + x), PrintEntries(f.rest, false) + ("}" + y));
      EntriesUnambiguous(e.rest, f.rest, false, x, y);
    }
  }

  lemma ClosingBrace(e: Entries, first: bool, x: string)
    ensures PrintEntries(e, first) + ("}" + x) != ""
    ensures e.NoEntry? <==> (PrintEntries(e, first) + ("}" + x))[0] == '}'
  {
    if e.Entry? {
      EntryPrints(e, first, x);
      assert (if first then "\"" else ",\"")[0] != '}';
    }
  }

  /** Two commands print the same text exactly when their shapes are equal. */
  lemma SameTextSameShape(a: Fields, b: Fields)
    ensures Print(ShapeOf(Doc(a), 0, true)) == Print(ShapeOf(Doc(b), 0, true))
            <==> ShapeOf(Doc(a), 0, true) == ShapeOf(Doc(b), 0, true)
  {
    var s, t := ShapeOf(Doc(a), 0, true), ShapeOf(Doc(b), 0, true);
    if Print(s) == Print(t) {
      ShapesAreWellNamed(Doc(a), 0, true);
      ShapesAreWellNamed(Doc(b), 0, true);
      Unambiguous(s, t, "", "");
    }
  }

  // ---- What the shape leaves out ---------------------------------------------------------------

  /** The same document with other data in its leaves. */
  function Refilled(v: Value, fill: Data -> Data): Value {
    match v
    case Doc(fields) => Doc(FieldsRefilled(fields, fill))
    case Map(fields) => Map(FieldsRefilled(fields, fill))
    case Arr(items) => Arr(ItemsRefilled(items, fill))
    case Leaf(data) => Leaf(fill(data))
  }

  function FieldsRefilled(fields: Fields, fill: Data -> Data): Fields {
    match fields
    case NoField => NoField
    case Field(key, value, rest) => Field(key, Refilled(value, fill), FieldsRefilled(rest, fill))
  }

  function ItemsRefilled(items: Items, fill: Data -> Data): Items {
    match items
    case NoItem => NoItem
    case Item(value, rest) => Item(Refilled(value, fill), ItemsRefilled(rest, fill))
  }

  lemma {:induction false} InsertRefilled(key: string, value: Value, sorted: Fields, fill: Data -> Data)
    ensures FieldsRefilled(InsertField(key, value, sorted), fill)
         == InsertField(key, Refilled(value, fill), FieldsRefilled(sorted, fill))
  {
    if sorted.Field? { InsertRefilled(key, value, sorted.rest, fill); }
  }

  lemma {:induction false} SortRefilled(fields: Fields, fill: Data -> Data)
    ensures SortFields(FieldsRefilled(fields, fill)) == FieldsRefilled(SortFields(fields), fill)
  {
    if fields.Field? {
      SortRefilled(fields.rest, fill);
      InsertRefilled(fields.key, fields.value, SortFields(fields.rest), fill);
    }
  }

  /** The order in which a map is iterated over leaves no trace in the text. */
  lemma ShapeHidesIteration(a: Fields, b: Fields, depth: nat, top: bool)
    requires KeysDiffer(a) && KeysDiffer(b) && SameFields(a, b)
    ensures ShapeOf(Map(a), depth, top) == ShapeOf(Map(b), depth, top)
  {
    IterationOrderIsLost(a, b);
  }

  /** The text depends on no value. */
  lemma {:induction false} ShapeHidesValues(v: Value, fill: Data -> Data, depth: nat, top: bool)
    ensures ShapeOf(Refilled(v, fill), depth, top) == ShapeOf(v, depth, top)
    decreases Levels(depth), 1
  {
    if depth <= MAX_SHAPE_DEPTH {
      match v
      case Doc(fields) => EntriesHideValues(fields, fill, depth, top);
      case Map(fields) =>
        SortRefilled(fields, fill);
        EntriesHideValues(SortFields(fields), fill, depth, top);
      case Arr(Item(first, rest)) =>
        ShapeHidesValues(first, fill, depth + 1, false);
        assert ItemsRefilled(rest, fill).NoItem? <==> rest.NoItem?;
        OneOrMany(first, rest, depth, top);
        OneOrMany(Refilled(first, fill), ItemsRefilled(rest, fill), depth, top);
        assert Refilled(v, fill) == Arr(Item(Refilled(first, fill), ItemsRefilled(rest, fill)));
      case _ =>
    }
  }

  lemma {:induction false} EntriesHideValues(fields: Fields, fill: Data -> Data, depth: nat, top: bool)
    requires depth <= MAX_SHAPE_DEPTH
    ensures EntriesOf(FieldsRefilled(fields, fill), depth, top) == EntriesOf(fields, depth, top)
    decreases Levels(depth), 0, fields
  {
    if fields.Field? {
      EntriesHideValues(fields.rest, fill, depth, top);
      ShapeHidesValues(fields.value, fill, depth + 1, false);
    }
  }

  function Length(items: Items): nat {
    if items.NoItem? then 0 else 1 + Length(items.rest)
  }

  /**
    An array's shape is that of its first element and whether there are more: two arrays that start alike
    have the same shape exactly when both or neither have more than one element. So an insert of one
    document and an insert of a thousand differ, and inserts of two and of a thousand do not.
    */
  lemma ArrayShape(first: Value, rest: Items, rest': Items, depth: nat)
    requires depth <= MAX_SHAPE_DEPTH
    ensures ShapeOf(Arr(Item(first, rest)), depth, false) == ShapeOf(Arr(Item(first, rest')), depth, false)
            <==> (Length(rest) == 0 <==> Length(rest') == 0)
  {
    OneOrMany(first, rest, depth, false);
    OneOrMany(first, rest', depth, false);
  }

  lemma OneOrMany(first: Value, rest: Items, depth: nat, top: bool)
    requires depth <= MAX_SHAPE_DEPTH
    ensures ShapeOf(Arr(Item(first, rest)), depth, top)
         == if rest.NoItem? then OneOf(ShapeOf(first, depth + 1, false)) else ManyOf(ShapeOf(first, depth + 1, false))
  {
    var arr := Arr(Item(first, rest));
    if rest.NoItem? {
      assert ShapeOf(arr, depth, top) == OneOf(ShapeOf(first, depth + 1, false));
    } else {
      assert ShapeOf(arr, depth, top) == ManyOf(ShapeOf(first, depth + 1, false));
    }
  }

  // ---- Which names are shown -------------------------------------------------------------------

  predicate HasName(entries: Entries, name: string) {
    entries.Entry? && (entries.name == name || HasName(entries.rest, name))
  }

  /** A key is shown as it is when it looks like an identifier, and otherwise as a question mark. */
  ghost predicate ShownAs(key: string, name: string) {
    if 0 < |key| <= 64 && (forall k :: 0 <= k < |key| ==> IsFieldChar(key[k])) then name == key else name == "?"
  }

  lemma MaskedIsShown(key: string, name: string)
    ensures ShownAs(key, name) <==> name == Masked(key)
  {
  }

  /** The names shown are those of the fields, except for the session fields at the top. */
  lemma {:induction false} NamesShown(fields: Fields, depth: nat, top: bool, name: string)
    requires depth <= MAX_SHAPE_DEPTH
    ensures HasName(EntriesOf(fields, depth, top), name) <==>
              exists key :: HasKey(fields, key) && !(top && key in IGNORED) && ShownAs(key, name)
  {
    if fields.Field? {
      NamesShown(fields.rest, depth, top, name);
      MaskedIsShown(fields.key, name);
      assert HasKey(fields, fields.key);
      forall key ensures HasKey(fields, key) <==> key == fields.key || HasKey(fields.rest, key) { }
    }
  }

  ghost predicate Contains(text: string, part: string) {
    exists left, right {:trigger Parts(text, left, part, right)} :: Parts(text, left, part, right)
  }

  ghost predicate Parts(text: string, left: string, part: string, right: string) {
    text == left + part + right
  }

  /** Every name of an object appears in its text, quoted and followed by a colon. */
  lemma {:induction false} NameIsPrinted(entries: Entries, first: bool, name: string)
    requires HasName(entries, name)
    ensures Contains(PrintEntries(entries, first), "\"" + name + "\":")
  {
    var quoted := "\"" + name + "\":";
    var head, rest := PrintName(entries.name, first) + Print(entries.shape), PrintEntries(entries.rest, false);
    if entries.name == name {
      var comma := if first then "" else ",";
      assert Parts(head + rest, comma, quoted, Print(entries.shape) + rest);
    } else {
      NameIsPrinted(entries.rest, false, name);
      var left, right :| Parts(rest, left, quoted, right);
      assert Parts(head + rest, head + left, quoted, right);
    }
  }

  /** The text of a command shows every field that is neither a session field nor oddly named. */
  lemma FieldIsPrinted(fields: Fields, key: string)
    requires HasKey(fields, key) && key !in IGNORED && IsFieldName(key)
    ensures Contains(Print(ShapeOf(Doc(fields), 0, true)), "\"" + key + "\":")
  {
    NamesShown(fields, 0, true, key);
    NameIsPrinted(EntriesOf(fields, 0, true), true, key);
    StillContains("{", PrintEntries(EntriesOf(fields, 0, true), true), "}", "\"" + key + "\":");
  }

  lemma StillContains(before: string, text: string, after: string, part: string)
    requires Contains(text, part)
    ensures Contains(before + text + after, part)
  {
    var left, right :| Parts(text, left, part, right);
    assert Parts(before + text + after, before + left, part, right + after);
  }
}
