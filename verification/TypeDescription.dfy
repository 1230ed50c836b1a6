/** REP-2016 type descriptions and their canonical JSON, the text whose SHA-256 is the type hash. */
module TypeDescriptions {
  import opened Basics
  import opened Text
  import opened Json
  import opened JsonValues

  datatype FieldType = FieldType(typeId: Byte, capacity: UInt64, stringCapacity: UInt64, nestedTypeName: string)

  datatype Field = Field(name: string, fieldType: FieldType, defaultValue: string)

  datatype IndividualTypeDescription = Individual(typeName: string, fields: seq<Field>)

  datatype TypeDescription = TypeDescription(
    description: IndividualTypeDescription,
    referenced: seq<IndividualTypeDescription>)

  type Itd = IndividualTypeDescription

  // ---------------------------------------------------------------------------------------
  // What the hash is meant to depend on

  function StripField(f: Field): Field {
    f.(defaultValue := "")
  }

  function StripFields(fs: seq<Field>): seq<Field> {
    if fs == [] then [] else [StripField(fs[0])] + StripFields(fs[1..])
  }

  function Strip(d: Itd): Itd {
    d.(fields := StripFields(d.fields))
  }

  function StripAll(ds: seq<Itd>): seq<Itd> {
    if ds == [] then [] else [Strip(ds[0])] + StripAll(ds[1..])
  }

  // ---------------------------------------------------------------------------------------
  // The printer. Each function prints its argument followed by `k`.

  function FieldTypeThen(t: FieldType, k: string): string {
    "{\"type_id\": " + (Dec(t.typeId) +
    (", \"capacity\": " + (Dec(t.capacity) +
    (", \"string_capacity\": " + (Dec(t.stringCapacity) +
    (", \"nested_type_name\": " + StringThen(t.nestedTypeName, "}" + k)))))))
  }

  function FieldThen(f: Field, k: string): string {
    "{\"name\": " + StringThen(f.name, ", \"type\": " + FieldTypeThen(f.fieldType, "}" + k))
  }

  /** The rest of a field list, up to and including the end of the individual description. */
  function MoreFieldsThen(fs: seq<Field>, k: string): string {
    if fs == [] then "]}" + k else ", " + FieldThen(fs[0], MoreFieldsThen(fs[1..], k))
  }

  function FieldsThen(fs: seq<Field>, k: string): string {
    if fs == [] then "]}" + k else FieldThen(fs[0], MoreFieldsThen(fs[1..], k))
  }

  function ItdThen(d: Itd, k: string): string {
    "{\"type_name\": " + StringThen(d.typeName, ", \"fields\": [" + FieldsThen(d.fields, k))
  }

  function MoreItdsThen(ds: seq<Itd>, k: string): string {
    if ds == [] then "]}" + k else ", " + ItdThen(ds[0], MoreItdsThen(ds[1..], k))
  }

  function ItdsThen(ds: seq<Itd>, k: string): string {
    if ds == [] then "]}" + k else ItdThen(ds[0], MoreItdsThen(ds[1..], k))
  }

  /** The canonical text: the referenced descriptions sorted by name. */
  function HashableJson(t: TypeDescription): string {
    "{\"type_description\": " + ItdThen(t.description,
      ", \"referenced_type_descriptions\": [" + ItdsThen(SortByName(t.referenced), ""))
  }

  // ---------------------------------------------------------------------------------------
  // The JSON value that REP-2016 has hashed

  function FieldTypeValue(t: FieldType): Value {
    Obj(Member("type_id", Num(t.typeId),
        Member("capacity", Num(t.capacity),
        Member("string_capacity", Num(t.stringCapacity),
        Member("nested_type_name", Str(t.nestedTypeName), NoMembers)))))
  }

  function FieldValue(f: Field): Value {
    Obj(Member("name", Str(f.name), Member("type", FieldTypeValue(f.fieldType), NoMembers)))
  }

  function FieldItems(fs: seq<Field>): Items {
    if fs == [] then NoItems else Item(FieldValue(fs[0]), FieldItems(fs[1..]))
  }

  function ItdValue(d: Itd): Value {
    Obj(Member("type_name", Str(d.typeName), Member("fields", Arr(FieldItems(d.fields)), NoMembers)))
  }

  function ItdItems(ds: seq<Itd>): Items {
    if ds == [] then NoItems else Item(ItdValue(ds[0]), ItdItems(ds[1..]))
  }

  function DescriptionValue(t: TypeDescription): Value {
    Obj(Member("type_description", ItdValue(t.description),
        Member("referenced_type_descriptions", Arr(ItdItems(SortByName(t.referenced))), NoMembers)))
  }

  lemma TypeIdLabel(v: Value, more: Members, k: string)
    ensures PrintThen(Obj(Member("type_id", v, more)), k) == "{\"type_id\": " + PrintThen(v, MoreMembersThen(more, k))
  {
    FirstMember("type_id", v, more, k, "{\"type_id\": ");
  }

  lemma CapacityLabel(v: Value, more: Members, k: string)
    ensures MoreMembersThen(Member("capacity", v, more), k) == ", \"capacity\": " + PrintThen(v, MoreMembersThen(more, k))
  {
    NextMember("capacity", v, more, k, ", \"capacity\": ");
  }

  lemma StringCapacityLabel(v: Value, more: Members, k: string)
    ensures MoreMembersThen(Member("string_capacity", v, more), k)
         == ", \"string_capacity\": " + PrintThen(v, MoreMembersThen(more, k))
  {
    NextMember("string_capacity", v, more, k, ", \"string_capacity\": ");
  }

  lemma NestedTypeNameLabel(v: Value, more: Members, k: string)
    ensures MoreMembersThen(Member("nested_type_name", v, more), k)
         == ", \"nested_type_name\": " + PrintThen(v, MoreMembersThen(more, k))
  {
    NextMember("nested_type_name", v, more, k, ", \"nested_type_name\": ");
  }

  lemma NameLabel(v: Value, more: Members, k: string)
    ensures PrintThen(Obj(Member("name", v, more)), k) == "{\"name\": " + PrintThen(v, MoreMembersThen(more, k))
  {
    FirstMember("name", v, more, k, "{\"name\": ");
  }

  lemma TypeLabel(v: Value, more: Members, k: string)
    ensures MoreMembersThen(Member("type", v, more), k) == ", \"type\": " + PrintThen(v, MoreMembersThen(more, k))
  {
    NextMember("type", v, more, k, ", \"type\": ");
  }

  lemma TypeNameLabel(v: Value, more: Members, k: string)
    ensures PrintThen(Obj(Member("type_name", v, more)), k) == "{\"type_name\": " + PrintThen(v, MoreMembersThen(more, k))
  {
    FirstMember("type_name", v, more, k, "{\"type_name\": ");
  }

  lemma FieldsLabel(v: Value, more: Members, k: string)
    ensures MoreMembersThen(Member("fields", v, more), k) == ", \"fields\": " + PrintThen(v, MoreMembersThen(more, k))
  {
    NextMember("fields", v, more, k, ", \"fields\": ");
  }

  lemma DescriptionLabel(v: Value, more: Members, k: string)
    ensures PrintThen(Obj(Member("type_description", v, more)), k)
         == "{\"type_description\": " + PrintThen(v, MoreMembersThen(more, k))
  {
    FirstMember("type_description", v, more, k, "{\"type_description\": ");
  }

  lemma ReferencesLabel(v: Value, more: Members, k: string)
    ensures MoreMembersThen(Member("referenced_type_descriptions", v, more), k)
         == ", \"referenced_type_descriptions\": " + PrintThen(v, MoreMembersThen(more, k))
  {
    NextMember("referenced_type_descriptions", v, more, k, ", \"referenced_type_descriptions\": ");
  }

  lemma FieldTypeIsJson(t: FieldType, k: string)
    ensures FieldTypeThen(t, k) == PrintThen(FieldTypeValue(t), k)
  {
    var nested := Member("nested_type_name", Str(t.nestedTypeName), NoMembers);
    var strings := Member("string_capacity", Num(t.stringCapacity), nested);
    var capacity := Member("capacity", Num(t.capacity), strings);
    NestedTypeNameLabel(Str(t.nestedTypeName), NoMembers, k);
    StringCapacityLabel(Num(t.stringCapacity), nested, k);
    CapacityLabel(Num(t.capacity), strings, k);
    TypeIdLabel(Num(t.typeId), capacity, k);
  }

  lemma FieldIsJson(f: Field, k: string)
    ensures FieldThen(f, k) == PrintThen(FieldValue(f), k)
  {
    var v := FieldTypeValue(f.fieldType);
    FieldTypeIsJson(f.fieldType, "}" + k);
    TypeLabel(v, NoMembers, k);
    NameLabel(Str(f.name), Member("type", v, NoMembers), k);
  }

  lemma {:induction false} MoreFieldsAreJson(fs: seq<Field>, k: string)
    ensures MoreFieldsThen(fs, k) == MoreItemsThen(FieldItems(fs), "}" + k)
  {
    if fs == [] {
      Assoc("]", "}", k);
    } else {
      MoreFieldsAreJson(fs[1..], k);
      FieldIsJson(fs[0], MoreFieldsThen(fs[1..], k));
    }
  }

  lemma FieldsAreJson(fs: seq<Field>, k: string)
    ensures FieldsThen(fs, k) == ItemsThen(FieldItems(fs), "}" + k)
  {
    if fs == [] {
      Assoc("]", "}", k);
    } else {
      MoreFieldsAreJson(fs[1..], k);
      FieldIsJson(fs[0], MoreFieldsThen(fs[1..], k));
    }
  }

  lemma ItdIsJson(d: Itd, k: string)
    ensures ItdThen(d, k) == PrintThen(ItdValue(d), k)
  {
    var fields := FieldsThen(d.fields, k);
    var v := Arr(FieldItems(d.fields));
    FieldsAreJson(d.fields, k);
    FieldsLabel(v, NoMembers, k);
    assert ", \"fields\": " + "[" == ", \"fields\": [";
    Assoc(", \"fields\": ", "[", fields);
    TypeNameLabel(Str(d.typeName), Member("fields", v, NoMembers), k);
  }

  lemma {:induction false} MoreItdsAreJson(ds: seq<Itd>, k: string)
    ensures MoreItdsThen(ds, k) == MoreItemsThen(ItdItems(ds), "}" + k)
  {
    if ds == [] {
      Assoc("]", "}", k);
    } else {
      MoreItdsAreJson(ds[1..], k);
      ItdIsJson(ds[0], MoreItdsThen(ds[1..], k));
    }
  }

  lemma ItdsAreJson(ds: seq<Itd>, k: string)
    ensures ItdsThen(ds, k) == ItemsThen(ItdItems(ds), "}" + k)
  {
    if ds == [] {
      Assoc("]", "}", k);
    } else {
      MoreItdsAreJson(ds[1..], k);
      ItdIsJson(ds[0], MoreItdsThen(ds[1..], k));
    }
  }

  /** The text is that of the JSON value, for every description. */
  lemma HashableJsonIsJson(t: TypeDescription)
    ensures HashableJson(t) == PrintThen(DescriptionValue(t), "")
  {
    var sorted := SortByName(t.referenced);
    var v, refs := Arr(ItdItems(sorted)), ItdsThen(sorted, "");
    var opening := ", \"referenced_type_descriptions\": ";
    ItdsAreJson(sorted, "");
    ReferencesLabel(v, NoMembers, "");
    assert opening + "[" == ", \"referenced_type_descriptions\": [";
    Assoc(opening, "[", refs);
    ItdIsJson(t.description, opening + "[" + refs);
    DescriptionLabel(ItdValue(t.description), Member("referenced_type_descriptions", v, NoMembers), "");
  }

  // ---------------------------------------------------------------------------------------
  // Unambiguity: a printed prefix determines what was printed, and so the rest

  lemma Cancel(prefix: string, x: string, y: string)
    requires prefix + x == prefix + y
    ensures x == y
  {
    assert x == (prefix + x)[|prefix|..] && y == (prefix + y)[|prefix|..];
  }

  lemma NumberUnique(prefix: string, m: nat, x: string, n: nat, y: string)
    requires prefix + (Dec(m) + x) == prefix + (Dec(n) + y)
    requires x != [] && y != [] && !IsDigit(x[0]) && !IsDigit(y[0])
    ensures m == n && x == y
  {
    Cancel(prefix, Dec(m) + x, Dec(n) + y);
    DecUnique(m, x, n, y);
  }

  lemma QuotedUnique(prefix: string, a: string, x: string, b: string, y: string)
    requires prefix + StringThen(a, x) == prefix + StringThen(b, y)
    ensures a == b && x == y
  {
    Cancel(prefix, StringThen(a, x), StringThen(b, y));
    StringUnique(a, x, b, y);
  }

  lemma FieldTypeUnique(a: FieldType, x: string, b: FieldType, y: string)
    requires FieldTypeThen(a, x) == FieldTypeThen(b, y)
    ensures a == b && x == y
  {
    var na, nb := ", \"nested_type_name\": " + StringThen(a.nestedTypeName, "}" + x),
                  ", \"nested_type_name\": " + StringThen(b.nestedTypeName, "}" + y);
    var sa, sb := ", \"string_capacity\": " + (Dec(a.stringCapacity) + na),
                  ", \"string_capacity\": " + (Dec(b.stringCapacity) + nb);
    var ca, cb := ", \"capacity\": " + (Dec(a.capacity) + sa), ", \"capacity\": " + (Dec(b.capacity) + sb);
    NumberUnique("{\"type_id\": ", a.typeId, ca, b.typeId, cb);
    NumberUnique(", \"capacity\": ", a.capacity, sa, b.capacity, sb);
    NumberUnique(", \"string_capacity\": ", a.stringCapacity, na, b.stringCapacity, nb);
    QuotedUnique(", \"nested_type_name\": ", a.nestedTypeName, "}" + x, b.nestedTypeName, "}" + y);
    Cancel("}", x, y);
  }

  lemma FieldUnique(a: Field, x: string, b: Field, y: string)
    requires FieldThen(a, x) == FieldThen(b, y)
    ensures StripField(a) == StripField(b) && x == y
  {
    var ta, tb := FieldTypeThen(a.fieldType, "}" + x), FieldTypeThen(b.fieldType, "}" + y);
    QuotedUnique("{\"name\": ", a.name, ", \"type\": " + ta, b.name, ", \"type\": " + tb);
    Cancel(", \"type\": ", ta, tb);
    FieldTypeUnique(a.fieldType, "}" + x, b.fieldType, "}" + y);
    Cancel("}", x, y);
  }

  lemma {:induction false} MoreFieldsUnique(a: seq<Field>, x: string, b: seq<Field>, y: string)
    requires MoreFieldsThen(a, x) == MoreFieldsThen(b, y)
    ensures StripFields(a) == StripFields(b) && x == y
  {
    assert MoreFieldsThen(a, x)[0] == if a == [] then ']' else ',';
    assert MoreFieldsThen(b, y)[0] == if b == [] then ']' else ',';
    if a == [] {
      Cancel("]}", x, y);
    } else {
      var ra, rb := MoreFieldsThen(a[1..], x), MoreFieldsThen(b[1..], y);
      Cancel(", ", FieldThen(a[0], ra), FieldThen(b[0], rb));
      FieldUnique(a[0], ra, b[0], rb);
      MoreFieldsUnique(a[1..], x, b[1..], y);
    }
  }

  lemma FieldsUnique(a: seq<Field>, x: string, b: seq<Field>, y: string)
    requires FieldsThen(a, x) == FieldsThen(b, y)
    ensures StripFields(a) == StripFields(b) && x == y
  {
    assert FieldsThen(a, x)[0] == if a == [] then ']' else '{';
    assert FieldsThen(b, y)[0] == if b == [] then ']' else '{';
    if a == [] {
      Cancel("]}", x, y);
    } else {
      FieldUnique(a[0], MoreFieldsThen(a[1..], x), b[0], MoreFieldsThen(b[1..], y));
      MoreFieldsUnique(a[1..], x, b[1..], y);
    }
  }

  lemma ItdUnique(a: Itd, x: string, b: Itd, y: string)
    requires ItdThen(a, x) == ItdThen(b, y)
    ensures Strip(a) == Strip(b) && x == y
  {
    var fa, fb := FieldsThen(a.fields, x), FieldsThen(b.fields, y);
    QuotedUnique("{\"type_name\": ", a.typeName, ", \"fields\": [" + fa, b.typeName, ", \"fields\": [" + fb);
    Cancel(", \"fields\": [", fa, fb);
    FieldsUnique(a.fields, x, b.fields, y);
  }

  lemma {:induction false} MoreItdsUnique(a: seq<Itd>, x: string, b: seq<Itd>, y: string)
    requires MoreItdsThen(a, x) == MoreItdsThen(b, y)
    ensures StripAll(a) == StripAll(b) && x == y
  {
    assert MoreItdsThen(a, x)[0] == if a == [] then ']' else ',';
    assert MoreItdsThen(b, y)[0] == if b == [] then ']' else ',';
    if a == [] {
      Cancel("]}", x, y);
    } else {
      var ra, rb := MoreItdsThen(a[1..], x), MoreItdsThen(b[1..], y);
      Cancel(", ", ItdThen(a[0], ra), ItdThen(b[0], rb));
      ItdUnique(a[0], ra, b[0], rb);
      MoreItdsUnique(a[1..], x, b[1..], y);
    }
  }

  lemma ItdsUnique(a: seq<Itd>, x: string, b: seq<Itd>, y: string)
    requires ItdsThen(a, x) == ItdsThen(b, y)
    ensures StripAll(a) == StripAll(b) && x == y
  {
    assert ItdsThen(a, x)[0] == if a == [] then ']' else '{';
    assert ItdsThen(b, y)[0] == if b == [] then ']' else '{';
    if a == [] {
      Cancel("]}", x, y);
    } else {
      ItdUnique(a[0], MoreItdsThen(a[1..], x), b[0], MoreItdsThen(b[1..], y));
      MoreItdsUnique(a[1..], x, b[1..], y);
    }
  }

  // ---------------------------------------------------------------------------------------
  // Default values do not reach the text

  lemma {:induction false} MoreFieldsIgnoreDefaults(fs: seq<Field>, k: string)
    ensures MoreFieldsThen(StripFields(fs), k) == MoreFieldsThen(fs, k)
  {
    if fs != [] {
      MoreFieldsIgnoreDefaults(fs[1..], k);
      assert StripFields(fs)[1..] == StripFields(fs[1..]);
    }
  }

  lemma ItdIgnoresDefaults(d: Itd, k: string)
    ensures ItdThen(Strip(d), k) == ItdThen(d, k)
  {
    var fs := d.fields;
    if fs != [] {
      MoreFieldsIgnoreDefaults(fs[1..], k);
      assert StripFields(fs)[1..] == StripFields(fs[1..]);
    }
  }

  lemma {:induction false} MoreItdsIgnoreDefaults(ds: seq<Itd>, k: string)
    ensures MoreItdsThen(StripAll(ds), k) == MoreItdsThen(ds, k)
  {
    if ds != [] {
      MoreItdsIgnoreDefaults(ds[1..], k);
      assert StripAll(ds)[1..] == StripAll(ds[1..]);
      ItdIgnoresDefaults(ds[0], MoreItdsThen(ds[1..], k));
    }
  }

  lemma ItdsIgnoreDefaults(ds: seq<Itd>, k: string)
    ensures ItdsThen(StripAll(ds), k) == ItdsThen(ds, k)
  {
    if ds != [] {
      MoreItdsIgnoreDefaults(ds[1..], k);
      assert StripAll(ds)[1..] == StripAll(ds[1..]);
      ItdIgnoresDefaults(ds[0], MoreItdsThen(ds[1..], k));
    }
  }

  // ---------------------------------------------------------------------------------------
  // The stable sort by name

  /** Puts `d` before everything of the same name. */
  function InsertByName(d: Itd, sorted: seq<Itd>): seq<Itd> {
    if sorted == [] || NameLe(d.typeName, sorted[0].typeName) then [d] + sorted
    else [sorted[0]] + InsertByName(d, sorted[1..])
  }

  function SortByName(ds: seq<Itd>): seq<Itd> {
    if ds == [] then [] else InsertByName(ds[0], SortByName(ds[1..]))
  }

  ghost predicate Sorted(ds: seq<Itd>) {
    forall i, j :: 0 <= i <= j < |ds| ==> NameLe(ds[i].typeName, ds[j].typeName)
  }

  /** The descriptions of one name, in order. */
  function Named(ds: seq<Itd>, name: string): seq<Itd> {
    if ds == [] then []
    else (if ds[0].typeName == name then [ds[0]] else []) + Named(ds[1..], name)
  }

  lemma {:induction false} InsertTakesAll(d: Itd, s: seq<Itd>)
    ensures multiset(InsertByName(d, s)) == multiset{d} + multiset(s)
  {
    if s != [] && !NameLe(d.typeName, s[0].typeName) {
      InsertTakesAll(d, s[1..]);
      assert s == [s[0]] + s[1..];
    }
  }

  lemma {:induction false} InsertKeepsSorted(d: Itd, s: seq<Itd>)
    requires Sorted(s)
    ensures Sorted(InsertByName(d, s))
  {
    NameLeTotal(d.typeName, d.typeName);
    if s == [] {
    } else if NameLe(d.typeName, s[0].typeName) {
      forall j | 0 <= j < |s| ensures NameLe(d.typeName, s[j].typeName) {
        NameLeTransitive(d.typeName, s[0].typeName, s[j].typeName);
      }
    } else {
      InsertKeepsSorted(d, s[1..]);
      FirstIsLeast(d, s);
    }
  }

  lemma FirstIsLeast(d: Itd, s: seq<Itd>)
    requires Sorted(s) && s != [] && !NameLe(d.typeName, s[0].typeName)
    ensures forall x :: x in InsertByName(d, s[1..]) ==> NameLe(s[0].typeName, x.typeName)
  {
    var rest := InsertByName(d, s[1..]);
    NameLeTotal(d.typeName, s[0].typeName);
    InsertTakesAll(d, s[1..]);
    forall x | x in rest ensures NameLe(s[0].typeName, x.typeName) {
      assert x in multiset(rest);
      assert x == d || x in s[1..];
    }
  }

  lemma {:induction false} InsertKeepsNamed(d: Itd, s: seq<Itd>, name: string)
    ensures Named(InsertByName(d, s), name) == Named([d] + s, name)
  {
    assert ([d] + s)[1..] == s;
    if s != [] && !NameLe(d.typeName, s[0].typeName) {
      var rest := InsertByName(d, s[1..]);
      InsertKeepsNamed(d, s[1..], name);
      assert ([d] + s[1..])[1..] == s[1..];
      assert ([s[0]] + rest)[1..] == rest;
      NameLeTotal(d.typeName, d.typeName);
    }
  }

  /** The sort yields an ordered permutation and keeps the order of equal names. */
  lemma {:induction false} SortIsStable(ds: seq<Itd>, name: string)
    ensures Sorted(SortByName(ds)) && multiset(SortByName(ds)) == multiset(ds)
    ensures Named(SortByName(ds), name) == Named(ds, name)
  {
    if ds != [] {
      SortIsStable(ds[1..], name);
      InsertKeepsSorted(ds[0], SortByName(ds[1..]));
      InsertTakesAll(ds[0], SortByName(ds[1..]));
      InsertKeepsNamed(ds[0], SortByName(ds[1..]), name);
      assert ([ds[0]] + SortByName(ds[1..]))[1..] == SortByName(ds[1..]);
      assert ds == [ds[0]] + ds[1..];
    }
  }

  lemma {:induction false} NamedHead(ds: seq<Itd>, name: string)
    ensures Named(ds, name) != [] ==> exists i :: 0 <= i < |ds| && ds[i].typeName == name
    ensures ds != [] ==> Named(ds, ds[0].typeName) != [] && Named(ds, ds[0].typeName)[0] == ds[0]
  {
    if ds != [] && ds[0].typeName != name {
      NamedHead(ds[1..], name);
      if Named(ds, name) != [] {
        var i :| 0 <= i < |ds[1..]| && ds[1..][i].typeName == name;
        assert ds[i + 1].typeName == name;
      }
    }
  }

  lemma NothingNamed(ds: seq<Itd>)
    requires forall n :: Named(ds, n) == []
    ensures ds == []
  {
    if ds != [] {
      NamedHead(ds, ds[0].typeName);
    }
  }

  /** An ordered list is determined by its sublists of equal names. */
  lemma {:induction false} SortedDetermined(a: seq<Itd>, b: seq<Itd>)
    requires Sorted(a) && Sorted(b) && forall n :: Named(a, n) == Named(b, n)
    ensures a == b
  {
    if a == [] || b == [] {
      if a == [] { NothingNamed(b); } else { NothingNamed(a); }
    } else {
      var na, nb := a[0].typeName, b[0].typeName;
      NamedHead(a, na);
      NamedHead(b, nb);
      NamedHead(b, na);
      NamedHead(a, nb);
      NameLeTotal(na, nb);
      assert Named(a, na) == Named(b, na);
      assert na == nb && a[0] == b[0];
      forall n ensures Named(a[1..], n) == Named(b[1..], n) {
        var k := if na == n then 1 else 0;
        assert Named(a[1..], n) == Named(a, n)[k..] && Named(b[1..], n) == Named(b, n)[k..];
      }
      SortedDetermined(a[1..], b[1..]);
      assert a == [a[0]] + a[1..] && b == [b[0]] + b[1..];
    }
  }

  lemma {:induction false} StripKeepsNamed(ds: seq<Itd>, name: string)
    ensures Named(StripAll(ds), name) == StripAll(Named(ds, name))
  {
    if ds != [] {
      StripKeepsNamed(ds[1..], name);
      assert StripAll(ds)[1..] == StripAll(ds[1..]);
      var tail := Named(ds[1..], name);
      assert ([ds[0]] + tail)[1..] == tail;
      assert Named(ds, name) == if ds[0].typeName == name then [ds[0]] + tail else tail;
    }
  }

  lemma {:induction false} StripKeepsSorted(ds: seq<Itd>)
    ensures |StripAll(ds)| == |ds|
    ensures forall i :: 0 <= i < |ds| ==> StripAll(ds)[i] == Strip(ds[i])
  {
    if ds != [] {
      StripKeepsSorted(ds[1..]);
    }
  }

  lemma StrippedSortDetermined(a: seq<Itd>, b: seq<Itd>)
    requires forall n :: StripAll(Named(a, n)) == StripAll(Named(b, n))
    ensures StripAll(SortByName(a)) == StripAll(SortByName(b))
  {
    var sa, sb := SortByName(a), SortByName(b);
    StripKeepsSorted(sa);
    StripKeepsSorted(sb);
    SortIsStable(a, "");
    SortIsStable(b, "");
    forall n ensures Named(StripAll(sa), n) == Named(StripAll(sb), n) {
      SortIsStable(a, n);
      SortIsStable(b, n);
      StripKeepsNamed(sa, n);
      StripKeepsNamed(sb, n);
    }
    SortedDetermined(StripAll(sa), StripAll(sb));
  }

  // ---------------------------------------------------------------------------------------
  // What the hash depends on

  /** Agreement on everything but default values and the order of referenced descriptions of
      different names. */
  ghost predicate Agree(a: TypeDescription, b: TypeDescription) {
    && Strip(a.description) == Strip(b.description)
    && forall n :: StripAll(Named(a.referenced, n)) == StripAll(Named(b.referenced, n))
  }

  /** The canonical text is the same exactly for type descriptions that agree. */
  lemma JsonSameIffAgree(a: TypeDescription, b: TypeDescription)
    ensures HashableJson(a) == HashableJson(b) <==> Agree(a, b)
  {
    var sa, sb := SortByName(a.referenced), SortByName(b.referenced);
    var ra, rb := ", \"referenced_type_descriptions\": [" + ItdsThen(sa, ""),
                  ", \"referenced_type_descriptions\": [" + ItdsThen(sb, "");
    if HashableJson(a) == HashableJson(b) {
      Cancel("{\"type_description\": ", ItdThen(a.description, ra), ItdThen(b.description, rb));
      ItdUnique(a.description, ra, b.description, rb);
      Cancel(", \"referenced_type_descriptions\": [", ItdsThen(sa, ""), ItdsThen(sb, ""));
      ItdsUnique(sa, "", sb, "");
      forall n ensures StripAll(Named(a.referenced, n)) == StripAll(Named(b.referenced, n)) {
        SortIsStable(a.referenced, n);
        SortIsStable(b.referenced, n);
        StripKeepsNamed(sa, n);
        StripKeepsNamed(sb, n);
      }
    }
    if Agree(a, b) {
      StrippedSortDetermined(a.referenced, b.referenced);
      ItdsIgnoreDefaults(sa, "");
      ItdsIgnoreDefaults(sb, "");
      ItdIgnoresDefaults(a.description, ra);
      ItdIgnoresDefaults(b.description, rb);
    }
  }

  ghost predicate DistinctNames(ds: seq<Itd>) {
    forall i, j :: 0 <= i < j < |ds| ==> ds[i].typeName != ds[j].typeName
  }

  lemma {:induction false} NamedMultiset(ds: seq<Itd>, name: string, d: Itd)
    ensures multiset(Named(ds, name))[d] == if d.typeName == name then multiset(ds)[d] else 0
  {
    if ds != [] {
      NamedMultiset(ds[1..], name, d);
      assert ds == [ds[0]] + ds[1..];
    }
  }

  lemma {:induction false} NamedAtMostOne(ds: seq<Itd>, name: string)
    requires DistinctNames(ds)
    ensures |Named(ds, name)| <= 1
  {
    if ds != [] {
      NamedAtMostOne(ds[1..], name);
      NamedHead(ds[1..], name);
    }
  }

  lemma OneElement(a: seq<Itd>, b: seq<Itd>)
    requires multiset(a) == multiset(b) && |a| <= 1
    ensures a == b
  {
    assert |multiset(a)| == |a| && |multiset(b)| == |b|;
    if |a| == 1 {
      assert b[0] in multiset(b);
      assert a == [a[0]] && b == [b[0]];
    }
  }

  lemma SameReferencesSameNamed(a: seq<Itd>, b: seq<Itd>, n: string)
    requires DistinctNames(StripAll(a)) && multiset(StripAll(a)) == multiset(StripAll(b))
    ensures StripAll(Named(a, n)) == StripAll(Named(b, n))
  {
    var ra, rb := StripAll(a), StripAll(b);
    StripKeepsNamed(a, n);
    StripKeepsNamed(b, n);
    NamedAtMostOne(ra, n);
    forall d: Itd ensures multiset(Named(ra, n))[d] == multiset(Named(rb, n))[d] {
      NamedMultiset(ra, n, d);
      NamedMultiset(rb, n, d);
    }
    OneElement(Named(ra, n), Named(rb, n));
  }

  lemma SameNamedSameReferences(a: seq<Itd>, b: seq<Itd>)
    requires forall n :: StripAll(Named(a, n)) == StripAll(Named(b, n))
    ensures multiset(StripAll(a)) == multiset(StripAll(b))
  {
    var ra, rb := StripAll(a), StripAll(b);
    forall d: Itd ensures multiset(ra)[d] == multiset(rb)[d] {
      NamedMultiset(ra, d.typeName, d);
      NamedMultiset(rb, d.typeName, d);
      StripKeepsNamed(a, d.typeName);
      StripKeepsNamed(b, d.typeName);
    }
  }

  /** With distinct referenced names, only their set matters: two descriptions have the same
      text iff they agree on the top type and on the referenced types in any order. */
  lemma JsonIgnoresReferenceOrder(a: TypeDescription, b: TypeDescription)
    requires DistinctNames(a.referenced)
    ensures HashableJson(a) == HashableJson(b) <==>
              && Strip(a.description) == Strip(b.description)
              && multiset(StripAll(a.referenced)) == multiset(StripAll(b.referenced))
  {
    JsonSameIffAgree(a, b);
    StripKeepsSorted(a.referenced);
    if multiset(StripAll(a.referenced)) == multiset(StripAll(b.referenced)) {
      forall n ensures StripAll(Named(a.referenced, n)) == StripAll(Named(b.referenced, n)) {
        SameReferencesSameNamed(a.referenced, b.referenced, n);
      }
    }
    if forall n :: StripAll(Named(a.referenced, n)) == StripAll(Named(b.referenced, n)) {
      SameNamedSameReferences(a.referenced, b.referenced);
    }
  }

  // ---------------------------------------------------------------------------------------
  // What is printed for `x` followed by `k` is what is printed for `x`, and then `k`

  lemma QuotedAppends(prefix: string, s: string, x: string, y: string)
    ensures prefix + StringThen(s, x + y) == prefix + StringThen(s, x) + y
  {
    Assoc("\"", x, y);
    CharsThenAppends(s, "\"" + x, y);
    Assoc("\"", CharsThen(s, "\"" + x), y);
    Assoc(prefix, StringThen(s, x), y);
  }

  lemma NumberAppends(prefix: string, n: nat, x: string, y: string)
    ensures prefix + (Dec(n) + (x + y)) == prefix + (Dec(n) + x) + y
  {
    Assoc(Dec(n), x, y);
    Assoc(prefix, Dec(n) + x, y);
  }

  lemma FieldTypeAppends(t: FieldType, x: string, y: string)
    ensures FieldTypeThen(t, x + y) == FieldTypeThen(t, x) + y
  {
    var n := ", \"nested_type_name\": " + StringThen(t.nestedTypeName, "}" + x);
    var s := ", \"string_capacity\": " + (Dec(t.stringCapacity) + n);
    var c := ", \"capacity\": " + (Dec(t.capacity) + s);
    Assoc("}", x, y);
    QuotedAppends(", \"nested_type_name\": ", t.nestedTypeName, "}" + x, y);
    NumberAppends(", \"string_capacity\": ", t.stringCapacity, n, y);
    NumberAppends(", \"capacity\": ", t.capacity, s, y);
    NumberAppends("{\"type_id\": ", t.typeId, c, y);
  }

  lemma FieldAppends(f: Field, x: string, y: string)
    ensures FieldThen(f, x + y) == FieldThen(f, x) + y
  {
    var t := FieldTypeThen(f.fieldType, "}" + x);
    Assoc("}", x, y);
    FieldTypeAppends(f.fieldType, "}" + x, y);
    Assoc(", \"type\": ", t, y);
    QuotedAppends("{\"name\": ", f.name, ", \"type\": " + t, y);
  }

  lemma {:induction false} MoreFieldsAppends(fs: seq<Field>, x: string, y: string)
    ensures MoreFieldsThen(fs, x + y) == MoreFieldsThen(fs, x) + y
  {
    if fs == [] {
      Assoc("]}", x, y);
    } else {
      var rest := MoreFieldsThen(fs[1..], x);
      MoreFieldsAppends(fs[1..], x, y);
      FieldAppends(fs[0], rest, y);
      Assoc(", ", FieldThen(fs[0], rest), y);
    }
  }

  lemma FieldsAppends(fs: seq<Field>, x: string, y: string)
    ensures FieldsThen(fs, x + y) == FieldsThen(fs, x) + y
  {
    if fs == [] {
      Assoc("]}", x, y);
    } else {
      MoreFieldsAppends(fs[1..], x, y);
      FieldAppends(fs[0], MoreFieldsThen(fs[1..], x), y);
    }
  }

  lemma ItdAppends(d: Itd, x: string, y: string)
    ensures ItdThen(d, x + y) == ItdThen(d, x) + y
  {
    FieldsAppends(d.fields, x, y);
    Assoc(", \"fields\": [", FieldsThen(d.fields, x), y);
    QuotedAppends("{\"type_name\": ", d.typeName, ", \"fields\": [" + FieldsThen(d.fields, x), y);
  }

  // ---------------------------------------------------------------------------------------
  // The writer itself, which appends to a string piece by piece

  class JsonWriter {
    var out: string

    constructor ()
      ensures out == ""
    {
      out := "";
    }

    /** `write_json_string`. */
    method WriteString(s: string)
      modifies this
      ensures out == old(out) + StringThen(s, "")
    {
      out := out + "\"";
      ghost var start := out;
      for i := 0 to |s|
        invariant out + CharsThen(s[i..], "\"") == start + CharsThen(s, "\"")
      {
        assert s[i..][1..] == s[i + 1..];
        Assoc(out, CharText(s[i]), CharsThen(s[i + 1..], "\""));
        out := out + CharText(s[i]);
      }
      assert s[|s|..] == [];
      out := out + "\"";
      Assoc(old(out), "\"", CharsThen(s, "\""));
      assert "\"" + "" == "\"";
    }

    method WriteFieldType(t: FieldType)
      modifies this
      ensures out == old(out) + FieldTypeThen(t, "")
    {
      out := out + "{\"type_id\": ";
      out := out + Dec(t.typeId);
      out := out + ", \"capacity\": ";
      out := out + Dec(t.capacity);
      out := out + ", \"string_capacity\": ";
      out := out + Dec(t.stringCapacity);
      out := out + ", \"nested_type_name\": ";
      WriteString(t.nestedTypeName);
      out := out + "}";
      FieldTypeText(old(out), t);
    }

    method WriteField(f: Field)
      modifies this
      ensures out == old(out) + FieldThen(f, "")
    {
      out := out + "{\"name\": ";
      WriteString(f.name);
      out := out + ", \"type\": ";
      WriteFieldType(f.fieldType);
      out := out + "}";
      FieldText(old(out), f);
    }

    /** `write_itd`. */
    method WriteItd(d: Itd)
      modifies this
      ensures out == old(out) + ItdThen(d, "")
    {
      out := out + "{\"type_name\": ";
      WriteString(d.typeName);
      out := out + ", \"fields\": [";
      ghost var start := out;
      for i := 0 to |d.fields|
        invariant i == 0 ==> out == start
        invariant i > 0 ==> out + MoreFieldsThen(d.fields[i..], "") == start + FieldsThen(d.fields, "")
      {
        ghost var rest := MoreFieldsThen(d.fields[i + 1..], "");
        assert d.fields[i..][1..] == d.fields[i + 1..] && d.fields[0..] == d.fields;
        NextItem(out, FieldThen(d.fields[i], ""), rest);
        FieldAppends(d.fields[i], "", rest);
        assert "" + rest == rest;
        if i > 0 {
          out := out + ", ";
        }
        WriteField(d.fields[i]);
      }
      out := out + "]}";
      assert "]}" + "" == "]}";
      ItdText(old(out), d);
    }

    /** `hashable_json`, after the sort: the sorted list is written in order. */
    method WriteTypeDescription(d: Itd, sorted: seq<Itd>)
      modifies this
      ensures out == old(out) + ("{\"type_description\": " +
                       ItdThen(d, ", \"referenced_type_descriptions\": [" + ItdsThen(sorted, "")))
    {
      out := out + "{\"type_description\": ";
      WriteItd(d);
      out := out + ", \"referenced_type_descriptions\": [";
      ghost var start := out;
      for i := 0 to |sorted|
        invariant i == 0 ==> out == start
        invariant i > 0 ==> out + MoreItdsThen(sorted[i..], "") == start + ItdsThen(sorted, "")
      {
        assert sorted[0..] == sorted;
        NextItd(out, sorted, i);
        if i > 0 {
          out := out + ", ";
        }
        WriteItd(sorted[i]);
      }
      out := out + "]}";
      assert "]}" + "" == "]}";
      TypeDescriptionText(old(out), d, ItdsThen(sorted, ""));
    }
  }

  lemma NextItem(out: string, item: string, rest: string)
    ensures out + item + rest == out + (item + rest)
    ensures out + ", " + item + rest == out + (", " + (item + rest))
  {
  }

  lemma NextItd(out: string, sorted: seq<Itd>, i: nat)
    requires i < |sorted|
    ensures out + ItdThen(sorted[i], "") + MoreItdsThen(sorted[i + 1..], "") == out + ItdsThen(sorted[i..], "")
    ensures out + ", " + ItdThen(sorted[i], "") + MoreItdsThen(sorted[i + 1..], "") == out + MoreItdsThen(sorted[i..], "")
  {
    var rest := MoreItdsThen(sorted[i + 1..], "");
    assert sorted[i..][1..] == sorted[i + 1..];
    NextItem(out, ItdThen(sorted[i], ""), rest);
    ItdAppends(sorted[i], "", rest);
    assert "" + rest == rest;
  }

  lemma FieldTypeText(o: string, t: FieldType)
    ensures o + "{\"type_id\": " + Dec(t.typeId) + ", \"capacity\": " + Dec(t.capacity)
              + ", \"string_capacity\": " + Dec(t.stringCapacity) + ", \"nested_type_name\": "
              + StringThen(t.nestedTypeName, "") + "}"
         == o + FieldTypeThen(t, "")
  {
    var a, b, c, d, e, f, g, q := "{\"type_id\": ", Dec(t.typeId), ", \"capacity\": ", Dec(t.capacity),
                                  ", \"string_capacity\": ", Dec(t.stringCapacity), ", \"nested_type_name\": ",
                                  StringThen(t.nestedTypeName, "");
    EndOfFieldType(t);
    NineParts(o, a, b, c, d, e, f, g, q, "}");
  }

  lemma EndOfFieldType(t: FieldType)
    ensures var g := ", \"nested_type_name\": ";
            g + (StringThen(t.nestedTypeName, "") + "}") == g + StringThen(t.nestedTypeName, "}" + "")
  {
    var g := ", \"nested_type_name\": ";
    QuotedAppends(g, t.nestedTypeName, "", "}");
    assert "" + "}" == "}" && "}" + "" == "}";
    Assoc(g, StringThen(t.nestedTypeName, ""), "}");
  }

  lemma NineParts(o: string, a: string, b: string, c: string, d: string, e: string, f: string,
                  g: string, q: string, z: string)
    ensures o + a + b + c + d + e + f + g + q + z == o + (a + (b + (c + (d + (e + (f + (g + (q + z))))))))
  {
    var x := g + (q + z);
    FiveParts(o + a + b + c, d, e, f, g, q + z);
    Assoc(o + a + b + c + d + e + f + g, q, z);
    Assoc(d, e, f + x);
    FiveParts(o, a, b, c, d + (e + (f + x)), "");
    assert d + (e + (f + x)) + "" == d + (e + (f + x));
    Assoc(o + a + b + c, d + (e + (f + x)), "");
    Assoc(a, b, c + (d + (e + (f + x))));
  }

  lemma FieldText(o: string, f: Field)
    ensures o + "{\"name\": " + StringThen(f.name, "") + ", \"type\": " + FieldTypeThen(f.fieldType, "") + "}"
         == o + FieldThen(f, "")
  {
    var name, t := "{\"name\": " + StringThen(f.name, ""), FieldTypeThen(f.fieldType, "");
    FieldTypeAppends(f.fieldType, "", "}");
    assert "" + "}" == "}" && "}" + "" == "}";
    QuotedAppends("{\"name\": ", f.name, "", ", \"type\": " + (t + "}"));
    assert "" + (", \"type\": " + (t + "}")) == ", \"type\": " + (t + "}");
    FiveParts(o, "{\"name\": ", StringThen(f.name, ""), ", \"type\": ", t, "}");
  }

  lemma FiveParts(o: string, a: string, b: string, c: string, d: string, e: string)
    ensures o + a + b + c + d + e == o + (a + b + (c + (d + e)))
  {
  }

  lemma ItdText(o: string, d: Itd)
    ensures o + "{\"type_name\": " + StringThen(d.typeName, "") + ", \"fields\": [" + FieldsThen(d.fields, "")
         == o + ItdThen(d, "")
  {
    var fields := FieldsThen(d.fields, "");
    QuotedAppends("{\"type_name\": ", d.typeName, "", ", \"fields\": [" + fields);
    assert "" + (", \"fields\": [" + fields) == ", \"fields\": [" + fields;
    FiveParts(o, "{\"type_name\": ", StringThen(d.typeName, ""), ", \"fields\": [", fields, "");
    assert fields + "" == fields;
  }

  lemma TypeDescriptionText(o: string, d: Itd, refs: string)
    ensures o + "{\"type_description\": " + ItdThen(d, "") + ", \"referenced_type_descriptions\": [" + refs
         == o + ("{\"type_description\": " + ItdThen(d, ", \"referenced_type_descriptions\": [" + refs))
  {
    var head := ", \"referenced_type_descriptions\": [";
    ItdAppends(d, "", head + refs);
    NothingBefore(head + refs);
    FourParts(o, "{\"type_description\": ", ItdThen(d, ""), head, refs);
  }

  lemma FourParts(o: string, a: string, b: string, c: string, d: string)
    ensures o + a + b + c + d == o + (a + (b + (c + d)))
  {
  }

  lemma NothingBefore(s: string)
    ensures "" + s == s
  {
  }

  /** `hashable_json`. */
  method WriteHashableJson(t: TypeDescription) returns (json: string)
    ensures json == HashableJson(t)
  {
    var refs := new Itd[|t.referenced|](i requires 0 <= i < |t.referenced| => t.referenced[i]);
    assert refs[..] == t.referenced;
    SortInPlace(refs);
    var w := new JsonWriter();
    w.WriteTypeDescription(t.description, refs[..]);
    json := w.out;
    assert "" + json == json;
  }

  /** The sort in place: each element moves right past the elements of smaller name. */
  method SortInPlace(a: array<Itd>)
    modifies a
    ensures a[..] == SortByName(old(a[..]))
  {
    var i := a.Length;
    assert a[i..] == [];
    while i > 0
      invariant 0 <= i <= a.Length
      invariant a[..i] == old(a[..i])
      invariant a[i..] == SortByName(old(a[i..]))
    {
      i := i - 1;
      ghost var all := old(a[..]);
      assert all[i..][1..] == all[i + 1..];
      assert a[i] == a[..i + 1][i];
      InsertInPlace(a, i);
      assert a[..i] == old(a[..i]);
    }
    assert a[0..] == a[..];
  }

  /** Moves `a[i]` right until it meets an element of at least its name. */
  method InsertInPlace(a: array<Itd>, i: nat)
    requires i < a.Length
    modifies a
    ensures a[..i] == old(a[..i])
    ensures a[i..] == InsertByName(old(a[i]), old(a[i + 1..]))
  {
    var d := a[i];
    ghost var tail := a[i + 1..];
    var j := i;
    while j + 1 < a.Length && !NameLe(d.typeName, a[j + 1].typeName)
      invariant i <= j < a.Length
      invariant a[..i] == old(a[..i])
      invariant a[i..j] == tail[..j - i] && a[j + 1..] == tail[j - i..]
      invariant AllSmaller(tail, j - i, d)
    {
      assert a[j + 1] == a[j + 1..][0] == tail[j - i];
      a[j] := a[j + 1];
      j := j + 1;
    }
    assert j + 1 < a.Length ==> a[j + 1] == a[j + 1..][0] == tail[j - i];
    InsertAt(d, tail, j - i);
    a[j] := d;
    ghost var all := a[..];
    Cut(all, i, j);
    assert a[i..j] == all[i..j] && a[j + 1..] == all[j + 1..];
    assert a[i..] == all[i..];
  }

  lemma Cut(s: seq<Itd>, i: nat, j: nat)
    requires i <= j < |s|
    ensures s[i..] == s[i..j] + [s[j]] + s[j + 1..]
  {
  }

  predicate AllSmaller(s: seq<Itd>, n: nat, d: Itd)
    requires n <= |s|
  {
    forall k :: 0 <= k < n ==> !NameLe(d.typeName, s[k].typeName)
  }

  /** An insertion stops at the first element that is not of smaller name. */
  lemma {:induction false} InsertAt(d: Itd, tail: seq<Itd>, p: nat)
    requires p <= |tail| && AllSmaller(tail, p, d)
    requires p == |tail| || NameLe(d.typeName, tail[p].typeName)
    ensures InsertByName(d, tail) == tail[..p] + [d] + tail[p..]
  {
    if p > 0 {
      InsertAt(d, tail[1..], p - 1);
      assert tail[..p] == [tail[0]] + tail[1..][..p - 1];
    }
  }
}
