/** The message format of bproto/BProto.h and bproto_generator/bproto_functions.php, for any
    schema: what the generated code does with one message type is done here with its list of
    entries. */
module BProto {
  import opened Wrappers
  import opened LittleEndian

  /** uint8 to uint64 by their width in bytes, data, and data of a fixed size. */
  datatype Kind = Uint(bytes: nat) | Data | ConstData(size: nat)

  datatype Cardinality = Optional | Required | Repeated | RequiredRepeated

  datatype Field = Field(id: nat, kind: Kind, cardinality: Cardinality)

  type Schema = seq<Field>

  datatype Value = Number(n: nat) | Bytes(data: seq<byte>)

  /** One entry of a message: a value of the schema's field of that index. */
  datatype Item = Item(field: nat, value: Value)

  // ----- schemas

  predicate FieldOk(f: Field) {
    && f.id < 0x1_0000
    && match f.kind
       case Uint(k) => k == 1 || k == 2 || k == 4 || k == 8
       case Data => true
       case ConstData(size) => size < 0x1_0000_0000
  }

  /** Entries whose cases in one switch over the id would coincide. */
  predicate Clash(a: Field, b: Field) {
    a.id == b.id && if a.kind.Uint? then a.kind == b.kind else !b.kind.Uint?
  }

  predicate SchemaOk(fs: Schema) {
    && (forall i :: 0 <= i < |fs| ==> FieldOk(fs[i]))
    && (forall i, j :: 0 <= i < j < |fs| ==> !Clash(fs[i], fs[j]))
  }

  const DATA := 5
  const CONSTDATA := 6

  function TypeCode(k: Kind): (t: nat)
    ensures t < 0x1_0000
  {
    match k
    case Uint(n) => if n == 1 then 1 else if n == 2 then 2 else if n == 4 then 3 else 4
    case Data => DATA
    case ConstData(_) => CONSTDATA
  }

  /** The number of bytes of the uint type with a code from 1 to 4. */
  function Width(code: nat): (k: nat)
    ensures k == 1 || k == 2 || k == 4 || k == 8
  {
    if code == 1 then 1 else if code == 2 then 2 else if code == 3 then 4 else 8
  }

  // ----- encoding

  predicate ItemOk(fs: Schema, it: Item) {
    && it.field < |fs|
    && match fs[it.field].kind
       case Uint(k) => it.value.Number? && it.value.n < Pow256(k)
       case Data => it.value.Bytes? && |it.value.data| < 0x1_0000_0000
       case ConstData(size) => it.value.Bytes? && |it.value.data| == size
  }

  predicate ItemsOk(fs: Schema, items: seq<Item>) {
    forall it :: it in items ==> ItemOk(fs, it)
  }

  const HEADER := 4

  /** The SIZE macro of the entry. */
  function Size(fs: Schema, it: Item): (n: nat)
    requires ItemOk(fs, it)
    ensures n >= HEADER
  {
    match fs[it.field].kind
    case Uint(k) => HEADER + k
    case _ => HEADER + 4 + |it.value.data|
  }

  function Header(f: Field): (r: seq<byte>)
    ensures |r| == HEADER
  {
    Le(f.id, 2) + Le(TypeCode(f.kind), 2)
  }

  function Body(fs: Schema, it: Item): (r: seq<byte>)
    requires ItemOk(fs, it)
    ensures |r| == Size(fs, it) - HEADER
  {
    match fs[it.field].kind
    case Uint(k) => Le(it.value.n, k)
    case _ => Le(|it.value.data|, 4) + it.value.data
  }

  function EncodeItem(fs: Schema, it: Item): (r: seq<byte>)
    requires ItemOk(fs, it)
    ensures |r| == Size(fs, it)
  {
    Header(fs[it.field]) + Body(fs, it)
  }

  /** An entry starts with its id and the number of its type; a number follows with as many
      bytes as its type has, data with four bytes of length. */
  lemma EntryBytes(fs: Schema, it: Item)
    requires ItemOk(fs, it) && FieldOk(fs[it.field])
    ensures var f := fs[it.field];
            var code := match f.kind
                        case Uint(k) => (if k == 1 then 1 else if k == 2 then 2 else if k == 4 then 3 else 4)
                        case Data => 5
                        case ConstData(_) => 6;
            EncodeItem(fs, it) ==
              [f.id % 0x100, f.id / 0x100, code, 0]
              + if f.kind.Uint? then Le(it.value.n, f.kind.bytes) else Le(|it.value.data|, 4) + it.value.data
  {
    hide Le;
    LeBytes(fs[it.field].id);
    LeBytes(TypeCode(fs[it.field].kind));
  }

  /** The entries one after another, built from the last. */
  function Encode(fs: Schema, items: seq<Item>): (r: seq<byte>)
    requires ItemsOk(fs, items)
  {
    if items == [] then []
    else Encode(fs, items[..|items| - 1]) + EncodeItem(fs, items[|items| - 1])
  }

  function TotalSize(fs: Schema, items: seq<Item>): nat
    requires ItemsOk(fs, items)
  {
    if items == [] then 0
    else TotalSize(fs, items[..|items| - 1]) + Size(fs, items[|items| - 1])
  }

  /** As many bytes are written as the SIZE macros add up to. */
  lemma {:induction false} EncodeSize(fs: Schema, items: seq<Item>)
    requires ItemsOk(fs, items)
    ensures |Encode(fs, items)| == TotalSize(fs, items)
  {
    if items != [] { EncodeSize(fs, items[..|items| - 1]); }
  }

  lemma {:induction false} EncodeConcat(fs: Schema, a: seq<Item>, b: seq<Item>)
    requires ItemsOk(fs, a) && ItemsOk(fs, b)
    ensures ItemsOk(fs, a + b) && Encode(fs, a + b) == Encode(fs, a) + Encode(fs, b)
    decreases |b|
  {
    hide ItemOk, EncodeItem;
    if b == [] {
      assert a + b == a;
    } else {
      var init := b[..|b| - 1];
      EncodeConcat(fs, a, init);
      assert (a + b)[|a + b| - 1] == b[|b| - 1];
      assert (a + b)[..|a + b| - 1] == a + init;
      var x, y, z := Encode(fs, a), Encode(fs, init), EncodeItem(fs, b[|b| - 1]);
      assert (x + y) + z == x + (y + z);
    }
  }

  // ----- cardinalities

  function Count(items: seq<Item>, i: nat): nat {
    if items == [] then 0
    else Count(items[..|items| - 1], i) + if items[|items| - 1].field == i then 1 else 0
  }

  predicate CountOk(c: Cardinality, n: nat) {
    match c
    case Optional => n <= 1
    case Required => n == 1
    case Repeated => true
    case RequiredRepeated => n >= 1
  }

  predicate Meets(fs: Schema, items: seq<Item>) {
    forall i :: 0 <= i < |fs| ==> CountOk(fs[i].cardinality, Count(items, i))
  }

  // ----- decoding

  function FindUint(fs: Schema, k: nat, id: nat): (r: Option<nat>)
    ensures r.Some? ==> r.value < |fs| && fs[r.value].kind == Uint(k) && fs[r.value].id == id
    ensures r.None? ==> forall i :: 0 <= i < |fs| ==> !(fs[i].kind == Uint(k) && fs[i].id == id)
  {
    if fs == [] then None
    else if fs[|fs| - 1].kind == Uint(k) && fs[|fs| - 1].id == id then Some(|fs| - 1)
    else FindUint(fs[..|fs| - 1], k, id)
  }

  function FindData(fs: Schema, id: nat): (r: Option<nat>)
    ensures r.Some? ==> r.value < |fs| && !fs[r.value].kind.Uint? && fs[r.value].id == id
    ensures r.None? ==> forall i :: 0 <= i < |fs| ==> fs[i].kind.Uint? || fs[i].id != id
  {
    if fs == [] then None
    else if !fs[|fs| - 1].kind.Uint? && fs[|fs| - 1].id == id then Some(|fs| - 1)
    else FindData(fs[..|fs| - 1], id)
  }

  lemma FindUnique(fs: Schema, i: nat)
    requires SchemaOk(fs) && i < |fs|
    ensures fs[i].kind.Uint? ==> FindUint(fs, fs[i].kind.bytes, fs[i].id) == Some(i)
    ensures !fs[i].kind.Uint? ==> FindData(fs, fs[i].id) == Some(i)
  {
    var r := if fs[i].kind.Uint? then FindUint(fs, fs[i].kind.bytes, fs[i].id) else FindData(fs, fs[i].id);
    assert r.Some? && Clash(fs[i], fs[r.value]) && Clash(fs[r.value], fs[i]);
  }

  function IdAt(s: seq<byte>, o: nat): nat
    requires o + HEADER <= |s|
  {
    FromLe(s[o..o + 2])
  }

  function TypeAt(s: seq<byte>, o: nat): nat
    requires o + HEADER <= |s|
  {
    FromLe(s[o + 2..o + 4])
  }

  function NumberAt(s: seq<byte>, o: nat, k: nat): nat
    requires o + HEADER + k <= |s|
  {
    FromLe(s[o + HEADER..o + HEADER + k])
  }

  /** The payload behind a data header. */
  function PayloadAt(s: seq<byte>, o: nat, len: nat): seq<byte>
    requires o + HEADER + 4 + len <= |s|
  {
    s[o + HEADER + 4..o + HEADER + 4 + len]
  }

  /** The known, well-formed entry at an offset, if there is one. */
  function ReadItem(fs: Schema, s: seq<byte>, o: nat): Option<Item>
    requires o <= |s|
  {
    if |s| - o < HEADER then None
    else if 1 <= TypeAt(s, o) <= 4 then ReadUint(fs, s, o, Width(TypeAt(s, o)))
    else if TypeAt(s, o) == DATA || TypeAt(s, o) == CONSTDATA then ReadData(fs, s, o)
    else None
  }

  function ReadUint(fs: Schema, s: seq<byte>, o: nat, k: nat): Option<Item>
    requires o + HEADER <= |s|
  {
    if |s| - o - HEADER < k then None
    else
      var f := FindUint(fs, k, IdAt(s, o));
      if f.None? then None else Some(Item(f.value, Number(NumberAt(s, o, k))))
  }

  function ReadData(fs: Schema, s: seq<byte>, o: nat): Option<Item>
    requires o + HEADER <= |s|
  {
    if |s| - o - HEADER < 4 then None
    else
      var len := NumberAt(s, o, 4);
      if |s| - o - HEADER - 4 < len then None
      else
        var f := FindData(fs, IdAt(s, o));
        if f.None? then None
        else
          var kind := fs[f.value].kind;
          if TypeAt(s, o) != TypeCode(kind) || (kind.ConstData? && len != kind.size) then None
          else Some(Item(f.value, Bytes(PayloadAt(s, o, len))))
  }

  predicate StandsAt(fs: Schema, s: seq<byte>, o: nat, it: Item)
    requires ItemOk(fs, it)
  {
    o + Size(fs, it) <= |s| && s[o..o + Size(fs, it)] == EncodeItem(fs, it)
  }

  /** What an encoded entry looks like to the parser. */
  lemma Layout(fs: Schema, s: seq<byte>, o: nat, it: Item)
    requires SchemaOk(fs) && ItemOk(fs, it) && StandsAt(fs, s, o, it)
    ensures o + HEADER <= |s| && IdAt(s, o) == fs[it.field].id && TypeAt(s, o) == TypeCode(fs[it.field].kind)
    ensures it.value.Number? ==>
              o + HEADER + fs[it.field].kind.bytes <= |s| && NumberAt(s, o, fs[it.field].kind.bytes) == it.value.n
    ensures it.value.Bytes? ==>
              && o + HEADER + 4 + |it.value.data| <= |s|
              && NumberAt(s, o, 4) == |it.value.data| && PayloadAt(s, o, |it.value.data|) == it.value.data
  {
    assert FieldOk(fs[it.field]);
    HeaderLayout(fs, s, o, it);
    BodyLayout(fs, s, o, it);
    hide SchemaOk, StandsAt, IdAt, TypeAt, NumberAt, PayloadAt;
  }

  lemma HeaderLayout(fs: Schema, s: seq<byte>, o: nat, it: Item)
    requires ItemOk(fs, it) && FieldOk(fs[it.field]) && StandsAt(fs, s, o, it)
    ensures o + HEADER <= |s| && IdAt(s, o) == fs[it.field].id && TypeAt(s, o) == TypeCode(fs[it.field].kind)
  {
    hide Le, FromLe, Body, TypeCode, Pow256;
    var f, e := fs[it.field], EncodeItem(fs, it);
    Powers();
    FromLeLe(f.id, 2);
    FromLeLe(TypeCode(f.kind), 2);
    Slice(s, o, e, 0, 2);
    Slice(s, o, e, 2, 4);
    assert e[0..2] == Le(f.id, 2) && e[2..4] == Le(TypeCode(f.kind), 2);
  }

  lemma BodyLayout(fs: Schema, s: seq<byte>, o: nat, it: Item)
    requires SchemaOk(fs) && ItemOk(fs, it) && StandsAt(fs, s, o, it)
    ensures it.value.Number? ==>
              o + HEADER + fs[it.field].kind.bytes <= |s| && NumberAt(s, o, fs[it.field].kind.bytes) == it.value.n
    ensures it.value.Bytes? ==>
              && o + HEADER + 4 + |it.value.data| <= |s|
              && NumberAt(s, o, 4) == |it.value.data| && PayloadAt(s, o, |it.value.data|) == it.value.data
  {
    assert FieldOk(fs[it.field]);
    hide SchemaOk, Le, FromLe;
    if it.value.Number? { NumberLayout(fs, s, o, it); } else { BytesLayout(fs, s, o, it); }
  }

  lemma NumberLayout(fs: Schema, s: seq<byte>, o: nat, it: Item)
    requires ItemOk(fs, it) && StandsAt(fs, s, o, it) && it.value.Number?
    ensures o + HEADER + fs[it.field].kind.bytes <= |s| && NumberAt(s, o, fs[it.field].kind.bytes) == it.value.n
  {
    hide Le, FromLe, Pow256, Header;
    var e, k := EncodeItem(fs, it), fs[it.field].kind.bytes;
    FromLeLe(it.value.n, k);
    Slice(s, o, e, 4, 4 + k);
    assert e[4..4 + k] == Le(it.value.n, k);
  }

  lemma BytesLayout(fs: Schema, s: seq<byte>, o: nat, it: Item)
    requires ItemOk(fs, it) && FieldOk(fs[it.field]) && StandsAt(fs, s, o, it) && it.value.Bytes?
    ensures && o + HEADER + 4 + |it.value.data| <= |s|
            && NumberAt(s, o, 4) == |it.value.data| && PayloadAt(s, o, |it.value.data|) == it.value.data
  {
    hide Le, FromLe, Pow256, Header;
    var e, n := EncodeItem(fs, it), |it.value.data|;
    Powers();
    FromLeLe(n, 4);
    Slice(s, o, e, 4, 8);
    Slice(s, o, e, 8, 8 + n);
    assert e[4..8] == Le(n, 4) && e[8..8 + n] == it.value.data;
  }

  lemma Slice(s: seq<byte>, o: nat, e: seq<byte>, a: nat, b: nat)
    requires o + |e| <= |s| && s[o..o + |e|] == e && a <= b <= |e|
    ensures s[o + a..o + b] == e[a..b]
  {
    forall k | 0 <= k < b - a ensures s[o + a..o + b][k] == e[a..b][k] {
      assert e[a + k] == s[o..o + |e|][a + k] == s[o + a + k];
    }
  }

  lemma Cut(s: seq<byte>, o: nat, a: nat, b: nat)
    requires o + a + b <= |s|
    ensures s[o..o + a + b] == s[o..o + a] + s[o + a..o + a + b]
  {
  }

  lemma ReadEncoded(fs: Schema, s: seq<byte>, o: nat, it: Item)
    requires SchemaOk(fs) && ItemOk(fs, it) && StandsAt(fs, s, o, it)
    ensures ReadItem(fs, s, o) == Some(it)
  {
    Layout(fs, s, o, it);
    FindUnique(fs, it.field);
    assert FieldOk(fs[it.field]);
    hide IdAt, TypeAt, NumberAt, PayloadAt, FindUint, FindData, EncodeItem, SchemaOk;
  }

  lemma ReadIsEncoded(fs: Schema, s: seq<byte>, o: nat)
    requires SchemaOk(fs) && o <= |s| && ReadItem(fs, s, o).Some?
    ensures ItemOk(fs, ReadItem(fs, s, o).value) && StandsAt(fs, s, o, ReadItem(fs, s, o).value)
  {
    var it := ReadItem(fs, s, o).value;
    var f, t := fs[it.field], TypeAt(s, o);
    assert FieldOk(f);
    HeaderRead(s, o, f);
    Powers();
    hide SchemaOk, Le, FindUint, FindData, IdAt, TypeAt, EncodeItem, FromLe;
    if it.value.Number? {
      UintRead(fs, s, o, it);
    } else {
      DataRead(fs, s, o, it);
    }
  }

  lemma HeaderRead(s: seq<byte>, o: nat, f: Field)
    requires o + HEADER <= |s| && IdAt(s, o) == f.id && TypeAt(s, o) == TypeCode(f.kind)
    ensures s[o..o + HEADER] == Header(f)
  {
    LeFromLe(s[o..o + 2]);
    LeFromLe(s[o + 2..o + 4]);
    assert s[o..o + 4] == s[o..o + 2] + s[o + 2..o + 4];
  }

  lemma UintRead(fs: Schema, s: seq<byte>, o: nat, it: Item)
    requires ItemOk(fs, it) && it.value.Number? && o + Size(fs, it) <= |s|
    requires s[o..o + HEADER] == Header(fs[it.field])
    requires NumberAt(s, o, fs[it.field].kind.bytes) == it.value.n
    ensures StandsAt(fs, s, o, it)
  {
    hide FromLe, Le, Header;
    var k := fs[it.field].kind.bytes;
    LeFromLe(s[o + 4..o + 4 + k]);
    assert Body(fs, it) == s[o + 4..o + 4 + k];
    Cut(s, o, 4, k);
    hide Body, NumberAt;
  }

  lemma DataRead(fs: Schema, s: seq<byte>, o: nat, it: Item)
    requires ItemOk(fs, it) && it.value.Bytes? && o + Size(fs, it) <= |s|
    requires s[o..o + HEADER] == Header(fs[it.field])
    requires NumberAt(s, o, 4) == |it.value.data| && PayloadAt(s, o, |it.value.data|) == it.value.data
    ensures StandsAt(fs, s, o, it)
  {
    hide FromLe, Le, Header;
    var n := |it.value.data|;
    LeFromLe(s[o + 4..o + 8]);
    Cut(s, o + 4, 4, n);
    assert Body(fs, it) == s[o + 4..o + 8 + n];
    Cut(s, o, 4, 4 + n);
    hide Body, NumberAt, PayloadAt;
  }
}
