/** The generated Parser of bproto_generator/bproto_functions.php, for any schema. */
module BProtoParser {
  import opened Wrappers
  import opened LittleEndian
  import opened BProto
  import opened BProtoIndex

  /** The parser's three numbers for one field. */
  datatype Slot = Slot(start: int, span: int, pos: int)

  class Parser {
    const fs: Schema
    const buf: array<byte>
    var slots: seq<Slot>

    ghost var items: seq<Item>
    ghost var cursor: seq<nat>

    /** The index is that of the entries the buffer holds, and each position is at an entry. */
    ghost predicate Valid()
      reads this, buf
    {
      && SchemaOk(fs) && ItemsOk(fs, items) && buf[..] == Encode(fs, items)
      && |slots| == |cursor| == |fs|
      && forall i :: 0 <= i < |fs| ==> SlotOk(fs, items, buf.Length, i, slots[i], cursor[i])
    }

    /** The values Get has yet to return for a field. */
    ghost function Remaining(i: nat): seq<Value>
      reads this
    {
      Left(items, i, cursor)
    }

    constructor (fs: Schema, buf: array<byte>)
      ensures this.fs == fs && this.buf == buf
    {
      this.fs, this.buf := fs, buf;
      slots, items, cursor := [], [], [];
    }

    /** Accepts the buffer if and only if it is a message, and then has every value of every
        field yet to be got: one of each required field. */
    method Init() returns (ok: bool)
      requires SchemaOk(fs)
      modifies this
      ensures ok <==> Accepts(fs, buf[..])
      ensures ok ==> Valid() && Conforms(fs, items)
      ensures ok ==> forall i :: 0 <= i < |fs| ==> Remaining(i) == ValuesFrom(items, i, 0)
    {
      ParseDecides(fs, buf[..]);
      var count := Scan();
      if count.None? {
        return false;
      }
      cursor := Firsts(items, |fs|);
      Scanned(fs, buf[..], items, slots, count.value);
      hide Accepts, ParseFrom, Loaded, SchemaOk, ItemsOk, SlotOk, Firsts;
      ok := CheckCardinalities(count.value);
    }

    /** The loop over the entries, which counts those of each field. */
    method Scan() returns (r: Option<seq<nat>>)
      requires SchemaOk(fs)
      modifies this`slots, this`items
      ensures r.Some? <==> ParseFrom(fs, buf[..], 0).Some?
      ensures r.Some? ==> ParseFrom(fs, buf[..], 0) == Some(items) && Loaded(fs, buf.Length, items, slots, r.value)
    {
      slots := seq(|fs|, _ => Slot(buf.Length, 0, 0));
      var count: seq<nat> := seq(|fs|, _ => 0);
      items := [];
      var at: nat := 0;
      ScanStart(fs, buf[..], slots, count);
      hide ParseFrom, Scanning, SchemaOk, Extended, EntryAt;
      while at < buf.Length
        invariant Scanning(fs, buf[..], at, items, slots, count) && at <= buf.Length
        decreases buf.Length - at
      {
        var r := ReadEntry(at);
        ScanStep(fs, buf[..], at, items, slots, count, r);
        if r.None? {
          return None;
        }
        var (f, next) := r.value;
        items := items + [ReadItem(fs, buf[..], at).value];
        slots := slots[f := Extended(slots[f], buf.Length, at, next)];
        count := count[f := count[f] + 1];
        at := next;
      }
      ScanEnd(fs, buf[..], items, slots, count);
      r := Some(count);
    }

    method CheckCardinalities(count: seq<nat>) returns (ok: bool)
      requires |count| == |fs|
      ensures ok <==> forall i :: 0 <= i < |fs| ==>
                && (fs[i].cardinality.Required? ==> count[i] == 1)
                && (fs[i].cardinality.RequiredRepeated? ==> count[i] > 0)
                && (fs[i].cardinality.Optional? ==> count[i] <= 1)
    {
      for i := 0 to |fs|
        invariant forall j :: 0 <= j < i ==> CountOk(fs[j].cardinality, count[j])
      {
        if !CountOk(fs[i].cardinality, count[i]) {
          return false;
        }
      }
      return true;
    }

    /** Reads one entry: its field and where it ends, or None where the parser gives up. */
    method ReadEntry(entryPos: nat) returns (r: Option<(nat, nat)>)
      requires SchemaOk(fs) && entryPos < buf.Length
      ensures EntryAt(fs, buf[..], entryPos, r)
    {
      hide IdAt, TypeAt, NumberAt, PayloadAt, FindUint, FindData, SchemaOk, StandsAt, ItemOk;
      if ReadItem(fs, buf[..], entryPos).Some? { ReadIsEncoded(fs, buf[..], entryPos); }
      if buf.Length - entryPos < HEADER {
        return None;
      }
      var kind := TypeAt(buf[..], entryPos);
      if 1 <= kind <= 4 {
        r := ReadUintEntry(entryPos, Width(kind));
      } else if kind == DATA || kind == CONSTDATA {
        r := ReadDataEntry(entryPos, kind);
      } else {
        r := None;
      }
    }

    method ReadUintEntry(entryPos: nat, k: nat) returns (r: Option<(nat, nat)>)
      requires entryPos + HEADER <= buf.Length
      ensures var it := ReadUint(fs, buf[..], entryPos, k);
              r == if it.None? then None else Some((it.value.field, entryPos + HEADER + k))
    {
      if buf.Length - entryPos - HEADER < k {
        return None;
      }
      var f := FindUint(fs, k, IdAt(buf[..], entryPos));
      return if f.None? then None else Some((f.value, entryPos + HEADER + k));
    }

    method ReadDataEntry(entryPos: nat, kind: nat) returns (r: Option<(nat, nat)>)
      requires entryPos + HEADER <= buf.Length && kind == TypeAt(buf[..], entryPos)
      ensures var it := ReadData(fs, buf[..], entryPos);
              r == if it.None? then None else Some((it.value.field, entryPos + HEADER + 4 + |it.value.value.data|))
    {
      if buf.Length - entryPos - HEADER < 4 {
        return None;
      }
      var len := NumberAt(buf[..], entryPos, 4);
      if buf.Length - entryPos - HEADER - 4 < len {
        return None;
      }
      var f := FindData(fs, IdAt(buf[..], entryPos));
      if f.None? || kind != TypeCode(fs[f.value].kind) {
        return None;
      }
      if fs[f.value].kind.ConstData? && len != fs[f.value].kind.size {
        return None;
      }
      return Some((f.value, entryPos + HEADER + 4 + len));
    }

    /** Reads the entry at a field's position: its value if it is the field's, and the position
        behind it. Every ASSERT of the code holds. */
    method Take(i: nat, slot: Slot, ghost n: nat) returns (value: Option<Value>, pos: int)
      requires Valid() && i < |fs| && SlotOk(fs, items, buf.Length, i, slot, n) && slot.pos < slot.span
      ensures n < |items| && pos == slot.pos + Size(fs, items[n])
      ensures value == if items[n].field == i then Some(items[n].value) else None
    {
      hide Valid, SlotOk, ItemsOk, ItemOk, SchemaOk, IdAt, TypeAt, NumberAt, PayloadAt, Size, Hit;
      Shape();
      TakeFacts(fs, buf[..], items, i, slot, n);
      var at, left := slot.start + slot.pos, slot.span - slot.pos;
      assert left >= HEADER;
      var kind, id := TypeAt(buf[..], at), IdAt(buf[..], at);
      left := left - HEADER;
      if 1 <= kind <= 4 {
        var k := Width(kind);
        assert left >= k;
        var v := NumberAt(buf[..], at, k);
        return if Hit(fs[i], kind, id) then Some(Number(v)) else None, slot.pos + HEADER + k;
      }
      assert kind == DATA || kind == CONSTDATA;
      assert left >= 4;
      var len := NumberAt(buf[..], at, 4);
      left := left - 4;
      assert left >= len;
      var payload := PayloadAt(buf[..], at, len);
      return if Hit(fs[i], kind, id) then Some(Bytes(payload)) else None, slot.pos + HEADER + 4 + len;
    }

    lemma Shape()
      requires Valid()
      ensures SchemaOk(fs) && ItemsOk(fs, items) && buf[..] == Encode(fs, items)
      ensures buf.Length == TotalSize(fs, items) && |slots| == |cursor| == |fs|
      ensures forall i :: 0 <= i < |fs| ==> SlotOk(fs, items, buf.Length, i, slots[i], cursor[i])
    {
      EncodeSize(fs, items);
    }

    /** The loop of Get: on to the field's next value, or to the end of its span. */
    method Seek(i: nat, from: Slot, ghost m: nat) returns (r: Option<Value>, slot: Slot, ghost n: nat)
      requires Valid() && i < |fs| && SlotOk(fs, items, buf.Length, i, from, m)
      ensures slot == from.(pos := slot.pos) && from.pos <= slot.pos && (r.None? ==> slot.pos == slot.span)
      ensures SlotOk(fs, items, buf.Length, i, slot, n) && m <= n <= |items|
      ensures r.None? ==> ValuesFrom(items, i, m) == ValuesFrom(items, i, n) == []
      ensures r.Some? ==> ValuesFrom(items, i, m) == [r.value] + ValuesFrom(items, i, n)
    {
      hide Valid, SlotOk, ItemsOk, ItemOk, SchemaOk, Size, ValuesFrom, Sought;
      Shape();
      r, slot, n := None, from, m;
      SoughtNone(fs, items, buf.Length, i, slot, n);
      while slot.pos < slot.span && r.None?
        invariant slot == from.(pos := slot.pos) && from.pos <= slot.pos
        invariant SlotOk(fs, items, buf.Length, i, slot, n) && Sought(items, i, slot, m, n, r)
        decreases slot.span - slot.pos
      {
        var value, pos := Take(i, slot, n);
        SoughtNext(fs, items, buf.Length, i, slot, m, n);
        r, slot, n := value, slot.(pos := pos), n + 1;
      }
      SoughtEnd(items, i, slot, m, n, r);
    }

    /** The next value of the field, or None when there is none left. */
    method Get(i: nat) returns (r: Option<Value>)
      requires Valid() && i < |fs|
      modifies this`slots, this`cursor
      ensures Valid()
      ensures if old(Remaining(i)) == [] then r.None? && Remaining(i) == []
              else r == Some(old(Remaining(i))[0]) && Remaining(i) == old(Remaining(i))[1..]
      ensures forall j :: 0 <= j < |fs| && j != i ==> Remaining(j) == old(Remaining(j)) && slots[j] == old(slots)[j]
    {
      hide Valid, SlotOk, ItemsOk, ItemOk, SchemaOk, ValuesFrom;
      Shape();
      var slot;
      ghost var n;
      SlotLeft(fs, items, buf.Length, i, slots[i], cursor[i]);
      r, slot, n := Seek(i, slots[i], cursor[i]);
      slots := slots[i := slot];
      cursor := cursor[i := n];
      Whole();
    }

    lemma Whole()
      requires SchemaOk(fs) && ItemsOk(fs, items) && buf[..] == Encode(fs, items)
      requires |slots| == |cursor| == |fs|
      requires forall i :: 0 <= i < |fs| ==> SlotOk(fs, items, buf.Length, i, slots[i], cursor[i])
      ensures Valid()
    {
    }

    method Reset(i: nat)
      requires Valid() && i < |fs|
      modifies this`slots, this`cursor
      ensures Valid() && Remaining(i) == ValuesFrom(items, i, 0)
      ensures forall j :: 0 <= j < |fs| && j != i ==> Remaining(j) == old(Remaining(j)) && slots[j] == old(slots)[j]
    {
      hide SlotOk, SchemaOk, ItemsOk;
      SlotReset(fs, items, buf.Length, i, slots[i], cursor[i]);
      slots := slots[i := slots[i].(pos := 0)];
      cursor := cursor[i := First(items, i)];
    }

    method Forward(i: nat)
      requires Valid() && i < |fs|
      modifies this`slots, this`cursor
      ensures Valid() && Remaining(i) == []
      ensures forall j :: 0 <= j < |fs| && j != i ==> Remaining(j) == old(Remaining(j)) && slots[j] == old(slots)[j]
    {
      hide SlotOk, SchemaOk, ItemsOk;
      SlotForward(fs, items, buf.Length, i, slots[i], cursor[i]);
      slots := slots[i := slots[i].(pos := slots[i].span)];
      cursor := cursor[i := End(items, i)];
    }

    lemma Positions()
      requires Valid()
      ensures |slots| == |fs|
      ensures forall i :: 0 <= i < |fs| ==> (Remaining(i) == [] <==> slots[i].pos == slots[i].span)
    {
      hide Valid, SlotOk, SchemaOk, ItemsOk, ValuesFrom;
      Shape();
      forall i | 0 <= i < |fs| ensures Remaining(i) == [] <==> slots[i].pos == slots[i].span {
        SlotLeft(fs, items, buf.Length, i, slots[i], cursor[i]);
      }
    }

    /** True if and only if no field has a value left. */
    method GotEverything() returns (all: bool)
      requires Valid()
      ensures all <==> forall i :: 0 <= i < |fs| ==> Remaining(i) == []
    {
      hide Valid, Remaining;
      Positions();
      for i := 0 to |fs|
        invariant forall j :: 0 <= j < i ==> Remaining(j) == []
      {
        if slots[i].pos != slots[i].span {
          return false;
        }
      }
      return true;
    }
  }

  // ----- the index while the buffer is read

  function Behind(items: seq<Item>, rest: Option<seq<Item>>): Option<seq<Item>> {
    if rest.None? then None else Some(items + rest.value)
  }

  lemma BehindAgain(a: seq<Item>, b: seq<Item>, rest: Option<seq<Item>>)
    ensures Behind(a, Behind(b, rest)) == Behind(a + b, rest)
  {
    if rest.Some? { assert a + (b + rest.value) == a + b + rest.value; }
  }

  /** A slot of a field with an entry more. */
  function Extended(slot: Slot, len: nat, at: nat, next: nat): Slot {
    var from := if slot.start == len then at else slot.start;
    Slot(from, next - from, slot.pos)
  }

  /** The index and count of one field over the entries read so far. */
  ghost predicate FieldLoaded(fs: Schema, len: nat, items: seq<Item>, i: nat, slot: Slot, count: nat)
    requires ItemsOk(fs, items)
  {
    Indexed(fs, items, len, i, slot.start, slot.span) && slot.pos == 0 && count == Count(items, i)
  }

  ghost predicate Loaded(fs: Schema, len: nat, items: seq<Item>, slots: seq<Slot>, count: seq<nat>) {
    && ItemsOk(fs, items) && |slots| == |count| == |fs|
    && forall i :: 0 <= i < |fs| ==> FieldLoaded(fs, len, items, i, slots[i], count[i])
  }

  lemma Nothing(fs: Schema, len: nat, slots: seq<Slot>, count: seq<nat>)
    requires |slots| == |count| == |fs|
    requires forall i :: 0 <= i < |fs| ==> slots[i] == Slot(len, 0, 0) && count[i] == 0
    ensures Loaded(fs, len, [], slots, count) && TotalSize(fs, []) == 0
  {
  }

  lemma ParseEnds(fs: Schema, s: seq<byte>)
    requires SchemaOk(fs)
    ensures ParseFrom(fs, s, |s|) == Some([])
    ensures ParseFrom(fs, s, 0) == Behind([], ParseFrom(fs, s, 0))
  {
    assert ParseFrom(fs, s, 0).Some? ==> [] + ParseFrom(fs, s, 0).value == ParseFrom(fs, s, 0).value;
  }

  lemma ParseUnfold(fs: Schema, s: seq<byte>, at: nat)
    requires SchemaOk(fs) && at < |s|
    ensures var it := ReadItem(fs, s, at);
            if it.None? then ParseFrom(fs, s, at).None?
            else
              && ItemOk(fs, it.value) && at + Size(fs, it.value) <= |s|
              && ParseFrom(fs, s, at) == Behind([it.value], ParseFrom(fs, s, at + Size(fs, it.value)))
  {
    hide ReadItem, EncodeItem, Size, SchemaOk, ItemOk;
    if ReadItem(fs, s, at).Some? { ReadIsEncoded(fs, s, at); }
  }

  /** The entries read so far and those to come are the entries of the buffer. */
  lemma ParseNext(fs: Schema, s: seq<byte>, at: nat, items: seq<Item>)
    requires SchemaOk(fs) && at < |s|
    ensures var it := ReadItem(fs, s, at);
            if it.None? then ParseFrom(fs, s, at).None?
            else
              && ItemOk(fs, it.value) && at + Size(fs, it.value) <= |s|
              && Behind(items, ParseFrom(fs, s, at)) == Behind(items + [it.value], ParseFrom(fs, s, at + Size(fs, it.value)))
  {
    ParseUnfold(fs, s, at);
    hide ReadItem, EncodeItem, Size, SchemaOk, ItemOk, ParseFrom, Behind;
    var it := ReadItem(fs, s, at);
    if it.Some? { BehindAgain(items, [it.value], ParseFrom(fs, s, at + Size(fs, it.value))); }
  }

  lemma FieldNext(fs: Schema, len: nat, items: seq<Item>, it: Item, i: nat, slot: Slot, count: nat)
    requires ItemsOk(fs, items) && ItemOk(fs, it) && TotalSize(fs, items) < len
    requires FieldLoaded(fs, len, items, i, slot, count)
    ensures ItemsOk(fs, items + [it])
    ensures i != it.field ==> FieldLoaded(fs, len, items + [it], i, slot, count)
    ensures i == it.field ==>
              var next := Extended(slot, len, TotalSize(fs, items), TotalSize(fs, items + [it]));
              FieldLoaded(fs, len, items + [it], i, next, count + 1)
  {
    hide ItemOk, Size, Indexed, ItemsOk, TotalSize, Count;
    MoreItems(fs, items, it);
    MoreCount(items, it, i);
    if i == it.field {
      IndexSame(fs, items, len, it, slot.start, slot.span);
    } else {
      IndexOther(fs, items, len, it, i, slot.start, slot.span);
    }
  }

  lemma LoadedNext(fs: Schema, len: nat, items: seq<Item>, it: Item, slots: seq<Slot>, count: seq<nat>)
    requires Loaded(fs, len, items, slots, count) && ItemOk(fs, it) && TotalSize(fs, items) < len
    ensures it.field < |fs| == |slots| == |count|
    ensures ItemsOk(fs, items + [it]) && TotalSize(fs, items + [it]) == TotalSize(fs, items) + Size(fs, it)
    ensures var slot := Extended(slots[it.field], len, TotalSize(fs, items), TotalSize(fs, items + [it]));
            Loaded(fs, len, items + [it], slots[it.field := slot], count[it.field := count[it.field] + 1])
  {
    assert it.field < |fs|;
    hide ItemOk, Size, FieldLoaded, ItemsOk, TotalSize, Extended;
    MoreItems(fs, items, it);
    var more, f := items + [it], it.field;
    var slot := Extended(slots[f], len, TotalSize(fs, items), TotalSize(fs, more));
    FieldNext(fs, len, items, it, f, slots[f], count[f]);
    var slots', count' := slots[f := slot], count[f := count[f] + 1];
    forall i | 0 <= i < |fs|
      ensures FieldLoaded(fs, len, more, i, slots'[i], count'[i])
    {
      FieldNext(fs, len, items, it, i, slots[i], count[i]);
    }
  }

  lemma MoreItems(fs: Schema, items: seq<Item>, it: Item)
    requires ItemsOk(fs, items) && ItemOk(fs, it)
    ensures ItemsOk(fs, items + [it]) && TotalSize(fs, items + [it]) == TotalSize(fs, items) + Size(fs, it)
  {
    hide ItemOk, Size;
    assert (items + [it])[..|items + [it]| - 1] == items;
  }

  lemma MoreCount(items: seq<Item>, it: Item, i: nat)
    ensures Count(items + [it], i) == Count(items, i) + if it.field == i then 1 else 0
  {
    assert (items + [it])[..|items + [it]| - 1] == items;
  }

  /** The state of the loop over the entries of the buffer, at an offset. */
  ghost predicate Scanning(fs: Schema, s: seq<byte>, at: nat, items: seq<Item>, slots: seq<Slot>, count: seq<nat>)
    requires SchemaOk(fs)
  {
    && at <= |s| && Loaded(fs, |s|, items, slots, count) && at == TotalSize(fs, items)
    && ParseFrom(fs, s, 0) == Behind(items, ParseFrom(fs, s, at))
  }

  lemma ScanStart(fs: Schema, s: seq<byte>, slots: seq<Slot>, count: seq<nat>)
    requires SchemaOk(fs) && |slots| == |count| == |fs|
    requires forall i :: 0 <= i < |fs| ==> slots[i] == Slot(|s|, 0, 0) && count[i] == 0
    ensures Scanning(fs, s, 0, [], slots, count)
  {
    Nothing(fs, |s|, slots, count);
    ParseEnds(fs, s);
    hide ParseFrom, SchemaOk;
  }

  lemma ScanStep(fs: Schema, s: seq<byte>, at: nat, items: seq<Item>, slots: seq<Slot>, count: seq<nat>, r: Option<(nat, nat)>)
    requires SchemaOk(fs) && at < |s| && Scanning(fs, s, at, items, slots, count) && EntryAt(fs, s, at, r)
    ensures r.None? ==> ParseFrom(fs, s, 0).None?
    ensures r.Some? ==>
              && ReadItem(fs, s, at).Some? && at < r.value.1 <= |s| && r.value.0 < |slots| == |count|
              && Scanning(fs, s, r.value.1, items + [ReadItem(fs, s, at).value],
                          slots[r.value.0 := Extended(slots[r.value.0], |s|, at, r.value.1)],
                          count[r.value.0 := count[r.value.0] + 1])
  {
    hide ParseFrom, Scanning, SchemaOk, ItemOk, ReadItem, Extended, Size, Behind;
    ParseNext(fs, s, at, items);
    if r.Some? {
      ScanNext(fs, s, at, items, ReadItem(fs, s, at).value, slots, count);
    } else {
      ScanFails(fs, s, at, items, slots, count);
    }
  }

  lemma ScanFails(fs: Schema, s: seq<byte>, at: nat, items: seq<Item>, slots: seq<Slot>, count: seq<nat>)
    requires SchemaOk(fs) && at < |s| && Scanning(fs, s, at, items, slots, count) && ParseFrom(fs, s, at).None?
    ensures ParseFrom(fs, s, 0).None?
  {
    hide ParseFrom, SchemaOk;
  }

  lemma ScanNext(fs: Schema, s: seq<byte>, at: nat, items: seq<Item>, it: Item, slots: seq<Slot>, count: seq<nat>)
    requires SchemaOk(fs) && at < |s| && Scanning(fs, s, at, items, slots, count)
    requires ItemOk(fs, it) && at + Size(fs, it) <= |s|
    requires Behind(items, ParseFrom(fs, s, at)) == Behind(items + [it], ParseFrom(fs, s, at + Size(fs, it)))
    ensures it.field < |fs| == |slots| == |count|
    ensures Scanning(fs, s, at + Size(fs, it), items + [it],
                     slots[it.field := Extended(slots[it.field], |s|, at, at + Size(fs, it))],
                     count[it.field := count[it.field] + 1])
  {
    hide ParseFrom, SchemaOk, ItemOk, Behind, Size, Extended, Loaded;
    LoadedNext(fs, |s|, items, it, slots, count);
  }

  lemma ScanEnd(fs: Schema, s: seq<byte>, items: seq<Item>, slots: seq<Slot>, count: seq<nat>)
    requires SchemaOk(fs) && Scanning(fs, s, |s|, items, slots, count)
    ensures ParseFrom(fs, s, 0) == Some(items) && Loaded(fs, |s|, items, slots, count)
  {
    ParseEnds(fs, s);
    assert items + [] == items;
  }

  /** The field of the entry at an offset and where the entry ends, if there is one. */
  ghost predicate EntryAt(fs: Schema, s: seq<byte>, o: nat, r: Option<(nat, nat)>)
    requires o <= |s|
  {
    var it := ReadItem(fs, s, o);
    && (r.Some? <==> it.Some?)
    && (r.Some? ==> ItemOk(fs, it.value) && r.value == (it.value.field, o + Size(fs, it.value)))
  }

  // ----- the index once the buffer is read

  ghost predicate SlotOk(fs: Schema, items: seq<Item>, len: nat, i: nat, slot: Slot, n: nat)
    requires ItemsOk(fs, items)
  {
    Indexed(fs, items, len, i, slot.start, slot.span) && CursorAt(fs, items, i, slot.pos, n)
  }

  /** Whether an entry of the type and id is the field's. */
  predicate Hit(f: Field, kind: nat, id: nat) {
    kind == TypeCode(f.kind) && id == f.id
  }

  lemma HitIsField(fs: Schema, i: nat, j: nat)
    requires SchemaOk(fs) && i < |fs| && j < |fs|
    ensures Hit(fs[i], TypeCode(fs[j].kind), fs[j].id) <==> i == j
  {
    assert FieldOk(fs[i]) && FieldOk(fs[j]);
    if i < j { assert !Clash(fs[i], fs[j]); }
    if j < i { assert !Clash(fs[j], fs[i]); }
  }

  lemma SlotPosition(fs: Schema, items: seq<Item>, len: nat, i: nat, slot: Slot, n: nat)
    requires ItemsOk(fs, items) && SlotOk(fs, items, len, i, slot, n) && len == TotalSize(fs, items)
    ensures n <= End(items, i) && slot.start == Offset(fs, items, First(items, i))
    ensures slot.start + slot.pos == Offset(fs, items, n)
    ensures slot.start + slot.span == Offset(fs, items, End(items, i)) <= len
  {
    hide TotalSize, ItemOk;
    assert items[..|items|] == items;
    if End(items, i) < |items| { OffsetGrows(fs, items, End(items, i), |items|); }
  }

  lemma SlotLeft(fs: Schema, items: seq<Item>, len: nat, i: nat, slot: Slot, n: nat)
    requires ItemsOk(fs, items) && SlotOk(fs, items, len, i, slot, n) && len == TotalSize(fs, items)
    ensures n <= |items| && 0 <= slot.pos <= slot.span
    ensures slot.pos == slot.span <==> ValuesFrom(items, i, n) == []
  {
    SlotPosition(fs, items, len, i, slot, n);
    ValuesLeft(items, i, n);
    hide ItemOk, Offset, ValuesFrom;
    if n < End(items, i) { OffsetGrows(fs, items, n, End(items, i)); }
    if First(items, i) < n { OffsetGrows(fs, items, First(items, i), n); }
  }

  /** What Take finds in the buffer. */
  lemma TakeFacts(fs: Schema, s: seq<byte>, items: seq<Item>, i: nat, slot: Slot, n: nat)
    requires SchemaOk(fs) && ItemsOk(fs, items) && s == Encode(fs, items) && |s| == TotalSize(fs, items) && i < |fs|
    requires SlotOk(fs, items, |s|, i, slot, n) && slot.pos < slot.span
    ensures n < |items| && 0 <= slot.start + slot.pos
    ensures ItemAt(fs, s, slot.start + slot.pos, slot.span - slot.pos, items[n])
    ensures Hit(fs[i], TypeAt(s, slot.start + slot.pos), IdAt(s, slot.start + slot.pos)) <==> items[n].field == i
  {
    hide SchemaOk, SlotOk, Encode, StandsAt, IdAt, TypeAt, NumberAt, PayloadAt, Size, Offset, TypeCode, Hit, Width;
    SlotPosition(fs, items, |s|, i, slot, n);
    SlotLeft(fs, items, |s|, i, slot, n);
    var it, at := items[n], slot.start + slot.pos;
    OffsetGrows(fs, items, n, End(items, i));
    Stands(fs, items, n);
    AtEntry(fs, s, at, slot.span - slot.pos, it);
    HitIsField(fs, i, it.field);
  }

  /** An entry at an offset with no less than its size left, as the parser reads it. */
  ghost predicate ItemAt(fs: Schema, s: seq<byte>, at: nat, left: int, it: Item) {
    && ItemOk(fs, it) && Size(fs, it) <= left && at + left <= |s|
    && TypeAt(s, at) == TypeCode(fs[it.field].kind) && IdAt(s, at) == fs[it.field].id
    && match it.value
       case Number(v) =>
         var k := Width(TypeAt(s, at));
         1 <= TypeAt(s, at) <= 4 && Size(fs, it) == HEADER + k && NumberAt(s, at, k) == v
       case Bytes(data) =>
         && (TypeAt(s, at) == DATA || TypeAt(s, at) == CONSTDATA) && Size(fs, it) == HEADER + 4 + |data|
         && NumberAt(s, at, 4) == |data| && PayloadAt(s, at, |data|) == data
  }

  lemma AtEntry(fs: Schema, s: seq<byte>, at: nat, left: int, it: Item)
    requires SchemaOk(fs) && ItemOk(fs, it) && StandsAt(fs, s, at, it) && Size(fs, it) <= left && at + left <= |s|
    ensures ItemAt(fs, s, at, left, it)
  {
    hide StandsAt, IdAt, TypeAt, NumberAt, PayloadAt;
    Layout(fs, s, at, it);
    assert FieldOk(fs[it.field]);
  }

  lemma SlotTaken(fs: Schema, items: seq<Item>, len: nat, i: nat, slot: Slot, n: nat)
    requires ItemsOk(fs, items) && SlotOk(fs, items, len, i, slot, n) && len == TotalSize(fs, items) && slot.pos < slot.span
    ensures n < |items|
    ensures var next := slot.(pos := slot.pos + Size(fs, items[n]));
            && SlotOk(fs, items, len, i, next, n + 1) && next.pos <= next.span
            && (next.pos == next.span <==> ValuesFrom(items, i, n + 1) == [])
    ensures ValuesFrom(items, i, n)
         == (if items[n].field == i then [items[n].value] else []) + ValuesFrom(items, i, n + 1)
  {
    hide ItemOk, Size, Offset;
    SlotLeft(fs, items, len, i, slot, n);
    ValuesLeft(items, i, n);
    OffsetNext(fs, items, n);
    SlotLeft(fs, items, len, i, slot.(pos := slot.pos + Size(fs, items[n])), n + 1);
  }

  /** The search from entry `m` has come to entry `n`, past the field's first value if it found it. */
  ghost predicate Sought(items: seq<Item>, i: nat, slot: Slot, m: nat, n: nat, r: Option<Value>) {
    && m <= n <= |items| && slot.pos <= slot.span
    && (slot.pos == slot.span <==> ValuesFrom(items, i, n) == [])
    && ValuesFrom(items, i, m) == (if r.None? then [] else [r.value]) + ValuesFrom(items, i, n)
  }

  lemma SoughtNone(fs: Schema, items: seq<Item>, len: nat, i: nat, slot: Slot, n: nat)
    requires ItemsOk(fs, items) && SlotOk(fs, items, len, i, slot, n) && len == TotalSize(fs, items)
    ensures Sought(items, i, slot, n, n, None)
  {
    hide SlotOk, ItemsOk, ValuesFrom;
    SlotLeft(fs, items, len, i, slot, n);
  }

  lemma SoughtNext(fs: Schema, items: seq<Item>, len: nat, i: nat, slot: Slot, m: nat, n: nat)
    requires ItemsOk(fs, items) && SlotOk(fs, items, len, i, slot, n) && len == TotalSize(fs, items)
    requires slot.pos < slot.span && Sought(items, i, slot, m, n, None)
    ensures n < |items|
    ensures var next := slot.(pos := slot.pos + Size(fs, items[n]));
            && SlotOk(fs, items, len, i, next, n + 1)
            && Sought(items, i, next, m, n + 1, if items[n].field == i then Some(items[n].value) else None)
  {
    hide SlotOk, ItemsOk, ValuesFrom, Size;
    SlotTaken(fs, items, len, i, slot, n);
  }

  lemma SoughtEnd(items: seq<Item>, i: nat, slot: Slot, m: nat, n: nat, r: Option<Value>)
    requires Sought(items, i, slot, m, n, r) && (slot.pos < slot.span ==> r.Some?)
    ensures m <= n <= |items| && (r.None? ==> ValuesFrom(items, i, m) == ValuesFrom(items, i, n) == [])
    ensures r.None? ==> slot.pos == slot.span
    ensures r.Some? ==> ValuesFrom(items, i, m) == [r.value] + ValuesFrom(items, i, n)
  {
  }

  lemma SlotReset(fs: Schema, items: seq<Item>, len: nat, i: nat, slot: Slot, n: nat)
    requires ItemsOk(fs, items) && SlotOk(fs, items, len, i, slot, n)
    ensures SlotOk(fs, items, len, i, slot.(pos := 0), First(items, i))
    ensures ValuesFrom(items, i, First(items, i)) == ValuesFrom(items, i, 0)
  {
    hide ItemOk;
    ValuesSkip(items, i, 0, First(items, i));
  }

  lemma SlotForward(fs: Schema, items: seq<Item>, len: nat, i: nat, slot: Slot, n: nat)
    requires ItemsOk(fs, items) && SlotOk(fs, items, len, i, slot, n)
    ensures SlotOk(fs, items, len, i, slot.(pos := slot.span), End(items, i))
    ensures ValuesFrom(items, i, End(items, i)) == []
  {
    hide ItemOk;
    ValuesLeft(items, i, End(items, i));
  }

  ghost function Left(items: seq<Item>, i: nat, cursor: seq<nat>): seq<Value> {
    if i < |cursor| && cursor[i] <= |items| then ValuesFrom(items, i, cursor[i]) else []
  }

  function Firsts(items: seq<Item>, n: nat): seq<nat> {
    seq(n, i requires 0 <= i < n => First(items, i))
  }

  lemma AtFirst(fs: Schema, items: seq<Item>)
    requires ItemsOk(fs, items)
    ensures forall i: nat :: CursorAt(fs, items, i, 0, First(items, i))
  {
    hide Offset, ItemsOk;
  }

  lemma Scanned(fs: Schema, s: seq<byte>, items: seq<Item>, slots: seq<Slot>, count: seq<nat>)
    requires SchemaOk(fs) && ParseFrom(fs, s, 0) == Some(items) && Loaded(fs, |s|, items, slots, count)
    ensures ItemsOk(fs, items) && s == Encode(fs, items) && |slots| == |count| == |fs|
    ensures forall i :: 0 <= i < |fs| ==> SlotOk(fs, items, |s|, i, slots[i], Firsts(items, |fs|)[i])
    ensures Conforms(fs, items) <==> forall i :: 0 <= i < |fs| ==> CountOk(fs[i].cardinality, count[i])
    ensures forall i :: 0 <= i < |fs| ==> Left(items, i, Firsts(items, |fs|)) == ValuesFrom(items, i, 0)
  {
    hide ItemOk, SchemaOk, ParseFrom, Indexed, ValuesFrom, Encode, Count, ItemsOk, Conforms;
    ParseSound(fs, s, 0);
    MeetsConforms(fs, items);
    assert s[0..] == s;
    AtFirst(fs, items);
    forall i | 0 <= i < |fs| ensures ValuesFrom(items, i, First(items, i)) == ValuesFrom(items, i, 0) {
      ValuesSkip(items, i, 0, First(items, i));
    }
  }
}
