/** The generated Writer of bproto_generator/bproto_functions.php, for any schema. */
module BProtoWriter {
  import opened Wrappers
  import opened LittleEndian
  import opened BProto
  import opened BProtoIndex

  class Writer {
    const fs: Schema
    const out: array<byte>
    var used: nat
    var count: seq<nat>

    ghost var items: seq<Item>

    /** What was written so far is the encoding of the entries added so far. */
    ghost predicate Valid()
      reads this, out
    {
      && ItemsOk(fs, items) && used <= out.Length && out[..used] == Encode(fs, items)
      && |count| == |fs| && forall i :: 0 <= i < |fs| ==> count[i] == Count(items, i)
    }

    constructor (fs: Schema, out: array<byte>)
      ensures Valid() && items == [] && this.fs == fs && this.out == out
    {
      this.fs, this.out, used := fs, out, 0;
      count := seq(|fs|, _ => 0);
      items := [];
    }

    /** Copies bytes behind what was written. */
    method Put(bytes: seq<byte>)
      requires used + |bytes| <= out.Length
      modifies this`used, out
      ensures used == old(used) + |bytes| && out[..used] == old(out[..used]) + bytes
    {
      for i := 0 to |bytes|
        invariant used == old(used)
        invariant out[..used + i] == old(out[..used]) + bytes[..i]
      {
        out[used + i] := bytes[i];
        assert out[..used + i + 1] == out[..used + i] + [bytes[i]];
        assert bytes[..i + 1] == bytes[..i] + [bytes[i]];
      }
      assert bytes[..|bytes|] == bytes;
      used := used + |bytes|;
    }

    /** What the caller must see to before an entry of field `i` is added. */
    ghost predicate MayAdd(i: nat, v: Value)
      reads this
      requires |count| == |fs|
    {
      && ItemOk(fs, Item(i, v)) && used + Size(fs, Item(i, v)) <= out.Length
      && (fs[i].cardinality.Optional? || fs[i].cardinality.Required? ==> count[i] == 0)
    }

    method AddNumber(i: nat, v: nat)
      requires Valid() && MayAdd(i, Number(v)) && fs[i].kind.Uint?
      modifies this, out
      ensures Valid() && items == old(items) + [Item(i, Number(v))]
    {
      ghost var it := Item(i, Number(v));
      Added(items, it);
      hide Encode, EncodeItem, Body, ItemsOk, Size, Count, Le;
      Put(Le(fs[i].id, 2) + Le(TypeCode(fs[i].kind), 2));
      Put(Le(v, fs[i].kind.bytes));
      Behind(old(out[..used]), it);
      count := count[i := count[i] + 1];
      items := items + [it];
    }

    /** Adds the entry and copies the data to the place returned for it. */
    method AddData(i: nat, data: seq<byte>)
      requires Valid() && MayAdd(i, Bytes(data)) && !fs[i].kind.Uint?
      modifies this, out
      ensures Valid() && items == old(items) + [Item(i, Bytes(data))]
    {
      ghost var it := Item(i, Bytes(data));
      Added(items, it);
      hide Encode, EncodeItem, Body, ItemsOk, Size, Count, Le;
      Put(Le(fs[i].id, 2) + Le(TypeCode(fs[i].kind), 2));
      Put(Le(|data|, 4));
      Put(data);
      Behind(old(out[..used]), it);
      count := count[i := count[i] + 1];
      items := items + [it];
    }

    lemma Behind(was: seq<byte>, it: Item)
      requires ItemOk(fs, it)
      ensures it.value.Number? ==>
                was + Header(fs[it.field]) + Le(it.value.n, fs[it.field].kind.bytes) == was + EncodeItem(fs, it)
      ensures it.value.Bytes? ==>
                was + Header(fs[it.field]) + Le(|it.value.data|, 4) + it.value.data == was + EncodeItem(fs, it)
    {
      hide Le, Header;
      var h := Header(fs[it.field]);
      if it.value.Number? {
        assert was + h + Body(fs, it) == was + (h + Body(fs, it));
      } else {
        var l, d := Le(|it.value.data|, 4), it.value.data;
        assert was + h + l + d == was + (h + (l + d));
      }
    }

    lemma Added(items: seq<Item>, it: Item)
      requires ItemsOk(fs, items) && ItemOk(fs, it)
      ensures ItemsOk(fs, items + [it]) && Encode(fs, items + [it]) == Encode(fs, items) + EncodeItem(fs, it)
      ensures forall i: nat :: Count(items + [it], i) == Count(items, i) + if it.field == i then 1 else 0
    {
      hide ItemOk, EncodeItem;
      assert (items + [it])[..|items + [it]| - 1] == items;
    }

    /** A message that meets the cardinalities is one the parser accepts, of as many bytes as
        the SIZE macros add up to. */
    method Finish() returns (n: nat)
      requires Valid() && forall i :: 0 <= i < |fs| ==> CountOk(fs[i].cardinality, count[i])
      ensures n == TotalSize(fs, items) <= out.Length && out[..n] == Encode(fs, items)
      ensures Accepts(fs, out[..n])
    {
      EncodeSize(fs, items);
      assert Meets(fs, items);
      MeetsConforms(fs, items);
      return used;
    }
  }
}
