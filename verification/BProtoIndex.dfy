/** What the parser of bproto_generator/bproto_functions.php accepts, and the index it keeps:
    for each field the span from its first entry to the end of its last, and a position. */
module BProtoIndex {
  import opened Wrappers
  import opened BProto

  // ----- acceptance

  /** The entries from an offset to the end of the buffer, if it is nothing but known,
      well-formed entries. */
  function ParseFrom(fs: Schema, s: seq<byte>, o: nat): Option<seq<Item>>
    requires SchemaOk(fs) && o <= |s|
    decreases |s| - o
  {
    if o == |s| then Some([])
    else
      var it := ReadItem(fs, s, o);
      if it.None? then None
      else
        ReadIsEncoded(fs, s, o);
        var rest := ParseFrom(fs, s, o + Size(fs, it.value));
        if rest.None? then None else Some([it.value] + rest.value)
  }

  lemma EncodeFront(fs: Schema, it: Item, rest: seq<Item>)
    requires ItemOk(fs, it) && ItemsOk(fs, rest)
    ensures ItemsOk(fs, [it] + rest) && Encode(fs, [it] + rest) == EncodeItem(fs, it) + Encode(fs, rest)
  {
    EncodeConcat(fs, [it], rest);
    hide ItemOk, EncodeItem;
    assert [it][..0] == [];
    assert Encode(fs, [it]) == EncodeItem(fs, it);
  }

  lemma Joined(fs: Schema, s: seq<byte>, o: nat, it: Item, rest: seq<Item>)
    requires ItemOk(fs, it) && StandsAt(fs, s, o, it)
    requires ItemsOk(fs, rest) && Encode(fs, rest) == s[o + Size(fs, it)..]
    ensures ItemsOk(fs, [it] + rest) && Encode(fs, [it] + rest) == s[o..]
  {
    hide EncodeItem, Encode, Size, ItemsOk;
    EncodeFront(fs, it, rest);
    assert s[o..] == s[o..o + Size(fs, it)] + s[o + Size(fs, it)..];
  }

  lemma Ends(fs: Schema, s: seq<byte>, o: nat, it: Item)
    requires ItemOk(fs, it) && StandsAt(fs, s, o, it)
    ensures o + Size(fs, it) <= |s|
  {
  }

  lemma {:induction false} ParseSound(fs: Schema, s: seq<byte>, o: nat)
    requires SchemaOk(fs) && o <= |s| && ParseFrom(fs, s, o).Some?
    ensures ItemsOk(fs, ParseFrom(fs, s, o).value) && Encode(fs, ParseFrom(fs, s, o).value) == s[o..]
    decreases |s| - o
  {
    if o < |s| {
      hide SchemaOk, ItemOk, ReadItem, EncodeItem, Encode, Size, ItemsOk, StandsAt;
      ReadIsEncoded(fs, s, o);
      var it := ReadItem(fs, s, o).value;
      Ends(fs, s, o, it);
      ParseSound(fs, s, o + Size(fs, it));
      Joined(fs, s, o, it, ParseFrom(fs, s, o + Size(fs, it)).value);
    } else {
      hide SchemaOk, ItemOk, ReadItem, EncodeItem, Size;
      assert s[o..] == [];
    }
  }

  lemma {:induction false} ParseComplete(fs: Schema, s: seq<byte>, o: nat, items: seq<Item>)
    requires SchemaOk(fs) && o <= |s| && ItemsOk(fs, items) && Encode(fs, items) == s[o..]
    ensures ParseFrom(fs, s, o) == Some(items)
    decreases |items|
  {
    hide ReadItem, SchemaOk, ItemOk, EncodeItem, Size;
    if items == [] {
      assert |s[o..]| == |s| - o;
    } else {
      var it, rest := items[0], items[1..];
      assert items == [it] + rest;
      EncodeFront(fs, it, rest);
      hide Encode;
      Prefix(s, o, EncodeItem(fs, it), Encode(fs, rest));
      ReadEncoded(fs, s, o, it);
      ParseComplete(fs, s, o + Size(fs, it), rest);
    }
  }

  lemma Prefix(s: seq<byte>, o: nat, a: seq<byte>, b: seq<byte>)
    requires o <= |s| && a + b == s[o..]
    ensures o + |a| <= |s| && s[o..o + |a|] == a && s[o + |a|..] == b
  {
    assert |s[o..]| == |s| - o;
    assert (a + b)[..|a|] == a && (a + b)[|a|..] == b;
  }

  /** A required field has exactly one value, a repeated one that is required at least one, and
      an optional one at most one. */
  ghost predicate Conforms(fs: Schema, items: seq<Item>) {
    forall i :: 0 <= i < |fs| ==>
      && (fs[i].cardinality.Required? ==> |ValuesFrom(items, i, 0)| == 1)
      && (fs[i].cardinality.RequiredRepeated? ==> |ValuesFrom(items, i, 0)| >= 1)
      && (fs[i].cardinality.Optional? ==> |ValuesFrom(items, i, 0)| <= 1)
  }

  /** A concatenation of known, well-formed entries that conforms to the cardinalities. */
  ghost predicate Accepts(fs: Schema, s: seq<byte>) {
    exists items :: ItemsOk(fs, items) && Encode(fs, items) == s && Conforms(fs, items)
  }

  lemma {:induction false} CountFrom(items: seq<Item>, i: nat, n: nat)
    requires n <= |items|
    ensures Count(items[..n], i) + |ValuesFrom(items, i, n)| == Count(items, i)
    decreases |items| - n
  {
    if n == |items| {
      assert items[..n] == items;
    } else {
      CountFrom(items, i, n + 1);
      assert items[..n + 1][..n] == items[..n];
    }
  }

  /** The checks on the counters accept exactly the conforming entries. */
  lemma MeetsConforms(fs: Schema, items: seq<Item>)
    ensures Meets(fs, items) <==> Conforms(fs, items)
  {
    forall i | 0 <= i < |fs| ensures Count(items, i) == |ValuesFrom(items, i, 0)| {
      CountFrom(items, i, 0);
      assert Count(items[..0], i) == 0;
    }
    hide Count, ValuesFrom;
  }

  /** A message can be read in one way only: whatever was written is what is found. */
  lemma Unambiguous(fs: Schema, a: seq<Item>, b: seq<Item>)
    requires SchemaOk(fs) && ItemsOk(fs, a) && ItemsOk(fs, b) && Encode(fs, a) == Encode(fs, b)
    ensures a == b
  {
    var s := Encode(fs, a);
    assert s[0..] == s;
    ParseComplete(fs, s, 0, a);
    ParseComplete(fs, s, 0, b);
  }

  /** Any message that conforms to the cardinalities is accepted, and the only entries it can be
      read as are those it was made of. */
  lemma RoundTrip(fs: Schema, items: seq<Item>)
    requires SchemaOk(fs) && ItemsOk(fs, items) && Conforms(fs, items)
    ensures Accepts(fs, Encode(fs, items)) && |Encode(fs, items)| == TotalSize(fs, items)
    ensures forall read :: ItemsOk(fs, read) && Encode(fs, read) == Encode(fs, items) ==> read == items
  {
    hide ItemsOk, Conforms, SchemaOk, Encode, TotalSize;
    EncodeSize(fs, items);
    forall read | ItemsOk(fs, read) && Encode(fs, read) == Encode(fs, items) ensures read == items {
      Unambiguous(fs, read, items);
    }
  }

  lemma ParseDecides(fs: Schema, s: seq<byte>)
    requires SchemaOk(fs)
    ensures Accepts(fs, s) <==> ParseFrom(fs, s, 0).Some? && Conforms(fs, ParseFrom(fs, s, 0).value)
  {
    hide Conforms, ParseFrom;
    assert s[0..] == s;
    if ParseFrom(fs, s, 0).Some? { ParseSound(fs, s, 0); }
    if Accepts(fs, s) {
      var items :| ItemsOk(fs, items) && Encode(fs, items) == s && Conforms(fs, items);
      ParseComplete(fs, s, 0, items);
    }
  }

  // ----- offsets

  function Offset(fs: Schema, items: seq<Item>, n: nat): nat
    requires ItemsOk(fs, items) && n <= |items|
  {
    TotalSize(fs, items[..n])
  }

  lemma OffsetNext(fs: Schema, items: seq<Item>, n: nat)
    requires ItemsOk(fs, items) && n < |items|
    ensures Offset(fs, items, n + 1) == Offset(fs, items, n) + Size(fs, items[n])
  {
    assert items[..n + 1][..n] == items[..n] && items[..n + 1][n] == items[n];
  }

  lemma {:induction false} OffsetGrows(fs: Schema, items: seq<Item>, m: nat, n: nat)
    requires ItemsOk(fs, items) && m < n <= |items|
    ensures Offset(fs, items, m) + Size(fs, items[m]) <= Offset(fs, items, n)
  {
    OffsetNext(fs, items, n - 1);
    if m < n - 1 { OffsetGrows(fs, items, m, n - 1); }
  }

  lemma OffsetAppend(fs: Schema, items: seq<Item>, it: Item, n: nat)
    requires ItemsOk(fs, items) && ItemOk(fs, it) && n <= |items|
    ensures ItemsOk(fs, items + [it]) && Offset(fs, items + [it], n) == Offset(fs, items, n)
  {
    assert (items + [it])[..n] == items[..n];
  }

  /** The n-th entry stands at its offset. */
  lemma {:induction false} Stands(fs: Schema, items: seq<Item>, n: nat)
    requires ItemsOk(fs, items) && n < |items|
    ensures StandsAt(fs, Encode(fs, items), Offset(fs, items, n), items[n])
    decreases |items|
  {
    hide ItemOk, EncodeItem, Size;
    var init, last := items[..|items| - 1], items[|items| - 1];
    EncodeSize(fs, init);
    assert init[..n] == items[..n];
    if n < |init| {
      Stands(fs, init, n);
      var e, o, m := Encode(fs, init), Offset(fs, items, n), Size(fs, items[n]);
      assert (e + EncodeItem(fs, last))[o..o + m] == e[o..o + m];
    } else {
      var e := Encode(fs, init);
      assert (e + EncodeItem(fs, last))[|e|..] == EncodeItem(fs, last);
    }
  }

  // ----- the index

  /** The first entry of the field, or the number of entries if there is none. */
  function First(items: seq<Item>, i: nat): (k: nat)
    ensures k <= |items| && (k < |items| ==> items[k].field == i)
    ensures forall j :: 0 <= j < k ==> items[j].field != i
  {
    if items == [] then 0
    else
      var k := First(items[..|items| - 1], i);
      if k < |items| - 1 || items[|items| - 1].field == i then k else |items|
  }

  /** Past the last entry of the field, or the number of entries if there is none. */
  function End(items: seq<Item>, i: nat): (k: nat)
    ensures First(items, i) <= k <= |items|
    ensures First(items, i) < |items| ==> 0 < k && First(items, i) < k && items[k - 1].field == i
    ensures forall j :: k <= j < |items| ==> items[j].field != i
  {
    if items == [] then 0
    else if items[|items| - 1].field == i || First(items, i) == |items| then |items|
    else End(items[..|items| - 1], i)
  }

  /** The field's values from the n-th entry on. */
  function ValuesFrom(items: seq<Item>, i: nat, n: nat): seq<Value>
    requires n <= |items|
    decreases |items| - n
  {
    if n == |items| then []
    else (if items[n].field == i then [items[n].value] else []) + ValuesFrom(items, i, n + 1)
  }

  lemma {:induction false} ValuesSkip(items: seq<Item>, i: nat, m: nat, n: nat)
    requires m <= n <= |items| && forall j :: m <= j < n ==> items[j].field != i
    ensures ValuesFrom(items, i, m) == ValuesFrom(items, i, n)
    decreases n - m
  {
    if m < n {
      ValuesSkip(items, i, m + 1, n);
      var rest := ValuesFrom(items, i, m + 1);
      assert items[m].field != i && [] + rest == rest;
    }
  }

  lemma {:induction false} ValuesLeft(items: seq<Item>, i: nat, n: nat)
    requires First(items, i) <= n <= End(items, i)
    ensures ValuesFrom(items, i, n) == [] <==> n == End(items, i)
    decreases |items| - n
  {
    if n == End(items, i) {
      ValuesSkip(items, i, n, |items|);
    } else {
      ValuesLeft(items, i, n + 1);
      if n + 1 == End(items, i) { assert items[n].field == i; }
    }
  }

  /** A field's start and span, with the length of the buffer as the start of no entry. */
  predicate Indexed(fs: Schema, items: seq<Item>, len: nat, i: nat, start: int, span: int)
    requires ItemsOk(fs, items)
  {
    var k := First(items, i);
    if k == |items| then start == len && span == 0
    else start == Offset(fs, items, k) && span == Offset(fs, items, End(items, i)) - start
  }

  /** The position is at the n-th entry, within the span. */
  predicate CursorAt(fs: Schema, items: seq<Item>, i: nat, pos: int, n: nat)
    requires ItemsOk(fs, items)
  {
    && First(items, i) <= n <= End(items, i)
    && pos == Offset(fs, items, n) - Offset(fs, items, First(items, i))
  }

  lemma IndexOther(fs: Schema, items: seq<Item>, len: nat, it: Item, i: nat, start: int, span: int)
    requires ItemsOk(fs, items) && ItemOk(fs, it) && i != it.field && Indexed(fs, items, len, i, start, span)
    ensures ItemsOk(fs, items + [it]) && Indexed(fs, items + [it], len, i, start, span)
  {
    var more := items + [it];
    assert more[..|more| - 1] == items;
    hide ItemOk;
    if First(items, i) < |items| {
      OffsetAppend(fs, items, it, First(items, i));
      OffsetAppend(fs, items, it, End(items, i));
    }
  }

  lemma IndexSame(fs: Schema, items: seq<Item>, len: nat, it: Item, start: int, span: int)
    requires ItemsOk(fs, items) && ItemOk(fs, it) && TotalSize(fs, items) < len
    requires Indexed(fs, items, len, it.field, start, span)
    ensures ItemsOk(fs, items + [it])
    ensures var from := if start == len then TotalSize(fs, items) else start;
            Indexed(fs, items + [it], len, it.field, from, TotalSize(fs, items + [it]) - from)
  {
    var more, i := items + [it], it.field;
    assert more[..|more| - 1] == items && more[..|more|] == more && items[..|items|] == items;
    OffsetAppend(fs, items, it, First(items, i));
    if First(items, i) < |items| {
      OffsetGrows(fs, items, First(items, i), |items|);
    }
  }
}
