/** A message's way from the generated writer to the generated parser. */
module BProtoExchange {
  import opened Wrappers
  import opened LittleEndian
  import opened BProto
  import opened BProtoIndex
  import opened BProtoWriter
  import opened BProtoParser

  /** The bytes of a finished message, in a buffer of their own, are accepted by the parser,
      and every field then has just the values that were added to it, in that order. */
  method Exchange(w: Writer) returns (p: Parser, ok: bool)
    requires SchemaOk(w.fs) && w.Valid() && forall i :: 0 <= i < |w.fs| ==> CountOk(w.fs[i].cardinality, w.count[i])
    ensures ok && p.Valid() && p.fs == w.fs && p.buf[..] == Encode(w.fs, w.items)
    ensures forall i :: 0 <= i < |w.fs| ==> p.Remaining(i) == ValuesFrom(w.items, i, 0)
  {
    hide Writer.Valid, Parser.Valid, Parser.Remaining, ValuesFrom, Accepts, Encode, TotalSize, SchemaOk, CountOk;
    Added(w);
    var n := w.Finish();
    var message := w.out[..n];
    var buf := new byte[n](i requires 0 <= i < |message| => message[i]);
    assert buf[..] == message;
    p := new Parser(w.fs, buf);
    ok := p.Init();
    Read(p);
    Unambiguous(w.fs, p.items, w.items);
  }

  lemma Added(w: Writer)
    requires w.Valid()
    ensures ItemsOk(w.fs, w.items)
  {
  }

  lemma Read(p: Parser)
    requires p.Valid()
    ensures ItemsOk(p.fs, p.items) && p.buf[..] == Encode(p.fs, p.items)
  {
  }

  /** The first Get of a required field returns its value, and the second finds none. */
  method GetRequired(p: Parser, i: nat) returns (value: Option<Value>, again: Option<Value>)
    requires p.Valid() && i < |p.fs| && p.fs[i].cardinality.Required?
    requires Conforms(p.fs, p.items) && p.Remaining(i) == ValuesFrom(p.items, i, 0)
    modifies p`slots, p`cursor
    ensures p.Valid() && value.Some? && again.None? && old(p.Remaining(i)) == [value.value]
  {
    hide Parser.Valid, Parser.Remaining, ValuesFrom;
    ghost var all := p.Remaining(i);
    value := p.Get(i);
    assert all == [all[0]];
    again := p.Get(i);
  }
}
