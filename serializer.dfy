/** The state stream a cartridge saves to and loads from. Serializer.cxx is
    not part of this model: the stream is kept as the sequence of typed
    items written to it (`putString`, `putShort`), not as bytes. A read of
    an item of the wrong kind, or past the end, is the serializer's
    exception. */
module Serialization {
  import opened MachineTypes

  datatype Item = Str(s: string) | Short(v: u16)

  /** What a device's `save` writes: its name, then one 16-bit value. */
  function Record(tag: string, value: u16): seq<Item>
  {
    [Str(tag), Short(value)]
  }

  /** What a device's `load` gets from `input`: `None` when the first item
      is not a string equal to `tag` (the load is refused) or the second is
      not a 16-bit value (the read throws); otherwise that value. */
  function ReadRecord(input: seq<Item>, tag: string): (r: Option<u16>)
    ensures r.Some? <==> |input| >= 2 && input[0] == Str(tag) && input[1].Short?
    ensures r.Some? ==> r.value == input[1].v
  {
    if |input| == 0 || !input[0].Str? then None
    else if input[0].s != tag then None
    else if |input| < 2 || !input[1].Short? then None
    else Some(input[1].v)
  }

  /** Loading what was saved gives back the saved value, whatever follows
      in the stream. */
  lemma RecordRoundTrip(tag: string, value: u16, rest: seq<Item>)
    ensures ReadRecord(Record(tag, value) + rest, tag) == Some(value)
  {
    assert (Record(tag, value) + rest)[0] == Str(tag);
    assert (Record(tag, value) + rest)[1] == Short(value);
  }

  /** A record saved under another name is refused. */
  lemma ForeignRecordRefused(other: string, tag: string, value: u16, rest: seq<Item>)
    requires other != tag
    ensures ReadRecord(Record(other, value) + rest, tag) == None
  {
    assert (Record(other, value) + rest)[0] == Str(other);
  }
}
