/** Lists of tagged values, as AirPlay senders describe a track with them: `airplay/src/dmap.rs`. */
module Dmap {
  import opened Wrappers
  import opened Text
  import BigEndian

  const TWO_32: nat := 0x1_0000_0000

  datatype Item = Item(tag: seq<byte>, value: seq<byte>)

  datatype Read = Read(item: Item, rest: seq<byte>)

  function ReadU32(item: seq<byte>): Option<nat> {
    if |item| == 4 then Some(BigEndian.Value(item)) else None
  }

  /** The first item of a body and what follows it; nothing if the body is truncated. */
  function ReadItem(bytes: seq<byte>): (r: Option<Read>)
    ensures r.Some? ==> |r.value.rest| + 8 <= |bytes|
  {
    if |bytes| < 8 then None
    else
      var len := BigEndian.Value(bytes[4..8]);
      if |bytes| < 8 + len then None
      else Some(Read(Item(bytes[..4], bytes[8..8 + len]), bytes[8 + len..]))
  }

  // ----- the encoding -----

  predicate IsItem(item: Item) {
    |item.tag| == 4 && |item.value| < TWO_32
  }

  function EncodeItem(item: Item): seq<byte> {
    item.tag + BigEndian.Fixed(|item.value|, 4) + item.value
  }

  function EncodeItems(items: seq<Item>): seq<byte> {
    if items == [] then [] else EncodeItem(items[0]) + EncodeItems(items[1..])
  }

  lemma LengthBytes()
    ensures BigEndian.Pow256(4) == TWO_32
  {
  }

  /** Reading gives back the first item, whatever follows it. */
  lemma ReadEncoded(item: Item, rest: seq<byte>)
    requires IsItem(item)
    ensures ReadItem(EncodeItem(item) + rest) == Some(Read(item, rest))
  {
    var bytes := EncodeItem(item) + rest;
    LengthBytes();
    BigEndian.ValueOfFixed(|item.value|, 4);
    assert bytes[..4] == item.tag;
    assert bytes[4..8] == BigEndian.Fixed(|item.value|, 4);
    assert bytes[8..8 + |item.value|] == item.value;
    assert bytes[8 + |item.value|..] == rest;
  }

  /** Nothing else reads as an item: what was read is the encoding of what came out. */
  lemma ReadIsEncoded(bytes: seq<byte>)
    requires ReadItem(bytes).Some?
    ensures var r := ReadItem(bytes).value; IsItem(r.item) && bytes == EncodeItem(r.item) + r.rest
  {
    LengthBytes();
    BigEndian.FixedOfValue(bytes[4..8]);
    var len := BigEndian.Value(bytes[4..8]);
    assert bytes == bytes[..4] + bytes[4..8] + bytes[8..8 + len] + bytes[8 + len..];
  }

  /** An item cut short anywhere reads as nothing. */
  lemma ReadCutShort(item: Item, k: nat)
    requires IsItem(item) && k < |EncodeItem(item)|
    ensures ReadItem(EncodeItem(item)[..k]).None?
  {
    var bytes := EncodeItem(item)[..k];
    if 8 <= k {
      LengthBytes();
      BigEndian.ValueOfFixed(|item.value|, 4);
      assert EncodeItem(item)[4..8] == BigEndian.Fixed(|item.value|, 4);
      assert bytes[4..8] == EncodeItem(item)[4..8];
    }
  }

  // ----- walking a list of items -----

  /** Every item up to the first that cannot be read. */
  function Items(bytes: seq<byte>): seq<Item>
    decreases |bytes|
  {
    match ReadItem(bytes)
    case None => []
    case Some(Read(item, rest)) => [item] + Items(rest)
  }

  /** Moving one item from the unread bytes to the items already read. */
  lemma ItemsStep(done: seq<Item>, bytes: seq<byte>)
    requires ReadItem(bytes).Some?
    ensures var r := ReadItem(bytes).value; done + Items(bytes) == done + [r.item] + Items(r.rest)
  {
  }

  lemma ItemsOfOne(item: Item, more: seq<byte>)
    requires IsItem(item)
    ensures Items(EncodeItem(item) + more) == [item] + Items(more)
  {
    ReadEncoded(item, more);
  }

  lemma {:induction false} ItemsOfEncoded(items: seq<Item>, tail: seq<byte>)
    requires forall i :: 0 <= i < |items| ==> IsItem(items[i])
    ensures Items(EncodeItems(items) + tail) == items + Items(tail)
  {
    if items == [] {
      assert EncodeItems(items) + tail == tail;
    } else {
      var rest := EncodeItems(items[1..]);
      calc {
        Items(EncodeItems(items) + tail);
      == { Reassociate(EncodeItem(items[0]), rest, tail); }
        Items(EncodeItem(items[0]) + (rest + tail));
      == { ItemsOfOne(items[0], rest + tail); }
        [items[0]] + Items(rest + tail);
      == { ItemsOfEncoded(items[1..], tail); }
        [items[0]] + (items[1..] + Items(tail));
      == { Reassociate([items[0]], items[1..], Items(tail)); }
        [items[0]] + items[1..] + Items(tail);
      }
    }
  }

  /** The walk is exact: a list of items is read back, and an item cut short at the end adds nothing. */
  lemma ItemsWithTruncatedTail(items: seq<Item>, last: Item, k: nat)
    requires forall i :: 0 <= i < |items| ==> IsItem(items[i])
    requires IsItem(last) && k < |EncodeItem(last)|
    ensures Items(EncodeItems(items) + EncodeItem(last)[..k]) == items
  {
    ItemsOfEncoded(items, EncodeItem(last)[..k]);
    ReadCutShort(last, k);
  }

  /** The value of the last item with a tag. */
  function LastValue(items: seq<Item>, tag: seq<byte>): Option<seq<byte>> {
    if items == [] then None
    else if items[|items| - 1].tag == tag then Some(items[|items| - 1].value)
    else LastValue(items[..|items| - 1], tag)
  }

  lemma {:induction false} LastValueIsLast(items: seq<Item>, tag: seq<byte>)
    ensures LastValue(items, tag).None? <==> forall i :: 0 <= i < |items| ==> items[i].tag != tag
    ensures forall i :: 0 <= i < |items| && items[i].tag == tag && (forall j :: i < j < |items| ==> items[j].tag != tag)
                ==> LastValue(items, tag) == Some(items[i].value)
  {
    if items == [] {
    } else {
      LastValueIsLast(items[..|items| - 1], tag);
    }
  }

  function LastText(items: seq<Item>, tag: seq<byte>): Option<string> {
    match LastValue(items, tag)
    case None => None
    case Some(v) => Some(Lossy(v))
  }

  function LastU32(items: seq<Item>, tag: seq<byte>): Option<nat> {
    match LastValue(items, tag)
    case None => None
    case Some(v) => ReadU32(v)
  }

  // ----- `SET_PARAMETER` metadata -----

  const MINM: seq<byte> := [109, 105, 110, 109]
  const ASAR: seq<byte> := [97, 115, 97, 114]
  const ASAL: seq<byte> := [97, 115, 97, 108]
  const ASSL: seq<byte> := [97, 115, 115, 108]
  const ASTM: seq<byte> := [97, 115, 116, 109]

  datatype TrackMetadata = TrackMetadata(
    title: Option<string>,
    artist: Option<string>,
    album: Option<string>,
    albumArtist: Option<string>,
    durationMs: Option<nat>)

  /** Last one wins, field by field; a final `astm` of the wrong length leaves no duration at all. */
  function MetadataOf(items: seq<Item>): TrackMetadata {
    TrackMetadata(LastText(items, MINM), LastText(items, ASAR), LastText(items, ASAL), LastText(items, ASSL),
                  LastU32(items, ASTM))
  }

  /** What one item of the walk sets. */
  function Updated(metadata: TrackMetadata, item: Item): TrackMetadata {
    if item.tag == MINM then metadata.(title := Some(Lossy(item.value)))
    else if item.tag == ASAR then metadata.(artist := Some(Lossy(item.value)))
    else if item.tag == ASAL then metadata.(album := Some(Lossy(item.value)))
    else if item.tag == ASSL then metadata.(albumArtist := Some(Lossy(item.value)))
    else if item.tag == ASTM then metadata.(durationMs := ReadU32(item.value))
    else metadata
  }

  /** One more item changes the last value under its own tag only. */
  lemma LastValueSnoc(items: seq<Item>, item: Item, tag: seq<byte>)
    ensures LastValue(items + [item], tag) == if item.tag == tag then Some(item.value) else LastValue(items, tag)
  {
    assert (items + [item])[..|items|] == items;
  }

  lemma UpdatedFolds(items: seq<Item>, item: Item)
    ensures Updated(MetadataOf(items), item) == MetadataOf(items + [item])
  {
    LastValueSnoc(items, item, MINM);
    LastValueSnoc(items, item, ASAR);
    LastValueSnoc(items, item, ASAL);
    LastValueSnoc(items, item, ASSL);
    LastValueSnoc(items, item, ASTM);
  }

  method ParseMetadata(body: seq<byte>) returns (metadata: TrackMetadata)
    ensures metadata == MetadataOf(if |body| < 8 then [] else Items(body[8..]))
  {
    metadata := TrackMetadata(None, None, None, None, None);
    if |body| < 8 {
      return;
    }
    var rest := body[8..];
    ghost var all, done := Items(rest), [];
    var read := ReadItem(rest);
    while read.Some?
      invariant read == ReadItem(rest)
      invariant all == done + Items(rest)
      invariant metadata == MetadataOf(done)
      decreases |rest|
    {
      UpdatedFolds(done, read.value.item);
      ItemsStep(done, rest);
      metadata := Updated(metadata, read.value.item);
      done := done + [read.value.item];
      rest := read.value.rest;
      read := ReadItem(rest);
    }
    assert all == done;
  }

  /** What a sender encodes is what the receiver reads, even when the body is cut off within a later item. */
  lemma MetadataRoundTrip(header: seq<byte>, items: seq<Item>, last: Item, k: nat, body: seq<byte>)
    requires |header| == 8 && forall i :: 0 <= i < |items| ==> IsItem(items[i])
    requires IsItem(last) && k < |EncodeItem(last)|
    requires body == header + (EncodeItems(items) + EncodeItem(last)[..k])
    ensures MetadataOf(Items(body[8..])) == MetadataOf(items)
  {
    assert Items(body[8..]) == items by {
      DropHeader(header, EncodeItems(items) + EncodeItem(last)[..k]);
      ItemsWithTruncatedTail(items, last, k);
    }
  }

  lemma DropHeader(header: seq<byte>, rest: seq<byte>)
    requires |header| == 8
    ensures (header + rest)[8..] == rest
  {
  }
}
