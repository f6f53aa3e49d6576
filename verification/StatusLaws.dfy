/** What is read out of a list of tagged values, field by field: `airplay/src/dmap.rs`, `airplay/src/dacp.rs`. */
module StatusLaws {
  import opened Wrappers
  import opened Text
  import opened Utf8
  import opened Dmap
  import opened Dacp
  import BigEndian

  // ----- the last item of a tag decides -----

  ghost predicate LastOf(items: seq<Item>, i: nat, tag: seq<byte>) {
    i < |items| && items[i].tag == tag && forall j :: i < j < |items| ==> items[j].tag != tag
  }

  ghost predicate NoneOf(items: seq<Item>, tag: seq<byte>) {
    forall j :: 0 <= j < |items| ==> items[j].tag != tag
  }

  /** The value of the last item with a tag, or nothing. */
  ghost predicate Decides(items: seq<Item>, tag: seq<byte>, v: Option<seq<byte>>) {
    if v.None? then NoneOf(items, tag) else exists i: nat :: LastOf(items, i, tag) && items[i].value == v.value
  }

  lemma DecidesLast(items: seq<Item>, tag: seq<byte>, v: Option<seq<byte>>)
    requires Decides(items, tag, v)
    ensures LastValue(items, tag) == v
  {
    LastValueIsLast(items, tag);
    if v.Some? {
      var i: nat :| LastOf(items, i, tag) && items[i].value == v.value;
    }
  }

  /** Four bytes are a number, the first counting most; anything else is none. */
  function Number(v: Option<seq<byte>>): Option<nat> {
    if v.Some? && |v.value| == 4 then
      var (a: int, b: int, c: int, d: int) := (v.value[0], v.value[1], v.value[2], v.value[3]);
      Some(0x100_0000 * a + 0x1_0000 * b + 0x100 * c + d)
    else None
  }

  function Words(v: Option<seq<byte>>): Option<string> {
    if v.None? then None else Some(Lossy(v.value))
  }

  lemma NumberRead(items: seq<Item>, tag: seq<byte>, v: Option<seq<byte>>)
    requires Decides(items, tag, v)
    ensures LastU32(items, tag) == Number(v)
  {
    DecidesLast(items, tag, v);
    if v.Some? && |v.value| == 4 {
      var b := v.value;
      assert b == [b[0], b[1], b[2], b[3]];
      BigEndian.FourBytes(b[0], b[1], b[2], b[3]);
    }
  }

  // ----- metadata -----

  /**
   * `minm` is the title, `asar` the artist, `asal` the album, `assl` the album artist and `astm` the length, each as its
   * last item has it; the eight bytes before the list and an item cut short behind it make no difference.
   */
  lemma MetadataFields(header: seq<byte>, items: seq<Item>, last: Item, k: nat, body: seq<byte>,
                       minm: Option<seq<byte>>, asar: Option<seq<byte>>, asal: Option<seq<byte>>,
                       assl: Option<seq<byte>>, astm: Option<seq<byte>>)
    requires |header| == 8 && (forall i :: 0 <= i < |items| ==> IsItem(items[i]))
    requires IsItem(last) && k < |EncodeItem(last)| && body == header + (EncodeItems(items) + EncodeItem(last)[..k])
    requires Decides(items, [0x6d, 0x69, 0x6e, 0x6d], minm) && Decides(items, [0x61, 0x73, 0x61, 0x72], asar)
    requires Decides(items, [0x61, 0x73, 0x61, 0x6c], asal) && Decides(items, [0x61, 0x73, 0x73, 0x6c], assl)
    requires Decides(items, [0x61, 0x73, 0x74, 0x6d], astm)
    ensures MetadataOf(Items(body[8..])) == TrackMetadata(Words(minm), Words(asar), Words(asal), Words(assl), Number(astm))
  {
    MetadataRoundTrip(header, items, last, k, body);
    DecidesLast(items, MINM, minm);
    DecidesLast(items, ASAR, asar);
    DecidesLast(items, ASAL, asal);
    DecidesLast(items, ASSL, assl);
    NumberRead(items, ASTM, astm);
  }

  // ----- play status -----

  /** The play states a sender reports: stopped, paused, playing. */
  function Playing(caps: Option<seq<byte>>): Option<bool> {
    if caps.None? || caps.value == [] then None else Some(caps.value[0] == 4)
  }

  function Position(total: Option<nat>, left: Option<nat>): Option<nat> {
    if total.None? || left.None? then None
    else if total.value < left.value then Some(0)
    else Some(total.value - left.value)
  }

  lemma StatusByLast(items: seq<Item>, caps: Option<seq<byte>>, cann: Option<seq<byte>>, cana: Option<seq<byte>>,
                     canl: Option<seq<byte>>, astm: Option<nat>, cast: Option<nat>, cant: Option<nat>)
    requires LastValue(items, CAPS) == caps && LastValue(items, CANN) == cann && LastValue(items, CANA) == cana
    requires LastValue(items, CANL) == canl && LastU32(items, ASTM) == astm && LastU32(items, CAST) == cast
    requires LastU32(items, CANT) == cant
    ensures StatusOf(items) == PlayStatus(Playing(caps), Words(cann), Words(cana), Words(canl),
                                          if astm.Some? then astm else cast, Position(cast, cant))
  {
  }

  lemma StatusByTags(items: seq<Item>, caps: Option<seq<byte>>, cann: Option<seq<byte>>, cana: Option<seq<byte>>,
                     canl: Option<seq<byte>>, astm: Option<seq<byte>>, cast: Option<seq<byte>>, cant: Option<seq<byte>>)
    requires Decides(items, CAPS, caps) && Decides(items, CANN, cann) && Decides(items, CANA, cana)
    requires Decides(items, CANL, canl) && Decides(items, ASTM, astm) && Decides(items, CAST, cast)
    requires Decides(items, CANT, cant)
    ensures StatusOf(items) == PlayStatus(Playing(caps), Words(cann), Words(cana), Words(canl),
                                          if Number(astm).Some? then Number(astm) else Number(cast),
                                          Position(Number(cast), Number(cant)))
  {
    DecidesLast(items, CAPS, caps);
    DecidesLast(items, CANN, cann);
    DecidesLast(items, CANA, cana);
    DecidesLast(items, CANL, canl);
    NumberRead(items, ASTM, astm);
    NumberRead(items, CAST, cast);
    NumberRead(items, CANT, cant);
    StatusByLast(items, caps, cann, cana, canl, Number(astm), Number(cast), Number(cant));
  }

  lemma TagsAre()
    ensures CMST == [0x63, 0x6d, 0x73, 0x74] && CAPS == [0x63, 0x61, 0x70, 0x73] && CANN == [0x63, 0x61, 0x6e, 0x6e]
    ensures CANA == [0x63, 0x61, 0x6e, 0x61] && CANL == [0x63, 0x61, 0x6e, 0x6c] && CAST == [0x63, 0x61, 0x73, 0x74]
    ensures CANT == [0x63, 0x61, 0x6e, 0x74] && MINM == [0x6d, 0x69, 0x6e, 0x6d] && ASAR == [0x61, 0x73, 0x61, 0x72]
    ensures ASAL == [0x61, 0x73, 0x61, 0x6c] && ASSL == [0x61, 0x73, 0x73, 0x6c] && ASTM == [0x61, 0x73, 0x74, 0x6d]
  {
  }

  /**
   * Within a `cmst` container, `caps` says whether it plays, `cann`, `cana` and `canl` are title, artist and album, `astm`
   * or else `cast` is the length, and `cast` less `cant` the position, each as its last item has it.
   */
  lemma StatusFields(items: seq<Item>, last: Item, k: nat, rest: seq<byte>, content: seq<byte>,
                     caps: Option<seq<byte>>, cann: Option<seq<byte>>, cana: Option<seq<byte>>,
                     canl: Option<seq<byte>>, astm: Option<seq<byte>>, cast: Option<seq<byte>>, cant: Option<seq<byte>>)
    requires forall i :: 0 <= i < |items| ==> IsItem(items[i])
    requires IsItem(last) && k < |EncodeItem(last)|
    requires content == EncodeItems(items) + EncodeItem(last)[..k] && |content| < TWO_32
    requires Decides(items, [0x63, 0x61, 0x70, 0x73], caps) && Decides(items, [0x63, 0x61, 0x6e, 0x6e], cann)
    requires Decides(items, [0x63, 0x61, 0x6e, 0x61], cana) && Decides(items, [0x63, 0x61, 0x6e, 0x6c], canl)
    requires Decides(items, [0x61, 0x73, 0x74, 0x6d], astm) && Decides(items, [0x63, 0x61, 0x73, 0x74], cast)
    requires Decides(items, [0x63, 0x61, 0x6e, 0x74], cant)
    ensures PlayStatusOf(EncodeItem(Item([0x63, 0x6d, 0x73, 0x74], content)) + rest)
         == PlayStatus(Playing(caps), Words(cann), Words(cana), Words(canl),
                       if Number(astm).Some? then Number(astm) else Number(cast),
                       Position(Number(cast), Number(cant)))
  {
    TagsAre();
    PlayStatusRoundTrip(items, last, k, rest);
    StatusByTags(items, caps, cann, cana, canl, astm, cast, cant);
  }

  /** Anything that is not such a container says nothing. */
  lemma OtherContainers(item: Item, rest: seq<byte>)
    requires IsItem(item) && item.tag != [0x63, 0x6d, 0x73, 0x74]
    ensures PlayStatusOf(EncodeItem(item) + rest) == PlayStatus(None, None, None, None, None, None)
  {
    ReadEncoded(item, rest);
  }

  // ----- a sender -----

  function FourByteForm(n: nat): seq<byte>
    requires n < TWO_32
  {
    [n / 256 / 256 / 256, n / 256 / 256 % 256, n / 256 % 256, n % 256]
  }

  lemma NumberOfForm(n: nat)
    requires n < TWO_32
    ensures Number(Some(FourByteForm(n))) == Some(n)
  {
    BigEndian.Split256(n, 0);
    BigEndian.Split256(n / 256, 0);
    BigEndian.Split256(n / 256 / 256, 0);
  }

  function SenderItems(state: byte, title: string, artist: string, album: string, total: nat, left: nat): seq<Item>
    requires total < TWO_32 && left < TWO_32
  {
    [Item([0x63, 0x61, 0x70, 0x73], [state]), Item([0x63, 0x61, 0x6e, 0x6e], Encode(title)),
     Item([0x63, 0x61, 0x6e, 0x61], Encode(artist)), Item([0x63, 0x61, 0x6e, 0x6c], Encode(album)),
     Item([0x63, 0x61, 0x73, 0x74], FourByteForm(total)), Item([0x63, 0x61, 0x6e, 0x74], FourByteForm(left))]
  }

  ghost predicate DistinctTags(items: seq<Item>) {
    forall i, j :: 0 <= i < j < |items| ==> items[i].tag != items[j].tag
  }

  lemma AtLast(items: seq<Item>, i: nat)
    requires i < |items| && DistinctTags(items)
    ensures Decides(items, items[i].tag, Some(items[i].value))
  {
    assert LastOf(items, i, items[i].tag);
  }

  lemma SenderTags(items: seq<Item>)
    requires |items| == 6 && forall i :: 0 <= i < 6 ==> |items[i].tag| == 4
    requires items[0].tag[2] == 0x70 && items[4].tag[2] == 0x73
    requires items[1].tag[2] == items[2].tag[2] == items[3].tag[2] == items[5].tag[2] == 0x6e
    requires items[1].tag[3] == 0x6e && items[2].tag[3] == 0x61 && items[3].tag[3] == 0x6c && items[5].tag[3] == 0x74
    requires forall i :: 0 <= i < 6 ==> items[i].tag[0] == 0x63
    ensures DistinctTags(items) && NoneOf(items, [0x61, 0x73, 0x74, 0x6d])
  {
  }

  lemma SenderDecides(items: seq<Item>, state: byte, title: string, artist: string, album: string, total: nat, left: nat)
    requires total < TWO_32 && left < TWO_32 && items == SenderItems(state, title, artist, album, total, left)
    ensures Decides(items, [0x63, 0x61, 0x70, 0x73], Some([state]))
    ensures Decides(items, [0x63, 0x61, 0x6e, 0x6e], Some(Encode(title)))
    ensures Decides(items, [0x63, 0x61, 0x6e, 0x61], Some(Encode(artist)))
    ensures Decides(items, [0x63, 0x61, 0x6e, 0x6c], Some(Encode(album)))
    ensures Decides(items, [0x63, 0x61, 0x73, 0x74], Some(FourByteForm(total)))
    ensures Decides(items, [0x63, 0x61, 0x6e, 0x74], Some(FourByteForm(left)))
    ensures Decides(items, [0x61, 0x73, 0x74, 0x6d], None)
  {
    SenderTags(items);
    AtLast(items, 0);
    AtLast(items, 1);
    AtLast(items, 2);
    AtLast(items, 3);
    AtLast(items, 4);
    AtLast(items, 5);
  }

  lemma SenderFits(items: seq<Item>, state: byte, title: string, artist: string, album: string, total: nat, left: nat)
    requires total < TWO_32 && left < TWO_32 && items == SenderItems(state, title, artist, album, total, left)
    requires |Encode(title)| < TWO_32 && |Encode(artist)| < TWO_32 && |Encode(album)| < TWO_32
    ensures forall i :: 0 <= i < |items| ==> IsItem(items[i])
  {
    assert IsItem(items[0]) && IsItem(items[1]) && IsItem(items[2]);
    assert IsItem(items[3]) && IsItem(items[4]) && IsItem(items[5]);
  }

  /** A sender's whole report comes through: 4 for playing, 3 for paused, 2 for stopped, any text, any length and time left. */
  lemma SenderUnderstood(state: byte, title: string, artist: string, album: string, total: nat, left: nat,
                         content: seq<byte>, rest: seq<byte>)
    requires total < TWO_32 && left < TWO_32 && 2 <= state <= 4
    requires content == EncodeItems(SenderItems(state, title, artist, album, total, left)) && |content| < TWO_32
    requires |Encode(title)| < TWO_32 && |Encode(artist)| < TWO_32 && |Encode(album)| < TWO_32
    ensures PlayStatusOf(EncodeItem(Item([0x63, 0x6d, 0x73, 0x74], content)) + rest)
         == PlayStatus(Some(state == 4), Some(title), Some(artist), Some(album), Some(total),
                       Some(if left <= total then total - left else 0))
  {
    var items := SenderItems(state, title, artist, album, total, left);
    var none := Item([0, 0, 0, 0], []);
    assert content == EncodeItems(items) + EncodeItem(none)[..0];
    SenderDecides(items, state, title, artist, album, total, left);
    SenderFits(items, state, title, artist, album, total, left);
    StatusFields(items, none, 0, rest, content, Some([state]), Some(Encode(title)), Some(Encode(artist)),
                 Some(Encode(album)), None, Some(FourByteForm(total)), Some(FourByteForm(left)));
    DecodersInvert(title);
    DecodersInvert(artist);
    DecodersInvert(album);
    NumberOfForm(total);
    NumberOfForm(left);
  }
}
