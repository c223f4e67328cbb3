/** The TLV container of a debug token: a header with the size of the rest, then items with
    a type and a size each, little-endian. */
module TlvCodec {
  import opened Bytes
  import opened Outcomes

  const IDENTIFIER: seq<Byte> := [0x54, 0x4C, 0x56, 0x31]
  const HEADER_SIZE := 32
  const ITEM_HEADER_SIZE := 4
  const RESERVED_SIZE := 20

  datatype Item = Item(kind: nat, value: seq<Byte>)

  /** The header's version and reserved bytes, and the items in file order. */
  datatype Structure = Structure(major: nat, minor: nat, reserved: seq<Byte>, items: seq<Item>)

  datatype TlvError = ShortHeader | BadIdentifier | SizeMismatch | ShortItemHeader | ShortItem | Duplicate | Empty

  // ---- Numbers ----

  function Pow256(k: nat): nat {
    if k == 0 then 1 else 256 * Pow256(k - 1)
  }

  /** The `k` bytes of a number, least significant first. */
  function LittleBytes(n: nat, k: nat): (s: seq<Byte>)
    ensures |s| == k
  {
    if k == 0 then [] else [n % 256] + LittleBytes(n / 256, k - 1)
  }

  lemma {:induction false} LittleRoundTrip(n: nat, k: nat)
    requires n < Pow256(k)
    ensures LittleEndian(LittleBytes(n, k)) == n
  {
    if k > 0 {
      LittleRoundTrip(n / 256, k - 1);
    }
  }

  lemma LowDigit(a: Byte, rest: nat)
    ensures (a + 256 * rest) % 256 == a && (a + 256 * rest) / 256 == rest
  {}

  lemma {:induction false} BytesRoundTrip(s: seq<Byte>)
    ensures LittleEndian(s) < Pow256(|s|) && LittleBytes(LittleEndian(s), |s|) == s
  {
    if s != [] {
      BytesRoundTrip(s[1..]);
      LowDigit(s[0], LittleEndian(s[1..]));
      assert LittleBytes(LittleEndian(s), |s|) == [s[0]] + s[1..];
    }
  }

  lemma Widths()
    ensures Pow256(2) == 0x1_0000 && Pow256(4) == 0x1_0000_0000
  {
    assert Pow256(3) == 0x100_0000;
  }

  // ---- Encoding ----

  function EncodeItem(it: Item): (b: seq<Byte>)
    ensures |b| == ITEM_HEADER_SIZE + |it.value|
  {
    LittleBytes(it.kind, 2) + LittleBytes(|it.value|, 2) + it.value
  }

  function EncodeItems(items: seq<Item>): seq<Byte> {
    if items == [] then [] else EncodeItem(items[0]) + EncodeItems(items[1..])
  }

  function EncodeHeader(major: nat, minor: nat, reserved: seq<Byte>, size: nat): seq<Byte> {
    IDENTIFIER + LittleBytes(major, 2) + LittleBytes(minor, 2) + LittleBytes(size, 4) + reserved
  }

  function Encode(s: Structure): seq<Byte> {
    var body := EncodeItems(s.items);
    EncodeHeader(s.major, s.minor, s.reserved, |body|) + body
  }

  ghost predicate FitsItem(it: Item) {
    it.kind < 0x1_0000 && |it.value| < 0x1_0000
  }

  ghost predicate FreshKinds(items: seq<Item>, seen: set<nat>) {
    && (forall i: nat | i < |items| :: FitsItem(items[i]) && items[i].kind !in seen)
    && (forall i: nat, j: nat | i < j < |items| :: items[i].kind != items[j].kind)
  }

  /** The structures that have an encoding: no type twice, at least one item, every number
      within its field. */
  ghost predicate Valid(s: Structure) {
    && s.major < 0x1_0000 && s.minor < 0x1_0000 && |s.reserved| == RESERVED_SIZE
    && s.items != [] && FreshKinds(s.items, {})
    && |EncodeItems(s.items)| < 0x1_0000_0000
  }

  // ---- The layout, byte by byte ----

  lemma TwoLittleBytes(n: nat)
    requires n < 0x1_0000
    ensures LittleBytes(n, 2) == [n % 256, n / 256]
  {
    assert LittleBytes(n / 256, 1) == [n / 256] + LittleBytes(n / 256 / 256, 0);
  }

  lemma FourLittleBytes(n: nat)
    requires n < 0x1_0000_0000
    ensures LittleBytes(n, 4) == [n % 256, n / 256 % 256, n / 0x1_0000 % 256, n / 0x100_0000]
  {
    TwoLittleBytes(n / 0x1_0000);
    assert LittleBytes(n / 256, 3) == [n / 256 % 256] + LittleBytes(n / 0x1_0000, 2);
    assert LittleBytes(n, 4) == [n % 256] + LittleBytes(n / 256, 3);
  }

  /** The 32 bytes in front of the items: "TLV1", two version numbers, the size of the rest
      and twenty reserved bytes, each number with its low byte first. */
  lemma HeaderIs(s: Structure)
    requires Valid(s)
    ensures var size := |EncodeItems(s.items)|;
            Encode(s)[..32]
            == [0x54, 0x4C, 0x56, 0x31] + [s.major % 256, s.major / 256] + [s.minor % 256, s.minor / 256]
               + [size % 256, size / 256 % 256, size / 0x1_0000 % 256, size / 0x100_0000] + s.reserved
    ensures |s.reserved| == 20 && Encode(s)[32..] == EncodeItems(s.items)
  {
    hide LittleBytes, EncodeItems, FreshKinds;
    var size := |EncodeItems(s.items)|;
    TwoLittleBytes(s.major);
    TwoLittleBytes(s.minor);
    FourLittleBytes(size);
    HeaderFields(s.major, s.minor, s.reserved, size, EncodeItems(s.items));
  }

  /** An item is its type, the size of its value and the value, and items follow each
      other. */
  lemma ItemIs(it: Item, items: seq<Item>)
    requires FitsItem(it)
    ensures EncodeItems([it] + items)
            == [it.kind % 256, it.kind / 256] + [|it.value| % 256, |it.value| / 256] + it.value + EncodeItems(items)
  {
    hide LittleBytes;
    TwoLittleBytes(it.kind);
    TwoLittleBytes(|it.value|);
    assert ([it] + items)[1..] == items;
  }

  // ---- Decoding ----

  function DecodeItem(b: seq<Byte>): (r: Result<Item, TlvError>)
    ensures r.Ok? ==> ITEM_HEADER_SIZE + |r.value.value| <= |b|
  {
    if |b| < ITEM_HEADER_SIZE then Err(ShortItemHeader)
    else
      var size := LittleEndian(b[2..4]);
      if size > |b| - ITEM_HEADER_SIZE then Err(ShortItem)
      else Ok(Item(LittleEndian(b[..2]), b[ITEM_HEADER_SIZE..ITEM_HEADER_SIZE + size]))
  }

  ghost function DecodeItems(b: seq<Byte>, seen: set<nat>): Result<seq<Item>, TlvError>
    decreases |b|
  {
    if b == [] then Ok([])
    else
      var first := DecodeItem(b);
      if first.Err? then Err(first.error)
      else if first.value.kind in seen then Err(Duplicate)
      else
        var rest := DecodeItems(b[ITEM_HEADER_SIZE + |first.value.value|..], seen + {first.value.kind});
        if rest.Err? then rest else Ok([first.value] + rest.value)
  }

  ghost function Decode(b: seq<Byte>): Result<Structure, TlvError> {
    if |b| < HEADER_SIZE then Err(ShortHeader)
    else if b[..4] != IDENTIFIER then Err(BadIdentifier)
    else if LittleEndian(b[8..12]) + HEADER_SIZE != |b| then Err(SizeMismatch)
    else
      var items := DecodeItems(b[HEADER_SIZE..], {});
      if items.Err? then Err(items.error)
      else if items.value == [] then Err(Empty)
      else Ok(Structure(LittleEndian(b[4..6]), LittleEndian(b[6..8]), b[12..HEADER_SIZE], items.value))
  }

  // ---- The two are inverse ----

  lemma DecodeEncodedItem(it: Item, rest: seq<Byte>)
    requires FitsItem(it)
    ensures DecodeItem(EncodeItem(it) + rest) == Ok(it)
    ensures (EncodeItem(it) + rest)[ITEM_HEADER_SIZE + |it.value|..] == rest
  {
    Widths();
    LittleRoundTrip(it.kind, 2);
    LittleRoundTrip(|it.value|, 2);
    var b := EncodeItem(it) + rest;
    assert b[..2] == LittleBytes(it.kind, 2);
    assert b[2..4] == LittleBytes(|it.value|, 2);
    assert b[4..4 + |it.value|] == it.value;
  }

  lemma EncodeDecodedItem(b: seq<Byte>)
    requires DecodeItem(b).Ok?
    ensures var it := DecodeItem(b).value;
            FitsItem(it) && b == EncodeItem(it) + b[ITEM_HEADER_SIZE + |it.value|..]
  {
    Widths();
    BytesRoundTrip(b[..2]);
    BytesRoundTrip(b[2..4]);
  }

  lemma {:induction false} DecodeEncodedItems(items: seq<Item>, seen: set<nat>)
    requires FreshKinds(items, seen)
    ensures DecodeItems(EncodeItems(items), seen) == Ok(items)
    decreases items
  {
    if items != [] {
      hide EncodeItem, DecodeItem;
      var it, rest := items[0], EncodeItems(items[1..]);
      DecodeEncodedItem(it, rest);
      assert FreshKinds(items[1..], seen + {it.kind});
      DecodeEncodedItems(items[1..], seen + {it.kind});
      assert EncodeItems(items) == EncodeItem(it) + rest != [];
      assert items == [it] + items[1..];
    }
  }

  lemma {:induction false} EncodeDecodedItems(b: seq<Byte>, seen: set<nat>)
    requires DecodeItems(b, seen).Ok?
    ensures FreshKinds(DecodeItems(b, seen).value, seen) && EncodeItems(DecodeItems(b, seen).value) == b
    decreases |b|
  {
    if b != [] {
      hide EncodeItem, DecodeItem;
      var it := DecodeItem(b).value;
      var rest := b[ITEM_HEADER_SIZE + |it.value|..];
      EncodeDecodedItem(b);
      EncodeDecodedItems(rest, seen + {it.kind});
      FreshCons(it, DecodeItems(rest, seen + {it.kind}).value, seen);
    }
  }

  lemma FreshCons(it: Item, items: seq<Item>, seen: set<nat>)
    requires FitsItem(it) && it.kind !in seen && FreshKinds(items, seen + {it.kind})
    ensures FreshKinds([it] + items, seen) && EncodeItems([it] + items) == EncodeItem(it) + EncodeItems(items)
  {
    var all := [it] + items;
    assert all[1..] == items;
    forall i: nat | i < |items|
      ensures all[i + 1] == items[i] && items[i].kind != it.kind
    {}
  }

  lemma HeaderFields(major: nat, minor: nat, reserved: seq<Byte>, size: nat, body: seq<Byte>)
    requires |reserved| == RESERVED_SIZE
    ensures var b := EncodeHeader(major, minor, reserved, size) + body;
            && |b| == HEADER_SIZE + |body| && b[HEADER_SIZE..] == body && b[..4] == IDENTIFIER
            && b[4..6] == LittleBytes(major, 2) && b[6..8] == LittleBytes(minor, 2)
            && b[8..12] == LittleBytes(size, 4) && b[12..HEADER_SIZE] == reserved
  {}

  lemma HeaderOfFields(b: seq<Byte>)
    requires |b| >= HEADER_SIZE && b[..4] == IDENTIFIER
    ensures b == EncodeHeader(LittleEndian(b[4..6]), LittleEndian(b[6..8]), b[12..HEADER_SIZE], LittleEndian(b[8..12]))
                 + b[HEADER_SIZE..]
    ensures LittleEndian(b[4..6]) < 0x1_0000 && LittleEndian(b[6..8]) < 0x1_0000
    ensures LittleEndian(b[8..12]) < 0x1_0000_0000
  {
    Widths();
    BytesRoundTrip(b[4..6]);
    BytesRoundTrip(b[6..8]);
    BytesRoundTrip(b[8..12]);
    assert b == b[..4] + b[4..6] + b[6..8] + b[8..12] + b[12..HEADER_SIZE] + b[HEADER_SIZE..];
  }

  lemma DecodeEncode(s: Structure)
    requires Valid(s)
    ensures Decode(Encode(s)) == Ok(s)
  {
    hide EncodeHeader, LittleBytes, LittleEndian, EncodeItems, DecodeItems;
    var body := EncodeItems(s.items);
    HeaderFields(s.major, s.minor, s.reserved, |body|, body);
    Widths();
    LittleRoundTrip(s.major, 2);
    LittleRoundTrip(s.minor, 2);
    LittleRoundTrip(|body|, 4);
    DecodeEncodedItems(s.items, {});
  }

  lemma EncodeDecode(b: seq<Byte>)
    requires Decode(b).Ok?
    ensures Valid(Decode(b).value) && Encode(Decode(b).value) == b
  {
    hide EncodeHeader, LittleBytes, LittleEndian, EncodeItems, DecodeItems;
    HeaderOfFields(b);
    EncodeDecodedItems(b[HEADER_SIZE..], {});
  }

  /** Decoding accepts exactly the encodings of valid structures, and gives back the
      structure. */
  lemma DecodeIsInverse(b: seq<Byte>, s: Structure)
    ensures Decode(b) == Ok(s) <==> Valid(s) && b == Encode(s)
  {
    hide Encode, Decode, Valid;
    if Decode(b) == Ok(s) {
      EncodeDecode(b);
    }
    if Valid(s) && b == Encode(s) {
      DecodeEncode(s);
    }
  }

  // ---- Which errors there are ----

  lemma {:induction false} ItemErrors(b: seq<Byte>, seen: set<nat>)
    ensures DecodeItems(b, seen).Err? ==> DecodeItems(b, seen).error in {ShortItemHeader, ShortItem, Duplicate}
    ensures DecodeItems(b, seen) == Ok([]) <==> b == []
    decreases |b|
  {
    if b != [] {
      var first := DecodeItem(b);
      if first.Ok? {
        ItemErrors(b[ITEM_HEADER_SIZE + |first.value.value|..], seen + {first.value.kind});
      }
    }
  }

  /** The errors before the items: too short, another identifier, a size that does not add
      up, and no items at all. */
  lemma DecodeErrors(b: seq<Byte>)
    ensures Decode(b) == Err(ShortHeader) <==> |b| < 32
    ensures Decode(b) == Err(BadIdentifier) <==> |b| >= 32 && b[..4] != [0x54, 0x4C, 0x56, 0x31]
    ensures var named := |b| >= 32 && b[..4] == [0x54, 0x4C, 0x56, 0x31];
            && (Decode(b) == Err(SizeMismatch) <==> named && LittleEndian(b[8..12]) != |b| - 32)
            && (Decode(b) == Err(Empty) <==> named && LittleEndian(b[8..12]) == 0 == |b| - 32)
  {
    hide LittleEndian, DecodeItems;
    if |b| >= HEADER_SIZE {
      ItemErrors(b[HEADER_SIZE..], {});
    }
  }

  // ---- The decoder as the source runs it ----

  /** What the decoder keeps: the items by type. */
  datatype Decoded = Decoded(major: nat, minor: nat, data: map<nat, seq<Byte>>)

  ghost function ByKind(items: seq<Item>): map<nat, seq<Byte>> {
    if items == [] then map[]
    else ByKind(items[..|items| - 1])[items[|items| - 1].kind := items[|items| - 1].value]
  }

  /** The items that decoding still has to find, put behind those found. */
  ghost function Behind(found: seq<Item>, r: Result<seq<Item>, TlvError>): Result<seq<Item>, TlvError> {
    if r.Err? then r else Ok(found + r.value)
  }

  method DecodeStructure(input: seq<Byte>) returns (r: Result<Decoded, TlvError>)
    ensures var d := Decode(input);
            if d.Err? then r == Err(d.error)
            else r == Ok(Decoded(d.value.major, d.value.minor, ByKind(d.value.items)))
  {
    hide DecodeItems, ByKind;
    if |input| < HEADER_SIZE {
      return Err(ShortHeader);
    }
    if input[..4] != IDENTIFIER {
      return Err(BadIdentifier);
    }
    if LittleEndian(input[8..12]) + HEADER_SIZE != |input| {
      return Err(SizeMismatch);
    }
    var items := DecodeBody(input);
    if items.Err? {
      return Err(items.error);
    }
    if items.value == map[] {
      return Err(Empty);
    }
    return Ok(Decoded(LittleEndian(input[4..6]), LittleEndian(input[6..8]), items.value));
  }

  /** The loop over the items behind the header. */
  method DecodeBody(input: seq<Byte>) returns (r: Result<map<nat, seq<Byte>>, TlvError>)
    requires |input| >= HEADER_SIZE
    ensures var d := DecodeItems(input[HEADER_SIZE..], {});
            if d.Err? then r == Err(d.error)
            else r == Ok(ByKind(d.value)) && (r.value == map[] <==> d.value == [])
  {
    hide DecodeItem, DecodeItems, ByKind;
    var pos := HEADER_SIZE;
    var data: map<nat, seq<Byte>> := map[];
    ghost var found: seq<Item> := [];
    BehindNothing(DecodeItems(input[HEADER_SIZE..], {}));
    KindsOfNone();
    assert data.Keys == {};
    while pos < |input|
      invariant HEADER_SIZE <= pos <= |input|
      invariant data == ByKind(found)
      invariant DecodeItems(input[HEADER_SIZE..], {}) == Behind(found, DecodeItems(input[pos..], data.Keys))
      invariant data == map[] <==> found == []
    {
      var item := DecodeItem(input[pos..]);
      DecodeItemsFails(input[pos..], data.Keys);
      if item.Err? {
        return Err(item.error);
      }
      if item.value.kind in data {
        return Err(Duplicate);
      }
      ghost var seen := data.Keys;
      Advance(input, pos, found, item.value, seen);
      ByKindSnoc(found, item.value);
      data := data[item.value.kind := item.value.value];
      assert data.Keys == seen + {item.value.kind};
      found := found + [item.value];
      pos := pos + ITEM_HEADER_SIZE + |item.value.value|;
    }
    NothingBehind(found, input[pos..], data.Keys);
    return Ok(data);
  }

  lemma BehindNothing(r: Result<seq<Item>, TlvError>)
    ensures Behind([], r) == r
  {
    if r.Ok? {
      assert [] + r.value == r.value;
    }
  }

  lemma NothingBehind(found: seq<Item>, b: seq<Byte>, seen: set<nat>)
    requires b == []
    ensures Behind(found, DecodeItems(b, seen)) == Ok(found)
  {
    assert found + [] == found;
  }

  lemma KindsOfNone()
    ensures ByKind([]) == map[]
  {}

  lemma ByKindSnoc(items: seq<Item>, it: Item)
    ensures ByKind(items + [it]) == ByKind(items)[it.kind := it.value]
  {
    assert (items + [it])[..|items|] == items;
  }

  lemma DecodeItemsFails(b: seq<Byte>, seen: set<nat>)
    requires b != []
    ensures var it := DecodeItem(b);
            && (it.Err? ==> DecodeItems(b, seen) == Err(it.error))
            && (it.Ok? && it.value.kind in seen ==> DecodeItems(b, seen) == Err(Duplicate))
  {
    hide DecodeItem;
  }

  lemma Advance(input: seq<Byte>, pos: nat, found: seq<Item>, it: Item, seen: set<nat>)
    requires pos < |input| && DecodeItem(input[pos..]) == Ok(it) && it.kind !in seen
    ensures pos + ITEM_HEADER_SIZE + |it.value| <= |input|
    ensures Behind(found, DecodeItems(input[pos..], seen))
            == Behind(found + [it], DecodeItems(input[pos + ITEM_HEADER_SIZE + |it.value|..], seen + {it.kind}))
  {
    hide DecodeItem;
    var size := ITEM_HEADER_SIZE + |it.value|;
    assert input[pos..][size..] == input[pos + size..];
    var rest := DecodeItems(input[pos + size..], seen + {it.kind});
    if rest.Ok? {
      assert found + ([it] + rest.value) == found + [it] + rest.value;
    }
  }
}
