/** Debug-token packages: a list of records walked one after the other, each found by the
    length in its own header, into a multimap from serial numbers to record bytes. */
module TokenPackage {
  import opened Bytes
  import opened Outcomes
  import HexCodec
  import TlvCodec

  /** The TLV records of version 2, and the fixed token structures before it. */
  datatype Format = Tlv | Legacy

  const SERIAL_KIND := 0x0003
  const TOKEN_HEADER_SIZE := 36
  const SERIAL_SIZE_DEFAULT := 8
  const SERIAL_SIZE_MCU := 16

  /** "MCDT", the identifier of an MCU token. */
  const MCU_IDENTIFIER: seq<Byte> := [0x4D, 0x43, 0x44, 0x54]

  datatype Token = Token(serial: string, data: seq<Byte>)

  /** What the walk finds at an offset: an end it cannot pass, or a record that may be
      broken or carry no serial number. */
  datatype Piece = Stop | Record(size: nat, good: bool, serial: Option<string>)

  function UpperDigit(v: nat): char
    requires v < 16
  {
    if v < 10 then ('0' as int + v) as char else ('A' as int + v - 10) as char
  }

  function UpperPair(b: Byte): (s: string)
    ensures |s| == 2 && HexCodec.AllHex(s) && HexCodec.ByteOf(s[0], s[1]) == b
  {
    [UpperDigit(b / 16), UpperDigit(b % 16)]
  }

  function HexPairs(bytes: seq<Byte>): string {
    if bytes == [] then "" else HexPairs(bytes[..|bytes| - 1]) + UpperPair(bytes[|bytes| - 1])
  }

  function SerialText(bytes: seq<Byte>): string {
    "0x" + HexPairs(bytes)
  }

  ghost function SerialOf(items: seq<TlvCodec.Item>): Option<string> {
    var data := TlvCodec.ByKind(items);
    if SERIAL_KIND in data then Some(SerialText(data[SERIAL_KIND])) else None
  }

  /** Where a record's header puts its end. */
  function TlvSize(data: seq<Byte>, offset: nat): nat
    requires offset + TlvCodec.HEADER_SIZE <= |data|
  {
    TlvCodec.HEADER_SIZE + LittleEndian(data[offset + 8..offset + 12])
  }

  ghost function TlvPiece(data: seq<Byte>, offset: nat): (p: Piece)
    ensures p.Record? ==> 0 < p.size && offset + p.size <= |data|
  {
    if offset + TlvCodec.HEADER_SIZE > |data| then Stop
    else
      var size := TlvSize(data, offset);
      if offset + size > |data| then Stop
      else
        var s := TlvCodec.Decode(data[offset..offset + size]);
        if s.Err? then Record(size, false, None) else Record(size, true, SerialOf(s.value.items))
  }

  function SerialSize(identifier: seq<Byte>): nat {
    if identifier == MCU_IDENTIFIER then SERIAL_SIZE_MCU else SERIAL_SIZE_DEFAULT
  }

  /** The serial number follows the token header; it is read before the size is looked at,
      and must be there in full. */
  function LegacyPiece(data: seq<Byte>, offset: nat): (p: Piece)
    ensures p.Record? ==> 0 < p.size && offset + p.size <= |data|
  {
    if offset + TOKEN_HEADER_SIZE > |data| then Stop
    else
      var serialEnd := offset + TOKEN_HEADER_SIZE + SerialSize(data[offset..offset + 4]);
      var size := LittleEndian(data[offset + 8..offset + 10]);
      if serialEnd > |data| || size < TOKEN_HEADER_SIZE || offset + size > |data| then Stop
      else Record(size, true, Some(SerialText(data[offset + TOKEN_HEADER_SIZE..serialEnd])))
  }

  ghost function PieceAt(fmt: Format, data: seq<Byte>, offset: nat): (p: Piece)
    ensures p.Record? ==> 0 < p.size && offset + p.size <= |data|
  {
    if fmt == Tlv then TlvPiece(data, offset) else LegacyPiece(data, offset)
  }

  /** A record that was walked over. */
  datatype Cut = Cut(start: nat, end: nat, good: bool, serial: Option<string>)

  /** A walk so far: the records cut, the tokens stored, whether nothing went wrong, and
      whether an end was met. A broken record is passed over; an end is final. */
  datatype Walked = Walked(offset: nat, cuts: seq<Cut>, tokens: seq<Token>, ok: bool, stopped: bool)

  function Slice(data: seq<Byte>, start: nat, end: nat): seq<Byte> {
    if start <= end <= |data| then data[start..end] else []
  }

  function Stored(data: seq<Byte>, c: Cut): seq<Token> {
    if c.serial.Some? then [Token(c.serial.value, Slice(data, c.start, c.end))] else []
  }

  ghost function Step(fmt: Format, data: seq<Byte>, w: Walked): Walked {
    if w.stopped then w
    else
      var p := PieceAt(fmt, data, w.offset);
      if p.Stop? then w.(ok := false, stopped := true)
      else
        var c := Cut(w.offset, w.offset + p.size, p.good, p.serial);
        Walked(c.end, w.cuts + [c], w.tokens + Stored(data, c), w.ok && c.good, false)
  }

  /** The walk over `records` declared records. */
  ghost function Walk(fmt: Format, data: seq<Byte>, start: nat, records: nat): Walked {
    if records == 0 then Walked(start, [], [], true, false) else Step(fmt, data, Walk(fmt, data, start, records - 1))
  }

  // ---- What a walk over any bytes does ----

  ghost predicate Genuine(fmt: Format, data: seq<Byte>, c: Cut) {
    c.start < c.end <= |data| && PieceAt(fmt, data, c.start) == Record(c.end - c.start, c.good, c.serial)
  }

  /** The cuts lie one after the other from `start` to `end`. */
  ghost predicate Tiles(cuts: seq<Cut>, start: nat, end: nat) {
    if cuts == [] then start == end
    else
      var c := cuts[|cuts| - 1];
      Tiles(cuts[..|cuts| - 1], start, c.start) && c.end == end
  }

  ghost predicate AllGenuine(fmt: Format, data: seq<Byte>, cuts: seq<Cut>) {
    forall c | c in cuts :: Genuine(fmt, data, c)
  }

  ghost predicate AllGood(cuts: seq<Cut>) {
    forall c | c in cuts :: c.good
  }

  function TokensOf(data: seq<Byte>, cuts: seq<Cut>): seq<Token> {
    if cuts == [] then []
    else TokensOf(data, cuts[..|cuts| - 1]) + Stored(data, cuts[|cuts| - 1])
  }

  lemma CutsSnoc(fmt: Format, data: seq<Byte>, cuts: seq<Cut>, c: Cut, start: nat)
    requires AllGenuine(fmt, data, cuts) && Genuine(fmt, data, c) && Tiles(cuts, start, c.start)
    ensures AllGenuine(fmt, data, cuts + [c])
    ensures AllGood(cuts + [c]) <==> AllGood(cuts) && c.good
    ensures Tiles(cuts + [c], start, c.end)
    ensures TokensOf(data, cuts + [c]) == TokensOf(data, cuts) + Stored(data, c)
  {
    hide Genuine, Stored;
    assert (cuts + [c])[..|cuts|] == cuts;
    assert c in cuts + [c];
    forall x | x in cuts
      ensures x in cuts + [c]
    {}
  }

  /** For any bytes, the walk cuts one contiguous run of records from the start offset on
      and stores, in order, those that carry a serial number, byte for byte; nothing went
      wrong exactly when all declared records were walked and none was broken; and it stops
      early only where no record fits. */
  lemma {:induction false} WalkTiles(fmt: Format, data: seq<Byte>, start: nat, records: nat)
    ensures var w := Walk(fmt, data, start, records);
            && AllGenuine(fmt, data, w.cuts)
            && Tiles(w.cuts, start, w.offset)
            && w.tokens == TokensOf(data, w.cuts)
            && |w.cuts| <= records
            && (w.ok <==> |w.cuts| == records && AllGood(w.cuts))
            && (w.stopped <==> |w.cuts| < records)
            && (w.stopped ==> PieceAt(fmt, data, w.offset) == Stop)
    decreases records
  {
    hide PieceAt, AllGenuine, AllGood, Tiles, TokensOf, Stored;
    if records == 0 {
      assert AllGenuine(fmt, data, []) && AllGood([]) && Tiles([], start, start) && TokensOf(data, []) == [] by {
        NoCuts(fmt, data, start);
      }
    } else {
      WalkTiles(fmt, data, start, records - 1);
      var w := Walk(fmt, data, start, records - 1);
      var p := PieceAt(fmt, data, w.offset);
      if !w.stopped && p.Record? {
        CutsSnoc(fmt, data, w.cuts, Cut(w.offset, w.offset + p.size, p.good, p.serial), start);
      }
    }
  }

  lemma NoCuts(fmt: Format, data: seq<Byte>, start: nat)
    ensures AllGenuine(fmt, data, []) && AllGood([]) && Tiles([], start, start) && TokensOf(data, []) == []
  {}

  function Joined(data: seq<Byte>, cuts: seq<Cut>): seq<Byte> {
    if cuts == [] then []
    else Joined(data, cuts[..|cuts| - 1]) + Slice(data, cuts[|cuts| - 1].start, cuts[|cuts| - 1].end)
  }

  lemma SlicesJoin(data: seq<Byte>, a: nat, b: nat, c: nat)
    requires a <= b <= c <= |data|
    ensures Slice(data, a, b) + Slice(data, b, c) == Slice(data, a, c)
  {}

  /** The records put together again are the bytes walked over: none is lost, none taken
      twice. */
  lemma {:induction false} TilesJoin(fmt: Format, data: seq<Byte>, cuts: seq<Cut>, start: nat, end: nat)
    requires AllGenuine(fmt, data, cuts) && Tiles(cuts, start, end)
    ensures start <= end && (cuts != [] ==> end <= |data|)
    ensures Joined(data, cuts) == Slice(data, start, end)
  {
    hide PieceAt, Slice;
    if cuts == [] {
      EmptySlice(data, start);
    } else {
      var init, c := cuts[..|cuts| - 1], cuts[|cuts| - 1];
      assert c in cuts;
      TilesJoin(fmt, data, init, start, c.start);
      SlicesJoin(data, start, c.start, c.end);
    }
  }

  lemma EmptySlice(data: seq<Byte>, start: nat)
    ensures Slice(data, start, start) == []
  {}

  // ---- Well-formed packages ----

  /** A record that is read back whole wherever it lies. */
  ghost predicate Reads(fmt: Format, record: seq<Byte>, serial: Option<string>) {
    forall before: seq<Byte>, after: seq<Byte> ::
      PieceAt(fmt, before + record + after, |before|) == Record(|record|, true, serial)
  }

  datatype Entry = Entry(record: seq<Byte>, serial: Option<string>)

  function Laid(entries: seq<Entry>): seq<Byte> {
    if entries == [] then [] else Laid(entries[..|entries| - 1]) + entries[|entries| - 1].record
  }

  function TokenOf(e: Entry): seq<Token> {
    if e.serial.Some? then [Token(e.serial.value, e.record)] else []
  }

  function Bag(entries: seq<Entry>): seq<Token> {
    if entries == [] then [] else Bag(entries[..|entries| - 1]) + TokenOf(entries[|entries| - 1])
  }

  lemma ReadRecord(fmt: Format, before: seq<Byte>, e: Entry, after: seq<Byte>, w: Walked)
    requires Reads(fmt, e.record, e.serial)
    requires !w.stopped && w.ok && w.offset == |before|
    ensures var n := Step(fmt, before + e.record + after, w);
            && n.ok && !n.stopped && n.offset == |before| + |e.record|
            && n.tokens == w.tokens + TokenOf(e)
  {
    hide PieceAt;
    var data := before + e.record + after;
    assert PieceAt(fmt, data, |before|) == Record(|e.record|, true, e.serial);
    assert Slice(data, |before|, |before| + |e.record|) == e.record;
  }

  lemma Regroup(before: seq<Byte>, init: seq<Byte>, record: seq<Byte>, after: seq<Byte>)
    ensures before + (init + record) + after == before + init + (record + after)
    ensures before + (init + record) + after == (before + init) + record + after
  {}

  /** A package of well-formed records, whatever surrounds them, gives exactly their
      tokens and nothing goes wrong. */
  lemma {:induction false} WellFormedWalk(fmt: Format, before: seq<Byte>, entries: seq<Entry>, after: seq<Byte>)
    requires forall e | e in entries :: Reads(fmt, e.record, e.serial)
    ensures var w := Walk(fmt, before + Laid(entries) + after, |before|, |entries|);
            w.ok && !w.stopped && w.tokens == Bag(entries) && w.offset == |before| + |Laid(entries)|
    decreases entries
  {
    if entries != [] {
      hide Step, Reads;
      var init, e := entries[..|entries| - 1], entries[|entries| - 1];
      assert e in entries;
      Regroup(before, Laid(init), e.record, after);
      WellFormedWalk(fmt, before, init, e.record + after);
      ReadRecord(fmt, before + Laid(init), e, after,
                 Walk(fmt, before + Laid(entries) + after, |before|, |init|));
    }
  }

  /** Every encoding of a valid TLV structure is a well-formed record. */
  lemma TlvRecordReads(s: TlvCodec.Structure)
    requires TlvCodec.Valid(s)
    ensures Reads(Tlv, TlvCodec.Encode(s), SerialOf(s.items))
  {
    hide TlvCodec.Decode, TlvCodec.Encode, TlvCodec.Valid, SerialOf;
    var record := TlvCodec.Encode(s);
    TlvCodec.DecodeEncode(s);
    DecodedSize(record);
    forall before: seq<Byte>, after: seq<Byte>
      ensures PieceAt(Tlv, before + record + after, |before|) == Record(|record|, true, SerialOf(s.items))
    {
      var data := before + record + after;
      assert data[|before| + 8..|before| + 12] == record[8..12];
      assert data[|before|..|before| + |record|] == record;
    }
  }

  lemma DecodedSize(record: seq<Byte>)
    requires TlvCodec.Decode(record).Ok?
    ensures |record| >= TlvCodec.HEADER_SIZE && TlvCodec.HEADER_SIZE + LittleEndian(record[8..12]) == |record|
  {}

  /** A legacy token that holds its serial number is a well-formed record. */
  lemma LegacyRecordReads(record: seq<Byte>)
    requires |record| >= TOKEN_HEADER_SIZE
    requires TOKEN_HEADER_SIZE + SerialSize(record[..4]) <= |record| == LittleEndian(record[8..10])
    ensures Reads(Legacy, record,
                  Some(SerialText(record[TOKEN_HEADER_SIZE..TOKEN_HEADER_SIZE + SerialSize(record[..4])])))
  {
    hide SerialText;
    var serialEnd := TOKEN_HEADER_SIZE + SerialSize(record[..4]);
    forall before: seq<Byte>, after: seq<Byte>
      ensures PieceAt(Legacy, before + record + after, |before|)
              == Record(|record|, true, Some(SerialText(record[TOKEN_HEADER_SIZE..serialEnd])))
    {
      var data := before + record + after;
      assert data[|before|..|before| + 4] == record[..4];
      assert data[|before| + 8..|before| + 10] == record[8..10];
      assert data[|before| + TOKEN_HEADER_SIZE..|before| + serialEnd] == record[TOKEN_HEADER_SIZE..serialEnd];
    }
  }

  ghost function TlvEntries(structures: seq<TlvCodec.Structure>): (entries: seq<Entry>)
    ensures |entries| == |structures|
  {
    seq(|structures|, i requires 0 <= i < |structures| =>
      Entry(TlvCodec.Encode(structures[i]), SerialOf(structures[i].items)))
  }

  /** A TLV package of valid structures: all of them are walked, nothing goes wrong, and
      the tokens are the serial and the bytes of each one that carries a serial, in order. */
  lemma TlvPackageExact(structures: seq<TlvCodec.Structure>, after: seq<Byte>)
    requires forall s | s in structures :: TlvCodec.Valid(s)
    ensures var entries := TlvEntries(structures);
            var w := Walk(Tlv, Laid(entries) + after, 0, |entries|);
            w.ok && w.tokens == Bag(entries)
  {
    hide Reads, Walk, Laid, Bag, SerialOf, TlvCodec.Encode, TlvCodec.Valid;
    var entries := TlvEntries(structures);
    forall e | e in entries
      ensures Reads(Tlv, e.record, e.serial)
    {
      var i: nat :| i < |entries| && entries[i] == e;
      assert structures[i] in structures;
      TlvRecordReads(structures[i]);
    }
    WellFormedWalk(Tlv, [], entries, after);
    assert [] + Laid(entries) + after == Laid(entries) + after;
  }

  // ---- Serial numbers ----

  lemma {:induction false} PairsDecode(bytes: seq<Byte>)
    ensures HexCodec.IsBase16(HexPairs(bytes)) && HexCodec.Decode(HexPairs(bytes)) == bytes
  {
    if bytes != [] {
      hide UpperPair;
      var init, b := bytes[..|bytes| - 1], bytes[|bytes| - 1];
      PairsDecode(init);
      HexCodec.DecodeSnoc(HexPairs(init), UpperPair(b));
      assert init + [b] == bytes;
    }
  }

  /** The digits after "0x" are Base16 for the serial number's bytes, so serial numbers that
      differ have keys that differ. */
  lemma SerialTextDecodes(bytes: seq<Byte>)
    ensures var digits := SerialText(bytes)[2..];
            HexCodec.IsBase16(digits) && HexCodec.Decode(digits) == bytes
  {
    hide HexPairs;
    PairsDecode(bytes);
    assert SerialText(bytes)[2..] == HexPairs(bytes);
  }

  method FormatSerialNumber(serialBytes: seq<Byte>) returns (r: string)
    ensures r == SerialText(serialBytes)
  {
    r := "0x";
    for i := 0 to |serialBytes|
      invariant r == SerialText(serialBytes[..i])
    {
      var byte := serialBytes[i];
      assert serialBytes[..i + 1][..i] == serialBytes[..i];
      r := r + UpperPair(byte);
    }
    assert serialBytes[..|serialBytes|] == serialBytes;
  }

  // ---- Serial numbers and layouts, literally ----

  /** Upper-case digits behind "0x", the high nibble of a byte first. */
  lemma SerialsAreUpperCase(bytes: seq<Byte>)
    ensures forall k: nat | 2 <= k < |SerialText(bytes)| :: SerialText(bytes)[k] in "0123456789ABCDEF"
    ensures |SerialText(bytes)| == 2 + 2 * |bytes| && SerialText(bytes)[..2] == "0x"
    ensures SerialText([0xAB]) == "0xAB"
  {
    hide HexPairs;
    PairsAreUpperCase(bytes);
    OnePair();
    assert SerialText([0xAB]) == "0x" + "AB";
  }

  lemma OnePair()
    ensures HexPairs([0xAB]) == "AB"
  {
    assert [0xAB][..0] == [];
  }

  lemma UpperDigitIs(v: nat)
    requires v < 16
    ensures UpperDigit(v) in "0123456789ABCDEF"
  {
    assert UpperDigit(v) == "0123456789ABCDEF"[v];
  }

  lemma {:induction false} PairsAreUpperCase(bytes: seq<Byte>)
    ensures |HexPairs(bytes)| == 2 * |bytes|
    ensures forall k: nat | k < |HexPairs(bytes)| :: HexPairs(bytes)[k] in "0123456789ABCDEF"
  {
    if bytes != [] {
      hide UpperDigit;
      var init, b := bytes[..|bytes| - 1], bytes[|bytes| - 1];
      PairsAreUpperCase(init);
      UpperDigitIs(b / 16);
      UpperDigitIs(b % 16);
    }
  }

  /** A record's serial number is the value of its item of type 3. */
  lemma {:induction false} SerialIsItemThree(items: seq<TlvCodec.Item>)
    ensures SerialOf(items) == None <==> forall i: nat | i < |items| :: items[i].kind != 3
    ensures TlvCodec.FreshKinds(items, {}) ==>
              forall i: nat | i < |items| && items[i].kind == 3 :: SerialOf(items) == Some(SerialText(items[i].value))
  {
    if items != [] {
      hide SerialText;
      SerialIsItemThree(items[..|items| - 1]);
    }
  }

  /** An older token: identifier, eight bytes up to its size, 36 bytes up to its serial
      number, which has eight bytes, or sixteen for the identifier "MCDT". */
  lemma LegacyTokenReads(identifier: seq<Byte>, version: seq<Byte>, size: seq<Byte>, head: seq<Byte>,
                         serial: seq<Byte>, rest: seq<Byte>)
    requires |identifier| == 4 && |version| == 4 && |size| == 2 && |head| == 26
    requires |serial| == if identifier == [0x4D, 0x43, 0x44, 0x54] then 16 else 8
    requires LittleEndian(size) == 36 + |serial| + |rest|
    ensures Reads(Legacy, identifier + version + size + head + serial + rest, Some(SerialText(serial)))
  {
    hide SerialText, Reads;
    var record := identifier + version + size + head + serial + rest;
    assert record[..4] == identifier && record[8..10] == size && record[36..36 + |serial|] == serial;
    LegacyRecordReads(record);
  }

  /** A TLV record that fits is good exactly when it is the encoding of a valid structure,
      and only then can it carry a serial number. */
  lemma GoodRecordIsStructure(data: seq<Byte>, offset: nat)
    requires TlvPiece(data, offset).Record?
    ensures var p := TlvPiece(data, offset);
            && p.size == 32 + LittleEndian(data[offset + 8..offset + 12])
            && (p.good <==> exists s :: TlvCodec.Valid(s) && TlvCodec.Encode(s) == data[offset..offset + p.size])
            && (!p.good ==> p.serial == None)
  {
    hide LittleEndian, SerialOf, TlvCodec.Decode, TlvCodec.Encode, TlvCodec.Valid;
    var p := TlvPiece(data, offset);
    var record := data[offset..offset + p.size];
    if p.good {
      TlvCodec.EncodeDecode(record);
    } else {
      forall s | TlvCodec.Valid(s)
        ensures TlvCodec.Encode(s) != record
      {
        TlvCodec.DecodeEncode(s);
      }
    }
  }

  /** Where a walk stops: less than a header is left, or less than the header asks for. */
  lemma PieceStops(data: seq<Byte>, offset: nat)
    ensures TlvPiece(data, offset) == Stop <==>
              || |data| < offset + 32
              || |data| < offset + 32 + LittleEndian(data[offset + 8..offset + 12])
    ensures LegacyPiece(data, offset) == Stop <==>
              || |data| < offset + 36
              || |data| < offset + (if data[offset..offset + 4] == [0x4D, 0x43, 0x44, 0x54] then 52 else 44)
              || LittleEndian(data[offset + 8..offset + 10]) < 36
              || |data| < offset + LittleEndian(data[offset + 8..offset + 10])
  {
    hide LittleEndian, SerialText, SerialOf, TlvCodec.Decode;
  }

  // ---- The walks as the source runs them ----

  lemma {:induction false} StoppedStays(fmt: Format, data: seq<Byte>, start: nat, i: nat, records: nat)
    requires i <= records && Walk(fmt, data, start, i).stopped
    ensures Walk(fmt, data, start, records) == Walk(fmt, data, start, i)
    decreases records
  {
    if i < records {
      StoppedStays(fmt, data, start, i, records - 1);
    }
  }

  /** What one TLV record comes to: no room for it, an exception from the decoder, or a
      record with the token it adds, if any. */
  datatype RecordResult = NoRoom | Thrown(recordSize: nat) | Parsed(recordSize: nat, token: Option<Token>)

  method ParseSingleTlvRecord(tokenData: seq<Byte>, offset: nat) returns (r: RecordResult)
    ensures var p := TlvPiece(tokenData, offset);
            match r
            case NoRoom => p == Stop
            case Thrown(size) => p == Record(size, false, None)
            case Parsed(size, token) =>
              && p.Record? && p.good && p.size == size
              && token == (if p.serial.Some? then Some(Token(p.serial.value, Slice(tokenData, offset, offset + size)))
                           else None)
  {
    if offset + TlvCodec.HEADER_SIZE > |tokenData| {
      return NoRoom;
    }
    var payloadSize := LittleEndian(tokenData[offset + 8..offset + 12]);
    var recordSize := TlvCodec.HEADER_SIZE + payloadSize;
    if offset + recordSize > |tokenData| {
      return NoRoom;
    }
    var singleTlvData := tokenData[offset..offset + recordSize];
    var tlvStructure := TlvCodec.DecodeStructure(singleTlvData);
    if tlvStructure.Err? {
      return Thrown(recordSize);
    }
    if SERIAL_KIND !in tlvStructure.value.data {
      return Parsed(recordSize, None);
    }
    var serialNumber := FormatSerialNumber(tlvStructure.value.data[SERIAL_KIND]);
    return Parsed(recordSize, Some(Token(serialNumber, singleTlvData)));
  }

  lemma PastEnd(data: seq<Byte>, offset: nat)
    requires offset >= |data|
    ensures TlvPiece(data, offset) == Stop
  {}

  /** The list must start within the file: the source forms the rest of the file from it
      unchecked. The tokens already there count as tokens found. */
  method ParseTlvTokens(fullFile: seq<Byte>, offsetToList: nat, numberOfRecords: nat, known: seq<Token>)
      returns (status: int, tokens: seq<Token>)
    requires offsetToList <= |fullFile|
    ensures var w := Walk(Tlv, fullFile[offsetToList..], 0, numberOfRecords);
            && tokens == known + w.tokens
            && status == if w.ok && tokens != [] then 0 else -1
  {
    hide TlvPiece, Slice;
    status, tokens := 0, known;
    var tokenData := fullFile[offsetToList..];
    var offset := 0;
    var i := 0;
    while i < numberOfRecords
      invariant 0 <= i <= numberOfRecords
      invariant var w := Walk(Tlv, tokenData, 0, i);
                && !w.stopped && offset == w.offset && tokens == known + w.tokens
                && status == if w.ok then 0 else -1
    {
      ghost var w := Walk(Tlv, tokenData, 0, i);
      if offset >= |tokenData| {
        status := -1;
        PastEnd(tokenData, offset);
        break;
      }
      var result := ParseSingleTlvRecord(tokenData, offset);
      if result.NoRoom? {
        status := -1;
        break;
      }
      if result.Thrown? {
        offset := offset + result.recordSize;
        status := -1;
      } else {
        if result.token.Some? {
          tokens := tokens + [result.token.value];
        }
        ghost var c := Cut(offset, offset + result.recordSize, true, TlvPiece(tokenData, offset).serial);
        assert tokens == known + (w.tokens + Stored(tokenData, c));
        offset := offset + result.recordSize;
      }
      i := i + 1;
    }
    if i < numberOfRecords {
      StoppedStays(Tlv, tokenData, 0, i + 1, numberOfRecords);
    }
    if tokens == [] {
      status := -1;
    }
  }

  /** One token structure of the older format. Its size field and its serial number are
      read before the whole token is. */
  method GetNextDebugToken(file: seq<Byte>, tokenOffset: nat) returns (r: Option<Token>)
    ensures var p := LegacyPiece(file, tokenOffset);
            if p.Stop? then r == None
            else p.serial.Some? && r == Some(Token(p.serial.value, Slice(file, tokenOffset, tokenOffset + p.size)))
  {
    if tokenOffset + TOKEN_HEADER_SIZE > |file| {
      return None;
    }
    var identifier := file[tokenOffset..tokenOffset + 4];
    var serialSize := SERIAL_SIZE_DEFAULT;
    if identifier == MCU_IDENTIFIER {
      serialSize := SERIAL_SIZE_MCU;
    }
    var serialAt := tokenOffset + TOKEN_HEADER_SIZE;
    var tokenSize := LittleEndian(file[tokenOffset + 8..tokenOffset + 10]);
    if tokenSize < TOKEN_HEADER_SIZE {
      return None;
    }
    if serialAt + serialSize > |file| || tokenOffset + tokenSize > |file| {
      return None;
    }
    var serialNumber := FormatSerialNumber(file[serialAt..serialAt + serialSize]);
    return Some(Token(serialNumber, file[tokenOffset..tokenOffset + tokenSize]));
  }

  /** The older format's loop: the first record that cannot be read ends it. */
  method UpdateTokenMap(file: seq<Byte>, offsetToList: nat, numberOfRecords: nat, known: seq<Token>)
      returns (status: int, tokens: seq<Token>)
    requires |file| < 0x1_0000_0000
    ensures var w := Walk(Legacy, file, offsetToList, numberOfRecords);
            tokens == known + w.tokens && status == if w.ok then 0 else -1
  {
    hide LegacyPiece, Slice;
    tokens := known;
    var tokenOffset := offsetToList;
    for i := 0 to numberOfRecords
      invariant var w := Walk(Legacy, file, offsetToList, i);
                !w.stopped && w.ok && tokenOffset == w.offset && tokens == known + w.tokens
    {
      ghost var w := Walk(Legacy, file, offsetToList, i);
      ghost var p := LegacyPiece(file, tokenOffset);
      var token := GetNextDebugToken(file, tokenOffset);
      LegacyGood(file, tokenOffset);
      if token.None? {
        StoppedStays(Legacy, file, offsetToList, i + 1, numberOfRecords);
        return -1, tokens;
      }
      tokens := tokens + [token.value];
      assert tokens == known + (w.tokens + Stored(file, Cut(tokenOffset, tokenOffset + p.size, true, p.serial)));
      tokenOffset := tokenOffset + |token.value.data|;
    }
    return 0, tokens;
  }

  lemma LegacyGood(file: seq<Byte>, offset: nat)
    ensures var p := LegacyPiece(file, offset);
            p.Record? ==> p.good && p.serial.Some? && |Slice(file, offset, offset + p.size)| == p.size
  {}
}
