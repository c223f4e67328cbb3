/** The configuration file of a given `SwitchConfig`, in the grammar documented above
    `parseConfigFile`, and the round trip through the parser. */
module ConfigPrinter {
  import opened Outcomes
  import opened Text
  import opened HexCodec
  import opened Decimal
  import opened ConfigParser

  function RootName(p: Phase): string {
    match p
    case PortsDown => "ports_down"
    case Configure => "configure"
    case PortsUp => "ports_up"
  }

  function CountName(p: Phase): string {
    match p
    case PortsDown => "ports_down_count"
    case Configure => "configure_count"
    case PortsUp => "ports_up_count"
  }

  function SizesName(p: Phase): string {
    match p
    case PortsDown => "ports_down_sizes"
    case Configure => "configure_sizes"
    case PortsUp => "ports_up_sizes"
  }

  function BlobLine(b: Blob): string {
    "- " + Encode(b)
  }

  function SizeLine(b: Blob): string {
    "  - " + Decimal.Print(|b|)
  }

  function CountLineText(p: Phase, n: nat): string {
    "  " + CountName(p) + ": " + Decimal.Print(n)
  }

  function SizesLineText(p: Phase): string {
    "  " + SizesName(p) + ":"
  }

  function RootLines(p: Phase, blobs: seq<Blob>): seq<string> {
    [RootName(p) + ":"] + MapSeq(BlobLine, blobs)
  }

  function MetaLines(p: Phase, blobs: seq<Blob>): seq<string> {
    [CountLineText(p, |blobs|), SizesLineText(p)] + MapSeq(SizeLine, blobs)
  }

  function BlobPart(c: SwitchConfig): seq<string> {
    RootLines(PortsDown, c.portsDown) + RootLines(Configure, c.configure) + RootLines(PortsUp, c.portsUp)
  }

  function MetaPart(c: SwitchConfig): seq<string> {
    MetaLines(PortsDown, c.portsDown) + MetaLines(Configure, c.configure) + MetaLines(PortsUp, c.portsUp)
  }

  function ConfigLines(c: SwitchConfig): seq<string> {
    BlobPart(c) + (["metadata:"] + MetaPart(c))
  }

  function Print(c: SwitchConfig): string {
    Unlines(ConfigLines(c))
  }

  // ---- How the parser classifies each printed line ----

  /** A key as the grammar spells it: lower-case letters and underscores. */
  ghost predicate PlainKey(key: string) {
    key != "" && forall i | 0 <= i < |key| :: 'a' <= key[i] <= 'z' || key[i] == '_'
  }

  lemma RootNamesArePlain(p: Phase)
    ensures PlainKey(RootName(p)) && PlainKey("metadata")
  {}

  lemma CountNamesArePlain(p: Phase)
    ensures PlainKey(CountName(p))
  {}

  lemma SizesNamesArePlain(p: Phase)
    ensures PlainKey(SizesName(p))
  {}

  lemma TrimNothing(s: string)
    requires Trimmed(s)
    ensures Trim(s) == s
  {
    TrimOf("", s, "");
    assert "" + s + "" == s;
  }

  lemma ClassifyRootKey(key: string)
    requires PlainKey(key)
    ensures Classify(key + ":") == RootKey(RootSection(key))
  {
    hide RootSection;
    var line := key + ":";
    TrimNothing(line);
    FindIs(line, ':', |key|);
    assert line[..|key|] == key;
    TrimNothing(key);
  }

  lemma ClassifySubStripped(key: string, tail: string, value: string)
    requires PlainKey(key) && Trim(tail) == value
    ensures ClassifySub(key + ":" + tail) == SubKeyLine(key, value)
  {
    hide SubKeyLine, Trim;
    var stripped := key + ":" + tail;
    assert stripped[0] == key[0];
    FindIs(stripped, ':', |key|);
    assert stripped[..|key|] == key && stripped[|key| + 1..] == tail;
    TrimNothing(key);
  }

  lemma ClassifyIndented(stripped: string)
    requires stripped != "" && Trimmed(stripped) && stripped[0] != '#'
    ensures Classify("  " + stripped) == ClassifySub(stripped)
  {
    hide ClassifySub, ClassifyRoot, Trim;
    var line := "  " + stripped;
    assert line == "  " + stripped + "";
    TrimOf("  ", stripped, "");
    assert line[|line| - 1] == stripped[|stripped| - 1];
  }

  lemma ClassifySubKey(key: string, value: string)
    requires PlainKey(key) && Trimmed(value)
    ensures Classify("  " + key + ":" + (if value == "" then "" else " " + value)) == SubKeyLine(key, value)
  {
    hide SubKeyLine, Trim, Classify, ClassifySub;
    var tail := if value == "" then "" else " " + value;
    if value == "" {
      TrimNothing("");
    } else {
      TrimOf(" ", value, "");
      assert " " + value + "" == tail;
    }
    ClassifySubStripped(key, tail, value);
    ClassifyIndented(key + ":" + tail);
    assert "  " + key + ":" + tail == "  " + (key + ":" + tail);
  }

  lemma ClassifyRootItem(item: string)
    requires item != "" && Trimmed(item) && item[|item| - 1] != '\r'
    ensures Classify("- " + item) == RootItem(item)
  {
    var line := "- " + item;
    TrimNothing(line);
    assert line[2..] == item;
    TrimNothing(item);
  }

  /** A dash with nothing after it is not a list item once it is trimmed. */
  lemma ClassifyBareDash()
    ensures Classify("- ") == Ignored
  {
    TrimOf("", "-", " ");
    assert "- " == "" + "-" + " ";
    FindIs("-", ':', 1);
  }

  lemma ClassifyBlobLine(b: Blob)
    ensures Classify(BlobLine(b)) == if b == [] then Ignored else RootItem(Encode(b))
  {
    hide Classify, Encode, Decode;
    var item := Encode(b);
    DecodeEncode(b);
    if b == [] {
      assert BlobLine(b) == "- ";
      ClassifyBareDash();
    } else {
      assert IsHexDigit(item[0]) && IsHexDigit(item[|item| - 1]);
      ClassifyRootItem(item);
    }
  }

  lemma ClassifySubItem(item: string)
    requires item != "" && Trimmed(item)
    ensures Classify("  - " + item) == SubItem(item)
  {
    hide Trim, Classify;
    var stripped := "- " + item;
    ClassifyIndented(stripped);
    assert "  - " + item == "  " + stripped;
    assert stripped[2..] == item;
    TrimNothing(item);
  }

  lemma ClassifySizeLine(b: Blob)
    ensures Classify(SizeLine(b)) == SubItem(Decimal.Print(|b|))
  {
    hide Classify, Decimal.Print;
    var item := Decimal.Print(|b|);
    assert IsDigit(item[0]) && IsDigit(item[|item| - 1]);
    ClassifySubItem(item);
  }

  // ---- Running the parser over the printed lines ----

  lemma RunTextConcat(st: State, a: seq<string>, b: seq<string>)
    ensures RunText(st, a + b) == if RunText(st, a).Ok? then RunText(RunText(st, a).value, b) else RunText(st, a)
  {
    assert MapSeq(Classify, a + b) == MapSeq(Classify, a) + MapSeq(Classify, b);
    RunConcat(st, MapSeq(Classify, a), MapSeq(Classify, b));
  }

  /** An empty blob prints a line that the parser passes over. */
  function NonEmpty(blobs: seq<Blob>): seq<Blob> {
    if blobs == [] then [] else (if blobs[0] == [] then [] else [blobs[0]]) + NonEmpty(blobs[1..])
  }

  ghost predicate NoneEmpty(blobs: seq<Blob>) {
    forall i | 0 <= i < |blobs| :: blobs[i] != []
  }

  lemma {:induction false} NonEmptyKeepsAll(blobs: seq<Blob>)
    ensures |NonEmpty(blobs)| <= |blobs|
    ensures NoneEmpty(blobs) ==> NonEmpty(blobs) == blobs
    ensures |NonEmpty(blobs)| == |blobs| ==> NoneEmpty(blobs)
  {
    if blobs != [] {
      NonEmptyKeepsAll(blobs[1..]);
      assert forall i | 1 <= i < |blobs| :: blobs[i] == blobs[1..][i - 1];
    }
  }

  lemma StepBlobLine(st: State, p: Phase, b: Blob)
    requires st.section == BlobSection(p)
    ensures Step(st, Classify(BlobLine(b))) ==
            Ok(st.(blobs := st.blobs.Set(p, st.blobs.Get(p) + if b == [] then [] else [b])))
  {
    hide Classify, Encode, Decode;
    ClassifyBlobLine(b);
    DecodeEncode(b);
    if b == [] {
      assert st.blobs.Get(p) + [] == st.blobs.Get(p);
    }
  }

  lemma {:induction false} RunBlobLines(st: State, p: Phase, blobs: seq<Blob>)
    requires st.section == BlobSection(p)
    ensures RunText(st, MapSeq(BlobLine, blobs)) ==
            Ok(st.(blobs := st.blobs.Set(p, st.blobs.Get(p) + NonEmpty(blobs))))
    decreases blobs
  {
    hide Classify, Step, BlobLine, RunText, MapSeq;
    if blobs == [] {
      RunTextEmpty(st);
      assert st.blobs.Get(p) + [] == st.blobs.Get(p);
    } else {
      var b, rest := blobs[0], blobs[1..];
      StepBlobLine(st, p, b);
      MapSeqCons(BlobLine, blobs);
      RunTextStep(st, BlobLine(b), MapSeq(BlobLine, rest));
      RunBlobLines(Step(st, Classify(BlobLine(b))).value, p, rest);
      var kept := if b == [] then [] else [b];
      assert st.blobs.Get(p) + kept + NonEmpty(rest) == st.blobs.Get(p) + (kept + NonEmpty(rest));
    }
  }

  function Lengths(blobs: seq<Blob>): seq<int> {
    MapSeq((b: Blob) => |b|, blobs)
  }

  ghost predicate LengthsFit(blobs: seq<Blob>) {
    forall i | 0 <= i < |blobs| :: |blobs[i]| <= INT_MAX
  }

  lemma LengthsStep(blobs: seq<Blob>)
    ensures blobs == [] ==> Lengths(blobs) == [] && LengthsFit(blobs)
    ensures blobs != [] ==> Lengths(blobs) == [|blobs[0]|] + Lengths(blobs[1..])
    ensures blobs != [] ==> (LengthsFit(blobs) <==> |blobs[0]| <= INT_MAX && LengthsFit(blobs[1..]))
  {
    if blobs != [] {
      assert blobs == [blobs[0]] + blobs[1..];
    }
  }

  lemma StepSizeLine(st: State, p: Phase, b: Blob)
    requires st.section == Metadata && st.sub == SizesOf(p)
    ensures Step(st, Classify(SizeLine(b))) ==
            if |b| <= INT_MAX then Ok(st.(sizes := st.sizes.Set(p, st.sizes.Get(p) + [|b|]))) else Err(BadInteger)
  {
    hide Classify, Decimal.Print, IsInt, ValueOf;
    ClassifySizeLine(b);
    IntOfPrint(|b|);
  }

  lemma {:induction false} RunSizeLines(st: State, p: Phase, blobs: seq<Blob>)
    requires st.section == Metadata && st.sub == SizesOf(p)
    ensures RunText(st, MapSeq(SizeLine, blobs)) ==
            if LengthsFit(blobs)
            then Ok(st.(sizes := st.sizes.Set(p, st.sizes.Get(p) + Lengths(blobs))))
            else Err(BadInteger)
    decreases blobs
  {
    hide Classify, Step, SizeLine, RunText, MapSeq, LengthsFit, Lengths;
    if blobs == [] {
      RunTextEmpty(st);
      LengthsStep(blobs);
      assert st.sizes.Get(p) + [] == st.sizes.Get(p);
    } else {
      var b, rest := blobs[0], blobs[1..];
      StepSizeLine(st, p, b);
      MapSeqCons(SizeLine, blobs);
      RunTextStep(st, SizeLine(b), MapSeq(SizeLine, rest));
      LengthsStep(blobs);
      if |b| <= INT_MAX {
        RunSizeLines(Step(st, Classify(SizeLine(b))).value, p, rest);
        assert st.sizes.Get(p) + [|b|] + Lengths(rest) == st.sizes.Get(p) + ([|b|] + Lengths(rest));
      }
    }
  }

  lemma RunRootLines(st: State, p: Phase, blobs: seq<Blob>)
    ensures RunText(st, RootLines(p, blobs)) ==
            Ok(st.(section := BlobSection(p), sub := NoSub,
                   blobs := st.blobs.Set(p, st.blobs.Get(p) + NonEmpty(blobs))))
  {
    hide Classify, BlobLine, RootSection, RootName, SubKeyLine;
    RootNamesArePlain(p);
    NamesAreKeys(p, "");
    ClassifyRootKey(RootName(p));
    RunTextStep(st, RootName(p) + ":", MapSeq(BlobLine, blobs));
    RunBlobLines(st.(section := BlobSection(p), sub := NoSub), p, blobs);
  }

  lemma RunMetadataLine(st: State)
    ensures RunText(st, ["metadata:"]) == Ok(st.(section := Metadata, sub := NoSub))
  {
    hide Classify, RootSection, RootName, SubKeyLine;
    RootNamesArePlain(PortsDown);
    assert "metadata:" == "metadata" + ":";
    NamesAreKeys(PortsDown, "");
    ClassifyRootKey("metadata");
    assert ["metadata:"] == ["metadata:"] + [];
    RunTextStep(st, "metadata:", []);
  }

  lemma NamesAreKeys(p: Phase, value: string)
    ensures RootSection(RootName(p)) == Some(BlobSection(p)) && RootSection("metadata") == Some(Metadata)
    ensures SubKeyLine(CountName(p), value) == CountLine(p, value)
    ensures SubKeyLine(SizesName(p), value) == SizesLine(p)
  {}

  lemma ClassifyCountLine(p: Phase, n: nat)
    ensures Classify(CountLineText(p, n)) == CountLine(p, Decimal.Print(n))
  {
    hide Classify, Decimal.Print, SubKeyLine, CountName;
    var value := Decimal.Print(n);
    assert IsDigit(value[0]) && IsDigit(value[|value| - 1]);
    CountNamesArePlain(p);
    NamesAreKeys(p, value);
    ClassifySubKey(CountName(p), value);
    assert "  " + CountName(p) + ": " + value == "  " + CountName(p) + ":" + (" " + value);
  }

  lemma ClassifySizesLine(p: Phase)
    ensures Classify(SizesLineText(p)) == SizesLine(p)
  {
    hide Classify, SubKeyLine, SizesName;
    SizesNamesArePlain(p);
    NamesAreKeys(p, "");
    ClassifySubKey(SizesName(p), "");
    assert SizesLineText(p) == "  " + SizesName(p) + ":" + "";
  }

  /** The count comes first, then the size list, so both reach the same state. */
  lemma RunMetaLines(st: State, p: Phase, blobs: seq<Blob>)
    requires st.section == Metadata
    ensures RunText(st, MetaLines(p, blobs)) ==
            if |blobs| <= INT_MAX && LengthsFit(blobs)
            then Ok(st.(sub := SizesOf(p), counts := st.counts.Set(p, |blobs|),
                        sizes := st.sizes.Set(p, st.sizes.Get(p) + Lengths(blobs))))
            else Err(BadInteger)
  {
    hide Classify, SizeLine, CountLineText, SizesLineText, IsInt, ValueOf, LengthsFit, Lengths;
    var rest := [SizesLineText(p)] + MapSeq(SizeLine, blobs);
    assert MetaLines(p, blobs) == [CountLineText(p, |blobs|)] + rest;
    ClassifyCountLine(p, |blobs|);
    IntOfPrint(|blobs|);
    RunTextStep(st, CountLineText(p, |blobs|), rest);
    if |blobs| <= INT_MAX {
      var st1 := st.(sub := NoSub, counts := st.counts.Set(p, |blobs|));
      ClassifySizesLine(p);
      RunTextStep(st1, SizesLineText(p), MapSeq(SizeLine, blobs));
      RunSizeLines(st1.(sub := SizesOf(p)), p, blobs);
    }
  }

  /** Every count and every blob length is one that the parser's `int` can hold. */
  ghost predicate Fits(c: SwitchConfig) {
    forall p :: |c.Get(p)| <= INT_MAX && LengthsFit(c.Get(p))
  }

  function EndState(c: SwitchConfig): State {
    State(Metadata, SizesOf(PortsUp),
          PerPhase(NonEmpty(c.portsDown), NonEmpty(c.configure), NonEmpty(c.portsUp)),
          PerPhase(|c.portsDown|, |c.configure|, |c.portsUp|),
          PerPhase(Lengths(c.portsDown), Lengths(c.configure), Lengths(c.portsUp)))
  }

  lemma RunBlobPart(c: SwitchConfig)
    ensures RunText(INITIAL, BlobPart(c)) ==
            Ok(INITIAL.(section := BlobSection(PortsUp), blobs := EndState(c).blobs))
  {
    hide RootLines, RunText, NonEmpty;
    assert forall blobs :: [] + NonEmpty(blobs) == NonEmpty(blobs);
    var d, f, u := RootLines(PortsDown, c.portsDown), RootLines(Configure, c.configure), RootLines(PortsUp, c.portsUp);
    RunRootLines(INITIAL, PortsDown, c.portsDown);
    var st1 := RunText(INITIAL, d).value;
    RunRootLines(st1, Configure, c.configure);
    RunTextConcat(INITIAL, d, f);
    var st2 := RunText(INITIAL, d + f).value;
    RunRootLines(st2, PortsUp, c.portsUp);
    RunTextConcat(INITIAL, d + f, u);
  }

  lemma RunMetaPart(c: SwitchConfig, st: State)
    requires st.section == Metadata && st.counts == INITIAL.counts && st.sizes == INITIAL.sizes
    requires st.blobs == EndState(c).blobs
    ensures RunText(st, MetaPart(c)) == if Fits(c) then Ok(EndState(c)) else Err(BadInteger)
  {
    hide MetaLines, RunText, NonEmpty, Lengths, LengthsFit;
    assert forall blobs :: [] + Lengths(blobs) == Lengths(blobs);
    var d, f, u := MetaLines(PortsDown, c.portsDown), MetaLines(Configure, c.configure), MetaLines(PortsUp, c.portsUp);
    assert c.Get(PortsDown) == c.portsDown && c.Get(Configure) == c.configure && c.Get(PortsUp) == c.portsUp;
    RunMetaLines(st, PortsDown, c.portsDown);
    RunTextConcat(st, d, f);
    RunTextConcat(st, d + f, u);
    if RunText(st, d).Ok? {
      var st1 := RunText(st, d).value;
      RunMetaLines(st1, Configure, c.configure);
      if RunText(st, d + f).Ok? {
        var st2 := RunText(st, d + f).value;
        RunMetaLines(st2, PortsUp, c.portsUp);
      }
    }
  }

  lemma RunConfigLines(c: SwitchConfig)
    ensures RunText(INITIAL, ConfigLines(c)) == if Fits(c) then Ok(EndState(c)) else Err(BadInteger)
  {
    hide RunText, BlobPart, MetaPart, Fits, EndState;
    RunBlobPart(c);
    var st := INITIAL.(section := BlobSection(PortsUp), blobs := EndState(c).blobs);
    RunMetadataLine(st);
    RunMetaPart(c, st.(section := Metadata, sub := NoSub));
    RunTextConcat(st, ["metadata:"], MetaPart(c));
    RunTextConcat(INITIAL, BlobPart(c), ["metadata:"] + MetaPart(c));
    assert ConfigLines(c) == BlobPart(c) + (["metadata:"] + MetaPart(c));
  }

  lemma RootLinesAreLines(p: Phase, blobs: seq<Blob>)
    ensures AllOneLine(RootLines(p, blobs))
  {
    RootNamesArePlain(p);
    hide RootName, Decode;
    assert OneLine(RootName(p) + ":");
    forall i | 0 <= i < |blobs| ensures OneLine(BlobLine(blobs[i])) {
      DecodeEncode(blobs[i]);
    }
  }

  lemma MetaLinesAreLines(p: Phase, blobs: seq<Blob>)
    ensures AllOneLine(MetaLines(p, blobs))
  {
    CountNamesArePlain(p);
    SizesNamesArePlain(p);
    hide CountName, SizesName, Decimal.Print;
    assert OneLine(CountLineText(p, |blobs|)) && OneLine(SizesLineText(p));
    assert forall i | 0 <= i < |blobs| :: OneLine(SizeLine(blobs[i]));
  }

  lemma NoNewlines(c: SwitchConfig)
    ensures AllOneLine(ConfigLines(c))
  {
    hide RootLines, MetaLines;
    RootLinesAreLines(PortsDown, c.portsDown);
    RootLinesAreLines(Configure, c.configure);
    RootLinesAreLines(PortsUp, c.portsUp);
    MetaLinesAreLines(PortsDown, c.portsDown);
    MetaLinesAreLines(Configure, c.configure);
    MetaLinesAreLines(PortsUp, c.portsUp);
  }

  ghost predicate Printable(c: SwitchConfig) {
    Fits(c) && forall p :: NoneEmpty(c.Get(p))
  }

  lemma SizesMatch(p: Phase, blobs: seq<Blob>)
    requires LengthsFit(blobs)
    ensures SizesCheck(p, blobs, Lengths(blobs)) == None
  {}

  lemma FinalOfEnd(c: SwitchConfig)
    requires Fits(c)
    ensures FinalCheck(EndState(c)) == Ok(c) <==> Printable(c)
    ensures FinalCheck(EndState(c)).Ok? ==> Printable(c)
  {
    hide SizesCheck, Lengths, NoneEmpty, LengthsFit;
    forall p ensures |NonEmpty(c.Get(p))| == |c.Get(p)| <==> NoneEmpty(c.Get(p))
             ensures NoneEmpty(c.Get(p)) ==> NonEmpty(c.Get(p)) == c.Get(p)
             ensures |NonEmpty(c.Get(p))| <= |c.Get(p)| <= INT_MAX
             ensures SizesCheck(p, c.Get(p), Lengths(c.Get(p))) == None
    {
      NonEmptyKeepsAll(c.Get(p));
      SizesMatch(p, c.Get(p));
    }
    assert c.Get(PortsDown) == c.portsDown && c.Get(Configure) == c.configure && c.Get(PortsUp) == c.portsUp;
    if FinalCheck(EndState(c)).Ok? {
      forall p ensures NoneEmpty(c.Get(p)) {
        match p { case PortsDown => case Configure => case PortsUp => }
      }
    }
  }

  /** Printing and parsing gives the same three lists back exactly when no blob is
      empty and every count and length fits an `int`; otherwise the file is rejected. */
  lemma ParseOfPrint(c: SwitchConfig)
    ensures Parse(Print(c)) == Ok(c) <==> Printable(c)
    ensures Parse(Print(c)).Err? <==> !Printable(c)
  {
    hide ConfigLines, RunText, FinalCheck, EndState, Fits;
    NoNewlines(c);
    LinesOfUnlines(ConfigLines(c));
    RunConfigLines(c);
    if Fits(c) {
      FinalOfEnd(c);
    }
  }
}
