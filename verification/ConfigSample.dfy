/** The layout that the documentation shows for a configuration file, with its list items
    indented, and what the parser makes of it. */
module ConfigSample {
  import opened Outcomes
  import opened Text
  import opened HexCodec
  import opened Decimal
  import opened ConfigParser
  import opened ConfigPrinter

  function SampleBlobLine(b: Blob): string {
    "  - " + Encode(b)
  }

  function SampleSizeLine(b: Blob): string {
    "    - " + Decimal.Print(|b|)
  }

  function SampleRootLines(p: Phase, blobs: seq<Blob>): seq<string> {
    [RootName(p) + ":"] + MapSeq(SampleBlobLine, blobs)
  }

  function SampleMetaLines(p: Phase, blobs: seq<Blob>): seq<string> {
    [CountLineText(p, |blobs|), SizesLineText(p)] + MapSeq(SampleSizeLine, blobs)
  }

  function SampleBlobPart(c: SwitchConfig): seq<string> {
    SampleRootLines(PortsDown, c.portsDown) + SampleRootLines(Configure, c.configure)
    + SampleRootLines(PortsUp, c.portsUp)
  }

  function SampleMetaPart(c: SwitchConfig): seq<string> {
    SampleMetaLines(PortsDown, c.portsDown) + SampleMetaLines(Configure, c.configure)
    + SampleMetaLines(PortsUp, c.portsUp)
  }

  function SampleLines(c: SwitchConfig): seq<string> {
    SampleBlobPart(c) + (["metadata:"] + SampleMetaPart(c))
  }

  function Sample(c: SwitchConfig): string {
    Unlines(SampleLines(c))
  }

  // ---- How the parser classifies the lines ----

  ghost predicate SameClasses(a: seq<string>, b: seq<string>) {
    |a| == |b| && forall i | 0 <= i < |a| :: Classify(a[i]) == Classify(b[i])
  }

  lemma SameClassesRun(st: State, a: seq<string>, b: seq<string>)
    requires SameClasses(a, b)
    ensures RunText(st, a) == RunText(st, b)
  {
    hide Classify;
    assert MapSeq(Classify, a) == MapSeq(Classify, b);
  }

  lemma ClassifyDeep(stripped: string)
    requires stripped != "" && Trimmed(stripped) && stripped[0] != '#'
    ensures Classify("    " + stripped) == ClassifySub(stripped)
  {
    hide ClassifySub, ClassifyRoot, Trim;
    var line := "    " + stripped;
    assert line == "    " + stripped + "";
    TrimOf("    ", stripped, "");
    assert line[|line| - 1] == stripped[|stripped| - 1];
  }

  lemma ClassifySampleSizeLine(b: Blob)
    ensures Classify(SampleSizeLine(b)) == Classify(SizeLine(b))
  {
    hide Classify, Decimal.Print, Trim, ClassifySub;
    var item := Decimal.Print(|b|);
    assert IsDigit(item[0]) && IsDigit(item[|item| - 1]);
    var stripped := "- " + item;
    ClassifyDeep(stripped);
    ClassifyIndented(stripped);
    assert "    - " + item == "    " + stripped;
    assert "  - " + item == "  " + stripped;
  }

  /** An indented blob is at most an item of the metadata. */
  lemma ClassifySampleBlobLine(b: Blob)
    ensures Classify(SampleBlobLine(b)).Ignored? || Classify(SampleBlobLine(b)).SubItem?
  {
    hide Classify, Encode, Decode;
    var item := Encode(b);
    DecodeEncode(b);
    if b == [] {
      assert SampleBlobLine(b) == "  - ";
      ClassifyIndentedDash();
    } else {
      assert IsHexDigit(item[0]) && IsHexDigit(item[|item| - 1]);
      ClassifySubItem(item);
    }
  }

  lemma ClassifyIndentedDash()
    ensures Classify("  - ") == Ignored
  {
    TrimOf("  ", "-", " ");
    assert "  - " == "  " + "-" + " ";
    FindIs("-", ':', 1);
  }

  // ---- Running the parser over the lines ----

  lemma {:induction false} RunSampleBlobLines(st: State, p: Phase, blobs: seq<Blob>)
    requires st.section == BlobSection(p)
    ensures RunText(st, MapSeq(SampleBlobLine, blobs)) == Ok(st)
    decreases blobs
  {
    hide Classify, SampleBlobLine, RunText, MapSeq;
    if blobs == [] {
      RunTextEmpty(st);
    } else {
      ClassifySampleBlobLine(blobs[0]);
      MapSeqCons(SampleBlobLine, blobs);
      RunTextStep(st, SampleBlobLine(blobs[0]), MapSeq(SampleBlobLine, blobs[1..]));
      RunSampleBlobLines(st, p, blobs[1..]);
    }
  }

  lemma RunSampleRootLines(st: State, p: Phase, blobs: seq<Blob>)
    ensures RunText(st, SampleRootLines(p, blobs)) == Ok(st.(section := BlobSection(p), sub := NoSub))
  {
    hide Classify, SampleBlobLine, RootSection, RootName, SubKeyLine;
    RootNamesArePlain(p);
    NamesAreKeys(p, "");
    ClassifyRootKey(RootName(p));
    RunTextStep(st, RootName(p) + ":", MapSeq(SampleBlobLine, blobs));
    RunSampleBlobLines(st.(section := BlobSection(p), sub := NoSub), p, blobs);
  }

  lemma RunSampleBlobPart(c: SwitchConfig)
    ensures RunText(INITIAL, SampleBlobPart(c)) == Ok(INITIAL.(section := BlobSection(PortsUp)))
  {
    hide SampleRootLines, RunText;
    var d, f := SampleRootLines(PortsDown, c.portsDown), SampleRootLines(Configure, c.configure);
    var u := SampleRootLines(PortsUp, c.portsUp);
    RunSampleRootLines(INITIAL, PortsDown, c.portsDown);
    RunSampleRootLines(INITIAL.(section := BlobSection(PortsDown)), Configure, c.configure);
    RunTextConcat(INITIAL, d, f);
    RunSampleRootLines(INITIAL.(section := BlobSection(Configure)), PortsUp, c.portsUp);
    RunTextConcat(INITIAL, d + f, u);
  }

  lemma SampleMetaClasses(p: Phase, blobs: seq<Blob>)
    ensures SameClasses(SampleMetaLines(p, blobs), MetaLines(p, blobs))
  {
    hide Classify, SampleSizeLine, SizeLine, CountLineText, SizesLineText;
    var head := [CountLineText(p, |blobs|), SizesLineText(p)];
    forall i: nat | i < |blobs|
      ensures Classify(MapSeq(SampleSizeLine, blobs)[i]) == Classify(MapSeq(SizeLine, blobs)[i])
    {
      ClassifySampleSizeLine(blobs[i]);
    }
    SameTail(head, MapSeq(SampleSizeLine, blobs), MapSeq(SizeLine, blobs));
  }

  lemma SameTail(head: seq<string>, a: seq<string>, b: seq<string>)
    requires SameClasses(a, b)
    ensures SameClasses(head + a, head + b)
  {
    hide Classify;
  }

  lemma SameJoined(a: seq<string>, b: seq<string>, c: seq<string>, d: seq<string>)
    requires SameClasses(a, b) && SameClasses(c, d)
    ensures SameClasses(a + c, b + d)
  {
    hide Classify;
  }

  lemma RunSampleMetaPart(st: State, c: SwitchConfig)
    ensures RunText(st, SampleMetaPart(c)) == RunText(st, MetaPart(c))
  {
    hide SameClasses, SampleMetaLines, MetaLines, RunText;
    SampleMetaClasses(PortsDown, c.portsDown);
    SampleMetaClasses(Configure, c.configure);
    SampleMetaClasses(PortsUp, c.portsUp);
    var d, f := SampleMetaLines(PortsDown, c.portsDown), SampleMetaLines(Configure, c.configure);
    SameJoined(d, MetaLines(PortsDown, c.portsDown), f, MetaLines(Configure, c.configure));
    SameJoined(d + f, MetaLines(PortsDown, c.portsDown) + MetaLines(Configure, c.configure),
               SampleMetaLines(PortsUp, c.portsUp), MetaLines(PortsUp, c.portsUp));
    SameClassesRun(st, SampleMetaPart(c), MetaPart(c));
  }

  /** The counts of a configuration with none of its blobs. */
  function FoundNone(c: SwitchConfig): State {
    EndState(c).(blobs := PerPhase([], [], []))
  }

  /** The metadata is run from a state that holds no blobs. */
  lemma RunMetaFromNone(c: SwitchConfig)
    ensures RunText(INITIAL.(section := Metadata), MetaPart(c)) == if Fits(c) then Ok(FoundNone(c)) else Err(BadInteger)
  {
    hide MetaLines, RunText, Lengths, LengthsFit;
    assert forall blobs :: [] + Lengths(blobs) == Lengths(blobs);
    var st := INITIAL.(section := Metadata);
    var d, f, u := MetaLines(PortsDown, c.portsDown), MetaLines(Configure, c.configure), MetaLines(PortsUp, c.portsUp);
    assert c.Get(PortsDown) == c.portsDown && c.Get(Configure) == c.configure && c.Get(PortsUp) == c.portsUp;
    RunMetaLines(st, PortsDown, c.portsDown);
    RunTextConcat(st, d, f);
    RunTextConcat(st, d + f, u);
    if RunText(st, d).Ok? {
      RunMetaLines(RunText(st, d).value, Configure, c.configure);
      if RunText(st, d + f).Ok? {
        RunMetaLines(RunText(st, d + f).value, PortsUp, c.portsUp);
      }
    }
  }

  lemma RunSampleLines(c: SwitchConfig)
    ensures RunText(INITIAL, SampleLines(c)) == if Fits(c) then Ok(FoundNone(c)) else Err(BadInteger)
  {
    hide RunText, SampleBlobPart, SampleMetaPart, MetaPart, Fits, FoundNone;
    RunSampleBlobPart(c);
    var st := INITIAL.(section := BlobSection(PortsUp));
    RunMetadataLine(st);
    RunSampleMetaPart(INITIAL.(section := Metadata), c);
    RunMetaFromNone(c);
    RunTextConcat(st, ["metadata:"], SampleMetaPart(c));
    RunTextConcat(INITIAL, SampleBlobPart(c), ["metadata:"] + SampleMetaPart(c));
  }

  lemma SampleLinesAreLines(c: SwitchConfig)
    ensures AllOneLine(SampleLines(c))
  {
    hide SampleRootLines, SampleMetaLines;
    SampleRootAreLines(PortsDown, c.portsDown);
    SampleRootAreLines(Configure, c.configure);
    SampleRootAreLines(PortsUp, c.portsUp);
    SampleMetaAreLines(PortsDown, c.portsDown);
    SampleMetaAreLines(Configure, c.configure);
    SampleMetaAreLines(PortsUp, c.portsUp);
  }

  lemma SampleRootAreLines(p: Phase, blobs: seq<Blob>)
    ensures AllOneLine(SampleRootLines(p, blobs))
  {
    RootNamesArePlain(p);
    hide RootName, Decode;
    assert OneLine(RootName(p) + ":");
    forall i | 0 <= i < |blobs| ensures OneLine(SampleBlobLine(blobs[i])) {
      DecodeEncode(blobs[i]);
    }
  }

  lemma SampleMetaAreLines(p: Phase, blobs: seq<Blob>)
    ensures AllOneLine(SampleMetaLines(p, blobs))
  {
    CountNamesArePlain(p);
    SizesNamesArePlain(p);
    hide CountName, SizesName, Decimal.Print;
    assert OneLine(CountLineText(p, |blobs|)) && OneLine(SizesLineText(p));
    assert forall i | 0 <= i < |blobs| :: OneLine(SampleSizeLine(blobs[i]));
  }

  lemma FinalOfNone(c: SwitchConfig)
    requires Fits(c)
    ensures FinalCheck(FoundNone(c)).Ok? <==> c == PerPhase([], [], [])
  {
    hide SizesCheck, Lengths, LengthsFit;
    assert |c.Get(PortsDown)| <= INT_MAX && |c.Get(Configure)| <= INT_MAX && |c.Get(PortsUp)| <= INT_MAX;
    if c == PerPhase([], [], []) {
      LengthsStep([]);
      NoSizesToCheck(PortsDown);
      NoSizesToCheck(Configure);
      NoSizesToCheck(PortsUp);
    }
  }

  lemma NoSizesToCheck(p: Phase)
    ensures SizesCheck(p, [], []) == None
  {}

  /** A file in the documented layout is accepted only when it has no blobs at all: every
      other is rejected, since none of its blobs is found and its counts say otherwise. */
  lemma SampleIsRejected(c: SwitchConfig)
    ensures Parse(Sample(c)).Ok? <==> c == PerPhase([], [], [])
  {
    hide SampleLines, RunText, FinalCheck, FoundNone, Fits;
    SampleLinesAreLines(c);
    LinesOfUnlines(SampleLines(c));
    RunSampleLines(c);
    if Fits(c) {
      FinalOfNone(c);
    }
    NothingFits();
  }

  lemma NothingFits()
    ensures Fits(PerPhase([], [], []))
  {}
}
