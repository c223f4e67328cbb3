/** What a configuration text means, said about its lines and not about a parser state:
    which section and size list a line stands under is found by looking back for the
    last line that decides it. The state machine agrees with this reading. */
module ConfigReading {
  import opened Outcomes
  import opened Text
  import opened HexCodec
  import opened Decimal
  import opened ConfigParser

  // ---- Looking back from a line ----

  predicate OpensSection(line: Line) {
    line.RootKey? && line.section.Some?
  }

  /** The nearest recognised root key above line `i`. */
  ghost predicate LastOpener(ls: seq<Line>, i: nat, k: nat) {
    k < i <= |ls| && OpensSection(ls[k]) && forall j | k < j < i :: !OpensSection(ls[j])
  }

  ghost predicate InSection(ls: seq<Line>, i: nat, section: Section) {
    || (exists k: nat :: LastOpener(ls, i, k) && ls[k].section == Some(section))
    || (section == NoSection && i <= |ls| && forall j | 0 <= j < i :: !OpensSection(ls[j]))
  }

  /** Any root key, known or not, and any key under `metadata` ends a size list. */
  predicate EndsSizes(line: Line) {
    line.RootKey? || line.CountLine? || line.SizesLine? || line.OtherSubKey?
  }

  ghost predicate LastSizesKey(ls: seq<Line>, i: nat, k: nat, p: Phase) {
    && k < i <= |ls| && ls[k] == SizesLine(p) && InSection(ls, k, Metadata)
    && forall j | k < j < i :: !EndsSizes(ls[j])
  }

  ghost predicate InSizesOf(ls: seq<Line>, i: nat, p: Phase) {
    exists k: nat :: LastSizesKey(ls, i, k, p)
  }

  ghost predicate IsCountOf(ls: seq<Line>, k: nat, p: Phase) {
    k < |ls| && ls[k].CountLine? && ls[k].phase == p && InSection(ls, k, Metadata)
  }

  ghost predicate LastCount(ls: seq<Line>, i: nat, k: nat, p: Phase) {
    k < i && IsCountOf(ls, k, p) && forall j | k < j < i :: !IsCountOf(ls, j, p)
  }

  /** The last count line above `i` wins; without one the count is -1. */
  ghost predicate CountIs(ls: seq<Line>, i: nat, p: Phase, v: int) {
    || (exists k: nat :: LastCount(ls, i, k, p) && IsInt(ls[k].value) && v == ValueOf(ls[k].value))
    || (v == -1 && forall j | 0 <= j < i :: !IsCountOf(ls, j, p))
  }

  // ---- What the lines say ----

  /** Every text that the parser has to decode can be decoded. */
  ghost predicate Readable(ls: seq<Line>, i: nat)
    requires i < |ls|
  {
    match ls[i]
    case RootItem(item) => (exists p :: InSection(ls, i, BlobSection(p))) ==> IsBase16(item)
    case SubItem(item) => InSection(ls, i, Metadata) ==> IsInt(item)
    case CountLine(_, value) => InSection(ls, i, Metadata) ==> IsInt(value)
    case _ => true
  }

  ghost predicate ReadableUpTo(ls: seq<Line>, n: nat)
    requires n <= |ls|
  {
    forall i | 0 <= i < n :: Readable(ls, i)
  }

  ghost predicate IsBlobOf(ls: seq<Line>, i: nat, p: Phase) {
    i < |ls| && ls[i].RootItem? && InSection(ls, i, BlobSection(p))
  }

  ghost predicate IsSizeOf(ls: seq<Line>, i: nat, p: Phase) {
    i < |ls| && ls[i].SubItem? && InSizesOf(ls, i, p)
  }

  /** The blobs of a list, in file order. */
  ghost function BlobsOf(ls: seq<Line>, n: nat, p: Phase): seq<Blob>
    requires n <= |ls|
  {
    if n == 0 then []
    else BlobsOf(ls, n - 1, p) +
         (if IsBlobOf(ls, n - 1, p) && IsBase16(ls[n - 1].item) then [Decode(ls[n - 1].item)] else [])
  }

  ghost function SizesListOf(ls: seq<Line>, n: nat, p: Phase): seq<int>
    requires n <= |ls|
  {
    if n == 0 then []
    else SizesListOf(ls, n - 1, p) +
         (if IsSizeOf(ls, n - 1, p) && IsInt(ls[n - 1].item) then [ValueOf(ls[n - 1].item)] else [])
  }

  /** The announced count is present and is the number of blobs found. */
  ghost predicate CountAgrees(ls: seq<Line>, p: Phase) {
    exists v :: CountIs(ls, |ls|, p, v) && 0 <= v && v == ToInt32(|BlobsOf(ls, |ls|, p)|)
  }

  /** A size list, when there is one, gives the length of each blob. */
  ghost predicate SizesAgree(blobs: seq<Blob>, sizes: seq<int>) {
    sizes != [] ==>
      && ToInt32(|sizes|) == ToInt32(|blobs|) && |blobs| <= |sizes|
      && forall i | 0 <= i < |blobs| :: ToInt32(|blobs[i]|) == sizes[i]
  }

  ghost predicate ListAgrees(ls: seq<Line>, p: Phase) {
    CountAgrees(ls, p) && SizesAgree(BlobsOf(ls, |ls|, p), SizesListOf(ls, |ls|, p))
  }

  ghost predicate Accepted(ls: seq<Line>) {
    ReadableUpTo(ls, |ls|) && forall p :: ListAgrees(ls, p)
  }

  // ---- The state machine computes this reading ----

  lemma SectionIsOne(ls: seq<Line>, i: nat, a: Section, b: Section)
    requires InSection(ls, i, a) && InSection(ls, i, b)
    ensures a == b
  {
    forall k: nat, l: nat | LastOpener(ls, i, k) && LastOpener(ls, i, l) ensures k == l {}
  }

  lemma SectionStep(ls: seq<Line>, i: nat, section: Section)
    requires i < |ls| && InSection(ls, i, section)
    ensures InSection(ls, i + 1, if OpensSection(ls[i]) then ls[i].section.value else section)
  {
    if OpensSection(ls[i]) {
      assert LastOpener(ls, i + 1, i);
    } else if k: nat :| LastOpener(ls, i, k) && ls[k].section == Some(section) {
      assert LastOpener(ls, i + 1, k);
    }
  }

  lemma SizesStep(ls: seq<Line>, i: nat, p: Phase)
    requires i < |ls|
    ensures InSizesOf(ls, i + 1, p) <==>
            if ls[i].SizesLine? && InSection(ls, i, Metadata) then ls[i].phase == p
            else !EndsSizes(ls[i]) && InSizesOf(ls, i, p)
  {
    if InSizesOf(ls, i + 1, p) {
      var k: nat :| LastSizesKey(ls, i + 1, k, p);
      if k < i {
        assert LastSizesKey(ls, i, k, p);
      }
    }
    if ls[i] == SizesLine(p) && InSection(ls, i, Metadata) {
      assert LastSizesKey(ls, i + 1, i, p);
    }
    if !EndsSizes(ls[i]) && InSizesOf(ls, i, p) {
      var k: nat :| LastSizesKey(ls, i, k, p);
      assert LastSizesKey(ls, i + 1, k, p);
    }
  }

  /** Inside a size list the section is `metadata`: no root key can lie between. */
  lemma SizesInMetadata(ls: seq<Line>, i: nat, p: Phase)
    requires InSizesOf(ls, i, p)
    ensures InSection(ls, i, Metadata)
  {
    var k: nat :| LastSizesKey(ls, i, k, p);
    var o: nat :| LastOpener(ls, k, o) && ls[o].section == Some(Metadata);
    forall j | o < j < i ensures !OpensSection(ls[j]) {
      assert j < k || j == k || !EndsSizes(ls[j]);
    }
    assert LastOpener(ls, i, o);
  }

  lemma CountStep(ls: seq<Line>, i: nat, p: Phase, v: int)
    requires i < |ls| && CountIs(ls, i, p, v) && Readable(ls, i)
    ensures CountIs(ls, i + 1, p, if IsCountOf(ls, i, p) then ValueOf(ls[i].value) else v)
  {
    if IsCountOf(ls, i, p) {
      assert LastCount(ls, i + 1, i, p);
    } else if k: nat :| LastCount(ls, i, k, p) && IsInt(ls[k].value) && v == ValueOf(ls[k].value) {
      assert LastCount(ls, i + 1, k, p);
    }
  }

  lemma CountIsOne(ls: seq<Line>, i: nat, p: Phase, v: int, w: int)
    requires CountIs(ls, i, p, v) && CountIs(ls, i, p, w)
    ensures v == w
  {
    forall k: nat, l: nat | LastCount(ls, i, k, p) && LastCount(ls, i, l, p) ensures k == l {}
  }

  /** The state after `n` lines holds what looking back from line `n` finds. */
  ghost predicate Describes(ls: seq<Line>, n: nat, st: State)
    requires n <= |ls|
  {
    && InSection(ls, n, st.section)
    && (forall p :: st.sub == SizesOf(p) <==> InSizesOf(ls, n, p))
    && (forall p :: st.blobs.Get(p) == BlobsOf(ls, n, p))
    && (forall p :: st.sizes.Get(p) == SizesListOf(ls, n, p))
    && (forall p :: CountIs(ls, n, p, st.counts.Get(p)))
  }

  lemma ReadableIsDecodable(ls: seq<Line>, n: nat, st: State)
    requires n < |ls| && Describes(ls, n, st)
    ensures Readable(ls, n) <==> Step(st, ls[n]).Ok?
  {
    forall s | InSection(ls, n, s) ensures s == st.section {
      SectionIsOne(ls, n, s, st.section);
    }
  }

  lemma DescribesStep(ls: seq<Line>, n: nat, st: State)
    requires n < |ls| && Describes(ls, n, st) && Step(st, ls[n]).Ok?
    ensures Describes(ls, n + 1, Step(st, ls[n]).value)
  {
    ReadableIsDecodable(ls, n, st);
    SectionStep(ls, n, st.section);
    forall s | InSection(ls, n, s) ensures s == st.section {
      SectionIsOne(ls, n, s, st.section);
    }
    forall p ensures InSizesOf(ls, n, p) ==> st.section == Metadata {
      if InSizesOf(ls, n, p) {
        SizesInMetadata(ls, n, p);
      }
    }
    var next := Step(st, ls[n]).value;
    forall p
      ensures next.sub == SizesOf(p) <==> InSizesOf(ls, n + 1, p)
      ensures CountIs(ls, n + 1, p, next.counts.Get(p))
    {
      SizesStep(ls, n, p);
      CountStep(ls, n, p, st.counts.Get(p));
    }
  }

  lemma {:induction false} PrefixMeaning(ls: seq<Line>, n: nat)
    requires n <= |ls|
    ensures Run(INITIAL, ls[..n]).Ok? <==> ReadableUpTo(ls, n)
    ensures Run(INITIAL, ls[..n]).Ok? ==> Describes(ls, n, Run(INITIAL, ls[..n]).value)
  {
    if n > 0 {
      PrefixMeaning(ls, n - 1);
      assert ls[..n] == ls[..n - 1] + [ls[n - 1]];
      RunConcat(INITIAL, ls[..n - 1], [ls[n - 1]]);
      if Run(INITIAL, ls[..n - 1]).Ok? {
        var st := Run(INITIAL, ls[..n - 1]).value;
        RunSnoc(INITIAL, ls[..n - 1], ls[n - 1]);
        ReadableIsDecodable(ls, n - 1, st);
        if Step(st, ls[n - 1]).Ok? {
          DescribesStep(ls, n - 1, st);
        }
      }
    }
  }

  lemma ListMeaning(ls: seq<Line>, st: State, p: Phase)
    requires Describes(ls, |ls|, st)
    ensures ListAgrees(ls, p) <==>
            && 0 <= st.counts.Get(p) == ToInt32(|st.blobs.Get(p)|)
            && SizesCheck(p, st.blobs.Get(p), st.sizes.Get(p)) == None
  {
    var v := st.counts.Get(p);
    forall w | CountIs(ls, |ls|, p, w) ensures v == w {
      CountIsOne(ls, |ls|, p, v, w);
    }
    assert CountIs(ls, |ls|, p, v);
  }

  lemma FinalMeaning(ls: seq<Line>, st: State)
    requires ReadableUpTo(ls, |ls|) && Describes(ls, |ls|, st)
    ensures FinalCheck(st).Ok? <==> Accepted(ls)
    ensures FinalCheck(st).Ok? ==> FinalCheck(st).value == st.blobs
  {
    hide ListAgrees, SizesCheck;
    ListMeaning(ls, st, PortsDown);
    ListMeaning(ls, st, Configure);
    ListMeaning(ls, st, PortsUp);
    forall p
      ensures ListAgrees(ls, PortsDown) && ListAgrees(ls, Configure) && ListAgrees(ls, PortsUp) ==> ListAgrees(ls, p)
    {
      match p { case PortsDown => case Configure => case PortsUp => }
    }
  }

  /** For every text: the parser accepts exactly the texts that read well, and returns
      the three blob lists of the reading. */
  lemma ParseIsReading(content: string)
    ensures var ls := MapSeq(Classify, Lines(content));
            && (Parse(content).Ok? <==> Accepted(ls))
            && (Parse(content).Ok? ==> forall p :: Parse(content).value.Get(p) == BlobsOf(ls, |ls|, p))
  {
    var ls := MapSeq(Classify, Lines(content));
    PrefixMeaning(ls, |ls|);
    assert ls[..|ls|] == ls;
    if Run(INITIAL, ls).Ok? {
      FinalMeaning(ls, Run(INITIAL, ls).value);
    }
  }

  lemma {:induction false} NoItemsNoBlobs(ls: seq<Line>, n: nat, p: Phase)
    requires n <= |ls| && forall i | 0 <= i < n :: !ls[i].RootItem?
    ensures BlobsOf(ls, n, p) == []
  {
    if n > 0 {
      NoItemsNoBlobs(ls, n - 1, p);
    }
  }

  predicate IsIndentedItem(raw: string) {
    IsListItem(Trim(DropReturn(raw))) && IsIndented(DropReturn(raw))
  }

  predicate IsRootLevelItem(raw: string) {
    IsListItem(Trim(DropReturn(raw))) && !IsIndented(DropReturn(raw))
  }

  lemma RootItemsAreRootLevel(raw: string)
    ensures Classify(raw).RootItem? ==> IsRootLevelItem(raw)
    ensures Classify(raw).SubItem? ==> IsIndentedItem(raw)
  {}

  /** The parser passes over indented lines outside `metadata`, so a file whose list
      items are all indented is accepted only when it announces no blobs at all. */
  lemma IndentedItemsAreNotBlobs(content: string)
    requires forall i | 0 <= i < |Lines(content)| :: !IsRootLevelItem(Lines(content)[i])
    ensures Parse(content).Ok? ==> Parse(content).value == PerPhase([], [], [])
  {
    hide Classify, Lines, Parse, IsRootLevelItem, Accepted;
    var lines := Lines(content);
    var ls := MapSeq(Classify, lines);
    forall i | 0 <= i < |ls| ensures !ls[i].RootItem? {
      RootItemsAreRootLevel(lines[i]);
    }
    ParseIsReading(content);
    NoItemsNoBlobs(ls, |ls|, PortsDown);
    NoItemsNoBlobs(ls, |ls|, Configure);
    NoItemsNoBlobs(ls, |ls|, PortsUp);
    if Parse(content).Ok? {
      var c := Parse(content).value;
      assert c.Get(PortsDown) == [] && c.Get(Configure) == [] && c.Get(PortsUp) == [];
    }
  }

  /** So a file whose list items are all indented is rejected as soon as its last count for
      some list is not zero. */
  lemma AnnouncedBlobsAreRejected(content: string, p: Phase, v: int)
    requires forall i | 0 <= i < |Lines(content)| :: !IsRootLevelItem(Lines(content)[i])
    requires var ls := MapSeq(Classify, Lines(content)); CountIs(ls, |ls|, p, v) && v != 0
    ensures Parse(content).Err?
  {
    hide Classify, Lines, Parse, IsRootLevelItem, CountIs;
    var lines := Lines(content);
    var ls := MapSeq(Classify, lines);
    forall i | 0 <= i < |ls| ensures !ls[i].RootItem? {
      RootItemsAreRootLevel(lines[i]);
    }
    ParseIsReading(content);
    NoItemsNoBlobs(ls, |ls|, p);
    if Parse(content).Ok? {
      assert ListAgrees(ls, p);
      var w :| CountIs(ls, |ls|, p, w) && 0 <= w && w == ToInt32(|BlobsOf(ls, |ls|, p)|);
      CountIsOne(ls, |ls|, p, v, w);
    }
  }
}
