/** The line-by-line state machine of `parseConfigFile`. */
module ConfigParser {
  import opened Outcomes
  import opened Text
  import opened Bytes
  import opened HexCodec
  import opened Decimal

  datatype Phase = PortsDown | Configure | PortsUp

  /** One value for each of the three blob lists. */
  datatype PerPhase<T> = PerPhase(portsDown: T, configure: T, portsUp: T) {
    function Get(p: Phase): T {
      match p
      case PortsDown => portsDown
      case Configure => configure
      case PortsUp => portsUp
    }

    function Set(p: Phase, value: T): (r: PerPhase<T>)
      ensures r.Get(p) == value
      ensures forall q | q != p :: r.Get(q) == Get(q)
    {
      match p
      case PortsDown => this.(portsDown := value)
      case Configure => this.(configure := value)
      case PortsUp => this.(portsUp := value)
    }
  }

  type Blob = seq<Byte>
  type SwitchConfig = PerPhase<seq<Blob>>

  datatype Section = NoSection | BlobSection(phase: Phase) | Metadata
  datatype MetaSub = NoSub | SizesOf(phase: Phase)

  datatype ParseError =
    | BadBlob
    | BadInteger
    | MissingCount
    | CountMismatch(phase: Phase)
    | SizeListMismatch(phase: Phase)
    | SizeMismatch(phase: Phase)

  // ---- What one line says ----

  /** A line of the file as far as the parser tells lines apart; item and value texts
      are already trimmed. */
  datatype Line =
    | Ignored
    | RootItem(item: string)
    | RootKey(section: Option<Section>)
    | SubItem(item: string)
    | CountLine(phase: Phase, value: string)
    | SizesLine(phase: Phase)
    | OtherSubKey

  function DropReturn(line: string): string {
    if line != "" && line[|line| - 1] == '\r' then line[..|line| - 1] else line
  }

  predicate IsIndented(line: string) {
    line != "" && (line[0] == ' ' || line[0] == '\t')
  }

  predicate IsListItem(stripped: string) {
    |stripped| >= 2 && stripped[0] == '-' && stripped[1] == ' '
  }

  /** The section that a root key opens, if it is a key the parser knows. */
  function RootSection(key: string): Option<Section> {
    if key == "ports_down" || key == "ports-down" then Some(BlobSection(PortsDown))
    else if key == "configure" then Some(BlobSection(Configure))
    else if key == "ports_up" || key == "ports-up" then Some(BlobSection(PortsUp))
    else if key == "metadata" then Some(Metadata)
    else None
  }

  /** What a key under `metadata` announces. */
  function SubKeyLine(key: string, value: string): (r: Line)
    ensures r.CountLine? || r.SizesLine? || r.OtherSubKey?
  {
    if key == "ports_down_count" || key == "ports-down-count" then CountLine(PortsDown, value)
    else if key == "configure_count" || key == "configure-count" then CountLine(Configure, value)
    else if key == "ports_up_count" || key == "ports-up-count" then CountLine(PortsUp, value)
    else if key == "ports_down_sizes" || key == "ports-down-sizes" then SizesLine(PortsDown)
    else if key == "configure_sizes" || key == "configure-sizes" then SizesLine(Configure)
    else if key == "ports_up_sizes" || key == "ports-up-sizes" then SizesLine(PortsUp)
    else OtherSubKey
  }

  function ClassifyRoot(stripped: string): Line {
    var pos := Find(stripped, ':');
    if IsListItem(stripped) then RootItem(Trim(stripped[2..]))
    else if pos == |stripped| then Ignored
    else RootKey(RootSection(Trim(stripped[..pos])))
  }

  function ClassifySub(stripped: string): Line {
    var pos := Find(stripped, ':');
    if IsListItem(stripped) then SubItem(Trim(stripped[2..]))
    else if pos == |stripped| then Ignored
    else SubKeyLine(Trim(stripped[..pos]), Trim(stripped[pos + 1..]))
  }

  function Classify(raw: string): Line {
    var line := DropReturn(raw);
    var stripped := Trim(line);
    if stripped == "" || stripped[0] == '#' then Ignored
    else if IsIndented(line) then ClassifySub(stripped)
    else ClassifyRoot(stripped)
  }

  function MapSeq<A, B>(f: A -> B, s: seq<A>): (r: seq<B>)
    ensures |r| == |s|
    ensures forall i | 0 <= i < |s| :: r[i] == f(s[i])
  {
    seq(|s|, i requires 0 <= i < |s| => f(s[i]))
  }

  lemma MapSeqCons<A, B>(f: A -> B, s: seq<A>)
    requires s != []
    ensures MapSeq(f, s) == [f(s[0])] + MapSeq(f, s[1..])
  {}

  // ---- What a line does to the state ----

  datatype State = State(section: Section, sub: MetaSub, blobs: SwitchConfig,
                         counts: PerPhase<int>, sizes: PerPhase<seq<int>>)

  const INITIAL := State(NoSection, NoSub, PerPhase([], [], []), PerPhase(-1, -1, -1), PerPhase([], [], []))

  ghost function Step(st: State, line: Line): Result<State, ParseError> {
    match line
    case Ignored => Ok(st)
    case RootItem(item) =>
      if !st.section.BlobSection? then Ok(st)
      else if !IsBase16(item) then Err(BadBlob)
      else
        var p := st.section.phase;
        Ok(st.(blobs := st.blobs.Set(p, st.blobs.Get(p) + [Decode(item)])))
    case RootKey(root) =>
      Ok(st.(sub := NoSub, section := if root.Some? then root.value else st.section))
    case SubItem(item) =>
      if st.section != Metadata then Ok(st)
      else if !IsInt(item) then Err(BadInteger)
      else if st.sub == NoSub then Ok(st)
      else
        var p := st.sub.phase;
        Ok(st.(sizes := st.sizes.Set(p, st.sizes.Get(p) + [ValueOf(item)])))
    case CountLine(p, value) =>
      if st.section != Metadata then Ok(st)
      else if !IsInt(value) then Err(BadInteger)
      else Ok(st.(sub := NoSub, counts := st.counts.Set(p, ValueOf(value))))
    case SizesLine(p) =>
      if st.section != Metadata then Ok(st) else Ok(st.(sub := SizesOf(p)))
    case OtherSubKey =>
      if st.section != Metadata then Ok(st) else Ok(st.(sub := NoSub))
  }

  /** The state after all the lines, or the error at the first line that has one. */
  ghost function Run(st: State, lines: seq<Line>): Result<State, ParseError>
    decreases lines
  {
    if lines == [] then Ok(st)
    else
      var next := Step(st, lines[0]);
      if next.Err? then next else Run(next.value, lines[1..])
  }

  lemma {:induction false} RunConcat(st: State, a: seq<Line>, b: seq<Line>)
    ensures Run(st, a + b) == if Run(st, a).Ok? then Run(Run(st, a).value, b) else Run(st, a)
    decreases a
  {
    if a == [] {
      assert a + b == b;
    } else {
      assert (a + b)[1..] == a[1..] + b;
      if Step(st, a[0]).Ok? {
        RunConcat(Step(st, a[0]).value, a[1..], b);
      }
    }
  }

  lemma RunSnoc(st: State, lines: seq<Line>, line: Line)
    requires Run(st, lines).Ok?
    ensures Run(st, lines + [line]) == Step(Run(st, lines).value, line)
  {
    RunConcat(st, lines, [line]);
    assert [line][1..] == [];
  }

  // ---- The checks after the last line ----

  function SizesCheck(p: Phase, blobs: seq<Blob>, sizes: seq<int>): Option<ParseError> {
    if sizes == [] then None
    else if ToInt32(|sizes|) != ToInt32(|blobs|) then Some(SizeListMismatch(p))
    else if |sizes| < |blobs| then Some(SizeMismatch(p))
    else if forall i | 0 <= i < |blobs| :: ToInt32(|blobs[i]|) == sizes[i] then None
    else Some(SizeMismatch(p))
  }

  function FinalCheck(st: State): Result<SwitchConfig, ParseError> {
    var b, c := st.blobs, st.counts;
    if c.portsDown < 0 || c.configure < 0 || c.portsUp < 0 then Err(MissingCount)
    else if ToInt32(|b.portsDown|) != c.portsDown then Err(CountMismatch(PortsDown))
    else if ToInt32(|b.configure|) != c.configure then Err(CountMismatch(Configure))
    else if ToInt32(|b.portsUp|) != c.portsUp then Err(CountMismatch(PortsUp))
    else
      var d := SizesCheck(PortsDown, b.portsDown, st.sizes.portsDown);
      var f := SizesCheck(Configure, b.configure, st.sizes.configure);
      var u := SizesCheck(PortsUp, b.portsUp, st.sizes.portsUp);
      if d.Some? then Err(d.value) else if f.Some? then Err(f.value) else if u.Some? then Err(u.value)
      else Ok(b)
  }

  predicate Precedes(q: Phase, p: Phase) {
    (q == PortsDown && p != PortsDown) || (q == Configure && p == PortsUp)
  }

  predicate Miscounted(st: State, p: Phase) {
    ToInt32(|st.blobs.Get(p)|) != st.counts.Get(p)
  }

  predicate Missized(st: State, p: Phase) {
    SizesCheck(p, st.blobs.Get(p), st.sizes.Get(p)).Some?
  }

  /** A missing count is reported before a wrong one, a wrong count before wrong sizes, and
      of several lists the first in file order is named. */
  lemma FinalErrors(st: State, p: Phase)
    ensures var complete := forall q :: st.counts.Get(q) >= 0;
            var counted := complete && forall q :: !Miscounted(st, q);
            var r := FinalCheck(st);
            && (r == Err(MissingCount) <==> !complete)
            && (r == Err(CountMismatch(p)) <==>
                complete && Miscounted(st, p) && forall q | Precedes(q, p) :: !Miscounted(st, q))
            && (r == Err(SizeListMismatch(p)) || r == Err(SizeMismatch(p)) <==>
                counted && Missized(st, p) && forall q | Precedes(q, p) :: !Missized(st, q))
            && (r == Err(SizeListMismatch(p)) ==> ToInt32(|st.sizes.Get(p)|) != ToInt32(|st.blobs.Get(p)|))
            && (r == Err(SizeMismatch(p)) ==> ToInt32(|st.sizes.Get(p)|) == ToInt32(|st.blobs.Get(p)|))
            && (r.Ok? <==> counted && forall q :: !Missized(st, q))
  {
    hide ToInt32;
    var b, c, n := st.blobs, st.counts, st.sizes;
    assert c == PerPhase(c.Get(PortsDown), c.Get(Configure), c.Get(PortsUp));
    assert Miscounted(st, PortsDown) <==> ToInt32(|b.portsDown|) != c.portsDown;
    assert Miscounted(st, Configure) <==> ToInt32(|b.configure|) != c.configure;
    assert Miscounted(st, PortsUp) <==> ToInt32(|b.portsUp|) != c.portsUp;
    assert Missized(st, PortsDown) <==> SizesCheck(PortsDown, b.portsDown, n.portsDown).Some?;
    assert Missized(st, Configure) <==> SizesCheck(Configure, b.configure, n.configure).Some?;
    assert Missized(st, PortsUp) <==> SizesCheck(PortsUp, b.portsUp, n.portsUp).Some?;
  }

  /** A line is in error for the text it carries alone: a list item outside `metadata`, or a
      number under it. */
  lemma LineErrors(st: State, line: Line)
    ensures Step(st, line) == Err(BadBlob) <==>
              line.RootItem? && st.section.BlobSection? && !IsBase16(line.item)
    ensures Step(st, line) == Err(BadInteger) <==>
              && st.section == Metadata
              && ((line.SubItem? && !IsInt(line.item)) || (line.CountLine? && !IsInt(line.value)))
    ensures Step(st, line).Err? ==> Step(st, line).error in {BadBlob, BadInteger}
  {}

  /** The parser's state after the lines of a text, or the error that ends the parse. */
  ghost function RunText(st: State, lines: seq<string>): Result<State, ParseError> {
    Run(st, MapSeq(Classify, lines))
  }

  /** What the parser computes from a text. */
  ghost function Parse(content: string): Result<SwitchConfig, ParseError> {
    var end := RunText(INITIAL, Lines(content));
    if end.Err? then Err(end.error) else FinalCheck(end.value)
  }

  lemma RunTextEmpty(st: State)
    ensures RunText(st, []) == Ok(st)
  {}

  lemma RunTextStep(st: State, raw: string, rest: seq<string>)
    ensures var next := Step(st, Classify(raw));
            RunText(st, [raw] + rest) == if next.Err? then next else RunText(next.value, rest)
  {
    assert MapSeq(Classify, [raw] + rest)[1..] == MapSeq(Classify, rest);
  }

  // ---- The parser as the source runs it ----

  /** A list item kept only its text after the dash, so that text is never empty. */
  lemma ListItemHasText(stripped: string)
    requires Trimmed(stripped) && IsListItem(stripped)
    ensures Trim(stripped[2..]) != ""
  {
    var lead, tail := TrimSplits(stripped[2..]);
  }

  /** Reads the lines one by one; the first bad one ends the parse. */
  method ParseConfigFile(content: string) returns (r: Result<SwitchConfig, ParseError>)
    ensures r == Parse(content)
  {
    var st := INITIAL;
    var pos := 0;
    assert content[0..] == content;
    while pos < |content|
      invariant 0 <= pos <= |content|
      invariant RunText(INITIAL, Lines(content)) == RunText(st, Lines(content[pos..]))
      decreases |content| - pos
    {
      var raw, after := GetLine(content, pos);
      RunTextStep(st, raw, Lines(content[after..]));
      var next := ScanLine(st, raw);
      if next.Err? {
        return Err(next.error);
      }
      st := next.value;
      pos := after;
    }
    r := ValidateMetadata(st);
  }

  /** Strips one line and hands it to the part of the grammar its indentation selects. */
  method ScanLine(st: State, raw: string) returns (r: Result<State, ParseError>)
    ensures r == Step(st, Classify(raw))
  {
    var line := DropReturn(raw);
    var stripped := TrimInPlace(line);
    if stripped == "" || stripped[0] == '#' {
      return Ok(st);
    }
    if !IsIndented(line) {
      r := ScanRootLine(st, stripped);
    } else if st.section != Metadata {
      r := Ok(st);
    } else {
      r := ScanMetadataLine(st, stripped);
    }
  }

  method ScanRootLine(st: State, stripped: string) returns (r: Result<State, ParseError>)
    requires Trimmed(stripped)
    ensures r == Step(st, ClassifyRoot(stripped))
  {
    var next := st;
    var pos := Find(stripped, ':');
    if IsListItem(stripped) {
      if st.section == Metadata || st.section == NoSection {
        return Ok(st);
      }
      var hexStr := TrimInPlace(stripped[2..]);
      ListItemHasText(stripped);
      if hexStr == "" {
        // The throw for an empty blob entry: no line leads here.
        assert false;
      }
      var bytes := HexStringToBytes(hexStr);
      if bytes.Err? {
        return Err(BadBlob);
      }
      match st.section.phase {
        case PortsDown => next := next.(blobs := next.blobs.(portsDown := next.blobs.portsDown + [bytes.value]));
        case Configure => next := next.(blobs := next.blobs.(configure := next.blobs.configure + [bytes.value]));
        case PortsUp => next := next.(blobs := next.blobs.(portsUp := next.blobs.portsUp + [bytes.value]));
      }
    } else if pos < |stripped| {
      var key := TrimInPlace(stripped[..pos]);
      next := next.(sub := NoSub);
      if key == "ports_down" || key == "ports-down" {
        next := next.(section := BlobSection(PortsDown));
      } else if key == "configure" {
        next := next.(section := BlobSection(Configure));
      } else if key == "ports_up" || key == "ports-up" {
        next := next.(section := BlobSection(PortsUp));
      } else if key == "metadata" {
        next := next.(section := Metadata);
      }
    }
    return Ok(next);
  }

  method ScanMetadataLine(st: State, stripped: string) returns (r: Result<State, ParseError>)
    requires st.section == Metadata && Trimmed(stripped)
    ensures r == Step(st, ClassifySub(stripped))
  {
    hide SubKeyLine, Trim;
    var next := st;
    var pos := Find(stripped, ':');
    if IsListItem(stripped) {
      var valStr := TrimInPlace(stripped[2..]);
      ListItemHasText(stripped);
      if valStr == "" {
        // The throw for an empty metadata entry: no line leads here.
        assert false;
      }
      var val := ParseInt(valStr);
      if val.None? {
        return Err(BadInteger);
      }
      match st.sub {
        case SizesOf(PortsDown) => next := next.(sizes := next.sizes.(portsDown := next.sizes.portsDown + [val.value]));
        case SizesOf(Configure) => next := next.(sizes := next.sizes.(configure := next.sizes.configure + [val.value]));
        case SizesOf(PortsUp) => next := next.(sizes := next.sizes.(portsUp := next.sizes.portsUp + [val.value]));
        case NoSub =>
      }
    } else if pos < |stripped| {
      var key := TrimInPlace(stripped[..pos]);
      var valStr := TrimInPlace(stripped[pos + 1..]);
      next := next.(sub := NoSub);
      match SubKeyLine(key, valStr) {
        case CountLine(p, value) =>
          var count := ParseInt(value);
          if count.None? {
            return Err(BadInteger);
          }
          next := next.(counts := next.counts.Set(p, count.value));
        case SizesLine(p) =>
          next := next.(sub := SizesOf(p));
        case _ =>
      }
    }
    return Ok(next);
  }

  /** The counts first, in file order of the three lists, then the size lists. */
  method ValidateMetadata(st: State) returns (r: Result<SwitchConfig, ParseError>)
    ensures r == FinalCheck(st)
  {
    var result, expected, sizes := st.blobs, st.counts, st.sizes;
    if expected.portsDown < 0 || expected.configure < 0 || expected.portsUp < 0 {
      return Err(MissingCount);
    }
    if ToInt32(|result.portsDown|) != expected.portsDown {
      return Err(CountMismatch(PortsDown));
    }
    if ToInt32(|result.configure|) != expected.configure {
      return Err(CountMismatch(Configure));
    }
    if ToInt32(|result.portsUp|) != expected.portsUp {
      return Err(CountMismatch(PortsUp));
    }
    var down := ValidateSizes(PortsDown, result.portsDown, sizes.portsDown);
    if down.Some? {
      return Err(down.value);
    }
    var conf := ValidateSizes(Configure, result.configure, sizes.configure);
    if conf.Some? {
      return Err(conf.value);
    }
    var up := ValidateSizes(PortsUp, result.portsUp, sizes.portsUp);
    if up.Some? {
      return Err(up.value);
    }
    return Ok(result);
  }

  /** An empty size list asks for no check. */
  method ValidateSizes(p: Phase, blobs: seq<Blob>, sizes: seq<int>) returns (e: Option<ParseError>)
    ensures e == SizesCheck(p, blobs, sizes)
  {
    if sizes == [] {
      return None;
    }
    if ToInt32(|sizes|) != ToInt32(|blobs|) {
      return Some(SizeListMismatch(p));
    }
    for i := 0 to |blobs|
      invariant i <= |sizes|
      invariant forall k | 0 <= k < i :: ToInt32(|blobs[k]|) == sizes[k]
    {
      if |sizes| <= i || ToInt32(|blobs[i]|) != sizes[i] {
        return Some(SizeMismatch(p));
      }
    }
    return None;
  }
}
