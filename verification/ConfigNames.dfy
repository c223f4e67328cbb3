/** How the lines of a configuration file are spelled: the names of its keys, indentation,
    comments and line ends. */
module ConfigNames {
  import opened Outcomes
  import opened Text
  import opened ConfigParser

  /** Any text that stands before the colon of a key line. */
  ghost predicate IsName(s: string) {
    s != "" && Trimmed(s) && s[0] != '#' && !IsListItem(s) && forall i | 0 <= i < |s| :: s[i] != ':'
  }

  // ---- Which names there are ----

  function ListNames(p: Phase): set<string> {
    match p
    case PortsDown => {"ports_down", "ports-down"}
    case Configure => {"configure"}
    case PortsUp => {"ports_up", "ports-up"}
  }

  function CountNames(p: Phase): set<string> {
    match p
    case PortsDown => {"ports_down_count", "ports-down-count"}
    case Configure => {"configure_count", "configure-count"}
    case PortsUp => {"ports_up_count", "ports-up-count"}
  }

  function SizesNames(p: Phase): set<string> {
    match p
    case PortsDown => {"ports_down_sizes", "ports-down-sizes"}
    case Configure => {"configure_sizes", "configure-sizes"}
    case PortsUp => {"ports_up_sizes", "ports-up-sizes"}
  }

  // ---- Reading a key line ----

  lemma DropReturnKeeps(head: string, rest: string)
    requires head != "" && head[|head| - 1] != '\r'
    ensures DropReturn(head + rest) == head + DropReturn(rest)
  {
    if rest != "" {
      assert (head + rest)[..|head + rest| - 1] == head + rest[..|rest| - 1];
    } else {
      assert head + rest == head;
    }
  }

  lemma TrimRightTwice(s: string)
    ensures TrimRight(TrimRight(s)) == TrimRight(s) == TrimRight(DropReturn(s))
  {
    var tail := TrimRightSplits(s);
  }

  lemma NamesAreTrimmed(name: string)
    requires IsName(name)
    ensures Trim(name) == name && !IsSpace(name[0])
  {
    TrimOf("", name, "");
    assert "" + name + "" == name;
  }

  /** A name and a colon in front of a value, and what the parser's two cuts give back. */
  lemma KeyIsCut(lead: string, name: string, value: string)
    requires AllSpace(lead) && IsName(name)
    ensures var stripped := Trim(lead + name + ":" + DropReturn(value));
            && stripped != "" && stripped[0] == name[0] && !IsListItem(stripped)
            && Find(stripped, ':') == |name| < |stripped|
            && stripped[..|name|] == name && Trim(stripped[|name| + 1..]) == Trim(value)
  {
    hide IsSpace;
    var v := DropReturn(value);
    var tail := TrimRightSplits(v);
    var body := name + ":" + TrimRight(v);
    assert lead + name + ":" + v == lead + body + tail;
    assert !IsSpace(':') by { ColonIsNoSpace(); }
    NamesAreTrimmed(name);
    TrimOf(lead, body, tail);
    FindIs(body, ':', |name|);
    assert body[|name| + 1..] == TrimRight(v);
    TrimRightTwice(value);
    TrimRightTwice(v);
  }

  lemma ColonIsNoSpace()
    ensures !IsSpace(':')
  {}

  /** An unindented key, whatever stands behind its colon. */
  lemma RootKeyLine(name: string, rest: string)
    requires IsName(name)
    ensures Classify(name + ":" + rest) == RootKey(RootSection(name))
  {
    hide RootSection, Find, Trim;
    KeyIsCut("", name, rest);
    NamesAreTrimmed(name);
    assert "" + name + ":" + DropReturn(rest) == name + ":" + DropReturn(rest);
    DropReturnKeeps(name + ":", rest);
  }

  /** An indented key and its value. */
  lemma SubKeyIsRead(indent: string, name: string, value: string)
    requires IsName(name) && AllSpace(indent) && indent != "" && indent[0] in " \t"
    ensures Classify(indent + name + ":" + value) == SubKeyLine(name, Trim(value))
  {
    hide SubKeyLine, Find, Trim, IsSpace;
    KeyIsCut(indent, name, value);
    NamesAreTrimmed(name);
    DropReturnKeeps(indent + name + ":", value);
  }

  // ---- The names, literally ----

  lemma ListNameOpens(name: string, p: Phase)
    ensures RootSection(name) == Some(BlobSection(p)) <==> name in ListNames(p)
    ensures RootSection(name) == Some(Metadata) <==> name == "metadata"
  {
    assert |"ports_up"| == 8 && |"ports_down"| == 10;
    assert "ports_down"[5] == '_' && "ports-down"[5] == '-' && "ports_up"[5] == '_' && "ports-up"[5] == '-';
    assert "metadata"[0] == 'm' && "configure"[0] == 'c';
  }

  /** The underscore and the dash spelling of a list's name both open it, `metadata` opens
      the counts and sizes, and no other name opens anything. */
  lemma RootNames(name: string, rest: string, p: Phase)
    requires IsName(name)
    ensures var line := Classify(name + ":" + rest);
            && line.RootKey?
            && (line.section == Some(BlobSection(p)) <==> name in ListNames(p))
            && (line.section == Some(Metadata) <==> name == "metadata")
            && line.section != Some(NoSection)
  {
    hide Classify, IsName;
    RootKeyLine(name, rest);
    ListNameOpens(name, p);
  }

  /** So do the names of the counts and of the size lists under it. */
  lemma SubNames(indent: string, name: string, value: string, p: Phase)
    requires IsName(name) && AllSpace(indent) && indent != "" && indent[0] in " \t"
    ensures var line := Classify(indent + name + ":" + value);
            && (line == CountLine(p, Trim(value)) <==> name in CountNames(p))
            && (line == SizesLine(p) <==> name in SizesNames(p))
            && (line.CountLine? || line.SizesLine? || line.OtherSubKey?)
  {
    hide Classify, IsName, Trim;
    SubKeyIsRead(indent, name, value);
    SubNameAnnounces(name, Trim(value), p);
  }

  lemma SubNameAnnounces(name: string, value: string, p: Phase)
    ensures SubKeyLine(name, value) == CountLine(p, value) <==> name in CountNames(p)
    ensures SubKeyLine(name, value) == SizesLine(p) <==> name in SizesNames(p)
  {
    assert |"ports_up_count"| == |"ports_up_sizes"| == 14 && |"configure_count"| == |"configure_sizes"| == 15;
    assert "ports_up_count"[9] == "ports-up-count"[9] == 'c' && "ports_up_sizes"[9] == "ports-up-sizes"[9] == 's';
    assert "configure_count"[10] == "configure-count"[10] == 'c';
    assert "configure_sizes"[10] == "configure-sizes"[10] == 's';
    assert "ports_down_count"[11] == "ports-down-count"[11] == 'c';
    assert "ports_down_sizes"[11] == "ports-down-sizes"[11] == 's';
  }

  // ---- Comments and line ends ----

  /** Blank lines and comments say nothing, however they are indented. */
  lemma CommentsAreIgnored(lead: string, text: string)
    requires AllSpace(lead)
    ensures Classify(lead) == Ignored && Classify(lead + "#" + text) == Ignored
  {
    hide IsSpace;
    TrimOf(DropReturn(lead), "", "");
    assert DropReturn(lead) + "" + "" == DropReturn(lead);
    var v := DropReturn(text);
    var tail := TrimRightSplits(v);
    assert lead + "#" + v == lead + ("#" + TrimRight(v)) + tail;
    assert !IsSpace('#') by { HashIsNoSpace(); }
    TrimOf(lead, "#" + TrimRight(v), tail);
    DropReturnKeeps(lead + "#", text);
  }

  lemma HashIsNoSpace()
    ensures !IsSpace('#')
  {}

  /** Lines that end in a carriage return read like lines that do not. */
  lemma ReturnIsIgnored(raw: string)
    requires raw != "" ==> raw[|raw| - 1] != '\r'
    ensures Classify(raw + "\r") == Classify(raw)
  {
    assert DropReturn(raw + "\r") == raw;
  }

  /** The six characters of white space. */
  lemma SpacesAre(c: char)
    ensures IsSpace(c) <==> c == ' ' || c == '\t' || c == '\n' || c as int == 11 || c as int == 12 || c == '\r'
  {}
}
