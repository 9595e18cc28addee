/**
  Whole runs on small inputs: one lookup row and one record give a two-row report; a
  record whose pair is not in the table counts as "Untagged"; lookup rows with two
  fields or a non-numeric port are skipped.
*/
module Scenarios {
  import opened Wrappers
  import opened Text
  import opened Lookup
  import opened FlowRecords
  import opened Tallies
  import opened Report
  import opened FlowLogsParser
  import opened Seqs

  lemma TallyOfOne<K>(k: K)
    ensures TallyOf([k]) == Tally([k], map[k := 1])
  {
    assert [k][..0] == [];
    assert [] + [k] == [k];
  }

  /** A flow log that yields a single key yields one tag and one pair, each counted
      once; the tag is the key's lookup tag, or "Untagged". */
  lemma OneKeyCounts(lookupLines: seq<string>, flowLines: seq<string>, key: PortProtocol)
    requires LookupTable(lookupLines) != map[]
    requires Accepted(flowLines) == Success([key])
    ensures var tag := TagOf(LookupTable(lookupLines), key);
      Evaluate(lookupLines, flowLines) == Success(Counts(Tally([tag], map[tag := 1]), Tally([key], map[key := 1])))
  {
    var tag := TagOf(LookupTable(lookupLines), key);
    assert Tags(LookupTable(lookupLines), [key]) == [tag];
    TallyOfOne(tag);
    TallyOfOne(key);
  }

  /** A one-line flow log whose line is accepted yields one tag and one pair, each
      counted once. */
  lemma OneRecordCounts(lookupLines: seq<string>, line: string, port: int, protocol: int)
    requires LookupTable(lookupLines) != map[]
    requires ParseFlowLine(line) == Record(port, protocol)
    ensures var key := PortProtocol(port, ProtocolName(protocol));
      var tag := TagOf(LookupTable(lookupLines), key);
      Evaluate(lookupLines, [line]) == Success(Counts(Tally([tag], map[tag := 1]), Tally([key], map[key := 1])))
  {
    AcceptedOne(line, port, protocol);
    OneKeyCounts(lookupLines, [line], PortProtocol(port, ProtocolName(protocol)));
  }

  /** A one-line log whose line is a record yields that record's key. */
  lemma AcceptedOne(line: string, port: int, protocol: int)
    requires ParseFlowLine(line) == Record(port, protocol)
    ensures Accepted([line]) == Success([PortProtocol(port, ProtocolName(protocol))])
  {
    OutcomesOne(line);
    ScanOneRecord(ParseFlowLine(line));
  }

  /** A one-line log made of a well-formed version 2 record yields its key. */
  lemma AcceptedOfFields(fs: seq<string>, port: int, protocol: int)
    requires |fs| >= MinFields && fs[0] == SupportedVersion
    requires forall i :: 0 <= i < |fs| ==> fs[i] != [] && NoSpace(fs[i])
    requires fs[PortField] == IntToString(port) && fs[ProtocolField] == IntToString(protocol)
    ensures Accepted([Join(fs, ' ')]) == Success([PortProtocol(port, ProtocolName(protocol))])
  {
    FlowLineOfFields(fs, port, protocol);
    AcceptedOne(Join(fs, ' '), port, protocol);
  }

  lemma OutcomesOne(line: string)
    ensures Outcomes([line]) == [ParseFlowLine(line)]
  {
    MapAt(ParseFlowLine, [line], 0);
  }

  lemma ScanOneRecord(o: LineOutcome)
    requires o.Record?
    ensures Scan([o]) == Success([KeyOf(o)])
  {
    ScanSnoc([], o);
    assert [] + [o] == [o] && [] + [KeyOf(o)] == [KeyOf(o)];
  }

  /** A record to port 53 over protocol 17 whose pair (53, "udp") has no lookup entry
      is counted under "Untagged" and under (53, "udp"). */
  lemma UntaggedRecord(lookupLines: seq<string>, fs: seq<string>)
    requires LookupTable(lookupLines) != map[]
    requires PortProtocol(53, "udp") !in LookupTable(lookupLines)
    requires |fs| >= MinFields && fs[0] == SupportedVersion
    requires forall i :: 0 <= i < |fs| ==> fs[i] != [] && NoSpace(fs[i])
    requires fs[PortField] == "53" && fs[ProtocolField] == "17"
    ensures Evaluate(lookupLines, [Join(fs, ' ')]) ==
      Success(Counts(Tally([Untagged], map[Untagged := 1]), Tally([PortProtocol(53, "udp")], map[PortProtocol(53, "udp") := 1])))
  {
    Text53And17();
    AcceptedOfFields(fs, 53, 17);
    OneKeyCounts(lookupLines, [Join(fs, ' ')], PortProtocol(53, "udp"));
  }

  lemma Text53And17()
    ensures IntToString(53) == "53" && IntToString(17) == "17"
  {
    assert 53 / 10 == 5 && 53 % 10 == 3 && 17 / 10 == 1 && 17 % 10 == 7;
    assert NatToString(5) == [DigitChar(5)] && NatToString(1) == [DigitChar(1)];
    assert NatToString(53) == NatToString(5) + [DigitChar(3)];
    assert NatToString(17) == NatToString(1) + [DigitChar(7)];
    assert DigitChar(5) == '5' && DigitChar(3) == '3' && DigitChar(1) == '1' && DigitChar(7) == '7';
  }

  lemma ProtocolNameStripped(n: int)
    ensures ProtocolName(n) != [] && Stripped(ProtocolName(n))
  {
    IntToStringPlain(n);
    if n < 0 {
      assert ProtocolName(n)[0] == '-';
    }
  }

  /** The table read from the single row `port,protocol,tag`. */
  lemma OneRowTable(port: int, protocol: int, tag: string)
    requires ',' !in tag && Stripped(tag)
    ensures LookupTable([IntToString(port) + "," + ProtocolName(protocol) + "," + tag]) ==
      map[PortProtocol(port, ProtocolName(protocol)) := tag]
  {
    var name := ProtocolName(protocol);
    ProtocolNamePlain(protocol);
    ProtocolNameStripped(protocol);
    LookupEntryOfRow(port, name, tag);
    LookupTableOfOne(IntToString(port) + "," + name + "," + tag);
  }

  lemma SingleRows(tag: string, key: PortProtocol)
    ensures Lines(TagRows(Tally([tag], map[tag := 1]))) == tag + ",1\n"
    ensures Lines(PairRows(Tally([key], map[key := 1]))) == IntToString(key.port) + "," + key.protocol + ",1\n"
  {
    var tags := Tally([tag], map[tag := 1]);
    var pairs := Tally([key], map[key := 1]);
    assert NatToString(1) == "1";
    assert Count(tags, tag) == 1 && Count(pairs, key) == 1;
    assert TagRow(tag, 1) == tag + ",1";
    assert PairRow(key, 1) == IntToString(key.port) + "," + key.protocol + ",1";
    assert TagRows(tags)[0] == TagRow(tag, 1) && PairRows(pairs)[0] == PairRow(key, 1);
    assert TagRows(tags) == [tag + ",1"];
    assert PairRows(pairs) == [IntToString(key.port) + "," + key.protocol + ",1"];
    assert TagRows(tags)[1..] == [] && PairRows(pairs)[1..] == [];
  }

  /** The report of one tag and one pair, each counted once. */
  lemma SingleCountsReport(tag: string, key: PortProtocol)
    ensures ReportText(Tally([tag], map[tag := 1]), Tally([key], map[key := 1])) ==
      ("Tag Counts:\n" + "Tag,Count\n") + (tag + ",1\n")
      + ("\n" + "Port/Protocol Combination Counts:\n" + "Port,Protocol,Count\n")
      + (IntToString(key.port) + "," + key.protocol + ",1\n")
  {
    SingleRows(tag, key);
    TagHeaderText();
    PairHeaderText();
    ReportTextSections(Tally([tag], map[tag := 1]), Tally([key], map[key := 1]));
  }

  /** The lookup row `port,protocol,tag` alone, and one record to that port over that
      protocol, give the report with the single rows `tag,1` and `port,protocol,1`
      (for example `25,tcp,sv_P1` and a record to port 25 over protocol 6 give
      `sv_P1,1` and `25,tcp,1`). */
  lemma OneRowOneRecordReport(fs: seq<string>, port: int, protocol: int, tag: string)
    requires ',' !in tag && Stripped(tag)
    requires |fs| >= MinFields && fs[0] == SupportedVersion
    requires forall i :: 0 <= i < |fs| ==> fs[i] != [] && NoSpace(fs[i])
    requires fs[PortField] == IntToString(port) && fs[ProtocolField] == IntToString(protocol)
    ensures var row := IntToString(port) + "," + ProtocolName(protocol) + "," + tag;
      Output([row], [Join(fs, ' ')]) == Success(
        ("Tag Counts:\n" + "Tag,Count\n") + (tag + ",1\n")
        + ("\n" + "Port/Protocol Combination Counts:\n" + "Port,Protocol,Count\n")
        + (IntToString(port) + "," + ProtocolName(protocol) + ",1\n"))
  {
    var row := IntToString(port) + "," + ProtocolName(protocol) + "," + tag;
    var key := PortProtocol(port, ProtocolName(protocol));
    OneRowTable(port, protocol, tag);
    assert key in LookupTable([row]);
    AcceptedOfFields(fs, port, protocol);
    OneKeyCounts([row], [Join(fs, ' ')], key);
    SingleCountsReport(tag, key);
  }

  /** `80,tcp` (two fields) and `abc,tcp,sv_P2` (a port that is not a number) are
      skipped. */
  lemma SkippedLookupRows()
    ensures LookupEntry("80,tcp") == None
    ensures LookupEntry("abc,tcp,sv_P2") == None
  {
    TwoFieldExample();
    NonIntegerPortExample();
  }

  lemma TwoFieldExample()
    ensures LookupEntry("80,tcp") == None
  {
    assert "80,tcp" == "80" + "," + "tcp";
    TwoFieldRowSkipped("80", "tcp");
  }

  lemma NonIntegerPortExample()
    ensures LookupEntry("abc,tcp,sv_P2") == None
  {
    var p, rest := "abc", "tcp,sv_P2";
    assert p + "," + rest == "abc,tcp,sv_P2";
    WordPortSkipped(p, rest);
  }

  /** A row whose first field starts with a character that is neither a digit nor a
      sign nor whitespace is skipped. */
  lemma WordPortSkipped(p: string, rest: string)
    requires ',' !in p && p != [] && !IsSpace(p[0]) && !IsDigit(p[0]) && p[0] != '+' && p[0] != '-'
    ensures LookupEntry(p + "," + rest) == None
  {
    assert [] + p == p;
    TrimAfterSpace([], p);
    ParseIntRejects(Trim(p), 0);
    NonIntegerPortSkipped(p, rest);
  }

}
