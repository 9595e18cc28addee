/**
  Flow-log records: checking one line (field count, version, integer port and
  protocol), naming the protocol, choosing the tag, and the keys a whole log yields
  up to its first refused line.
*/
module FlowRecords {
  import opened Wrappers
  import opened Text
  import opened Lookup
  import opened Seqs

  /** Why a non-blank flow-log line is refused. */
  datatype Fault =
    | TooFewFields(found: nat)
    | UnsupportedVersion(version: string)
    | NotIntegers

  /** A refused line with its 1-based physical line number. */
  datatype LineError = LineError(line: nat, fault: Fault)

  /** The verdict on one flow-log line. */
  datatype LineOutcome =
    | Blank
    | Record(port: int, protocol: int)
    | Malformed(fault: Fault)

  /** Version 2 records carry at least this many whitespace-separated fields. */
  const MinFields := 14
  const SupportedVersion := "2"
  /** Zero-based positions of the destination port and the protocol number. */
  const PortField := 6
  const ProtocolField := 7

  /** The checks of one line, in the order the loop applies them. */
  function ParseFlowLine(line: string): LineOutcome {
    var t := Trim(line);
    if t == [] then Blank
    else
      var fields := Fields(t);
      if |fields| < MinFields then Malformed(TooFewFields(|fields|))
      else if fields[0] != SupportedVersion then Malformed(UnsupportedVersion(fields[0]))
      else
        match (ParseInt(fields[PortField]), ParseInt(fields[ProtocolField]))
        case (Some(port), Some(protocol)) => Record(port, protocol)
        case _ => Malformed(NotIntegers)
  }

  /** The verdict in terms of the whitespace-separated fields of the raw line: blank
      exactly when there are none; otherwise too few fields, then a version other than
      "2", then a non-integer port or protocol, each checked only if the previous
      check passed. */
  lemma FlowLineVerdict(line: string)
    ensures var fs := Fields(line);
      match ParseFlowLine(line)
      case Blank => fs == []
      case Malformed(TooFewFields(n)) => 0 < |fs| < MinFields && n == |fs|
      case Malformed(UnsupportedVersion(v)) => |fs| >= MinFields && v == fs[0] && v != SupportedVersion
      case Malformed(NotIntegers) =>
        && |fs| >= MinFields && fs[0] == SupportedVersion
        && (ParseInt(fs[PortField]).None? || ParseInt(fs[ProtocolField]).None?)
      case Record(port, protocol) =>
        && |fs| >= MinFields && fs[0] == SupportedVersion
        && ParseInt(fs[PortField]) == Some(port) && ParseInt(fs[ProtocolField]) == Some(protocol)
  {
    var t := Trim(line);
    FieldsOfTrim(line);
    if t != [] {
      var fs := Fields(t);
      assert fs != [];
      if |fs| >= MinFields && fs[0] == SupportedVersion {
        assert ParseFlowLine(line) ==
          match (ParseInt(fs[PortField]), ParseInt(fs[ProtocolField]))
          case (Some(port), Some(protocol)) => Record(port, protocol)
          case _ => Malformed(NotIntegers);
      }
    }
  }

  /** A line is blank exactly when it is all whitespace. */
  lemma BlankIffWhitespace(line: string)
    ensures ParseFlowLine(line).Blank? <==> AllSpace(line)
  {
  }

  /** A line made of at least 14 fields, version "2", and decimal port and protocol
      numbers in fields 6 and 7 is accepted with exactly those numbers. */
  lemma FlowLineOfFields(fs: seq<string>, port: int, protocol: int)
    requires |fs| >= MinFields
    requires forall i :: 0 <= i < |fs| ==> fs[i] != [] && NoSpace(fs[i])
    requires fs[0] == SupportedVersion
    requires fs[PortField] == IntToString(port) && fs[ProtocolField] == IntToString(protocol)
    ensures ParseFlowLine(Join(fs, ' ')) == Record(port, protocol)
  {
    var line := Join(fs, ' ');
    FieldsOfJoin(fs);
    FieldsOfTrim(line);
    ParseIntOfIntToString(port);
    ParseIntOfIntToString(protocol);
  }

  /** The protocol text: 1, 6 and 17 are "icmp", "tcp" and "udp"; any other number
      is its decimal string. */
  function ProtocolName(n: int): string {
    if n == 1 then "icmp"
    else if n == 6 then "tcp"
    else if n == 17 then "udp"
    else IntToString(n)
  }

  /** The three named protocols are exactly 1, 6 and 17; the text of any other number
      reads back as that number. */
  lemma ProtocolNameMeaning(n: int)
    ensures ProtocolName(n) == "icmp" <==> n == 1
    ensures ProtocolName(n) == "tcp" <==> n == 6
    ensures ProtocolName(n) == "udp" <==> n == 17
    ensures n != 1 && n != 6 && n != 17 ==> ParseInt(ProtocolName(n)) == Some(n)
  {
    NamesAreNotNumbers();
    if n != 1 && n != 6 && n != 17 {
      ParseIntOfIntToString(n);
    }
  }

  /** Distinct protocol numbers get distinct texts, so the port/protocol tally never
      merges two protocols. */
  lemma ProtocolNameInjective(a: int, b: int)
    requires ProtocolName(a) == ProtocolName(b)
    ensures a == b
  {
    NamesAreNotNumbers();
    if a != 1 && a != 6 && a != 17 {
      ParseIntOfIntToString(a);
    }
    if b != 1 && b != 6 && b != 17 {
      ParseIntOfIntToString(b);
    }
  }

  /** The three protocol names do not read as numbers. */
  lemma NamesAreNotNumbers()
    ensures ParseInt("icmp") == None && ParseInt("tcp") == None && ParseInt("udp") == None
  {
    assert !IsDigit("icmp"[0]) && !IsDigit("tcp"[0]) && !IsDigit("udp"[0]);
  }

  /** A protocol text holds no comma, no line break and no upper-case letter. */
  lemma ProtocolNamePlain(n: int)
    ensures ',' !in ProtocolName(n) && '\n' !in ProtocolName(n)
    ensures forall i :: 0 <= i < |ProtocolName(n)| ==> !IsUpper(ProtocolName(n)[i])
  {
    if n != 1 && n != 6 && n != 17 {
      IntToStringPlain(n);
    }
  }

  /** The tag of a flow without a lookup entry. */
  const Untagged := "Untagged"

  /** The tag of a (port, protocol) key: its lookup entry, or "Untagged" without one. */
  function TagOf(table: map<PortProtocol, string>, key: PortProtocol): string {
    if key in table then table[key] else Untagged
  }

  /** Lookup line i sets the key to tag, and no later lookup line sets the key. */
  predicate LastSetter(lines: seq<string>, i: nat, key: PortProtocol, tag: string) {
    && i < |lines| && LookupEntry(lines[i]) == Some((key, tag))
    && forall j :: i < j < |lines| ==> LookupEntry(lines[j]).None? || LookupEntry(lines[j]).value.0 != key
  }

  /** The entries say the same as the lines about which line sets a key last. */
  lemma LastSetterEntries(lines: seq<string>, i: nat, key: PortProtocol, tag: string)
    requires i < |lines|
    ensures LastSetter(lines, i, key, tag) <==> Entries(lines)[i] == Some((key, tag)) && LastFor(Entries(lines), i, key)
  {
    var es := Entries(lines);
    MapAt(LookupEntry, lines, i);
    forall j | i < j < |es| ensures es[j] == LookupEntry(lines[j]) {
      MapAt(LookupEntry, lines, j);
    }
  }

  /** The tag of a flow is the one given by the last lookup line that names its
      (port, protocol) key. */
  lemma TagOfLastSetter(lines: seq<string>, i: nat, key: PortProtocol, tag: string)
    requires LastSetter(lines, i, key, tag)
    ensures TagOf(LookupTable(lines), key) == tag
  {
    LastSetterEntries(lines, i, key, tag);
    TableOfLastWins(Entries(lines), i, key, tag);
  }

  /** A flow whose (port, protocol) key no lookup line names is tagged "Untagged". */
  lemma TagOfUnnamed(lines: seq<string>, key: PortProtocol)
    requires forall j :: 0 <= j < |lines| ==> LookupEntry(lines[j]).None? || LookupEntry(lines[j]).value.0 != key
    ensures TagOf(LookupTable(lines), key) == Untagged
  {
    var es := Entries(lines);
    forall j | 0 <= j < |es| ensures es[j].None? || es[j].value.0 != key {
      MapAt(LookupEntry, lines, j);
    }
    TableOfAbsent(es, key);
  }

  /** Conversely, a tag other than "Untagged" comes from the last lookup line that names
      the key. */
  lemma TagOfHasSetter(lines: seq<string>, key: PortProtocol)
    requires TagOf(LookupTable(lines), key) != Untagged
    ensures exists i :: LastSetter(lines, i, key, TagOf(LookupTable(lines), key))
  {
    var es := Entries(lines);
    var table := TableOf(es);
    assert key in table;
    TableOfFromEntries(es, key);
    var i :| 0 <= i < |es| && es[i] == Some((key, table[key])) && LastFor(es, i, key);
    LastSetterEntries(lines, i, key, table[key]);
  }

  /** A tag is the table's tag for its key or "Untagged". */
  lemma TagFromTable(table: map<PortProtocol, string>, key: PortProtocol)
    ensures TagOf(table, key) == Untagged || exists k :: k in table && table[k] == TagOf(table, key)
  {
    if key in table {
      assert table[key] == TagOf(table, key);
    }
  }

  /** The tags of a sequence of keys, in order. */
  function Tags(table: map<PortProtocol, string>, keys: seq<PortProtocol>): (tags: seq<string>)
    ensures |tags| == |keys|
  {
    seq(|keys|, i requires 0 <= i < |keys| => TagOf(table, keys[i]))
  }

  /** The key a record contributes to the port/protocol tally. */
  function KeyOf(o: LineOutcome): PortProtocol
    requires o.Record?
  {
    PortProtocol(o.port, ProtocolName(o.protocol))
  }

  /** The verdict on each line, in order. */
  function Outcomes(lines: seq<string>): (os: seq<LineOutcome>)
    ensures |os| == |lines|
  {
    Map(ParseFlowLine, lines)
  }

  /** One more verdict, the 1-based line number-th: a failure stays, a malformed line
      fails with its number, a record adds its key and a blank line adds nothing. */
  function Step(acc: Result<seq<PortProtocol>, LineError>, o: LineOutcome, number: nat): Result<seq<PortProtocol>, LineError> {
    match acc
    case Failure(e) => Failure(e)
    case Success(keys) =>
      match o
      case Malformed(fault) => Failure(LineError(number, fault))
      case Record(port, protocol) => Success(keys + [PortProtocol(port, ProtocolName(protocol))])
      case Blank => Success(keys)
  }

  /** The keys of the records among the verdicts, stopping at the first malformed line,
      whose 1-based position becomes the error's line number. */
  function Scan(os: seq<LineOutcome>): Result<seq<PortProtocol>, LineError>
    decreases |os|
  {
    if os == [] then Success([]) else Step(Scan(os[..|os| - 1]), os[|os| - 1], |os|)
  }

  lemma ScanSnoc(os: seq<LineOutcome>, o: LineOutcome)
    ensures Scan(os + [o]) == Step(Scan(os), o, |os| + 1)
  {
    assert (os + [o])[..|os|] == os;
  }

  /** The keys of the accepted flow-log lines, or the first refused line. */
  function Accepted(lines: seq<string>): Result<seq<PortProtocol>, LineError> {
    Scan(Outcomes(lines))
  }

  /** The keys of all records, in order (a reference definition, head first). */
  function RecordKeys(os: seq<LineOutcome>): seq<PortProtocol>
    decreases |os|
  {
    if os == [] then []
    else (if os[0].Record? then [KeyOf(os[0])] else []) + RecordKeys(os[1..])
  }

  /** The number of non-blank verdicts. */
  function NonBlank(os: seq<LineOutcome>): nat
    decreases |os|
  {
    if os == [] then 0 else (if os[0].Blank? then 0 else 1) + NonBlank(os[1..])
  }

  /** The number of lines that are not all whitespace. */
  function CountNonBlank(lines: seq<string>): nat
    decreases |lines|
  {
    if lines == [] then 0 else (if AllSpace(lines[0]) then 0 else 1) + CountNonBlank(lines[1..])
  }

  predicate NoneMalformed(os: seq<LineOutcome>) {
    forall i :: 0 <= i < |os| ==> !os[i].Malformed?
  }

  lemma {:induction false} RecordKeysSnoc(os: seq<LineOutcome>, o: LineOutcome)
    ensures RecordKeys(os + [o]) == RecordKeys(os) + (if o.Record? then [KeyOf(o)] else [])
    decreases |os|
  {
    var last := if o.Record? then [KeyOf(o)] else [];
    if os == [] {
      assert os + [o] == [o] && [o][1..] == [];
      assert RecordKeys([o]) == last + RecordKeys([]);
    } else {
      var head := if os[0].Record? then [KeyOf(os[0])] else [];
      var tail := os[1..];
      assert (os + [o])[0] == os[0];
      assert (os + [o])[1..] == tail + [o];
      RecordKeysSnoc(tail, o);
      calc {
        RecordKeys(os + [o]);
        head + RecordKeys(tail + [o]);
        head + (RecordKeys(tail) + last);
        (head + RecordKeys(tail)) + last;
        RecordKeys(os) + last;
      }
    }
  }

  /** Without malformed lines, the scan yields the keys of all records in order. */
  lemma {:induction false} ScanWellFormed(os: seq<LineOutcome>)
    requires NoneMalformed(os)
    ensures Scan(os) == Success(RecordKeys(os))
    decreases |os|
  {
    if os != [] {
      var init := os[..|os| - 1];
      assert NoneMalformed(init) by {
        forall i | 0 <= i < |init| ensures !init[i].Malformed? { assert init[i] == os[i]; }
      }
      ScanWellFormed(init);
      var o := os[|os| - 1];
      assert !o.Malformed?;
      RecordKeysSnoc(init, o);
      assert init + [o] == os;
      assert RecordKeys(init) + [] == RecordKeys(init);
    }
  }

  /** A successful scan saw no malformed line. */
  lemma {:induction false} ScanSuccessMeansWellFormed(os: seq<LineOutcome>)
    requires Scan(os).Success?
    ensures NoneMalformed(os)
    decreases |os|
  {
    if os != [] {
      var init := os[..|os| - 1];
      assert Scan(init).Success? && !os[|os| - 1].Malformed?;
      ScanSuccessMeansWellFormed(init);
      forall i | 0 <= i < |os| ensures !os[i].Malformed? {
        if i < |init| { assert os[i] == init[i] && !init[i].Malformed?; }
      }
      assert NoneMalformed(os);
    }
  }

  /** Once a prefix has failed, later lines change nothing. */
  lemma {:induction false} ScanKeepsFailure(os: seq<LineOutcome>, m: nat)
    requires m <= |os| && Scan(os[..m]).Failure?
    ensures Scan(os) == Scan(os[..m])
    decreases |os| - m
  {
    if m < |os| {
      assert os[..m + 1][..m] == os[..m];
      ScanKeepsFailure(os, m + 1);
    } else {
      assert os[..m] == os;
    }
  }

  /** The first malformed line decides the error: its 1-based number and its fault. */
  lemma ScanStopsAtFirstMalformed(os: seq<LineOutcome>, i: nat)
    requires i < |os| && os[i].Malformed?
    requires forall j :: 0 <= j < i ==> !os[j].Malformed?
    ensures Scan(os) == Failure(LineError(i + 1, os[i].fault))
  {
    var prefix := os[..i + 1];
    assert prefix[..i] == os[..i];
    assert NoneMalformed(os[..i]) by {
      forall j | 0 <= j < i ensures !os[..i][j].Malformed? { assert os[..i][j] == os[j]; }
    }
    ScanWellFormed(os[..i]);
    assert Scan(prefix) == Failure(LineError(i + 1, os[i].fault));
    ScanKeepsFailure(os, i + 1);
  }

  /** Without malformed lines, every non-blank line yields exactly one key. */
  lemma {:induction false} RecordKeysCount(os: seq<LineOutcome>)
    requires NoneMalformed(os)
    ensures |RecordKeys(os)| == NonBlank(os)
    decreases |os|
  {
    if os != [] {
      assert NoneMalformed(os[1..]) by {
        forall i | 0 <= i < |os[1..]| ensures !os[1..][i].Malformed? { assert os[1..][i] == os[i + 1]; }
      }
      RecordKeysCount(os[1..]);
    }
  }

  lemma {:induction false} NonBlankMatches(os: seq<LineOutcome>, lines: seq<string>)
    requires |os| == |lines|
    requires forall i :: 0 <= i < |os| ==> (os[i].Blank? <==> AllSpace(lines[i]))
    ensures NonBlank(os) == CountNonBlank(lines)
    decreases |os|
  {
    if os != [] {
      assert forall i :: 0 <= i < |os| - 1 ==> os[1..][i] == os[i + 1] && lines[1..][i] == lines[i + 1];
      NonBlankMatches(os[1..], lines[1..]);
    }
  }

  /** Blank verdicts are exactly the all-whitespace lines. */
  lemma NonBlankOutcomes(lines: seq<string>)
    ensures NonBlank(Outcomes(lines)) == CountNonBlank(lines)
  {
    var os := Outcomes(lines);
    forall i | 0 <= i < |os| ensures os[i].Blank? <==> AllSpace(lines[i]) {
      MapAt(ParseFlowLine, lines, i);
      BlankIffWhitespace(lines[i]);
    }
    NonBlankMatches(os, lines);
  }

  /** The flow log is accepted exactly when no line is malformed; its keys are then
      those of the non-blank lines in order, one per non-blank line. */
  lemma AcceptedIffNoneMalformed(lines: seq<string>)
    ensures Accepted(lines).Success? <==> forall i :: 0 <= i < |lines| ==> !ParseFlowLine(lines[i]).Malformed?
    ensures Accepted(lines).Success? ==>
      Accepted(lines).value == RecordKeys(Outcomes(lines)) && |Accepted(lines).value| == CountNonBlank(lines)
  {
    var os := Outcomes(lines);
    forall i | 0 <= i < |lines| ensures os[i] == ParseFlowLine(lines[i]) {
      MapAt(ParseFlowLine, lines, i);
    }
    if Scan(os).Success? {
      ScanSuccessMeansWellFormed(os);
    }
    if NoneMalformed(os) {
      ScanWellFormed(os);
      RecordKeysCount(os);
      NonBlankOutcomes(lines);
    }
  }

  /** The first malformed flow-log line aborts the scan with its 1-based line number,
      however many valid lines come before or after it. */
  lemma AcceptedFailsAtFirstMalformed(lines: seq<string>, i: nat)
    requires i < |lines| && ParseFlowLine(lines[i]).Malformed?
    requires forall j :: 0 <= j < i ==> !ParseFlowLine(lines[j]).Malformed?
    ensures Accepted(lines) == Failure(LineError(i + 1, ParseFlowLine(lines[i]).fault))
  {
    var os := Outcomes(lines);
    MapAt(ParseFlowLine, lines, i);
    forall j | 0 <= j < i ensures !os[j].Malformed? { MapAt(ParseFlowLine, lines, j); }
    ScanStopsAtFirstMalformed(os, i);
  }

  /** Reading one more line: a failure stays, a malformed line fails with its 1-based
      number, a record adds its key and a blank line adds nothing. */
  lemma AcceptedStep(lines: seq<string>, n: nat)
    requires n < |lines|
    ensures Accepted(lines[..n + 1]) == Step(Accepted(lines[..n]), ParseFlowLine(lines[n]), n + 1)
  {
    MapSnoc(ParseFlowLine, lines, n);
    ScanSnoc(Outcomes(lines[..n]), ParseFlowLine(lines[n]));
  }

  /** Once a prefix of the log has failed, the whole log fails the same way. */
  lemma AcceptedKeepsFailure(lines: seq<string>, n: nat)
    requires n <= |lines| && Accepted(lines[..n]).Failure?
    ensures Accepted(lines) == Accepted(lines[..n])
  {
    MapPrefix(ParseFlowLine, lines, n);
    ScanKeepsFailure(Outcomes(lines), n);
  }

  /** Every key the scan yields carries a protocol text: no comma, no line break. */
  lemma {:induction false} ScanKeysPlain(os: seq<LineOutcome>)
    requires Scan(os).Success?
    ensures forall i :: 0 <= i < |Scan(os).value| ==>
      ',' !in Scan(os).value[i].protocol && '\n' !in Scan(os).value[i].protocol
    decreases |os|
  {
    if os != [] {
      var init := os[..|os| - 1];
      ScanKeysPlain(init);
      var o := os[|os| - 1];
      if o.Record? {
        ProtocolNamePlain(o.protocol);
      }
    }
  }
}
