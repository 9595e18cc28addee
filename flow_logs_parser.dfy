/**
  The parser end to end: load the lookup table, refuse an empty one, read the flow
  log line by line into the two counters, stop at the first refused line, and write
  the report.
*/
module FlowLogsParser {
  import opened Wrappers
  import opened Text
  import opened Lookup
  import opened FlowRecords
  import opened Tallies
  import opened Report

  /** Why a run ends without a report (the program prints a message and exits 1). */
  datatype RunError =
    | EmptyLookup
    | FlowLogError(error: LineError)

  /** The two counters after a complete flow log. */
  datatype Counts = Counts(tags: Tally<string>, pairs: Tally<PortProtocol>)

  /** What a run computes: the failure, or the counts of the tags and of the
      (port, protocol) pairs of the accepted lines, in first-seen order. */
  function Evaluate(lookupLines: seq<string>, flowLines: seq<string>): Result<Counts, RunError> {
    var table := LookupTable(lookupLines);
    if table == map[] then Failure(EmptyLookup)
    else
      match Accepted(flowLines)
      case Failure(e) => Failure(FlowLogError(e))
      case Success(keys) => Success(Counts(TallyOf(Tags(table, keys)), TallyOf(keys)))
  }

  /** The report text a run writes, or why it writes none. */
  function Output(lookupLines: seq<string>, flowLines: seq<string>): Result<string, RunError> {
    match Evaluate(lookupLines, flowLines)
    case Failure(e) => Failure(e)
    case Success(c) => Success(ReportText(c.tags, c.pairs))
  }

  /** The counts of a successful run, from the table and the accepted keys. */
  lemma EvaluateValue(lookupLines: seq<string>, flowLines: seq<string>)
    requires Evaluate(lookupLines, flowLines).Success?
    ensures Accepted(flowLines).Success?
    ensures Evaluate(lookupLines, flowLines).value ==
      Counts(TallyOf(Tags(LookupTable(lookupLines), Accepted(flowLines).value)), TallyOf(Accepted(flowLines).value))
  {
  }

  lemma TallyOfSnoc<K>(ks: seq<K>, k: K)
    ensures TallyOf(ks + [k]) == Bump(TallyOf(ks), k)
  {
    assert (ks + [k])[..|ks|] == ks;
  }

  lemma TagsSnoc(table: map<PortProtocol, string>, keys: seq<PortProtocol>, key: PortProtocol)
    ensures Tags(table, keys + [key]) == Tags(table, keys) + [TagOf(table, key)]
  {
  }

  /** What reading line n + 1 does to the scan and to the two tallies: a malformed
      line decides the whole log, a blank line changes nothing, and a record appends its
      key and its tag. */
  lemma CountStep(table: map<PortProtocol, string>, lines: seq<string>, n: nat, keys: seq<PortProtocol>)
    requires n < |lines| && Accepted(lines[..n]) == Success(keys)
    ensures var o := ParseFlowLine(lines[n]);
      && (o.Malformed? ==> Accepted(lines) == Failure(LineError(n + 1, o.fault)))
      && (o.Blank? ==> Accepted(lines[..n + 1]) == Success(keys))
      && (o.Record? ==>
            var key := KeyOf(o);
            && Accepted(lines[..n + 1]) == Success(keys + [key])
            && TallyOf(Tags(table, keys + [key])) == Bump(TallyOf(Tags(table, keys)), TagOf(table, key))
            && TallyOf(keys + [key]) == Bump(TallyOf(keys), key))
  {
    var o := ParseFlowLine(lines[n]);
    AcceptedStep(lines, n);
    if o.Malformed? {
      AcceptedKeepsFailure(lines, n + 1);
    }
    if o.Record? {
      var key := KeyOf(o);
      TagsSnoc(table, keys, key);
      TallyOfSnoc(Tags(table, keys), TagOf(table, key));
      TallyOfSnoc(keys, key);
    }
  }

  /** One accepted line: its tag's count and its pair's count each go up by one. */
  method CountRecord(tagCount: Counter<string>, portProtocolCount: Counter<PortProtocol>, tag: string, key: PortProtocol)
    requires tagCount.Valid() && portProtocolCount.Valid()
    modifies tagCount, portProtocolCount
    ensures tagCount.Valid() && portProtocolCount.Valid()
    ensures tagCount.Snapshot() == Bump(old(tagCount.Snapshot()), tag)
    ensures portProtocolCount.Snapshot() == Bump(old(portProtocolCount.Snapshot()), key)
  {
    tagCount.Increment(tag);
    portProtocolCount.Increment(key);
  }

  /** The flow-log loop: each line is read with its 1-based number, blank lines are
      skipped, the first refused line ends the run, and every accepted line raises its
      tag's count and its (port, protocol) pair's count by one. */
  method CountFlows(table: map<PortProtocol, string>, lines: seq<string>)
      returns (failure: Option<LineError>, tagCount: Counter<string>, portProtocolCount: Counter<PortProtocol>)
    ensures fresh(tagCount) && fresh(portProtocolCount)
    ensures tagCount.Valid() && portProtocolCount.Valid()
    ensures Accepted(lines).Failure? ==> failure == Some(Accepted(lines).error)
    ensures Accepted(lines).Success? ==>
      && failure == None
      && tagCount.Snapshot() == TallyOf(Tags(table, Accepted(lines).value))
      && portProtocolCount.Snapshot() == TallyOf(Accepted(lines).value)
  {
    tagCount := new Counter<string>();
    portProtocolCount := new Counter<PortProtocol>();
    ghost var keys: seq<PortProtocol> := [];
    var lineNumber := 0;
    while lineNumber < |lines|
      invariant 0 <= lineNumber <= |lines|
      invariant Accepted(lines[..lineNumber]) == Success(keys)
      invariant fresh(tagCount) && fresh(portProtocolCount)
      invariant tagCount.Valid() && portProtocolCount.Valid()
      invariant tagCount.Snapshot() == TallyOf(Tags(table, keys))
      invariant portProtocolCount.Snapshot() == TallyOf(keys)
    {
      var line := lines[lineNumber];
      CountStep(table, lines, lineNumber, keys);
      lineNumber := lineNumber + 1;
      var outcome := ParseFlowLine(line);
      if outcome.Malformed? {
        return Some(LineError(lineNumber, outcome.fault)), tagCount, portProtocolCount;
      }
      if outcome.Record? {
        var protocolText := ProtocolName(outcome.protocol);
        var key := PortProtocol(outcome.port, protocolText);
        var tag := if key in table then table[key] else Untagged;
        CountRecord(tagCount, portProtocolCount, tag, key);
        keys := keys + [key];
      }
    }
    assert lines[..lineNumber] == lines;
    failure := None;
  }

  /** A whole run: the lookup lines, then the flow-log lines, then the report. */
  method Run(lookupLines: seq<string>, flowLines: seq<string>) returns (r: Result<string, RunError>)
    ensures r == Output(lookupLines, flowLines)
  {
    var table := LoadLookup(lookupLines);
    if table == map[] {
      return Failure(EmptyLookup);
    }
    var failure, tagCount, portProtocolCount := CountFlows(table, flowLines);
    if failure.Some? {
      return Failure(FlowLogError(failure.value));
    }
    var report := WriteReport(tagCount, portProtocolCount);
    r := Success(report);
  }

  /** The run fails for an empty lookup table exactly when every lookup line is
      skipped, whatever the flow log holds. */
  lemma EmptyLookupIffAllSkipped(lookupLines: seq<string>, flowLines: seq<string>)
    ensures Evaluate(lookupLines, flowLines) == Failure(EmptyLookup) <==>
      forall i :: 0 <= i < |lookupLines| ==> LookupEntry(lookupLines[i]).None?
  {
    LookupTableEmpty(lookupLines);
  }

  /** With a usable lookup table, the first refused flow-log line fails the run with
      its 1-based number and its fault, whatever follows it. */
  lemma FirstRefusedLineFails(lookupLines: seq<string>, flowLines: seq<string>, i: nat)
    requires exists j :: 0 <= j < |lookupLines| && LookupEntry(lookupLines[j]).Some?
    requires i < |flowLines| && ParseFlowLine(flowLines[i]).Malformed?
    requires forall j :: 0 <= j < i ==> !ParseFlowLine(flowLines[j]).Malformed?
    ensures Evaluate(lookupLines, flowLines) == Failure(FlowLogError(LineError(i + 1, ParseFlowLine(flowLines[i]).fault)))
  {
    LookupTableEmpty(lookupLines);
    AcceptedFailsAtFirstMalformed(flowLines, i);
  }

  /** A run produces counts exactly when the lookup table is usable and no flow-log
      line is refused. */
  lemma SuccessIff(lookupLines: seq<string>, flowLines: seq<string>)
    ensures Evaluate(lookupLines, flowLines).Success? <==>
      && (exists j :: 0 <= j < |lookupLines| && LookupEntry(lookupLines[j]).Some?)
      && (forall i :: 0 <= i < |flowLines| ==> !ParseFlowLine(flowLines[i]).Malformed?)
  {
    LookupTableEmpty(lookupLines);
    AcceptedIffNoneMalformed(flowLines);
  }

  /** After a complete run, each pair is counted once per accepted line that carries
      it and each tag once per accepted line whose pair it tags; a key is listed
      exactly when it was counted. */
  lemma CountsOfRun(lookupLines: seq<string>, flowLines: seq<string>)
    requires Evaluate(lookupLines, flowLines).Success?
    ensures var c := Evaluate(lookupLines, flowLines).value;
      var keys := RecordKeys(Outcomes(flowLines));
      var tags := Tags(LookupTable(lookupLines), keys);
      && WellFormed(c.pairs) && WellFormed(c.tags)
      && (forall k :: Count(c.pairs, k) == multiset(keys)[k])
      && (forall t :: Count(c.tags, t) == multiset(tags)[t])
  {
    EvaluateValue(lookupLines, flowLines);
    AcceptedIffNoneMalformed(flowLines);
    var keys := RecordKeys(Outcomes(flowLines));
    TallyOfCounts(keys);
    TallyOfCounts(Tags(LookupTable(lookupLines), keys));
  }

  /** Both counters list their keys in the order of first occurrence. */
  lemma OrderOfRun(lookupLines: seq<string>, flowLines: seq<string>)
    requires Evaluate(lookupLines, flowLines).Success?
    ensures var c := Evaluate(lookupLines, flowLines).value;
      var keys := RecordKeys(Outcomes(flowLines));
      var tags := Tags(LookupTable(lookupLines), keys);
      && (forall i :: 0 <= i < |c.pairs.order| ==> c.pairs.order[i] in keys)
      && (forall i, j :: 0 <= i < j < |c.pairs.order| ==>
            FirstIndex(keys, c.pairs.order[i]) < FirstIndex(keys, c.pairs.order[j]))
      && (forall i :: 0 <= i < |c.tags.order| ==> c.tags.order[i] in tags)
      && (forall i, j :: 0 <= i < j < |c.tags.order| ==>
            FirstIndex(tags, c.tags.order[i]) < FirstIndex(tags, c.tags.order[j]))
  {
    EvaluateValue(lookupLines, flowLines);
    AcceptedIffNoneMalformed(flowLines);
    var keys := RecordKeys(Outcomes(flowLines));
    TallyOfOrder(keys);
    TallyOfOrder(Tags(LookupTable(lookupLines), keys));
  }

  /** The tag counts and the port/protocol counts both add up to the number of
      non-blank flow-log lines. */
  lemma TotalsOfRun(lookupLines: seq<string>, flowLines: seq<string>)
    requires Evaluate(lookupLines, flowLines).Success?
    ensures Total(Evaluate(lookupLines, flowLines).value.tags) == CountNonBlank(flowLines)
    ensures Total(Evaluate(lookupLines, flowLines).value.pairs) == CountNonBlank(flowLines)
  {
    EvaluateValue(lookupLines, flowLines);
    AcceptedIffNoneMalformed(flowLines);
    var keys := RecordKeys(Outcomes(flowLines));
    TallyOfTotal(keys);
    TallyOfTotal(Tags(LookupTable(lookupLines), keys));
  }

  /** Every tag counted is a lookup tag or "Untagged". */
  lemma TagsOfRun(lookupLines: seq<string>, flowLines: seq<string>)
    requires Evaluate(lookupLines, flowLines).Success?
    ensures var c := Evaluate(lookupLines, flowLines).value;
      var table := LookupTable(lookupLines);
      forall i :: 0 <= i < |c.tags.order| ==>
        c.tags.order[i] == Untagged || exists k :: k in table && table[k] == c.tags.order[i]
  {
    EvaluateValue(lookupLines, flowLines);
    CountedTagsFromTable(LookupTable(lookupLines), Accepted(flowLines).value);
  }

  /** Every tag counted for some keys is a tag of the table or "Untagged". */
  lemma CountedTagsFromTable(table: map<PortProtocol, string>, keys: seq<PortProtocol>)
    ensures var order := TallyOf(Tags(table, keys)).order;
      forall i :: 0 <= i < |order| ==>
        order[i] == Untagged || exists k :: k in table && table[k] == order[i]
  {
    var tags := Tags(table, keys);
    var order := TallyOf(tags).order;
    TallyOfOrder(tags);
    forall i | 0 <= i < |order| ensures order[i] == Untagged || exists k :: k in table && table[k] == order[i] {
      var j :| 0 <= j < |tags| && tags[j] == order[i];
      TagFromTable(table, keys[j]);
    }
  }

  /** When no lookup line holds a line break, no tag counted for any keys holds a
      line break or a comma. */
  lemma CountedTagsPlain(lookupLines: seq<string>, keys: seq<PortProtocol>)
    requires forall i :: 0 <= i < |lookupLines| ==> '\n' !in lookupLines[i]
    ensures forall i :: 0 <= i < |TallyOf(Tags(LookupTable(lookupLines), keys)).order| ==>
      '\n' !in TallyOf(Tags(LookupTable(lookupLines), keys)).order[i] &&
      ',' !in TallyOf(Tags(LookupTable(lookupLines), keys)).order[i]
  {
    var table := LookupTable(lookupLines);
    var tags := Tags(table, keys);
    var order := TallyOf(tags).order;
    TallyOfOrder(tags);
    forall i | 0 <= i < |order| ensures '\n' !in order[i] && ',' !in order[i] {
      var j :| 0 <= j < |tags| && tags[j] == order[i];
      if keys[j] in table {
        TableTagsSingleLine(lookupLines, keys[j]);
        TableTagsPlain(lookupLines, keys[j]);
      }
    }
  }

  /** No counted protocol text holds a line break or a comma. */
  lemma CountedProtocolsPlain(flowLines: seq<string>)
    requires Accepted(flowLines).Success?
    ensures forall i :: 0 <= i < |TallyOf(Accepted(flowLines).value).order| ==>
      '\n' !in TallyOf(Accepted(flowLines).value).order[i].protocol &&
      ',' !in TallyOf(Accepted(flowLines).value).order[i].protocol
  {
    var keys := Accepted(flowLines).value;
    ScanKeysPlain(Outcomes(flowLines));
    TallyOfOrder(keys);
    var order := TallyOf(keys).order;
    forall i | 0 <= i < |order| ensures '\n' !in order[i].protocol && ',' !in order[i].protocol {
      var j :| 0 <= j < |keys| && keys[j] == order[i];
    }
  }

  /** When no lookup line holds a line break (as lines read from a file do not), the
      report reads back line by line: the headings, one `tag,count` row per tag with
      its count, an empty line, the headings, and one `port,protocol,count` row per pair
      with its count, each row splitting at its commas into exactly those fields. */
  lemma ReportOfRun(lookupLines: seq<string>, flowLines: seq<string>)
    requires forall i :: 0 <= i < |lookupLines| ==> '\n' !in lookupLines[i]
    requires Evaluate(lookupLines, flowLines).Success?
    ensures var c := Evaluate(lookupLines, flowLines).value;
      && Output(lookupLines, flowLines).Success?
      && SplitOn(Output(lookupLines, flowLines).value, '\n') == TagHeader + TagRows(c.tags) + PairHeader + PairRows(c.pairs) + [""]
      && (forall i :: 0 <= i < |c.tags.order| ==>
            SplitOn(TagRows(c.tags)[i], ',') == [c.tags.order[i], NatToString(Count(c.tags, c.tags.order[i]))])
      && (forall i :: 0 <= i < |c.pairs.order| ==>
            SplitOn(PairRows(c.pairs)[i], ',') ==
              [IntToString(c.pairs.order[i].port), c.pairs.order[i].protocol, NatToString(Count(c.pairs, c.pairs.order[i]))])
  {
    var keys := Accepted(flowLines).value;
    var c := Evaluate(lookupLines, flowLines).value;
    assert c == Counts(TallyOf(Tags(LookupTable(lookupLines), keys)), TallyOf(keys));
    assert Output(lookupLines, flowLines) == Success(ReportText(c.tags, c.pairs));
    CountedTagsPlain(lookupLines, keys);
    CountedProtocolsPlain(flowLines);
    assert forall i :: 0 <= i < |c.tags.order| ==> '\n' !in c.tags.order[i] && ',' !in c.tags.order[i];
    assert forall i :: 0 <= i < |c.pairs.order| ==> '\n' !in c.pairs.order[i].protocol && ',' !in c.pairs.order[i].protocol;
    ReportLines(c.tags, c.pairs);
    TagRowsFields(c.tags);
    PairRowsFields(c.pairs);
  }
}
