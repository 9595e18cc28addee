/**
  The report: a tag section and a port/protocol section, one comma-separated row
  per counter entry in first-seen order, every row ended by a line break.
*/
module Report {
  import opened Wrappers
  import opened Text
  import opened Lookup
  import opened Tallies

  const TagHeader: seq<string> := ["Tag Counts:", "Tag,Count"]
  /** The empty row between the sections, then the second section's headings. */
  const PairHeader: seq<string> := ["", "Port/Protocol Combination Counts:", "Port,Protocol,Count"]

  function TagRow(tag: string, count: nat): string {
    tag + "," + NatToString(count)
  }

  function PairRow(key: PortProtocol, count: nat): string {
    IntToString(key.port) + "," + key.protocol + "," + NatToString(count)
  }

  function TagRows(t: Tally<string>): (rows: seq<string>)
    ensures |rows| == |t.order|
  {
    seq(|t.order|, i requires 0 <= i < |t.order| => TagRow(t.order[i], Count(t, t.order[i])))
  }

  function PairRows(t: Tally<PortProtocol>): (rows: seq<string>)
    ensures |rows| == |t.order|
  {
    seq(|t.order|, i requires 0 <= i < |t.order| => PairRow(t.order[i], Count(t, t.order[i])))
  }

  /** All rows of the report, in the order they are written. */
  function ReportRows(tags: Tally<string>, pairs: Tally<PortProtocol>): seq<string> {
    TagHeader + TagRows(tags) + PairHeader + PairRows(pairs)
  }

  /** Rows written one after another, each followed by a line break. */
  function Lines(rows: seq<string>): string
    decreases |rows|
  {
    if rows == [] then "" else rows[0] + "\n" + Lines(rows[1..])
  }

  function ReportText(tags: Tally<string>, pairs: Tally<PortProtocol>): string {
    Lines(ReportRows(tags, pairs))
  }

  lemma {:induction false} LinesSnoc(rows: seq<string>, r: string)
    ensures Lines(rows + [r]) == Lines(rows) + r + "\n"
    decreases |rows|
  {
    if rows == [] {
      assert ([] + [r])[1..] == [];
    } else {
      assert (rows + [r])[1..] == rows[1..] + [r];
      LinesSnoc(rows[1..], r);
    }
  }

  /** Writing one row more appends that row and its line break. */
  lemma LinesPrefixSnoc(rows: seq<string>, i: nat)
    requires i < |rows|
    ensures Lines(rows[..i + 1]) == Lines(rows[..i]) + rows[i] + "\n"
  {
    assert rows[..i + 1] == rows[..i] + [rows[i]];
    LinesSnoc(rows[..i], rows[i]);
  }

  /** Writing the rows is joining them, and a final empty piece, with line breaks. */
  lemma {:induction false} LinesAsJoin(rows: seq<string>)
    ensures Lines(rows) == Join(rows + [""], '\n')
    decreases |rows|
  {
    if rows != [] {
      assert (rows + [""])[1..] == rows[1..] + [""];
      LinesAsJoin(rows[1..]);
    }
  }

  /** Splitting written rows at line breaks gives the rows back, then the empty text
      after the last line break, provided no row holds a line break. */
  lemma LinesSplit(rows: seq<string>)
    requires SingleLines(rows)
    ensures SplitOn(Lines(rows), '\n') == rows + [""]
  {
    LinesAsJoin(rows);
    var parts := rows + [""];
    forall i | 0 <= i < |parts| ensures '\n' !in parts[i] {
      if i < |rows| { assert parts[i] == rows[i]; }
    }
    SplitOnJoin(parts, '\n');
  }

  /** A tag row splits at commas into the tag and the decimal count, and the count
      reads back, when the tag holds no comma. */
  lemma TagRowFields(tag: string, count: nat)
    requires ',' !in tag
    ensures SplitOn(TagRow(tag, count), ',') == [tag, NatToString(count)]
    ensures ParseInt(NatToString(count)) == Some(count as int)
  {
    var c := NatToString(count);
    IntToStringPlain(count);
    assert Join([tag, c], ',') == TagRow(tag, count);
    SplitOnJoin([tag, c], ',');
    ParseIntOfIntToString(count);
  }

  /** A port/protocol row splits at commas into port, protocol and count, and the
      numbers read back, when the protocol holds no comma. */
  lemma PairRowFields(key: PortProtocol, count: nat)
    requires ',' !in key.protocol
    ensures SplitOn(PairRow(key, count), ',') == [IntToString(key.port), key.protocol, NatToString(count)]
    ensures ParseInt(IntToString(key.port)) == Some(key.port)
    ensures ParseInt(NatToString(count)) == Some(count as int)
  {
    var p := IntToString(key.port);
    var c := NatToString(count);
    IntToStringPlain(key.port);
    IntToStringPlain(count);
    assert [p, key.protocol, c][1..] == [key.protocol, c];
    assert [key.protocol, c][1..] == [c];
    assert Join([key.protocol, c], ',') == key.protocol + "," + c;
    assert p + "," + (key.protocol + "," + c) == PairRow(key, count);
    assert Join([p, key.protocol, c], ',') == PairRow(key, count);
    SplitOnJoin([p, key.protocol, c], ',');
    ParseIntOfIntToString(key.port);
    ParseIntOfIntToString(count);
  }

  /** No row holds a line break. */
  predicate SingleLines(rows: seq<string>) {
    forall i :: 0 <= i < |rows| ==> '\n' !in rows[i]
  }

  lemma SingleLinesAppend(a: seq<string>, b: seq<string>)
    requires SingleLines(a) && SingleLines(b)
    ensures SingleLines(a + b)
  {
    forall i | 0 <= i < |a + b| ensures '\n' !in (a + b)[i] {
      if i >= |a| { assert (a + b)[i] == b[i - |a|]; }
    }
  }

  lemma TagRowsSingleLine(tags: Tally<string>)
    requires forall i :: 0 <= i < |tags.order| ==> '\n' !in tags.order[i]
    ensures SingleLines(TagRows(tags))
  {
    forall i | 0 <= i < |tags.order| ensures '\n' !in TagRows(tags)[i] {
      IntToStringPlain(Count(tags, tags.order[i]));
    }
  }

  lemma PairRowsSingleLine(pairs: Tally<PortProtocol>)
    requires forall i :: 0 <= i < |pairs.order| ==> '\n' !in pairs.order[i].protocol
    ensures SingleLines(PairRows(pairs))
  {
    forall i | 0 <= i < |pairs.order| ensures '\n' !in PairRows(pairs)[i] {
      IntToStringPlain(pairs.order[i].port);
      IntToStringPlain(Count(pairs, pairs.order[i]));
    }
  }

  lemma HeadersSingleLine()
    ensures SingleLines(TagHeader) && SingleLines(PairHeader)
  {
  }

  /** No report row holds a line break when no tag and no protocol does. */
  lemma ReportRowsSingleLine(tags: Tally<string>, pairs: Tally<PortProtocol>)
    requires forall i :: 0 <= i < |tags.order| ==> '\n' !in tags.order[i]
    requires forall i :: 0 <= i < |pairs.order| ==> '\n' !in pairs.order[i].protocol
    ensures SingleLines(ReportRows(tags, pairs))
  {
    HeadersSingleLine();
    TagRowsSingleLine(tags);
    PairRowsSingleLine(pairs);
    SingleLinesAppend(TagHeader, TagRows(tags));
    SingleLinesAppend(TagHeader + TagRows(tags), PairHeader);
    SingleLinesAppend(TagHeader + TagRows(tags) + PairHeader, PairRows(pairs));
  }

  /** The lines of the report are its rows in order: the two tag headings, one row per
      tag in first-seen order, an empty line, the two port/protocol headings, one row
      per pair in first-seen order, and nothing after the last line break. */
  lemma ReportLines(tags: Tally<string>, pairs: Tally<PortProtocol>)
    requires forall i :: 0 <= i < |tags.order| ==> '\n' !in tags.order[i]
    requires forall i :: 0 <= i < |pairs.order| ==> '\n' !in pairs.order[i].protocol
    ensures SplitOn(ReportText(tags, pairs), '\n') == TagHeader + TagRows(tags) + PairHeader + PairRows(pairs) + [""]
  {
    ReportRowsSingleLine(tags, pairs);
    LinesSplit(ReportRows(tags, pairs));
  }

  /** Each tag row reads back as its tag and that tag's count. */
  lemma TagRowsFields(tags: Tally<string>)
    requires forall i :: 0 <= i < |tags.order| ==> ',' !in tags.order[i]
    ensures forall i :: 0 <= i < |tags.order| ==>
      SplitOn(TagRows(tags)[i], ',') == [tags.order[i], NatToString(Count(tags, tags.order[i]))]
  {
    forall i | 0 <= i < |tags.order|
      ensures SplitOn(TagRows(tags)[i], ',') == [tags.order[i], NatToString(Count(tags, tags.order[i]))]
    {
      TagRowFields(tags.order[i], Count(tags, tags.order[i]));
    }
  }

  /** Each port/protocol row reads back as its port, its protocol and that pair's count. */
  lemma PairRowsFields(pairs: Tally<PortProtocol>)
    requires forall i :: 0 <= i < |pairs.order| ==> ',' !in pairs.order[i].protocol
    ensures forall i :: 0 <= i < |pairs.order| ==>
      SplitOn(PairRows(pairs)[i], ',') ==
        [IntToString(pairs.order[i].port), pairs.order[i].protocol, NatToString(Count(pairs, pairs.order[i]))]
  {
    forall i | 0 <= i < |pairs.order|
      ensures SplitOn(PairRows(pairs)[i], ',') ==
        [IntToString(pairs.order[i].port), pairs.order[i].protocol, NatToString(Count(pairs, pairs.order[i]))]
    {
      PairRowFields(pairs.order[i], Count(pairs, pairs.order[i]));
    }
  }

  lemma {:induction false} LinesAppend(a: seq<string>, b: seq<string>)
    ensures Lines(a + b) == Lines(a) + Lines(b)
    decreases |a|
  {
    if a == [] {
      assert a + b == b;
    } else {
      assert (a + b)[1..] == a[1..] + b;
      LinesAppend(a[1..], b);
    }
  }

  /** The tag section's rows: `tag,count` for every tag in first-seen order. */
  method WriteTagRows(tags: Counter<string>) returns (out: string)
    requires tags.Valid()
    ensures out == Lines(TagRows(tags.Snapshot()))
  {
    var t := tags.Snapshot();
    out := "";
    for i := 0 to |t.order|
      invariant out == Lines(TagRows(t)[..i])
    {
      var tag := t.order[i];
      var row := TagRow(tag, t.counts[tag]);
      LinesPrefixSnoc(TagRows(t), i);
      assert row == TagRows(t)[i];
      out := out + row + "\n";
    }
    assert TagRows(t)[..|t.order|] == TagRows(t);
  }

  /** The port/protocol section's rows: `port,protocol,count` for every pair in
      first-seen order. */
  method WritePairRows(pairs: Counter<PortProtocol>) returns (out: string)
    requires pairs.Valid()
    ensures out == Lines(PairRows(pairs.Snapshot()))
  {
    var p := pairs.Snapshot();
    out := "";
    for i := 0 to |p.order|
      invariant out == Lines(PairRows(p)[..i])
    {
      var key := p.order[i];
      var row := PairRow(key, p.counts[key]);
      LinesPrefixSnoc(PairRows(p), i);
      assert row == PairRows(p)[i];
      out := out + row + "\n";
    }
    assert PairRows(p)[..|p.order|] == PairRows(p);
  }

  lemma TagHeaderText()
    ensures Lines(TagHeader) == "Tag Counts:\n" + "Tag,Count\n"
  {
    assert TagHeader[1..][1..] == [];
  }

  lemma PairHeaderText()
    ensures Lines(PairHeader) == "\n" + "Port/Protocol Combination Counts:\n" + "Port,Protocol,Count\n"
  {
    assert PairHeader[1..][1..][1..] == [];
  }

  /** The report is the tag headings, the tag rows, the empty line with the
      port/protocol headings, and the port/protocol rows, one after another. */
  lemma ReportTextSections(tags: Tally<string>, pairs: Tally<PortProtocol>)
    ensures ReportText(tags, pairs) ==
      Lines(TagHeader) + Lines(TagRows(tags)) + Lines(PairHeader) + Lines(PairRows(pairs))
  {
    var a, b, c, d := TagHeader, TagRows(tags), PairHeader, PairRows(pairs);
    LinesAppend(a + b + c, d);
    LinesAppend(a + b, c);
    LinesAppend(a, b);
  }

  /** Writes the two sections from the two counters. */
  method WriteReport(tags: Counter<string>, pairs: Counter<PortProtocol>) returns (out: string)
    requires tags.Valid() && pairs.Valid()
    ensures out == ReportText(tags.Snapshot(), pairs.Snapshot())
  {
    var head := "Tag Counts:\n" + "Tag,Count\n";
    var tagRows := WriteTagRows(tags);
    var middle := "\n" + "Port/Protocol Combination Counts:\n" + "Port,Protocol,Count\n";
    var pairRows := WritePairRows(pairs);
    out := head + tagRows + middle + pairRows;
    TagHeaderText();
    PairHeaderText();
    ReportTextSections(tags.Snapshot(), pairs.Snapshot());
  }
}
