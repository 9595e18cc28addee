/**
  The lookup-table loader: lines of `dstport,protocol,tag` become a map keyed by
  (port, lower-case protocol). Malformed lines are skipped without error, and a later
  line for the same key replaces the earlier tag.
*/
module Lookup {
  import opened Wrappers
  import opened Text
  import opened Seqs

  /** A (destination port, protocol text) pair: the key of the lookup table and of
      the port/protocol tally. */
  datatype PortProtocol = PortProtocol(port: int, protocol: string)

  /** What one lookup line contributes: nothing when, after stripping, it is empty,
      starts with '#', has fewer than three comma-separated fields, or its first field
      is not an integer; otherwise the key (port, stripped lower-cased protocol) with
      the stripped third field as its tag. Fields after the third are ignored. */
  function LookupEntry(line: string): Option<(PortProtocol, string)> {
    var t := Trim(line);
    if t == [] || t[0] == '#' then None
    else
      var parts := SplitOn(t, ',');
      if |parts| < 3 then None
      else
        match ParseInt(Trim(parts[0]))
        case None => None
        case Some(port) => Some((PortProtocol(port, ToLower(Trim(parts[1]))), Trim(parts[2])))
  }

  /** A stored protocol has no upper-case letter; a stored tag holds no comma and has
      no surrounding whitespace. */
  lemma LookupEntryPlain(line: string)
    requires LookupEntry(line).Some?
    ensures forall i :: 0 <= i < |LookupEntry(line).value.0.protocol| ==> !IsUpper(LookupEntry(line).value.0.protocol[i])
    ensures ',' !in LookupEntry(line).value.1 && Stripped(LookupEntry(line).value.1)
  {
    var parts := SplitOn(Trim(line), ',');
    ToLowerLeavesNoUpper(Trim(parts[1]));
  }

  /** A blank row is skipped, and so is a comment row: one whose first character
      after leading whitespace is '#', whatever follows it. */
  lemma CommentRowSkipped(sp: string, rest: string)
    requires AllSpace(sp)
    ensures LookupEntry(sp) == None
    ensures LookupEntry(sp + "#" + rest) == None
  {
    assert sp + "#" + rest == sp + ("#" + rest);
    TrimAfterSpace(sp, "#" + rest);
  }

  /** What a row contributes, read off its comma-separated parts as they stand, before
      any stripping: nothing when there are fewer than three parts or the stripped first
      part is not an integer; otherwise the key (that integer, the stripped lower-cased
      second part) with the stripped third part as its tag. Stripping the whole line
      first, the '#' comment test and any parts after the third change nothing else.
      Every line is the join of its own split, so this covers every row. */
  lemma LookupEntryOfParts(parts: seq<string>)
    requires |parts| >= 1 && forall i :: 0 <= i < |parts| ==> ',' !in parts[i]
    ensures LookupEntry(Join(parts, ',')) ==
      if |parts| < 3 then None
      else match ParseInt(Trim(parts[0]))
        case None => None
        case Some(port) => Some((PortProtocol(port, ToLower(Trim(parts[1]))), Trim(parts[2])))
  {
    var line := Join(parts, ',');
    if |parts| == 1 {
      TrimKeepsOut(line, ',');
      SplitOnWithoutSep(Trim(line), ',');
    } else {
      var ps := TrimEnds(parts);
      TrimJoin(parts, ',');
      TrimEndsKeepOut(parts, ',');
      SplitOnJoin(ps, ',');
      LookupEntryOfTrimmed(line, ps);
      if |parts| >= 3 {
        TrimOfTrimStart(parts[0]);
        assert ps[1] == parts[1];
        if |parts| == 3 {
          TrimOfTrimEnd(parts[2]);
        } else {
          assert ps[2] == parts[2];
        }
      }
    }
  }

  lemma LookupEntryOfTrimmed(line: string, ps: seq<string>)
    requires |ps| >= 2 && Trim(line) == Join(ps, ',') && SplitOn(Join(ps, ','), ',') == ps
    requires ps[0] == [] || !IsSpace(ps[0][0])
    ensures LookupEntry(line) ==
      if |ps| < 3 then None
      else match ParseInt(Trim(ps[0]))
        case None => None
        case Some(port) => Some((PortProtocol(port, ToLower(Trim(ps[1]))), Trim(ps[2])))
  {
    JoinFirst(ps, ',');
    if |ps| >= 3 && ps[0] != [] && ps[0][0] == '#' {
      HashNotInteger(ps[0]);
    }
  }

  lemma JoinFirst(ps: seq<string>, sep: char)
    requires |ps| >= 2
    ensures Join(ps, sep) != [] && Join(ps, sep)[0] == if ps[0] == [] then sep else ps[0][0]
  {
    assert Join(ps, sep) == ps[0] + [sep] + Join(ps[1..], sep);
  }

  /** A field that starts with '#' is not an integer once stripped. */
  lemma HashNotInteger(x: string)
    requires x != [] && x[0] == '#'
    ensures ParseInt(Trim(x)) == None
  {
    assert [] + x == x;
    TrimAfterSpace([], x);
    var t := Trim(x);
    assert t != [] && t[0] == '#' && !IsDigit(t[0]);
    assert !AllDigits(t);
    assert t[0] != '+' && t[0] != '-';
    assert ParseInt(t) == None;
  }

  /** A row of fewer than three comma-separated fields is skipped, however its fields
      are spaced. */
  lemma TwoFieldRowSkipped(a: string, b: string)
    requires ',' !in a && ',' !in b
    ensures LookupEntry(a + "," + b) == None
  {
    JoinCons(a, [b], ',');
    LookupEntryOfParts([a, b]);
  }

  /** A row whose stripped first field is not an integer is skipped, whatever follows
      the first comma. */
  lemma NonIntegerPortSkipped(p: string, rest: string)
    requires ',' !in p && ParseInt(Trim(p)) == None
    ensures LookupEntry(p + "," + rest) == None
  {
    var tail := SplitOn(rest, ',');
    JoinCons(p, tail, ',');
    assert ([p] + tail)[0] == p;
    LookupEntryOfParts([p] + tail);
  }

  /** A row whose stripped first field is an integer is read as that port, the
      stripped lower-cased second field and the stripped third field; any further
      fields (a tail starting with a comma) are ignored. */
  lemma RowAccepted(p: string, q: string, t: string, tail: string, port: int)
    requires ',' !in p && ',' !in q && ',' !in t
    requires ParseInt(Trim(p)) == Some(port)
    requires tail == [] || tail[0] == ','
    ensures LookupEntry(p + "," + q + "," + t + tail) == Some((PortProtocol(port, ToLower(Trim(q))), Trim(t)))
  {
    var parts := RowParts(p, q, t, tail);
    LookupEntryOfParts(parts);
  }

  /** The comma-separated parts of a row `p,q,t` followed by a tail that is empty or
      starts with a comma: p, q and t come first. */
  lemma RowParts(p: string, q: string, t: string, tail: string) returns (parts: seq<string>)
    requires ',' !in p && ',' !in q && ',' !in t
    requires tail == [] || tail[0] == ','
    ensures |parts| >= 3 && parts[0] == p && parts[1] == q && parts[2] == t
    ensures forall i :: 0 <= i < |parts| ==> ',' !in parts[i]
    ensures Join(parts, ',') == p + "," + q + "," + t + tail
  {
    var more := if tail == [] then [] else SplitOn(tail[1..], ',');
    var tp := [t] + more;
    var jt := t + tail;
    assert Join(tp, ',') == jt by {
      if tail != [] {
        JoinCons(t, more, ',');
        assert [','] + tail[1..] == tail;
        ConcatAssoc(t, [','], tail[1..]);
      } else {
        assert tp == [t];
      }
    }
    JoinCons(q, tp, ',');
    var qp := [q] + tp;
    JoinCons(p, qp, ',');
    parts := [p] + qp;
    var jq := q + [','] + jt;
    assert Join(qp, ',') == jq;
    assert Join(parts, ',') == p + [','] + jq;
    ConcatAssoc(p + [','], q + [','], jt);
    ConcatAssoc(p + [','] + q + [','], t, tail);
    assert Join(parts, ',') == p + "," + q + "," + t + tail;
  }

  /** A line without a line break yields a protocol and a tag without one. */
  lemma LookupEntrySingleLine(line: string)
    requires '\n' !in line && LookupEntry(line).Some?
    ensures '\n' !in LookupEntry(line).value.0.protocol && '\n' !in LookupEntry(line).value.1
  {
    var t := Trim(line);
    TrimKeepsOut(line, '\n');
    var parts := SplitOn(t, ',');
    if |parts| >= 3 {
      FieldsSingleLine(parts);
    }
  }

  lemma FieldsSingleLine(parts: seq<string>)
    requires |parts| >= 3 && '\n' !in Join(parts, ',')
    ensures '\n' !in ToLower(Trim(parts[1])) && '\n' !in Trim(parts[2])
  {
    JoinKeepsOut(parts, ',', '\n');
    TrimKeepsOut(parts[1], '\n');
    TrimKeepsOut(parts[2], '\n');
    LowerKeepsOut(Trim(parts[1]), '\n');
  }

  /** Lower-casing brings in no character other than a lower-case letter. */
  lemma LowerKeepsOut(p: string, c: char)
    requires c !in p && !IsUpper(c) && !('a' <= c <= 'z')
    ensures c !in ToLower(p)
  {
    forall i | 0 <= i < |p| ensures ToLower(p)[i] != c {
      assert ToLower(p)[i] == LowerChar(p[i]);
    }
  }

  /** The decimal text of a port holds no comma and is read back, stripped, as the port. */
  lemma PortText(port: int)
    ensures ',' !in IntToString(port) && ParseInt(Trim(IntToString(port))) == Some(port)
  {
    var p := IntToString(port);
    IntToStringPlain(port);
    ParseIntOfIntToString(port);
    assert p != [];
    TrimOfTrimmed(p);
  }

  /** A well-formed row `port,protocol,tag` is read back as exactly that entry, when
      protocol and tag hold no comma and no surrounding whitespace and the protocol is
      already lower case. */
  lemma LookupEntryOfRow(port: int, protocol: string, tag: string)
    requires ',' !in protocol && ',' !in tag
    requires Stripped(protocol) && Stripped(tag)
    requires forall i :: 0 <= i < |protocol| ==> !IsUpper(protocol[i])
    ensures LookupEntry(IntToString(port) + "," + protocol + "," + tag) == Some((PortProtocol(port, protocol), tag))
  {
    var p := IntToString(port);
    var row := p + "," + protocol + "," + tag;
    PortText(port);
    assert row + [] == row;
    RowAccepted(p, protocol, tag, [], port);
    TrimOfTrimmed(protocol);
    ToLowerOfLower(protocol);
    TrimOfTrimmed(tag);
  }

  /** A line's effect on the table: none, or one key set to one tag. */
  type Entry = Option<(PortProtocol, string)>

  /** Python's `table[key] = tag` for an entry, or no change for a skipped line. */
  function Store(table: map<PortProtocol, string>, e: Entry): map<PortProtocol, string> {
    match e
    case None => table
    case Some(entry) => table[entry.0 := entry.1]
  }

  /** The table after applying the entries in order, starting from an empty table. */
  function TableOf(entries: seq<Entry>): map<PortProtocol, string>
    decreases |entries|
  {
    if entries == [] then map[] else Store(TableOf(entries[..|entries| - 1]), entries[|entries| - 1])
  }

  /** The entry of each line, in order. */
  function Entries(lines: seq<string>): (es: seq<Entry>)
    ensures |es| == |lines|
  {
    Map(LookupEntry, lines)
  }

  /** The table after reading all the lookup lines. */
  function LookupTable(lines: seq<string>): map<PortProtocol, string> {
    TableOf(Entries(lines))
  }

  /** Reading the lookup lines one by one, as the loader's loop does. */
  method LoadLookup(lines: seq<string>) returns (table: map<PortProtocol, string>)
    ensures table == LookupTable(lines)
  {
    ghost var es := Entries(lines);
    table := map[];
    for i := 0 to |lines|
      invariant table == TableOf(es[..i])
    {
      var entry := LookupEntry(lines[i]);
      TableOfPrefixSnoc(lines, i);
      match entry
      case None =>
      case Some(kt) =>
        table := table[kt.0 := kt.1];
    }
    assert es[..|lines|] == es;
  }

  /** One more line applies its entry to the table of the lines before it. */
  lemma TableOfPrefixSnoc(lines: seq<string>, i: nat)
    requires i < |lines|
    ensures TableOf(Entries(lines)[..i + 1]) == Store(TableOf(Entries(lines)[..i]), LookupEntry(lines[i]))
  {
    var es := Entries(lines);
    assert es[..i + 1][..i] == es[..i];
    MapAt(LookupEntry, lines, i);
  }

  /** A single line sets at most its own entry. */
  lemma LookupTableOfOne(line: string)
    ensures LookupTable([line]) == Store(map[], LookupEntry(line))
  {
    var es := Entries([line]);
    assert [line][..0] == [];
    assert es == [LookupEntry(line)];
    assert es[..0] == [];
    assert TableOf(es[..0]) == map[];
  }

  /** The table is empty exactly when every entry is a skip. */
  lemma {:induction false} TableOfEmpty(es: seq<Entry>)
    ensures TableOf(es) == map[] <==> forall i :: 0 <= i < |es| ==> es[i].None?
    decreases |es|
  {
    if es != [] {
      var init := es[..|es| - 1];
      TableOfEmpty(init);
      assert forall i :: 0 <= i < |init| ==> init[i] == es[i];
      match es[|es| - 1]
      case None =>
      case Some((key, tag)) =>
        assert key in TableOf(es);
    }
  }

  /** Last write wins: a key's tag is the one on the last entry that sets it. */
  lemma {:induction false} TableOfLastWins(es: seq<Entry>, i: nat, key: PortProtocol, tag: string)
    requires i < |es| && es[i] == Some((key, tag))
    requires LastFor(es, i, key)
    ensures key in TableOf(es) && TableOf(es)[key] == tag
    decreases |es|
  {
    var init := es[..|es| - 1];
    if i < |es| - 1 {
      assert LastFor(init, i, key) by {
        forall j | i < j < |init| ensures init[j].None? || init[j].value.0 != key { assert init[j] == es[j]; }
      }
      TableOfLastWins(init, i, key, tag);
    }
  }

  /** A key no entry sets is absent from the table. */
  lemma {:induction false} TableOfAbsent(es: seq<Entry>, key: PortProtocol)
    requires forall j :: 0 <= j < |es| ==> es[j].None? || es[j].value.0 != key
    ensures key !in TableOf(es)
    decreases |es|
  {
    if es != [] {
      var init := es[..|es| - 1];
      assert forall j :: 0 <= j < |init| ==> init[j] == es[j];
      TableOfAbsent(init, key);
    }
  }

  /** Every entry of the table comes from the last input entry that sets its key. */
  lemma {:induction false} TableOfFromEntries(es: seq<Entry>, key: PortProtocol)
    requires key in TableOf(es)
    ensures exists i :: 0 <= i < |es| && es[i] == Some((key, TableOf(es)[key])) && LastFor(es, i, key)
    decreases |es|
  {
    var init := es[..|es| - 1];
    var last := |es| - 1;
    if es[last].Some? && es[last].value.0 == key {
      assert es[last] == Some((key, TableOf(es)[key])) && LastFor(es, last, key);
    } else {
      TableOfFromEntries(init, key);
      var i :| 0 <= i < |init| && init[i] == Some((key, TableOf(init)[key])) && LastFor(init, i, key);
      assert init[i] == es[i];
      assert LastFor(es, i, key) by {
        forall j | i < j < |es| ensures es[j].None? || es[j].value.0 != key {
          if j < last { assert es[j] == init[j]; }
        }
      }
    }
  }

  /** No entry after the i-th sets the key. */
  predicate LastFor(es: seq<Entry>, i: nat, key: PortProtocol) {
    forall j :: i < j < |es| ==> es[j].None? || es[j].value.0 != key
  }

  /** The lookup table is empty exactly when every lookup line is skipped. */
  lemma LookupTableEmpty(lines: seq<string>)
    ensures LookupTable(lines) == map[] <==> forall i :: 0 <= i < |lines| ==> LookupEntry(lines[i]).None?
  {
    var es := Entries(lines);
    TableOfEmpty(es);
    forall i | 0 <= i < |lines| ensures es[i].None? <==> LookupEntry(lines[i]).None? {
      MapAt(LookupEntry, lines, i);
    }
  }

  /** Lookup lines without line breaks give tags without line breaks. */
  lemma TableTagsSingleLine(lines: seq<string>, key: PortProtocol)
    requires forall i :: 0 <= i < |lines| ==> '\n' !in lines[i]
    requires key in LookupTable(lines)
    ensures '\n' !in LookupTable(lines)[key]
  {
    var es := Entries(lines);
    TableOfFromEntries(es, key);
    var i :| 0 <= i < |es| && es[i] == Some((key, TableOf(es)[key]));
    MapAt(LookupEntry, lines, i);
    LookupEntrySingleLine(lines[i]);
  }

  /** No tag in the lookup table holds a comma, and none has surrounding whitespace. */
  lemma TableTagsPlain(lines: seq<string>, key: PortProtocol)
    requires key in LookupTable(lines)
    ensures ',' !in LookupTable(lines)[key] && Stripped(LookupTable(lines)[key])
  {
    var es := Entries(lines);
    TableOfFromEntries(es, key);
    var i :| 0 <= i < |es| && es[i] == Some((key, TableOf(es)[key]));
    MapAt(LookupEntry, lines, i);
    LookupEntryPlain(lines[i]);
  }
}
