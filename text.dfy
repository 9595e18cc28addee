/**
  The string primitives the parser relies on: Python's str.strip(), str.split(),
  str.split(","), str.lower(), int() and str() on integers, restricted to ASCII.
*/
module Text {
  import opened Wrappers

  /** The ASCII characters Python treats as whitespace: tab, line feed, vertical tab,
      form feed, carriage return, the separators 0x1C-0x1F, and space. */
  predicate IsSpace(c: char) {
    c == ' ' || 9 <= c as int <= 13 || 28 <= c as int <= 31
  }

  predicate AllSpace(s: string) {
    forall i :: 0 <= i < |s| ==> IsSpace(s[i])
  }

  predicate NoSpace(s: string) {
    forall i :: 0 <= i < |s| ==> !IsSpace(s[i])
  }

  /** Drops leading whitespace: the result is the suffix of s after its whitespace prefix. */
  function TrimStart(s: string): (r: string)
    ensures |r| <= |s| && r == s[|s| - |r|..]
    ensures AllSpace(s[..|s| - |r|])
    ensures r == [] || !IsSpace(r[0])
    decreases |s|
  {
    if s != [] && IsSpace(s[0]) then
      var r := TrimStart(s[1..]);
      assert s[..|s| - |r|] == [s[0]] + s[1..][..|s| - 1 - |r|];
      r
    else s
  }

  /** Drops trailing whitespace: the result is the prefix of s before its whitespace suffix. */
  function TrimEnd(s: string): (r: string)
    ensures |r| <= |s| && r == s[..|r|]
    ensures AllSpace(s[|r|..])
    ensures r == [] || !IsSpace(r[|r| - 1])
    decreases |s|
  {
    if s != [] && IsSpace(s[|s| - 1]) then
      var r := TrimEnd(s[..|s| - 1]);
      assert s[|r|..] == s[..|s| - 1][|r|..] + [s[|s| - 1]];
      r
    else s
  }

  /** Neither starts nor ends with whitespace. */
  predicate Stripped(s: string) {
    s == [] || (!IsSpace(s[0]) && !IsSpace(s[|s| - 1]))
  }

  lemma TrimStartEmpty(s: string)
    ensures TrimStart(s) == [] <==> AllSpace(s)
  {
    var t := TrimStart(s);
    if t == [] {
      assert s[..|s| - |t|] == s;
    }
  }

  lemma TrimEndEmpty(s: string)
    ensures TrimEnd(s) == [] <==> AllSpace(s)
  {
    var t := TrimEnd(s);
    if t == [] {
      assert s[|t|..] == s;
    }
  }

  /** Python's str.strip(): empty exactly when s is all whitespace, and otherwise
      neither starting nor ending with whitespace. */
  function Trim(s: string): (r: string)
    ensures r == [] <==> AllSpace(s)
    ensures Stripped(r)
    ensures exists i, j :: 0 <= i <= j <= |s| && r == s[i..j] && AllSpace(s[..i]) && AllSpace(s[j..])
  {
    TrimShape(s);
    var t := TrimStart(s);
    var r := TrimEnd(t);
    SuffixPrefixSlice(s, t, r);
    r
  }

  lemma TrimShape(s: string)
    ensures var r := TrimEnd(TrimStart(s));
      (r == [] <==> AllSpace(s)) && Stripped(r)
  {
    var t := TrimStart(s);
    TrimStartEmpty(s);
    TrimEndEmpty(t);
    var r := TrimEnd(t);
    assert r != [] ==> r[0] == t[0];
  }

  /** A whitespace-bounded suffix's whitespace-bounded prefix is a slice of s with only
      whitespace outside it. */
  lemma SuffixPrefixSlice(s: string, t: string, r: string)
    requires |t| <= |s| && t == s[|s| - |t|..] && AllSpace(s[..|s| - |t|])
    requires |r| <= |t| && r == t[..|r|] && AllSpace(t[|r|..])
    ensures var i := |s| - |t|;
      && 0 <= i <= i + |r| <= |s| && r == s[i..i + |r|]
      && AllSpace(s[..i]) && AllSpace(s[i + |r|..])
  {
    var i := |s| - |t|;
    assert t[|r|..] == s[i + |r|..];
  }

  /** Leading whitespace does not change where stripping starts. */
  lemma {:induction false} TrimStartAfterSpace(a: string, w: string)
    requires AllSpace(a)
    ensures TrimStart(a + w) == TrimStart(w)
    decreases |a|
  {
    if a == [] {
      assert a + w == w;
    } else {
      assert (a + w)[1..] == a[1..] + w;
      assert AllSpace(a[1..]) by {
        forall i | 0 <= i < |a[1..]| ensures IsSpace(a[1..][i]) { assert a[1..][i] == a[i + 1]; }
      }
      TrimStartAfterSpace(a[1..], w);
    }
  }

  /** Trailing whitespace does not change where stripping ends. */
  lemma {:induction false} TrimEndBeforeSpace(w: string, b: string)
    requires AllSpace(b)
    ensures TrimEnd(w + b) == TrimEnd(w)
    decreases |b|
  {
    if b == [] {
      assert w + b == w;
    } else {
      var b' := b[..|b| - 1];
      assert (w + b)[..|w + b| - 1] == w + b';
      assert AllSpace(b') by {
        forall i | 0 <= i < |b'| ensures IsSpace(b'[i]) { assert b'[i] == b[i]; }
      }
      TrimEndBeforeSpace(w, b');
    }
  }

  /** When stripping from the start stops inside u, or at b's first character,
      what follows u is kept. */
  lemma {:induction false} TrimStartConcat(u: string, b: string)
    requires !AllSpace(u) || (b != [] && !IsSpace(b[0]))
    ensures TrimStart(u + b) == TrimStart(u) + b
    decreases |u|
  {
    if u == [] {
      assert u + b == b;
    } else if IsSpace(u[0]) {
      assert (u + b)[1..] == u[1..] + b;
      assert !AllSpace(u) ==> !AllSpace(u[1..]) by {
        if AllSpace(u[1..]) {
          forall i | 0 <= i < |u| ensures IsSpace(u[i]) { if i > 0 { assert u[i] == u[1..][i - 1]; } }
        }
      }
      TrimStartConcat(u[1..], b);
    }
  }

  /** When stripping from the end stops inside b, or at a's last character, what
      precedes b is kept. */
  lemma {:induction false} TrimEndConcat(a: string, b: string)
    requires !AllSpace(b) || (a != [] && !IsSpace(a[|a| - 1]))
    ensures TrimEnd(a + b) == a + TrimEnd(b)
    decreases |b|
  {
    if b == [] {
      assert a + b == a;
    } else if IsSpace(b[|b| - 1]) {
      var b' := b[..|b| - 1];
      assert (a + b)[..|a + b| - 1] == a + b';
      assert !AllSpace(b) ==> !AllSpace(b') by {
        if AllSpace(b') {
          forall i | 0 <= i < |b| ensures IsSpace(b[i]) { if i < |b'| { assert b[i] == b'[i]; } }
        }
      }
      TrimEndConcat(a, b');
    } else {
      assert (a + b)[|a + b| - 1] == b[|b| - 1];
    }
  }

  /** Whitespace around a string does not change its strip(). */
  lemma TrimOfSpaces(a: string, u: string, b: string)
    requires AllSpace(a) && AllSpace(b)
    ensures Trim(a + u + b) == Trim(u)
  {
    assert a + u + b == a + (u + b);
    TrimStartAfterSpace(a, u + b);
    if AllSpace(u) {
      assert AllSpace(a + u + b) by {
        forall i | 0 <= i < |a + u + b| ensures IsSpace((a + u + b)[i]) {
          if i < |a| { assert (a + u + b)[i] == a[i]; }
          else if i < |a| + |u| { assert (a + u + b)[i] == u[i - |a|]; }
          else { assert (a + u + b)[i] == b[i - |a| - |u|]; }
        }
      }
    } else {
      TrimStartConcat(u, b);
      TrimEndBeforeSpace(TrimStart(u), b);
    }
  }

  /** Stripping only the start first does not change strip(). */
  lemma TrimOfTrimStart(x: string)
    ensures Trim(TrimStart(x)) == Trim(x)
  {
    var t := TrimStart(x);
    var a := x[..|x| - |t|];
    assert x == a + t + [];
    assert AllSpace([]) && AllSpace(a);
    TrimOfSpaces(a, t, []);
  }

  /** Stripping only the end first does not change strip(). */
  lemma TrimOfTrimEnd(x: string)
    ensures Trim(TrimEnd(x)) == Trim(x)
  {
    var t := TrimEnd(x);
    var b := x[|t|..];
    assert x == [] + t + b;
    assert AllSpace([]) && AllSpace(b);
    TrimOfSpaces([], t, b);
  }

  /** Stripping a line that starts, after whitespace, with a non-space character
      keeps that character first. */
  lemma TrimAfterSpace(sp: string, s: string)
    requires AllSpace(sp) && s != [] && !IsSpace(s[0])
    ensures Trim(sp + s) != [] && Trim(sp + s)[0] == s[0]
  {
    TrimStartAfterSpace(sp, s);
    assert TrimStart(s) == s;
    TrimEndEmpty(s);
  }

  /** Stripping adds no character. */
  lemma TrimKeepsOut(s: string, c: char)
    requires c !in s
    ensures c !in Trim(s)
  {
    var t := TrimStart(s);
    SliceKeepsOut(s, |s| - |t|, |s|, c);
    assert t == s[|s| - |t|..|s|];
    var r := TrimEnd(t);
    SliceKeepsOut(t, 0, |r|, c);
  }

  lemma SliceKeepsOut(s: string, i: nat, j: nat, c: char)
    requires i <= j <= |s| && c !in s
    ensures c !in s[i..j]
  {
    forall k | 0 <= k < j - i ensures s[i..j][k] != c {
      assert s[i..j][k] == s[i + k];
    }
  }

  /** A string that neither starts nor ends with whitespace is its own trim. */
  lemma TrimOfTrimmed(s: string)
    requires Stripped(s)
    ensures Trim(s) == s
  {
  }

  /** Joins parts with sep between consecutive parts (Python's sep.join(parts)). */
  function Join(parts: seq<string>, sep: char): string
    requires |parts| >= 1
    decreases |parts|
  {
    if |parts| == 1 then parts[0] else parts[0] + [sep] + Join(parts[1..], sep)
  }

  /** Every part of a join is part of the joined text. */
  lemma {:induction false} JoinKeepsOut(parts: seq<string>, sep: char, c: char)
    requires |parts| >= 1 && c !in Join(parts, sep)
    ensures forall i :: 0 <= i < |parts| ==> c !in parts[i]
    decreases |parts|
  {
    if |parts| > 1 {
      var rest := Join(parts[1..], sep);
      assert forall i :: 0 <= i < |rest| ==> rest[i] == Join(parts, sep)[|parts[0]| + 1 + i];
      JoinKeepsOut(parts[1..], sep, c);
      forall i | 1 <= i < |parts| ensures c !in parts[i] { assert parts[i] == parts[1..][i - 1]; }
    }
  }

  /** Python's s.split(sep) for a one-character separator: at least one part, no part
      contains sep, and joining the parts with sep gives s back. */
  function SplitOn(s: string, sep: char): (parts: seq<string>)
    ensures |parts| >= 1
    ensures forall i :: 0 <= i < |parts| ==> sep !in parts[i]
    ensures Join(parts, sep) == s
    decreases |s|
  {
    if s == [] then [[]]
    else
      var rest := SplitOn(s[1..], sep);
      if s[0] == sep then
        assert ([[]] + rest)[1..] == rest;
        [[]] + rest
      else
        var parts := [[s[0]] + rest[0]] + rest[1..];
        assert |rest| > 1 ==> parts[1..] == rest[1..];
        parts
  }

  lemma {:induction false} SplitOnWithoutSep(w: string, sep: char)
    requires sep !in w
    ensures SplitOn(w, sep) == [w]
    decreases |w|
  {
    if w != [] {
      SplitOnWithoutSep(w[1..], sep);
      assert [w[0]] + w[1..] == w;
    }
  }

  lemma {:induction false} SplitOnAfterPart(w: string, t: string, sep: char)
    requires sep !in w
    ensures SplitOn(w + [sep] + t, sep) == [w] + SplitOn(t, sep)
    decreases |w|
  {
    var s := w + [sep] + t;
    if w == [] {
      assert s[1..] == t;
    } else {
      assert s[1..] == w[1..] + [sep] + t;
      SplitOnAfterPart(w[1..], t, sep);
      assert [w[0]] + w[1..] == w;
    }
  }

  lemma JoinCons(p: string, rest: seq<string>, sep: char)
    requires |rest| >= 1
    ensures Join([p] + rest, sep) == p + [sep] + Join(rest, sep)
  {
    assert ([p] + rest)[1..] == rest;
  }

  /** A joined line with its first part stripped at the start and its last part
      stripped at the end. */
  function TrimEnds(parts: seq<string>): (r: seq<string>)
    requires |parts| >= 2
    ensures |r| == |parts|
  {
    parts[0 := TrimStart(parts[0])][|parts| - 1 := TrimEnd(parts[|parts| - 1])]
  }

  /** Stripping only the ends of the parts keeps them free of a character. */
  lemma TrimEndsKeepOut(parts: seq<string>, c: char)
    requires |parts| >= 2 && forall i :: 0 <= i < |parts| ==> c !in parts[i]
    ensures forall i :: 0 <= i < |parts| ==> c !in TrimEnds(parts)[i]
  {
    var last := |parts| - 1;
    var p0 := parts[0];
    var pl := parts[last];
    var a := TrimStart(p0);
    var b := TrimEnd(pl);
    SliceKeepsOut(p0, |p0| - |a|, |p0|, c);
    assert a == p0[|p0| - |a|..|p0|];
    SliceKeepsOut(pl, 0, |b|, c);
    var ps := TrimEnds(parts);
    assert ps == parts[0 := a][last := b];
    forall i | 0 <= i < |parts| ensures c !in ps[i] {
      if i == last {
        assert ps[i] == b;
      } else if i == 0 {
        assert ps[i] == a;
      } else {
        assert ps[i] == parts[i];
      }
    }
  }

  /** Stripping the end of a joined line strips the end of its last part only. */
  lemma {:induction false} JoinTrimEnd(qs: seq<string>, sep: char)
    requires |qs| >= 1 && !IsSpace(sep)
    ensures TrimEnd(Join(qs, sep)) == Join(qs[|qs| - 1 := TrimEnd(qs[|qs| - 1])], sep)
    decreases |qs|
  {
    var k := |qs| - 1;
    var qs' := qs[k := TrimEnd(qs[k])];
    if |qs| > 1 {
      var j := Join(qs[1..], sep);
      assert Join(qs, sep) == (qs[0] + [sep]) + j;
      TrimEndConcat(qs[0] + [sep], j);
      JoinTrimEnd(qs[1..], sep);
      assert qs'[1..] == qs[1..][k - 1 := TrimEnd(qs[1..][k - 1])];
      assert qs'[0] == qs[0];
    }
  }

  lemma ConcatAssoc(a: string, b: string, c: string)
    ensures a + b + c == a + (b + c)
  {
  }

  /** Python's line.strip() on a line of at least two parts joined by a non-space
      separator strips only the start of the first part and the end of the last. */
  lemma TrimJoin(parts: seq<string>, sep: char)
    requires |parts| >= 2 && !IsSpace(sep)
    ensures Trim(Join(parts, sep)) == Join(TrimEnds(parts), sep)
  {
    var a := TrimStart(parts[0]) + [sep];
    var tail := parts[1..];
    var rest := Join(tail, sep);
    var tail' := tail[|tail| - 1 := TrimEnd(tail[|tail| - 1])];
    assert a[|a| - 1] == sep;
    calc {
      Trim(Join(parts, sep));
      { TrimUnfold(Join(parts, sep)); }
      TrimEnd(TrimStart(Join(parts, sep)));
      { TrimStartJoin(parts, sep); }
      TrimEnd(a + rest);
      { TrimEndConcat(a, rest); }
      a + TrimEnd(rest);
      { JoinTrimEnd(tail, sep); }
      a + Join(tail', sep);
      { JoinOfTrimEnds(parts, sep); }
      Join(TrimEnds(parts), sep);
    }
  }

  lemma TrimUnfold(s: string)
    ensures Trim(s) == TrimEnd(TrimStart(s))
  {
  }

  /** Stripping the start of a joined line strips the start of its first part only. */
  lemma TrimStartJoin(parts: seq<string>, sep: char)
    requires |parts| >= 2 && !IsSpace(sep)
    ensures TrimStart(Join(parts, sep)) == (TrimStart(parts[0]) + [sep]) + Join(parts[1..], sep)
  {
    var p0 := parts[0];
    var rest := Join(parts[1..], sep);
    assert Join(parts, sep) == p0 + [sep] + rest;
    ConcatAssoc(p0, [sep], rest);
    TrimStartConcat(p0, [sep] + rest);
    ConcatAssoc(TrimStart(p0), [sep], rest);
  }

  lemma JoinOfTrimEnds(parts: seq<string>, sep: char)
    requires |parts| >= 2
    ensures var tail := parts[1..];
      Join(TrimEnds(parts), sep) ==
        (TrimStart(parts[0]) + [sep]) + Join(tail[|tail| - 1 := TrimEnd(tail[|tail| - 1])], sep)
  {
    var tail := parts[1..];
    var ps := TrimEnds(parts);
    assert ps[1..] == tail[|tail| - 1 := TrimEnd(tail[|tail| - 1])];
    assert ps[0] == TrimStart(parts[0]);
  }

  /** Splitting undoes joining when no part contains the separator. */
  lemma {:induction false} SplitOnJoin(parts: seq<string>, sep: char)
    requires |parts| >= 1
    requires forall i :: 0 <= i < |parts| ==> sep !in parts[i]
    ensures SplitOn(Join(parts, sep), sep) == parts
    decreases |parts|
  {
    if |parts| == 1 {
      SplitOnWithoutSep(parts[0], sep);
    } else {
      SplitOnJoin(parts[1..], sep);
      SplitOnAfterPart(parts[0], Join(parts[1..], sep), sep);
      assert [parts[0]] + parts[1..] == parts;
    }
  }

  /** Python's s.split() with no argument: the maximal runs of non-whitespace
      characters, in order; no field is empty or holds whitespace, and there are
      none exactly when s is all whitespace. */
  function Fields(s: string): (fs: seq<string>)
    ensures forall i :: 0 <= i < |fs| ==> fs[i] != [] && NoSpace(fs[i])
    ensures fs == [] <==> AllSpace(s)
    decreases |s|
  {
    if s == [] then []
    else if IsSpace(s[0]) then
      var fs := Fields(s[1..]);
      assert AllSpace(s[1..]) ==> AllSpace(s) by {
        if AllSpace(s[1..]) {
          forall i | 0 <= i < |s| ensures IsSpace(s[i]) {
            if i > 0 { assert s[i] == s[1..][i - 1]; }
          }
        }
      }
      fs
    else
      var rest := Fields(s[1..]);
      if |s| > 1 && !IsSpace(s[1]) then
        assert !AllSpace(s[1..]) by { assert s[1..][0] == s[1]; }
        var w := [s[0]] + rest[0];
        assert NoSpace(w) by {
          forall i | 0 <= i < |w| ensures !IsSpace(w[i]) {
            if i > 0 { assert w[i] == rest[0][i - 1]; }
          }
        }
        [w] + rest[1..]
      else
        [[s[0]]] + rest
  }

  lemma {:induction false} FieldsOfWordThen(w: string, s: string)
    requires w != [] && NoSpace(w)
    requires s == [] || IsSpace(s[0])
    ensures Fields(w + s) == [w] + Fields(s)
    decreases |w|
  {
    var ws := w + s;
    assert ws[1..] == w[1..] + s;
    if |w| == 1 {
      assert w == [w[0]];
      assert ws[1..] == s;
    } else {
      assert NoSpace(w[1..]) by {
        forall i | 0 <= i < |w[1..]| ensures !IsSpace(w[1..][i]) { assert w[1..][i] == w[i + 1]; }
      }
      FieldsOfWordThen(w[1..], s);
      assert ws[1] == w[1];
      assert [w[0]] + w[1..] == w;
    }
  }

  lemma FieldsAfterSpace(s: string)
    ensures Fields([' '] + s) == Fields(s)
  {
    assert ([' '] + s)[1..] == s;
  }

  /** Splitting a space-joined list of well-formed fields gives back the fields. */
  lemma {:induction false} FieldsOfJoin(fs: seq<string>)
    requires |fs| >= 1
    requires forall i :: 0 <= i < |fs| ==> fs[i] != [] && NoSpace(fs[i])
    ensures Fields(Join(fs, ' ')) == fs
    decreases |fs|
  {
    if |fs| == 1 {
      FieldsOfWordThen(fs[0], []);
      assert fs[0] + [] == fs[0];
      assert Fields([]) == [];
    } else {
      var rest := Join(fs[1..], ' ');
      FieldsOfJoin(fs[1..]);
      FieldsOfWordThen(fs[0], [' '] + rest);
      assert fs[0] + [' '] + rest == fs[0] + ([' '] + rest);
      FieldsAfterSpace(rest);
      assert [fs[0]] + fs[1..] == fs;
    }
  }

  /** A line laid out as whitespace runs around fields: seps[0], fs[0], seps[1], ...,
      fs[n-1], seps[n]. */
  function Spaced(fs: seq<string>, seps: seq<string>): string
    requires |seps| == |fs| + 1
    decreases |fs|
  {
    if fs == [] then seps[0] else seps[0] + fs[0] + Spaced(fs[1..], seps[1..])
  }

  /** split() finds exactly the fields of a line made of non-empty fields separated by
      non-empty whitespace runs, with any whitespace (or none) at either end; every
      string has that shape. */
  lemma {:induction false} FieldsOfSpaced(fs: seq<string>, seps: seq<string>)
    requires |seps| == |fs| + 1
    requires forall i :: 0 <= i < |fs| ==> fs[i] != [] && NoSpace(fs[i])
    requires forall i :: 0 <= i < |seps| ==> AllSpace(seps[i])
    requires forall i :: 0 < i < |fs| ==> seps[i] != []
    ensures Fields(Spaced(fs, seps)) == fs
    decreases |fs|
  {
    if fs == [] {
      assert Fields(seps[0]) == [];
    } else {
      var rest := Spaced(fs[1..], seps[1..]);
      assert rest == [] || IsSpace(rest[0]) by {
        if |fs| > 1 {
          assert seps[1..][0] == seps[1] && seps[1] != [];
          assert rest == seps[1] + fs[1..][0] + Spaced(fs[1..][1..], seps[1..][1..]);
          assert rest[0] == seps[1][0];
        } else {
          assert rest == seps[1];
        }
      }
      FieldsOfSpaced(fs[1..], seps[1..]);
      FieldsOfWordThen(fs[0], rest);
      assert seps[0] + fs[0] + rest == seps[0] + (fs[0] + rest);
      FieldsWithLeadingSpace(seps[0], fs[0] + rest);
      assert [fs[0]] + fs[1..] == fs;
    }
  }

  lemma {:induction false} FieldsWithLeadingSpace(sp: string, s: string)
    requires AllSpace(sp)
    ensures Fields(sp + s) == Fields(s)
    decreases |sp|
  {
    if sp != [] {
      assert (sp + s)[0] == sp[0] && IsSpace(sp[0]);
      assert (sp + s)[1..] == sp[1..] + s;
      assert AllSpace(sp[1..]) by {
        forall i | 0 <= i < |sp[1..]| ensures IsSpace(sp[1..][i]) { assert sp[1..][i] == sp[i + 1]; }
      }
      FieldsWithLeadingSpace(sp[1..], s);
      assert Fields(sp + s) == Fields((sp + s)[1..]);
    } else {
      assert sp + s == s;
    }
  }

  lemma {:induction false} FieldsWithTrailingSpace(s: string, sp: string)
    requires AllSpace(sp)
    ensures Fields(s + sp) == Fields(s)
    decreases |s|
  {
    var t := s + sp;
    if s == [] {
      assert t == sp;
    } else {
      assert t[1..] == s[1..] + sp;
      FieldsWithTrailingSpace(s[1..], sp);
      if |s| == 1 {
        assert t[1..] == sp;
        assert |t| > 1 ==> IsSpace(t[1]);
      } else {
        assert t[1] == s[1];
      }
    }
  }

  /** Stripping a line first does not change how it splits into fields. */
  lemma {:induction false} FieldsOfTrimStart(s: string)
    ensures Fields(TrimStart(s)) == Fields(s)
    decreases |s|
  {
    if s != [] && IsSpace(s[0]) {
      FieldsOfTrimStart(s[1..]);
    }
  }

  lemma FieldsOfTrimEnd(t: string)
    ensures Fields(TrimEnd(t)) == Fields(t)
  {
    var r := TrimEnd(t);
    assert t == r + t[|r|..];
    FieldsWithTrailingSpace(r, t[|r|..]);
  }

  /** Stripping a line first does not change how it splits into fields. */
  lemma FieldsOfTrim(s: string)
    ensures Fields(Trim(s)) == Fields(s)
  {
    FieldsOfTrimStart(s);
    FieldsOfTrimEnd(TrimStart(s));
  }

  predicate IsUpper(c: char) {
    'A' <= c <= 'Z'
  }

  function LowerChar(c: char): char {
    if IsUpper(c) then (c as int + 32) as char else c
  }

  /** Python's str.lower() on ASCII letters. */
  function ToLower(s: string): string {
    seq(|s|, i requires 0 <= i < |s| => LowerChar(s[i]))
  }

  /** Lower-casing turns each capital into its own lower-case letter, 32 code points
      on, keeps every other character, and so leaves no capital behind. */
  lemma ToLowerLeavesNoUpper(s: string)
    ensures |ToLower(s)| == |s|
    ensures forall i :: 0 <= i < |s| && IsUpper(s[i]) ==> ToLower(s)[i] as int == s[i] as int + 32
    ensures forall i :: 0 <= i < |s| && !IsUpper(s[i]) ==> ToLower(s)[i] == s[i]
    ensures forall i :: 0 <= i < |s| ==> !IsUpper(ToLower(s)[i])
  {
  }

  /** Lower-casing text without upper-case letters changes nothing. */
  lemma ToLowerOfLower(s: string)
    requires forall i :: 0 <= i < |s| ==> !IsUpper(s[i])
    ensures ToLower(s) == s
  {
    ToLowerLeavesNoUpper(s);
  }

  predicate IsDigit(c: char) {
    '0' <= c <= '9'
  }

  predicate AllDigits(s: string) {
    forall i :: 0 <= i < |s| ==> IsDigit(s[i])
  }

  /** The value of a string of decimal digits, most significant first. */
  function DigitsValue(s: string): nat
    requires AllDigits(s)
    decreases |s|
  {
    if s == [] then 0 else DigitsValue(s[..|s| - 1]) * 10 + (s[|s| - 1] as int - '0' as int)
  }

  function DigitChar(d: nat): (c: char)
    requires d < 10
    ensures IsDigit(c) && c as int - '0' as int == d
  {
    ('0' as int + d) as char
  }

  /** Python's str() on a non-negative integer: a non-empty digit string without a
      leading zero whose decimal value is n. */
  function NatToString(n: nat): (s: string)
    ensures s != [] && AllDigits(s)
    ensures |s| > 1 ==> s[0] != '0'
    ensures DigitsValue(s) == n
    decreases n
  {
    if n < 10 then [DigitChar(n)]
    else
      var p := NatToString(n / 10);
      var s := p + [DigitChar(n % 10)];
      assert s[..|s| - 1] == p;
      assert |p| == 1 ==> p[0] != '0';
      s
  }

  /** Python's str() on an integer: a minus sign for negative values, then the digits. */
  function IntToString(n: int): string {
    if n < 0 then "-" + NatToString(-n) else NatToString(n)
  }

  /** Python's int() on a decimal string without surrounding whitespace: an optional
      sign followed by one or more ASCII digits; anything else is rejected. */
  function ParseInt(s: string): Option<int> {
    if s != [] && (s[0] == '+' || s[0] == '-') then
      if |s| > 1 && AllDigits(s[1..]) then
        var v: int := DigitsValue(s[1..]);
        Some(if s[0] == '-' then -v else v)
      else None
    else if s != [] && AllDigits(s) then Some(DigitsValue(s))
    else None
  }

  /** Every integer's decimal text parses back to that integer. */
  lemma ParseIntOfIntToString(n: int)
    ensures ParseInt(IntToString(n)) == Some(n)
  {
    if n < 0 {
      var s := IntToString(n);
      assert s[1..] == NatToString(-n);
    }
  }

  /** A run of ASCII digits reads as its decimal value, also after a '+' sign or any
      number of extra leading zeros, and as its negation after a '-' sign. */
  lemma ParseIntOfDigits(d: string)
    requires d != [] && AllDigits(d)
    ensures ParseInt(d) == Some(DigitsValue(d) as int)
    ensures ParseInt("+" + d) == Some(DigitsValue(d) as int)
    ensures ParseInt("-" + d) == Some(-(DigitsValue(d) as int))
    ensures ParseInt("0" + d) == Some(DigitsValue(d) as int)
  {
    assert ("+" + d)[1..] == d && ("-" + d)[1..] == d;
    LeadingZeroValue(d);
  }

  /** A leading zero does not change the value of a digit run. */
  lemma {:induction false} LeadingZeroValue(d: string)
    requires AllDigits(d)
    ensures AllDigits("0" + d) && DigitsValue("0" + d) == DigitsValue(d)
    decreases |d|
  {
    var z := "0" + d;
    assert AllDigits(z) by {
      forall i | 0 <= i < |z| ensures IsDigit(z[i]) { if i > 0 { assert z[i] == d[i - 1]; } }
    }
    if d != [] {
      var init := d[..|d| - 1];
      assert AllDigits(init) by {
        forall i | 0 <= i < |init| ensures IsDigit(init[i]) { assert init[i] == d[i]; }
      }
      LeadingZeroValue(init);
      assert z[..|z| - 1] == "0" + init;
      assert z[|z| - 1] == d[|d| - 1];
    }
  }

  /** int() refuses an empty text, a lone sign, and any text holding a character other
      than an ASCII digit, except for one leading sign. */
  lemma ParseIntRejects(s: string, i: nat)
    requires i < |s| && !IsDigit(s[i])
    requires i == 0 ==> s[0] != '+' && s[0] != '-'
    ensures ParseInt(s) == None
    ensures ParseInt("") == None && ParseInt("+") == None && ParseInt("-") == None
  {
    if i > 0 {
      assert s[1..][i - 1] == s[i];
    }
  }

  /** A decimal text holds no whitespace and no comma. */
  lemma IntToStringPlain(n: int)
    ensures NoSpace(IntToString(n)) && ',' !in IntToString(n) && '\n' !in IntToString(n)
    ensures forall i :: 0 <= i < |IntToString(n)| ==> !IsUpper(IntToString(n)[i])
  {
    IntToStringChars(n);
  }

  /** The decimal text of an integer holds only digits and a minus sign. */
  lemma IntToStringChars(n: int)
    ensures forall i :: 0 <= i < |IntToString(n)| ==> IsDigit(IntToString(n)[i]) || IntToString(n)[i] == '-'
  {
    var s := IntToString(n);
    var d := NatToString(if n < 0 then -n else n);
    if n < 0 {
      forall i | 0 <= i < |s| ensures IsDigit(s[i]) || s[i] == '-' {
        if i > 0 { assert s[i] == d[i - 1]; }
      }
    }
  }
}
