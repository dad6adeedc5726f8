/** The level-descriptor scanner `read_file`: every comma-separated field of
    every line is converted with C's `atoi`, and each field whose value is 1
    contributes its (column, row) pair to the formation, row by row, left to
    right. The file is given as its sequence of lines. */
module Formation {

  /** `inv_position`: a column `x` and a row `y` of the level grid. */
  datatype GridPos = GridPos(x: int, y: int)

  // ---------------------------------------------------------------------
  // `atoi`: optional leading white space, optional sign, decimal digits.
  // ---------------------------------------------------------------------

  predicate IsSpace(c: char)
  {
    c == ' ' || c == '\t' || c == '\n' || c == '\U{B}' || c == '\U{C}' || c == '\r'
  }

  predicate IsDigit(c: char)
  {
    '0' as int <= c as int <= '9' as int
  }

  predicate AllDigits(d: string)
  {
    forall k :: 0 <= k < |d| ==> IsDigit(d[k])
  }

  /** What is left after the leading white space. */
  function SkipSpace(s: string): string
  {
    if |s| > 0 && IsSpace(s[0]) then SkipSpace(s[1..]) else s
  }

  /** `SkipSpace` drops exactly the longest all-space prefix. */
  lemma {:induction false} SkipSpaceIsSuffix(s: string)
    ensures |SkipSpace(s)| <= |s| && SkipSpace(s) == s[|s| - |SkipSpace(s)|..]
    ensures forall k :: 0 <= k < |s| - |SkipSpace(s)| ==> IsSpace(s[k])
    ensures |SkipSpace(s)| > 0 ==> !IsSpace(SkipSpace(s)[0])
    decreases |s|
  {
    if |s| > 0 && IsSpace(s[0]) {
      SkipSpaceIsSuffix(s[1..]);
      assert s[1..][|s| - 1 - |SkipSpace(s)|..] == s[|s| - |SkipSpace(s)|..];
      assert forall k :: 1 <= k < |s| - |SkipSpace(s)| ==> s[1..][k - 1] == s[k];
    }
  }

  /** The longest prefix of decimal digits. */
  function LeadingDigits(s: string): (d: string)
    ensures AllDigits(d)
  {
    if |s| > 0 && IsDigit(s[0]) then [s[0]] + LeadingDigits(s[1..]) else []
  }

  /** `LeadingDigits` is a prefix, and the next character, if any, is not a digit. */
  lemma {:induction false} LeadingDigitsIsPrefix(s: string)
    ensures |LeadingDigits(s)| <= |s| && LeadingDigits(s) == s[..|LeadingDigits(s)|]
    ensures |LeadingDigits(s)| < |s| ==> !IsDigit(s[|LeadingDigits(s)|])
    decreases |s|
  {
    if |s| > 0 && IsDigit(s[0]) {
      var d := LeadingDigits(s[1..]);
      LeadingDigitsIsPrefix(s[1..]);
      assert LeadingDigits(s) == [s[0]] + d;
      assert s[..1 + |d|] == [s[0]] + s[1..][..|d|];
    }
  }

  /** Decimal value of a digit string, most significant digit first. */
  function DigitsValue(d: string): nat
    requires AllDigits(d)
  {
    if |d| == 0 then 0 else DigitsValue(d[..|d| - 1]) * 10 + (d[|d| - 1] as int - '0' as int)
  }

  /** C's `atoi` over unbounded integers. */
  function Atoi(s: string): int
  {
    var t := SkipSpace(s);
    if |t| > 0 && t[0] == '-' then 0 - DigitsValue(LeadingDigits(t[1..]))
    else if |t| > 0 && t[0] == '+' then DigitsValue(LeadingDigits(t[1..]))
    else DigitsValue(LeadingDigits(t))
  }

  /** A digit string spelling one: any number of zeros, then a single '1'. */
  predicate SpellsOne(d: string)
  {
    |d| >= 1 && d[|d| - 1] == '1' && forall k :: 0 <= k < |d| - 1 ==> d[k] == '0'
  }

  lemma {:induction false} ValueZeroIff(d: string)
    requires AllDigits(d)
    ensures DigitsValue(d) == 0 <==> forall k :: 0 <= k < |d| ==> d[k] == '0'
    decreases |d|
  {
    if |d| > 0 {
      var p := d[..|d| - 1];
      ValueZeroIff(p);
      assert forall k :: 0 <= k < |p| ==> p[k] == d[k];
    }
  }

  lemma ValueOneIff(d: string)
    requires AllDigits(d)
    ensures DigitsValue(d) == 1 <==> SpellsOne(d)
  {
    if |d| > 0 {
      var p := d[..|d| - 1];
      ValueZeroIff(p);
      assert forall k :: 0 <= k < |p| ==> p[k] == d[k];
    }
  }

  /** Reference reading of "the field's `atoi` value is 1": after white space
      and an optional '+', the digits are zeros followed by one '1', and a
      non-digit or the end of the field follows. */
  lemma AtoiIsOneIff(f: string)
    ensures Atoi(f) == 1 <==>
      var t := SkipSpace(f);
      var u := if |t| > 0 && t[0] == '+' then t[1..] else t;
      SpellsOne(LeadingDigits(u))
  {
    var t := SkipSpace(f);
    if |t| > 0 && t[0] == '-' {
      assert LeadingDigits(t) == [];
    } else if |t| > 0 && t[0] == '+' {
      ValueOneIff(LeadingDigits(t[1..]));
    } else {
      ValueOneIff(LeadingDigits(t));
    }
  }

  lemma {:induction false} SkipSpaceAppend(u: string, x: string)
    requires |x| > 0 && !IsSpace(x[0])
    ensures SkipSpace(u + x) == SkipSpace(u) + x
    decreases |u|
  {
    if |u| > 0 {
      assert (u + x)[1..] == u[1..] + x;
      SkipSpaceAppend(u[1..], x);
    } else {
      assert u + x == x;
    }
  }

  lemma {:induction false} LeadingDigitsAppend(u: string, x: string)
    requires |x| > 0 && !IsDigit(x[0])
    ensures LeadingDigits(u + x) == LeadingDigits(u)
    decreases |u|
  {
    if |u| > 0 {
      assert (u + x)[1..] == u[1..] + x;
      LeadingDigitsAppend(u[1..], x);
    } else {
      assert u + x == x;
    }
  }

  /** `atoi` stops at the first character that is neither white space, a sign
      nor a digit: whatever follows it is never read. */
  lemma AtoiAppend(u: string, x: string)
    requires |x| > 0 && !IsSpace(x[0]) && !IsDigit(x[0]) && x[0] != '-' && x[0] != '+'
    ensures Atoi(u + x) == Atoi(u)
  {
    SkipSpaceAppend(u, x);
    var t := SkipSpace(u);
    var tx := t + x;
    assert SkipSpace(u + x) == tx;
    if |t| == 0 {
      assert tx == x;
      assert LeadingDigits(x) == [];
    } else {
      assert tx[0] == t[0];
      assert tx[1..] == t[1..] + x;
      if t[0] == '-' || t[0] == '+' {
        LeadingDigitsAppend(t[1..], x);
      } else {
        LeadingDigitsAppend(t, x);
      }
    }
  }

  /** The scanner hands `atoi` the whole rest of the line; since
      `atoi` stops at the ',' or NUL ending the field, it reads the field alone. */
  lemma AtoiStopsAtSeparator(f: string, c: char, rest: string)
    requires c == ',' || c == '\0'
    ensures Atoi(f + [c] + rest) == Atoi(f)
  {
    assert f + [c] + rest == f + ([c] + rest);
    AtoiAppend(f, [c] + rest);
  }

  // ---------------------------------------------------------------------
  // Splitting a line into fields.
  // ---------------------------------------------------------------------

  /** A field ends at a ',' (another field follows) or at NUL (the line ends). */
  predicate IsSeparator(c: char)
  {
    c == ',' || c == '\0'
  }

  predicate NoSeparator(f: string)
  {
    forall k :: 0 <= k < |f| ==> !IsSeparator(f[k])
  }

  /** Index of the first separator, or the line length. */
  function FieldEnd(s: string): (e: nat)
    ensures e <= |s|
    ensures NoSeparator(s[..e])
    ensures e < |s| ==> IsSeparator(s[e])
  {
    if |s| == 0 || IsSeparator(s[0]) then 0 else 1 + FieldEnd(s[1..])
  }

  /** The fields the scanner visits: the text up to each ',' and, last, the
      text up to the first NUL or the end of the line. */
  function Fields(s: string): (fs: seq<string>)
    ensures |fs| >= 1
    ensures forall k :: 0 <= k < |fs| ==> NoSeparator(fs[k])
    decreases |s|
  {
    var e := FieldEnd(s);
    if e < |s| && s[e] == ',' then [s[..e]] + Fields(s[e + 1..]) else [s[..e]]
  }

  /** Fields glued back together with commas. */
  function Join(fs: seq<string>): string
    requires |fs| >= 1
  {
    if |fs| == 1 then fs[0] else fs[0] + [','] + Join(fs[1..])
  }

  /** The part of a C string the scanner can see: everything before the first NUL. */
  function UpToNul(s: string): string
  {
    if |s| == 0 || s[0] == '\0' then [] else [s[0]] + UpToNul(s[1..])
  }

  /** `UpToNul` is the longest NUL-free prefix. */
  lemma {:induction false} UpToNulIsPrefix(s: string)
    ensures |UpToNul(s)| <= |s| && UpToNul(s) == s[..|UpToNul(s)|]
    ensures forall k :: 0 <= k < |UpToNul(s)| ==> s[k] != '\0'
    ensures |UpToNul(s)| < |s| ==> s[|UpToNul(s)|] == '\0'
    decreases |s|
  {
    if |s| > 0 && s[0] != '\0' {
      UpToNulIsPrefix(s[1..]);
      assert s == [s[0]] + s[1..];
    }
  }

  /** A NUL-free prefix is passed through whole. */
  lemma {:induction false} UpToNulAppend(a: string, b: string)
    requires forall k :: 0 <= k < |a| ==> a[k] != '\0'
    ensures UpToNul(a + b) == a + UpToNul(b)
    decreases |a|
  {
    if |a| == 0 {
      assert a + b == b;
    } else {
      assert (a + b)[0] == a[0];
      assert (a + b)[1..] == a[1..] + b;
      UpToNulAppend(a[1..], b);
      assert a == [a[0]] + a[1..];
    }
  }

  /** One more field in front. */
  lemma JoinCons(f: string, fs: seq<string>)
    requires |fs| >= 1
    ensures Join([f] + fs) == f + [','] + Join(fs)
  {
    assert ([f] + fs)[1..] == fs;
  }

  /** A ',' is passed through and scanning goes on after it. */
  lemma UpToNulComma(s: string, e: nat)
    requires e < |s| && s[e] == ','
    ensures UpToNul(s[e..]) == [','] + UpToNul(s[e + 1..])
  {
    assert s[e..][1..] == s[e + 1..];
  }

  /** The first field, then the rest of the line after its ','. */
  lemma FieldsCons(s: string)
    requires FieldEnd(s) < |s| && s[FieldEnd(s)] == ','
    ensures Fields(s) == [s[..FieldEnd(s)]] + Fields(s[FieldEnd(s) + 1..])
  {
  }

  /** Splitting loses nothing but what follows the first NUL. */
  lemma {:induction false} JoinFields(s: string)
    ensures Join(Fields(s)) == UpToNul(s)
    decreases |s|
  {
    var e := FieldEnd(s);
    var f := s[..e];
    if e < |s| && s[e] == ',' {
      var rest := s[e + 1..];
      calc {
        Join(Fields(s));
        { FieldsCons(s); }
        Join([f] + Fields(rest));
        { JoinCons(f, Fields(rest)); }
        f + [','] + Join(Fields(rest));
        { JoinFields(rest); }
        f + [','] + UpToNul(rest);
        f + ([','] + UpToNul(rest));
        { UpToNulComma(s, e); }
        f + UpToNul(s[e..]);
        { UpToNulAppend(f, s[e..]); }
        UpToNul(f + s[e..]);
        { assert f + s[e..] == s; }
        UpToNul(s);
      }
    } else {
      UpToNulAppend(f, s[e..]);
      assert f + s[e..] == s;
      assert UpToNul(s[e..]) == [];
      assert f + [] == f;
    }
  }

  /** A separator-free prefix followed by a separator or the end of the line
      is the first field. */
  lemma {:induction false} FieldEndAt(s: string, i: nat)
    requires i <= |s| && NoSeparator(s[..i]) && (i < |s| ==> IsSeparator(s[i]))
    ensures FieldEnd(s) == i
    decreases i
  {
    if i > 0 {
      assert s[..i][0] == s[0];
      assert s[1..][..i - 1] == s[..i][1..];
      FieldEndAt(s[1..], i - 1);
    }
  }

  /** Joining separator-free fields and splitting again gives them back. */
  lemma {:induction false} FieldsJoin(fs: seq<string>)
    requires |fs| >= 1
    requires forall k :: 0 <= k < |fs| ==> NoSeparator(fs[k])
    ensures Fields(Join(fs)) == fs
    decreases |fs|
  {
    var f := fs[0];
    var s := Join(fs);
    if |fs| == 1 {
      assert f[..|f|] == f;
      FieldEndAt(f, |f|);
    } else {
      var rest := Join(fs[1..]);
      assert s == f + [','] + rest;
      assert s[..|f|] == f;
      assert s[|f|] == ',';
      FieldEndAt(s, |f|);
      assert s[|f| + 1..] == rest;
      FieldsJoin(fs[1..]);
      assert fs == [f] + fs[1..];
    }
  }

  // ---------------------------------------------------------------------
  // The formation.
  // ---------------------------------------------------------------------

  /** Field `p.x` of line `p.y` exists and reads as 1. */
  ghost predicate Marked(lines: seq<string>, p: GridPos)
  {
    0 <= p.y < |lines| && 0 <= p.x < |Fields(lines[p.y])| && Atoi(Fields(lines[p.y])[p.x]) == 1
  }

  /** Row-major order: earlier row first, then smaller column. */
  predicate RowMajorBefore(a: GridPos, b: GridPos)
  {
    a.y < b.y || (a.y == b.y && a.x < b.x)
  }

  /** For each field of a line, whether it reads as 1. */
  function OneFlags(fs: seq<string>): (b: seq<bool>)
    ensures |b| == |fs|
    ensures forall k :: 0 <= k < |fs| ==> (b[k] <==> Atoi(fs[k]) == 1)
  {
    seq(|fs|, k requires 0 <= k < |fs| => Atoi(fs[k]) == 1)
  }

  /** The flagged columns of one row, left to right. */
  function RowMarks(flags: seq<bool>, row: int): (r: seq<GridPos>)
    ensures forall a :: 0 <= a < |r| ==> r[a].y == row && 0 <= r[a].x < |flags|
  {
    if |flags| == 0 then []
    else RowMarks(flags[..|flags| - 1], row) + (if flags[|flags| - 1] then [GridPos(|flags| - 1, row)] else [])
  }

  /** A row yields exactly its flagged columns. */
  lemma {:induction false} RowMarksExact(flags: seq<bool>, row: int)
    ensures forall q :: q in RowMarks(flags, row) <==> q.y == row && 0 <= q.x < |flags| && flags[q.x]
    decreases |flags|
  {
    if |flags| > 0 {
      var n := |flags| - 1;
      var p := flags[..n];
      RowMarksExact(p, row);
      var r1 := RowMarks(p, row);
      var tail := if flags[n] then [GridPos(n, row)] else [];
      var r := RowMarks(flags, row);
      assert r == r1 + tail;
      forall q: GridPos
        ensures q in r <==> q.y == row && 0 <= q.x < |flags| && flags[q.x]
      {
        assert q in r <==> q in r1 || q in tail;
        if q.y == row && 0 <= q.x < n {
          assert p[q.x] == flags[q.x];
        }
      }
    }
  }

  /** A row yields its columns left to right. */
  lemma {:induction false} RowMarksIncreasing(flags: seq<bool>, row: int)
    ensures forall a, b :: 0 <= a < b < |RowMarks(flags, row)| ==> RowMarks(flags, row)[a].x < RowMarks(flags, row)[b].x
    decreases |flags|
  {
    if |flags| > 0 {
      var n := |flags| - 1;
      RowMarksIncreasing(flags[..n], row);
      var r1 := RowMarks(flags[..n], row);
      var r := RowMarks(flags, row);
      assert r[..|r1|] == r1;
    }
  }

  /** `read_file`'s result for the given lines: all rows' marks, top to bottom.
      The previous formation plays no part. */
  function ParseFormation(lines: seq<string>): (r: seq<GridPos>)
    ensures forall a :: 0 <= a < |r| ==> 0 <= r[a].y < |lines|
  {
    if |lines| == 0 then []
    else ParseFormation(lines[..|lines| - 1]) + RowMarks(OneFlags(Fields(lines[|lines| - 1])), |lines| - 1)
  }

  /** A cell of an earlier line is marked in all the lines exactly when it
      is marked in the earlier ones. */
  lemma MarkedEarlier(lines: seq<string>, q: GridPos)
    requires 0 <= q.y < |lines| - 1
    ensures Marked(lines, q) <==> Marked(lines[..|lines| - 1], q)
  {
    assert lines[..|lines| - 1][q.y] == lines[q.y];
  }

  /** A cell of the last line is marked exactly when its flag is set. */
  lemma MarkedLast(lines: seq<string>, q: GridPos)
    requires |lines| > 0 && q.y == |lines| - 1
    ensures Marked(lines, q) <==> 0 <= q.x < |OneFlags(Fields(lines[q.y]))| && OneFlags(Fields(lines[q.y]))[q.x]
  {
  }

  /** One cell, one more line: membership follows the last line's marks for
      a cell of that line and the earlier lines' formation otherwise. */
  lemma ParseFormationCell(lines: seq<string>, q: GridPos)
    requires |lines| > 0
    requires q in ParseFormation(lines[..|lines| - 1]) <==> Marked(lines[..|lines| - 1], q)
    ensures q in ParseFormation(lines) <==> Marked(lines, q)
  {
    var n := |lines| - 1;
    var flags := OneFlags(Fields(lines[n]));
    var r1 := ParseFormation(lines[..n]);
    var r2 := RowMarks(flags, n);
    assert ParseFormation(lines) == r1 + r2;
    assert q in r1 + r2 <==> q in r1 || q in r2;
    if q.y == n {
      RowMarksExact(flags, n);
      MarkedLast(lines, q);
      assert q !in r1;
    } else {
      assert q !in r2;
      if 0 <= q.y < n {
        MarkedEarlier(lines, q);
      } else {
        assert q !in r1;
      }
    }
  }

  /** The formation lists exactly the marked cells. */
  lemma {:induction false} ParseFormationMembers(lines: seq<string>)
    ensures forall q :: q in ParseFormation(lines) <==> Marked(lines, q)
    decreases |lines|
  {
    if |lines| == 0 {
      assert forall q :: !Marked(lines, q);
    } else {
      ParseFormationMembers(lines[..|lines| - 1]);
      forall q: GridPos
        ensures q in ParseFormation(lines) <==> Marked(lines, q)
      {
        ParseFormationCell(lines, q);
      }
    }
  }

  /** The formation is in strict row-major order, so no cell appears twice. */
  lemma {:induction false} ParseFormationOrdered(lines: seq<string>)
    ensures forall a, b :: 0 <= a < b < |ParseFormation(lines)| ==>
      RowMajorBefore(ParseFormation(lines)[a], ParseFormation(lines)[b])
    decreases |lines|
  {
    if |lines| > 0 {
      var n := |lines| - 1;
      var earlier := lines[..n];
      ParseFormationOrdered(earlier);
      var flags := OneFlags(Fields(lines[n]));
      RowMarksIncreasing(flags, n);
      var r1 := ParseFormation(earlier);
      var r2 := RowMarks(flags, n);
      var r := ParseFormation(lines);
      assert r == r1 + r2;
      forall a, b | 0 <= a < b < |r|
        ensures RowMajorBefore(r[a], r[b])
      {
        if b < |r1| {
          assert r[a] == r1[a] && r[b] == r1[b];
        } else if a >= |r1| {
          assert r[a] == r2[a - |r1|] && r[b] == r2[b - |r1|];
        } else {
          assert r[a] == r1[a] && r[b] == r2[b - |r1|];
        }
      }
    }
  }
}
