/** The few java.lang.String operations the modelled code relies on, over `seq<char>`. */
module JavaStrings {
  import opened Wrappers

  /** `s.startsWith(prefix)` */
  predicate StartsWith(s: string, prefix: string) {
    |prefix| <= |s| && s[..|prefix|] == prefix
  }

  /** `s.endsWith(suffix)` */
  predicate EndsWith(s: string, suffix: string) {
    |suffix| <= |s| && s[|s| - |suffix|..] == suffix
  }

  /** What string concatenation makes of a possibly null String: null reads "null". */
  function Text(s: Option<string>): string {
    match s
    case None => "null"
    case Some(t) => t
  }

  // ---------------------------------------------------------------------------
  // Replacing a one-character target
  // ---------------------------------------------------------------------------

  /** `s.replace(c, r)` and `s.replaceAll(<regex matching only c>, <literal r>)`:
      every occurrence of `c`, from left to right, is replaced by `r`. */
  function ReplaceChar(s: string, c: char, r: string): string {
    if s == [] then [] else (if s[0] == c then r else [s[0]]) + ReplaceChar(s[1..], c, r)
  }

  /** Without an occurrence nothing is replaced; a non-empty replacement never
      shortens the string. */
  lemma {:induction false} ReplaceCharBounds(s: string, c: char, r: string)
    ensures c !in s ==> ReplaceChar(s, c, r) == s
    ensures |r| >= 1 ==> |ReplaceChar(s, c, r)| >= |s|
  {
    if s != [] {
      ReplaceCharBounds(s[1..], c, r);
      if c !in s {
        assert c !in s[1..];
        assert [s[0]] + s[1..] == s;
      }
    }
  }

  /** Replacing distributes over concatenation. */
  lemma {:induction false} ReplaceCharAppend(a: string, b: string, c: char, r: string)
    ensures ReplaceChar(a + b, c, r) == ReplaceChar(a, c, r) + ReplaceChar(b, c, r)
  {
    if a == [] {
      assert a + b == b;
    } else {
      var head := if a[0] == c then r else [a[0]];
      assert (a + b)[0] == a[0];
      assert (a + b)[1..] == a[1..] + b;
      ReplaceCharAppend(a[1..], b, c, r);
      assert ReplaceChar(a + b, c, r) == head + (ReplaceChar(a[1..], c, r) + ReplaceChar(b, c, r));
      assert ReplaceChar(a, c, r) == head + ReplaceChar(a[1..], c, r);
    }
  }

  /** A character of the result is a kept character of `s` or comes from `r`; every
      character of `s` other than `c` survives. */
  lemma {:induction false} ReplaceCharMembers(s: string, c: char, r: string, x: char)
    ensures x in ReplaceChar(s, c, r) ==> (x in s && x != c) || x in r
    ensures x in s && x != c ==> x in ReplaceChar(s, c, r)
  {
    if s != [] {
      ReplaceCharMembers(s[1..], c, r, x);
      if x in s && x != c && x != s[0] {
        assert x in s[1..];
      }
    }
  }

  // ---------------------------------------------------------------------------
  // trim() and blankness
  // ---------------------------------------------------------------------------

  /** The leading part `trim()` removes: every character up to and including U+0020. */
  function TrimLeading(s: string): (t: string)
    ensures |t| <= |s| && t == s[|s| - |t|..]
    ensures t == [] || t[0] > ' '
    ensures forall i :: 0 <= i < |s| - |t| ==> s[i] <= ' '
  {
    if s != [] && s[0] <= ' ' then TrimLeading(s[1..]) else s
  }

  /** The trailing part `trim()` removes. */
  function TrimTrailing(s: string): (t: string)
    ensures |t| <= |s| && t == s[..|t|]
    ensures t == [] || t[|t| - 1] > ' '
    ensures forall i :: |t| <= i < |s| ==> s[i] <= ' '
  {
    if s != [] && s[|s| - 1] <= ' ' then TrimTrailing(s[..|s| - 1]) else s
  }

  /** `s.trim()` */
  function Trim(s: string): string {
    TrimTrailing(TrimLeading(s))
  }

  /** `Strings.isNotBlank(s)`, read as `s != null && s.trim().length() > 0`. */
  predicate IsNotBlank(s: Option<string>) {
    s.Some? && Trim(s.value) != []
  }

  /** A string is not blank exactly when one of its characters lies above U+0020. */
  lemma NotBlankIffVisibleChar(s: string)
    ensures IsNotBlank(Some(s)) <==> exists i :: 0 <= i < |s| && s[i] > ' '
  {
    if IsNotBlank(Some(s)) {
      var i := TrimmedKeepsVisible(s);
    }
    if exists i :: 0 <= i < |s| && s[i] > ' ' {
      var i :| 0 <= i < |s| && s[i] > ' ';
      VisibleSurvivesTrim(s, i);
    }
  }

  /** The characters `trim()` keeps start with one above U+0020 of `s`. */
  lemma TrimmedKeepsVisible(s: string) returns (i: nat)
    requires Trim(s) != []
    ensures i < |s| && s[i] > ' '
  {
    var l := TrimLeading(s);
    var t := TrimTrailing(l);
    assert t[|t| - 1] > ' ' && t == l[..|t|];
    assert l[|t| - 1] > ' ';
    i := |s| - |l| + |t| - 1;
    assert l == s[|s| - |l|..];
  }

  /** A character above U+0020 keeps `trim()` from emptying the string. */
  lemma VisibleSurvivesTrim(s: string, i: nat)
    requires i < |s| && s[i] > ' '
    ensures Trim(s) != []
  {
    var l := TrimLeading(s);
    assert i >= |s| - |l|;
    assert l != [] && l[0] > ' ';
  }

  // ---------------------------------------------------------------------------
  // Joining and splitting on a one-character separator
  // ---------------------------------------------------------------------------

  /** The parts with `sep` between neighbours (`String.join`). */
  function Join(parts: seq<string>, sep: char): string {
    if parts == [] then ""
    else if |parts| == 1 then parts[0]
    else parts[0] + [sep] + Join(parts[1..], sep)
  }

  /** Joining one more part adds a separator and the part. */
  lemma {:induction false} JoinAppend(parts: seq<string>, p: string, sep: char)
    requires parts != []
    ensures Join(parts + [p], sep) == Join(parts, sep) + [sep] + p
  {
    if |parts| == 1 {
      assert (parts + [p])[1..] == [p];
    } else {
      assert (parts + [p])[1..] == parts[1..] + [p];
      JoinAppend(parts[1..], p, sep);
    }
  }

  /** The maximal `sep`-free pieces of `s`, empty pieces included (so it never drops
      a trailing empty piece, unlike `String.split`). */
  function Split(s: string, sep: char): (parts: seq<string>)
    ensures |parts| >= 1
  {
    if s == [] then [""]
    else
      var rest := Split(s[1..], sep);
      if s[0] == sep then [""] + rest
      else [[s[0]] + rest[0]] + rest[1..]
  }

  /** No piece holds the separator. */
  lemma {:induction false} SplitPiecesFree(s: string, sep: char)
    ensures forall i :: 0 <= i < |Split(s, sep)| ==> sep !in Split(s, sep)[i]
  {
    if s != [] {
      SplitPiecesFree(s[1..], sep);
      var rest := Split(s[1..], sep);
      if s[0] != sep {
        assert forall c :: c in [s[0]] + rest[0] ==> c == s[0] || c in rest[0];
      }
    }
  }

  /** A string without the separator is one piece. */
  lemma {:induction false} SplitNoSeparator(s: string, sep: char)
    requires sep !in s
    ensures Split(s, sep) == [s]
  {
    if s != [] {
      SplitNoSeparator(s[1..], sep);
      assert [s[0]] + s[1..] == s;
    }
  }

  /** A leading separator starts a new, empty piece. */
  lemma SplitConsSeparator(t: string, sep: char)
    ensures Split([sep] + t, sep) == [""] + Split(t, sep)
  {
    assert ([sep] + t)[0] == sep && ([sep] + t)[1..] == t;
  }

  /** Any other leading character joins the first piece. */
  lemma SplitConsOther(x: char, t: string, sep: char)
    requires x != sep
    ensures Split([x] + t, sep) == [[x] + Split(t, sep)[0]] + Split(t, sep)[1..]
  {
    assert ([x] + t)[0] == x && ([x] + t)[1..] == t;
  }

  lemma GlueFirst(x: char, l: seq<string>, r: seq<string>)
    requires l != []
    ensures [[x] + (l + r)[0]] + (l + r)[1..] == ([[x] + l[0]] + l[1..]) + r
  {
    assert (l + r)[0] == l[0];
    assert (l + r)[1..] == l[1..] + r;
  }

  /** The steps of `SplitAppend`: when `rest` splits into the pieces of `tail`
      followed by `right`, a character in front of both keeps it so. */
  lemma SplitAppendSeparator(rest: string, tail: string, right: seq<string>, sep: char)
    requires Split(rest, sep) == Split(tail, sep) + right
    ensures Split([sep] + rest, sep) == Split([sep] + tail, sep) + right
  {
    SplitConsSeparator(rest, sep);
    SplitConsSeparator(tail, sep);
    var left := Split(tail, sep);
    assert [""] + (left + right) == ([""] + left) + right;
  }

  lemma SplitAppendOther(x: char, rest: string, tail: string, right: seq<string>, sep: char)
    requires x != sep
    requires Split(rest, sep) == Split(tail, sep) + right
    ensures Split([x] + rest, sep) == Split([x] + tail, sep) + right
  {
    SplitConsOther(x, rest, sep);
    SplitConsOther(x, tail, sep);
    GlueFirst(x, Split(tail, sep), right);
  }

  /** A separator splits the pieces of the two sides apart. */
  lemma {:induction false} SplitAppend(a: string, b: string, sep: char)
    ensures Split(a + [sep] + b, sep) == Split(a, sep) + Split(b, sep)
  {
    if a == [] {
      assert a + [sep] + b == [sep] + b;
      SplitConsSeparator(b, sep);
    } else {
      var x, tail := a[0], a[1..];
      var rest := tail + [sep] + b;
      assert [x] + rest == a + [sep] + b && [x] + tail == a by {
        assert a == [x] + tail;
      }
      SplitAppend(tail, b, sep);
      if x == sep {
        SplitAppendSeparator(rest, tail, Split(b, sep), sep);
      } else {
        SplitAppendOther(x, rest, tail, Split(b, sep), sep);
      }
    }
  }

  /** Splitting undoes joining when no part holds the separator. */
  lemma {:induction false} SplitJoin(parts: seq<string>, sep: char)
    requires parts != []
    requires forall i :: 0 <= i < |parts| ==> sep !in parts[i]
    ensures Split(Join(parts, sep), sep) == parts
  {
    if |parts| == 1 {
      SplitNoSeparator(parts[0], sep);
    } else {
      SplitJoin(parts[1..], sep);
      SplitNoSeparator(parts[0], sep);
      SplitAppend(parts[0], Join(parts[1..], sep), sep);
      assert [parts[0]] + parts[1..] == parts;
    }
  }

  /** Joining undoes splitting. */
  lemma {:induction false} JoinSplit(s: string, sep: char)
    ensures Join(Split(s, sep), sep) == s
  {
    if s != [] {
      JoinSplit(s[1..], sep);
      var rest := Split(s[1..], sep);
      if s[0] == sep {
        assert ([""] + rest)[1..] == rest;
        assert Join([""] + rest, sep) == [sep] + Join(rest, sep);
      } else {
        var parts := [[s[0]] + rest[0]] + rest[1..];
        assert parts[1..] == rest[1..];
        if |rest| == 1 {
          assert Join(parts, sep) == [s[0]] + rest[0];
        } else {
          assert Join(rest, sep) == rest[0] + [sep] + Join(rest[1..], sep);
          assert Join(parts, sep) == [s[0]] + rest[0] + [sep] + Join(rest[1..], sep);
        }
        assert [s[0]] + s[1..] == s;
      }
    }
  }

  // ---------------------------------------------------------------------------
  // The natural order of String (compareTo)
  // ---------------------------------------------------------------------------

  /** The UTF-16 code units of one character: itself below U+10000, otherwise a
      high surrogate followed by a low surrogate. */
  function Units(c: char): seq<int> {
    if c as int < 0x1_0000 then [c as int]
    else
      var v := c as int - 0x1_0000;
      [0xD800 + v / 0x400, 0xDC00 + v % 0x400]
  }

  /** A character takes two code units exactly when its first is a high surrogate. */
  lemma UnitsShape(c: char)
    ensures |Units(c)| == 1 || |Units(c)| == 2
    ensures |Units(c)| == 2 <==> 0xD800 <= Units(c)[0] < 0xDC00
  {
  }

  lemma UnitsInjective(c: char, d: char)
    requires Units(c) == Units(d)
    ensures c == d
  {
    if c as int >= 0x1_0000 && d as int >= 0x1_0000 {
      var v, w := c as int - 0x1_0000, d as int - 0x1_0000;
      assert v / 0x400 == w / 0x400 && v % 0x400 == w % 0x400;
      assert v == 0x400 * (v / 0x400) + v % 0x400;
      assert w == 0x400 * (w / 0x400) + w % 0x400;
    } else {
      UnitsShape(c);
      UnitsShape(d);
    }
  }

  /** The UTF-16 code units of a string, as a Java `String` holds them. */
  function CodeUnits(s: string): seq<int> {
    if s == [] then [] else Units(s[0]) + CodeUnits(s[1..])
  }

  /** Different strings have different code units. */
  lemma {:induction false} CodeUnitsInjective(a: string, b: string)
    requires CodeUnits(a) == CodeUnits(b)
    ensures a == b
  {
    if a == [] || b == [] {
      if a != [] { UnitsShape(a[0]); }
      if b != [] { UnitsShape(b[0]); }
    } else {
      UnitsShape(a[0]);
      UnitsShape(b[0]);
      var ua, ub := Units(a[0]), Units(b[0]);
      var units := CodeUnits(a);
      assert units == ua + CodeUnits(a[1..]) && units == ub + CodeUnits(b[1..]);
      assert units[0] == ua[0] == ub[0];
      assert |ua| == |ub|;
      assert ua == units[..|ua|] == ub;
      UnitsInjective(a[0], b[0]);
      assert CodeUnits(a[1..]) == units[|ua|..] == CodeUnits(b[1..]);
      CodeUnitsInjective(a[1..], b[1..]);
      assert a == [a[0]] + a[1..] && b == [b[0]] + b[1..];
    }
  }

  /** Lexicographic order on code units, a proper prefix first. */
  predicate UnitsPrecede(a: seq<int>, b: seq<int>) {
    if a == [] then b != []
    else if b == [] then false
    else a[0] < b[0] || (a[0] == b[0] && UnitsPrecede(a[1..], b[1..]))
  }

  /** `a.compareTo(b) < 0`: Java compares the UTF-16 code units, not the characters. */
  predicate Precedes(a: string, b: string) {
    UnitsPrecede(CodeUnits(a), CodeUnits(b))
  }

  /** So a character above U+FFFF comes before U+FFFF, whose single code unit is
      larger than any high surrogate. */
  lemma SupplementaryBeforeLastBmp()
    ensures Precedes("\U{10000}", "\U{FFFF}")
    ensures '\U{10000}' > '\U{FFFF}'
  {
    assert CodeUnits("\U{10000}") == [0xD800, 0xDC00];
    assert CodeUnits("\U{FFFF}") == [0xFFFF];
  }

  lemma {:induction false} UnitsIrreflexive(a: seq<int>)
    ensures !UnitsPrecede(a, a)
  {
    if a != [] {
      UnitsIrreflexive(a[1..]);
    }
  }

  lemma {:induction false} UnitsTransitive(a: seq<int>, b: seq<int>, c: seq<int>)
    requires UnitsPrecede(a, b) && UnitsPrecede(b, c)
    ensures UnitsPrecede(a, c)
  {
    if a != [] && a[0] == b[0] && b[0] == c[0] {
      UnitsTransitive(a[1..], b[1..], c[1..]);
    }
  }

  lemma {:induction false} UnitsTotal(a: seq<int>, b: seq<int>)
    requires a != b
    ensures UnitsPrecede(a, b) || UnitsPrecede(b, a)
  {
    if a != [] && b != [] && a[0] == b[0] {
      assert a == [a[0]] + a[1..] && b == [b[0]] + b[1..];
      UnitsTotal(a[1..], b[1..]);
    }
  }

  lemma PrecedesIrreflexive(a: string)
    ensures !Precedes(a, a)
  {
    UnitsIrreflexive(CodeUnits(a));
  }

  lemma PrecedesTransitive(a: string, b: string, c: string)
    requires Precedes(a, b) && Precedes(b, c)
    ensures Precedes(a, c)
  {
    UnitsTransitive(CodeUnits(a), CodeUnits(b), CodeUnits(c));
  }

  /** Two different strings are always ordered one way or the other. */
  lemma PrecedesTotal(a: string, b: string)
    requires a != b
    ensures Precedes(a, b) || Precedes(b, a)
  {
    if CodeUnits(a) == CodeUnits(b) {
      CodeUnitsInjective(a, b);
    }
    UnitsTotal(CodeUnits(a), CodeUnits(b));
  }

  lemma PrecedesAsymmetric(a: string, b: string)
    requires Precedes(a, b)
    ensures !Precedes(b, a)
  {
    if Precedes(b, a) {
      PrecedesTransitive(a, b, a);
      PrecedesIrreflexive(a);
    }
  }
}
