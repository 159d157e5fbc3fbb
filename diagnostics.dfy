/** The diagnostic text of a failed feature resolution: a `TreeSet` of strings (sorted
    by `String.compareTo`, duplicates dropped) rendered by the mojo's
    `toString(Collection)` as an indented block in braces. */
module Diagnostics {
  import opened Wrappers
  import opened JavaStrings

  /** Ascending without repeats: the iteration order of a `TreeSet<String>`. */
  predicate StrictlySorted(s: seq<string>) {
    forall i, j :: 0 <= i < j < |s| ==> Precedes(s[i], s[j])
  }

  lemma PrependSorted(x: string, s: seq<string>)
    requires StrictlySorted(s)
    requires s == [] || Precedes(x, s[0])
    ensures StrictlySorted([x] + s)
  {
    var r := [x] + s;
    forall i, j | 0 <= i < j < |r| ensures Precedes(r[i], r[j]) {
      if i == 0 && j > 1 {
        PrecedesTransitive(x, s[0], s[j - 1]);
      }
    }
  }

  /** `TreeSet.add`: `x` takes its place in the order, unless it is there already. */
  function Insert(sorted: seq<string>, x: string): (r: seq<string>)
    requires StrictlySorted(sorted)
    ensures StrictlySorted(r)
    ensures forall y :: y in r <==> y in sorted || y == x
  {
    if sorted == [] then [x]
    else if x == sorted[0] then sorted
    else if Precedes(x, sorted[0]) then
      PrependSorted(x, sorted);
      [x] + sorted
    else
      PrecedesTotal(x, sorted[0]);
      var tail := Insert(sorted[1..], x);
      assert tail == [] || tail[0] in sorted[1..] || tail[0] == x;
      PrependSorted(sorted[0], tail);
      [sorted[0]] + tail
  }

  /** The sorted enumeration of a set of strings, as the specification of a TreeSet. */
  ghost function SortedSeq(items: set<string>): (r: seq<string>)
    ensures StrictlySorted(r)
    ensures forall y :: y in r <==> y in items
    decreases items
  {
    if items == {} then []
    else
      var x :| x in items;
      Insert(SortedSeq(items - {x}), x)
  }

  /** There is only one ascending, repeat-free enumeration of a set. */
  lemma {:induction false} SortedUnique(a: seq<string>, b: seq<string>)
    requires StrictlySorted(a) && StrictlySorted(b)
    requires forall y :: y in a <==> y in b
    ensures a == b
  {
    if a != [] || b != [] {
      assert (a + b)[0] in a + b;
      var x :| x in a + b;
      assert x in a && x in b;
      assert a[0] in b;
      assert b[0] in a;
      if a[0] != b[0] {
        var i :| 0 <= i < |a| && a[i] == b[0];
        var j :| 0 <= j < |b| && b[j] == a[0];
        assert i > 0 && j > 0;
        assert Precedes(a[0], b[0]) && Precedes(b[0], a[0]);
        PrecedesAsymmetric(a[0], b[0]);
      }
      forall y ensures y in a[1..] <==> y in b[1..] {
        if y in a[1..] {
          var i :| 1 <= i < |a| && a[i] == y;
          if y == b[0] { PrecedesIrreflexive(y); }
          assert y in b && y != b[0];
        }
        if y in b[1..] {
          var j :| 1 <= j < |b| && b[j] == y;
          if y == a[0] { PrecedesIrreflexive(y); }
          assert y in a && y != a[0];
        }
      }
      SortedUnique(a[1..], b[1..]);
      assert a == [a[0]] + a[1..] && b == [b[0]] + b[1..];
    }
  }

  /** `new TreeSet<>(items)`, then iterated: each element is added in turn. */
  method SortedElements(items: set<string>) returns (r: seq<string>)
    ensures StrictlySorted(r)
    ensures forall y :: y in r <==> y in items
    ensures r == SortedSeq(items)
  {
    r := [];
    var rest := items;
    while rest != {}
      invariant rest <= items
      invariant StrictlySorted(r)
      invariant forall y :: y in r <==> y in items && y !in rest
      decreases rest
    {
      var x :| x in rest;
      r := Insert(r, x);
      rest := rest - {x};
    }
    SortedUnique(r, SortedSeq(items));
  }

  // ---------------------------------------------------------------------------
  // toString(Collection)
  // ---------------------------------------------------------------------------

  /** One tab-indented, newline-terminated line per element. */
  function Lines(items: seq<string>): string {
    if items == [] then "" else "\t" + items[0] + "\n" + Lines(items[1..])
  }

  /** The text `toString(collection)` returns for elements iterated in this order. */
  function Listing(items: seq<string>): string {
    "{\n" + Lines(items) + "}"
  }

  lemma {:induction false} LinesAppend(items: seq<string>, x: string)
    ensures Lines(items + [x]) == Lines(items) + "\t" + x + "\n"
  {
    if items == [] {
      assert [x][1..] == [];
    } else {
      assert (items + [x])[1..] == items[1..] + [x];
      LinesAppend(items[1..], x);
    }
  }

  /** The StringBuilder loop of `toString(Collection)`. */
  method CollectionToString(items: seq<string>) returns (text: string)
    ensures text == Listing(items)
  {
    text := "{\n";
    for i := 0 to |items|
      invariant text == "{\n" + Lines(items[..i])
    {
      LinesAppend(items[..i], items[i]);
      assert items[..i + 1] == items[..i] + [items[i]];
      text := text + "\t" + items[i] + "\n";
    }
    assert items[..|items|] == items;
    text := text + "}";
  }

  /** Reading a listing back: the lines between the braces, each without its tab. */
  function ParseListing(text: string): Option<seq<string>> {
    if |text| >= 3 && text[..2] == "{\n" && text[|text| - 1] == '}' then
      var pieces := Split(text[2..|text| - 1], '\n');
      var n := |pieces| - 1;
      if pieces[n] == "" && forall i :: 0 <= i < n ==> |pieces[i]| >= 1 && pieces[i][0] == '\t'
      then Some(seq(n, i requires 0 <= i < n && |pieces[i]| >= 1 => pieces[i][1..]))
      else None
    else None
  }

  /** The elements behind their tabs. */
  function Tabbed(items: seq<string>): (lines: seq<string>)
    ensures |lines| == |items|
    ensures forall i :: 0 <= i < |items| ==> lines[i] == "\t" + items[i]
  {
    seq(|items|, i requires 0 <= i < |items| => "\t" + items[i])
  }

  lemma {:induction false} SplitLines(items: seq<string>)
    requires forall i :: 0 <= i < |items| ==> '\n' !in items[i]
    ensures Split(Lines(items), '\n') == Tabbed(items) + [""]
  {
    if items != [] {
      var first := "\t" + items[0];
      assert '\n' !in first by {
        assert forall c :: c in first ==> c == '\t' || c in items[0];
      }
      SplitLines(items[1..]);
      assert Lines(items) == first + ['\n'] + Lines(items[1..]);
      SplitAppend(first, Lines(items[1..]), '\n');
      SplitNoSeparator(first, '\n');
      assert Tabbed(items) == [first] + Tabbed(items[1..]);
    }
  }

  /** The listing of elements without line breaks reads back as those elements, in
      order: the diagnostic names every element and nothing else. */
  lemma ListingRoundTrip(items: seq<string>)
    requires forall i :: 0 <= i < |items| ==> '\n' !in items[i]
    ensures ParseListing(Listing(items)) == Some(items)
  {
    var text := Listing(items);
    assert text[..2] == "{\n";
    assert text[2..|text| - 1] == Lines(items);
    SplitLines(items);
    var pieces := Tabbed(items) + [""];
    assert Split(text[2..|text| - 1], '\n') == pieces;
    var n := |pieces| - 1;
    assert n == |items| && pieces[n] == "";
    assert forall i :: 0 <= i < n ==> |pieces[i]| >= 1 && pieces[i][0] == '\t';
    var parsed := seq(n, i requires 0 <= i < n && |pieces[i]| >= 1 => pieces[i][1..]);
    assert ParseListing(text) == Some(parsed);
    forall i | 0 <= i < n ensures parsed[i] == items[i] {
      assert pieces[i] == "\t" + items[i];
    }
    assert parsed == items;
  }
}
