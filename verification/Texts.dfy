/** Octet strings as names: searching, splitting and ordering, as Go's strings and sort packages do it. */
module Texts {
  import opened Bytes

  const SLASH: byte := 0x2F
  const DOT: byte := 0x2E
  const DOLLAR: byte := 0x24

  // ---- Searching and splitting ----

  /** strings.IndexByte: the first occurrence. */
  function IndexOf(s: Text, c: byte): (r: Option<nat>)
    ensures r.Some? ==> r.value < |s| && s[r.value] == c && c !in s[..r.value]
    ensures r.None? ==> c !in s
  {
    if s == [] then None
    else if s[0] == c then Some(0)
    else
      match IndexOf(s[1..], c)
      case None => None
      case Some(k) =>
        assert s[..k + 1] == [s[0]] + s[1..][..k];
        Some(k + 1)
  }

  lemma {:induction false} IndexOfPrefix(a: Text, c: byte, b: Text)
    requires c !in a
    ensures IndexOf(a + [c] + b, c) == Some(|a|)
  {
    var s := a + [c] + b;
    if a != [] {
      IndexOfPrefix(a[1..], c, b);
      assert s[0] == a[0] && s[1..] == a[1..] + [c] + b;
    }
  }

  /** strings.ReplaceAll for single octets. */
  function Replace(s: Text, from: byte, to: byte): (r: Text)
    ensures |r| == |s|
    ensures forall i :: 0 <= i < |s| ==> r[i] == if s[i] == from then to else s[i]
  {
    seq(|s|, i requires 0 <= i < |s| => if s[i] == from then to else s[i])
  }

  /** strings.Split for a one-octet separator. */
  function Split(s: Text, sep: byte): (parts: seq<Text>)
    ensures |parts| >= 1
    decreases |s|
  {
    match IndexOf(s, sep)
    case None => [s]
    case Some(k) => [s[..k]] + Split(s[k + 1..], sep)
  }

  /** strings.Join. */
  function Join(parts: seq<Text>, sep: byte): Text
    requires |parts| >= 1
  {
    if |parts| == 1 then parts[0] else parts[0] + [sep] + Join(parts[1..], sep)
  }

  predicate Free(parts: seq<Text>, c: byte) {
    forall p :: p in parts ==> c !in p
  }

  lemma {:induction false} SplitInvertsJoin(parts: seq<Text>, sep: byte)
    requires |parts| >= 1 && Free(parts, sep)
    ensures Split(Join(parts, sep), sep) == parts
    decreases |parts|
  {
    var s := Join(parts, sep);
    assert parts[0] in parts;
    if |parts| == 1 {
      assert IndexOf(s, sep).None?;
    } else {
      var rest := Join(parts[1..], sep);
      IndexOfPrefix(parts[0], sep, rest);
      assert s[..|parts[0]|] == parts[0] && s[|parts[0]| + 1..] == rest;
      SplitInvertsJoin(parts[1..], sep);
    }
  }

  lemma {:induction false} JoinInvertsSplit(s: Text, sep: byte)
    ensures Join(Split(s, sep), sep) == s && Free(Split(s, sep), sep)
    decreases |s|
  {
    match IndexOf(s, sep)
    case None =>
    case Some(k) =>
      var rest := Split(s[k + 1..], sep);
      JoinInvertsSplit(s[k + 1..], sep);
      assert Split(s, sep)[1..] == rest;
      assert s == s[..k] + [sep] + s[k + 1..];
  }

  /** Replacing the separator of a joined list joins it with the other octet. */
  lemma {:induction false} ReplaceJoin(parts: seq<Text>, from: byte, to: byte)
    requires |parts| >= 1 && Free(parts, from)
    ensures Replace(Join(parts, from), from, to) == Join(parts, to)
    decreases |parts|
  {
    assert parts[0] in parts;
    if |parts| > 1 {
      ReplaceJoin(parts[1..], from, to);
      var a, b := Join(parts, from), parts[0] + [to] + Replace(Join(parts[1..], from), from, to);
      assert |Replace(a, from, to)| == |b|;
      forall i | 0 <= i < |a| ensures Replace(a, from, to)[i] == b[i] {
        if i > |parts[0]| {
          assert a[i] == Join(parts[1..], from)[i - |parts[0]| - 1];
        }
      }
    }
  }

  lemma ReplaceAbsent(s: Text, from: byte, to: byte)
    requires from !in s
    ensures Replace(s, from, to) == s
  {
  }

  lemma {:induction false} JoinFree(parts: seq<Text>, sep: byte, c: byte)
    requires |parts| >= 1 && Free(parts, c) && c != sep
    ensures c !in Join(parts, sep)
    decreases |parts|
  {
    assert parts[0] in parts;
    if |parts| > 1 {
      JoinFree(parts[1..], sep, c);
    }
  }

  lemma {:induction false} JoinSnoc(parts: seq<Text>, sep: byte, last: Text)
    requires |parts| >= 1
    ensures Join(parts + [last], sep) == Join(parts, sep) + [sep] + last
    decreases |parts|
  {
    if |parts| > 1 {
      JoinSnoc(parts[1..], sep, last);
      assert (parts + [last])[1..] == parts[1..] + [last];
      assert parts[0] + [sep] + (Join(parts[1..], sep) + [sep] + last)
          == (parts[0] + [sep] + Join(parts[1..], sep)) + [sep] + last;
    } else {
      assert (parts + [last])[1..] == [last];
    }
  }

  // ---- Ordering ----

  /** Go's `<` on strings. */
  predicate Less(a: Text, b: Text) {
    b != [] && (a == [] || a[0] < b[0] || (a[0] == b[0] && Less(a[1..], b[1..])))
  }

  lemma {:induction false} LessTotal(a: Text, b: Text)
    ensures Less(a, b) || a == b || Less(b, a)
    ensures !(Less(a, b) && Less(b, a)) && !Less(a, a)
    decreases |a|
  {
    if a != [] {
      LessTotal(a[1..], a[1..]);
      if b != [] && a[0] == b[0] {
        LessTotal(a[1..], b[1..]);
        assert a == [a[0]] + a[1..] && b == [b[0]] + b[1..];
      }
    }
  }

  lemma {:induction false} LessTransitive(a: Text, b: Text, c: Text)
    requires Less(a, b) && Less(b, c)
    ensures Less(a, c)
    decreases |a|
  {
    if a != [] && a[0] == b[0] == c[0] {
      LessTransitive(a[1..], b[1..], c[1..]);
    }
  }

  /** Strictly increasing, so also free of duplicates. */
  predicate Increasing(s: seq<Text>) {
    forall i, j :: 0 <= i < j < |s| ==> Less(s[i], s[j])
  }

  predicate Ascending(s: seq<Text>) {
    forall i, j :: 0 <= i < j < |s| ==> !Less(s[j], s[i])
  }

  predicate Distinct<T(==)>(s: seq<T>) {
    forall i, j :: 0 <= i < j < |s| ==> s[i] != s[j]
  }

  // ---- Sorting ----

  function Insert(x: Text, xs: seq<Text>): seq<Text> {
    if xs == [] || !Less(xs[0], x) then [x] + xs else [xs[0]] + Insert(x, xs[1..])
  }

  /** sort.Strings. */
  function Sort(xs: seq<Text>): seq<Text> {
    if xs == [] then [] else Insert(xs[0], Sort(xs[1..]))
  }

  lemma AscendingCons(x: Text, xs: seq<Text>)
    requires Ascending(xs) && (xs == [] || !Less(xs[0], x))
    ensures Ascending([x] + xs)
  {
    hide Less;
    var r := [x] + xs;
    forall i, j | 0 <= i < j < |r| ensures !Less(r[j], r[i]) {
      if i == 0 && j > 1 {
        Below(x, xs[0], xs[j - 1]);
      }
    }
  }

  lemma {:induction false} InsertSorts(x: Text, xs: seq<Text>)
    requires Ascending(xs)
    ensures Ascending(Insert(x, xs)) && multiset(Insert(x, xs)) == multiset(xs) + multiset{x}
    ensures xs != [] ==> Insert(x, xs)[0] == if Less(xs[0], x) then xs[0] else x
  {
    hide Less;
    hide Ascending;
    if xs == [] || !Less(xs[0], x) {
      AscendingCons(x, xs);
    } else {
      assert xs == [xs[0]] + xs[1..];
      AscendingTail(xs);
      InsertSorts(x, xs[1..]);
      LessTotal(xs[0], x);
      AscendingCons(xs[0], Insert(x, xs[1..]));
    }
  }

  lemma AscendingTail(xs: seq<Text>)
    requires xs != [] && Ascending(xs)
    ensures Ascending(xs[1..]) && (|xs| > 1 ==> !Less(xs[1], xs[0]))
  {
    hide Less;
  }

  lemma Below(a: Text, b: Text, c: Text)
    requires !Less(b, a) && !Less(c, b)
    ensures !Less(c, a)
  {
    LessTotal(a, b);
    LessTotal(b, c);
    if Less(c, a) {
      if b != c {
        LessTransitive(b, c, a);
      }
    }
  }

  lemma {:induction false} SortSorts(xs: seq<Text>)
    ensures Ascending(Sort(xs)) && multiset(Sort(xs)) == multiset(xs)
  {
    if xs != [] {
      SortSorts(xs[1..]);
      InsertSorts(xs[0], Sort(xs[1..]));
      assert xs == [xs[0]] + xs[1..];
    }
  }

  lemma {:induction false} DistinctCounts<T>(s: seq<T>)
    ensures Distinct(s) <==> forall x :: multiset(s)[x] <= 1
    decreases |s|
  {
    if Distinct(s) {
      if s != [] {
        DistinctCounts(s[1..]);
        assert s == [s[0]] + s[1..];
        assert s[0] !in s[1..];
      }
    } else {
      var i, j :| 0 <= i < j < |s| && s[i] == s[j];
      assert s == s[..j] + s[j..];
      assert s[..j][i] in multiset(s[..j]) && s[j..][0] in multiset(s[j..]);
      assert multiset(s)[s[i]] >= 2;
    }
  }

  /** Sorting a list without duplicates leaves a strictly increasing list of the same names. */
  lemma SortDistinct(xs: seq<Text>)
    requires Distinct(xs)
    ensures Increasing(Sort(xs)) && forall x :: x in Sort(xs) <==> x in xs
  {
    hide Sort;
    hide Less;
    SortSorts(xs);
    DistinctCounts(xs);
    DistinctCounts(Sort(xs));
    var r := Sort(xs);
    forall i, j | 0 <= i < j < |r| ensures Less(r[i], r[j]) {
      LessTotal(r[i], r[j]);
    }
    forall x ensures x in r <==> x in xs {
      assert x in multiset(r) <==> x in multiset(xs);
    }
  }

  /** A strictly increasing list is determined by its members. */
  lemma {:induction false} IncreasingUnique(a: seq<Text>, b: seq<Text>)
    requires Increasing(a) && Increasing(b) && forall x :: x in a <==> x in b
    ensures a == b
    decreases |a|
  {
    hide Less;
    assert a != [] ==> a[0] in b;
    assert b != [] ==> b[0] in a;
    if a != [] {
      var i :| 0 <= i < |b| && b[i] == a[0];
      var j :| 0 <= j < |a| && a[j] == b[0];
      LessTotal(a[0], b[0]);
      assert a[0] == b[0];
      forall x ensures x in a[1..] <==> x in b[1..] {
        TailMembers(a, x);
        TailMembers(b, x);
      }
      IncreasingUnique(a[1..], b[1..]);
    }
  }

  lemma TailMembers(a: seq<Text>, x: Text)
    requires a != [] && Increasing(a)
    ensures x in a[1..] <==> x in a && x != a[0]
  {
    hide Less;
    LessTotal(a[0], a[0]);
    if x in a && x != a[0] {
      var i :| 0 <= i < |a| && a[i] == x;
      assert a[1..][i - 1] == x;
    }
  }

  /** Whatever order a set of names is collected in, sorting it gives the same list. */
  lemma SortIgnoresOrder(a: seq<Text>, b: seq<Text>)
    requires Distinct(a) && Distinct(b) && forall x :: x in a <==> x in b
    ensures Sort(a) == Sort(b)
  {
    SortDistinct(a);
    SortDistinct(b);
    IncreasingUnique(Sort(a), Sort(b));
  }
}
