/** String and sequence helpers standing in for the Python built-ins the
    source relies on: str.split, str.join, str.rstrip, the ASCII part of
    str.upper/lower/title/capitalize, sorted() on strings, MarkupSafe's escape,
    and duplicate-free lists. */
module Text {

  // ---------------------------------------------------------------------
  // Lists without repetition (Python lists guarded by `not in`, OrderedSet)
  // ---------------------------------------------------------------------

  predicate NoDup<T(==)>(s: seq<T>) {
    forall i, j :: 0 <= i < j < |s| ==> s[i] != s[j]
  }

  /** Appends `x` unless it is already present. */
  function AddUnique<T(==,!new)>(s: seq<T>, x: T): (r: seq<T>)
    ensures NoDup(s) ==> NoDup(r)
    ensures forall y :: y in r <==> y in s || y == x
    ensures |s| <= |r| && r[..|s|] == s
    ensures x in s ==> r == s
  {
    if x in s then s else s + [x]
  }

  /** Appends, in order, every element of `t` not yet present. */
  function Merge<T(==,!new)>(s: seq<T>, t: seq<T>): (r: seq<T>)
    ensures NoDup(s) ==> NoDup(r)
    ensures forall y :: y in r <==> y in s || y in t
    ensures |s| <= |r| && r[..|s|] == s
    decreases |t|
  {
    if t == [] then s else Merge(AddUnique(s, t[0]), t[1..])
  }

  /** First-seen-order deduplication (an OrderedSet built from a list). */
  function Dedup<T(==,!new)>(t: seq<T>): (r: seq<T>)
    ensures NoDup(r)
    ensures forall y :: y in r <==> y in t
  {
    Merge([], t)
  }

  /** Merging one more element is adding it when new. */
  lemma {:induction false} MergeSnoc<T(!new)>(s: seq<T>, t: seq<T>, x: T)
    ensures Merge(s, t + [x]) == AddUnique(Merge(s, t), x)
    decreases |t|
  {
    if t == [] {
      assert [x][1..] == [];
    } else {
      assert (t + [x])[0] == t[0] && (t + [x])[1..] == t[1..] + [x];
      MergeSnoc(AddUnique(s, t[0]), t[1..], x);
    }
  }

  /** An OrderedSet keeps each element at the place it was first seen. */
  lemma DedupSnoc<T(!new)>(t: seq<T>, x: T)
    ensures Dedup(t + [x]) == AddUnique(Dedup(t), x)
  {
    MergeSnoc([], t, x);
  }

  /** Position of the first occurrence of `x` in `s`. */
  function IndexOf<T(==,!new)>(s: seq<T>, x: T): (i: nat)
    requires x in s
    ensures i < |s| && s[i] == x && x !in s[..i]
  {
    if s[0] == x then 0 else 1 + IndexOf(s[1..], x)
  }

  // ---------------------------------------------------------------------
  // Text accumulated by a loop (`for x in xs: text += f(x)`)
  // ---------------------------------------------------------------------

  /** The rendering of every element of `s`, in order, one after another. */
  function Lines<T>(f: T -> string, s: seq<T>): string {
    if s == [] then "" else Lines(f, s[..|s| - 1]) + f(s[|s| - 1])
  }

  lemma {:induction false} LinesConcat<T>(f: T -> string, a: seq<T>, b: seq<T>)
    ensures Lines(f, a + b) == Lines(f, a) + Lines(f, b)
    decreases |b|
  {
    if b == [] {
      assert a + b == a;
    } else {
      var c := b[..|b| - 1];
      assert (a + b)[..|a + b| - 1] == a + c;
      LinesConcat(f, a, c);
    }
  }

  lemma LinesSnoc<T>(f: T -> string, s: seq<T>, x: T)
    ensures Lines(f, s + [x]) == Lines(f, s) + f(x)
  {
    assert (s + [x])[..|s|] == s;
  }

  lemma LinesTwo<T>(f: T -> string, x: T, y: T)
    ensures Lines(f, [x, y]) == f(x) + f(y)
  {
    assert [x, y][..1] == [x] && [x][..0] == [];
    assert Lines(f, [x]) == "" + f(x);
    assert "" + f(x) == f(x);
  }

  lemma AppendAssoc<T>(a: seq<T>, b: seq<T>, c: seq<T>)
    ensures a + (b + c) == (a + b) + c
  {
  }

  lemma IndexFront<T>(a: seq<T>, b: seq<T>, i: nat)
    requires i < |a|
    ensures (a + b)[i] == a[i]
  {
  }

  lemma TakeFront<T>(a: seq<T>, b: seq<T>)
    ensures |a + b| >= |a| && (a + b)[..|a|] == a
  {
  }

  lemma TakeWithin<T>(a: seq<T>, b: seq<T>, j: nat)
    requires j <= |a|
    ensures (a + b)[..j] == a[..j]
  {
  }

  /** Dropping the last element of `a + b`, for a non-empty `b`. */
  lemma DropLastAppend<T>(a: seq<T>, b: seq<T>)
    requires b != []
    ensures (a + b)[..|a + b| - 1] == a + b[..|b| - 1]
    ensures (a + b)[|a + b| - 1] == b[|b| - 1] && b[|b| - 1] in b
    ensures forall x :: x in a + b[..|b| - 1] ==> x in a + b
  {
    assert (a + b)[..|a + b| - 1] == a + b[..|b| - 1];
  }

  lemma TakeAll<T>(s: seq<T>)
    ensures s[..|s|] == s
  {
  }

  lemma AppendEmpty<T>(a: seq<T>, b: seq<T>)
    requires b == []
    ensures a + b == a
  {
  }

  /** The text ends in the last element's rendering. */
  lemma LinesLast<T>(f: T -> string, s: seq<T>)
    requires s != []
    ensures |Lines(f, s)| >= |f(s[|s| - 1])|
    ensures Lines(f, s)[|Lines(f, s)| - |f(s[|s| - 1])|..] == f(s[|s| - 1])
  {
  }

  /** The loop itself: appends the rendering of each element to `before`. */
  method AppendLines<T>(f: T -> string, before: string, s: seq<T>) returns (text: string)
    ensures text == before + Lines(f, s)
  {
    text := before;
    var j := 0;
    while j < |s|
      invariant 0 <= j <= |s|
      invariant text == before + Lines(f, s[..j])
    {
      assert s[..j + 1][..j] == s[..j];
      text := text + f(s[j]);
      j := j + 1;
    }
    assert s[..j] == s;
  }

  // ---------------------------------------------------------------------
  // Python's ordering of str values: lexicographic by code point
  // ---------------------------------------------------------------------

  predicate StrLe(a: string, b: string)
    decreases |a|
  {
    |a| == 0 || (|b| > 0 && (a[0] < b[0] || (a[0] == b[0] && StrLe(a[1..], b[1..]))))
  }

  lemma {:induction false} StrLeTotal(a: string, b: string)
    ensures StrLe(a, b) || StrLe(b, a)
    decreases |a|
  {
    if |a| > 0 && |b| > 0 && a[0] == b[0] {
      StrLeTotal(a[1..], b[1..]);
    }
  }

  lemma {:induction false} StrLeAntisymmetric(a: string, b: string)
    requires StrLe(a, b) && StrLe(b, a)
    ensures a == b
    decreases |a|
  {
    if |a| > 0 {
      StrLeAntisymmetric(a[1..], b[1..]);
      assert a == [a[0]] + a[1..] && b == [b[0]] + b[1..];
    }
  }

  lemma {:induction false} StrLeTransitive(a: string, b: string, c: string)
    requires StrLe(a, b) && StrLe(b, c)
    ensures StrLe(a, c)
    decreases |a|
  {
    if |a| > 0 && a[0] == b[0] && b[0] == c[0] {
      StrLeTransitive(a[1..], b[1..], c[1..]);
    }
  }

  predicate Sorted(s: seq<string>) {
    forall i, j :: 0 <= i < j < |s| ==> StrLe(s[i], s[j])
  }

  /** Inserts `x` into a sorted list before the first element it does not exceed. */
  function Insert(x: string, s: seq<string>): (r: seq<string>)
    requires Sorted(s)
    ensures Sorted(r)
    ensures multiset(r) == multiset(s) + multiset{x}
  {
    if s == [] then [x]
    else if StrLe(x, s[0]) then
      InsertFrontSorted(x, s);
      [x] + s
    else
      StrLeTotal(x, s[0]);
      var t := Insert(x, s[1..]);
      assert s == [s[0]] + s[1..];
      InsertBehindSorted(s[0], x, s[1..], t);
      [s[0]] + t
  }

  lemma InsertFrontSorted(x: string, s: seq<string>)
    requires Sorted(s) && s != [] && StrLe(x, s[0])
    ensures Sorted([x] + s)
  {
    forall j | 0 < j < |s| ensures StrLe(x, s[j]) {
      StrLeTransitive(x, s[0], s[j]);
    }
  }

  lemma InsertBehindSorted(h: string, x: string, rest: seq<string>, t: seq<string>)
    requires Sorted([h] + rest) && StrLe(h, x)
    requires Sorted(t) && multiset(t) == multiset(rest) + multiset{x}
    ensures Sorted([h] + t)
  {
    forall j | 0 <= j < |t| ensures StrLe(h, t[j]) {
      assert t[j] in multiset(t);
      if t[j] != x {
        assert t[j] in multiset(rest);
        var k :| 0 <= k < |rest| && rest[k] == t[j];
        var hr := [h] + rest;
        assert hr[0] == h && hr[k + 1] == t[j];
        assert StrLe(hr[0], hr[k + 1]);
      }
    }
    var ht := [h] + t;
    forall i, j | 0 <= i < j < |ht| ensures StrLe(ht[i], ht[j]) {
      if i > 0 {
        assert ht[i] == t[i - 1] && ht[j] == t[j - 1];
      }
    }
  }

  /** sorted() on a list of str: a sorted permutation of its input. */
  function Sort(s: seq<string>): (r: seq<string>)
    ensures Sorted(r)
    ensures multiset(r) == multiset(s)
  {
    if s == [] then []
    else
      assert s == [s[0]] + s[1..];
      Insert(s[0], Sort(s[1..]))
  }

  lemma {:induction false} NoDupCount<T>(a: seq<T>, v: T)
    requires NoDup(a)
    ensures multiset(a)[v] <= 1
  {
    if a != [] {
      assert a == [a[0]] + a[1..];
      assert NoDup(a[1..]);
      NoDupCount(a[1..], v);
      if v == a[0] {
        assert v !in a[1..];
      }
    }
  }

  /** A permutation of a duplicate-free list is duplicate-free. */
  lemma NoDupPermutation<T>(a: seq<T>, b: seq<T>)
    requires NoDup(a) && multiset(a) == multiset(b)
    ensures NoDup(b)
  {
    forall i, j | 0 <= i < j < |b| ensures b[i] != b[j] {
      if b[i] == b[j] {
        assert b == b[..i] + [b[i]] + b[i + 1..j] + [b[j]] + b[j + 1..];
        assert multiset(b)[b[i]] >= 2;
        NoDupCount(a, b[i]);
      }
    }
  }

  /** Sorting keeps the elements and keeps a duplicate-free list duplicate-free. */
  lemma SortKeepsElements(s: seq<string>)
    ensures forall y :: y in Sort(s) <==> y in s
    ensures NoDup(s) ==> NoDup(Sort(s))
  {
    var r := Sort(s);
    assert forall y :: y in r <==> y in multiset(r);
    if NoDup(s) {
      NoDupPermutation(s, r);
    }
  }

  /** Without repetitions, the tail holds every element but the head. */
  lemma TailMembers<T>(a: seq<T>)
    requires NoDup(a) && a != []
    ensures forall x :: x in a[1..] <==> x in a && x != a[0]
  {
    forall x | x in a[1..] ensures x != a[0] {
      var k :| 0 <= k < |a[1..]| && a[1..][k] == x;
      assert a[k + 1] == x;
    }
    forall x | x in a && x != a[0] ensures x in a[1..] {
      var k :| 0 <= k < |a| && a[k] == x;
      assert a[1..][k - 1] == x;
    }
  }

  lemma HeadIn<T>(b: seq<T>)
    requires b != []
    ensures b[0] in b
  {
  }

  /** A sorted list without repetitions is determined by its elements:
      `sorted(set)` does not depend on how the set was listed. */
  lemma {:induction false} SortedUnique(a: seq<string>, b: seq<string>)
    requires Sorted(a) && Sorted(b) && NoDup(a) && NoDup(b)
    requires forall x :: x in a <==> x in b
    ensures a == b
    decreases |a|
  {
    if a == [] {
      if b != [] {
        HeadIn(b);
        assert false;
      }
    } else {
      assert a[0] in a;
      assert b != [];
      assert b[0] in b;
      if a[0] != b[0] {
        var i :| 0 <= i < |a| && a[i] == b[0];
        var j :| 0 <= j < |b| && b[j] == a[0];
        assert StrLe(a[0], a[i]);
        assert StrLe(b[0], b[j]);
        StrLeAntisymmetric(a[0], b[0]);
      }
      TailMembers(a);
      TailMembers(b);
      SortedUnique(a[1..], b[1..]);
      assert a == [a[0]] + a[1..] && b == [b[0]] + b[1..];
    }
  }

  // ---------------------------------------------------------------------
  // str.split / str.join
  // ---------------------------------------------------------------------

  /** Python's left-to-right scan of str.split(sep): `cur` is the piece being built. */
  function SplitFrom(s: string, sep: string, cur: string): (r: seq<string>)
    requires |sep| > 0
    ensures |r| >= 1
    decreases |s|
  {
    if |s| < |sep| then [cur + s]
    else if s[..|sep|] == sep then [cur] + SplitFrom(s[|sep|..], sep, "")
    else SplitFrom(s[1..], sep, cur + [s[0]])
  }

  /** `s.split(sep)` for a non-empty separator (Python raises ValueError on ""). */
  function Split(s: string, sep: string): (r: seq<string>)
    requires |sep| > 0
    ensures |r| >= 1
  {
    SplitFrom(s, sep, "")
  }

  /** `sep.join(parts)` */
  function Join(parts: seq<string>, sep: string): string {
    if |parts| == 0 then ""
    else if |parts| == 1 then parts[0]
    else parts[0] + sep + Join(parts[1..], sep)
  }

  lemma {:induction false} JoinSplitFrom(s: string, sep: string, cur: string)
    requires |sep| > 0
    ensures Join(SplitFrom(s, sep, cur), sep) == cur + s
    decreases |s|
  {
    if |s| < |sep| {
    } else if s[..|sep|] == sep {
      JoinSplitFrom(s[|sep|..], sep, "");
      assert s == sep + s[|sep|..];
    } else {
      JoinSplitFrom(s[1..], sep, cur + [s[0]]);
      assert cur + [s[0]] + s[1..] == cur + s;
    }
  }

  /** Splitting and re-joining gives the key back, so distinct keys give distinct paths. */
  lemma JoinSplit(s: string, sep: string)
    requires |sep| > 0
    ensures Join(Split(s, sep), sep) == s
  {
    JoinSplitFrom(s, sep, "");
  }

  lemma SplitInjective(a: string, b: string, sep: string)
    requires |sep| > 0 && Split(a, sep) == Split(b, sep)
    ensures a == b
  {
    JoinSplit(a, sep);
    JoinSplit(b, sep);
  }

  lemma {:induction false} SplitFromCharCount(s: string, c: char, cur: string)
    ensures |SplitFrom(s, [c], cur)| > 1 <==> c in s
    decreases |s|
  {
    if |s| == 0 {
    } else if s[..1] == [c] {
      assert s[0] == c;
      assert |SplitFrom(s[1..], [c], "")| >= 1;
    } else {
      SplitFromCharCount(s[1..], c, cur + [s[0]]);
      assert s == [s[0]] + s[1..];
    }
  }

  /** `c in s` exactly when splitting on `c` yields more than one piece. */
  lemma SplitCharCount(s: string, c: char)
    ensures |Split(s, [c])| > 1 <==> c in s
  {
    SplitFromCharCount(s, c, "");
  }

  /** A piece that does not start a separator is copied into the current piece. */
  lemma {:induction false} SplitFromPlain(p: string, sep: string, cur: string)
    requires |sep| > 0 && sep[0] !in p
    ensures SplitFrom(p, sep, cur) == [cur + p]
    decreases |p|
  {
    if |p| < |sep| {
    } else {
      assert p[..|sep|][0] == p[0];
      SplitFromPlain(p[1..], sep, cur + [p[0]]);
      assert cur + [p[0]] + p[1..] == cur + p;
    }
  }

  /** Scanning `p + sep + rest` closes the piece `cur + p` at the separator. */
  lemma {:induction false} SplitFromPlainSep(p: string, rest: string, sep: string, cur: string)
    requires |sep| > 0 && sep[0] !in p
    ensures SplitFrom(p + sep + rest, sep, cur) == [cur + p] + SplitFrom(rest, sep, "")
    decreases |p|
  {
    var s := p + sep + rest;
    if p == [] {
      assert s == sep + rest;
      assert s[..|sep|] == sep && s[|sep|..] == rest;
      assert cur + p == cur;
      assert SplitFrom(s, sep, cur) == [cur] + SplitFrom(rest, sep, "");
    } else {
      assert s[..|sep|][0] == p[0];
      assert s[1..] == p[1..] + sep + rest;
      SplitFromPlainSep(p[1..], rest, sep, cur + [p[0]]);
      assert cur + [p[0]] + p[1..] == cur + p;
    }
  }

  /** Joining pieces free of the separator's first character and splitting
      again gives the pieces back. */
  lemma {:induction false} SplitJoin(parts: seq<string>, sep: string)
    requires |sep| > 0 && parts != []
    requires forall i :: 0 <= i < |parts| ==> sep[0] !in parts[i]
    ensures Split(Join(parts, sep), sep) == parts
    decreases |parts|
  {
    if |parts| == 1 {
      SplitFromPlain(parts[0], sep, "");
      assert "" + parts[0] == parts[0];
      assert parts == [parts[0]];
    } else {
      SplitFromPlainSep(parts[0], Join(parts[1..], sep), sep, "");
      SplitJoin(parts[1..], sep);
      assert Join(parts, sep) == parts[0] + sep + Join(parts[1..], sep);
      assert "" + parts[0] == parts[0];
      assert parts == [parts[0]] + parts[1..];
    }
  }

  lemma {:induction false} SplitFromNoSep(s: string, c: char, cur: string)
    requires c !in cur
    ensures forall w :: w in SplitFrom(s, [c], cur) ==> c !in w
    decreases |s|
  {
    if |s| < 1 {
    } else if s[..1] == [c] {
      SplitFromNoSep(s[1..], c, "");
    } else {
      assert s[0] != c;
      SplitFromNoSep(s[1..], c, cur + [s[0]]);
    }
  }

  /** No piece of `s.split(c)` contains `c`. */
  lemma SplitNoSep(s: string, c: char)
    ensures forall w :: w in Split(s, [c]) ==> c !in w
  {
    SplitFromNoSep(s, c, "");
  }

  /** Every character of a piece of `s.split(sep)` occurs in `s`. */
  lemma {:induction false} SplitFromChars(s: string, sep: string, cur: string)
    requires |sep| > 0
    ensures forall w, ch :: w in SplitFrom(s, sep, cur) && ch in w ==> ch in cur || ch in s
    decreases |s|
  {
    if |s| < |sep| {
    } else if s[..|sep|] == sep {
      SplitFromChars(s[|sep|..], sep, "");
      forall ch | ch in s[|sep|..] ensures ch in s { }
    } else {
      SplitFromChars(s[1..], sep, cur + [s[0]]);
      forall ch | ch in s[1..] ensures ch in s { }
    }
  }

  // ---------------------------------------------------------------------
  // Character case (ASCII letters only) and the str methods built on it
  // ---------------------------------------------------------------------

  predicate IsCased(c: char) {
    ('a' <= c <= 'z') || ('A' <= c <= 'Z')
  }

  function UpperChar(c: char): char {
    if 'a' <= c <= 'z' then (c as int - 32) as char else c
  }

  function LowerChar(c: char): char {
    if 'A' <= c <= 'Z' then (c as int + 32) as char else c
  }

  function Lower(s: string): (r: string)
    ensures |r| == |s| && forall i :: 0 <= i < |s| ==> r[i] == LowerChar(s[i])
  {
    if s == [] then [] else [LowerChar(s[0])] + Lower(s[1..])
  }

  /** str.capitalize(): first character upper-cased, the rest lower-cased. */
  function Capitalize(s: string): (r: string)
    ensures |r| == |s|
    ensures |s| > 0 ==> r[0] == UpperChar(s[0]) && r[1..] == Lower(s[1..])
  {
    if s == [] then [] else [UpperChar(s[0])] + Lower(s[1..])
  }

  /** Python's str.title() scan: a cased character is upper-cased when the
      character before it is not cased, lower-cased otherwise. */
  function TitleFrom(s: string, previousCased: bool): (r: string)
    ensures |r| == |s|
  {
    if s == [] then []
    else
      [if previousCased then LowerChar(s[0]) else UpperChar(s[0])]
      + TitleFrom(s[1..], IsCased(s[0]))
  }

  function Title(s: string): (r: string)
    ensures |r| == |s|
  {
    TitleFrom(s, false)
  }

  /** `s.replace(a, b)` for single characters. */
  function ReplaceChar(s: string, a: char, b: char): (r: string)
    ensures |r| == |s|
    ensures forall i :: 0 <= i < |s| ==> r[i] == (if s[i] == a then b else s[i])
  {
    if s == [] then [] else [if s[0] == a then b else s[0]] + ReplaceChar(s[1..], a, b)
  }

  /** Replacing the one occurrence of `a` in `p + [a] + q`. */
  lemma ReplaceOne(p: string, q: string, a: char, b: char)
    requires a !in p && a !in q
    ensures ReplaceChar(p + [a] + q, a, b) == p + [b] + q
  {
    var r := ReplaceChar(p + [a] + q, a, b);
    forall i | 0 <= i < |r| ensures r[i] == (p + [b] + q)[i] {
      if i < |p| {
        assert (p + [a] + q)[i] == p[i];
      } else if i > |p| {
        assert (p + [a] + q)[i] == q[i - |p| - 1];
      }
    }
  }

  /** Lower-casing text that has no upper-case letter changes nothing. */
  lemma LowerKeeps(s: string)
    requires forall i :: 0 <= i < |s| ==> !('A' <= s[i] <= 'Z')
    ensures Lower(s) == s
  {
  }

  /** Capitalizing a word that is already lower-case only upper-cases its first letter. */
  lemma CapitalizeLowerWord(c: char, s: string)
    requires forall i :: 0 <= i < |s| ==> !('A' <= s[i] <= 'Z')
    ensures Capitalize([c] + s) == [UpperChar(c)] + s
  {
    assert ([c] + s)[1..] == s;
    LowerKeeps(s);
  }

  // ---------------------------------------------------------------------
  // Trimming
  // ---------------------------------------------------------------------

  /** The characters Python's `str.isspace` accepts. */
  predicate IsSpace(c: char) {
    ('\t' <= c <= '\r') || ('\U{1C}' <= c <= ' ') || c == '\U{85}' || c == '\U{A0}' || c == '\U{1680}'
    || ('\U{2000}' <= c <= '\U{200A}') || c == '\U{2028}' || c == '\U{2029}' || c == '\U{202F}'
    || c == '\U{205F}' || c == '\U{3000}'
  }

  /** `s.rstrip()`: drops trailing whitespace. */
  function RStripSpace(s: string): (r: string)
    ensures |r| <= |s| && r == s[..|r|]
    ensures |r| > 0 ==> !IsSpace(r[|r| - 1])
    ensures forall i :: |r| <= i < |s| ==> IsSpace(s[i])
  {
    if |s| > 0 && IsSpace(s[|s| - 1]) then RStripSpace(s[..|s| - 1]) else s
  }

  /** Stripping `s + tail`, where `s` ends in a kept character and `tail` is whitespace, gives `s`. */
  lemma RStripSpaceKeeps(s: string, tail: string)
    requires |s| > 0 && !IsSpace(s[|s| - 1]) && forall i :: 0 <= i < |tail| ==> IsSpace(tail[i])
    ensures RStripSpace(s + tail) == s
  {
    var r := RStripSpace(s + tail);
    assert (s + tail)[|s| - 1] == s[|s| - 1];
    assert forall i :: |s| <= i < |s + tail| ==> (s + tail)[i] == tail[i - |s|];
    assert r == (s + tail)[..|s|];
  }

  /** `s.rstrip(chars)`: drops trailing characters that occur in `chars`. */
  function RStrip(s: string, chars: string): (r: string)
    ensures |r| <= |s| && r == s[..|r|]
    ensures |r| > 0 ==> r[|r| - 1] !in chars
    ensures forall i :: |r| <= i < |s| ==> s[i] in chars
  {
    if |s| > 0 && s[|s| - 1] in chars then RStrip(s[..|s| - 1], chars) else s
  }

  /** `s[:-1]`: everything but the last character ("" stays ""). */
  function DropLast(s: string): (r: string)
    ensures |s| > 0 ==> r + [s[|s| - 1]] == s
    ensures |s| == 0 ==> r == ""
  {
    if |s| == 0 then "" else s[..|s| - 1]
  }

  // ---------------------------------------------------------------------
  // MarkupSafe escaping, as applied by Jinja2's autoescape to {{ }} values
  // ---------------------------------------------------------------------

  predicate IsSpecial(c: char) {
    c == '&' || c == '<' || c == '>' || c == '\'' || c == '"'
  }

  function EscapeChar(c: char): (r: string)
    ensures !IsSpecial(c) ==> r == [c]
  {
    if c == '&' then "&amp;"
    else if c == '<' then "&lt;"
    else if c == '>' then "&gt;"
    else if c == '\'' then "&#39;"
    else if c == '"' then "&#34;"
    else [c]
  }

  function Escape(s: string): (r: string)
    ensures |r| >= |s|
  {
    if s == [] then [] else EscapeChar(s[0]) + Escape(s[1..])
  }

  lemma {:induction false} EscapeAppend(a: string, b: string)
    ensures Escape(a + b) == Escape(a) + Escape(b)
    decreases |a|
  {
    if a != [] {
      assert (a + b)[0] == a[0] && (a + b)[1..] == a[1..] + b;
      assert Escape(a + b) == EscapeChar(a[0]) + Escape(a[1..] + b);
      EscapeAppend(a[1..], b);
      AppendAssoc(EscapeChar(a[0]), Escape(a[1..]), Escape(b));
    } else {
      assert a + b == b;
    }
  }

  /** Text without any of the five special characters is left as it is. */
  lemma {:induction false} EscapePlain(s: string)
    requires forall i :: 0 <= i < |s| ==> !IsSpecial(s[i])
    ensures Escape(s) == s
    decreases |s|
  {
    if s != [] {
      EscapePlain(s[1..]);
      assert s == [s[0]] + s[1..];
    }
  }
}
