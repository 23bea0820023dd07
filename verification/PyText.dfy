/** Python's string order, `sorted(..., key=...)`, `dict.fromkeys` and `str.join`, as used by several components. */
module PyText {

  // ---------------------------------------------------------------- order on strings

  /** Python compares strings code point by code point. */
  predicate StrLeq(a: string, b: string) {
    a == [] || (b != [] && (a[0] < b[0] || (a[0] == b[0] && StrLeq(a[1..], b[1..]))))
  }

  lemma {:induction false} StrLeqTotal(a: string, b: string)
    ensures StrLeq(a, b) || StrLeq(b, a)
    ensures StrLeq(a, b) && StrLeq(b, a) ==> a == b
  {
    if a != [] && b != [] && a[0] == b[0] {
      StrLeqTotal(a[1..], b[1..]);
      assert a == [a[0]] + a[1..] && b == [b[0]] + b[1..];
    }
  }

  lemma {:induction false} StrLeqTransitive(a: string, b: string, c: string)
    requires StrLeq(a, b) && StrLeq(b, c)
    ensures StrLeq(a, c)
  {
    if a != [] && a[0] == b[0] && b[0] == c[0] {
      StrLeqTransitive(a[1..], b[1..], c[1..]);
    }
  }

  /** One is a front of the other, or they part at a smaller character. */
  lemma {:induction false} StrLeqExactly(a: string, b: string)
    ensures StrLeq(a, b) <==>
            a <= b || exists k | 0 <= k < |a| && k < |b| :: a[..k] == b[..k] && a[k] < b[k]
  {
    if a == [] || b == [] { return; }
    var u, v := a[1..], b[1..];
    StrLeqExactly(u, v);
    if a[0] < b[0] {
      assert a[..0] == b[..0];
    } else if a[0] == b[0] {
      assert a == [a[0]] + u && b == [b[0]] + v;
      if k :| 0 <= k < |u| && k < |v| && u[..k] == v[..k] && u[k] < v[k] {
        assert a[..k + 1] == [a[0]] + u[..k] && b[..k + 1] == [b[0]] + v[..k];
      }
      if k :| 0 <= k < |a| && k < |b| && a[..k] == b[..k] && a[k] < b[k] {
        assert k > 0 && u[..k - 1] == a[..k][1..] && v[..k - 1] == b[..k][1..];
        assert u[k - 1] < v[k - 1];
      }
    } else {
      assert forall k | 0 < k < |a| && k < |b| :: a[..k][0] != b[..k][0];
    }
  }

  // ---------------------------------------------------------------- stable sort by a string key

  ghost predicate SortedBy<T(!new)>(key: T -> string, s: seq<T>) {
    forall i, j :: 0 <= i < j < |s| ==> StrLeq(key(s[i]), key(s[j]))
  }

  function InsertBy<T>(key: T -> string, x: T, s: seq<T>): seq<T> {
    if s == [] then [x]
    else if StrLeq(key(x), key(s[0])) then [x] + s
    else [s[0]] + InsertBy(key, x, s[1..])
  }

  /** Python's `sorted(s, key=key)`: equal keys keep their order. */
  function SortBy<T>(key: T -> string, s: seq<T>): seq<T> {
    if s == [] then [] else InsertBy(key, s[0], SortBy(key, s[1..]))
  }

  lemma {:induction false} InsertByContents<T>(key: T -> string, x: T, s: seq<T>)
    ensures multiset(InsertBy(key, x, s)) == multiset([x] + s)
    ensures |InsertBy(key, x, s)| == |s| + 1
  {
    if s != [] {
      assert s == [s[0]] + s[1..];
      InsertByContents(key, x, s[1..]);
    }
  }

  lemma {:induction false} InsertBySorted<T(!new)>(key: T -> string, x: T, s: seq<T>)
    requires SortedBy(key, s)
    ensures SortedBy(key, InsertBy(key, x, s))
  {
    if s == [] {
    } else if StrLeq(key(x), key(s[0])) {
      forall i | 0 <= i < |s| ensures StrLeq(key(x), key(s[i])) {
        if i > 0 { StrLeqTransitive(key(x), key(s[0]), key(s[i])); }
      }
    } else {
      StrLeqTotal(key(x), key(s[0]));
      var rest := InsertBy(key, x, s[1..]);
      InsertBySorted(key, x, s[1..]);
      InsertByContents(key, x, s[1..]);
      forall i | 0 <= i < |rest| ensures StrLeq(key(s[0]), key(rest[i])) {
        assert rest[i] in multiset(rest);
        assert rest[i] in multiset([x] + s[1..]);
      }
    }
  }

  /** Sorting permutes and orders. */
  lemma {:induction false} SortByCorrect<T(!new)>(key: T -> string, s: seq<T>)
    ensures multiset(SortBy(key, s)) == multiset(s)
    ensures |SortBy(key, s)| == |s|
    ensures SortedBy(key, SortBy(key, s))
  {
    if s != [] {
      assert s == [s[0]] + s[1..];
      SortByCorrect(key, s[1..]);
      InsertByContents(key, s[0], SortBy(key, s[1..]));
      InsertBySorted(key, s[0], SortBy(key, s[1..]));
    }
  }

  /** The elements with the given key, in order. */
  function KeyedBy<T>(key: T -> string, k: string, s: seq<T>): seq<T> {
    if s == [] then [] else (if key(s[0]) == k then [s[0]] else []) + KeyedBy(key, k, s[1..])
  }

  lemma {:induction false} InsertByStable<T>(key: T -> string, k: string, x: T, s: seq<T>)
    ensures KeyedBy(key, k, InsertBy(key, x, s)) == KeyedBy(key, k, [x] + s)
  {
    if s == [] {
      assert [x] + s == [x];
    } else if !StrLeq(key(x), key(s[0])) {
      StrLeqTotal(key(x), key(x));
      var y, tail := s[0], s[1..];
      assert s == [y] + tail && key(x) != key(y);
      InsertByStable(key, k, x, tail);
      hide *;
      KeyedSwap(key, k, x, y, tail, InsertBy(key, x, tail));
    }
  }

  /** Two elements with different keys may change places. */
  lemma KeyedSwap<T>(key: T -> string, k: string, x: T, y: T, tail: seq<T>, more: seq<T>)
    requires key(x) != key(y) && KeyedBy(key, k, more) == KeyedBy(key, k, [x] + tail)
    ensures KeyedBy(key, k, [y] + more) == KeyedBy(key, k, [x] + ([y] + tail))
  {
    KeyedCons(key, k, y, more);
    KeyedCons(key, k, x, tail);
    KeyedCons(key, k, y, tail);
    KeyedCons(key, k, x, [y] + tail);
    hide *;
  }

  lemma KeyedCons<T>(key: T -> string, k: string, x: T, s: seq<T>)
    ensures KeyedBy(key, k, [x] + s) == (if key(x) == k then [x] else []) + KeyedBy(key, k, s)
  {
    assert ([x] + s)[1..] == s;
  }

  /** Elements with equal keys keep their order. */
  lemma {:induction false} SortIsStable<T>(key: T -> string, k: string, s: seq<T>)
    ensures KeyedBy(key, k, SortBy(key, s)) == KeyedBy(key, k, s)
  {
    if s != [] {
      SortIsStable(key, k, s[1..]);
      var rest := SortBy(key, s[1..]);
      InsertByStable(key, k, s[0], rest);
      assert ([s[0]] + rest)[1..] == rest;
    }
  }

  lemma SortByMembers<T(!new)>(key: T -> string, s: seq<T>)
    ensures forall x :: x in SortBy(key, s) <==> x in s
  {
    SortByCorrect(key, s);
    forall x ensures x in SortBy(key, s) <==> x in s {
      assert x in multiset(SortBy(key, s)) <==> x in multiset(s);
    }
  }

  predicate Distinct<T(==)>(s: seq<T>) {
    forall i, j :: 0 <= i < j < |s| ==> s[i] != s[j]
  }

  ghost predicate StrictlySorted(s: seq<string>) {
    Distinct(s) && forall i, j :: 0 <= i < j < |s| ==> StrLeq(s[i], s[j])
  }

  /** In a permutation the last element stands somewhere; without it the rests are permutations again. */
  lemma TakeOutLast<T>(s: seq<T>, t: seq<T>) returns (i: nat)
    requires s != [] && multiset(s) == multiset(t)
    ensures i < |t| && t[i] == s[|s| - 1] && multiset(s[..|s| - 1]) == multiset(t[..i] + t[i + 1..])
  {
    var n := |s| - 1;
    assert s[n] in multiset(t);
    i :| 0 <= i < |t| && t[i] == s[n];
    WithoutOne(s, n);
    WithoutOne(t, i);
    assert s[..n] + s[n + 1..] == s[..n];
  }

  lemma WithoutOne<T>(s: seq<T>, i: nat)
    requires i < |s|
    ensures multiset(s[..i] + s[i + 1..]) == multiset(s) - multiset{s[i]}
  {
    assert s == s[..i] + [s[i]] + s[i + 1..];
  }

  lemma HeadIsMember<T>(s: seq<T>)
    requires s != []
    ensures exists x :: x in s
  {
    assert s[0] in s;
  }

  /** A strictly sorted list of strings is determined by its set of elements. */
  lemma {:induction false} StrictlySortedUnique(s: seq<string>, t: seq<string>)
    requires StrictlySorted(s) && StrictlySorted(t)
    requires forall x :: x in s <==> x in t
    ensures s == t
  {
    if s == [] {
      if t != [] { HeadIsMember(t); }
    } else {
      assert s[0] in t && t != [];
      assert t[0] in s;
      StrLeqTotal(s[0], t[0]);
      var i :| 0 <= i < |t| && t[i] == s[0];
      var j :| 0 <= j < |s| && s[j] == t[0];
      assert s[0] == t[0];
      forall x ensures x in s[1..] <==> x in t[1..] {
        assert x in s <==> x == s[0] || x in s[1..];
        assert x in t <==> x == t[0] || x in t[1..];
      }
      StrictlySortedUnique(s[1..], t[1..]);
      assert s == [s[0]] + s[1..] && t == [t[0]] + t[1..];
    }
  }

  lemma DistinctPermutation<T>(s: seq<T>, t: seq<T>)
    requires multiset(s) == multiset(t) && Distinct(s)
    ensures Distinct(t)
  {
    forall i, j | 0 <= i < j < |t| ensures t[i] != t[j] {
      if t[i] == t[j] {
        assert t == t[..i] + [t[i]] + t[i + 1..j] + [t[j]] + t[j + 1..];
        assert multiset(t)[t[i]] >= 2;
        DistinctCount(s, t[i]);
      }
    }
  }

  lemma {:induction false} DistinctCount<T>(s: seq<T>, x: T)
    requires Distinct(s)
    ensures multiset(s)[x] == if x in s then 1 else 0
  {
    if s != [] {
      assert s == [s[0]] + s[1..];
      DistinctCount(s[1..], x);
    }
  }

  // ---------------------------------------------------------------- dict.fromkeys and join

  /** `list(dict.fromkeys(s))`: the first occurrence of every value, in order. */
  function Dedupe<T(==,!new)>(s: seq<T>): (r: seq<T>)
    ensures Distinct(r)
    ensures forall x :: x in r <==> x in s
  {
    if s == [] then []
    else
      var front := Dedupe(s[..|s| - 1]);
      var x := s[|s| - 1];
      assert s == s[..|s| - 1] + [x];
      if x in front then front else front + [x]
  }

  lemma DedupeSnoc<T(!new)>(s: seq<T>, x: T)
    ensures Dedupe(s + [x]) == if x in s then Dedupe(s) else Dedupe(s) + [x]
  {
    assert (s + [x])[..|s|] == s;
  }

  lemma {:induction false} DedupeFixpoint<T(!new)>(s: seq<T>)
    requires Distinct(s)
    ensures Dedupe(s) == s
  {
    if s != [] {
      DedupeFixpoint(s[..|s| - 1]);
      assert s == s[..|s| - 1] + [s[|s| - 1]];
    }
  }

  /** `sep.join(parts)` */
  function Join(sep: string, parts: seq<string>): string {
    if parts == [] then ""
    else if |parts| == 1 then parts[0]
    else parts[0] + sep + Join(sep, parts[1..])
  }

  lemma {:induction false} JoinConcat(sep: string, parts: seq<string>, more: seq<string>)
    requires parts != [] && more != []
    ensures Join(sep, parts + more) == Join(sep, parts) + sep + Join(sep, more)
  {
    if |parts| == 1 {
      assert (parts + more)[1..] == more;
    } else {
      assert (parts + more)[1..] == parts[1..] + more;
      JoinConcat(sep, parts[1..], more);
      var a, b, c := parts[0] + sep, Join(sep, parts[1..]), sep + Join(sep, more);
      assert a + (b + c) == (a + b) + c;
      assert Join(sep, parts[1..]) + sep + Join(sep, more) == b + c;
    }
  }

  /** Concatenation is associative. */
  lemma Chain<T>(x: seq<T>, y: seq<T>, z: seq<T>)
    ensures x + y + z == x + (y + z)
  {
  }

  // ---------------------------------------------------------------- white space

  /** `str.isspace` on one code point. */
  predicate IsSpace(c: char) {
    || '\t' <= c <= '\r'
    || '\U{001C}' <= c <= ' '
    || c == '\U{0085}' || c == '\U{00A0}' || c == '\U{1680}'
    || '\U{2000}' <= c <= '\U{200A}'
    || c == '\U{2028}' || c == '\U{2029}' || c == '\U{202F}' || c == '\U{205F}' || c == '\U{3000}'
  }

  /** The code points of white space, one by one. */
  lemma WhiteSpaceExactly(c: char)
    ensures IsSpace(c) <==>
            c as int in {0x09, 0x0A, 0x0B, 0x0C, 0x0D, 0x1C, 0x1D, 0x1E, 0x1F, 0x20, 0x85, 0xA0, 0x1680, 0x2000, 0x2001, 0x2002,
                         0x2003, 0x2004, 0x2005, 0x2006, 0x2007, 0x2008, 0x2009, 0x200A, 0x2028, 0x2029, 0x202F, 0x205F, 0x3000}
  {
  }

  /** `s.lstrip()` with the characters to drop given as a predicate. */
  function LStripBy(drop: char -> bool, s: string): (r: string)
    ensures r == "" || !drop(r[0])
    ensures |r| <= |s| && r == s[|s| - |r|..]
  {
    if s != "" && drop(s[0]) then LStripBy(drop, s[1..]) else s
  }

  function RStripBy(drop: char -> bool, s: string): (r: string)
    ensures r == "" || !drop(r[|r| - 1])
    ensures |r| <= |s| && r == s[..|r|]
  {
    if s != "" && drop(s[|s| - 1]) then RStripBy(drop, s[..|s| - 1]) else s
  }

  function StripBy(drop: char -> bool, s: string): (r: string)
    ensures |r| <= |s|
    ensures r == "" || (!drop(r[0]) && !drop(r[|r| - 1]))
  {
    RStripBy(drop, LStripBy(drop, s))
  }

  function Strip(s: string): string { StripBy(IsSpace, s) }

  ghost predicate NoSpace(s: string) { forall i | 0 <= i < |s| :: !IsSpace(s[i]) }

  lemma StripNoSpace(s: string)
    requires s == "" || (!IsSpace(s[0]) && !IsSpace(s[|s| - 1]))
    ensures Strip(s) == s
  {
  }

  lemma StripSkip(s: string)
    requires s != "" && IsSpace(s[0])
    ensures Strip(s) == Strip(s[1..])
  {
  }

  /** Nothing but white space. */
  ghost predicate Blank(s: string) { forall i | 0 <= i < |s| :: IsSpace(s[i]) }

  ghost predicate All(drop: char -> bool, s: string) { forall i | 0 <= i < |s| :: drop(s[i]) }

  lemma {:induction false} LStripOf(drop: char -> bool, s: string, i: nat)
    requires i <= |s| && All(drop, s[..i]) && (i < |s| ==> !drop(s[i]))
    ensures LStripBy(drop, s) == s[i..]
  {
    if i > 0 {
      assert s[..i][0] == s[0] && s[1..][..i - 1] == s[..i][1..];
      LStripOf(drop, s[1..], i - 1);
    }
  }

  lemma {:induction false} RStripOf(drop: char -> bool, s: string, j: nat)
    requires j <= |s| && All(drop, s[j..]) && (j > 0 ==> !drop(s[j - 1]))
    ensures RStripBy(drop, s) == s[..j]
  {
    var n := |s| - 1;
    if j <= n {
      assert s[j..][n - j] == s[n] && s[..n][j..] == s[j..][..n - j] && s[..n][..j] == s[..j];
      RStripOf(drop, s[..n], j);
    }
  }

  /** What strip removes is exactly what it may drop on both sides. */
  lemma StripByOf(drop: char -> bool, s: string, i: nat, j: nat)
    requires i < j <= |s| && All(drop, s[..i]) && All(drop, s[j..]) && !drop(s[i]) && !drop(s[j - 1])
    ensures StripBy(drop, s) == s[i..j]
  {
    hide LStripBy, RStripBy;
    LStripOf(drop, s, i);
    var t, n := s[i..], j - i;
    assert t[n..] == s[j..] && t[..n] == s[i..j] && t[n - 1] == s[j - 1];
    hide All;
    RStripOf(drop, t, n);
  }

  /** White space around a text that starts and ends visibly is what strip removes. */
  lemma StripOf(s: string, i: nat, j: nat)
    requires i < j <= |s| && Blank(s[..i]) && Blank(s[j..]) && !IsSpace(s[i]) && !IsSpace(s[j - 1])
    ensures Strip(s) == s[i..j]
  {
    hide StripBy, IsSpace;
    StripByOf(IsSpace, s, i, j);
  }

  /** A text in front that is not dropped stays in front. */
  lemma {:induction false} RStripAfter(drop: char -> bool, p: string, x: string)
    ensures RStripBy(drop, x) != "" ==> RStripBy(drop, p + x) == p + RStripBy(drop, x)
    ensures RStripBy(drop, x) == "" ==> RStripBy(drop, p + x) == RStripBy(drop, p)
  {
    var s := p + x;
    if x == "" {
      assert s == p;
    } else {
      var n := |x| - 1;
      assert s[|s| - 1] == x[n] && s[..|s| - 1] == p + x[..n];
      if drop(x[n]) { RStripAfter(drop, p, x[..n]); }
    }
  }

  lemma {:induction false} RStripKeepsHead(drop: char -> bool, x: string)
    requires x != "" && !drop(x[0])
    ensures RStripBy(drop, x) != "" && RStripBy(drop, x)[0] == x[0]
  {
    var n := |x| - 1;
    if drop(x[n]) { RStripKeepsHead(drop, x[..n]); }
  }

  lemma StripAfter(drop: char -> bool, p: string, x: string)
    requires p != "" && !drop(p[0]) && x != "" && !drop(x[0])
    ensures StripBy(drop, p + x) == p + StripBy(drop, x)
    ensures StripBy(drop, x) != "" && StripBy(drop, x)[0] == x[0]
  {
    assert (p + x)[0] == p[0];
    assert LStripBy(drop, p + x) == p + x && LStripBy(drop, x) == x;
    RStripKeepsHead(drop, x);
    RStripAfter(drop, p, x);
  }

  lemma {:induction false} BlankOrVisible(s: string) returns (i: nat)
    ensures i <= |s| && Blank(s[..i]) && (i < |s| ==> !IsSpace(s[i]))
  {
    i := 0;
    if s != "" && IsSpace(s[0]) {
      var k := BlankOrVisible(s[1..]);
      i := k + 1;
      assert forall m | 0 < m < i :: s[..i][m] == s[1..][..k][m - 1];
    }
  }

  lemma {:induction false} LastVisible(s: string) returns (j: nat)
    ensures j <= |s| && Blank(s[j..]) && (j > 0 ==> !IsSpace(s[j - 1]))
  {
    j := |s|;
    if s != "" && IsSpace(s[|s| - 1]) {
      j := LastVisible(s[..|s| - 1]);
      assert forall m | 0 <= m < |s| - 1 - j :: s[j..][m] == s[..|s| - 1][j..][m];
    }
  }

  /** Strip leaves nothing exactly of blank texts, and otherwise what lies between the outermost visible characters. */
  lemma StripParts(s: string) returns (i: nat, j: nat)
    ensures i <= j <= |s| && Blank(s[..i]) && Blank(s[j..]) && Strip(s) == s[i..j]
    ensures i < j ==> !IsSpace(s[i]) && !IsSpace(s[j - 1])
    ensures Strip(s) == "" <==> Blank(s)
  {
    if Blank(s) {
      LStripOf(IsSpace, s, |s|);
      assert s[..|s|] == s && s[0..] == s && s[|s|..] == "";
      i, j := 0, 0;
    } else {
      i := BlankOrVisible(s);
      j := LastVisible(s);
      OutermostVisible(s, i, j);
      StripOf(s, i, j);
    }
  }

  lemma OutermostVisible(s: string, i: nat, j: nat)
    requires !Blank(s) && i <= |s| && j <= |s| && Blank(s[..i]) && Blank(s[j..])
    ensures i < j
  {
    if j <= i {
      forall k | 0 <= k < |s| ensures IsSpace(s[k]) {
        if k < i { assert s[..i][k] == s[k]; } else { assert s[j..][k - j] == s[k]; }
      }
    }
  }

  // ---------------------------------------------------------------- split on a character

  /** `s.split(c)` */
  function Split(c: char, s: string): (r: seq<string>)
    ensures r != []
    ensures forall i | 0 <= i < |r| :: c !in r[i]
  {
    if s == "" then [""]
    else
      var rest := Split(c, s[1..]);
      if s[0] == c then [""] + rest else [[s[0]] + rest[0]] + rest[1..]
  }

  /** `[part for part in parts if part]` */
  function NonEmpty(parts: seq<string>): (r: seq<string>)
    ensures forall p :: p in r <==> p in parts && p != ""
  {
    if parts == [] then []
    else (if parts[0] == "" then [] else [parts[0]]) + NonEmpty(parts[1..])
  }

  lemma {:induction false} NonEmptyOfFull(parts: seq<string>)
    requires forall i | 0 <= i < |parts| :: parts[i] != ""
    ensures NonEmpty(parts) == parts
  {
    if parts != [] { NonEmptyOfFull(parts[1..]); }
  }

  lemma {:induction false} SplitWithout(c: char, s: string)
    requires c !in s
    ensures Split(c, s) == [s]
  {
    if s != "" {
      SplitWithout(c, s[1..]);
      assert s == [s[0]] + s[1..];
    }
  }

  lemma {:induction false} SplitAt(c: char, head: string, tail: string)
    requires c !in head
    ensures Split(c, head + [c] + tail) == [head] + Split(c, tail)
  {
    var s := head + [c] + tail;
    if head == "" {
      assert s[1..] == tail;
    } else {
      assert s[1..] == head[1..] + [c] + tail;
      SplitAt(c, head[1..], tail);
      assert head == [head[0]] + head[1..];
    }
  }

  /** Splitting undoes joining. */
  lemma {:induction false} SplitJoin(c: char, parts: seq<string>)
    requires parts != [] && forall i | 0 <= i < |parts| :: c !in parts[i]
    ensures Split(c, Join([c], parts)) == parts
  {
    if |parts| == 1 {
      SplitWithout(c, parts[0]);
    } else {
      var rest := parts[1..];
      SplitJoin(c, rest);
      SplitAt(c, parts[0], Join([c], rest));
      assert parts == [parts[0]] + rest;
    }
  }

  /** The parts, joined again, are the text; with `SplitJoin`, splitting and joining undo each other. */
  lemma {:induction false} JoinSplit(c: char, s: string)
    ensures Join([c], Split(c, s)) == s
  {
    if s != "" {
      JoinSplit(c, s[1..]);
      var r, rest := Split(c, s), Split(c, s[1..]);
      assert s == [s[0]] + s[1..];
      if s[0] == c {
        assert r[1..] == rest;
        assert Join([c], r) == "" + [c] + s[1..];
      } else if |rest| > 1 {
        assert r[1..] == rest[1..];
        Chain([s[0]], rest[0], [c] + Join([c], rest[1..]));
      }
    }
  }

  /** The first part is the text before the first separator. */
  lemma SplitHead(c: char, s: string)
    ensures var head := Split(c, s)[0]; c !in head && (head == s || head + [c] <= s)
  {
    JoinSplit(c, s);
    var parts := Split(c, s);
    hide Split;
    assert c !in parts[0];
    if |parts| > 1 { assert Join([c], parts) == parts[0] + [c] + Join([c], parts[1..]); }
  }

  lemma {:induction false} NonEmptyShorter(sep: string, parts: seq<string>)
    ensures |Join(sep, NonEmpty(parts))| <= |Join(sep, parts)|
  {
    if parts != [] {
      NonEmptyShorter(sep, parts[1..]);
      var r := NonEmpty(parts[1..]);
      if |parts| == 1 {
        assert r == [] && Join(sep, [parts[0]]) == parts[0];
      } else {
        assert |Join(sep, parts)| == |parts[0]| + |sep| + |Join(sep, parts[1..])|;
        if parts[0] != "" {
          var kept := [parts[0]] + r;
          assert NonEmpty(parts) == kept && kept[1..] == r;
          if r == [] { assert |kept| == 1 && kept[0] == parts[0]; } else { assert |kept| > 1; }
        } else {
          assert NonEmpty(parts) == r;
        }
      }
    }
  }

  predicate EndsWith(s: string, suffix: string) { |suffix| <= |s| && s[|s| - |suffix|..] == suffix }

  function Identity(s: string): string { s }

  /** `sorted(dict.fromkeys(values))` */
  method SortedUnique(values: seq<string>) returns (r: seq<string>)
    ensures StrictlySorted(r)
    ensures forall x :: x in r <==> x in values
  {
    var unique := Dedupe(values);
    r := SortBy(Identity, unique);
    SortByCorrect(Identity, unique);
    SortByMembers(Identity, unique);
    DistinctPermutation(unique, r);
    assert forall i, j | 0 <= i < j < |r| :: StrLeq(Identity(r[i]), Identity(r[j]));
  }

  // ---------------------------------------------------------------- ratios

  lemma RatioAtLeast(x: real, y: real, bound: real)
    requires y > 0.0
    ensures x / y >= bound <==> x >= bound * y
  {
    var q := x / y;
    assert q * y == x;
    TimesPositive(q, bound, y);
    TimesPositive(bound, q, y);
  }

  lemma TimesPositive(a: real, b: real, y: real)
    requires y > 0.0
    ensures (a <= b ==> a * y <= b * y) && (a < b ==> a * y < b * y)
  {
  }
}
