/**
 Go's `strings.Index`, `strings.Split` and `strings.Join` on strings viewed as
 sequences of characters, for a non-empty separator, together with the
 properties the blob-server client relies on when it splits a header value at
 commas.
 */
module GoStrings {
  import opened Wrappers

  /** `sep` occurs in `s` starting at position `i`. */
  predicate OccursAt(s: string, sep: string, i: nat)
  {
    i + |sep| <= |s| && s[i..i + |sep|] == sep
  }

  /** `strings.Contains(s, sep)`. */
  ghost predicate Contains(s: string, sep: string)
  {
    exists i: nat :: OccursAt(s, sep, i)
  }

  /** The first occurrence of `sep` in `s` at or after position `k`. */
  function IndexFrom(s: string, sep: string, k: nat): (r: Option<nat>)
    decreases |s| - k
    ensures r.Some? ==> k <= r.value && OccursAt(s, sep, r.value)
    ensures r.Some? ==> forall j: nat :: k <= j < r.value ==> !OccursAt(s, sep, j)
    ensures r.None? ==> forall j: nat :: k <= j ==> !OccursAt(s, sep, j)
  {
    if k + |sep| > |s| then None
    else if s[k..k + |sep|] == sep then Some(k)
    else IndexFrom(s, sep, k + 1)
  }

  /** `strings.Index(s, sep)`, with `None` for Go's -1. */
  function Index(s: string, sep: string): (r: Option<nat>)
    ensures r.Some? <==> Contains(s, sep)
    ensures r.Some? ==> OccursAt(s, sep, r.value)
    ensures r.Some? ==> forall j: nat :: j < r.value ==> !OccursAt(s, sep, j)
  {
    IndexFrom(s, sep, 0)
  }

  /** The search from `k` stops at `m` when `m` is the first occurrence at or after `k`. */
  lemma IndexFromFirst(s: string, sep: string, k: nat, m: nat)
    requires k <= m && OccursAt(s, sep, m)
    requires forall j: nat :: k <= j < m ==> !OccursAt(s, sep, j)
    ensures IndexFrom(s, sep, k) == Some(m)
  {
  }

  /** A one-character separator occurs exactly where that character stands. */
  lemma OccursAtChar(s: string, c: char, i: nat)
    ensures OccursAt(s, [c], i) <==> i < |s| && s[i] == c
  {
    if i < |s| {
      assert s[i..i + 1] == [s[i]];
    }
  }

  /** A one-character separator is contained exactly when the character is. */
  lemma ContainsChar(s: string, c: char)
    ensures Contains(s, [c]) <==> c in s
  {
    if c in s {
      var i :| 0 <= i < |s| && s[i] == c;
      OccursAtChar(s, c, i);
    }
    if Contains(s, [c]) {
      var i: nat :| OccursAt(s, [c], i);
      OccursAtChar(s, c, i);
    }
  }

  /** The first occurrence of `c` in `a + [c] + b` is at `|a|` when `a` holds no `c`. */
  lemma IndexAfterPrefix(a: string, c: char, b: string)
    requires c !in a
    ensures Index(a + [c] + b, [c]) == Some(|a|)
  {
    var s := a + [c] + b;
    OccursAtChar(s, c, |a|);
    forall j: nat | j < |a|
      ensures !OccursAt(s, [c], j)
    {
      OccursAtChar(s, c, j);
      assert s[j] == a[j];
    }
    IndexFromFirst(s, [c], 0, |a|);
  }

  /** A string without `c` has no index of `c`. */
  lemma IndexAbsent(s: string, c: char)
    requires c !in s
    ensures Index(s, [c]) == None
  {
    ContainsChar(s, c);
  }

  /**
   `strings.Split(s, sep)` for a non-empty `sep`: the pieces of `s` between
   the leftmost non-overlapping occurrences of `sep`, in order.
   */
  function Split(s: string, sep: string): (r: seq<string>)
    requires |sep| > 0
    decreases |s|
    ensures |r| >= 1
    ensures !Contains(s, sep) ==> r == [s]
  {
    match Index(s, sep)
    case None => [s]
    case Some(m) => [s[..m]] + Split(s[m + |sep|..], sep)
  }

  /** `strings.Join(parts, sep)`: the parts with `sep` between neighbours. */
  function Join(parts: seq<string>, sep: string): string
  {
    if |parts| == 0 then ""
    else if |parts| == 1 then parts[0]
    else parts[0] + sep + Join(parts[1..], sep)
  }

  /** Joining two or more parts puts `sep` after the first one. */
  lemma JoinCons(p: string, rest: seq<string>, sep: string)
    requires |rest| >= 1
    ensures Join([p] + rest, sep) == p + sep + Join(rest, sep)
  {
    assert ([p] + rest)[0] == p;
    assert ([p] + rest)[1..] == rest;
  }

  /** A string with a first occurrence of `sep` at `m`, and its split, seen around `m`. */
  lemma SplitAtIndex(s: string, sep: string, m: nat)
    requires |sep| > 0 && Index(s, sep) == Some(m)
    ensures m + |sep| <= |s|
    ensures s == s[..m] + sep + s[m + |sep|..]
    ensures Split(s, sep) == [s[..m]] + Split(s[m + |sep|..], sep)
  {
    assert s[m..m + |sep|] == sep;
    SplitAround(s, m, |sep|);
  }

  lemma SplitAround(s: string, m: nat, n: nat)
    requires m + n <= |s|
    ensures s == s[..m] + s[m..m + n] + s[m + n..]
  {
  }

  /** Joining the pieces with the separator gives back the split string. */
  lemma {:induction false} JoinSplit(s: string, sep: string)
    requires |sep| > 0
    decreases |s|
    ensures Join(Split(s, sep), sep) == s
  {
    match Index(s, sep)
    case None =>
    case Some(m) =>
      SplitAtIndex(s, sep, m);
      var head, rest := s[..m], s[m + |sep|..];
      JoinSplit(rest, sep);
      JoinCons(head, Split(rest, sep), sep);
  }

  /** The text before the first occurrence of `sep` does not contain `sep`. */
  lemma PrefixBeforeIndex(s: string, sep: string, m: nat)
    requires |sep| > 0 && Index(s, sep) == Some(m)
    ensures !Contains(s[..m], sep)
  {
    if Contains(s[..m], sep) {
      var j: nat :| OccursAt(s[..m], sep, j);
      assert s[..m][j..j + |sep|] == s[j..j + |sep|];
      assert OccursAt(s, sep, j);
      assert false;
    }
  }

  /** No piece of a split contains the separator. */
  lemma {:induction false} SplitPiecesAvoidSeparator(s: string, sep: string)
    requires |sep| > 0
    decreases |s|
    ensures forall i :: 0 <= i < |Split(s, sep)| ==> !Contains(Split(s, sep)[i], sep)
  {
    match Index(s, sep)
    case None =>
    case Some(m) =>
      SplitAtIndex(s, sep, m);
      var head, rest := s[..m], s[m + |sep|..];
      var pieces, later := Split(s, sep), Split(rest, sep);
      SplitPiecesAvoidSeparator(rest, sep);
      PrefixBeforeIndex(s, sep, m);
      forall i | 0 <= i < |pieces|
        ensures !Contains(pieces[i], sep)
      {
        if i > 0 {
          assert pieces[i] == later[i - 1];
        }
      }
  }

  /** The number of times `c` appears in `s`. */
  function Count(s: string, c: char): nat
  {
    if |s| == 0 then 0
    else (if s[0] == c then 1 else 0) + Count(s[1..], c)
  }

  lemma {:induction false} CountAppend(a: string, b: string, c: char)
    ensures Count(a + b, c) == Count(a, c) + Count(b, c)
  {
    if |a| > 0 {
      assert (a + b)[1..] == a[1..] + b;
      CountAppend(a[1..], b, c);
    } else {
      assert a + b == b;
    }
  }

  lemma {:induction false} CountAbsent(s: string, c: char)
    requires c !in s
    ensures Count(s, c) == 0
  {
    if |s| > 0 {
      CountAbsent(s[1..], c);
    }
  }

  /** Splitting at a character gives one piece more than there are occurrences of it. */
  lemma {:induction false} SplitCount(s: string, c: char)
    decreases |s|
    ensures |Split(s, [c])| == Count(s, c) + 1
  {
    match Index(s, [c])
    case None =>
      ContainsChar(s, c);
      CountAbsent(s, c);
    case Some(m) =>
      SplitAtIndex(s, [c], m);
      var head := s[..m];
      var rest := s[m + 1..];
      SplitCount(rest, c);
      OccursAtChar(s, c, m);
      assert c !in head by {
        forall j | 0 <= j < |head|
          ensures head[j] != c
        {
          OccursAtChar(s, c, j);
        }
      }
      CountAbsent(head, c);
      assert s == head + [c] + rest;
      CountAppend(head + [c], rest, c);
      CountAppend(head, [c], c);
  }

  /**
   Splitting the join of non-empty list of pieces that do not contain `c`
   gives back exactly those pieces: for such lists, splitting and joining are
   inverse to each other.
   */
  lemma {:induction false} SplitJoin(parts: seq<string>, c: char)
    requires |parts| >= 1
    requires forall i :: 0 <= i < |parts| ==> c !in parts[i]
    ensures Split(Join(parts, [c]), [c]) == parts
  {
    if |parts| == 1 {
      IndexAbsent(parts[0], c);
    } else {
      var rest := Join(parts[1..], [c]);
      var s := parts[0] + [c] + rest;
      assert Join(parts, [c]) == s;
      IndexAfterPrefix(parts[0], c, rest);
      SplitAtIndex(s, [c], |parts[0]|);
      assert s[..|parts[0]|] == parts[0];
      assert s[|parts[0]| + 1..] == rest;
      SplitJoin(parts[1..], c);
      assert parts == [parts[0]] + parts[1..];
    }
  }
}
