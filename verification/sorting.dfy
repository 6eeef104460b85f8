/** The stable sorts the registry builder relies on: Python's `list.sort()`
    on songs (ordered by the songs' `<`, that is by creation time) and the
    sort by name that the registry builder asks for. */
module Sorting {
  import opened Songs

  /** Python's `<` on strings: lexicographic by code point, with a proper
      prefix ordered first. */
  predicate LexLess(a: string, b: string)
    decreases |a|
  {
    if |a| == 0 then |b| > 0
    else if |b| == 0 then false
    else a[0] < b[0] || (a[0] == b[0] && LexLess(a[1..], b[1..]))
  }

  /** No string is below itself. */
  lemma {:induction false} LexLessIrreflexive(a: string)
    ensures !LexLess(a, a)
    decreases |a|
  {
    if |a| > 0 {
      LexLessIrreflexive(a[1..]);
    }
  }

  /** The string order is transitive. */
  lemma {:induction false} LexLessTransitive(a: string, b: string, c: string)
    requires LexLess(a, b) && LexLess(b, c)
    ensures LexLess(a, c)
    decreases |a|
  {
    if |a| > 0 && a[0] == b[0] && b[0] == c[0] {
      LexLessTransitive(a[1..], b[1..], c[1..]);
    }
  }

  /** Any two distinct strings are ordered one way or the other. */
  lemma {:induction false} LexLessTotal(a: string, b: string)
    ensures a == b || LexLess(a, b) || LexLess(b, a)
    decreases |a|
  {
    if |a| > 0 && |b| > 0 && a[0] == b[0] {
      LexLessTotal(a[1..], b[1..]);
      if a[1..] == b[1..] {
        assert a == [a[0]] + a[1..] && b == [b[0]] + b[1..];
      }
    }
  }

  /** The key a stable sort orders songs by. */
  datatype SortKey = ByTime | ByName

  /** `a` goes strictly before `b` under the key. */
  predicate Precedes(k: SortKey, a: Song, b: Song) {
    match k
    case ByTime => Earlier(a, b)
    case ByName => LexLess(a.name, b.name)
  }

  /** `a` and `b` agree on the key, so a stable sort keeps their input order. */
  predicate Tied(k: SortKey, a: Song, b: Song) {
    match k
    case ByTime => a.creationTime == b.creationTime
    case ByName => a.name == b.name
  }

  /** Both keys give strict weak orders whose incomparable pairs are the tied
      pairs. */
  lemma KeyOrder(k: SortKey, a: Song, b: Song, c: Song)
    ensures !Precedes(k, a, a)
    ensures Precedes(k, a, b) ==> !Precedes(k, b, a)
    ensures Precedes(k, a, b) && Precedes(k, b, c) ==> Precedes(k, a, c)
    ensures !Precedes(k, a, b) && !Precedes(k, b, c) ==> !Precedes(k, a, c)
    ensures Tied(k, a, b) <==> !Precedes(k, a, b) && !Precedes(k, b, a)
  {
    if k == ByName {
      LexLessIrreflexive(a.name);
      LexLessIrreflexive(b.name);
      LexLessTotal(a.name, b.name);
      LexLessTotal(b.name, c.name);
      if LexLess(a.name, b.name) && LexLess(b.name, a.name) {
        LexLessTransitive(a.name, b.name, a.name);
      }
      if LexLess(a.name, b.name) && LexLess(b.name, c.name) {
        LexLessTransitive(a.name, b.name, c.name);
      }
      if LexLess(a.name, c.name) && LexLess(c.name, b.name) {
        LexLessTransitive(a.name, c.name, b.name);
      }
    }
  }

  /** Non-decreasing under the key. */
  ghost predicate SortedBy(k: SortKey, s: seq<Song>) {
    forall i, j :: 0 <= i < j < |s| ==> !Precedes(k, s[j], s[i])
  }

  /** The records of `s` that are tied with `a`, in their order in `s`. */
  function TiedWith(k: SortKey, s: seq<Song>, a: Song): seq<Song>
  {
    if |s| == 0 then []
    else (if Tied(k, s[0], a) then [s[0]] else []) + TiedWith(k, s[1..], a)
  }

  /** Places `x` in front of the first record of `s` that does not precede
      it, so that `x` stays ahead of the records it is tied with. */
  function Insert(k: SortKey, x: Song, s: seq<Song>): seq<Song>
  {
    if |s| == 0 then [x]
    else if Precedes(k, s[0], x) then [s[0]] + Insert(k, x, s[1..])
    else [x] + s
  }

  /** Insertion adds exactly the inserted record. */
  lemma {:induction false} InsertPermutes(k: SortKey, x: Song, s: seq<Song>)
    ensures multiset(Insert(k, x, s)) == multiset(s) + multiset{x}
    ensures |Insert(k, x, s)| == |s| + 1
    decreases |s|
  {
    if s != [] && Precedes(k, s[0], x) {
      InsertPermutes(k, x, s[1..]);
      HeadTail(s);
    }
  }

  /** When the record goes behind the head of a sorted list, the head
      precedes nothing it is placed before, so a sorted insertion into the
      tail gives a sorted list. */
  lemma InsertBehindHeadKeepsSorted(k: SortKey, x: Song, s: seq<Song>)
    requires SortedBy(k, s) && s != [] && Precedes(k, s[0], x)
    requires SortedBy(k, Insert(k, x, s[1..]))
    ensures SortedBy(k, Insert(k, x, s))
  {
    var r := Insert(k, x, s);
    InsertPermutes(k, x, s[1..]);
    HeadTail(s);
    forall i, j | 0 <= i < j < |r| ensures !Precedes(k, r[j], r[i]) {
      if i == 0 {
        assert r[j] in multiset(Insert(k, x, s[1..]));
        if r[j] == x {
          KeyOrder(k, s[0], x, x);
        } else {
          assert r[j] in s[1..];
          var m :| 0 <= m < |s[1..]| && s[1..][m] == r[j];
          assert s[m + 1] == r[j];
        }
      }
    }
  }

  /** Inserting into a sorted list gives a sorted list. */
  lemma {:induction false} InsertKeepsSorted(k: SortKey, x: Song, s: seq<Song>)
    requires SortedBy(k, s)
    ensures SortedBy(k, Insert(k, x, s))
    decreases |s|
  {
    var r := Insert(k, x, s);
    if s == [] {
    } else if Precedes(k, s[0], x) {
      InsertKeepsSorted(k, x, s[1..]);
      InsertBehindHeadKeepsSorted(k, x, s);
    } else {
      forall i, j | 0 <= i < j < |r| ensures !Precedes(k, r[j], r[i]) {
        if i == 0 {
          KeyOrder(k, s[j - 1], s[0], x);
        } else {
          assert r[i] == s[i - 1] && r[j] == s[j - 1];
        }
      }
    }
  }

  /** One record in front of a list: the tied records are the record
      itself, if it is tied, followed by those of the list. */
  lemma TiedWithCons(k: SortKey, y: Song, s: seq<Song>, a: Song)
    ensures Tied(k, y, a) ==> TiedWith(k, [y] + s, a) == [y] + TiedWith(k, s, a)
    ensures !Tied(k, y, a) ==> TiedWith(k, [y] + s, a) == TiedWith(k, s, a)
  {
    assert ([y] + s)[0] == y && ([y] + s)[1..] == s;
    assert [] + TiedWith(k, s, a) == TiedWith(k, s, a);
  }

  /** A record before `x` in the sort order is not tied with any record
      that `x` is tied with. */
  lemma PrecedingIsNotTied(k: SortKey, y: Song, x: Song, a: Song)
    requires Precedes(k, y, x) && Tied(k, x, a)
    ensures !Tied(k, y, a)
  {
    KeyOrder(k, y, x, a);
    KeyOrder(k, y, a, x);
    KeyOrder(k, x, a, y);
  }

  /** Inserting `x` puts it ahead of the records tied with it and changes the
      order of no other tied group. */
  lemma {:induction false} InsertIsStable(k: SortKey, x: Song, s: seq<Song>, a: Song)
    ensures Tied(k, x, a) ==> TiedWith(k, Insert(k, x, s), a) == [x] + TiedWith(k, s, a)
    ensures !Tied(k, x, a) ==> TiedWith(k, Insert(k, x, s), a) == TiedWith(k, s, a)
    decreases |s|
  {
    if s == [] {
      assert Insert(k, x, s) == [x] + s;
      TiedWithCons(k, x, s, a);
    } else if Precedes(k, s[0], x) {
      var y, rest := s[0], s[1..];
      var tail := Insert(k, x, rest);
      assert Insert(k, x, s) == [y] + tail;
      HeadTail(s);
      InsertIsStable(k, x, rest, a);
      TiedWithCons(k, y, tail, a);
      TiedWithCons(k, y, rest, a);
      if Tied(k, x, a) {
        PrecedingIsNotTied(k, y, x, a);
      }
    } else {
      assert Insert(k, x, s) == [x] + s;
      TiedWithCons(k, x, s, a);
    }
  }

  /** Stable insertion sort: a permutation of `s` that `SortByIsSorted`
      shows to be sorted. */
  function SortBy(k: SortKey, s: seq<Song>): seq<Song>
    decreases |s|
  {
    if |s| == 0 then []
    else Insert(k, s[0], SortBy(k, s[1..]))
  }

  /** The sort is a permutation of its input. */
  lemma {:induction false} SortByPermutes(k: SortKey, s: seq<Song>)
    ensures multiset(SortBy(k, s)) == multiset(s)
    ensures |SortBy(k, s)| == |s|
    decreases |s|
  {
    if s != [] {
      SortByPermutes(k, s[1..]);
      InsertPermutes(k, s[0], SortBy(k, s[1..]));
      HeadTail(s);
    }
  }

  /** The sort's result is sorted by the key. */
  lemma {:induction false} SortByIsSorted(k: SortKey, s: seq<Song>)
    ensures SortedBy(k, SortBy(k, s))
    decreases |s|
  {
    if s != [] {
      SortByIsSorted(k, s[1..]);
      InsertKeepsSorted(k, s[0], SortBy(k, s[1..]));
    }
  }

  /** The sort is stable: for every record `a`, the records tied with `a`
      come out in the order they went in. */
  lemma {:induction false} SortIsStable(k: SortKey, s: seq<Song>, a: Song)
    ensures TiedWith(k, SortBy(k, s), a) == TiedWith(k, s, a)
    decreases |s|
  {
    if s != [] {
      SortIsStable(k, s[1..], a);
      InsertIsStable(k, s[0], SortBy(k, s[1..]), a);
      HeadTail(s);
      TiedWithCons(k, s[0], s[1..], a);
    }
  }

  /** A record that nothing in front of it precedes goes to the front. */
  lemma InsertAtFront(k: SortKey, x: Song, s: seq<Song>)
    requires s == [] || !Precedes(k, s[0], x)
    ensures Insert(k, x, s) == [x] + s
  {
  }

  /** A list already sorted by the key comes back unchanged. */
  lemma {:induction false} SortOfSortedIsIdentity(k: SortKey, s: seq<Song>)
    requires SortedBy(k, s)
    ensures SortBy(k, s) == s
    decreases |s|
  {
    if s != [] {
      var x, rest := s[0], s[1..];
      assert rest == [] || !Precedes(k, rest[0], x) by {
        if rest != [] {
          assert rest[0] == s[1];
        }
      }
      SortedTail(k, s);
      SortOfSortedIsIdentity(k, rest);
      InsertAtFront(k, x, rest);
      assert s == [x] + rest;
    }
  }

  /** Deleting records from a sorted list leaves it sorted. */
  lemma {:induction false} SubsequenceKeepsSorted(k: SortKey, a: seq<Song>, b: seq<Song>)
    requires Subsequence(a, b) && SortedBy(k, b)
    ensures SortedBy(k, a)
    decreases |b|
  {
    if a == [] {
    } else {
      assert SortedBy(k, b[1..]) by {
        forall i, j | 0 <= i < j < |b[1..]| ensures !Precedes(k, b[1..][j], b[1..][i]) {
          assert b[1..][i] == b[i + 1] && b[1..][j] == b[j + 1];
        }
      }
      if a[0] == b[0] && Subsequence(a[1..], b[1..]) {
        SubsequenceKeepsSorted(k, a[1..], b[1..]);
        SubsequenceMembers(a[1..], b[1..]);
        forall i, j | 0 <= i < j < |a| ensures !Precedes(k, a[j], a[i]) {
          assert a[j] == a[1..][j - 1];
          if i == 0 {
            assert a[j] in b[1..];
            var m :| 0 <= m < |b[1..]| && b[1..][m] == a[j];
            assert b[m + 1] == a[j];
          } else {
            assert a[i] == a[1..][i - 1];
          }
        }
      } else {
        SubsequenceKeepsSorted(k, a, b[1..]);
      }
    }
  }

  /** A list sorted by name whose neighbours differ in name has no repeated
      name at all. */
  lemma SortedDistinctNamesAreUnique(s: seq<Song>)
    requires SortedBy(ByName, s) && AdjacentNamesDistinct(s)
    ensures NamesUnique(s)
  {
    forall i, j | 0 <= i < j < |s| ensures s[i].name != s[j].name {
      assert !LexLess(s[i + 1].name, s[i].name);
      LexLessTotal(s[i].name, s[i + 1].name);
      assert LexLess(s[i].name, s[i + 1].name);
      if j > i + 1 {
        assert !LexLess(s[j].name, s[i + 1].name);
        LexLessTotal(s[i + 1].name, s[j].name);
        if s[i + 1].name != s[j].name {
          LexLessTransitive(s[i].name, s[i + 1].name, s[j].name);
        }
      }
      LexLessIrreflexive(s[i].name);
    }
  }

  /** The tail of a sorted list is sorted. */
  lemma SortedTail(k: SortKey, s: seq<Song>)
    requires SortedBy(k, s) && s != []
    ensures SortedBy(k, s[1..])
  {
    forall i, j | 0 <= i < j < |s[1..]| ensures !Precedes(k, s[1..][j], s[1..][i]) {
      assert s[1..][i] == s[i + 1] && s[1..][j] == s[j + 1];
    }
  }

  /** Of two reorderings of each other, one sorted by creation time and one
      with strictly increasing times, the first records agree. */
  lemma SortedPermutationHeads(a: seq<Song>, b: seq<Song>)
    requires SortedBy(ByTime, a) && StrictlyIncreasingTimes(b)
    requires multiset(a) == multiset(b) && b != []
    ensures a != [] && a[0] == b[0]
  {
    assert |a| == |multiset(a)| == |b|;
    assert a[0] in multiset(b) && b[0] in multiset(a);
    var m :| 0 <= m < |b| && b[m] == a[0];
    var n :| 0 <= n < |a| && a[n] == b[0];
    assert a[0].creationTime <= b[0].creationTime by {
      if n > 0 {
        assert !Precedes(ByTime, a[n], a[0]);
      }
    }
    assert m == 0;
  }

  /** Two reorderings of each other that start alike continue alike. */
  lemma TailsArePermutations(a: seq<Song>, b: seq<Song>)
    requires multiset(a) == multiset(b) && a != [] && b != [] && a[0] == b[0]
    ensures multiset(a[1..]) == multiset(b[1..])
  {
    assert a[1..] == RemoveAt(a, 0) && b[1..] == RemoveAt(b, 0);
  }

  /** A list sorted by creation time that is a reordering of a list with
      strictly increasing times is that very list. */
  lemma {:induction false} SortedPermutationIsUnique(a: seq<Song>, b: seq<Song>)
    requires SortedBy(ByTime, a) && StrictlyIncreasingTimes(b)
    requires multiset(a) == multiset(b)
    ensures a == b
    decreases |b|
  {
    if b == [] {
      assert |a| == |multiset(a)| == 0;
    } else {
      SortedPermutationHeads(a, b);
      TailsArePermutations(a, b);
      SortedTail(ByTime, a);
      IncreasingTail(b);
      SortedPermutationIsUnique(a[1..], b[1..]);
      assert a == [a[0]] + a[1..] && b == [b[0]] + b[1..];
    }
  }
}
