/** Song records, the Python code's equality and ordering on them, and the
    sequence vocabulary shared by the registry builder and the histogram. */
module Songs {

  /** One song: its name, its length in seconds and its creation time in
      whole Unix seconds. */
  datatype Song = Song(name: string, length: real, creationTime: int)

  /** The Python code's `==` on songs: two records are the same song exactly when
      their names agree. */
  predicate SameSong(a: Song, b: Song) {
    a.name == b.name
  }

  /** The Python code's `<` on songs: a strictly earlier creation time. */
  predicate Earlier(a: Song, b: Song) {
    a.creationTime < b.creationTime
  }

  /** Equality looks at the name alone and ordering at the creation time
      alone: changing the other fields changes neither verdict. */
  lemma ComparisonsReadOneField(a: Song, b: Song, name: string, length: real, time: int)
    ensures SameSong(a.(length := length, creationTime := time), b) == SameSong(a, b)
    ensures Earlier(a.(name := name, length := length), b) == Earlier(a, b)
  {
  }

  /** `Earlier` is a strict weak order whose incomparable pairs are exactly
      the pairs with equal creation times; in particular two records of the
      same song may still be ordered, and two different songs may be tied. */
  lemma EarlierIsStrictWeakOrder(a: Song, b: Song, c: Song)
    ensures !Earlier(a, a)
    ensures Earlier(a, b) ==> !Earlier(b, a)
    ensures Earlier(a, b) && Earlier(b, c) ==> Earlier(a, c)
    ensures !Earlier(a, b) && !Earlier(b, a) <==> a.creationTime == b.creationTime
  {
  }

  /** Concatenation is associative; stated once so that proofs can use it
      without proving sequence equality element by element. */
  lemma AppendIsAssociative(a: seq<Song>, b: seq<Song>, c: seq<Song>)
    ensures (a + b) + c == a + (b + c)
  {
  }

  /** A non-empty list is its first record followed by the rest. */
  lemma HeadTail(s: seq<Song>)
    requires s != []
    ensures s == [s[0]] + s[1..]
  {
  }

  /** Total length in seconds of a list of songs. */
  function TotalLength(s: seq<Song>): real
  {
    if |s| == 0 then 0.0 else s[0].length + TotalLength(s[1..])
  }

  /** Total length is additive over concatenation. */
  lemma {:induction false} TotalLengthAppend(a: seq<Song>, b: seq<Song>)
    ensures TotalLength(a + b) == TotalLength(a) + TotalLength(b)
    decreases |a|
  {
    if a == [] {
      assert a + b == b;
    } else {
      assert (a + b)[1..] == a[1..] + b;
      TotalLengthAppend(a[1..], b);
    }
  }

  /** `a` is obtained from `b` by deleting elements, keeping the order of
      the rest. */
  predicate Subsequence<T(==)>(a: seq<T>, b: seq<T>)
    decreases |b|
  {
    if |a| == 0 then true
    else if |b| == 0 then false
    else (a[0] == b[0] && Subsequence(a[1..], b[1..])) || Subsequence(a, b[1..])
  }

  /** Every element of a subsequence is an element of the whole. */
  lemma {:induction false} SubsequenceMembers<T>(a: seq<T>, b: seq<T>)
    requires Subsequence(a, b)
    ensures forall x :: x in a ==> x in b
    ensures |a| <= |b|
    decreases |b|
  {
    if a == [] {
    } else if a[0] == b[0] && Subsequence(a[1..], b[1..]) {
      SubsequenceMembers(a[1..], b[1..]);
      forall x | x in a ensures x in b {
        if x != a[0] {
          assert x in a[1..];
        }
      }
    } else {
      SubsequenceMembers(a, b[1..]);
    }
  }

  /** A sequence is a subsequence of itself. */
  lemma {:induction false} SubsequenceReflexive<T>(a: seq<T>)
    ensures Subsequence(a, a)
    decreases |a|
  {
    if a != [] {
      SubsequenceReflexive(a[1..]);
    }
  }

  /** No two records, adjacent or not, share a creation time, and times
      rise along the sequence. */
  ghost predicate StrictlyIncreasingTimes(s: seq<Song>) {
    forall i, j :: 0 <= i < j < |s| ==> s[i].creationTime < s[j].creationTime
  }

  /** No two records, adjacent or not, share a name. */
  ghost predicate NamesUnique(s: seq<Song>) {
    forall i, j :: 0 <= i < j < |s| ==> s[i].name != s[j].name
  }

  /** No two neighbouring records share a name. */
  ghost predicate AdjacentNamesDistinct(s: seq<Song>) {
    forall i :: 0 < i < |s| ==> s[i - 1].name != s[i].name
  }

  /** The tail of a list with strictly increasing times has strictly
      increasing times. */
  lemma IncreasingTail(s: seq<Song>)
    requires StrictlyIncreasingTimes(s) && s != []
    ensures StrictlyIncreasingTimes(s[1..])
  {
    forall i, j | 0 <= i < j < |s[1..]| ensures s[1..][i].creationTime < s[1..][j].creationTime {
      assert s[1..][i] == s[i + 1] && s[1..][j] == s[j + 1];
    }
  }

  /** Deleting records keeps names unique. */
  lemma {:induction false} SubsequenceKeepsNamesUnique(a: seq<Song>, b: seq<Song>)
    requires Subsequence(a, b) && NamesUnique(b)
    ensures NamesUnique(a)
    decreases |b|
  {
    if a == [] {
    } else if a[0] == b[0] && Subsequence(a[1..], b[1..]) {
      SubsequenceKeepsNamesUnique(a[1..], b[1..]);
      SubsequenceMembers(a[1..], b[1..]);
      forall i, j | 0 <= i < j < |a| ensures a[i].name != a[j].name {
        if i == 0 {
          assert a[j] == a[1..][j - 1];
          assert a[j] in a[1..];
          assert a[j] in b[1..];
          var m :| 0 <= m < |b[1..]| && b[1..][m] == a[j];
          assert b[m + 1] == a[j];
        } else {
          assert a[i] == a[1..][i - 1] && a[j] == a[1..][j - 1];
        }
      }
    } else {
      SubsequenceKeepsNamesUnique(a, b[1..]);
    }
  }

  /** The list without its `k`-th record. */
  function RemoveAt(a: seq<Song>, k: int): (r: seq<Song>)
    requires 0 <= k < |a|
    ensures multiset(r) == multiset(a) - multiset{a[k]}
    ensures |r| == |a| - 1
  {
    assert a == a[..k] + [a[k]] + a[k + 1..];
    a[..k] + a[k + 1..]
  }

  /** The records after the `k`-th move up by one place. */
  lemma RemoveAtIndex(a: seq<Song>, k: int, i: int)
    requires 0 <= k < |a| && 0 <= i < |a| - 1
    ensures RemoveAt(a, k)[i] == a[if i < k then i else i + 1]
  {
  }

  /** Removing a record keeps names unique, and no remaining record shares
      the removed record's name. */
  lemma RemoveAtKeepsNamesUnique(a: seq<Song>, k: int)
    requires 0 <= k < |a| && NamesUnique(a)
    ensures NamesUnique(RemoveAt(a, k))
    ensures forall y :: y in RemoveAt(a, k) ==> y.name != a[k].name
  {
    var r := RemoveAt(a, k);
    forall i, j | 0 <= i < j < |r| ensures r[i].name != r[j].name {
      RemoveAtIndex(a, k, i);
      RemoveAtIndex(a, k, j);
    }
    forall y | y in r ensures y.name != a[k].name {
      var m :| 0 <= m < |r| && r[m] == y;
      RemoveAtIndex(a, k, m);
    }
  }

  /** A record in front of a list with unique names keeps the names unique
      when its name is new. */
  lemma ConsKeepsNamesUnique(x: Song, t: seq<Song>)
    requires NamesUnique(t) && forall y :: y in t ==> y.name != x.name
    ensures NamesUnique([x] + t)
  {
    var s := [x] + t;
    forall i, j | 0 <= i < j < |s| ensures s[i].name != s[j].name {
      assert s[j] == t[j - 1];
      if i > 0 {
        assert s[i] == t[i - 1];
      }
    }
  }

  /** Reordering records keeps names unique. */
  lemma {:induction false} PermutationKeepsNamesUnique(a: seq<Song>, b: seq<Song>)
    requires multiset(a) == multiset(b) && NamesUnique(a)
    ensures NamesUnique(b)
    decreases |b|
  {
    if b != [] {
      assert b[0] in multiset(a);
      var k :| 0 <= k < |a| && a[k] == b[0];
      var rest := RemoveAt(a, k);
      assert b == [b[0]] + b[1..];
      assert multiset(rest) == multiset(b[1..]);
      RemoveAtKeepsNamesUnique(a, k);
      PermutationKeepsNamesUnique(rest, b[1..]);
      forall y | y in b[1..] ensures y.name != b[0].name {
        assert y in multiset(rest);
      }
      ConsKeepsNamesUnique(b[0], b[1..]);
    }
  }

  /** A record in front adds its length to the total. */
  lemma TotalLengthCons(x: Song, s: seq<Song>)
    ensures TotalLength([x] + s) == x.length + TotalLength(s)
  {
    assert ([x] + s)[1..] == s;
  }

  /** A record between two lists adds its length to their total. */
  lemma TotalLengthSplit(front: seq<Song>, x: Song, back: seq<Song>)
    ensures TotalLength(front + ([x] + back)) == x.length + TotalLength(front + back)
  {
    TotalLengthAppend(front, [x] + back);
    TotalLengthAppend(front, back);
    TotalLengthCons(x, back);
  }

  /** A list is its records before `k`, record `k`, and the rest. */
  lemma SplitAround(a: seq<Song>, k: int)
    requires 0 <= k < |a|
    ensures a == a[..k] + ([a[k]] + a[k + 1..])
    ensures RemoveAt(a, k) == a[..k] + a[k + 1..]
  {
    assert a[k..] == [a[k]] + a[k + 1..];
    assert a == a[..k] + a[k..];
  }

  /** Removing a record removes its length from the total. */
  lemma TotalLengthRemoveAt(a: seq<Song>, k: int)
    requires 0 <= k < |a|
    ensures TotalLength(a) == a[k].length + TotalLength(RemoveAt(a, k))
  {
    SplitAround(a, k);
    TotalLengthSplit(a[..k], a[k], a[k + 1..]);
  }

  /** Reordering records keeps their total length. */
  lemma {:induction false} TotalLengthOfReordering(a: seq<Song>, b: seq<Song>)
    requires multiset(a) == multiset(b)
    ensures TotalLength(a) == TotalLength(b)
    decreases |a|
  {
    if a == [] {
      assert |b| == |multiset(b)| == 0;
    } else {
      assert a[0] in multiset(b);
      var k :| 0 <= k < |b| && b[k] == a[0];
      TotalLengthRemoveAt(b, k);
      assert a[1..] == RemoveAt(a, 0);
      TotalLengthOfReordering(a[1..], RemoveAt(b, k));
    }
  }
}
