/**
 The list of completed parts: sorted by part number before completion.  Distinct
 numbers in 1 .. n that are n in number are, once sorted, exactly 1, 2, .. n.
 */
module PartList {
  datatype CompletedPart = CompletedPart(partNumber: int, etag: string, size: nat)

  type Parts = seq<CompletedPart>

  /** Place a part after those with the same or a smaller number. */
  function Insert(p: CompletedPart, s: Parts): Parts {
    if s == [] then [p]
    else if p.partNumber < s[0].partNumber then [p] + s
    else [s[0]] + Insert(p, s[1..])
  }

  /** `parts.sort((a, b) => a.partNumber - b.partNumber)`, which is stable. */
  function Sort(s: Parts): Parts {
    if s == [] then [] else Insert(s[|s| - 1], Sort(s[..|s| - 1]))
  }

  predicate Sorted(s: Parts) {
    forall i, j | 0 <= i < j < |s| :: s[i].partNumber <= s[j].partNumber
  }

  predicate Distinct(s: Parts) {
    forall i, j | 0 <= i < j < |s| :: s[i].partNumber != s[j].partNumber
  }

  predicate InRange(s: Parts, n: int) {
    forall i | 0 <= i < |s| :: 1 <= s[i].partNumber <= n
  }

  function Numbers(s: Parts): seq<int> {
    if s == [] then [] else [s[0].partNumber] + Numbers(s[1..])
  }

  lemma {:induction false} NumbersAt(s: Parts)
    ensures |Numbers(s)| == |s|
    ensures forall i | 0 <= i < |s| :: Numbers(s)[i] == s[i].partNumber
  {
    if s != [] { NumbersAt(s[1..]); }
  }

  lemma {:induction false} InsertMembers(p: CompletedPart, s: Parts)
    ensures forall x :: x in Insert(p, s) <==> x == p || x in s
  {
    if s != [] && p.partNumber >= s[0].partNumber {
      InsertMembers(p, s[1..]);
      assert s == [s[0]] + s[1..];
    }
  }

  lemma {:induction false} InsertKeeps(p: CompletedPart, s: Parts)
    ensures |Insert(p, s)| == |s| + 1
    ensures multiset(Numbers(Insert(p, s))) == multiset(Numbers(s)) + multiset{p.partNumber}
  {
    if s != [] && p.partNumber >= s[0].partNumber {
      InsertKeeps(p, s[1..]);
      assert Insert(p, s)[1..] == Insert(p, s[1..]);
    }
  }

  lemma {:induction false} InsertSorts(p: CompletedPart, s: Parts)
    requires Sorted(s)
    ensures Sorted(Insert(p, s))
  {
    if s != [] && p.partNumber >= s[0].partNumber {
      InsertSorts(p, s[1..]);
      InsertMembers(p, s[1..]);
      var r := Insert(p, s[1..]);
      forall i | 0 <= i < |r| ensures s[0].partNumber <= r[i].partNumber {
        assert r[i] in r;
      }
    }
  }

  lemma {:induction false} SortOrders(s: Parts)
    ensures Sorted(Sort(s)) && forall x :: x in Sort(s) <==> x in s
  {
    if s != [] {
      var p, last := s[..|s| - 1], s[|s| - 1];
      SortOrders(p);
      InsertSorts(last, Sort(p));
      InsertMembers(last, Sort(p));
      assert s == p + [last];
    }
  }

  lemma {:induction false} SortKeepsNumbers(s: Parts)
    ensures |Sort(s)| == |s| && multiset(Numbers(Sort(s))) == multiset(Numbers(s))
  {
    if s != [] {
      var p, last := s[..|s| - 1], s[|s| - 1];
      SortKeepsNumbers(p);
      InsertKeeps(last, Sort(p));
      NumbersConcat(p, [last]);
      assert Numbers([last]) == [last.partNumber];
      assert s == p + [last];
    }
  }

  /** Sorting orders the parts by number and keeps each of them. */
  lemma SortSorts(s: Parts)
    ensures var t := Sort(s);
            Sorted(t) && |t| == |s| && multiset(Numbers(t)) == multiset(Numbers(s)) &&
            forall x :: x in t <==> x in s
  {
    SortOrders(s);
    SortKeepsNumbers(s);
  }

  lemma {:induction false} NumbersConcat(a: Parts, b: Parts)
    ensures Numbers(a + b) == Numbers(a) + Numbers(b)
  {
    if a == [] { assert a + b == b; } else {
      NumbersConcat(a[1..], b);
      assert (a + b)[1..] == a[1..] + b;
    }
  }

  predicate DistinctInts(s: seq<int>) { forall i, j | 0 <= i < j < |s| :: s[i] != s[j] }

  lemma {:induction false} DistinctByCount(s: seq<int>)
    ensures DistinctInts(s) <==> forall x :: multiset(s)[x] <= 1
  {
    if s != [] {
      var t := s[1..];
      DistinctByCount(t);
      assert s == [s[0]] + t;
      assert forall x :: multiset(s)[x] == multiset(t)[x] + if x == s[0] then 1 else 0;
      assert s[0] in t <==> multiset(t)[s[0]] >= 1;
      if DistinctInts(s) {
        assert forall i, j | 0 <= i < j < |t| :: t[i] == s[i + 1] && t[j] == s[j + 1];
        assert s[0] !in t;
      }
    }
  }

  lemma DistinctNumbers(s: Parts)
    ensures Distinct(s) <==> DistinctInts(Numbers(s))
  {
    NumbersAt(s);
    assert Distinct(s) ==> DistinctInts(Numbers(s));
    if DistinctInts(Numbers(s)) {
      forall i, j | 0 <= i < j < |s| ensures s[i].partNumber != s[j].partNumber {
        assert Numbers(s)[i] != Numbers(s)[j];
      }
    }
  }

  /** Sorting neither makes nor removes a repeated number. */
  lemma SortKeepsDistinct(s: Parts)
    ensures Distinct(Sort(s)) <==> Distinct(s)
  {
    SortSorts(s);
    DistinctNumbers(s);
    DistinctNumbers(Sort(s));
    DistinctByCount(Numbers(s));
    DistinctByCount(Numbers(Sort(s)));
  }

  lemma SortKeepsRange(s: Parts, n: int)
    requires InRange(s, n)
    ensures InRange(Sort(s), n)
  {
    SortSorts(s);
    var t := Sort(s);
    forall i | 0 <= i < |t| ensures 1 <= t[i].partNumber <= n { assert t[i] in t; }
  }

  /** Strictly ascending numbers from at least `lo` leave room below and above. */
  lemma {:induction false} AscendingRoom(s: Parts, n: int, i: nat)
    requires Sorted(s) && Distinct(s) && InRange(s, n) && i < |s|
    ensures i + 1 <= s[i].partNumber
    ensures s[|s| - 1 - i].partNumber <= n - i
  {
    if i > 0 {
      AscendingRoom(s, n, i - 1);
      assert s[i - 1].partNumber <= s[i].partNumber && s[i - 1].partNumber != s[i].partNumber;
      var k := |s| - 1 - i;
      assert s[k].partNumber <= s[k + 1].partNumber && s[k].partNumber != s[k + 1].partNumber;
    }
  }

  predicate OneTo(s: Parts, n: int) {
    |s| == n && forall i | 0 <= i < n :: s[i].partNumber == i + 1
  }

  lemma AscendingIsOneTo(t: Parts, n: nat)
    requires Sorted(t) && Distinct(t) && InRange(t, n) && |t| == n
    ensures OneTo(t, n)
  {
    forall i | 0 <= i < n ensures t[i].partNumber == i + 1 {
      AscendingRoom(t, n, i);
      AscendingRoom(t, n, n - 1 - i);
    }
  }

  lemma OneToIsDistinct(t: Parts, n: nat)
    requires OneTo(t, n)
    ensures Distinct(t)
  {
    forall i, j | 0 <= i < j < |t| ensures t[i].partNumber != t[j].partNumber {
      assert t[i].partNumber == i + 1 && t[j].partNumber == j + 1;
    }
  }

  /** n parts numbered within 1 .. n sort to exactly 1 .. n if and only if no number repeats. */
  lemma CompleteList(s: Parts, n: nat)
    requires |s| == n && InRange(s, n)
    ensures OneTo(Sort(s), n) <==> Distinct(s)
  {
    SortSorts(s);
    SortKeepsDistinct(s);
    SortKeepsRange(s, n);
    if Distinct(s) {
      AscendingIsOneTo(Sort(s), n);
    } else if OneTo(Sort(s), n) {
      OneToIsDistinct(Sort(s), n);
    }
  }

  // ------------------------------------------- the same parts in another order

  ghost predicate SameParts(a: Parts, b: Parts) {
    (forall x :: x in a <==> x in b) && multiset(Numbers(a)) == multiset(Numbers(b))
  }

  lemma SameDistinct(a: Parts, b: Parts)
    requires SameParts(a, b)
    ensures Distinct(a) <==> Distinct(b)
  {
    DistinctNumbers(a);
    DistinctNumbers(b);
    DistinctByCount(Numbers(a));
    DistinctByCount(Numbers(b));
  }

  lemma SameWithRest(a: Parts, b: Parts, rest: Parts)
    requires SameParts(a, b)
    ensures SameParts(a + rest, b + rest)
  {
    NumbersConcat(a, rest);
    NumbersConcat(b, rest);
  }

  lemma SortIsSame(s: Parts)
    ensures SameParts(s, Sort(s))
  {
    SortSorts(s);
  }

  lemma MoveKeepsMembers(a: Parts, b: Parts, x: CompletedPart, c: Parts)
    ensures forall y :: y in a + (b + [x] + c) <==> y in a + [x] + (b + c)
  {
    forall y ensures y in a + (b + [x] + c) <==> y in a || y in b || y == x || y in c {
      assert y in b + [x] + c <==> y in b + [x] || y in c;
    }
  }

  /** Taking an element out of the middle and putting it elsewhere. */
  lemma MoveIsSame(a: Parts, b: Parts, x: CompletedPart, c: Parts)
    ensures SameParts(a + (b + [x] + c), a + [x] + (b + c))
  {
    MoveKeepsMembers(a, b, x, c);
    NumbersConcat(a, b + [x] + c);
    NumbersConcat(b + [x], c);
    NumbersConcat(b, [x]);
    NumbersConcat(a + [x], b + c);
    NumbersConcat(a, [x]);
    NumbersConcat(b, c);
  }
}
