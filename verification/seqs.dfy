/** Ordered lists of identifiers: subscriber lists and the insertion order of
    a JavaScript `Map`. */
module Seqs {

  /** No element occurs twice. */
  predicate Distinct(s: seq<string>) {
    forall i, j :: 0 <= i < j < |s| ==> s[i] != s[j]
  }

  /** `s` with every occurrence of `x` dropped, order otherwise kept. */
  function Without(s: seq<string>, x: string): (r: seq<string>)
    ensures forall y :: y in r <==> y in s && y != x
    ensures |r| <= |s|
    ensures Distinct(s) ==> Distinct(r)
    ensures x !in s ==> r == s
  {
    if s == [] then []
    else if s[0] == x then Without(s[1..], x)
    else
      var t := Without(s[1..], x);
      assert Distinct(s) ==> s[0] !in s[1..] && Distinct(s[1..]) by {
        if Distinct(s) { DistinctTail(s); }
      }
      [s[0]] + t
  }

  /** The head of a list without repeats does not recur, and its tail has no
      repeats either. */
  lemma DistinctTail(s: seq<string>)
    requires s != [] && Distinct(s)
    ensures s[0] !in s[1..] && Distinct(s[1..])
  {
    forall i, j | 0 <= i < j < |s[1..]| ensures s[1..][i] != s[1..][j] {
      assert s[1..][i] == s[i + 1] && s[1..][j] == s[j + 1];
    }
    forall k | 0 <= k < |s[1..]| ensures s[1..][k] != s[0] {
      assert s[1..][k] == s[k + 1];
    }
  }

  /** The position of the first occurrence of `x` (`findIndex`). */
  function FirstIndex(s: seq<string>, x: string): (i: nat)
    requires x in s
    ensures i < |s| && s[i] == x
    ensures forall j :: 0 <= j < i ==> s[j] != x
  {
    if s[0] == x then 0 else 1 + FirstIndex(s[1..], x)
  }

  /** In a list without repeats, dropping `x` takes out exactly its one
      position; everything before and after it stays in place. */
  lemma {:induction false} WithoutDistinct(s: seq<string>, x: string)
    requires Distinct(s) && x in s
    ensures Without(s, x) == s[..FirstIndex(s, x)] + s[FirstIndex(s, x) + 1..]
  {
    DistinctTail(s);
    if s[0] == x {
      assert Without(s, x) == Without(s[1..], x);
    } else {
      var t := s[1..];
      WithoutDistinct(t, x);
      var i := FirstIndex(t, x);
      assert FirstIndex(s, x) == i + 1;
      assert Without(s, x) == [s[0]] + (t[..i] + t[i + 1..]);
      assert s[..i + 1] == [s[0]] + t[..i];
      assert s[i + 2..] == t[i + 1..];
    }
  }

  /** `a` occurs strictly before `b` in `s`. */
  ghost predicate InOrder(s: seq<string>, a: string, b: string) {
    exists p, q :: 0 <= p < q < |s| && s[p] == a && s[q] == b
  }

  /** An order found in the tail is an order in the whole list, and the head
      comes before anything in the tail. */
  lemma InOrderCons(s: seq<string>, a: string, b: string)
    requires s != []
    ensures InOrder(s[1..], a, b) ==> InOrder(s, a, b)
    ensures b in s[1..] ==> InOrder(s, s[0], b)
  {
    if InOrder(s[1..], a, b) {
      var p, q :| 0 <= p < q < |s[1..]| && s[1..][p] == a && s[1..][q] == b;
      assert s[p + 1] == a && s[q + 1] == b;
    }
    if b in s[1..] {
      var q :| 0 <= q < |s[1..]| && s[1..][q] == b;
      assert s[q + 1] == b;
    }
  }

  /** How many times `x` occurs in `s`. */
  function Count(s: seq<string>, x: string): nat {
    if s == [] then 0
    else (if s[0] == x then 1 else 0) + Count(s[1..], x)
  }

  lemma {:induction false} CountAppend(s: seq<string>, t: seq<string>, x: string)
    ensures Count(s + t, x) == Count(s, x) + Count(t, x)
  {
    if s == [] {
      assert s + t == t;
    } else {
      assert (s + t)[1..] == s[1..] + t;
      CountAppend(s[1..], t, x);
    }
  }

  lemma {:induction false} CountAbsent(s: seq<string>, x: string)
    ensures x !in s <==> Count(s, x) == 0
  {
    if s != [] {
      CountAbsent(s[1..], x);
      assert x in s <==> s[0] == x || x in s[1..];
    }
  }
}
