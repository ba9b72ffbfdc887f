/** Choosing among, and ordering, finite sets of ids: the `firstResult()` and
    `order by createdAt desc` of the repositories. */
module Ordering {
  import opened Common

  predicate StrictlyDecreasing(s: seq<Id>)
  {
    forall i, j | 0 <= i < j < |s| :: s[i] > s[j]
  }

  /** `m` is the least element of `s`. */
  predicate IsLeast(m: Id, s: set<Id>)
  {
    m in s && forall x | x in s :: m <= x
  }

  /** `m` is the greatest element of `s`. */
  predicate IsGreatest(m: Id, s: set<Id>)
  {
    m in s && forall x | x in s :: x <= m
  }

  lemma {:induction false} LeastExists(s: set<Id>)
    requires s != {}
    ensures exists m :: IsLeast(m, s)
  {
    var y :| y in s;
    var t := s - {y};
    if t == {} {
      forall x | x in s ensures y <= x {
        assert x !in t;
      }
      assert IsLeast(y, s);
    } else {
      LeastExists(t);
      var m :| IsLeast(m, t);
      var b := if y < m then y else m;
      forall x | x in s ensures b <= x {
        if x != y { assert x in t; }
      }
      assert IsLeast(b, s);
    }
  }

  lemma {:induction false} GreatestExists(s: set<Id>)
    requires s != {}
    ensures exists m :: IsGreatest(m, s)
  {
    var y :| y in s;
    var t := s - {y};
    if t == {} {
      forall x | x in s ensures x <= y {
        assert x !in t;
      }
      assert IsGreatest(y, s);
    } else {
      GreatestExists(t);
      var m :| IsGreatest(m, t);
      var b := if y > m then y else m;
      forall x | x in s ensures x <= b {
        if x != y { assert x in t; }
      }
      assert IsGreatest(b, s);
    }
  }

  function Least(s: set<Id>): (m: Id)
    requires s != {}
    ensures m in s && forall x | x in s :: m <= x
  {
    LeastExists(s);
    var m :| IsLeast(m, s); m
  }

  function Greatest(s: set<Id>): (m: Id)
    requires s != {}
    ensures m in s && forall x | x in s :: x <= m
  {
    GreatestExists(s);
    var m :| IsGreatest(m, s); m
  }

  /** The row a `firstResult()` query yields. The queries carry no `order by`; the model
      takes the oldest match, and under the tables' uniqueness invariants there is at most one. */
  function First(s: set<Id>): (r: Option<Id>)
    ensures r.None? <==> s == {}
    ensures r.Some? ==> r.value in s && forall x | x in s :: r.value <= x
  {
    if s == {} then None else Some(Least(s))
  }

  /** Putting a larger id in front keeps a list strictly decreasing. */
  lemma ConsDecreasing(m: Id, rest: seq<Id>)
    requires StrictlyDecreasing(rest) && forall x | x in rest :: x < m
    ensures StrictlyDecreasing([m] + rest)
  {
    var k := [m] + rest;
    forall i, j | 0 <= i < j < |k| ensures k[i] > k[j] {
      assert k[j] == rest[j - 1] && k[j] in rest;
    }
  }

  /** The ids of `s`, newest first. */
  function NewestFirst(s: set<Id>): (r: seq<Id>)
    ensures forall x :: x in r <==> x in s
    ensures StrictlyDecreasing(r)
    ensures |r| == |s|
    decreases |s|
  {
    if s == {} then []
    else
      var m := Greatest(s);
      var t := s - {m};
      assert |t| == |s| - 1;
      var rest := NewestFirst(t);
      ConsDecreasing(m, rest);
      [m] + rest
  }

  lemma HeadIsElement(s: seq<Id>)
    requires s != []
    ensures s[0] in s
  {
  }

  /** The head of a strictly decreasing list is its largest element. */
  lemma HeadIsLargest(a: seq<Id>, x: Id)
    requires StrictlyDecreasing(a) && x in a
    ensures a != [] && x <= a[0]
  {
  }

  /** In a strictly decreasing list the tail holds every element but the head. */
  lemma TailMembers(a: seq<Id>, x: Id)
    requires StrictlyDecreasing(a) && a != []
    ensures x in a[1..] <==> x in a && x != a[0]
  {
    if x in a[1..] {
      var k :| 0 <= k < |a| - 1 && a[1..][k] == x;
      assert a[k + 1] == x;
    }
    if x in a && x != a[0] {
      var l :| 0 <= l < |a| && a[l] == x;
      assert a[1..][l - 1] == x;
    }
  }

  /** Two strictly decreasing sequences with the same elements are the same sequence. */
  lemma {:induction false} DecreasingUnique(a: seq<Id>, b: seq<Id>)
    requires StrictlyDecreasing(a) && StrictlyDecreasing(b)
    requires forall x :: x in a <==> x in b
    ensures a == b
  {
    if a == [] {
      if b != [] {
        HeadIsElement(b);
        assert false;
      }
    } else if b == [] {
      HeadIsElement(a);
      assert false;
    } else {
      HeadIsElement(a);
      HeadIsElement(b);
      HeadIsLargest(b, a[0]);
      HeadIsLargest(a, b[0]);
      assert a[0] == b[0];
      forall x ensures x in a[1..] <==> x in b[1..] {
        TailMembers(a, x);
        TailMembers(b, x);
      }
      DecreasingUnique(a[1..], b[1..]);
      assert a == [a[0]] + a[1..];
      assert b == [b[0]] + b[1..];
    }
  }

  /** The elements of `r` that lie in `t`, in the order of `r`. */
  function Keep(r: seq<Id>, t: set<Id>): (k: seq<Id>)
    ensures forall x :: x in k <==> x in r && x in t
    ensures StrictlyDecreasing(r) ==> StrictlyDecreasing(k)
  {
    if r == [] then []
    else
      var rest := Keep(r[1..], t);
      assert forall x | x in rest :: x in r[1..];
      if r[0] in t then
        if StrictlyDecreasing(r) then
          assert StrictlyDecreasing(r[1..]);
          assert forall x | x in rest :: x < r[0] by {
            forall x | x in rest ensures x < r[0] {
              TailMembers(r, x);
              HeadIsLargest(r, x);
            }
          }
          ConsDecreasing(r[0], rest);
          [r[0]] + rest
        else [r[0]] + rest
      else
        assert StrictlyDecreasing(r) ==> StrictlyDecreasing(r[1..]);
        rest
  }

  /** Listing a subset newest first is the same as listing the whole set and dropping the
      ids outside the subset: the narrower query is an ordered sub-list of the wider one. */
  lemma NewestFirstOfSubset(s: set<Id>, t: set<Id>)
    requires t <= s
    ensures NewestFirst(t) == Keep(NewestFirst(s), t)
  {
    DecreasingUnique(NewestFirst(t), Keep(NewestFirst(s), t));
  }
}
