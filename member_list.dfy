/**
 * The two ways the server changes a group's member list: the
 * "push-if-absent" of join-group and the "filter out" of leave-group,
 * with the facts about order and duplicates that the handlers rely on.
 */
module MemberList {

  /** No value occurs twice in `s`. */
  ghost predicate NoDup(s: seq<string>)
  {
    forall i, j :: 0 <= i < j < |s| ==> s[i] != s[j]
  }

  /** The set of values occurring in `s`. */
  ghost function Elements(s: seq<string>): set<string>
  {
    set x | x in s
  }

  /** `r` is `s` with some elements dropped and the rest kept in order. */
  ghost predicate IsSubsequence(r: seq<string>, s: seq<string>)
    decreases |s|
  {
    r == [] ||
    (s != [] &&
     ((r[0] == s[0] && IsSubsequence(r[1..], s[1..])) || IsSubsequence(r, s[1..])))
  }

  /** `members.includes(x)` guarding `members.push(x)`: append `x` unless present. */
  function AddIfAbsent(s: seq<string>, x: string): (r: seq<string>)
    ensures x in r
    ensures forall y :: y in r <==> y in s || y == x
    ensures s <= r && |r| <= |s| + 1
    ensures r == s <==> x in s
    ensures NoDup(s) ==> NoDup(r)
  {
    if x in s then s else s + [x]
  }

  /** `members.filter(m => m !== x)`: every occurrence of `x` removed. */
  function Without(s: seq<string>, x: string): (r: seq<string>)
    ensures forall y :: y in r <==> y in s && y != x
    ensures |r| <= |s|
    ensures x in s ==> |r| < |s|
    ensures x !in s ==> r == s
    ensures NoDup(s) ==> NoDup(r)
    decreases |s|
  {
    if s == [] then []
    else if s[0] == x then Without(s[1..], x)
    else
      var rest := Without(s[1..], x);
      assert s == [s[0]] + s[1..];
      assert NoDup(s) ==> s[0] !in s[1..] && NoDup(s[1..]);
      [s[0]] + rest
  }

  /** Filtering keeps the remaining members in their original relative order. */
  lemma {:induction false} WithoutIsSubsequence(s: seq<string>, x: string)
    ensures IsSubsequence(Without(s, x), s)
    decreases |s|
  {
    if s != [] {
      WithoutIsSubsequence(s[1..], x);
      if s[0] != x {
        var r := Without(s, x);
        assert r[0] == s[0] && r[1..] == Without(s[1..], x);
      }
    }
  }

  /** Filtering removes every copy of `x` and no copy of anything else. */
  lemma {:induction false} WithoutCounts(s: seq<string>, x: string)
    ensures multiset(Without(s, x)) == multiset(s)[x := 0]
    decreases |s|
  {
    if s != [] {
      WithoutCounts(s[1..], x);
      assert s == [s[0]] + s[1..];
    }
  }

  /** A subsequence holds no more copies of a value than the sequence it came from. */
  lemma {:induction false} SubsequenceCount(r: seq<string>, s: seq<string>, y: string)
    requires IsSubsequence(r, s)
    ensures multiset(r)[y] <= multiset(s)[y]
    decreases |s|
  {
    if r != [] {
      assert s == [s[0]] + s[1..];
      if r[0] == s[0] && IsSubsequence(r[1..], s[1..]) {
        SubsequenceCount(r[1..], s[1..], y);
        assert r == [r[0]] + r[1..];
      } else {
        SubsequenceCount(r, s[1..], y);
      }
    }
  }

  /**
   * The converse of WithoutIsSubsequence and WithoutCounts: an order-preserving
   * selection from `s` that drops exactly the copies of `x` IS `Without(s, x)`.
   */
  lemma {:induction false} WithoutUnique(r: seq<string>, s: seq<string>, x: string)
    requires IsSubsequence(r, s)
    requires x !in r
    requires forall y :: y != x ==> multiset(r)[y] == multiset(s)[y]
    ensures r == Without(s, x)
    decreases |s|
  {
    if s == [] {
    } else {
      var a, t := s[0], s[1..];
      assert s == [a] + t;
      if a == x {
        assert IsSubsequence(r, t);
        WithoutUnique(r, t, x);
      } else {
        assert multiset(r)[a] == multiset(t)[a] + 1;
        if r != [] && r[0] == a && IsSubsequence(r[1..], t) {
          assert r == [a] + r[1..];
          forall y | y != x
            ensures multiset(r[1..])[y] == multiset(t)[y]
          {
            assert multiset(r)[y] == multiset(r[1..])[y] + (if y == a then 1 else 0);
          }
          WithoutUnique(r[1..], t, x);
        } else {
          assert r != [] && IsSubsequence(r, t);
          SubsequenceCount(r, t, a);
        }
      }
    }
  }

  /** A list without duplicates has as many entries as distinct values. */
  lemma {:induction false} NoDupCardinality(s: seq<string>)
    requires NoDup(s)
    ensures |Elements(s)| == |s|
    decreases |s|
  {
    if s != [] {
      NoDupCardinality(s[1..]);
      assert Elements(s) == {s[0]} + Elements(s[1..]);
      assert s[0] !in Elements(s[1..]);
    }
  }
}
