/** Order-preserving operations on sequences, as used by the stores and the
    selection lists of the user interface. */
module Seqs {

  /** `sub` is obtained from `s` by deleting elements and keeping the rest in order. */
  predicate IsSubseq<T(==)>(sub: seq<T>, s: seq<T>)
    decreases |s|
  {
    if |sub| == 0 then true
    else if |s| == 0 then false
    else if sub[0] == s[0] then IsSubseq(sub[1..], s[1..])
    else IsSubseq(sub, s[1..])
  }

  /** The first `n` elements of `s` (all of them if `s` is shorter), like
      JavaScript's `slice(0, n)`. */
  function Take<T>(s: seq<T>, n: nat): (r: seq<T>)
    ensures |r| <= n && |r| <= |s|
    ensures |s| <= n ==> r == s
    ensures n <= |s| ==> |r| == n
    ensures forall i :: 0 <= i < |r| ==> r[i] == s[i]
  {
    if |s| <= n then s else s[..n]
  }

  /** The elements of `s` that satisfy `keep`, in order (JavaScript's `filter`). */
  function Filter<T(==)>(s: seq<T>, keep: T -> bool): (r: seq<T>)
    ensures |r| <= |s|
    ensures forall i :: 0 <= i < |r| ==> keep(r[i]) && r[i] in s
    ensures forall i :: 0 <= i < |s| && keep(s[i]) ==> s[i] in r
    ensures IsSubseq(r, s)
  {
    if |s| == 0 then []
    else
      var rest := Filter(s[1..], keep);
      assert forall i :: 1 <= i < |s| ==> s[i] == s[1..][i - 1];
      if keep(s[0]) then [s[0]] + rest
      else
        assert |rest| > 0 ==> rest[0] != s[0] by {
          if |rest| > 0 { assert keep(rest[0]); }
        }
        rest
  }

  /** Filtering keeps every value that passes as many times as it occurs, and
      no value that fails. */
  /** Capping a list that had `x` pushed on a capped list keeps `x` and one
      fewer of the old elements. */
  lemma TakeAfterPush<T>(x: T, s: seq<T>, m: nat, k: nat)
    requires 1 <= k <= m + 1
    ensures Take([x] + Take(s, m), k) == [x] + Take(s, k - 1)
  {
    var l := Take([x] + Take(s, m), k);
    var want := [x] + Take(s, k - 1);
    assert |l| == |want|;
    forall i | 0 <= i < |l| ensures l[i] == want[i] {
      if i > 0 {
        assert l[i] == Take(s, m)[i - 1];
      }
    }
  }

  /** `s` back to front. */
  function Reverse<T>(s: seq<T>): (r: seq<T>)
    ensures |r| == |s|
    ensures forall i :: 0 <= i < |s| ==> r[i] == s[|s| - 1 - i]
  {
    if |s| == 0 then [] else Reverse(s[1..]) + [s[0]]
  }

  /** Pushing `items` one at a time on the front of `s`, keeping at most `cap`. */
  function PushCapped<T>(s: seq<T>, items: seq<T>, cap: nat): seq<T>
    requires cap > 0
    decreases |items|
  {
    if |items| == 0 then s else PushCapped([items[0]] + Take(s, cap - 1), items[1..], cap)
  }

  /** While everything fits, the pushed items end newest first on top of what
      is left of `s`. */
  lemma {:induction false} PushCappedAll<T>(s: seq<T>, items: seq<T>, cap: nat)
    requires 0 < cap && |items| <= cap && |s| <= cap
    ensures PushCapped(s, items, cap) == Reverse(items) + Take(s, cap - |items|)
    decreases |items|
  {
    if |items| > 0 {
      var x := items[0];
      var pushed := [x] + Take(s, cap - 1);
      PushCappedAll(pushed, items[1..], cap);
      TakeAfterPush(x, s, cap - 1, cap - |items[1..]|);
      assert Reverse(items) == Reverse(items[1..]) + [x];
    }
  }

  lemma {:induction false} FilterCounts<T(!new)>(s: seq<T>, keep: T -> bool)
    ensures forall x {:trigger multiset(Filter(s, keep))[x]} ::
      multiset(Filter(s, keep))[x] == (if keep(x) then multiset(s)[x] else 0)
    decreases |s|
  {
    if |s| > 0 {
      FilterCounts(s[1..], keep);
      assert s == [s[0]] + s[1..];
      assert multiset(s) == multiset{s[0]} + multiset(s[1..]);
      var rest := Filter(s[1..], keep);
      if keep(s[0]) {
        assert Filter(s, keep) == [s[0]] + rest;
        assert multiset(Filter(s, keep)) == multiset{s[0]} + multiset(rest);
      } else {
        assert Filter(s, keep) == rest;
      }
    }
  }

  /** Filtering keeps everything when everything passes. */
  lemma {:induction false} FilterKeepsAll<T>(s: seq<T>, keep: T -> bool)
    requires forall i :: 0 <= i < |s| ==> keep(s[i])
    ensures Filter(s, keep) == s
  {
    if |s| > 0 {
      FilterKeepsAll(s[1..], keep);
      assert [s[0]] + s[1..] == s;
    }
  }

  /** Filtering out one element of a sequence without repetitions removes
      exactly that position. */
  lemma {:induction false} FilterOutOne<T>(s: seq<T>, keep: T -> bool, k: nat)
    requires forall i, j :: 0 <= i < j < |s| ==> s[i] != s[j]
    requires k < |s|
    requires forall i :: 0 <= i < |s| ==> (keep(s[i]) <==> i != k)
    ensures Filter(s, keep) == RemoveAt(s, k)
    decreases |s|
  {
    if k == 0 {
      FilterKeepsAll(s[1..], keep);
    } else {
      FilterOutOne(s[1..], keep, k - 1);
    }
  }

  /** `s` without the element at position `index`; any other index, negative or
      too large, removes nothing (JavaScript's `filter((_, i) => i !== index)`). */
  function RemoveAt<T>(s: seq<T>, index: int): (r: seq<T>)
    ensures 0 <= index < |s| ==> r == s[..index] + s[index + 1..]
    ensures !(0 <= index < |s|) ==> r == s
    decreases |s|
  {
    if |s| == 0 then []
    else if index == 0 then s[1..]
    else
      var rest := RemoveAt(s[1..], index - 1);
      ConsAround(s, index);
      [s[0]] + rest
  }

  /** Putting the head back in front of the tail with one element dropped. */
  lemma ConsAround<T>(s: seq<T>, index: int)
    requires |s| > 0
    ensures [s[0]] + s[1..] == s
    ensures 0 < index < |s| ==> [s[0]] + (s[1..][..index - 1] + s[1..][index..]) == s[..index] + s[index + 1..]
  {
    if 0 < index < |s| {
      assert s[1..][..index - 1] == s[1..index] && s[1..][index..] == s[index + 1..];
      assert [s[0]] + s[1..index] == s[..index];
    }
  }

  /** Every sequence is a subsequence of itself. */
  lemma {:induction false} SubseqRefl<T>(s: seq<T>)
    ensures IsSubseq(s, s)
    decreases |s|
  {
    if |s| > 0 {
      SubseqRefl(s[1..]);
    }
  }

  /** Dropping elements from the end of a subsequence keeps it a subsequence. */
  lemma {:induction false} SubseqPrefix<T>(sub: seq<T>, s: seq<T>, n: nat)
    requires IsSubseq(sub, s)
    requires n <= |sub|
    ensures IsSubseq(sub[..n], s)
    decreases |s|
  {
    if n == 0 || |sub| == 0 {
    } else if sub[0] == s[0] {
      SubseqPrefix(sub[1..], s[1..], n - 1);
      assert sub[..n][1..] == sub[1..][..n - 1];
    } else {
      SubseqPrefix(sub, s[1..], n);
    }
  }

  /** Every element of a subsequence is an element of the whole. */
  lemma {:induction false} SubseqMembers<T>(sub: seq<T>, s: seq<T>)
    requires IsSubseq(sub, s)
    ensures forall x :: x in sub ==> x in s
    decreases |s|
  {
    if |sub| == 0 {
    } else if sub[0] == s[0] {
      SubseqMembers(sub[1..], s[1..]);
      forall x | x in sub ensures x in s {
        if x != sub[0] { assert x in sub[1..]; }
      }
    } else {
      SubseqMembers(sub, s[1..]);
    }
  }
}
