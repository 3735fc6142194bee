/**
 The Redis list and sorted-set commands the queue engine is built on, stated
 over plain values: a list is a `seq`, a sorted set is a `map` from member to
 integer score.
 */
module RedisPrimitives {

  import opened Options

  // ---------------------------------------------------------------------------
  // Lists. The head is index 0, the tail is the last index.
  // ---------------------------------------------------------------------------

  /** The sequence read back to front. */
  function Reverse<T>(s: seq<T>): (r: seq<T>)
    ensures |r| == |s|
  {
    if s == [] then [] else [s[|s| - 1]] + Reverse(s[..|s| - 1])
  }

  /** Position `i` of the reversal holds position `|s| - 1 - i` of the original. */
  lemma {:induction false} ReverseIndex<T>(s: seq<T>)
    ensures forall i :: 0 <= i < |s| ==> Reverse(s)[i] == s[|s| - 1 - i]
  {
    if s != [] {
      var init := s[..|s| - 1];
      ReverseIndex(init);
      assert Reverse(s) == [s[|s| - 1]] + Reverse(init);
      forall i | 0 < i < |s|
        ensures Reverse(s)[i] == s[|s| - 1 - i]
      {
        assert Reverse(s)[i] == Reverse(init)[i - 1];
        assert Reverse(init)[i - 1] == init[|init| - 1 - (i - 1)];
      }
    }
  }

  /** Reversal is a permutation: every element keeps its number of occurrences. */
  lemma {:induction false} ReverseMultiset<T>(s: seq<T>)
    ensures multiset(Reverse(s)) == multiset(s)
  {
    if s != [] {
      var init := s[..|s| - 1];
      ReverseMultiset(init);
      assert s == init + [s[|s| - 1]];
    }
  }

  /** Reversal keeps membership. */
  lemma ReverseMembers<T>(s: seq<T>)
    ensures forall x :: x in Reverse(s) <==> x in s
  {
    ReverseMultiset(s);
    assert forall x :: x in Reverse(s) <==> x in multiset(Reverse(s));
  }

  /** RPUSH of one value: it becomes the new tail. */
  function RPush<T>(list: seq<T>, value: T): (r: seq<T>)
    ensures |r| == |list| + 1
    ensures r[..|list|] == list && r[|list|] == value
  {
    list + [value]
  }

  /** RPOP: removes and returns the tail, or nothing when the list is empty. */
  function RPop<T>(list: seq<T>): (r: Option<(T, seq<T>)>)
    ensures list == [] <==> r.None?
    ensures r.Some? ==> list == r.value.1 + [r.value.0]
  {
    if list == [] then None else Some((list[|list| - 1], list[..|list| - 1]))
  }

  /** Popping right after pushing gives back the pushed value and the old list. */
  lemma RPopAfterRPush<T>(list: seq<T>, value: T)
    ensures RPop(RPush(list, value)) == Some((value, list))
  {
    assert RPush(list, value)[..|list|] == list;
  }

  /**
   LPUSH with several values: each value in turn is pushed onto the head, so
   the last value ends up first and the values land reversed.
   */
  function LPush<T>(list: seq<T>, values: seq<T>): (r: seq<T>)
    ensures r == Reverse(values) + list
    decreases |values|
  {
    if values == [] then list
    else
      var r := LPush([values[0]] + list, values[1..]);
      ReverseDropFirst(values);
      assert Reverse(values) + list == Reverse(values[1..]) + ([values[0]] + list);
      r
  }

  /** Reversing a non-empty sequence puts its first element last. */
  lemma ReverseDropFirst<T>(s: seq<T>)
    requires s != []
    ensures Reverse(s) == Reverse(s[1..]) + [s[0]]
  {
    var a, b := Reverse(s), Reverse(s[1..]) + [s[0]];
    ReverseIndex(s);
    ReverseIndex(s[1..]);
    assert |a| == |b|;
    forall i | 0 <= i < |a|
      ensures a[i] == b[i]
    {
      if i < |s| - 1 {
        assert b[i] == Reverse(s[1..])[i] == s[1..][|s| - 2 - i];
      }
    }
  }

  // ---------------------------------------------------------------------------
  // Sorted sets: member -> score.
  // ---------------------------------------------------------------------------

  /** The lower bound of ZRANGEBYSCORE: '-inf' or an inclusive score. */
  datatype MinScore = NegInfinity | AtLeast(score: int)

  /** ZRANGEBYSCORE bounds are inclusive at both ends. */
  predicate InRange(score: int, min: MinScore, max: int)
  {
    (min.NegInfinity? || min.score <= score) && score <= max
  }

  predicate Distinct<T(==)>(s: seq<T>)
  {
    forall i, j :: 0 <= i < j < |s| ==> s[i] != s[j]
  }

  /** Putting a new element in front keeps a sequence free of repeats. */
  lemma DistinctCons<T>(x: T, s: seq<T>)
    ensures Distinct(s) && x !in s ==> Distinct([x] + s)
  {
    if Distinct(s) && x !in s {
      forall i, j | 0 <= i < j < |[x] + s|
        ensures ([x] + s)[i] != ([x] + s)[j]
      {
        if i == 0 {
          assert ([x] + s)[j] == s[j - 1];
        }
      }
    }
  }

  /** Every element of `s` is a member of `z`, listed by ascending score. */
  predicate ByScore<K>(z: map<K, int>, s: seq<K>)
  {
    && (forall i :: 0 <= i < |s| ==> s[i] in z)
    && (forall i, j :: 0 <= i < j < |s| ==> s[i] in z && s[j] in z && z[s[i]] <= z[s[j]])
  }

  /**
   What a ZRANGEBYSCORE reply is: every member scored within the inclusive
   range, each once, in ascending score order. Redis breaks score ties by the
   members' bytes; that order is left open here.
   */
  predicate IsRangeReply<K(!new)>(z: map<K, int>, min: MinScore, max: int, reply: seq<K>)
  {
    && (forall k :: k in reply ==> k in z && InRange(z[k], min, max))
    && (forall k :: k in z && InRange(z[k], min, max) ==> k in reply)
    && Distinct(reply)
    && ByScore(z, reply)
  }

  /** ZREM of several members; members that are absent are ignored. */
  function ZRem<K(!new)>(z: map<K, int>, members: seq<K>): (r: map<K, int>)
    ensures forall k :: k in r <==> k in z && k !in members
    ensures forall k :: k in r ==> r[k] == z[k]
  {
    map k | k in z && k !in members :: z[k]
  }

  /** ZREM of nothing leaves the set as it was. */
  lemma ZRemNothing<K(!new)>(z: map<K, int>)
    ensures ZRem(z, []) == z
  {
  }

  /** Removing a ZRANGEBYSCORE reply leaves exactly the members scored outside the range. */
  lemma ZRemRangeReply<K(!new)>(z: map<K, int>, min: MinScore, max: int, reply: seq<K>)
    requires IsRangeReply(z, min, max, reply)
    ensures ZRem(z, reply) == map k | k in z && !InRange(z[k], min, max) :: z[k]
  {
  }

  /** Places `k` into a score-ordered sequence, after the members it does not outscore. */
  function InsertByScore<K(!new)>(z: map<K, int>, s: seq<K>, k: K): (r: seq<K>)
    requires k in z && ByScore(z, s)
    ensures ByScore(z, r)
    ensures forall x :: x in r <==> x in s || x == k
    ensures Distinct(s) && k !in s ==> Distinct(r)
    decreases |s|
  {
    if s == [] || z[k] < z[s[0]] then
      assert forall i :: 1 <= i < |s| ==> z[s[0]] <= z[s[i]];
      [k] + s
    else
      var rest := InsertByScore(z, s[1..], k);
      assert forall x :: x in rest ==> x in s[1..] || x == k;
      assert forall x :: x in s[1..] ==> z[s[0]] <= z[x];
      assert Distinct(s) && k !in s ==> s[0] !in rest && Distinct(rest) by {
        if Distinct(s) && k !in s {
          assert forall j :: 0 <= j < |s[1..]| ==> s[1..][j] == s[j + 1] != s[0];
        }
      }
      DistinctCons(s[0], rest);
      [s[0]] + rest
  }

  /** ZRANGEBYSCORE: the members of `z` scored within [min, max]. */
  method RangeByScore<K(!new)>(z: map<K, int>, min: MinScore, max: int) returns (reply: seq<K>)
    ensures IsRangeReply(z, min, max, reply)
  {
    reply := [];
    var rest := z.Keys;
    while rest != {}
      invariant rest <= z.Keys
      invariant forall k :: k in reply <==> k in z && k !in rest && InRange(z[k], min, max)
      invariant Distinct(reply)
      invariant ByScore(z, reply)
      decreases rest
    {
      var k :| k in rest;
      rest := rest - {k};
      if InRange(z[k], min, max) {
        reply := InsertByScore(z, reply, k);
      }
    }
  }

}
