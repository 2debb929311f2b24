/**
 * The key order of a std::map<string, ...>: keys are kept strictly increasing
 * in the lexicographic order of std::string, so iterating over the map visits
 * them in that order. The manager keeps its train ids as such a sequence.
 */
module OrderedKeys {

  /** Strict lexicographic order on strings, character by character. */
  predicate Less(a: string, b: string)
  {
    if |a| == 0 then |b| > 0
    else if |b| == 0 then false
    else if a[0] != b[0] then a[0] < b[0]
    else Less(a[1..], b[1..])
  }

  lemma {:induction false} LessIrreflexive(a: string)
    ensures !Less(a, a)
  {
    if |a| > 0 {
      LessIrreflexive(a[1..]);
    }
  }

  lemma {:induction false} LessTransitive(a: string, b: string, c: string)
    requires Less(a, b) && Less(b, c)
    ensures Less(a, c)
  {
    if |a| > 0 && |b| > 0 && |c| > 0 && a[0] == b[0] && b[0] == c[0] {
      LessTransitive(a[1..], b[1..], c[1..]);
    }
  }

  lemma {:induction false} LessTotal(a: string, b: string)
    requires a != b
    ensures Less(a, b) || Less(b, a)
  {
    if |a| > 0 && |b| > 0 && a[0] == b[0] {
      assert a == [a[0]] + a[1..] && b == [b[0]] + b[1..];
      LessTotal(a[1..], b[1..]);
    }
  }

  /** Strictly increasing: the shape of a std::map's key sequence. */
  ghost predicate Sorted(s: seq<string>)
  {
    forall i, j :: 0 <= i < j < |s| ==> Less(s[i], s[j])
  }

  /** A strictly increasing sequence holds no key twice. */
  lemma SortedDistinct(s: seq<string>)
    requires Sorted(s)
    ensures forall i, j :: 0 <= i < j < |s| ==> s[i] != s[j]
  {
    forall i, j | 0 <= i < j < |s|
      ensures s[i] != s[j]
    {
      LessIrreflexive(s[i]);
    }
  }

  lemma SortedPrepend(k: string, s: seq<string>)
    requires Sorted(s) && |s| > 0 && Less(k, s[0])
    ensures Sorted([k] + s)
  {
    forall j | 0 < j < |s|
      ensures Less(k, s[j])
    {
      LessTransitive(k, s[0], s[j]);
    }
  }

  /** Keys picked from a strictly increasing sequence at increasing positions are strictly increasing. */
  lemma SortedPick(s: seq<string>, picked: seq<int>, r: seq<string>)
    requires Sorted(s) && |r| == |picked|
    requires forall a :: 0 <= a < |picked| ==> 0 <= picked[a] < |s| && r[a] == s[picked[a]]
    requires forall a, b :: 0 <= a < b < |picked| ==> picked[a] < picked[b]
    ensures Sorted(r)
  {
  }

  /** The key sequence after inserting `k` into the map (std::map::operator[]). */
  function Insert(s: seq<string>, k: string): (r: seq<string>)
    requires Sorted(s)
    ensures Sorted(r)
    ensures forall x :: x in r <==> x in s || x == k
  {
    if |s| == 0 then [k]
    else if s[0] == k then s
    else if Less(k, s[0]) then
      SortedPrepend(k, s);
      [k] + s
    else
      LessTotal(k, s[0]);
      var tail := Insert(s[1..], k);
      assert forall x :: x in tail ==> Less(s[0], x);
      [s[0]] + tail
  }

  /** The key sequence after erasing `k` from the map (std::map::erase). */
  function Remove(s: seq<string>, k: string): (r: seq<string>)
    requires Sorted(s)
    ensures Sorted(r)
    ensures forall x :: x in r <==> x in s && x != k
    ensures k !in s ==> r == s
  {
    if |s| == 0 then []
    else if s[0] == k then
      SortedDistinct(s);
      s[1..]
    else
      var tail := Remove(s[1..], k);
      assert forall x :: x in tail ==> Less(s[0], x);
      [s[0]] + tail
  }

  /** Two strictly increasing sequences with the same keys are the same sequence. */
  lemma {:induction false} SortedUnique(a: seq<string>, b: seq<string>)
    requires Sorted(a) && Sorted(b)
    requires forall x :: x in a <==> x in b
    ensures a == b
  {
    if |a| > 0 && |b| > 0 {
      // The first key of each is the least key of both.
      if a[0] != b[0] {
        assert b[0] in a;
        var j :| 0 <= j < |a| && a[j] == b[0];
        assert j > 0;
        assert a[0] in b;
        var k :| 0 <= k < |b| && b[k] == a[0];
        assert k > 0;
        LessTransitive(a[0], b[0], a[0]);
        LessIrreflexive(a[0]);
      }
      SortedDistinct(a);
      SortedDistinct(b);
      forall x
        ensures x in a[1..] <==> x in b[1..]
      {
        if x in a[1..] {
          var i :| 1 <= i < |a| && a[i] == x;
          assert x in a;
          var j :| 0 <= j < |b| && b[j] == x;
          assert j != 0;
          assert b[1..][j - 1] == x;
        }
        if x in b[1..] {
          var i :| 1 <= i < |b| && b[i] == x;
          assert x in b;
          var j :| 0 <= j < |a| && a[j] == x;
          assert j != 0;
          assert a[1..][j - 1] == x;
        }
      }
      SortedUnique(a[1..], b[1..]);
      assert a == [a[0]] + a[1..] && b == [b[0]] + b[1..];
    } else {
      SameKeysSameEmptiness(a, b);
    }
  }

  lemma SameKeysSameEmptiness(a: seq<string>, b: seq<string>)
    requires forall x :: x in a <==> x in b
    ensures |a| == 0 <==> |b| == 0
  {
    if |a| > 0 {
      assert a[0] in b;
    }
    if |b| > 0 {
      assert b[0] in a;
    }
  }
}
