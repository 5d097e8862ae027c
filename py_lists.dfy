/** The Python list idioms the trend client uses: `list(dict.fromkeys(xs))`
    to drop repeated items keeping the first of each, and `xs[:n]`. */
module PyLists {

  /** No item occurs twice. */
  predicate NoDups(s: seq<string>) {
    forall i, j :: 0 <= i < j < |s| ==> s[i] != s[j]
  }

  /** Position of the first occurrence of x in s. */
  function IndexOf(s: seq<string>, x: string): (k: nat)
    requires x in s
    ensures k < |s| && s[k] == x
    ensures forall j :: 0 <= j < k ==> s[j] != x
  {
    if s[0] == x then 0 else 1 + IndexOf(s[1..], x)
  }

  /** `list(dict.fromkeys(s))`: dict keys keep the order in which they were
      first inserted, and inserting a key that is already there changes
      nothing. The result holds each item of s exactly once. */
  function FromKeys(s: seq<string>): (r: seq<string>)
    ensures NoDups(r)
    ensures forall x :: x in r <==> x in s
    ensures |r| <= |s|
  {
    if s == [] then []
    else
      var d := FromKeys(s[..|s| - 1]);
      var x := s[|s| - 1];
      assert forall y :: y in s <==> y in s[..|s| - 1] || y == x by {
        assert s == s[..|s| - 1] + [x];
      }
      if x in d then d else d + [x]
  }

  /** The items of FromKeys(s) come in the order of their first occurrence
      in s. */
  lemma {:induction false} FromKeysFirstOccurrenceOrder(s: seq<string>)
    ensures forall i, j :: 0 <= i < j < |FromKeys(s)| ==>
              IndexOf(s, FromKeys(s)[i]) < IndexOf(s, FromKeys(s)[j])
  {
    if s != [] {
      var p := s[..|s| - 1];
      var x := s[|s| - 1];
      var d := FromKeys(p);
      FromKeysFirstOccurrenceOrder(p);
      assert s == p + [x];
      forall y | y in p ensures IndexOf(s, y) == IndexOf(p, y) {
        IndexOfExtend(p, x, y);
      }
      if x !in d {
        assert IndexOf(s, x) == |s| - 1;
        forall i | 0 <= i < |d| ensures IndexOf(s, d[i]) < IndexOf(s, x) {
          assert d[i] in p;
        }
      }
    }
  }

  lemma {:induction false} IndexOfExtend(p: seq<string>, x: string, y: string)
    requires y in p
    ensures IndexOf(p + [x], y) == IndexOf(p, y)
  {
    if p[0] != y {
      assert (p + [x])[1..] == p[1..] + [x];
      IndexOfExtend(p[1..], x, y);
    }
  }

  /** A list without repeats is as long as the set of its items. */
  lemma {:induction false} NoDupsCard(s: seq<string>)
    requires NoDups(s)
    ensures |set x | x in s| == |s|
  {
    if s != [] {
      var t := s[1..];
      NoDupsCard(t);
      assert (set x | x in s) == (set x | x in t) + {s[0]};
      assert forall j :: 0 <= j < |t| ==> t[j] == s[j + 1];
      assert s[0] !in t;
    }
  }

  /** FromKeys keeps exactly the distinct items: as many as the set of s has. */
  lemma FromKeysLength(s: seq<string>)
    ensures |FromKeys(s)| == |set x | x in s|
  {
    NoDupsCard(FromKeys(s));
    assert (set x | x in FromKeys(s)) == (set x | x in s);
  }

  /** `s[:n]`: the first n items (all of them when n is larger); a negative
      n drops the last -n items. */
  function SliceTo(s: seq<string>, n: int): (r: seq<string>)
    ensures r <= s
    ensures n >= 0 ==> |r| == if n < |s| then n else |s|
  {
    if n >= 0 then (if n < |s| then s[..n] else s)
    else if |s| + n > 0 then s[..|s| + n] else []
  }
}
