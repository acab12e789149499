/** Sorted key lists: what collecting a hash map's keys and sorting them gives. */
module Keys {
  import opened Common
  import opened Text

  predicate Below(a: string, b: string) { CompareText(a, b) == Less }

  predicate StrictlySorted(ks: seq<string>) {
    forall i, j :: 0 <= i < j < |ks| ==> CompareText(ks[i], ks[j]) == Less
  }

  /** `ks` lists exactly the keys of `s`, in strictly ascending order. */
  ghost predicate Lists(ks: seq<string>, s: set<string>) {
    StrictlySorted(ks) && forall k :: k in ks <==> k in s
  }

  function Insert(ks: seq<string>, k: string): seq<string> {
    if ks == [] then [k]
    else if Below(k, ks[0]) then [k] + ks
    else [ks[0]] + Insert(ks[1..], k)
  }

  lemma {:induction false} InsertKeepsOrder(ks: seq<string>, s: set<string>, k: string)
    requires Lists(ks, s) && k !in s
    ensures Lists(Insert(ks, k), s + {k})
    decreases ks
  {
    var r := Insert(ks, k);
    if ks == [] {
    } else if Below(k, ks[0]) {
      forall i | 0 <= i < |ks|
        ensures Below(k, ks[i])
      {
        if i > 0 {
          CompareTextTransitive(k, ks[0], ks[i]);
        }
      }
    } else {
      CompareTextReverse(k, ks[0]);
      assert ks[0] in s;
      var rest := ks[1..];
      HeadIsSeparate(ks, s);
      InsertKeepsOrder(rest, s - {ks[0]}, k);
      var tail := Insert(rest, k);
      forall i | 0 <= i < |tail|
        ensures Below(ks[0], tail[i])
      {
        assert tail[i] in s - {ks[0]} + {k};
        if tail[i] != k {
          assert tail[i] in rest;
        }
      }
    }
  }

  lemma HeadIsSeparate(ks: seq<string>, s: set<string>)
    requires Lists(ks, s) && ks != []
    ensures ks[0] in s && Lists(ks[1..], s - {ks[0]})
  {
    CompareTextReverse(ks[0], ks[0]);
    forall k
      ensures k in ks[1..] <==> k in s - {ks[0]}
    {
      if k in ks[1..] {
        assert Below(ks[0], k);
        assert k in ks;
      }
    }
  }

  /** Collecting and sorting. */
  ghost function Sorted(s: set<string>): (ks: seq<string>)
    ensures Lists(ks, s)
  {
    if s == {} then []
    else
      var k :| k in s;
      var rest := Sorted(s - {k});
      InsertKeepsOrder(rest, s - {k}, k);
      assert s - {k} + {k} == s;
      Insert(rest, k)
  }

  lemma NothingListed(ks: seq<string>, s: set<string>)
    requires Lists(ks, s)
    ensures ks == [] <==> s == {}
  {
    if ks != [] {
      assert ks[0] in s;
    }
  }

  /** There is only one such list. */
  lemma {:induction false} ListsIsUnique(a: seq<string>, b: seq<string>, s: set<string>)
    requires Lists(a, s) && Lists(b, s)
    ensures a == b
    decreases a
  {
    if a == [] || b == [] {
      NothingListed(a, s);
      NothingListed(b, s);
    } else {
      CompareTextReverse(a[0], b[0]);
      assert a[0] in b && b[0] in a;
      assert a[0] == b[0];
      HeadIsSeparate(a, s);
      HeadIsSeparate(b, s);
      ListsIsUnique(a[1..], b[1..], s - {a[0]});
    }
  }

  method Sort(s: set<string>) returns (ks: seq<string>)
    ensures ks == Sorted(s)
  {
    ks := [];
    var todo := s;
    while todo != {}
      invariant todo <= s
      invariant Lists(ks, s - todo)
    {
      var k :| k in todo;
      InsertKeepsOrder(ks, s - todo, k);
      assert s - todo + {k} == s - (todo - {k});
      ks := Insert(ks, k);
      todo := todo - {k};
    }
    assert s - todo == s;
    ListsIsUnique(ks, Sorted(s), s);
  }

  lemma {:induction false} SortedSize(ks: seq<string>, s: set<string>)
    requires Lists(ks, s)
    ensures |ks| == |s|
    decreases ks
  {
    if ks == [] {
      assert s == {};
    } else {
      HeadIsSeparate(ks, s);
      SortedSize(ks[1..], s - {ks[0]});
    }
  }

  lemma SortedPosition(s: set<string>, k: string) returns (i: nat)
    requires k in s
    ensures i < |Sorted(s)| && Sorted(s)[i] == k
  {
    assert k in Sorted(s);
    i :| 0 <= i < |Sorted(s)| && Sorted(s)[i] == k;
  }

  lemma SortedDistinct(s: set<string>, i: nat, j: nat)
    requires i < |Sorted(s)| && j < |Sorted(s)| && Sorted(s)[i] == Sorted(s)[j]
    ensures i == j
  {
    CompareTextReverse(Sorted(s)[i], Sorted(s)[j]);
  }
}
