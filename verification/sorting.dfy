/** Ordering of query results: the `sort(...)` the server asks MongoDB for,
    restated as selection sorts over a set of document ids. Ties keep no
    particular order, as with MongoDB. */
module Sorting {
  import opened Common

  predicate Distinct(s: seq<Id>)
  {
    forall i, j :: 0 <= i < j < |s| ==> s[i] != s[j]
  }

  /** `s` lists exactly the elements of `ids`, each once. */
  ghost predicate Enumerates(s: seq<Id>, ids: set<Id>)
  {
    Distinct(s) && forall x :: x in s <==> x in ids
  }

  // ---------------------------------------------------------------------------
  // Integer keys, descending (e.g. `sort({ lastMessage: -1 })`)

  predicate SortedDesc(s: seq<Id>, key: map<Id, int>)
    requires forall x :: x in s ==> x in key
  {
    forall i, j :: 0 <= i < j < |s| ==> key[s[i]] >= key[s[j]]
  }

  lemma {:induction false} MaxByKey(s: set<Id>, key: map<Id, int>) returns (m: Id)
    requires s != {}
    requires s <= key.Keys
    ensures m in s
    ensures forall x :: x in s ==> key[x] <= key[m]
    decreases |s|
  {
    var y :| y in s;
    if s == {y} {
      m := y;
    } else {
      var rest := MaxByKey(s - {y}, key);
      m := if key[y] <= key[rest] then rest else y;
      forall x | x in s
        ensures key[x] <= key[m]
      {
        if x != y {
          assert x in s - {y};
        }
      }
    }
  }

  /** Orders `ids` by `key`, largest first. */
  method SortDesc(ids: set<Id>, key: map<Id, int>) returns (r: seq<Id>)
    requires ids <= key.Keys
    ensures Enumerates(r, ids)
    ensures SortedDesc(r, key)
  {
    r := [];
    var rest := ids;
    while rest != {}
      invariant rest <= ids
      invariant forall x :: x in r <==> x in ids && x !in rest
      invariant Distinct(r)
      invariant SortedDesc(r, key)
      invariant forall i, x :: 0 <= i < |r| && x in rest ==> key[x] <= key[r[i]]
      decreases |rest|
    {
      ghost var w := MaxByKey(rest, key);
      var m :| m in rest && forall x :: x in rest ==> key[x] <= key[m];
      r := r + [m];
      rest := rest - {m};
    }
  }

  // ---------------------------------------------------------------------------
  // String keys, ascending (e.g. `sort({ name: 1 })`), compared code point by
  // code point as MongoDB's default binary collation does.

  /** `a` sorts no later than `b`: lexicographic order, a prefix first. */
  predicate LexLe(a: string, b: string)
    decreases |a|
  {
    if |a| == 0 then true
    else if |b| == 0 then false
    else if a[0] != b[0] then a[0] < b[0]
    else LexLe(a[1..], b[1..])
  }

  lemma {:induction false} LexLeTotal(a: string, b: string)
    ensures LexLe(a, b) || LexLe(b, a)
    decreases |a|
  {
    if |a| != 0 && |b| != 0 && a[0] == b[0] {
      LexLeTotal(a[1..], b[1..]);
    }
  }

  lemma {:induction false} LexLeTransitive(a: string, b: string, c: string)
    requires LexLe(a, b) && LexLe(b, c)
    ensures LexLe(a, c)
    decreases |a|
  {
    if |a| != 0 && |b| != 0 && |c| != 0 && a[0] == b[0] && b[0] == c[0] {
      LexLeTransitive(a[1..], b[1..], c[1..]);
    }
  }

  lemma {:induction false} LexLeAntisymmetric(a: string, b: string)
    requires LexLe(a, b) && LexLe(b, a)
    ensures a == b
    decreases |a|
  {
    if |a| != 0 && |b| != 0 {
      LexLeAntisymmetric(a[1..], b[1..]);
      assert a == [a[0]] + a[1..];
      assert b == [b[0]] + b[1..];
    }
  }

  predicate SortedByName(s: seq<Id>, name: map<Id, string>)
    requires forall x :: x in s ==> x in name
  {
    forall i, j :: 0 <= i < j < |s| ==> LexLe(name[s[i]], name[s[j]])
  }

  lemma {:induction false} MinByName(s: set<Id>, name: map<Id, string>) returns (m: Id)
    requires s != {}
    requires s <= name.Keys
    ensures m in s
    ensures forall x :: x in s ==> LexLe(name[m], name[x])
    decreases |s|
  {
    var y :| y in s;
    if s == {y} {
      m := y;
      LexLeTotal(name[y], name[y]);
    } else {
      var rest := MinByName(s - {y}, name);
      LexLeTotal(name[y], name[rest]);
      m := if LexLe(name[y], name[rest]) then y else rest;
      forall x | x in s
        ensures LexLe(name[m], name[x])
      {
        if x == y {
          LexLeTotal(name[y], name[y]);
        } else {
          assert x in s - {y};
          if m == y {
            LexLeTransitive(name[y], name[rest], name[x]);
          }
        }
      }
    }
  }

  /** Orders `ids` by `name`, smallest first. */
  method SortByName(ids: set<Id>, name: map<Id, string>) returns (r: seq<Id>)
    requires ids <= name.Keys
    ensures Enumerates(r, ids)
    ensures SortedByName(r, name)
  {
    r := [];
    var rest := ids;
    while rest != {}
      invariant rest <= ids
      invariant forall x :: x in r <==> x in ids && x !in rest
      invariant Distinct(r)
      invariant SortedByName(r, name)
      invariant forall i, x :: 0 <= i < |r| && x in rest ==> LexLe(name[r[i]], name[x])
      decreases |rest|
    {
      ghost var w := MinByName(rest, name);
      var m :| m in rest && forall x :: x in rest ==> LexLe(name[m], name[x]);
      r := r + [m];
      rest := rest - {m};
    }
  }
}
