/** The JavaScript containers the repository is written with: arrays used as duplicate-free
    lists (indexOf, push, splice) and Map, whose iteration order is insertion order. */
module Collections {

  datatype Option<+T> = None | Some(value: T)

  lemma AppendAssoc<T>(a: seq<T>, b: seq<T>, c: seq<T>)
    ensures (a + b) + c == a + (b + c)
    ensures a + [] == a
  {}

  /** No element occurs twice. */
  ghost predicate NoDup<T>(s: seq<T>) {
    s == [] || (s[|s| - 1] !in s[..|s| - 1] && NoDup(s[..|s| - 1]))
  }

  function Members<T(==)>(s: seq<T>): set<T> {
    set x | x in s
  }

  lemma {:induction false} MembersCard<T(!new)>(s: seq<T>)
    requires NoDup(s)
    ensures |Members(s)| == |s|
  {
    if s != [] {
      MembersCard(s[..|s| - 1]);
      assert s == s[..|s| - 1] + [s[|s| - 1]];
      assert Members(s) == Members(s[..|s| - 1]) + {s[|s| - 1]};
    }
  }

  lemma {:induction false} NoDupIndex<T>(s: seq<T>, i: nat, j: nat)
    requires NoDup(s) && i < j < |s|
    ensures s[i] != s[j]
  {
    if j < |s| - 1 {
      assert s[..|s| - 1][i] == s[i] && s[..|s| - 1][j] == s[j];
      NoDupIndex(s[..|s| - 1], i, j);
    } else {
      assert s[i] in s[..|s| - 1];
    }
  }

  lemma {:induction false} NoDupPrefix<T>(s: seq<T>, n: nat)
    requires NoDup(s) && n <= |s|
    ensures NoDup(s[..n])
  {
    if n < |s| {
      assert s[..|s| - 1][..n] == s[..n];
      NoDupPrefix(s[..|s| - 1], n);
    } else {
      assert s[..n] == s;
    }
  }

  /** The way to show a list duplicate-free from its indices. */
  lemma {:induction false} NoDupFromIndices<T>(s: seq<T>)
    requires forall i, j :: 0 <= i < j < |s| ==> s[i] != s[j]
    ensures NoDup(s)
  {
    if s != [] { NoDupFromIndices(s[..|s| - 1]); }
  }

  lemma NoDupAppend<T>(s: seq<T>, x: T)
    ensures NoDup(s + [x]) <==> NoDup(s) && x !in s
  {
    assert (s + [x])[..|s|] == s;
  }

  lemma {:induction false} NoDupConcat<T(!new)>(a: seq<T>, b: seq<T>)
    ensures NoDup(a + b) <==> NoDup(a) && NoDup(b) && forall x :: x in a ==> x !in b
  {
    if b == [] {
      assert a + b == a;
    } else {
      var rest, last := b[..|b| - 1], b[|b| - 1];
      assert b == rest + [last];
      assert a + b == (a + rest) + [last];
      NoDupConcat(a, rest);
      NoDupAppend(a + rest, last);
      assert forall x :: x in b <==> x in rest || x == last;
      assert forall x :: x in a + rest <==> x in a || x in rest;
    }
  }

  /** `splice(indexOf(x), 1)`, or nothing when x is absent. */
  function Remove<T(==)>(s: seq<T>, x: T): (r: seq<T>)
    ensures x !in s ==> r == s
    ensures x in s ==> |r| == |s| - 1
  {
    if s == [] then []
    else if s[0] == x then s[1..]
    else [s[0]] + Remove(s[1..], x)
  }

  /** Removal keeps the relative order of everything else. */
  lemma {:induction false} RemoveSplit<T>(a: seq<T>, x: T, b: seq<T>)
    requires x !in a
    ensures Remove(a + [x] + b, x) == a + b
  {
    var s := a + [x] + b;
    if a == [] {
      assert s[1..] == b;
      assert a + b == b;
    } else {
      assert s[0] == a[0];
      assert s[1..] == a[1..] + [x] + b;
      RemoveSplit(a[1..], x, b);
      assert a + b == [a[0]] + (a[1..] + b);
    }
  }

  lemma {:induction false} FirstOccurrence<T>(s: seq<T>, x: T) returns (i: nat)
    requires x in s
    ensures i < |s| && s[i] == x && x !in s[..i]
  {
    if s[0] == x {
      i := 0;
    } else {
      i := FirstOccurrence(s[1..], x);
      i := i + 1;
      assert s[..i] == [s[0]] + s[1..][..i - 1];
    }
  }

  lemma RemoveMember<T(!new)>(s: seq<T>, x: T)
    requires NoDup(s)
    ensures NoDup(Remove(s, x))
    ensures forall y :: y in Remove(s, x) <==> y in s && y != x
  {
    if x in s {
      var i := FirstOccurrence(s, x);
      var a, b := s[..i], s[i + 1..];
      assert s == a + [x] + b;
      RemoveSplit(a, x, b);
      NoDupConcat(a + [x], b);
      NoDupConcat(a, [x]);
      NoDupConcat(a, b);
      assert x in a + [x];
      assert forall y :: y in s <==> y in a || y == x || y in b;
      assert forall y :: y in a + b <==> y in a || y in b;
      assert forall y :: y in a ==> y in a + [x];
    }
  }

  /** A JavaScript Map: keys in insertion order with their values. */
  datatype JsMap<K(==,!new), V> = JsMap(order: seq<K>, vals: map<K, V>) {

    ghost predicate Wf() {
      NoDup(order) && forall k :: k in order <==> k in vals
    }

    /** Setting an existing key keeps its place; a new key goes to the end. */
    function Set(k: K, v: V): JsMap<K, V> {
      JsMap(if k in vals then order else order + [k], vals[k := v])
    }

    function Delete(k: K): JsMap<K, V> {
      JsMap(Remove(order, k), vals - {k})
    }

    lemma SetWf(k: K, v: V)
      requires Wf()
      ensures Set(k, v).Wf()
    {
      NoDupAppend(order, k);
    }

    lemma DeleteWf(k: K)
      requires Wf()
      ensures Delete(k).Wf()
      ensures k !in vals ==> Delete(k) == this
    {
      RemoveMember(order, k);
      if k !in vals { assert vals - {k} == vals; }
    }
  }
}
