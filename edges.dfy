/** Engagement edges (likes, subscriptions) kept as a sequence of records in insertion order,
    and the toggle the handlers perform on them: look the record up with findOne, delete it
    when present, create it when absent. */
module Edges {
  import opened Results
  import opened Query

  /** findOne: the position of the first record equal to `e`. */
  function FindFirst<E(==)>(s: seq<E>, e: E): (r: Option<nat>)
    ensures r.None? <==> e !in s
    ensures r.Some? ==> r.value < |s| && s[r.value] == e && e !in s[..r.value]
  {
    if s == [] then None
    else if s[0] == e then Some(0)
    else
      var r := FindFirst(s[1..], e);
      if r.None? then None
      else
        assert s[..r.value + 1] == [s[0]] + s[1..][..r.value];
        Some(r.value + 1)
  }

  /** At most one record per edge. */
  predicate NoDup<E(==)>(s: seq<E>) {
    forall i, j :: 0 <= i < j < |s| ==> s[i] != s[j]
  }

  /** The records after one toggle of `e`. */
  function Toggled<E(==)>(s: seq<E>, e: E): (r: seq<E>)
    ensures e in s ==> multiset(r) == multiset(s) - multiset{e}
    ensures e !in s ==> r == s + [e]
  {
    match FindFirst(s, e)
    case Some(i) => RemoveAt(s, i)
    case None => s + [e]
  }

  lemma NoDupMultiset<E>(s: seq<E>)
    ensures NoDup(s) <==> forall x :: multiset(s)[x] <= 1
  {
    if NoDup(s) {
      forall x ensures multiset(s)[x] <= 1 {
        NoDupCount(s, x);
      }
    }
    if !NoDup(s) {
      var i, j :| 0 <= i < j < |s| && s[i] == s[j];
      assert s == s[..j] + [s[j]] + s[j + 1..];
      assert s[i] in multiset(s[..j]);
      assert multiset(s)[s[j]] == multiset(s[..j])[s[j]] + 1 + multiset(s[j + 1..])[s[j]];
    }
  }

  lemma {:induction false} NoDupCount<E>(s: seq<E>, x: E)
    requires NoDup(s)
    ensures multiset(s)[x] <= 1
  {
    if s != [] {
      assert s == [s[0]] + s[1..];
      NoDupCount(s[1..], x);
      if s[0] == x {
        assert x !in s[1..];
      }
    }
  }

  /** A toggle keeps at most one record per edge, and afterwards the edge is present exactly
      when it was absent before. */
  lemma ToggleKeepsNoDup<E>(s: seq<E>, e: E)
    requires NoDup(s)
    ensures NoDup(Toggled(s, e))
    ensures e in Toggled(s, e) <==> e !in s
  {
    NoDupMultiset(s);
    var r := Toggled(s, e);
    if e in s {
      assert multiset(r)[e] == 0;
    } else {
      assert multiset(r) == multiset(s) + multiset{e};
    }
    NoDupMultiset(r);
  }

  /** A toggle of `e` leaves the number of records of every other edge as it was. */
  lemma ToggleLeavesOthers<E>(s: seq<E>, e: E, f: E)
    requires f != e
    ensures multiset(Toggled(s, e))[f] == multiset(s)[f]
    ensures f in Toggled(s, e) <==> f in s
  {
  }

  /** Two toggles of the same edge give back the same records (as a multiset, so the same set of
      edges); when the edge was absent, exactly the same sequence. */
  lemma ToggleTwiceRestores<E>(s: seq<E>, e: E)
    requires NoDup(s)
    ensures multiset(Toggled(Toggled(s, e), e)) == multiset(s)
    ensures e !in s ==> Toggled(Toggled(s, e), e) == s
  {
    if e in s {
      ToggleKeepsNoDup(s, e);
      assert e !in Toggled(s, e);
    } else {
      ToggleAppendedRemoves(s, e);
    }
  }

  /** Toggling an edge just appended removes it again. */
  lemma ToggleAppendedRemoves<E>(s: seq<E>, e: E)
    requires e !in s
    ensures Toggled(s + [e], e) == s
  {
    var t := s + [e];
    assert t[|s|] == e;
    var i := FindFirst(t, e).value;
    assert t[..|s|] == s;
    assert i == |s|;
    assert RemoveAt(t, i) == s;
  }

  /** A toggle cuts the records around the first record of `e` and drops it, or appends `e`. */
  lemma ToggledParts<E>(s: seq<E>, e: E) returns (a: seq<E>, b: seq<E>)
    ensures e in s ==> s == a + [e] + b && Toggled(s, e) == a + b
    ensures e !in s ==> s == a + b && b == [] && Toggled(s, e) == a + [e] + b
  {
    match FindFirst(s, e)
    case None =>
      a, b := s, [];
    case Some(i) =>
      a, b := s[..i], s[i + 1..];
      assert Toggled(s, e) == RemoveAt(s, i) == a + b;
      assert s == a + [e] + b;
  }

  /** A toggle of `e` moves every count of records that satisfy `p` by one when `e` does: down
      when `e` was present, up when it was not; counts `e` does not satisfy stay. */
  lemma ToggleCount<E(!new)>(s: seq<E>, e: E, p: E -> bool)
    ensures CountWhere(Toggled(s, e), p) as int ==
      CountWhere(s, p) as int + (if !p(e) then 0 else if e in s then -1 else 1)
  {
    var a, b := ToggledParts(s, e);
    CountSplit(a, e, b, p);
  }
}
