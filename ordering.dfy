/** The order a MongoDB `$sort` / `.sort()` puts documents in: values are compared in BSON
    order (missing < numbers < strings < booleans < dates, each kind compared on its own),
    ascending or descending. */
module Ordering {
  import opened Results
  import opened Query

  /** A field value as the sort sees it. */
  datatype Key = Missing | Number(n: real) | Text(s: string) | Flag(b: bool) | Date(t: nat)

  function Rank(k: Key): nat {
    match k
    case Missing => 0
    case Number(_) => 1
    case Text(_) => 2
    case Flag(_) => 3
    case Date(_) => 4
  }

  /** Code-point order on strings (the byte order of their UTF-8 encodings). */
  predicate TextLe(a: string, b: string) {
    a == [] || (b != [] && (a[0] < b[0] || (a[0] == b[0] && TextLe(a[1..], b[1..]))))
  }

  predicate KeyLe(a: Key, b: Key) {
    if Rank(a) != Rank(b) then Rank(a) < Rank(b)
    else match (a, b)
      case (Number(x), Number(y)) => x <= y
      case (Text(x), Text(y)) => TextLe(x, y)
      case (Flag(x), Flag(y)) => !x || y
      case (Date(x), Date(y)) => x <= y
      case _ => true
  }

  lemma {:induction false} TextLeTotal(a: string, b: string)
    ensures TextLe(a, b) || TextLe(b, a)
  {
    if a != [] && b != [] && a[0] == b[0] {
      TextLeTotal(a[1..], b[1..]);
    }
  }

  lemma {:induction false} TextLeTransitive(a: string, b: string, c: string)
    requires TextLe(a, b) && TextLe(b, c)
    ensures TextLe(a, c)
  {
    if a != [] && b != [] && c != [] && a[0] == b[0] && b[0] == c[0] {
      TextLeTransitive(a[1..], b[1..], c[1..]);
    }
  }

  lemma KeyLeTotal(a: Key, b: Key)
    ensures KeyLe(a, b) || KeyLe(b, a)
  {
    if a.Text? && b.Text? {
      TextLeTotal(a.s, b.s);
    }
  }

  lemma KeyLeTransitive(a: Key, b: Key, c: Key)
    requires KeyLe(a, b) && KeyLe(b, c)
    ensures KeyLe(a, c)
  {
    if a.Text? && b.Text? && c.Text? {
      TextLeTransitive(a.s, b.s, c.s);
    }
  }

  /** `a` may come before `b` in a sort on this direction. */
  predicate InOrder(a: Key, b: Key, ascending: bool) {
    if ascending then KeyLe(a, b) else KeyLe(b, a)
  }

  /** Every pair of documents of `s` is in order by `key`. */
  ghost predicate SortedBy<T>(s: seq<T>, key: T -> Key, ascending: bool) {
    forall i, j :: 0 <= i < j < |s| ==> InOrder(key(s[i]), key(s[j]), ascending)
  }

  /** A contiguous part of a sorted sequence is sorted. */
  lemma SortedSlice<T>(s: seq<T>, key: T -> Key, ascending: bool, lo: nat, hi: nat)
    requires SortedBy(s, key, ascending) && lo <= hi <= |s|
    ensures SortedBy(s[lo..hi], key, ascending)
  {
    forall i, j | 0 <= i < j < hi - lo
      ensures InOrder(key(s[lo..hi][i]), key(s[lo..hi][j]), ascending)
    {
      assert s[lo..hi][i] == s[lo + i] && s[lo..hi][j] == s[lo + j];
    }
  }

  /** Insert `x` into sorted `s` in front of the first document it may precede. */
  function Insert<T>(x: T, s: seq<T>, key: T -> Key, ascending: bool): (r: seq<T>)
    requires SortedBy(s, key, ascending)
    ensures multiset(r) == multiset(s) + multiset{x}
    ensures SortedBy(r, key, ascending)
  {
    if s == [] || InOrder(key(x), key(s[0]), ascending) then
      var r := [x] + s;
      forall j | 0 < j < |r| ensures InOrder(key(r[0]), key(r[j]), ascending) {
        if j > 1 {
          if ascending { KeyLeTransitive(key(x), key(s[0]), key(s[j - 1])); }
          else { KeyLeTransitive(key(s[j - 1]), key(s[0]), key(x)); }
        }
      }
      r
    else
      var rest := Insert(x, s[1..], key, ascending);
      var r := [s[0]] + rest;
      assert s == [s[0]] + s[1..];
      KeyLeTotal(key(x), key(s[0]));
      forall j | 0 < j < |r| ensures InOrder(key(r[0]), key(r[j]), ascending) {
        assert r[j] in multiset(rest);
        if r[j] != x {
          assert r[j] in multiset(s[1..]);
          var m :| 0 <= m < |s[1..]| && s[1..][m] == r[j];
          assert s[m + 1] == r[j];
        }
      }
      r
  }

  /** Insertion sort on `key`: a permutation of `s` in the requested order. A document is
      placed in front of the later documents whose key equals its own. */
  function SortBy<T>(s: seq<T>, key: T -> Key, ascending: bool): (r: seq<T>)
    ensures multiset(r) == multiset(s)
    ensures |r| == |s|
    ensures SortedBy(r, key, ascending)
  {
    if s == [] then []
    else
      assert s == [s[0]] + s[1..];
      Insert(s[0], SortBy(s[1..], key, ascending), key, ascending)
  }

  /** Any page of a sorted listing is sorted, and page 1 holds all of it when the limit covers it. */
  lemma PageOfSorted<T(!new)>(s: seq<T>, key: T -> Key, ascending: bool, page: int, limit: int)
    requires SortedBy(s, key, ascending)
    ensures Page(s, page, limit).Ok? ==> SortedBy(Page(s, page, limit).value, key, ascending)
    ensures page == 1 && Abs(limit) >= |s| ==> Page(s, page, limit) == Ok(s)
  {
    var skip := (page - 1) * limit;
    if skip >= 0 {
      var w := Window(s, skip, limit);
      if skip < |s| {
        assert w == s[skip..skip + |w|];
        SortedSlice(s, key, ascending, skip, skip + |w|);
      }
      if page == 1 && Abs(limit) >= |s| {
        assert skip == 0;
        assert w == s[0..] == s;
      }
    }
  }

  /** `.sort(...)` followed by `.skip((page - 1) * limit).limit(limit)`: the page is the window
      at the skip of the whole sorted listing. */
  function SortedPage<T(!new)>(s: seq<T>, key: T -> Key, ascending: bool, page: int, limit: int): (r: Result<seq<T>>)
    ensures r.Err? <==> (page - 1) * limit < 0
    ensures r.Err? ==> r.code == ServerError
    ensures r.Ok? ==> r.value == Window(SortBy(s, key, ascending), (page - 1) * limit, limit)
    ensures r.Ok? ==> forall x :: x in r.value ==> x in s
    ensures r.Ok? && limit != 0 ==> |r.value| <= Abs(limit)
    ensures r.Ok? ==> SortedBy(r.value, key, ascending)
    ensures r.Ok? && page == 1 && Abs(limit) >= |s| ==> multiset(r.value) == multiset(s)
  {
    var sorted := SortBy(s, key, ascending);
    PageOfSorted(sorted, key, ascending, page, limit);
    assert forall x :: x in sorted ==> x in multiset(s);
    Page(sorted, page, limit)
  }
}
