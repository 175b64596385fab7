/** What a MongoDB find query does with a collection, in natural order: keep the matching
    documents, then apply a cursor's `.skip(n).limit(m)`. */
module Query {
  import opened Results

  /** The documents of `s` that satisfy `p`; `FilterAppend` states that they keep their order. */
  function Filter<T(!new)>(s: seq<T>, p: T -> bool): (r: seq<T>)
    ensures |r| <= |s|
    ensures forall x :: x in r <==> x in s && p(x)
  {
    if s == [] then []
    else
      var rest := Filter(s[1..], p);
      assert s == [s[0]] + s[1..];
      if p(s[0]) then [s[0]] + rest else rest
  }

  /** A find keeps each matching document as often as the collection holds it, and no other. */
  lemma {:induction false} FilterMultiset<T(!new)>(s: seq<T>, p: T -> bool)
    ensures forall x :: multiset(Filter(s, p))[x] == if p(x) then multiset(s)[x] else 0
  {
    if s != [] {
      FilterMultiset(s[1..], p);
      assert s == [s[0]] + s[1..];
    }
  }

  lemma ConcatAssoc<T>(x: seq<T>, y: seq<T>, z: seq<T>)
    ensures x + (y + z) == (x + y) + z
  {
  }

  /** One step of `Filter`: the first document is kept exactly when it satisfies `p`. */
  lemma FilterCons<T(!new)>(x: T, s: seq<T>, p: T -> bool)
    ensures Filter([x] + s, p) == (if p(x) then [x] else []) + Filter(s, p)
  {
    assert ([x] + s)[0] == x && ([x] + s)[1..] == s;
  }

  /** Filtering keeps the order of the collection: the matches of a concatenation are the
      matches of the first part followed by those of the second. (With `Filter`'s own contract,
      which keeps a single document exactly when it satisfies `p`, this fixes the result.) */
  lemma {:induction false} FilterAppend<T(!new)>(a: seq<T>, b: seq<T>, p: T -> bool)
    ensures Filter(a + b, p) == Filter(a, p) + Filter(b, p)
  {
    if a == [] {
      assert a + b == b;
    } else {
      var head := if p(a[0]) then [a[0]] else [];
      calc {
        Filter(a + b, p);
        { assert a + b == [a[0]] + (a[1..] + b); }
        Filter([a[0]] + (a[1..] + b), p);
        { FilterCons(a[0], a[1..] + b, p); }
        head + Filter(a[1..] + b, p);
        { FilterAppend(a[1..], b, p); }
        head + (Filter(a[1..], p) + Filter(b, p));
        { ConcatAssoc(head, Filter(a[1..], p), Filter(b, p)); }
        (head + Filter(a[1..], p)) + Filter(b, p);
        { FilterCons(a[0], a[1..], p); assert a == [a[0]] + a[1..]; }
        Filter(a, p) + Filter(b, p);
      }
    }
  }

  /** Number of documents of `s` that satisfy `p` (countDocuments). */
  function CountWhere<T(!new)>(s: seq<T>, p: T -> bool): (n: nat)
    ensures n == |Filter(s, p)|
  {
    if s == [] then 0 else (if p(s[0]) then 1 else 0) + CountWhere(s[1..], p)
  }

  lemma {:induction false} CountAppend<T(!new)>(a: seq<T>, b: seq<T>, p: T -> bool)
    ensures CountWhere(a + b, p) == CountWhere(a, p) + CountWhere(b, p)
  {
    if a == [] {
      assert a + b == b;
    } else {
      assert (a + b)[1..] == a[1..] + b;
      CountAppend(a[1..], b, p);
    }
  }

  /** Taking `x` out of the middle of a sequence lowers its count by one exactly when `x` satisfies `p`. */
  lemma CountSplit<T(!new)>(a: seq<T>, x: T, b: seq<T>, p: T -> bool)
    ensures CountWhere(a + [x] + b, p) == CountWhere(a + b, p) + (if p(x) then 1 else 0)
  {
    CountAppend(a + [x], b, p);
    CountAppend(a, [x], p);
    CountAppend(a, b, p);
    assert CountWhere([x], p) == if p(x) then 1 else 0;
  }

  /** A sequence none of whose elements satisfies `p` counts zero. */
  lemma CountNone<T(!new)>(s: seq<T>, p: T -> bool)
    requires forall x :: x in s ==> !p(x)
    ensures CountWhere(s, p) == 0
  {
  }

  /** A sequence with an element that satisfies `p` counts at least one. */
  lemma CountSome<T(!new)>(s: seq<T>, p: T -> bool, x: T)
    requires x in s && p(x)
    ensures CountWhere(s, p) >= 1
  {
    assert x in Filter(s, p);
  }

  /** The collection after deleting the document at position `i`; the others keep their order. */
  function RemoveAt<T>(s: seq<T>, i: nat): (r: seq<T>)
    requires i < |s|
    ensures |r| == |s| - 1
    ensures forall k :: 0 <= k < |r| ==> r[k] == if k < i then s[k] else s[k + 1]
    ensures multiset(r) == multiset(s) - multiset{s[i]}
  {
    assert s == s[..i] + [s[i]] + s[i + 1..];
    s[..i] + s[i + 1..]
  }

  function Abs(x: int): nat {
    if x < 0 then -x else x
  }

  /** The documents a cursor yields after `.skip(skip).limit(limit)`. A limit of 0 means no
      limit; a negative limit counts like its absolute value (the driver turns it into a
      single batch of that size). */
  function Window<T>(s: seq<T>, skip: nat, limit: int): (r: seq<T>)
    ensures skip <= |s| ==> r <= s[skip..] && r == s[skip..skip + |r|]
    ensures skip >= |s| ==> r == []
    ensures limit != 0 ==> |r| <= Abs(limit)
    ensures skip <= |s| ==> r == s[skip..] || (limit != 0 && |r| == Abs(limit))
  {
    if skip >= |s| then []
    else if limit == 0 || |s| - skip <= Abs(limit) then s[skip..]
    else s[skip..skip + Abs(limit)]
  }

  /** Page `page` of size `limit`: `.skip((page - 1) * limit).limit(limit)`.
      The server refuses a negative skip, which the handlers answer with 500. */
  function Page<T(!new)>(s: seq<T>, page: int, limit: int): (r: Result<seq<T>>)
    ensures r.Err? <==> (page - 1) * limit < 0
    ensures r.Err? ==> r.code == ServerError
    ensures r.Ok? ==> r.value == Window(s, (page - 1) * limit, limit)
    ensures page >= 1 && limit >= 0 ==> r.Ok?
    ensures r.Ok? ==> forall x :: x in r.value ==> x in s
  {
    var skip := (page - 1) * limit;
    if skip < 0 then Err(ServerError) else Ok(Window(s, skip, limit))
  }

  lemma PageSlice<T>(s: seq<T>, lo: nat, p: nat)
    requires p >= 1
    ensures var w := Window(s, lo, p);
      s[..if lo <= |s| then lo else |s|] + w == s[..if lo + p <= |s| then lo + p else |s|]
  {
    if lo < |s| {
      var hi := if lo + p <= |s| then lo + p else |s|;
      assert Window(s, lo, p) == s[lo..hi];
      assert s[..lo] + s[lo..hi] == s[..hi];
    }
  }

  /** Where pages 1 to `k` of size `p` end in a listing of `n` documents. */
  function PagesEnd(k: nat, p: nat, n: nat): (e: nat)
    ensures e <= n
  {
    if k * p <= n then k * p else n
  }

  /** The skip of page `k` (from 1) of size `p` is not negative, and the next page starts `p` later. */
  lemma PageSkip(k: nat, p: nat)
    requires k >= 1
    ensures (k - 1) * p >= 0
    ensures k * p == (k - 1) * p + p
  {
  }

  /** Page `k` (from 1) of size `p` holds the documents from where page `k - 1` ends to where
      page `k` ends: consecutive pages meet, so paging neither skips nor repeats a document. */
  lemma PageIsSlice<T>(s: seq<T>, k: nat, p: nat)
    requires k >= 1 && p >= 1
    ensures (k - 1) * p >= 0
    ensures PagesEnd(k - 1, p, |s|) <= PagesEnd(k, p, |s|)
    ensures Window(s, (k - 1) * p, p) == s[PagesEnd(k - 1, p, |s|)..PagesEnd(k, p, |s|)]
  {
    PageSkip(k, p);
  }

  /** The documents before page `k` followed by page `k` are the documents up to the end of page `k`. */
  lemma NextPage<T>(s: seq<T>, before: seq<T>, page: seq<T>, k: nat, p: nat)
    requires p >= 1 && k >= 1
    requires before == s[..PagesEnd(k - 1, p, |s|)]
    requires page == Window(s, (k - 1) * p, p)
    ensures before + page == s[..PagesEnd(k, p, |s|)]
  {
    PageSkip(k, p);
    PageSlice(s, (k - 1) * p, p);
  }

  /** Pages 1 to `k` of size `p`, one after another. */
  function FirstPages<T(!new)>(s: seq<T>, k: nat, p: nat): seq<T>
    requires p >= 1
  {
    if k == 0 then [] else FirstPages(s, k - 1, p) + Page(s, k, p).value
  }

  /** Paging neither skips nor repeats: pages 1..k of size p together are exactly the first
      k * p documents of the unpaged listing (all of it when it is shorter). */
  lemma {:induction false} PagesTile<T(!new)>(s: seq<T>, k: nat, p: nat)
    requires p >= 1
    ensures FirstPages(s, k, p) == s[..PagesEnd(k, p, |s|)]
  {
    if k > 0 {
      PagesTile(s, k - 1, p);
      NextPage(s, FirstPages(s, k - 1, p), Page(s, k, p).value, k, p);
    }
  }
}
