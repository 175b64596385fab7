/** The string operations the handlers rely on: String.prototype.trim and the
    case-insensitive match used for video search. */
module Text {

  /** The WhiteSpace and LineTerminator code points of ECMAScript: what `trim` strips. */
  predicate IsSpace(c: char) {
    c == ' ' || c == '\t' || c == '\n' || c == '\r' || c == '\U{000B}' || c == '\U{000C}'
    || c == '\U{00A0}' || c == '\U{1680}' || ('\U{2000}' <= c <= '\U{200A}')
    || c == '\U{2028}' || c == '\U{2029}' || c == '\U{202F}' || c == '\U{205F}'
    || c == '\U{3000}' || c == '\U{FEFF}'
  }

  predicate AllSpace(s: string) {
    forall k :: 0 <= k < |s| ==> IsSpace(s[k])
  }

  /** String.prototype.trim: strip white space from the start, then from the end. */
  function Trim(s: string): (r: string)
    ensures |r| <= |s|
    ensures r == [] || (!IsSpace(r[0]) && !IsSpace(r[|r| - 1]))
    decreases |s|
  {
    if s != [] && IsSpace(s[0]) then Trim(s[1..])
    else if s != [] && IsSpace(s[|s| - 1]) then Trim(s[..|s| - 1])
    else s
  }

  /** Margins of `s[1..]` around `s[1..][j..j + n]` extend to margins of `s` when `s[0]` is space. */
  lemma MarginsFront(s: string, j: nat, n: nat)
    requires s != [] && IsSpace(s[0]) && j + n <= |s| - 1
    requires AllSpace(s[1..][..j]) && AllSpace(s[1..][j + n..])
    ensures AllSpace(s[..j + 1]) && AllSpace(s[j + 1 + n..])
    ensures s[1..][j..j + n] == s[j + 1..j + 1 + n]
  {
    var tail := s[1..];
    assert tail[j..j + n] == s[j + 1..j + 1 + n];
    assert tail[j + n..] == s[j + 1 + n..];
    var front, inner := s[..j + 1], tail[..j];
    forall k | 0 <= k < |front| ensures IsSpace(front[k]) {
      if k > 0 {
        assert front[k] == inner[k - 1];
      }
    }
  }

  /** Margins of `s[..|s| - 1]` around an infix extend to margins of `s` when its last character
      is space. */
  lemma MarginsBack(s: string, i: nat, n: nat)
    requires s != [] && IsSpace(s[|s| - 1]) && i + n <= |s| - 1
    requires AllSpace(s[..|s| - 1][..i]) && AllSpace(s[..|s| - 1][i + n..])
    ensures AllSpace(s[..i]) && AllSpace(s[i + n..])
    ensures s[..|s| - 1][i..i + n] == s[i..i + n]
  {
    assert s[..|s| - 1][..i] == s[..i];
    assert forall k :: i + n <= k < |s| - 1 ==> s[k] == s[..|s| - 1][i + n..][k - i - n];
  }

  /** Trim cuts `s` into white space, the result, and white space: it starts at offset `i`. */
  lemma {:induction false} TrimMargins(s: string) returns (i: nat)
    ensures i + |Trim(s)| <= |s| && Trim(s) == s[i..i + |Trim(s)|]
    ensures AllSpace(s[..i]) && AllSpace(s[i + |Trim(s)|..])
    decreases |s|, 1
  {
    if s != [] && IsSpace(s[0]) {
      i := TrimMarginsFront(s);
    } else if s != [] && IsSpace(s[|s| - 1]) {
      i := TrimMarginsBack(s);
    } else {
      assert Trim(s) == s;
      i := 0;
      assert s[..0] == [] && s[|s|..] == [];
    }
  }

  /** The step of `TrimMargins` for a string that starts with white space. */
  lemma {:induction false} TrimMarginsFront(s: string) returns (i: nat)
    requires s != [] && IsSpace(s[0])
    ensures i + |Trim(s)| <= |s| && Trim(s) == s[i..i + |Trim(s)|]
    ensures AllSpace(s[..i]) && AllSpace(s[i + |Trim(s)|..])
    decreases |s|, 0
  {
    assert Trim(s) == Trim(s[1..]);
    var j := TrimMargins(s[1..]);
    MarginsFront(s, j, |Trim(s)|);
    i := j + 1;
  }

  /** The step of `TrimMargins` for a string that ends, but does not start, with white space. */
  lemma {:induction false} TrimMarginsBack(s: string) returns (i: nat)
    requires s != [] && !IsSpace(s[0]) && IsSpace(s[|s| - 1])
    ensures i + |Trim(s)| <= |s| && Trim(s) == s[i..i + |Trim(s)|]
    ensures AllSpace(s[..i]) && AllSpace(s[i + |Trim(s)|..])
    decreases |s|, 0
  {
    assert Trim(s) == Trim(s[..|s| - 1]);
    i := TrimMargins(s[..|s| - 1]);
    MarginsBack(s, i, |Trim(s)|);
  }

  /** Trim is the unique infix with space-only margins and no space at either end:
      any such decomposition of a string is the one Trim finds. */
  lemma {:induction false} TrimUnique(a: string, t: string, b: string)
    requires AllSpace(a) && AllSpace(b)
    requires t == [] || (!IsSpace(t[0]) && !IsSpace(t[|t| - 1]))
    ensures Trim(a + t + b) == t
    decreases |a| + |b|
  {
    var s := a + t + b;
    if a != [] {
      assert s[0] == a[0];
      assert s[1..] == a[1..] + t + b;
      TrimUnique(a[1..], t, b);
    } else if b != [] {
      assert s[|s| - 1] == b[|b| - 1];
      assert s[..|s| - 1] == a + t + b[..|b| - 1];
      if t != [] {
        assert s[0] == t[0];
      } else {
        assert s[0] == b[0];
        assert s[1..] == a + t + b[1..];
        TrimUnique(a, t, b[1..]);
      }
      TrimUnique(a, t, b[..|b| - 1]);
    } else {
      assert s == t;
    }
  }

  /** A trimmed string is empty exactly when the input was white space only. */
  lemma TrimEmptyIffAllSpace(s: string)
    ensures Trim(s) == [] <==> AllSpace(s)
  {
    if AllSpace(s) {
      assert s == s + [] + [];
      TrimUnique(s, [], []);
    }
    if Trim(s) == [] {
      var i := TrimMargins(s);
      forall k | 0 <= k < |s| ensures IsSpace(s[k]) {
        if k < i { assert s[..i][k] == s[k]; } else { assert s[i..][k - i] == s[k]; }
      }
    }
  }

  /** Trimming twice is trimming once. */
  lemma TrimIdempotent(s: string)
    ensures Trim(Trim(s)) == Trim(s)
  {
    var t := Trim(s);
    assert AllSpace([]);
    TrimUnique([], t, []);
    assert [] + t + [] == t;
  }

  function LowerChar(c: char): char {
    if 'A' <= c <= 'Z' then (c as int + 32) as char else c
  }

  /** ASCII lower-casing, the case folding the `i` option of a MongoDB regex applies to these letters. */
  function Lower(s: string): (r: string)
    ensures |r| == |s|
  {
    seq(|s|, k requires 0 <= k < |s| => LowerChar(s[k]))
  }

  /** `query` occurs in `text` at offset `k`, letters compared without regard to case. */
  predicate MatchesAt(text: string, query: string, k: nat) {
    k + |query| <= |text| && Lower(text[k..k + |query|]) == Lower(query)
  }

  /** `query` occurs somewhere in `text`, letters compared without regard to case. */
  predicate ContainsIgnoringCase(text: string, query: string)
    ensures query == [] ==> ContainsIgnoringCase(text, query)
    ensures ContainsIgnoringCase(text, query) ==> |query| <= |text|
  {
    assert query == [] ==> MatchesAt(text, query, 0);
    exists k: nat :: k <= |text| && MatchesAt(text, query, k)
  }

  /** The match ignores the case of the query: a query and its lower-cased form match the same texts. */
  lemma ContainsIgnoresQueryCase(text: string, query: string)
    ensures ContainsIgnoringCase(text, query) <==> ContainsIgnoringCase(text, Lower(query))
  {
    assert Lower(Lower(query)) == Lower(query);
    forall k: nat | k <= |text|
      ensures MatchesAt(text, query, k) <==> MatchesAt(text, Lower(query), k)
    {
    }
  }

  /** A text contains every one of its infixes, in the case written or lower-cased. */
  lemma ContainsOwnInfix(text: string, k: nat, n: nat)
    requires k + n <= |text|
    ensures ContainsIgnoringCase(text, text[k..k + n])
    ensures ContainsIgnoringCase(text, Lower(text[k..k + n]))
  {
    assert MatchesAt(text, text[k..k + n], k);
    ContainsIgnoresQueryCase(text, text[k..k + n]);
  }
}
