/** Generic queries over a table held as a sequence of rows. */
module Lookups {

  /** The outcome of `scalar_one_or_none()`: no row, the one row, or more than one row
   *  (which SQLAlchemy reports by raising `MultipleResultsFound`). */
  datatype Lookup<T> = Absent | Unique(value: T) | Multiple

  /** `select(T).where(p)` followed by `scalar_one_or_none()`. */
  function Find<T>(s: seq<T>, p: T -> bool): (r: Lookup<T>)
    ensures r.Absent? <==> forall i :: 0 <= i < |s| ==> !p(s[i])
    ensures r.Unique? ==> r.value in s && p(r.value)
    ensures r.Unique? ==> forall i, j :: 0 <= i < |s| && 0 <= j < |s| && p(s[i]) && p(s[j]) ==> i == j
    ensures r.Multiple? ==> exists i, j :: 0 <= i < j < |s| && p(s[i]) && p(s[j])
  {
    if s == [] then Absent
    else
      var rest := Find(s[1..], p);
      assert forall i :: 1 <= i < |s| ==> s[i] == s[1..][i - 1];
      if !p(s[0]) then
        rest
      else if rest.Absent? then
        Unique(s[0])
      else
        var k :| 0 <= k < |s| - 1 && p(s[1..][k]);
        assert p(s[0]) && p(s[k + 1]);
        Multiple
  }

  /** `select(T).where(p)`: the matching rows, in table order. */
  function Filter<T(!new)>(s: seq<T>, p: T -> bool): (r: seq<T>)
    ensures |r| <= |s|
    ensures forall x :: x in r <==> x in s && p(x)
  {
    if s == [] then [] else (if p(s[0]) then [s[0]] else []) + Filter(s[1..], p)
  }

  /** Filtering two stretches of a table one after the other is filtering the whole: the
   *  selected rows keep their table order and their multiplicity. */
  lemma {:induction false} FilterAppend<T(!new)>(s: seq<T>, t: seq<T>, p: T -> bool)
    ensures Filter(s + t, p) == Filter(s, p) + Filter(t, p)
  {
    if s == [] {
      assert s + t == t;
    } else {
      assert (s + t)[0] == s[0];
      assert (s + t)[1..] == s[1..] + t;
      FilterAppend(s[1..], t, p);
    }
  }

  /** `reversed(s)`. */
  function Reverse<T>(s: seq<T>): (r: seq<T>)
    ensures |r| == |s|
  {
    if s == [] then [] else Reverse(s[1..]) + [s[0]]
  }

  lemma {:induction false} ReverseAt<T>(s: seq<T>)
    ensures forall i :: 0 <= i < |s| ==> Reverse(s)[i] == s[|s| - 1 - i]
  {
    if s != [] {
      ReverseAt(s[1..]);
    }
  }

  /** `.limit(n)` on a query result. */
  function Take<T>(s: seq<T>, n: nat): (r: seq<T>)
    ensures |r| == if n <= |s| then n else |s|
    ensures forall j :: 0 <= j < |r| ==> r[j] == s[j]
  {
    if n <= |s| then s[..n] else s
  }

  /** The newest `n` rows (ordered newest first, cut to `n`) put back into oldest-first
   *  order are the last `min(n, |s|)` rows of `s`. */
  lemma NewestReversed<T>(s: seq<T>, n: nat)
    ensures n <= |s| ==> Reverse(Take(Reverse(s), n)) == s[|s| - n..]
    ensures n > |s| ==> Reverse(Take(Reverse(s), n)) == s
  {
    NewestFirst(s, n);
    ReverseOfMirror(s, Take(Reverse(s), n));
  }

  /** The first `n` items of `Reverse(s)` are the last items of `s`, newest first. */
  lemma NewestFirst<T>(s: seq<T>, n: nat)
    ensures forall j :: 0 <= j < |Take(Reverse(s), n)| ==> Take(Reverse(s), n)[j] == s[|s| - 1 - j]
  {
    ReverseAt(s);
  }

  /** A sequence `t` that lists the last `|t|` items of `s` from the end reverses to them. */
  lemma ReverseOfMirror<T>(s: seq<T>, t: seq<T>)
    requires |t| <= |s| && forall j :: 0 <= j < |t| ==> t[j] == s[|s| - 1 - j]
    ensures Reverse(t) == s[|s| - |t|..]
  {
    ReverseAt(t);
    forall i | 0 <= i < |t| ensures Reverse(t)[i] == s[|s| - |t|..][i] {
      assert Reverse(t)[i] == t[|t| - 1 - i];
    }
  }

  /** What occurs in a suffix of `s` occurs in `s`. */
  lemma SuffixMembers<T>(s: seq<T>, a: nat)
    requires a <= |s|
    ensures forall m :: m in s[a..] ==> m in s
  {
    forall m | m in s[a..] ensures m in s {
      var i :| 0 <= i < |s[a..]| && s[a..][i] == m;
      assert s[a + i] == m;
    }
  }
}
