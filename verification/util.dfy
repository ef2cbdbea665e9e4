/**
 * Small value helpers shared by the whole model: an option type and the
 * array operations the engine code leans on (`AddUnique`, `Remove`, which
 * drops every occurrence, and `Contains`).
 */
module Util {

  datatype Option<T> = None | Some(value: T)

  /** No element occurs twice. */
  predicate NoDup<T(==)>(s: seq<T>)
  {
    forall i, j :: 0 <= i < j < |s| ==> s[i] != s[j]
  }

  /** Appending keeps the list duplicate-free exactly when the new element is not already present. */
  lemma NoDupSnoc<T>(s: seq<T>, x: T)
    ensures NoDup(s + [x]) <==> NoDup(s) && x !in s
  {
    assert forall i :: 0 <= i < |s| ==> (s + [x])[i] == s[i];
    assert (s + [x])[|s|] == x;
  }

  /** A list without duplicates has as many elements as its set of members. */
  lemma {:induction false} NoDupCard<T>(s: seq<T>)
    requires NoDup(s)
    ensures |set x | x in s| == |s|
  {
    if s != [] {
      var init := s[..|s| - 1];
      var last := s[|s| - 1];
      assert s == init + [last];
      NoDupSnoc(init, last);
      NoDupCard(init);
      assert (set x | x in s) == (set x | x in init) + {last};
    }
  }

  /** `TArray::AddUnique`: append `x` unless it is already present. */
  function AddUnique<T(==)>(s: seq<T>, x: T): (r: seq<T>)
    ensures x in r
    ensures forall i :: 0 <= i < |s| ==> s[i] in r
    ensures forall i :: 0 <= i < |r| ==> r[i] in s || r[i] == x
    ensures x in s ==> r == s
    ensures x !in s ==> |r| == |s| + 1 && r[..|s|] == s && r[|s|] == x
    ensures NoDup(s) ==> NoDup(r)
  {
    if x in s then s else s + [x]
  }

  /** `TArray::Remove(Item)`: drop every occurrence of `x`, keeping the order of the rest. */
  function RemoveAll<T(==)>(s: seq<T>, x: T): (r: seq<T>)
    ensures x !in r
    ensures forall i :: 0 <= i < |r| ==> r[i] in s
    ensures forall i :: 0 <= i < |s| && s[i] != x ==> s[i] in r
    ensures |r| <= |s|
    ensures x !in s ==> r == s
    ensures NoDup(s) ==> NoDup(r)
    ensures NoDup(s) && x in s ==> |r| == |s| - 1
    ensures x in s ==> |r| < |s|
  {
    if s == [] then []
    else if s[0] == x then RemoveAll(s[1..], x)
    else [s[0]] + RemoveAll(s[1..], x)
  }

  /** `TArray::IndexOfByKey`: the first position of `s` in `ps`, or -1 (`INDEX_NONE`). */
  function IndexOf<T(==)>(ps: seq<T>, s: T): (i: int)
    ensures -1 <= i < |ps|
    ensures i == -1 <==> s !in ps
    ensures 0 <= i ==> ps[i] == s && s !in ps[..i]
  {
    if ps == [] then -1
    else if ps[0] == s then 0
    else
      var j := IndexOf(ps[1..], s);
      if j == -1 then -1 else (assert ps[..j + 1] == [ps[0]] + ps[1..][..j]; j + 1)
  }

  /** The number of elements of `s` satisfying `p`. */
  function CountWhere<T>(s: seq<T>, p: T -> bool): (n: nat)
    ensures n <= |s|
  {
    if s == [] then 0 else (if p(s[0]) then 1 else 0) + CountWhere(s[1..], p)
  }

  /** The elements of `s` satisfying `p`, in order. */
  function Filter<T>(s: seq<T>, p: T -> bool): (r: seq<T>)
    ensures forall i :: 0 <= i < |r| ==> r[i] in s && p(r[i])
    ensures forall i :: 0 <= i < |s| && p(s[i]) ==> s[i] in r
    ensures |r| <= |s|
  {
    if s == [] then [] else (if p(s[0]) then [s[0]] else []) + Filter(s[1..], p)
  }

  lemma FilterNoDup<T>(s: seq<T>, p: T -> bool)
    requires NoDup(s)
    ensures NoDup(Filter(s, p))
  {
    if s != [] {
      FilterNoDup(s[1..], p);
      assert s[0] !in s[1..];
    }
  }

  lemma FilterAppend<T>(s: seq<T>, t: seq<T>, p: T -> bool)
    ensures Filter(s + t, p) == Filter(s, p) + Filter(t, p)
  {
    if s == [] {
      assert s + t == t;
    } else {
      assert (s + t)[1..] == s[1..] + t;
      FilterAppend(s[1..], t, p);
    }
  }

  lemma CountAppend<T>(s: seq<T>, t: seq<T>, p: T -> bool)
    ensures CountWhere(s + t, p) == CountWhere(s, p) + CountWhere(t, p)
  {
    if s == [] {
      assert s + t == t;
    } else {
      assert (s + t)[1..] == s[1..] + t;
      CountAppend(s[1..], t, p);
    }
  }

  /** ASCII lower-casing of one character; every other character is left alone. */
  function Lower(c: char): (r: char)
    ensures 'A' <= c <= 'Z' ==> 'a' <= r <= 'z'
    ensures !('A' <= c <= 'Z') ==> r == c
  {
    if 'A' <= c <= 'Z' then (c as int - 'A' as int + 'a' as int) as char else c
  }

  /** `FString::Equals(.., ESearchCase::IgnoreCase)`: equal lengths and equal characters up to case. */
  predicate EqualsIgnoreCase(s: string, t: string)
  {
    |s| == |t| && forall i :: 0 <= i < |s| ==> Lower(s[i]) == Lower(t[i])
  }

  /** Comparison up to case is an equivalence. */
  lemma IgnoreCaseEquivalence()
    ensures forall s: string :: EqualsIgnoreCase(s, s)
    ensures forall s: string, t: string :: EqualsIgnoreCase(s, t) ==> EqualsIgnoreCase(t, s)
    ensures forall s: string, t: string, u: string :: EqualsIgnoreCase(s, t) && EqualsIgnoreCase(t, u) ==> EqualsIgnoreCase(s, u)
  {
  }

  /** A string equal up to case to `a` is not equal up to case to a name `b` that `a` differs from. */
  lemma IgnoreCaseApart(s: string, a: string, b: string)
    requires EqualsIgnoreCase(s, a) && !EqualsIgnoreCase(a, b)
    ensures !EqualsIgnoreCase(s, b)
  {
  }

  function Max(a: int, b: int): int { if a < b then b else a }
  function Min(a: int, b: int): int { if a < b then a else b }
  function MaxR(a: real, b: real): real { if a < b then b else a }
  function MinR(a: real, b: real): real { if a < b then a else b }

  /** The share `m / n` of a part in a whole lies in [0, 1] and reaches its ends only at none and all. */
  lemma ShareBounds(m: nat, n: nat)
    requires 0 < n && m <= n
    ensures 0.0 <= (m as real) / (n as real) <= 1.0
    ensures (m as real) / (n as real) == 1.0 <==> m == n
    ensures (m as real) / (n as real) == 0.0 <==> m == 0
  {
    var r := (m as real) / (n as real);
    assert r * (n as real) == m as real;
  }

  /**
   * `FMath::Clamp(x, lo, hi)` as the engine defines it:
   * below `lo` gives `lo`, otherwise `min(x, hi)`.
   */
  function ClampR(x: real, lo: real, hi: real): (r: real)
    ensures lo <= hi ==> lo <= r <= hi
    ensures lo <= x <= hi ==> r == x
  {
    if x < lo then lo else if x < hi then x else hi
  }

  /** The keys of a table, each once, as `GetKeys` lists them. */
  method KeysOf<V>(m: map<string, V>) returns (ks: seq<string>)
    ensures NoDup(ks) && forall k :: k in ks <==> k in m
  {
    ks := [];
    var todo := m.Keys;
    while todo != {}
      invariant todo <= m.Keys
      invariant NoDup(ks) && forall k :: k in ks <==> k in m && k !in todo
      decreases todo
    {
      var k :| k in todo;
      NoDupSnoc(ks, k);
      ks := ks + [k];
      todo := todo - {k};
    }
  }

  /** The entries of `m` whose keys are listed in `ks`. */
  function Restricted<V>(m: map<string, V>, ks: seq<string>): map<string, V>
  {
    map k | k in m && k in ks :: m[k]
  }

  /** Taking in one more listed entry is one more update of the loaded table. */
  lemma RestrictedSnoc<V>(before: map<string, V>, m: map<string, V>, ks: seq<string>, i: nat)
    requires i < |ks| && ks[i] in m
    ensures before + Restricted(m, ks[..i + 1]) == (before + Restricted(m, ks[..i]))[ks[i] := m[ks[i]]]
  {
    assert forall k :: k in ks[..i + 1] <==> k in ks[..i] || k == ks[i] by {
      assert ks[..i + 1] == ks[..i] + [ks[i]];
    }
  }
}
