/** Generic scans over sequences used by the parser: first match, and filter-and-convert. */
module Scan {
  import opened Wrappers

  /** The index of the first element satisfying p. */
  function FirstWhere<T>(s: seq<T>, p: T -> bool): (r: Option<nat>)
    ensures r.Some? ==> r.value < |s| && p(s[r.value]) && forall j :: 0 <= j < r.value ==> !p(s[j])
    ensures r.None? ==> forall j :: 0 <= j < |s| ==> !p(s[j])
  {
    if s == [] then None
    else if p(s[0]) then Some(0)
    else match FirstWhere(s[1..], p)
      case None => None
      case Some(k) => Some(k + 1)
  }

  /** FirstWhere is determined by its characterisation. */
  lemma FirstWhereAt<T>(s: seq<T>, p: T -> bool, k: nat)
    requires k <= |s| && (forall j :: 0 <= j < k ==> !p(s[j])) && (k < |s| ==> p(s[k]))
    ensures FirstWhere(s, p) == if k < |s| then Some(k) else None
  {
  }

  /** Some element satisfies p as soon as one is known to. */
  lemma FirstWhereFound<T>(s: seq<T>, p: T -> bool, k: nat)
    requires k < |s| && p(s[k])
    ensures FirstWhere(s, p).Some?
  {
  }

  /** The results of f on the elements where f succeeds, in order. */
  function Keep<T, U>(s: seq<T>, f: T -> Option<U>): (r: seq<U>)
    ensures |r| <= |s|
  {
    if s == [] then []
    else (match f(s[0]) case Some(u) => [u] case None => []) + Keep(s[1..], f)
  }

  /** Keep distributes over concatenation, so it preserves order. */
  lemma {:induction false} KeepAppend<T, U>(a: seq<T>, b: seq<T>, f: T -> Option<U>)
    ensures Keep(a + b, f) == Keep(a, f) + Keep(b, f)
  {
    if a != [] {
      assert (a + b)[1..] == a[1..] + b;
      KeepAppend(a[1..], b, f);
    } else {
      assert a + b == b;
    }
  }

  /** Every kept value is the result of f on some element. */
  lemma {:induction false} KeepFrom<T, U>(s: seq<T>, f: T -> Option<U>, u: U)
    requires u in Keep(s, f)
    ensures exists j :: 0 <= j < |s| && f(s[j]) == Some(u)
  {
    if f(s[0]) != Some(u) {
      assert u in Keep(s[1..], f);
      KeepFrom(s[1..], f, u);
      var j :| 0 <= j < |s[1..]| && f(s[1..][j]) == Some(u);
      assert s[j + 1] == s[1..][j];
    }
  }

  /** Every value kept from the suffix s[h..] is the result of f on an element at index h or later. */
  lemma KeepFromSuffix<T, U>(s: seq<T>, f: T -> Option<U>, h: nat, u: U)
    requires h <= |s| && u in Keep(s[h..], f)
    ensures exists j :: h <= j < |s| && f(s[j]) == Some(u)
  {
    KeepFrom(s[h..], f, u);
    var j :| 0 <= j < |s[h..]| && f(s[h..][j]) == Some(u);
    assert s[h + j] == s[h..][j];
  }

  /** Every element on which f succeeds contributes its value. */
  lemma {:induction false} KeepAll<T, U>(s: seq<T>, f: T -> Option<U>, j: nat)
    requires j < |s| && f(s[j]).Some?
    ensures f(s[j]).value in Keep(s, f)
  {
    if j > 0 {
      KeepAll(s[1..], f, j - 1);
      assert s[1..][j - 1] == s[j];
    }
  }
}
