/**
 * A Python dict with string keys: entries in insertion order. Assigning to an
 * existing key replaces its value where it stands; a new key goes last.
 */
module OrderedDict {
  import opened Wrappers

  datatype Entry<V> = Entry(key: string, value: V)

  type Dict<V> = seq<Entry<V>>

  /** d.keys(), in iteration order. */
  function Keys<V>(d: Dict<V>): (ks: seq<string>)
    ensures |ks| == |d| && forall i :: 0 <= i < |d| ==> ks[i] == d[i].key
  {
    if d == [] then [] else [d[0].key] + Keys(d[1..])
  }

  /** The keys of a concatenation are the keys of each part, in order. */
  lemma {:induction false} KeysAppend<V>(a: Dict<V>, b: Dict<V>)
    ensures Keys(a + b) == Keys(a) + Keys(b)
  {
    if a == [] {
      assert a + b == b;
    } else {
      assert (a + b)[1..] == a[1..] + b;
      KeysAppend(a[1..], b);
    }
  }

  predicate DistinctKeys<V>(d: Dict<V>) {
    forall i, j :: 0 <= i < j < |d| ==> d[i].key != d[j].key
  }

  /** d.get(k): the value stored under k, if any. */
  function Get<V>(d: Dict<V>, k: string): (r: Option<V>)
    ensures r.None? <==> k !in Keys(d)
  {
    if d == [] then None else if d[0].key == k then Some(d[0].value) else Get(d[1..], k)
  }

  /** d[k] = v. */
  function Put<V>(d: Dict<V>, k: string, v: V): Dict<V> {
    if d == [] then [Entry(k, v)]
    else if d[0].key == k then [Entry(k, v)] + d[1..]
    else [d[0]] + Put(d[1..], k, v)
  }

  /** Assignment keeps the key order; a new key goes last. */
  lemma {:induction false} PutKeys<V>(d: Dict<V>, k: string, v: V)
    ensures Keys(Put(d, k, v)) == if k in Keys(d) then Keys(d) else Keys(d) + [k]
  {
    if d != [] {
      var ks := Keys(d);
      assert ks == [d[0].key] + Keys(d[1..]);
      if d[0].key == k {
        assert Keys(Put(d, k, v)) == [k] + Keys(d[1..]);
      } else {
        PutKeys(d[1..], k, v);
        assert Keys(Put(d, k, v)) == [d[0].key] + Keys(Put(d[1..], k, v));
        assert k in ks <==> k in Keys(d[1..]);
      }
    }
  }

  /** After d[k] = v, k maps to v. */
  lemma {:induction false} PutGet<V>(d: Dict<V>, k: string, v: V)
    ensures Get(Put(d, k, v), k) == Some(v)
  {
    if d != [] && d[0].key != k {
      PutGet(d[1..], k, v);
      assert Put(d, k, v)[1..] == Put(d[1..], k, v);
    }
  }

  /** d[k] = v leaves the value of every other key alone. */
  lemma {:induction false} PutOther<V>(d: Dict<V>, k: string, v: V, k': string)
    requires k' != k
    ensures Get(Put(d, k, v), k') == Get(d, k')
  {
    if d != [] {
      if d[0].key == k {
        assert Put(d, k, v)[1..] == d[1..];
      } else {
        PutOther(d[1..], k, v, k');
        assert Put(d, k, v)[1..] == Put(d[1..], k, v);
      }
    }
  }

  /** Assignment never duplicates a key. */
  lemma PutDistinct<V>(d: Dict<V>, k: string, v: V)
    requires DistinctKeys(d)
    ensures DistinctKeys(Put(d, k, v))
  {
    var r := Put(d, k, v);
    PutKeys(d, k, v);
    assert forall i :: 0 <= i < |d| ==> r[i].key == Keys(d)[i];
  }

  /**
   * Filling a dict from the first k outcomes of a loop: the first error
   * aborts, None adds nothing, Some(v) assigns v to the outcome's name.
   */
  function Collect<V, E>(names: seq<string>, outs: seq<Result<Option<V>, E>>, k: nat): Result<Dict<V>, E>
    requires k <= |names| == |outs|
  {
    if k == 0 then Ok([])
    else match Collect(names, outs, k - 1)
      case Err(e) => Err(e)
      case Ok(d) =>
        match outs[k - 1]
        case Err(e) => Err(e)
        case Ok(None) => Ok(d)
        case Ok(Some(v)) => Ok(Put(d, names[k - 1], v))
  }

  /** The outcome at i stores a value. */
  predicate Stores<V, E>(outs: seq<Result<Option<V>, E>>, i: nat)
    requires i < |outs|
  {
    outs[i].Ok? && outs[i].value.Some?
  }

  /** The collected keys are the names of the outcomes that store a value. */
  lemma {:induction false} CollectKeys<V, E>(names: seq<string>, outs: seq<Result<Option<V>, E>>, k: nat)
    requires k <= |names| == |outs| && Collect(names, outs, k).Ok?
    ensures forall n :: n in Keys(Collect(names, outs, k).value) <==>
      exists i :: 0 <= i < k && names[i] == n && Stores(outs, i)
  {
    if k > 0 {
      CollectKeys(names, outs, k - 1);
      if Stores(outs, k - 1) {
        PutKeys(Collect(names, outs, k - 1).value, names[k - 1], outs[k - 1].value.value);
      }
    }
  }

  /** The names of the first k outcomes that store a value, in loop order, repeats included. */
  function StoredNames<V, E>(names: seq<string>, outs: seq<Result<Option<V>, E>>, k: nat): seq<string>
    requires k <= |names| == |outs|
  {
    if k == 0 then []
    else StoredNames(names, outs, k - 1) + (if Stores(outs, k - 1) then [names[k - 1]] else [])
  }

  /** s with every repeat removed, each element kept where it first occurs. */
  function FirstOccurrences(s: seq<string>): seq<string> {
    if s == [] then []
    else
      var d := FirstOccurrences(s[..|s| - 1]);
      if s[|s| - 1] in d then d else d + [s[|s| - 1]]
  }

  /** x occurs in s before y occurs at all. */
  predicate FirstBefore(s: seq<string>, x: string, y: string) {
    exists a :: 0 <= a < |s| && s[a] == x && y !in s[..a + 1]
  }

  /**
   * FirstOccurrences holds the elements of s, each once, ordered by where
   * they first occur: an element placed before another occurs in s before
   * the other occurs at all.
   */
  lemma {:induction false} FirstOccurrencesSpec(s: seq<string>)
    ensures forall x :: x in FirstOccurrences(s) <==> x in s
    ensures forall i, j :: 0 <= i < j < |FirstOccurrences(s)| ==> FirstOccurrences(s)[i] != FirstOccurrences(s)[j]
    ensures forall i, j :: 0 <= i < j < |FirstOccurrences(s)| ==> FirstBefore(s, FirstOccurrences(s)[i], FirstOccurrences(s)[j])
  {
    if s != [] {
      var init := s[..|s| - 1];
      var x := s[|s| - 1];
      FirstOccurrencesSpec(init);
      var d0 := FirstOccurrences(init);
      var d := FirstOccurrences(s);
      assert s == init + [x];
      forall i, j | 0 <= i < j < |d|
        ensures FirstBefore(s, d[i], d[j])
      {
        if j < |d0| {
          assert FirstBefore(init, d0[i], d0[j]);
          var a :| 0 <= a < |init| && init[a] == d0[i] && d0[j] !in init[..a + 1];
          assert s[..a + 1] == init[..a + 1];
          assert s[a] == d[i] && d[j] == d0[j];
        } else {
          assert d[j] == x && x !in init && d[i] == d0[i] && d0[i] in init;
          var a :| 0 <= a < |init| && init[a] == d0[i];
          assert s[..a + 1] == init[..a + 1];
          assert s[a] == d[i];
        }
      }
    }
  }

  /**
   * The collected keys, in iteration order, are the storing outcomes' names
   * with repeats removed, each at its first occurrence.
   */
  lemma {:induction false} CollectOrder<V, E>(names: seq<string>, outs: seq<Result<Option<V>, E>>, k: nat)
    requires k <= |names| == |outs| && Collect(names, outs, k).Ok?
    ensures Keys(Collect(names, outs, k).value) == FirstOccurrences(StoredNames(names, outs, k))
  {
    if k > 0 {
      CollectOrder(names, outs, k - 1);
      var prev := StoredNames(names, outs, k - 1);
      if Stores(outs, k - 1) {
        PutKeys(Collect(names, outs, k - 1).value, names[k - 1], outs[k - 1].value.value);
        assert (prev + [names[k - 1]])[..|prev|] == prev;
      } else {
        assert StoredNames(names, outs, k) == prev;
      }
    }
  }

  /** Collecting fails exactly when some outcome is an error, and then with one of those errors. */
  lemma {:induction false} CollectError<V, E>(names: seq<string>, outs: seq<Result<Option<V>, E>>, k: nat)
    requires k <= |names| == |outs|
    ensures Collect(names, outs, k).Err? <==> exists i :: 0 <= i < k && outs[i].Err?
    ensures Collect(names, outs, k).Err? ==>
      exists i :: 0 <= i < k && outs[i] == Err(Collect(names, outs, k).error)
  {
    if k > 0 {
      CollectError(names, outs, k - 1);
    }
  }

  /** The collected dict never holds a key twice. */
  lemma {:induction false} CollectDistinct<V, E>(names: seq<string>, outs: seq<Result<Option<V>, E>>, k: nat)
    requires k <= |names| == |outs| && Collect(names, outs, k).Ok?
    ensures DistinctKeys(Collect(names, outs, k).value)
  {
    if k > 0 {
      CollectDistinct(names, outs, k - 1);
      if Stores(outs, k - 1) {
        PutDistinct(Collect(names, outs, k - 1).value, names[k - 1], outs[k - 1].value.value);
      }
    }
  }

  /** A name's value is the one stored by the last outcome with that name that stores one. */
  lemma {:induction false} CollectLastWins<V, E>(names: seq<string>, outs: seq<Result<Option<V>, E>>, k: nat, i: nat)
    requires i < k <= |names| == |outs| && Collect(names, outs, k).Ok? && Stores(outs, i)
    requires forall j :: i < j < k && names[j] == names[i] ==> !Stores(outs, j)
    ensures Get(Collect(names, outs, k).value, names[i]) == outs[i].value
  {
    var d := Collect(names, outs, k - 1).value;
    if i < k - 1 {
      CollectLastWins(names, outs, k - 1, i);
      if Stores(outs, k - 1) {
        PutOther(d, names[k - 1], outs[k - 1].value.value, names[i]);
      }
    } else {
      PutGet(d, names[i], outs[i].value.value);
    }
  }

  /** Once an outcome has failed, later outcomes are not looked at: the error stands. */
  lemma {:induction false} CollectErrorStands<V, E>(names: seq<string>, outs: seq<Result<Option<V>, E>>, k: nat, m: nat)
    requires k <= m <= |names| == |outs| && Collect(names, outs, k).Err?
    ensures Collect(names, outs, m) == Collect(names, outs, k)
    decreases m
  {
    if m > k {
      CollectErrorStands(names, outs, k, m - 1);
    }
  }
}
