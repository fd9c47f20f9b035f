/**
 * The free-agent tab: the Svincolati sheet filtered by role and sorted by
 * market value (FVM) from highest to lowest, and the ten free agents of
 * highest market value.
 */
module FreeAgents {

  /** One row of the Svincolati sheet, with the columns the views use; FVM taken as an integer. */
  datatype Agent = Agent(name: string, club: string, role: string, fvm: int)

  /** The selector entry that keeps every role. */
  const AllRoles: string := "Tutti"

  /** The entries of the role selector, in display order. */
  const RoleChoices: seq<string> := [AllRoles, "P", "D", "C", "A"]

  /** How many rows the top list shows. */
  const TopCount: nat := 10

  /** The rows whose role is exactly role, in sheet order. */
  function RoleRows(agents: seq<Agent>, role: string): seq<Agent> {
    if agents == [] then []
    else
      var last := agents[|agents| - 1];
      RoleRows(agents[..|agents| - 1], role) + (if last.role == role then [last] else [])
  }

  /** The copy of the sheet the role selector leaves: everything for "Tutti", else one role. */
  function Filter(agents: seq<Agent>, choice: string): seq<Agent> {
    if choice == AllRoles then agents else RoleRows(agents, choice)
  }

  /** The rows a choice keeps. */
  predicate Selected(a: Agent, choice: string) {
    choice == AllRoles || a.role == choice
  }

  /** RoleRows keeps each row of the role as often as it occurs, and no other row. */
  lemma {:induction false} RoleRowsCount(agents: seq<Agent>, role: string)
    ensures forall a :: multiset(RoleRows(agents, role))[a] == if a.role == role then multiset(agents)[a] else 0
  {
    if agents != [] {
      var init := agents[..|agents| - 1];
      RoleRowsCount(init, role);
      assert agents == init + [agents[|agents| - 1]];
    }
  }

  /** RoleRows of a concatenation is the concatenation of the two: sheet order is kept. */
  lemma {:induction false} RoleRowsAppend(a: seq<Agent>, b: seq<Agent>, role: string)
    ensures RoleRows(a + b, role) == RoleRows(a, role) + RoleRows(b, role)
    decreases |b|
  {
    if b == [] {
      assert a + b == a;
    } else {
      var b' := b[..|b| - 1];
      assert (a + b)[..|a + b| - 1] == a + b';
      RoleRowsAppend(a, b', role);
    }
  }

  /**
   * The filter keeps exactly the selected rows, each as often as in the
   * sheet, and keeps the sheet unchanged for "Tutti".
   */
  lemma FilterSpec(agents: seq<Agent>, choice: string)
    ensures choice == AllRoles ==> Filter(agents, choice) == agents
    ensures forall a :: multiset(Filter(agents, choice))[a] == if Selected(a, choice) then multiset(agents)[a] else 0
    ensures forall a :: a in Filter(agents, choice) <==> a in agents && Selected(a, choice)
  {
    if choice != AllRoles {
      RoleRowsCount(agents, choice);
    }
    forall a
      ensures a in Filter(agents, choice) <==> a in agents && Selected(a, choice)
    {
      assert a in Filter(agents, choice) <==> multiset(Filter(agents, choice))[a] > 0;
      assert a in agents <==> multiset(agents)[a] > 0;
    }
  }

  /** The filter keeps the sheet order: filtering a concatenation filters each part. */
  lemma FilterAppend(a: seq<Agent>, b: seq<Agent>, choice: string)
    ensures Filter(a + b, choice) == Filter(a, choice) + Filter(b, choice)
  {
    if choice != AllRoles {
      RoleRowsAppend(a, b, choice);
    }
  }

  /** The number of rows the choice at position c of the selector shows. */
  function ChoiceCount(agents: seq<Agent>, c: nat): nat
    requires c < |RoleChoices|
  {
    |Filter(agents, RoleChoices[c])|
  }

  /** One of the four playing roles. */
  predicate PlayingRole(role: string) {
    role == "P" || role == "D" || role == "C" || role == "A"
  }

  /** The role filters for P, D, C and A together keep every row of a sheet with only those roles. */
  lemma {:induction false} RoleRowsPartition(agents: seq<Agent>)
    requires forall i :: 0 <= i < |agents| ==> PlayingRole(agents[i].role)
    ensures |RoleRows(agents, "P")| + |RoleRows(agents, "D")| + |RoleRows(agents, "C")| + |RoleRows(agents, "A")| == |agents|
  {
    if agents != [] {
      var init := agents[..|agents| - 1];
      RoleRowsPartition(init);
      var r := agents[|agents| - 1].role;
      assert "P"[0] != "D"[0] && "P"[0] != "C"[0] && "P"[0] != "A"[0];
      assert "D"[0] != "C"[0] && "D"[0] != "A"[0] && "C"[0] != "A"[0];
      assert PlayingRole(r);
    }
  }

  /**
   * When every row has one of the four roles, the four role entries of the
   * selector together show every row "Tutti" shows, each row under exactly
   * one of them.
   */
  lemma RoleChoicesPartition(agents: seq<Agent>)
    requires forall i :: 0 <= i < |agents| ==> PlayingRole(agents[i].role)
    ensures ChoiceCount(agents, 1) + ChoiceCount(agents, 2) + ChoiceCount(agents, 3) + ChoiceCount(agents, 4)
      == ChoiceCount(agents, 0)
  {
    assert RoleChoices[1] == "P" && RoleChoices[2] == "D" && RoleChoices[3] == "C" && RoleChoices[4] == "A";
    assert forall c :: 1 <= c < |RoleChoices| ==> RoleChoices[c] != AllRoles;
    RoleRowsPartition(agents);
  }

  /** Ordered by FVM from highest to lowest. */
  predicate SortedDesc(s: seq<Agent>) {
    forall i, j :: 0 <= i < j < |s| ==> s[i].fvm >= s[j].fvm
  }

  /** x inserted before the first row of lower FVM. */
  function Insert(x: Agent, s: seq<Agent>): seq<Agent> {
    if s == [] || x.fvm >= s[0].fvm then [x] + s else [s[0]] + Insert(x, s[1..])
  }

  /** sort_values('FVM', ascending=False), as an insertion sort. */
  function SortDesc(s: seq<Agent>): seq<Agent> {
    if s == [] then [] else Insert(s[0], SortDesc(s[1..]))
  }

  /** No row of s has an FVM above v. */
  predicate Below(s: seq<Agent>, v: int) {
    forall j :: 0 <= j < |s| ==> s[j].fvm <= v
  }

  /** A row followed by a descending sequence of rows no higher is descending. */
  lemma ConsSorted(h: Agent, t: seq<Agent>)
    requires SortedDesc(t) && Below(t, h.fvm)
    ensures SortedDesc([h] + t)
  {
  }

  /** Insertion adds x and nothing else. */
  lemma {:induction false} InsertPerm(x: Agent, s: seq<Agent>)
    ensures multiset(Insert(x, s)) == multiset(s) + multiset{x}
  {
    if s != [] && x.fvm < s[0].fvm {
      InsertPerm(x, s[1..]);
      assert s == [s[0]] + s[1..];
    }
  }

  /** Inserting a row no higher than v into rows no higher than v gives rows no higher than v. */
  lemma {:induction false} InsertBelow(x: Agent, s: seq<Agent>, v: int)
    requires x.fvm <= v && Below(s, v)
    ensures Below(Insert(x, s), v)
  {
    if s != [] && x.fvm < s[0].fvm {
      InsertBelow(x, s[1..], v);
    }
  }

  /** Insertion keeps a descending sequence descending. */
  lemma {:induction false} InsertSorted(x: Agent, s: seq<Agent>)
    requires SortedDesc(s)
    ensures SortedDesc(Insert(x, s))
  {
    if s == [] || x.fvm >= s[0].fvm {
      ConsSorted(x, s);
    } else {
      InsertSorted(x, s[1..]);
      InsertBelow(x, s[1..], s[0].fvm);
      ConsSorted(s[0], Insert(x, s[1..]));
    }
  }

  /** The descending sort is a permutation of its input. */
  lemma {:induction false} SortDescPerm(s: seq<Agent>)
    ensures multiset(SortDesc(s)) == multiset(s)
  {
    if s != [] {
      SortDescPerm(s[1..]);
      InsertPerm(s[0], SortDesc(s[1..]));
      assert s == [s[0]] + s[1..];
    }
  }

  /** The descending sort is ordered. */
  lemma {:induction false} SortDescSorted(s: seq<Agent>)
    ensures SortedDesc(SortDesc(s))
  {
    if s != [] {
      SortDescSorted(s[1..]);
      InsertSorted(s[0], SortDesc(s[1..]));
    }
  }

  /** The descending sort is ordered and is a permutation of its input. */
  lemma SortDescSpec(s: seq<Agent>)
    ensures SortedDesc(SortDesc(s)) && multiset(SortDesc(s)) == multiset(s) && |SortDesc(s)| == |s|
  {
    SortDescSorted(s);
    SortDescPerm(s);
    assert |multiset(SortDesc(s))| == |SortDesc(s)|;
  }

  /** The rows of FVM v, in the order of s. */
  function WithFvm(s: seq<Agent>, v: int): seq<Agent> {
    if s == [] then [] else (if s[0].fvm == v then [s[0]] else []) + WithFvm(s[1..], v)
  }

  /** WithFvm keeps exactly the rows of FVM v. */
  lemma {:induction false} WithFvmMembers(s: seq<Agent>, v: int)
    ensures forall a :: a in WithFvm(s, v) <==> a in s && a.fvm == v
  {
    if s != [] {
      WithFvmMembers(s[1..], v);
      assert s == [s[0]] + s[1..];
    }
  }

  /** WithFvm of a concatenation is the concatenation of the two. */
  lemma {:induction false} WithFvmAppend(a: seq<Agent>, b: seq<Agent>, v: int)
    ensures WithFvm(a + b, v) == WithFvm(a, v) + WithFvm(b, v)
  {
    if a == [] {
      assert a + b == b;
    } else {
      assert (a + b)[0] == a[0] && (a + b)[1..] == a[1..] + b;
      WithFvmAppend(a[1..], b, v);
    }
  }

  /** Insertion puts x before the rows of its own FVM: among those, x comes first. */
  lemma {:induction false} InsertWithFvm(x: Agent, s: seq<Agent>, v: int)
    ensures WithFvm(Insert(x, s), v) == WithFvm([x] + s, v)
  {
    if s != [] && x.fvm < s[0].fvm {
      InsertWithFvm(x, s[1..], v);
      var r := Insert(x, s);
      assert r[0] == s[0] && r[1..] == Insert(x, s[1..]);
      var rest := WithFvm(s[1..], v);
      assert WithFvm([x] + s[1..], v) == (if x.fvm == v then [x] else []) + rest;
      assert WithFvm(s, v) == (if s[0].fvm == v then [s[0]] else []) + rest;
      assert WithFvm([x] + s, v) == (if x.fvm == v then [x] else []) + WithFvm(s, v);
      if x.fvm == v {
        assert s[0].fvm != v;
      }
    }
  }

  /** The sort keeps rows of equal FVM in their input order (it is stable). */
  lemma {:induction false} SortDescStable(s: seq<Agent>, v: int)
    ensures WithFvm(SortDesc(s), v) == WithFvm(s, v)
  {
    if s != [] {
      SortDescStable(s[1..], v);
      InsertWithFvm(s[0], SortDesc(s[1..]), v);
      assert ([s[0]] + SortDesc(s[1..]))[1..] == SortDesc(s[1..]);
    }
  }

  /** The rows of b without row j. */
  function Drop(b: seq<Agent>, j: nat): seq<Agent>
    requires j < |b|
  {
    b[..j] + b[j + 1..]
  }

  /** Dropping row j removes that row once. */
  lemma DropCount(b: seq<Agent>, j: nat)
    requires j < |b|
    ensures |Drop(b, j)| == |b| - 1 && multiset(Drop(b, j)) == multiset(b) - multiset{b[j]}
  {
    assert b == b[..j] + [b[j]] + b[j + 1..];
  }

  /** Dropping one row keeps a descending sequence descending. */
  lemma DropSorted(b: seq<Agent>, j: nat)
    requires SortedDesc(b) && j < |b|
    ensures SortedDesc(Drop(b, j))
  {
    var b' := Drop(b, j);
    forall p, q | 0 <= p < q < |b'|
      ensures b'[p].fvm >= b'[q].fvm
    {
      var p' := if p < j then p else p + 1;
      var q' := if q < j then q else q + 1;
      assert b'[p] == b[p'] && b'[q] == b[q'];
    }
  }

  /** Two descending arrangements of the same rows start with the same FVM, held by row j of the second as well. */
  lemma HeadFvm(a: seq<Agent>, b: seq<Agent>) returns (j: nat)
    requires SortedDesc(a) && SortedDesc(b) && multiset(a) == multiset(b) && a != []
    ensures j < |b| && b[j] == a[0] && a[0].fvm == b[0].fvm
  {
    assert a[0] in multiset(b) && b[0] in multiset(a);
    j :| 0 <= j < |b| && b[j] == a[0];
    var i :| 0 <= i < |a| && a[i] == b[0];
  }

  /**
   * Dropping the head of a and the row of b equal to it leaves two
   * descending sequences of the same rows.
   */
  lemma DropBoth(a: seq<Agent>, b: seq<Agent>, j: nat)
    requires SortedDesc(a) && SortedDesc(b) && multiset(a) == multiset(b) && a != []
    requires j < |b| && b[j] == a[0]
    ensures SortedDesc(Drop(a, 0)) && SortedDesc(Drop(b, j)) && multiset(Drop(a, 0)) == multiset(Drop(b, j))
    ensures |Drop(a, 0)| == |a| - 1
  {
    DropSorted(a, 0);
    DropSorted(b, j);
    DropCount(a, 0);
    DropCount(b, j);
  }

  /** Rows with the same multiset are equally many. */
  lemma SameLength(a: seq<Agent>, b: seq<Agent>)
    requires multiset(a) == multiset(b)
    ensures |a| == |b|
  {
    assert |multiset(a)| == |a| && |multiset(b)| == |b|;
  }

  /**
   * Any two descending arrangements of the same rows have the same FVM
   * column: how ties are broken changes which row comes first, never the
   * values shown.
   */
  lemma {:induction false} SortedFvmUnique(a: seq<Agent>, b: seq<Agent>)
    requires SortedDesc(a) && SortedDesc(b) && multiset(a) == multiset(b)
    ensures |a| == |b| && forall k :: 0 <= k < |a| ==> a[k].fvm == b[k].fvm
    decreases |a|
  {
    SameLength(a, b);
    if a != [] {
      var j := HeadFvm(a, b);
      DropBoth(a, b, j);
      SortedFvmUnique(Drop(a, 0), Drop(b, j));
      ShiftFvm(a, b, j);
    }
  }

  /**
   * The step of SortedFvmUnique: when b[j] ties with the head b[0] and a
   * without its head matches b without row j, a matches b.
   */
  lemma ShiftFvm(a: seq<Agent>, b: seq<Agent>, j: nat)
    requires SortedDesc(b) && j < |b| && |a| == |b| && b[j].fvm == b[0].fvm && a[0].fvm == b[0].fvm
    requires forall k :: 0 <= k < |a| - 1 ==> Drop(a, 0)[k].fvm == Drop(b, j)[k].fvm
    ensures forall k :: 0 <= k < |a| ==> a[k].fvm == b[k].fvm
  {
    var a' := Drop(a, 0);
    var b' := Drop(b, j);
    forall k | 0 <= k < |a|
      ensures a[k].fvm == b[k].fvm
    {
      if k > 0 {
        assert a[k] == a'[k - 1];
        if k - 1 < j {
          assert b'[k - 1] == b[k - 1];
          assert b[0].fvm >= b[k - 1].fvm >= b[k].fvm >= b[j].fvm;
        } else {
          assert b'[k - 1] == b[k];
        }
      }
    }
  }

  /** df_display: the selected rows, from highest to lowest FVM. */
  function View(agents: seq<Agent>, choice: string): seq<Agent> {
    SortDesc(Filter(agents, choice))
  }

  /**
   * The displayed table is ordered by FVM from highest to lowest and holds
   * exactly the selected rows of the sheet, each as often as in the sheet;
   * its length is the displayed count of available free agents.
   */
  lemma ViewSpec(agents: seq<Agent>, choice: string)
    ensures SortedDesc(View(agents, choice))
    ensures forall a :: multiset(View(agents, choice))[a] == if Selected(a, choice) then multiset(agents)[a] else 0
    ensures forall a :: a in View(agents, choice) <==> a in agents && Selected(a, choice)
    ensures |View(agents, choice)| == |Filter(agents, choice)|
    ensures choice == AllRoles ==> multiset(View(agents, choice)) == multiset(agents)
  {
    FilterSpec(agents, choice);
    SortDescSpec(Filter(agents, choice));
    forall a
      ensures a in View(agents, choice) <==> a in agents && Selected(a, choice)
    {
      assert a in View(agents, choice) <==> multiset(View(agents, choice))[a] > 0;
    }
  }

  function Min(a: nat, b: nat): nat {
    if a <= b then a else b
  }

  /**
   * df_svincolati.nlargest(10, 'FVM'): the first ten rows of the whole sheet
   * in a stable sort by FVM, which is how nlargest keeps the first of tied rows.
   */
  function Top(agents: seq<Agent>): seq<Agent> {
    SortDescSpec(agents);
    SortDesc(agents)[..Min(TopCount, |agents|)]
  }

  /** The rows the top list leaves out. */
  function LeftOut(agents: seq<Agent>): seq<Agent> {
    SortDescSpec(agents);
    SortDesc(agents)[Min(TopCount, |agents|)..]
  }

  /**
   * The top list has min(10, n) rows ordered by FVM from highest to lowest;
   * together with the rows left out it is the whole sheet, and no row left
   * out has a higher FVM than a row of the list.
   */
  lemma TopSpec(agents: seq<Agent>)
    ensures |Top(agents)| == Min(TopCount, |agents|)
    ensures SortedDesc(Top(agents))
    ensures multiset(Top(agents)) + multiset(LeftOut(agents)) == multiset(agents)
    ensures forall i, j :: 0 <= i < |Top(agents)| && 0 <= j < |LeftOut(agents)| ==> Top(agents)[i].fvm >= LeftOut(agents)[j].fvm
    ensures forall v :: WithFvm(Top(agents), v) + WithFvm(LeftOut(agents), v) == WithFvm(agents, v)
  {
    forall v
      ensures WithFvm(Top(agents), v) + WithFvm(LeftOut(agents), v) == WithFvm(agents, v)
    {
      TopKeepsFirst(agents, v);
    }
    var s := SortDesc(agents);
    SortDescSpec(agents);
    var m := Min(TopCount, |agents|);
    assert s == s[..m] + s[m..];
    forall i, j | 0 <= i < |Top(agents)| && 0 <= j < |LeftOut(agents)|
      ensures Top(agents)[i].fvm >= LeftOut(agents)[j].fvm
    {
      assert Top(agents)[i] == s[i] && LeftOut(agents)[j] == s[m + j];
    }
  }

  /**
   * keep='first': the rows of each FVM value are split, in sheet order, into
   * those in the top list followed by those left out, so among rows tied at
   * the tenth place the earliest in the sheet are kept, and tied rows appear
   * in sheet order.
   */
  lemma TopKeepsFirst(agents: seq<Agent>, v: int)
    ensures WithFvm(Top(agents), v) + WithFvm(LeftOut(agents), v) == WithFvm(agents, v)
  {
    var s := SortDesc(agents);
    SortDescSpec(agents);
    var m := Min(TopCount, |agents|);
    assert s == s[..m] + s[m..];
    WithFvmAppend(s[..m], s[m..], v);
    SortDescStable(agents, v);
  }

  /** With at most ten rows the top list is the whole sheet, reordered. */
  lemma TopOfSmallSheet(agents: seq<Agent>)
    requires |agents| <= TopCount
    ensures multiset(Top(agents)) == multiset(agents) && LeftOut(agents) == []
  {
    TopSpec(agents);
  }

  /**
   * Whatever order a descending sort gives rows of equal FVM, the FVM
   * column of the displayed table is the one of View.
   */
  lemma ViewFvmDetermined(agents: seq<Agent>, choice: string, shown: seq<Agent>)
    requires SortedDesc(shown) && multiset(shown) == multiset(Filter(agents, choice))
    ensures |shown| == |View(agents, choice)|
    ensures forall k :: 0 <= k < |shown| ==> shown[k].fvm == View(agents, choice)[k].fvm
  {
    SortDescSpec(Filter(agents, choice));
    SortedFvmUnique(shown, View(agents, choice));
  }
}
