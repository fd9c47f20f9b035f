/**
 * The decision store of the dashboard (st.session_state.all_teams_state):
 * one table per team whose Svincolare and Importo_Pagato cells the team tab
 * edits in place, and the reads of those tables for the sidebar, the team
 * tab and the league summary.
 */
module Decisions {
  import opened Roster
  import opened OrderedDict
  import opened Credits
  import opened Aggregate

  /** One team's table: the loaded players, and the two edited columns as arrays. */
  class TeamTable {
    const name: string
    const players: seq<Player>
    const baseCredits: int
    const release: array<bool>
    const paid: array<int>

    /** One cell per player in each column; no amount paid is below 1. */
    ghost predicate Valid()
      reads this, release, paid
    {
      release.Length == |players| && paid.Length == |players| &&
      forall i :: 0 <= i < paid.Length ==> paid[i] >= 1
    }

    /** The table as a value. */
    function State(): TeamState
      reads this, release, paid
    {
      TeamState(name, players, release[..], paid[..], baseCredits)
    }

    /** team_df_init for one loaded team. */
    constructor (name: string, team: Team)
      ensures Valid() && State() == InitialState(name, team)
      ensures fresh(release) && fresh(paid)
    {
      var ps := team.players;
      this.name := name;
      players := ps;
      baseCredits := team.baseCredits;
      release := new bool[|ps|](i requires 0 <= i < |ps| => ps[i].hasAsterisk);
      paid := new int[|ps|](_ => 1);
      new;
      assert release[..] == InitialState(name, team).release;
      assert paid[..] == InitialState(name, team).paid;
    }

    /** .loc[idx, 'Svincolare'] = value: only that cell changes. */
    method SetRelease(idx: nat, value: bool)
      requires Valid() && idx < |players|
      modifies release
      ensures Valid() && release[..] == old(release[..])[idx := value]
    {
      release[idx] := value;
    }

    /** .loc[idx, 'Importo_Pagato'] = amount, where the input widget never yields less than 1. */
    method SetPaid(idx: nat, amount: int)
      requires Valid() && idx < |players| && amount >= 1
      modifies paid
      ensures Valid() && paid[..] == old(paid[..])[idx := amount]
    {
      paid[idx] := amount;
    }

    /** The sidebar and team-tab figures, read from the table. */
    method Panel() returns (m: Metrics)
      requires Valid()
      ensures m == MetricsOf(State())
    {
      var credits := CalculateResidualCredits(players, baseCredits);
      var bonus := BonusTotal(players);
      var rel := release[..];
      m := Metrics(credits, PaidAll(paid[..]),
        CountRole(players, rel, P), CountRole(players, rel, D), CountRole(players, rel, C), CountRole(players, rel, A),
        |players|, |Marked(players)|, CountReleased(rel), bonus);
    }
  }

  /**
   * ts are valid tables named ns, held with their arrays in r, no two of
   * them sharing an array.
   */
  ghost predicate TablesIn(ts: seq<TeamTable>, ns: seq<string>, r: set<object>)
    reads r
  {
    |ts| == |ns| &&
    (forall k :: 0 <= k < |ts| ==> ts[k] in r && ts[k].release in r && ts[k].paid in r) &&
    (forall k :: 0 <= k < |ts| ==> ts[k].name == ns[k] && ts[k].Valid()) &&
    (forall j, k :: 0 <= j < k < |ts| ==> ts[j].release != ts[k].release && ts[j].paid != ts[k].paid)
  }

  /** Table k of ts, held in r, is the initial table of entry k of teams. */
  ghost predicate InitialTables(ts: seq<TeamTable>, teams: Dict<Team>, r: set<object>)
    reads r
  {
    |ts| <= |teams| &&
    (forall k :: 0 <= k < |ts| ==> ts[k] in r && ts[k].release in r && ts[k].paid in r) &&
    (forall k :: 0 <= k < |ts| ==> ts[k].State() == InitialState(teams[k].key, teams[k].value))
  }

  /** Appending a valid table with arrays of its own keeps TablesIn. */
  lemma TablesSnoc(ts: seq<TeamTable>, ns: seq<string>, r: set<object>, t: TeamTable)
    requires TablesIn(ts, ns, r) && t.Valid()
    requires t.release !in r && t.paid !in r
    ensures TablesIn(ts + [t], ns + [t.name], r + {t, t.release, t.paid})
  {
  }

  /** Appending the initial table of the next team keeps InitialTables. */
  lemma InitialSnoc(ts: seq<TeamTable>, teams: Dict<Team>, r: set<object>, t: TeamTable)
    requires InitialTables(ts, teams, r) && |ts| < |teams|
    requires t.State() == InitialState(teams[|ts|].key, teams[|ts|].value)
    ensures InitialTables(ts + [t], teams, r + {t, t.release, t.paid})
  {
  }

  /** One step of the first initialisation: a fresh initial table for the next team. */
  method AddTable(ts: seq<TeamTable>, ghost ns: seq<string>, ghost r: set<object>, teams: Dict<Team>)
    returns (ts': seq<TeamTable>, ghost r': set<object>)
    requires TablesIn(ts, ns, r) && InitialTables(ts, teams, r) && |ts| < |teams|
    ensures TablesIn(ts', ns + [teams[|ts|].key], r') && InitialTables(ts', teams, r')
    ensures |ts'| == |ts| + 1 && r <= r' && fresh(r' - r)
  {
    var t := new TeamTable(teams[|ts|].key, teams[|ts|].value);
    TablesSnoc(ts, ns, r, t);
    InitialSnoc(ts, teams, r, t);
    ts' := ts + [t];
    r' := r + {t, t.release, t.paid};
  }

  /** The loop of the first initialisation: a fresh initial table for each loaded team. */
  method NewTables(teams: Dict<Team>) returns (ts: seq<TeamTable>, ghost r: set<object>)
    ensures TablesIn(ts, Keys(teams), r) && InitialTables(ts, teams, r) && fresh(r)
  {
    ts := [];
    r := {};
    var i := 0;
    while i < |teams|
      invariant i <= |teams| && |ts| == i
      invariant TablesIn(ts, Keys(teams[..i]), r)
      invariant InitialTables(ts, teams, r)
      invariant fresh(r)
    {
      assert teams[..i + 1] == teams[..i] + [teams[i]];
      KeysAppend(teams[..i], [teams[i]]);
      ts, r := AddTable(ts, Keys(teams[..i]), r, teams);
      i := i + 1;
    }
    assert teams[..i] == teams;
  }

  /**
   * all_teams_state: one table per loaded team, tables[k] belonging to the
   * team names[k] (team k of the team selector).
   */
  class Session {
    const names: seq<string>
    const tables: seq<TeamTable>
    ghost const Repr: set<object>

    ghost predicate Valid()
      reads this, Repr
    {
      TablesIn(tables, names, Repr)
    }

    /** The tables of the first k teams, as values, in team order. */
    function StatesUpTo(k: nat): (ts: seq<TeamState>)
      requires Valid() && k <= |names|
      reads this, Repr
      ensures |ts| == k && AllWellFormed(ts)
    {
      if k == 0 then [] else StatesUpTo(k - 1) + [tables[k - 1].State()]
    }

    /** The first initialisation of all_teams_state: one fresh table per loaded team, in team order. */
    constructor (teams: Dict<Team>)
      ensures Valid() && names == Keys(teams) && fresh(Repr)
      ensures InitialTables(tables, teams, Repr)
    {
      var ts, r := NewTables(teams);
      names := Keys(teams);
      tables := ts;
      Repr := r;
    }

    /** The Svincolare checkbox of row idx of team k. */
    method SetRelease(k: nat, idx: nat, value: bool)
      requires Valid() && k < |tables| && idx < |tables[k].players|
      modifies tables[k].release
      ensures Valid()
      ensures tables[k].release[..] == old(tables[k].release[..])[idx := value]
      ensures forall j :: 0 <= j < |tables| && j != k ==> tables[j].release[..] == old(tables[j].release[..])
      ensures forall j :: 0 <= j < |tables| ==> tables[j].paid[..] == old(tables[j].paid[..])
    {
      tables[k].SetRelease(idx, value);
    }

    /** The Importo_Pagato input of row idx of team k. */
    method SetPaid(k: nat, idx: nat, amount: int)
      requires Valid() && k < |tables| && idx < |tables[k].players| && amount >= 1
      modifies tables[k].paid
      ensures Valid()
      ensures tables[k].paid[..] == old(tables[k].paid[..])[idx := amount]
      ensures forall j :: 0 <= j < |tables| && j != k ==> tables[j].paid[..] == old(tables[j].paid[..])
      ensures forall j :: 0 <= j < |tables| ==> tables[j].release[..] == old(tables[j].release[..])
    {
      tables[k].SetPaid(idx, amount);
    }

    /** summary_df_with_totals, over the tables as they currently stand. */
    method Summary() returns (rows: seq<SummaryRow>)
      requires Valid()
      ensures rows == SummaryWithTotals(StatesUpTo(|names|))
    {
      var states := StatesUpTo(|names|);
      rows := BuildSummary(states);
    }
  }
}
