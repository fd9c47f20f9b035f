/**
 * The per-team metrics and the league summary of the dashboard, on the
 * decision tables taken as values: release counts per role, the two sums of
 * the amounts paid, one summary row per team and the totals row.
 */
module Aggregate {
  import opened Roster
  import opened Credits

  /** One team's decision table: its players, the Svincolare and Importo_Pagato columns, crediti_base. */
  datatype TeamState = TeamState(name: string, players: seq<Player>, release: seq<bool>, paid: seq<int>, baseCredits: int)

  /** The three columns of a table have one entry per player. */
  predicate WellFormed(t: TeamState) {
    |t.release| == |t.players| && |t.paid| == |t.players|
  }

  /** team_df_init of a loaded team: Svincolare copies Ha_Asterisco and Importo_Pagato is 1 for every player. */
  function InitialState(name: string, team: Team): TeamState {
    var ps := team.players;
    TeamState(name, ps, seq(|ps|, i requires 0 <= i < |ps| => ps[i].hasAsterisk), seq(|ps|, _ => 1), team.baseCredits)
  }

  /** Svincolare.sum(): the number of players marked for release. */
  function CountReleased(release: seq<bool>): nat {
    if release == [] then 0
    else CountReleased(release[..|release| - 1]) + (if release[|release| - 1] then 1 else 0)
  }

  /** The size of one role's group among the released players, 0 for a role without any. */
  function CountRole(ps: seq<Player>, release: seq<bool>, role: Role): nat
    requires |release| == |ps|
  {
    if ps == [] then 0
    else
      var n := |ps| - 1;
      CountRole(ps[..n], release[..n], role) + (if release[n] && ps[n].role == role then 1 else 0)
  }

  /** Importo_Pagato.sum() over every player (the sidebar's total cost). */
  function PaidAll(paid: seq<int>): int {
    if paid == [] then 0 else PaidAll(paid[..|paid| - 1]) + paid[|paid| - 1]
  }

  /** Importo_Pagato summed over the players with release set to keep (true) or not (false). */
  function PaidWhere(release: seq<bool>, paid: seq<int>, keep: bool): int
    requires |release| == |paid|
  {
    if paid == [] then 0
    else
      var n := |paid| - 1;
      PaidWhere(release[..n], paid[..n], keep) + (if release[n] == keep then paid[n] else 0)
  }

  /** The summary's Costo Totale: Importo_Pagato summed over the released players only. */
  function PaidReleased(release: seq<bool>, paid: seq<int>): int
    requires |release| == |paid|
  {
    PaidWhere(release, paid, true)
  }

  /** Every player belongs to exactly one of the four roles, so the role counts add up to the released count. */
  lemma {:induction false} RolesPartition(ps: seq<Player>, release: seq<bool>)
    requires |release| == |ps|
    ensures CountRole(ps, release, P) + CountRole(ps, release, D) + CountRole(ps, release, C) + CountRole(ps, release, A)
      == CountReleased(release)
  {
    if ps != [] {
      var n := |ps| - 1;
      RolesPartition(ps[..n], release[..n]);
    }
  }

  /** The sidebar's total is the summary's released total plus what the kept players were paid. */
  lemma {:induction false} PaidSplit(release: seq<bool>, paid: seq<int>)
    requires |release| == |paid|
    ensures PaidAll(paid) == PaidReleased(release, paid) + PaidWhere(release, paid, false)
  {
    if paid != [] {
      var n := |paid| - 1;
      PaidSplit(release[..n], paid[..n]);
    }
  }

  /** With every amount at least 1, each summed amount is at least the number of players it covers. */
  lemma {:induction false} PaidBounds(release: seq<bool>, paid: seq<int>)
    requires |release| == |paid| && forall i :: 0 <= i < |paid| ==> paid[i] >= 1
    ensures PaidAll(paid) >= |paid|
    ensures PaidReleased(release, paid) >= CountReleased(release)
    ensures PaidWhere(release, paid, false) >= 0
    ensures PaidReleased(release, paid) <= PaidAll(paid)
  {
    if paid != [] {
      var n := |paid| - 1;
      PaidBounds(release[..n], paid[..n]);
      PaidSplit(release, paid);
    }
  }

  /** With the initial decisions (release = Ha_Asterisco), the released players are the asterisk players. */
  lemma {:induction false} InitialReleased(ps: seq<Player>, release: seq<bool>)
    requires |release| == |ps| && forall i :: 0 <= i < |ps| ==> release[i] == ps[i].hasAsterisk
    ensures CountReleased(release) == |Marked(ps)|
  {
    if ps != [] {
      var n := |ps| - 1;
      InitialReleased(ps[..n], release[..n]);
    }
  }

  /** A row of the league summary. */
  datatype SummaryRow = SummaryRow(team: string, credits: int, released: int, p: int, d: int, c: int, a: int, cost: int)

  /** The label of the totals row. */
  const TotalsLabel: string := "**TOTALI**"

  /** The summary row of one team. */
  function TeamRow(t: TeamState): (r: SummaryRow)
    requires WellFormed(t)
    ensures r.team == t.name && r.credits == t.baseCredits + Bonus(t.players)
    ensures r.p + r.d + r.c + r.a == r.released
  {
    RolesPartition(t.players, t.release);
    SummaryRow(t.name, t.baseCredits + Bonus(t.players), CountReleased(t.release),
      CountRole(t.players, t.release, P), CountRole(t.players, t.release, D),
      CountRole(t.players, t.release, C), CountRole(t.players, t.release, A),
      PaidReleased(t.release, t.paid))
  }

  predicate AllWellFormed(ts: seq<TeamState>) {
    forall i :: 0 <= i < |ts| ==> WellFormed(ts[i])
  }

  /** summary_data: one row per team, in team order. */
  function TeamRows(ts: seq<TeamState>): (rows: seq<SummaryRow>)
    requires AllWellFormed(ts)
    ensures |rows| == |ts|
  {
    if ts == [] then [] else TeamRows(ts[..|ts| - 1]) + [TeamRow(ts[|ts| - 1])]
  }

  function CreditsOf(r: SummaryRow): int { r.credits }
  function ReleasedOf(r: SummaryRow): int { r.released }
  function POf(r: SummaryRow): int { r.p }
  function DOf(r: SummaryRow): int { r.d }
  function COf(r: SummaryRow): int { r.c }
  function AOf(r: SummaryRow): int { r.a }
  function CostOf(r: SummaryRow): int { r.cost }

  /** summary_df[col].sum() for one numeric column. */
  function Column(rows: seq<SummaryRow>, col: SummaryRow -> int): int {
    if rows == [] then 0 else Column(rows[..|rows| - 1], col) + col(rows[|rows| - 1])
  }

  /** totals_row: the label, then every numeric column summed over the team rows. */
  function Totals(rows: seq<SummaryRow>): SummaryRow {
    SummaryRow(TotalsLabel, Column(rows, CreditsOf), Column(rows, ReleasedOf), Column(rows, POf),
      Column(rows, DOf), Column(rows, COf), Column(rows, AOf), Column(rows, CostOf))
  }

  /** summary_df_with_totals: the team rows, then the totals row. */
  function SummaryWithTotals(ts: seq<TeamState>): seq<SummaryRow>
    requires AllWellFormed(ts)
  {
    TeamRows(ts) + [Totals(TeamRows(ts))]
  }

  /** The statistics the summary loop computes for one team. */
  method TeamSummaryRow(t: TeamState) returns (row: SummaryRow)
    requires WellFormed(t)
    ensures row == TeamRow(t)
  {
    var credits := CalculateResidualCredits(t.players, t.baseCredits);
    row := SummaryRow(t.name, credits, CountReleased(t.release),
      CountRole(t.players, t.release, P), CountRole(t.players, t.release, D),
      CountRole(t.players, t.release, C), CountRole(t.players, t.release, A),
      PaidReleased(t.release, t.paid));
  }

  /** summary_df_with_totals: the loop that appends one row per team, then the totals row. */
  method BuildSummary(ts: seq<TeamState>) returns (rows: seq<SummaryRow>)
    requires AllWellFormed(ts)
    ensures rows == SummaryWithTotals(ts)
  {
    var data: seq<SummaryRow> := [];
    var i := 0;
    while i < |ts|
      invariant i <= |ts|
      invariant data == TeamRows(ts[..i])
    {
      var row := TeamSummaryRow(ts[i]);
      TeamRowsPrefix(ts, i);
      data := data + [row];
      i := i + 1;
    }
    assert ts[..|ts|] == ts;
    rows := data + [Totals(data)];
  }

  /** The rows of the first i + 1 teams are those of the first i, then team i's. */
  lemma TeamRowsPrefix(ts: seq<TeamState>, i: nat)
    requires AllWellFormed(ts) && i < |ts|
    ensures TeamRows(ts[..i + 1]) == TeamRows(ts[..i]) + [TeamRow(ts[i])]
  {
    assert ts[..i + 1] == ts[..i] + [ts[i]];
    TeamRowsSnoc(ts[..i], ts[i]);
  }

  /** A column sum is additive over a split of the rows. */
  lemma {:induction false} ColumnAppend(a: seq<SummaryRow>, b: seq<SummaryRow>, col: SummaryRow -> int)
    ensures Column(a + b, col) == Column(a, col) + Column(b, col)
    decreases |b|
  {
    if b == [] {
      assert a + b == a;
    } else {
      var b' := b[..|b| - 1];
      assert (a + b)[..|a + b| - 1] == a + b';
      ColumnAppend(a, b', col);
    }
  }

  /** One more team adds its row at the end. */
  lemma TeamRowsSnoc(ts: seq<TeamState>, t: TeamState)
    requires AllWellFormed(ts) && WellFormed(t)
    ensures AllWellFormed(ts + [t]) && TeamRows(ts + [t]) == TeamRows(ts) + [TeamRow(t)]
  {
    var us := ts + [t];
    assert us[..|us| - 1] == ts;
  }

  /** Row i of the summary is the row of team i. */
  lemma {:induction false} TeamRowsAt(ts: seq<TeamState>, i: nat)
    requires AllWellFormed(ts) && i < |ts|
    ensures TeamRows(ts)[i] == TeamRow(ts[i])
  {
    var init := ts[..|ts| - 1];
    assert AllWellFormed(init) by {
      forall j | 0 <= j < |init| ensures WellFormed(init[j]) {
        assert init[j] == ts[j];
      }
    }
    if i < |ts| - 1 {
      TeamRowsAt(init, i);
    }
  }

  /**
   * The summary has one row per team, in team order, followed by the totals
   * row, which carries the totals label.
   */
  lemma SummaryShape(ts: seq<TeamState>)
    requires AllWellFormed(ts)
    ensures var s := SummaryWithTotals(ts);
      |s| == |ts| + 1 && s[|ts|] == Totals(TeamRows(ts)) && s[|ts|].team == TotalsLabel &&
      forall i :: 0 <= i < |ts| ==> s[i] == TeamRow(ts[i]) && s[i].team == ts[i].name
  {
    forall i | 0 <= i < |ts|
      ensures SummaryWithTotals(ts)[i] == TeamRow(ts[i])
    {
      TeamRowsAt(ts, i);
    }
  }

  /** The totals of one row are that row's numbers; the totals of two parts add up. */
  lemma TotalsAdditive(a: seq<SummaryRow>, b: seq<SummaryRow>)
    ensures var t, ta, tb := Totals(a + b), Totals(a), Totals(b);
      t.credits == ta.credits + tb.credits && t.released == ta.released + tb.released &&
      t.p == ta.p + tb.p && t.d == ta.d + tb.d && t.c == ta.c + tb.c && t.a == ta.a + tb.a &&
      t.cost == ta.cost + tb.cost
  {
    ColumnAppend(a, b, CreditsOf);
    ColumnAppend(a, b, ReleasedOf);
    ColumnAppend(a, b, POf);
    ColumnAppend(a, b, DOf);
    ColumnAppend(a, b, COf);
    ColumnAppend(a, b, AOf);
    ColumnAppend(a, b, CostOf);
  }

  /** The totals of a single row repeat its numbers. */
  lemma TotalsSingle(r: SummaryRow)
    ensures var t := Totals([r]);
      t.credits == r.credits && t.released == r.released && t.p == r.p && t.d == r.d &&
      t.c == r.c && t.a == r.a && t.cost == r.cost
  {
    ColumnSingle(r, CreditsOf);
    ColumnSingle(r, ReleasedOf);
    ColumnSingle(r, POf);
    ColumnSingle(r, DOf);
    ColumnSingle(r, COf);
    ColumnSingle(r, AOf);
    ColumnSingle(r, CostOf);
  }

  lemma ColumnSingle(r: SummaryRow, col: SummaryRow -> int)
    ensures Column([r], col) == col(r)
  {
    var rs := [r];
    assert rs[..|rs| - 1] == [];
  }

  /** Rows whose role counts add up to their released count have totals that do too. */
  lemma {:induction false} TotalsRolesAddUp(rows: seq<SummaryRow>)
    requires forall i :: 0 <= i < |rows| ==> rows[i].p + rows[i].d + rows[i].c + rows[i].a == rows[i].released
    ensures var t := Totals(rows); t.p + t.d + t.c + t.a == t.released
  {
    if rows != [] {
      TotalsRolesAddUp(rows[..|rows| - 1]);
    }
  }

  /** In the league summary the totals row's P + D + C + A equals its Da Svincolare. */
  lemma SummaryTotalsConsistent(ts: seq<TeamState>)
    requires AllWellFormed(ts)
    ensures var t := Totals(TeamRows(ts)); t.p + t.d + t.c + t.a == t.released
  {
    var rows := TeamRows(ts);
    forall i | 0 <= i < |rows|
      ensures rows[i].p + rows[i].d + rows[i].c + rows[i].a == rows[i].released
    {
      TeamRowsAt(ts, i);
    }
    TotalsRolesAddUp(rows);
  }

  /** The credits column does not depend on the release flags or the amounts paid. */
  lemma CreditsIgnoreDecisions(t: TeamState, release: seq<bool>, paid: seq<int>)
    requires WellFormed(t) && |release| == |t.players| && |paid| == |t.players|
    ensures TeamRow(t.(release := release, paid := paid)).credits == TeamRow(t).credits
  {
  }

  /** The team tab's figures for one team. */
  datatype Metrics = Metrics(
    credits: int,    // Crediti Residui Totali
    costAll: int,    // Costo Totale Rosa, over every player
    p: nat, d: nat, c: nat, a: nat, // released per role
    players: nat,    // Giocatori Totali
    marked: nat,     // Giocatori con *
    released: nat,   // Da Svincolare
    bonus: int)      // Bonus Totale da *

  /** The figures of one team. */
  function MetricsOf(t: TeamState): Metrics
    requires WellFormed(t)
  {
    Metrics(t.baseCredits + Bonus(t.players), PaidAll(t.paid),
      CountRole(t.players, t.release, P), CountRole(t.players, t.release, D),
      CountRole(t.players, t.release, C), CountRole(t.players, t.release, A),
      |t.players|, |Marked(t.players)|, CountReleased(t.release), Bonus(t.players))
  }

  /**
   * The displayed bonus (residual minus base credits) is bonus_totale, the
   * per-role counts add up to the released count, and with every amount at
   * least 1 the total cost is at least the number of players.
   */
  lemma MetricsConsistent(t: TeamState)
    requires WellFormed(t)
    ensures var m := MetricsOf(t);
      m.credits - t.baseCredits == m.bonus && m.p + m.d + m.c + m.a == m.released &&
      ((forall i :: 0 <= i < |t.paid| ==> t.paid[i] >= 1) ==> m.costAll >= m.players)
  {
    RolesPartition(t.players, t.release);
    if forall i :: 0 <= i < |t.paid| ==> t.paid[i] >= 1 {
      PaidBounds(t.release, t.paid);
    }
  }

  /**
   * Before any edit a team releases exactly its asterisk players, pays 1 for
   * each player, and so its cost over all players is its number of players.
   */
  lemma InitialFigures(name: string, team: Team)
    ensures var t := InitialState(name, team);
      WellFormed(t) && (forall i :: 0 <= i < |t.paid| ==> t.paid[i] >= 1) &&
      (forall i :: 0 <= i < |t.players| ==> t.release[i] == t.players[i].hasAsterisk) &&
      CountReleased(t.release) == |Marked(t.players)| && PaidAll(t.paid) == |t.players|
  {
    var t := InitialState(name, team);
    InitialReleased(t.players, t.release);
    AllOnes(t.paid);
  }

  /** A column of ones sums to its length. */
  lemma {:induction false} AllOnes(paid: seq<int>)
    requires forall i :: 0 <= i < |paid| ==> paid[i] == 1
    ensures PaidAll(paid) == |paid|
  {
    if paid != [] {
      AllOnes(paid[..|paid| - 1]);
    }
  }
}
