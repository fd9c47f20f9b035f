/**
 * load_data's loops as written: the row scan that appends to
 * team_positions, the per-block header and credits searches with break, and
 * the loop that fills all_teams_data. Each method is proved to compute the
 * function of module Roster that specifies it.
 */
module Loader {
  import opened Wrappers
  import opened PyText
  import opened Sheet
  import opened OrderedDict
  import opened Scan
  import opened Roster
  import opened RosterProperties

  /**
   * The row loop that fills team_positions, over the tests it applies: first
   * on column 0 (which must exist), then second on column 1 (which must exist
   * once first holds); marks is the conjunction of the two.
   */
  method ScanMarkers(g: Grid, w: nat, first: Row -> bool, second: Row -> bool, marks: Row -> bool, name: Row -> string)
    returns (r: Result<seq<Marker>, LoadError>)
    requires forall row :: marks(row) == (first(row) && second(row))
    ensures r == ScanOutcome(g, w, first, marks, name)
  {
    var positions: seq<Marker> := [];
    var idx := 0;
    while idx < |g|
      invariant idx <= |g|
      invariant positions == Positions(g, idx, marks, name)
      invariant idx > 0 ==> w > 0
      invariant w < 2 ==> forall i :: 0 <= i < idx ==> !first(g[i])
    {
      var row := g[idx];
      if w == 0 {
        return Err(MissingColumn(0));
      }
      if first(row) {
        if w < 2 {
          FirstWhereFound(g, first, idx);
          return Err(MissingColumn(1));
        }
        if second(row) {
          positions := positions + [Marker(idx, name(row))];
        }
      }
      idx := idx + 1;
    }
    if w < 2 {
      FirstWhereAt(g, first, |g|);
    }
    return Ok(positions);
  }

  /** The scan for team-marker rows. */
  method FindTeamPositions(g: Grid) returns (r: Result<seq<Marker>, LoadError>)
    ensures r == TeamPositions(g)
  {
    var w := Width(g);
    r := ScanMarkers(g, w, FirstCellQualifies, SecondCellQualifies, IsMarkerRow, MarkerText);
  }

  /** The search for the header row of a block. */
  method FindHeader(block: Grid) returns (h: Option<nat>)
    ensures h == FirstWhere(block, IsHeaderRow)
  {
    h := None;
    var idx := 0;
    while idx < |block|
      invariant idx <= |block|
      invariant forall j :: 0 <= j < idx ==> !IsHeaderRow(block[j])
    {
      if IsHeaderRow(block[idx]) {
        h := Some(idx);
        break;
      }
      idx := idx + 1;
    }
    FirstWhereAt(block, IsHeaderRow, idx);
  }

  /** The search for the credits marker of a block, with the try/except around int(). */
  method FindCredits(block: Grid) returns (credits: int)
    ensures credits == BaseCredits(block)
  {
    credits := 0;
    var idx := 0;
    while idx < |block|
      invariant idx <= |block|
      invariant forall j :: 0 <= j < idx ==> !IsCreditsRow(block[j])
    {
      if IsCreditsRow(block[idx]) {
        FirstWhereAt(block, IsCreditsRow, idx);
        credits := CreditsValue(CellText(At(block[idx], 0)));
        break;
      }
      idx := idx + 1;
    }
    FirstWhereAt(block, IsCreditsRow, idx);
  }

  /** The body of the block loop for one block: skip it, fail on the column renaming, or build its team. */
  method ProcessBlock(block: Grid, w: nat) returns (o: Result<Option<Team>, LoadError>)
    ensures o == ParseBlock(block, w)
  {
    var header := FindHeader(block);
    if header.None? {
      return Ok(None);
    }
    if w != 4 {
      return Err(ColumnCountMismatch(w));
    }
    var players := Players(block[header.value + 1..]);
    var credits := FindCredits(block);
    return Ok(Some(Team(players, credits)));
  }

  /** The team part of load_data. */
  method LoadTeams(g: Grid) returns (r: Result<Dict<Team>, LoadError>)
    ensures r == Extract(g)
  {
    var found := FindTeamPositions(g);
    if found.Err? {
      return Err(found.error);
    }
    var ms := found.value;
    var w := Width(g);
    var teams: Dict<Team> := [];
    var i := 0;
    while i < |ms|
      invariant i <= |ms|
      invariant Fold(g, ms, i) == Ok(teams)
    {
      var startIdx := ms[i].row;
      var endIdx := if i < |ms| - 1 then ms[i + 1].row else |g|;
      var block := g[startIdx..endIdx];
      assert block == Block(g, ms, i);
      FoldStep(g, ms, i, teams);
      var o := ProcessBlock(block, w);
      if o.Err? {
        FoldErrorStands(g, ms, i + 1);
        return Err(o.error);
      }
      if o.value.Some? {
        teams := Put(teams, ms[i].name, o.value.value);
      }
      i := i + 1;
    }
    return Ok(teams);
  }
}
