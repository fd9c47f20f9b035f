/**
 * The roster segmentation of the "Rose" sheet (load_data in app.py) as
 * functions: which rows start a team, how the sheet is cut into one block per
 * team, and what a block yields (its players and its base credits).
 */
module Roster {
  import opened Wrappers
  import opened PyText
  import opened Sheet
  import opened OrderedDict
  import opened Scan

  datatype Role = P | D | C | A

  /** One roster line: Ruolo, Calciatore (stars removed), Squadra, Costo, Ha_Asterisco. */
  datatype Player = Player(role: Role, name: string, club: Cell, cost: int, hasAsterisk: bool)

  /** What load_data keeps per team: its player table and crediti_base. */
  datatype Team = Team(players: seq<Player>, baseCredits: int)

  /** A team-marker row: its row index in the sheet and the team name. */
  datatype Marker = Marker(row: nat, name: string)

  /** The load failures of load_data that the model keeps. */
  datatype LoadError =
    | MissingColumn(column: nat)      // row[0] / row[1] on a frame with fewer columns
    | ColumnCountMismatch(width: nat) // renaming a block's columns to four names

  const Reserved: seq<string> := ["Ruolo", "P", "D", "C", "A", "nan"]

  /** The text of column 0, as the marker test sees it: str() then strip(). */
  function MarkerText(r: Row): string {
    Strip(CellText(At(r, 0)))
  }

  /** The test on column 0 of a marker row. */
  predicate FirstCellQualifies(r: Row) {
    MarkerText(r) !in Reserved && !StartsWith(MarkerText(r), "Crediti")
  }

  /** The test on column 1 of a marker row: missing, or exactly "Calciatore". */
  predicate SecondCellQualifies(r: Row) {
    At(r, 1) == Empty || At(r, 1) == Str("Calciatore")
  }

  predicate IsMarkerRow(r: Row) {
    FirstCellQualifies(r) && SecondCellQualifies(r)
  }

  /** The rows among the first n satisfying marks, with name applied to each, in row order. */
  function Positions(g: Grid, n: nat, marks: Row -> bool, name: Row -> string): seq<Marker>
    requires n <= |g|
  {
    if n == 0 then []
    else Positions(g, n - 1, marks, name) + (if marks(g[n - 1]) then [Marker(n - 1, name(g[n - 1]))] else [])
  }

  /** The collected rows lie among the first n, in strictly increasing row order. */
  lemma {:induction false} PositionsValid(g: Grid, n: nat, marks: Row -> bool, name: Row -> string)
    requires n <= |g|
    ensures ValidMarkers(Positions(g, n, marks, name), n)
  {
    if n > 0 {
      PositionsValid(g, n - 1, marks, name);
    }
  }

  /** team_positions after the scan has seen the first n rows. */
  function MarkersUpTo(g: Grid, n: nat): (ms: seq<Marker>)
    requires n <= |g|
    ensures ValidMarkers(ms, n)
  {
    PositionsValid(g, n, IsMarkerRow, MarkerText);
    Positions(g, n, IsMarkerRow, MarkerText)
  }

  /** Marker rows lie inside the sheet, in strictly increasing row order. */
  predicate ValidMarkers(ms: seq<Marker>, n: nat) {
    (forall i :: 0 <= i < |ms| ==> ms[i].row < n) &&
    (forall i, j :: 0 <= i < j < |ms| ==> ms[i].row < ms[j].row)
  }

  /**
   * The outcome of a marker scan over rows whose frame is w columns wide: the
   * KeyError on row[0] when the frame has no column at all (and a row exists),
   * the KeyError on row[1] when it has no column 1 and some row passes the
   * column-0 test, else the marked rows.
   */
  function ScanOutcome(g: Grid, w: nat, first: Row -> bool, marks: Row -> bool, name: Row -> string): Result<seq<Marker>, LoadError> {
    if |g| > 0 && w == 0 then Err(MissingColumn(0))
    else if w < 2 && FirstWhere(g, first).Some? then Err(MissingColumn(1))
    else Ok(Positions(g, |g|, marks, name))
  }

  /** The scan for team markers of load_data, with its KeyErrors. */
  function TeamPositions(g: Grid): (r: Result<seq<Marker>, LoadError>)
    ensures r.Ok? ==> ValidMarkers(r.value, |g|)
  {
    PositionsValid(g, |g|, IsMarkerRow, MarkerText);
    ScanOutcome(g, Width(g), FirstCellQualifies, IsMarkerRow, MarkerText)
  }

  /** The exclusive end row of block i: the next marker row, or the end of the sheet. */
  function BlockEnd(ms: seq<Marker>, i: nat, n: nat): nat
    requires i < |ms|
  {
    if i + 1 < |ms| then ms[i + 1].row else n
  }

  /** df_raw.iloc[start_idx:end_idx] for block i: it includes its own marker row. */
  function Block(g: Grid, ms: seq<Marker>, i: nat): Grid
    requires ValidMarkers(ms, |g|) && i < |ms|
  {
    g[ms[i].row..BlockEnd(ms, i, |g|)]
  }

  /** The blocks from i on, in order. */
  function BlocksFrom(g: Grid, ms: seq<Marker>, i: nat): seq<Grid>
    requires ValidMarkers(ms, |g|) && i <= |ms|
    decreases |ms| - i
  {
    if i == |ms| then [] else [Block(g, ms, i)] + BlocksFrom(g, ms, i + 1)
  }

  function Concat(bs: seq<Grid>): Grid {
    if bs == [] then [] else bs[0] + Concat(bs[1..])
  }

  /** The header row "Ruolo, Calciatore, Squadra, Costo", found by column 1. */
  predicate IsHeaderRow(r: Row) {
    At(r, 1) == Str("Calciatore")
  }

  /** A row whose column 0, as str() without strip, starts with "Crediti Residui". */
  predicate IsCreditsRow(r: Row) {
    StartsWith(CellText(At(r, 0)), "Crediti Residui")
  }

  function RoleOf(c: Cell): Option<Role> {
    match c
    case Str(s) =>
      if s == "P" then Some(P) else if s == "D" then Some(D)
      else if s == "C" then Some(C) else if s == "A" then Some(A) else None
    case _ => None
  }

  /** pd.to_numeric(.., errors='coerce') on one cell, for integer values. */
  function ToNumeric(c: Cell): Option<int> {
    match c
    case Empty => None
    case Num(n) => Some(n)
    case Str(s) => if '_' in s then None else ParseInt(s)
  }

  /**
   * One candidate row after the header: kept when its role is exactly one of
   * P, D, C, A, its name is present and its cost converts to a number. The
   * star flag is read from the raw name, the stored name has the stars removed.
   */
  function ParsePlayer(r: Row): Option<Player> {
    match RoleOf(At(r, 0))
    case None => None
    case Some(role) =>
      if At(r, 1) == Empty then None
      else match ToNumeric(At(r, 3))
        case None => None
        case Some(cost) =>
          var raw := CellText(At(r, 1));
          Some(Player(role, RemoveChar(raw, '*'), At(r, 2), cost, '*' in raw))
  }

  /**
   * A row is a player exactly when its role is P, D, C or A, its name cell is
   * present and its cost is numeric; the stored name has every '*' removed,
   * and the asterisk flag records whether the raw name had one.
   */
  lemma ParsePlayerSpec(r: Row)
    ensures ParsePlayer(r).Some? <==> RoleOf(At(r, 0)).Some? && At(r, 1) != Empty && ToNumeric(At(r, 3)).Some?
    ensures ParsePlayer(r).Some? ==> '*' !in ParsePlayer(r).value.name
    ensures ParsePlayer(r).Some? ==> (ParsePlayer(r).value.hasAsterisk <==> '*' in CellText(At(r, 1)))
    ensures ParsePlayer(r).Some? && !ParsePlayer(r).value.hasAsterisk ==> ParsePlayer(r).value.name == CellText(At(r, 1))
    ensures ParsePlayer(r).Some? ==> ParsePlayer(r).value.role == RoleOf(At(r, 0)).value && ParsePlayer(r).value.cost == ToNumeric(At(r, 3)).value
    ensures ParsePlayer(r).Some? ==> ParsePlayer(r).value.club == At(r, 2)
  {
    if ParsePlayer(r).Some? {
      RemoveCharSpec(CellText(At(r, 1)), '*');
    }
  }

  /** The player table of the rows after the header, in row order. */
  function Players(rows: Grid): seq<Player> {
    Keep(rows, ParsePlayer)
  }

  /** int(val.split(':')[1].strip()), with every failure giving 0. */
  function CreditsValue(text: string): int {
    match SplitSecond(text, ':')
    case None => 0
    case Some(f) => match ParseInt(Strip(f)) case None => 0 case Some(n) => n
  }

  /** crediti_base: read from the first credits row of the whole block, else 0. */
  function BaseCredits(block: Grid): int {
    match FirstWhere(block, IsCreditsRow)
    case None => 0
    case Some(k) => CreditsValue(CellText(At(block[k], 0)))
  }

  predicate HasHeader(block: Grid) {
    FirstWhere(block, IsHeaderRow).Some?
  }

  /** The team of a block with a header: the players after the first header row, the block's credits. */
  function HeaderTeam(block: Grid): Team
    requires HasHeader(block)
  {
    var h := FirstWhere(block, IsHeaderRow).value;
    Team(Players(block[h + 1..]), BaseCredits(block))
  }

  /** What one block adds: nothing without a header row, else its team. */
  function ParseBlock(block: Grid, width: nat): Result<Option<Team>, LoadError> {
    if !HasHeader(block) then Ok(None)
    else if width != 4 then Err(ColumnCountMismatch(width))
    else Ok(Some(HeaderTeam(block)))
  }

  /** The team names of the markers, in order. */
  function Names(ms: seq<Marker>): (ns: seq<string>)
    ensures |ns| == |ms|
  {
    if ms == [] then [] else [ms[0].name] + Names(ms[1..])
  }

  /** What each block adds, block by block, on a frame of the sheet's width. */
  function Outcomes(g: Grid, ms: seq<Marker>, k: nat): (os: seq<Result<Option<Team>, LoadError>>)
    requires ValidMarkers(ms, |g|) && k <= |ms|
    ensures |os| == k
  {
    if k == 0 then [] else Outcomes(g, ms, k - 1) + [ParseBlock(Block(g, ms, k - 1), Width(g))]
  }

  /** all_teams_data after the first k blocks have been processed. */
  function Fold(g: Grid, ms: seq<Marker>, k: nat): Result<Dict<Team>, LoadError>
    requires ValidMarkers(ms, |g|) && k <= |ms|
  {
    Collect(Names(ms), Outcomes(g, ms, |ms|), k)
  }

  /** The team part of load_data: the mapping team name -> team, or the load error. */
  function Extract(g: Grid): Result<Dict<Team>, LoadError> {
    match TeamPositions(g)
    case Err(e) => Err(e)
    case Ok(ms) => Fold(g, ms, |ms|)
  }
}
