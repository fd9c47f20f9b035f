# Fantacalcio dashboard: roster loading, residual credits, release decisions and league summary

This project models the core of the Streamlit dashboard `app.py` for a fantasy
football league ("Wins for Life") in Dafny and proves properties of the model.
The dashboard does the following:

- It reads the "Rose" sheet of the league workbook as a grid of untyped cells.
- It finds the team-marker rows and cuts the sheet into one block per team.
- From each block it extracts the players (role, name, club, cost, and whether
  the raw name carried a `*`) and the team's base credits ("Crediti Residui").
- It computes each team's residual credits: the base credits plus half the
  cost, rounded up, of every `*` player.
- It keeps an editable decision table per team: Svincolare (release), Importo
  Pagato (amount paid).
- It shows per-team figures, a league summary with a totals row, and the
  free-agent pool filtered by role and sorted by market value (FVM), plus the
  top ten.

The modules follow the program:

- `Wrappers` (wrappers.dfy): `Option` and `Result`.
- `PyText` (pytext.dfy): the Python string operations the parser uses:
  `str.strip`, `startswith`, `replace('*', '')`, `split(':')[1]`, `int()`
  and `str()` of an integer.
- `Sheet` (sheet.dfy): cells (missing, text, integer), rows, the grid, the
  frame width, and `str()` of a cell.
- `Scan` (scan.dfy): the first element satisfying a test, and
  filter-and-convert.
- `OrderedDict` (ordereddict.dfy): a Python `dict` with insertion order. It
  provides assignment (`d[k] = v`), `get` and `keys()`, and the fill of a dict
  from a sequence of block outcomes.
- `Roster` (roster.dfy): the functions that specify `load_data`'s team part.
  These are the marker test, the marker positions, the blocks, the header and
  credits rows, the player filter and the result dictionary.
- `RosterProperties` (roster_properties.dfy): what the segmentation
  guarantees.
- `Loader` (loader.dfy): `load_data`'s loops as written (the row scan, the
  header and credits searches with `break`, the block loop). Each loop is
  proved to compute its `Roster` function.
- `Credits` (credits.dfy): `calculate_crediti_residui` and the team tab's
  `bonus_totale` loop, both as loops proved against `Bonus`.
- `Aggregate` (aggregate.dfy): the figures computed from the decision tables,
  taken as values. These are the release counts per role, the two sums of
  the amounts paid, the summary rows and the totals row.
- `Decisions` (decisions.dfy): `st.session_state.all_teams_state`.
  - `TeamTable` is a class holding the two edited columns as arrays. Its
    setters change one cell in place.
  - `Session` holds one table per team in team order.
  - Its `Summary` method reads the tables once and builds `summary_df_with_totals` by the loop in `Aggregate.BuildSummary`.
- `FreeAgents` (freeagents.dfy): the role filter, the descending sort by
  FVM, and `nlargest(10, 'FVM')`.

Inputs and outside effects are handled as follows:

- The workbook reader (`pd.read_excel`) is replaced by its result, a grid of
  `Sheet.Cell`.
- The Svincolati sheet is replaced by a sequence of `FreeAgents.Agent`.
- The widget values are parameters of the setters.

The model follows the code in these behaviours:

- A team's block is `df_raw.iloc[start_idx:end_idx]`, so it includes its own
  marker row. A marker row whose second cell is "Calciatore" is therefore its
  own block's header row (`RosterProperties.MarkerRowCanBeHeader`).
- The marker test also rejects the text "nan" (a missing cell) and any text
  starting with "Crediti".
- The free-agent table is sorted by pandas' default sort, which does not
  promise to keep the order of rows with equal FVM. For that table the model
  claims only "sorted and a permutation". It proves instead that every
  descending arrangement shows the same FVM column
  (`FreeAgents.ViewFvmDetermined`).
- The top list is `nlargest(10, 'FVM')` with its default `keep='first'`.
  Among tied rows it keeps the ones earliest in the sheet and shows them in
  sheet order. The model's sort is an insertion sort that keeps rows of equal
  FVM in input order (`FreeAgents.SortDescStable`), and the top list is its
  first ten rows (`FreeAgents.TopKeepsFirst`).
- The code never rejects a decision. The amount input has `min_value=1`, and
  row indices come from the table itself. These are preconditions of the setters.
- Costs are whatever `to_numeric` yields. They are not required to be
  non-negative.

## Model

| member | source | states |
|---|---|---|
| PyText.LStripSpec | app.py:51 | `lstrip()` yields the longest suffix not starting with whitespace; every character removed is whitespace |
| PyText.RStripSpec | app.py:51 | `rstrip()` yields the longest prefix not ending with whitespace; every character removed is whitespace |
| PyText.StripSpec | app.py:51 | `strip()` is no longer than its input, has no whitespace at either end, and leaves a text without whitespace unchanged |
| PyText.StripKeepsPrefix | app.py:51-52 | a text starting with a whitespace-free prefix still starts with it after `strip()` |
| PyText.LStripSpaces | app.py:96 | `lstrip()` removes a leading whitespace run and stops at the first other character |
| PyText.RStripSpaces | app.py:96 | `rstrip()` removes a trailing whitespace run and stops at the last other character |
| PyText.StripPadded | app.py:96 | `strip()` of a text padded with whitespace on both sides gives back the text |
| PyText.RemoveCharSpec | app.py:105 | `replace('*', '')` leaves no `*`, keeps every other character, shortens the text by the number of `*`, and changes nothing when there is none |
| PyText.Find | app.py:96 | the first index of a character, or none exactly when it does not occur |
| PyText.CutAtSpec | app.py:96 | the text up to the next `:` is the longest `:`-free prefix: it stops at a `:` or at the end |
| PyText.SuffixPrefix | app.py:96 | a prefix of `s[m:]` lines up with `s` from index m on |
| PyText.SplitSecondSpec | app.py:96 | `split(':')[1]` is missing exactly when the text has no `:` (the IndexError); otherwise it is the `:`-free stretch right after the first `:`, ending at the next `:` or at the end |
| PyText.FindAfter | app.py:96 | the first `:` of `p + ':' + rest` is the one after p when p has none |
| PyText.SplitSecondAfter | app.py:96 | `(p + ':' + rest).split(':')[1]` is rest when neither p nor rest holds a `:` |
| PyText.NatToString | app.py:93 | `str()` of a natural number is a non-empty run of decimal digits |
| PyText.NatToStringValue | app.py:93 | the digits `str(n)` prints have the value n |
| PyText.DigitsAreRun | app.py:96 | a run of digits is accepted by `int()` and has no underscore to remove |
| PyText.ParseIntOfDigits | app.py:96 | `int()` of a run of digits is its decimal value |
| PyText.ParseIntToString | app.py:93-96 | `int(str(n)) == n` for every integer n |
| PyText.IntToStringShape | app.py:96 | `str(n)` is non-empty, starts with a digit or `-`, ends with a digit, and holds nothing else |
| PyText.ParseIntRejects | app.py:95-98 | `int()` refuses any text holding a character other than a digit, a sign or `_`, so that credits text falls to the `except` branch |
| PyText.ParseIntRejectsEmpty | app.py:95-98 | `int()` refuses "", "-" and a doubled underscore, so those credits texts fall to the `except` branch |
| Sheet.WidthSpec | app.py:46 | the frame is as wide as its widest row: no row is wider, and some row has that width |
| Scan.FirstWhere | app.py:71-74 | the first index whose element passes the test, with none before it; none exactly when no element passes |
| Scan.FirstWhereAt | app.py:71-74 | an index with none passing before it and passing itself is the first one |
| Scan.FirstWhereFound | app.py:92-99 | a search finds something as soon as one element passes |
| Scan.Keep | app.py:82-88 | the filtered rows are no more than the rows |
| Scan.KeepAppend | app.py:82-88 | filtering a concatenation filters each part: order is kept |
| Scan.KeepFrom | app.py:82-88 | every kept value comes from some row |
| Scan.KeepFromSuffix | app.py:78-88 | every value kept from the rows after index h comes from a row at h or later |
| Scan.KeepAll | app.py:82-88 | every row that passes contributes its value |
| OrderedDict.Keys | app.py:138 | `keys()` has one key per entry, entry by entry, in insertion order |
| OrderedDict.KeysAppend | app.py:150 | the keys of two dicts laid end to end are the keys of the first, then those of the second |
| OrderedDict.Get | app.py:142 | lookup finds nothing exactly when the key is absent |
| OrderedDict.PutKeys | app.py:107-110 | assigning a new key appends it to the keys; assigning an existing key keeps the keys and their order |
| OrderedDict.PutGet | app.py:107-110 | after assignment the key maps to the new value |
| OrderedDict.PutOther | app.py:107-110 | assignment leaves every other key's value unchanged |
| OrderedDict.PutDistinct | app.py:107-110 | assignment keeps the keys distinct |
| OrderedDict.CollectKeys | app.py:57-110 | the filled dict's keys are exactly the names of the blocks that store a team |
| OrderedDict.FirstOccurrencesSpec | app.py:107-110 | removing repeats keeps every element once, and orders them by first occurrence: an element placed first occurs before the other occurs at all |
| OrderedDict.CollectOrder | app.py:57-110 | the filled dict's keys, in iteration order, are the storing outcomes' names with repeats removed, each at its first occurrence |
| OrderedDict.CollectError | app.py:57-110 | the fill fails exactly when some block fails, with the error of that block |
| OrderedDict.CollectDistinct | app.py:57-110 | the filled dict has no key twice |
| OrderedDict.CollectLastWins | app.py:57-110 | a name maps to the team of the last block under that name that stores one |
| OrderedDict.CollectErrorStands | app.py:57-110 | once a block has failed, further blocks do not change the result |
| Roster.PositionsValid | app.py:49-54 | the rows collected from the first n rows lie among them, in strictly increasing row order |
| Roster.TeamPositions | app.py:49-54 | a scan that does not fail yields rows inside the sheet, in strictly increasing row order |
| Roster.MarkersUpTo | app.py:49-54 | the team positions after n rows lie among the first n rows, in strictly increasing order |
| Roster.ParsePlayerSpec | app.py:82-105 | a row is a player exactly when its role is P/D/C/A, its name is present and its cost is numeric; `Ha_Asterisco` holds exactly when the raw name has a `*`, the stored name has none, and role, cost and club are the row's |
| Roster.Names | app.py:59 | one team name per marker |
| Roster.Outcomes | app.py:59-110 | one outcome per block considered |
| RosterProperties.PositionsSound | app.py:49-54 | every collected row passes the marker test and carries its stripped text as the name |
| RosterProperties.PositionsComplete | app.py:49-54 | every row passing the marker test is collected |
| RosterProperties.MarkersExact | app.py:49-54 | the team positions are exactly the marker rows, each named by its stripped column-0 text, in row order |
| RosterProperties.TeamPositionsNoColumn | app.py:50-51 | the scan fails on `row[0]` exactly when the sheet has rows but no column |
| RosterProperties.TeamPositionsNoSecondColumn | app.py:50-53 | the scan fails on `row[1]` exactly when the sheet has one column and some row passes the column-0 test |
| RosterProperties.TeamPositionsOk | app.py:49-54 | a scan that does not fail yields the marker rows |
| RosterProperties.BlocksCover | app.py:59-67 | the blocks from marker i on, laid end to end, are the sheet from that marker's row to its end |
| RosterProperties.BlocksDisjoint | app.py:59-67 | for i < j, block i ends at or before the row where block j starts; each block is non-empty and inside the sheet |
| RosterProperties.BlockHoldsOnePosition | app.py:59-67 | no row of a block after its first is a collected row |
| RosterProperties.BlockHoldsOneMarker | app.py:49-67 | a block starts with its own marker row and holds no other marker row |
| RosterProperties.PlayersAppend | app.py:82-88 | the player table keeps row order |
| RosterProperties.PlayersFromRows | app.py:82-88 | every player is what some row parses to |
| RosterProperties.PlayersKeepRows | app.py:82-88 | every row that parses becomes a player: only rows failing the filters are dropped |
| RosterProperties.HeaderTeamPlayers | app.py:70-88 | every player of a team comes from a row strictly after the first header row of its block |
| RosterProperties.PlayerNamesHaveNoStar | app.py:105 | no stored player name contains `*` |
| RosterProperties.MarkerRowIsNotCreditsRow | app.py:52 | a "Crediti Residui" row is never a team marker |
| RosterProperties.MarkerRowCanBeHeader | app.py:67-74 | a marker row whose column 1 is "Calciatore" is the header of its own block |
| RosterProperties.FoldStep | app.py:59-110 | one step of the block loop either fails the load, adds nothing for a block without a header, or assigns the block's team to its name |
| RosterProperties.FoldErrorStands | app.py:59-110 | a failing block ends the load with its error |
| RosterProperties.NamesAt | app.py:59 | name i is the name of marker i |
| RosterProperties.OutcomeAt | app.py:59-110 | outcome i is what block i yields |
| RosterProperties.OutcomeSpec | app.py:76-110 | a block fails exactly when it has a header and the frame is not four columns wide (the column renaming), and stores a team exactly when it has a header on a four-column frame |
| RosterProperties.FoldOkStores | app.py:76-110 | on a load that has not failed, the blocks that store a team are exactly those with a header row |
| RosterProperties.FoldKeys | app.py:57-110 | the result's team names are exactly the names of blocks that have a header row: a block without a header adds no team |
| RosterProperties.StoredAreHeaders | app.py:76-110 | when the storing blocks are those with a header row, their names are the header blocks' names, in block order |
| RosterProperties.FoldOrder | app.py:57-110 | the result's keys, the order `list(all_teams_data.keys())` gives the selector and the summary, are the names of the blocks with a header row, each kept at its first such block |
| RosterProperties.FoldError | app.py:57-110 | the load fails exactly when some block has a header and the frame is not four wide, with that width as the error |
| RosterProperties.FoldDistinct | app.py:57-110 | no team name occurs twice in the result |
| RosterProperties.FoldLastWins | app.py:107-110 | a name repeated by several markers keeps the team of the last of those blocks with a header |
| RosterProperties.ExtractTeams | app.py:43-110 | a successful load has distinct names, exactly the names of blocks with a header, and a four-column frame wherever a header occurs; its keys are in the order of each name's first block with a header |
| RosterProperties.SplitExample | app.py:96 | `"Crediti Residui: 120".split(':')[1]` is `" 120"` |
| RosterProperties.StripExample | app.py:96 | `" 120".strip()` is `"120"` |
| RosterProperties.ParseExample | app.py:96 | `int("120")` is 120 |
| RosterProperties.CreditsExample | app.py:92-99 | "Crediti Residui: 120" gives base credits 120 |
| RosterProperties.CreditsWithoutColon | app.py:95-98 | a credits text without `:` gives base credits 0 |
| RosterProperties.CreditsOfNumber | app.py:92-99 | for every integer n, a text with a colon-free prefix, then `:` and n padded with whitespace, gives base credits n |
| RosterProperties.CreditsNoColon | app.py:95-98 | any credits text without `:` gives base credits 0 (the IndexError) |
| RosterProperties.CreditsNotNumber | app.py:95-98 | a credits text whose stripped second field holds a character other than a digit, a sign or `_` gives base credits 0 (the ValueError) |
| Loader.ScanMarkers | app.py:49-54 | the row loop returns the KeyError on a frame without column 0 or column 1 where the source raises it, else exactly the rows passing both tests, in order |
| Loader.FindTeamPositions | app.py:49-54 | the scan over the sheet computes `TeamPositions` |
| Loader.FindHeader | app.py:70-74 | the search with `break` finds the first header row of the block, or none |
| Loader.FindCredits | app.py:91-99 | the search with `break` and the `try`/`except` yields the first credits row's value, or 0 |
| Loader.ProcessBlock | app.py:66-110 | the loop body computes the block's outcome: nothing, the renaming error, or its team |
| Loader.LoadTeams | app.py:43-110 | the whole team part of `load_data` computes `Extract` (its names, errors and teams are those of `ExtractTeams` and `FoldError`) |
| Credits.HalfUp | app.py:122 | `ceil(cost / 2)`: the least integer whose double reaches the cost |
| Credits.Marked | app.py:252 | the `*` rows are no more than the rows |
| Credits.CalculateResidualCredits | app.py:117-123 | the loop returns base credits plus the bonus of the `*` players |
| Credits.BonusTotal | app.py:250-254 | the loop over the `*` rows returns the same bonus |
| Credits.MarkedHalves | app.py:250-254 | summing over the `*` rows only equals the bonus over the whole table |
| Credits.MarkedMembers | app.py:252 | the `*` rows are exactly the players with `Ha_Asterisco` |
| Credits.BonusAppend | app.py:119-122 | the bonus is additive over a split of the table |
| Credits.BonusIgnoresUnmarked | app.py:121 | players without `*` contribute nothing |
| Credits.BonusBounds | app.py:119-122 | with non-negative costs the bonus is between 0 and the sum of the `*` players' costs |
| Credits.ResidualExample | app.py:117-123 | base 120 and one `*` player of cost 50 give 145 |
| Aggregate.RolesPartition | app.py:275-279 | the released counts per role (0 for a missing role) add up to the released count |
| Aggregate.PaidSplit | app.py:272 | the sidebar's cost over all players is the summary's cost over the released players plus the cost of the kept players |
| Aggregate.PaidBounds | app.py:165 | with every amount at least 1: the total is at least the number of players, the released total at least the released count, and never above the total |
| Aggregate.InitialReleased | app.py:152 | with the initial decisions the released players are the `*` players |
| Aggregate.TeamRow | app.py:269-290 | the row carries the team's name and residual credits, and its P + D + C + A equals Da Svincolare |
| Aggregate.TeamRows | app.py:263-290 | one row per team |
| Aggregate.ColumnAppend | app.py:297-303 | a column sum is additive over a split of the rows |
| Aggregate.TeamRowsSnoc | app.py:281-290 | one more team appends its row at the end |
| Aggregate.TeamRowsAt | app.py:263-290 | row i is the row of team i |
| Aggregate.SummaryShape | app.py:292-306 | the summary has one row per team in team order, then the totals row, last, labelled `**TOTALI**` |
| Aggregate.TotalsAdditive | app.py:295-304 | every totals column is additive over a split of the team rows |
| Aggregate.TotalsSingle | app.py:295-304 | the totals of one row repeat that row's numbers |
| Aggregate.ColumnSingle | app.py:297-303 | the sum of a column over one row is that row's value |
| Aggregate.TotalsRolesAddUp | app.py:298-302 | rows whose role counts add up to their released count have totals that do too |
| Aggregate.SummaryTotalsConsistent | app.py:295-304 | in the summary, the totals row's P + D + C + A equals its Da Svincolare |
| Aggregate.CreditsIgnoreDecisions | app.py:269 | a team's credits do not depend on the release flags or the amounts paid |
| Aggregate.MetricsConsistent | app.py:241-254 | the displayed bonus (residual minus base) equals `bonus_totale`, the sidebar's role counts add up to Da Svincolare, and with amounts at least 1 the total cost is at least the number of players |
| Aggregate.InitialFigures | app.py:150-154 | before any edit: release equals `Ha_Asterisco`, every amount is 1, the released count is the number of `*` players, and the total cost is the number of players |
| Aggregate.TeamSummaryRow | app.py:265-290 | the loop body: the row built from `CalculateResidualCredits` and the column reads is `TeamRow` of the team |
| Aggregate.TeamRowsPrefix | app.py:281-290 | the rows of the first i + 1 teams are those of the first i, then team i's row |
| Aggregate.BuildSummary | app.py:263-306 | the loop over the teams, then the totals row, yields `SummaryWithTotals` |
| Aggregate.AllOnes | app.py:153 | a column of ones sums to its length |
| Decisions.TeamTable.constructor | app.py:151-153 | a fresh table whose release column is `Ha_Asterisco` and whose amounts are all 1 |
| Decisions.TeamTable.SetRelease | app.py:215-221 | only the indexed release cell changes, to the checkbox value; amounts stay at least 1 |
| Decisions.TeamTable.SetPaid | app.py:223-232 | only the indexed amount changes, to the input value; amounts stay at least 1 |
| Decisions.TeamTable.Panel | app.py:241-254 | the sidebar and team-tab figures read from the table are `MetricsOf` its state |
| Decisions.TablesSnoc | app.py:150-154 | appending a valid table with arrays of its own keeps the tables valid and unaliased |
| Decisions.InitialSnoc | app.py:150-154 | appending the next team's initial table keeps every table initial |
| Decisions.AddTable | app.py:150-154 | one fresh table in the initial state of the next team, with arrays of its own, appended to valid initial tables |
| Decisions.NewTables | app.py:147-154 | one fresh table per loaded team in team order, with distinct arrays, each in its initial state |
| Decisions.Session.StatesUpTo | app.py:264-265 | a snapshot of the first k tables has k well-formed tables |
| Decisions.Session.constructor | app.py:147-154 | one fresh initial table per loaded team, named in `keys()` order |
| Decisions.Session.SetRelease | app.py:221 | only the indexed release cell of the selected team changes; every other team and every amount is unchanged |
| Decisions.Session.SetPaid | app.py:232 | only the indexed amount of the selected team changes; every other team and every release flag is unchanged |
| Decisions.Session.Summary | app.py:263-306 | the summary of the current tables, read once as values, is `SummaryWithTotals` of them (see `SummaryShape`, `SummaryTotalsConsistent`) |
| FreeAgents.RoleRowsCount | app.py:361 | the role filter keeps each row of that role as often as it occurs, and no other row |
| FreeAgents.RoleRowsAppend | app.py:361 | the role filter keeps sheet order |
| FreeAgents.FilterSpec | app.py:359-361 | "Tutti" keeps the sheet unchanged; otherwise exactly the rows of the chosen role are kept, each as often as in the sheet |
| FreeAgents.FilterAppend | app.py:359-361 | the filter keeps sheet order |
| FreeAgents.RoleRowsPartition | app.py:359-361 | when every row has role P, D, C or A, the four role filters together keep every row, each row under exactly one of them |
| FreeAgents.RoleChoicesPartition | app.py:353-361 | when every row has one of the four roles, the four role entries of the selector show as many rows together as "Tutti" |
| FreeAgents.ConsSorted | app.py:364 | a row followed by descending rows no higher is descending |
| FreeAgents.InsertPerm | app.py:364 | insertion adds exactly the inserted row |
| FreeAgents.InsertBelow | app.py:364 | insertion does not raise the highest FVM above a bound both parts respect |
| FreeAgents.InsertSorted | app.py:364 | insertion keeps a descending sequence descending |
| FreeAgents.SortDescPerm | app.py:364 | the sort is a permutation of its input |
| FreeAgents.SortDescSorted | app.py:364 | the sort orders by FVM from highest to lowest |
| FreeAgents.SortDescSpec | app.py:364 | the sort is ordered, a permutation, and of the same length |
| FreeAgents.WithFvmMembers | app.py:387 | the rows of one FVM value are exactly the rows with that value |
| FreeAgents.WithFvmAppend | app.py:387 | selecting one FVM value keeps the order of a concatenation |
| FreeAgents.InsertWithFvm | app.py:387 | insertion puts a row before the rows of its own FVM |
| FreeAgents.SortDescStable | app.py:387 | the sort keeps rows of equal FVM in input order |
| FreeAgents.DropCount | app.py:364 | removing one row removes it once from the multiset |
| FreeAgents.DropSorted | app.py:364 | removing one row keeps a descending sequence descending |
| FreeAgents.SameLength | app.py:364 | two arrangements of the same rows have the same length |
| FreeAgents.DropBoth | app.py:364 | removing an equal row from two descending arrangements of the same rows leaves two descending arrangements of the same rows |
| FreeAgents.HeadFvm | app.py:364 | two descending arrangements of the same rows start with the same FVM |
| FreeAgents.ShiftFvm | app.py:364 | the inductive step of `SortedFvmUnique` |
| FreeAgents.SortedFvmUnique | app.py:364 | any two descending arrangements of the same rows have the same FVM column |
| FreeAgents.ViewSpec | app.py:359-367 | the displayed table is descending by FVM and holds exactly the selected rows, each as often as in the sheet; its length is the displayed count |
| FreeAgents.ViewFvmDetermined | app.py:364 | however ties are ordered, a descending arrangement of the selected rows shows the FVM column of `View` |
| FreeAgents.TopSpec | app.py:387 | the top list has min(10, n) rows, is descending, together with the rows left out is the whole sheet, and no row left out has a higher FVM than a row of the list; for every FVM value the rows kept are the first of that value in sheet order, in sheet order (`keep='first'`) |
| FreeAgents.TopKeepsFirst | app.py:387 | for every FVM value, the sheet's rows of that value are the kept ones, in sheet order, followed by those left out: `keep='first'` |
| FreeAgents.TopOfSmallSheet | app.py:387 | with at most ten rows the top list is the whole sheet, reordered |

## Left out

- The Streamlit interface: page setup, CSS, headers, metrics widgets, tabs and data frame display. Only the values they show are modelled.
- `pd.read_excel` and `@st.cache_data`, since file reading and caching are I/O. The model starts from the grid of cells and from the free-agent rows.
- The error display (`st.error`, `st.exception`) for a missing file or a failed load. The model keeps the failures of the team load as `LoadError` values.
- Floating-point values. Costs and FVM are taken as integers, so `ceil` of a half-integer is `Credits.HalfUp`.
- `Roster.ToNumeric`: models `pd.to_numeric` for integer text only (sign and ASCII digits). It does not model decimals, exponents, surrounding whitespace or non-ASCII digits, and treats a numeric cell as its integer.
- `Sheet.CellText`: `str()` of a numeric cell is its integer text. The float text pandas would print (`"12.0"`) is not modelled.
- Rows of different lengths are padded with missing cells, as the reader does. The model has no other cell types (dates, booleans).
- The expander that lists released players per team (app.py:330-343). It only displays rows already covered by the summary's release flags and role counts.
- The MV, FM and PGv columns of the free-agent views, which only display values. `FreeAgents.Agent` keeps the columns of the top list: name (Nome), club (Sq.), role (Ruolo) and FVM. Role and FVM are the ones that select and order rows.
- `FreeAgents.SortDescSpec`: states sortedness and permutation only. `FreeAgents.SortDescStable` proves that the model's sort keeps ties in input order. That fact is used only for the top list. For the table sorted by `sort_values` it is not claimed, because pandas' default sort does not promise it.
- `PyText.ParseInt`: models `int()` on ASCII digits only. Python's `int()` also accepts any other Unicode decimal digit, so "Crediti Residui: ١٢٠" gives 120 in the code and 0 in the model. Since Python 3.11 `int()` also refuses a text of more than 4300 digits, which the code then reads as 0 and the model reads as its value.
- `Aggregate.BuildSummary`: with no teams it returns a lone all-zero `**TOTALI**` row. The code never reaches the summary with no teams. The team selector then returns None, and `all_teams_data[None]` raises KeyError (app.py:142). The empty summary frame would also raise KeyError at app.py:297. The model does not model that failure.
- `Aggregate.SummaryWithTotals`: the same zero-team case as `Aggregate.BuildSummary`. It yields one all-zero totals row where the code fails.
- `Decisions.Session.Summary`: with no loaded teams it yields the all-zero totals row of `Aggregate.SummaryWithTotals`. In the code a session with no teams fails earlier, with the KeyError at app.py:142.
- `Decisions.TeamTable.SetPaid`: requires an amount of at least 1. The code writes whatever the number input returns, and the input's `min_value=1` guarantees that bound.
- `Decisions.TeamTable.SetRelease` and `Decisions.TeamTable.SetPaid`: require the row index to exist. The code's indices come from iterating the table itself.
- `Decisions.Session.SetRelease` and `Decisions.Session.SetPaid`:
  - They select the team by its position in the team list, not by name. This is the same thing, because the loaded names are distinct (`RosterProperties.FoldDistinct`).
  - The `Session.constructor` tables are indexed in `keys()` order.
- The `if 'all_teams_state' not in st.session_state` guard and Streamlit's rerun model. The session's first initialisation is its constructor, and re-runs keep the same object.
- The figures the sidebar computes at the start of a rerun, from the table before this rerun's edits. `Decisions.TeamTable.Panel` reads the table's state at the point it is called.
