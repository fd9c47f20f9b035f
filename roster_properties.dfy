/** What the roster segmentation guarantees, proved about the functions of module Roster. */
module RosterProperties {
  import opened Wrappers
  import opened PyText
  import opened Sheet
  import opened OrderedDict
  import opened Roster
  import opened Scan

  /** Every row Positions collects satisfies marks and carries its name. */
  lemma {:induction false} PositionsSound(g: Grid, n: nat, marks: Row -> bool, name: Row -> string, i: nat)
    requires n <= |g| && i < |Positions(g, n, marks, name)|
    ensures var m := Positions(g, n, marks, name)[i]; m.row < n && marks(g[m.row]) && m.name == name(g[m.row])
  {
    var prev := Positions(g, n - 1, marks, name);
    if i < |prev| {
      PositionsSound(g, n - 1, marks, name, i);
      assert Positions(g, n, marks, name)[i] == prev[i];
    }
  }

  /** Every row among the first n that satisfies marks is collected. */
  lemma {:induction false} PositionsComplete(g: Grid, n: nat, marks: Row -> bool, name: Row -> string, k: nat)
    requires k < n <= |g| && marks(g[k])
    ensures exists i :: 0 <= i < |Positions(g, n, marks, name)| && Positions(g, n, marks, name)[i].row == k
  {
    var prev := Positions(g, n - 1, marks, name);
    var ms := Positions(g, n, marks, name);
    if k == n - 1 {
      assert ms[|ms| - 1].row == k;
    } else {
      PositionsComplete(g, n - 1, marks, name, k);
      var i :| 0 <= i < |prev| && prev[i].row == k;
      assert ms[i] == prev[i];
    }
  }

  /**
   * The team starts are exactly the rows passing the marker test, each with
   * its stripped column-0 text as the team name, in row order.
   */
  lemma MarkersExact(g: Grid)
    ensures var ms := MarkersUpTo(g, |g|);
      (forall i :: 0 <= i < |ms| ==> IsMarkerRow(g[ms[i].row]) && ms[i].name == MarkerText(g[ms[i].row])) &&
      (forall k :: 0 <= k < |g| && IsMarkerRow(g[k]) ==> exists i :: 0 <= i < |ms| && ms[i].row == k)
  {
    var ms := MarkersUpTo(g, |g|);
    forall i | 0 <= i < |ms|
      ensures IsMarkerRow(g[ms[i].row]) && ms[i].name == MarkerText(g[ms[i].row])
    {
      PositionsSound(g, |g|, IsMarkerRow, MarkerText, i);
    }
    forall k | 0 <= k < |g| && IsMarkerRow(g[k])
      ensures exists i :: 0 <= i < |ms| && ms[i].row == k
    {
      PositionsComplete(g, |g|, IsMarkerRow, MarkerText, k);
    }
  }

  /** The team-marker scan fails on row[0] exactly when the sheet has rows but no column. */
  lemma TeamPositionsNoColumn(g: Grid)
    ensures TeamPositions(g) == Err(MissingColumn(0)) <==> |g| > 0 && Width(g) == 0
  {
  }

  /**
   * The team-marker scan fails on row[1] exactly when the sheet has one
   * column and some row passes the column-0 test.
   */
  lemma TeamPositionsNoSecondColumn(g: Grid)
    ensures TeamPositions(g) == Err(MissingColumn(1)) <==>
      Width(g) == 1 && exists i :: 0 <= i < |g| && FirstCellQualifies(g[i])
  {
    if |g| > 0 && Width(g) <= 1 && FirstWhere(g, FirstCellQualifies).None? {
      assert forall i :: 0 <= i < |g| ==> !FirstCellQualifies(g[i]);
    }
  }

  /** Without an error the team markers are the marker rows. */
  lemma TeamPositionsOk(g: Grid)
    ensures TeamPositions(g).Ok? ==> TeamPositions(g).value == MarkersUpTo(g, |g|)
  {
  }

  /** The blocks from marker i on, laid end to end, are the sheet from row start_i to its end. */
  lemma {:induction false} BlocksCover(g: Grid, ms: seq<Marker>, i: nat)
    requires ValidMarkers(ms, |g|) && i < |ms|
    ensures Concat(BlocksFrom(g, ms, i)) == g[ms[i].row..]
    decreases |ms| - i
  {
    var bs := BlocksFrom(g, ms, i);
    assert bs[1..] == BlocksFrom(g, ms, i + 1);
    if i + 1 < |ms| {
      BlocksCover(g, ms, i + 1);
      assert g[ms[i].row..] == g[ms[i].row..ms[i + 1].row] + g[ms[i + 1].row..];
    } else {
      assert BlocksFrom(g, ms, i + 1) == [];
    }
  }

  /** Blocks i < j share no row: block i ends at or before the row where block j starts. */
  lemma BlocksDisjoint(g: Grid, ms: seq<Marker>, i: nat, j: nat)
    requires ValidMarkers(ms, |g|) && i < j < |ms|
    ensures ms[i].row < BlockEnd(ms, i, |g|) <= ms[j].row < BlockEnd(ms, j, |g|) <= |g|
  {
  }

  /** With exact positions, no row of block i after its first is a marked row. */
  lemma BlockHoldsOnePosition(g: Grid, marks: Row -> bool, name: Row -> string, i: nat, k: nat)
    requires i < |Positions(g, |g|, marks, name)| && ValidMarkers(Positions(g, |g|, marks, name), |g|)
    requires var ms := Positions(g, |g|, marks, name); 0 < k < |Block(g, ms, i)|
    ensures var ms := Positions(g, |g|, marks, name); !marks(Block(g, ms, i)[k])
  {
    var ms := Positions(g, |g|, marks, name);
    var row := ms[i].row + k;
    assert Block(g, ms, i)[k] == g[row];
    if marks(g[row]) {
      PositionsComplete(g, |g|, marks, name, row);
      assert false;
    }
  }

  /**
   * A block begins with its own marker row, and no later row of the block is
   * a marker row: the rows of one team never belong to another team's block.
   */
  lemma BlockHoldsOneMarker(g: Grid, i: nat)
    requires i < |MarkersUpTo(g, |g|)|
    ensures var ms := MarkersUpTo(g, |g|); var b := Block(g, ms, i);
      |b| > 0 && b[0] == g[ms[i].row] && forall k :: 0 < k < |b| ==> !IsMarkerRow(b[k])
  {
    var ms := MarkersUpTo(g, |g|);
    var b := Block(g, ms, i);
    forall k | 0 < k < |b|
      ensures !IsMarkerRow(b[k])
    {
      BlockHoldsOnePosition(g, IsMarkerRow, MarkerText, i, k);
    }
  }

  /** The player table keeps row order: it distributes over concatenation of rows. */
  lemma PlayersAppend(a: Grid, b: Grid)
    ensures Players(a + b) == Players(a) + Players(b)
  {
    KeepAppend(a, b, ParsePlayer);
  }

  /** Every player comes from a row that parses to exactly that player. */
  lemma PlayersFromRows(rows: Grid, p: Player)
    requires p in Players(rows)
    ensures exists j :: 0 <= j < |rows| && ParsePlayer(rows[j]) == Some(p)
  {
    KeepFrom(rows, ParsePlayer, p);
  }

  /** Every row that parses contributes its player: only rows failing the filters are dropped. */
  lemma PlayersKeepRows(rows: Grid, j: nat)
    requires j < |rows| && ParsePlayer(rows[j]).Some?
    ensures ParsePlayer(rows[j]).value in Players(rows)
  {
    KeepAll(rows, ParsePlayer, j);
  }

  /** A team's players come from rows strictly after the first header row of its block. */
  lemma HeaderTeamPlayers(block: Grid, p: Player)
    requires HasHeader(block) && p in HeaderTeam(block).players
    ensures exists j :: FirstWhere(block, IsHeaderRow).value < j < |block| && ParsePlayer(block[j]) == Some(p)
  {
    KeepFromSuffix(block, ParsePlayer, FirstWhere(block, IsHeaderRow).value + 1, p);
  }

  /** Every stored player name is free of '*'. */
  lemma PlayerNamesHaveNoStar(rows: Grid, p: Player)
    requires p in Players(rows)
    ensures '*' !in p.name
  {
    PlayersFromRows(rows, p);
    var j :| 0 <= j < |rows| && ParsePlayer(rows[j]) == Some(p);
    ParsePlayerSpec(rows[j]);
  }

  /**
   * A marker row is never a credits row: the raw column-0 text of a credits
   * row starts with "Crediti", and so does its stripped text.
   */
  lemma MarkerRowIsNotCreditsRow(r: Row)
    requires IsCreditsRow(r)
    ensures !IsMarkerRow(r)
  {
    var t := CellText(At(r, 0));
    assert t[..7] == "Crediti" by {
      assert t[..15] == "Crediti Residui";
      assert t[..7] == t[..15][..7];
    }
    assert forall i :: 0 <= i < 7 ==> !IsSpace("Crediti"[i]) by {
      assert "Crediti" == ['C', 'r', 'e', 'd', 'i', 't', 'i'];
    }
    StripKeepsPrefix(t, "Crediti");
  }

  /** A marker row whose column 1 reads "Calciatore" is its block's header row. */
  lemma MarkerRowCanBeHeader(g: Grid, ms: seq<Marker>, i: nat)
    requires ValidMarkers(ms, |g|) && i < |ms| && IsHeaderRow(g[ms[i].row])
    ensures FirstWhere(Block(g, ms, i), IsHeaderRow) == Some(0)
  {
    assert Block(g, ms, i)[0] == g[ms[i].row];
  }

  /** One step of the block loop: block i either fails the load, adds nothing, or stores its team. */
  lemma FoldStep(g: Grid, ms: seq<Marker>, i: nat, d: Dict<Team>)
    requires ValidMarkers(ms, |g|) && i < |ms| && Fold(g, ms, i) == Ok(d)
    ensures var o := ParseBlock(Block(g, ms, i), Width(g));
      Fold(g, ms, i + 1) ==
        if o.Err? then Err(o.error) else if o.value.None? then Ok(d) else Ok(Put(d, ms[i].name, o.value.value))
  {
    OutcomeAt(g, ms, |ms|, i);
    NamesAt(ms, i);
  }

  /** After a block has failed the load, the rest of the blocks are not processed. */
  lemma FoldErrorStands(g: Grid, ms: seq<Marker>, k: nat)
    requires ValidMarkers(ms, |g|) && k <= |ms| && Fold(g, ms, k).Err?
    ensures Extract(g) == Fold(g, ms, k) || TeamPositions(g) != Ok(ms)
  {
    CollectErrorStands(Names(ms), Outcomes(g, ms, |ms|), k, |ms|);
  }

  /** The marker names, in order. */
  lemma {:induction false} NamesAt(ms: seq<Marker>, i: nat)
    requires i < |ms|
    ensures Names(ms)[i] == ms[i].name
  {
    if i > 0 {
      NamesAt(ms[1..], i - 1);
    }
  }

  /** Entry i of the block outcomes is what ParseBlock makes of block i. */
  lemma {:induction false} OutcomeAt(g: Grid, ms: seq<Marker>, k: nat, i: nat)
    requires ValidMarkers(ms, |g|) && i < k <= |ms|
    ensures Outcomes(g, ms, k)[i] == ParseBlock(Block(g, ms, i), Width(g))
  {
    if i < k - 1 {
      OutcomeAt(g, ms, k - 1, i);
    }
  }

  /** What block i adds: an error when it has a header on a frame not four wide, its team when it has one on a four-wide frame. */
  lemma OutcomeSpec(g: Grid, ms: seq<Marker>, i: nat)
    requires ValidMarkers(ms, |g|) && i < |ms|
    ensures var os := Outcomes(g, ms, |ms|);
      (os[i].Err? <==> HasHeader(Block(g, ms, i)) && Width(g) != 4) &&
      (os[i].Err? ==> os[i].error == ColumnCountMismatch(Width(g))) &&
      (Stores(os, i) <==> HasHeader(Block(g, ms, i)) && Width(g) == 4) &&
      (Stores(os, i) ==> os[i].value.value == HeaderTeam(Block(g, ms, i)))
  {
    OutcomeAt(g, ms, |ms|, i);
  }

  /** On a load that has not failed, the blocks that store a team are exactly those with a header row. */
  lemma FoldOkStores(g: Grid, ms: seq<Marker>, k: nat)
    requires ValidMarkers(ms, |g|) && k <= |ms| && Fold(g, ms, k).Ok?
    ensures forall i :: 0 <= i < k ==> (Stores(Outcomes(g, ms, |ms|), i) <==> HasHeader(Block(g, ms, i)))
  {
    CollectError(Names(ms), Outcomes(g, ms, |ms|), k);
    forall i | 0 <= i < k
      ensures Stores(Outcomes(g, ms, |ms|), i) <==> HasHeader(Block(g, ms, i))
    {
      OutcomeSpec(g, ms, i);
    }
  }

  /** The team names in the result are exactly the names of blocks that have a header row. */
  lemma FoldKeys(g: Grid, ms: seq<Marker>, k: nat)
    requires ValidMarkers(ms, |g|) && k <= |ms| && Fold(g, ms, k).Ok?
    ensures forall name :: name in Keys(Fold(g, ms, k).value) <==>
      exists i :: 0 <= i < k && ms[i].name == name && HasHeader(Block(g, ms, i))
  {
    CollectKeys(Names(ms), Outcomes(g, ms, |ms|), k);
    FoldOkStores(g, ms, k);
    forall i | 0 <= i < k
      ensures Names(ms)[i] == ms[i].name
    {
      NamesAt(ms, i);
    }
  }

  /** The names of the first k blocks that have a header row, in block order, repeats included. */
  function HeaderNames(g: Grid, ms: seq<Marker>, k: nat): seq<string>
    requires ValidMarkers(ms, |g|) && k <= |ms|
  {
    if k == 0 then []
    else HeaderNames(g, ms, k - 1) + (if HasHeader(Block(g, ms, k - 1)) then [ms[k - 1].name] else [])
  }

  /** When the storing blocks are those with a header, their names are the header blocks' names. */
  lemma {:induction false} StoredAreHeaders(g: Grid, ms: seq<Marker>, k: nat)
    requires ValidMarkers(ms, |g|) && k <= |ms|
    requires forall i :: 0 <= i < k ==> (Stores(Outcomes(g, ms, |ms|), i) <==> HasHeader(Block(g, ms, i)))
    ensures StoredNames(Names(ms), Outcomes(g, ms, |ms|), k) == HeaderNames(g, ms, k)
  {
    if k > 0 {
      StoredAreHeaders(g, ms, k - 1);
      NamesAt(ms, k - 1);
    }
  }

  /**
   * The order of the result's keys, the order the team selector and the
   * summary follow: the names of the blocks with a header row, each at the
   * first block that stores it.
   */
  lemma FoldOrder(g: Grid, ms: seq<Marker>, k: nat)
    requires ValidMarkers(ms, |g|) && k <= |ms| && Fold(g, ms, k).Ok?
    ensures Keys(Fold(g, ms, k).value) == FirstOccurrences(HeaderNames(g, ms, k))
  {
    CollectOrder(Names(ms), Outcomes(g, ms, |ms|), k);
    FoldOkStores(g, ms, k);
    StoredAreHeaders(g, ms, k);
  }

  /** Loading fails exactly when some block has a header and the frame is not four columns wide. */
  lemma FoldError(g: Grid, ms: seq<Marker>, k: nat)
    requires ValidMarkers(ms, |g|) && k <= |ms|
    ensures Fold(g, ms, k).Err? <==> Width(g) != 4 && exists i :: 0 <= i < k && HasHeader(Block(g, ms, i))
    ensures Fold(g, ms, k).Err? ==> Fold(g, ms, k).error == ColumnCountMismatch(Width(g))
  {
    CollectError(Names(ms), Outcomes(g, ms, |ms|), k);
    forall i | 0 <= i < k
      ensures Outcomes(g, ms, |ms|)[i].Err? <==> HasHeader(Block(g, ms, i)) && Width(g) != 4
      ensures Outcomes(g, ms, |ms|)[i].Err? ==> Outcomes(g, ms, |ms|)[i].error == ColumnCountMismatch(Width(g))
    {
      OutcomeSpec(g, ms, i);
    }
  }

  /** No team name occurs twice in the result. */
  lemma FoldDistinct(g: Grid, ms: seq<Marker>, k: nat)
    requires ValidMarkers(ms, |g|) && k <= |ms| && Fold(g, ms, k).Ok?
    ensures DistinctKeys(Fold(g, ms, k).value)
  {
    CollectDistinct(Names(ms), Outcomes(g, ms, |ms|), k);
  }

  /**
   * A repeated team name: the stored team is that of the LAST block with this
   * name that has a header row.
   */
  lemma FoldLastWins(g: Grid, ms: seq<Marker>, k: nat, i: nat)
    requires ValidMarkers(ms, |g|) && i < k <= |ms| && Fold(g, ms, k).Ok?
    requires HasHeader(Block(g, ms, i))
    requires forall j :: i < j < k && ms[j].name == ms[i].name ==> !HasHeader(Block(g, ms, j))
    ensures Get(Fold(g, ms, k).value, ms[i].name) == Some(HeaderTeam(Block(g, ms, i)))
  {
    FoldOkStores(g, ms, k);
    OutcomeSpec(g, ms, i);
    NamesAt(ms, i);
    forall j | i < j < k
      ensures Names(ms)[j] == ms[j].name
    {
      NamesAt(ms, j);
    }
    CollectLastWins(Names(ms), Outcomes(g, ms, |ms|), k, i);
  }

  /** The whole team load on a sheet without any failure: the results above for every block, and the key order. */
  lemma ExtractTeams(g: Grid)
    requires Extract(g).Ok?
    ensures var ms := MarkersUpTo(g, |g|); var d := Extract(g).value;
      DistinctKeys(d) &&
      (forall name :: name in Keys(d) <==> exists i :: 0 <= i < |ms| && ms[i].name == name && HasHeader(Block(g, ms, i))) &&
      (forall i :: 0 <= i < |ms| && HasHeader(Block(g, ms, i)) ==> Width(g) == 4) &&
      Keys(d) == FirstOccurrences(HeaderNames(g, ms, |ms|))
  {
    var ms := MarkersUpTo(g, |g|);
    FoldOrder(g, ms, |ms|);
    FoldKeys(g, ms, |ms|);
    FoldDistinct(g, ms, |ms|);
    FoldError(g, ms, |ms|);
  }

  lemma SplitExample()
    ensures SplitSecond("Crediti Residui: 120", ':') == Some(" 120")
  {
    var t := "Crediti Residui: 120";
    assert t[15] == ':' && ':' !in t[..15];
    assert Find(t, ':') == Some(15);
    assert t[16..] == " 120";
    assert ':' !in " 120";
  }

  lemma StripExample()
    ensures Strip(" 120") == "120"
  {
    assert IsSpace(' ') && !IsSpace('1') && !IsSpace('0');
    assert " 120"[1..] == "120";
    assert LStrip("120") == "120";
    assert LStrip(" 120") == "120";
  }

  lemma ParseExample()
    ensures ParseInt("120") == Some(120)
  {
    var t := "120";
    assert AllDigits(t) by {
      assert t == ['1', '2', '0'];
    }
    assert DigitsValue(t) == 120 by {
      assert t[..2] == "12" && "12"[..1] == "1" && "1"[..0] == "";
    }
    ParseIntOfDigits(t);
  }

  /** The marker "Crediti Residui: 120" gives crediti_base 120. */
  lemma CreditsExample()
    ensures CreditsValue("Crediti Residui: 120") == 120
  {
    SplitExample();
    StripExample();
    ParseExample();
  }

  /** A credits marker without a colon gives crediti_base 0. */
  lemma CreditsWithoutColon()
    ensures CreditsValue("Crediti Residui 120") == 0
  {
    var t := "Crediti Residui 120";
    assert forall i :: 0 <= i < |t| ==> t[i] != ':';
    SplitSecondSpec(t, ':');
  }
  /**
   * Any text with a colon-free prefix, then ':' and an integer padded with
   * whitespace on both sides, gives that integer as crediti_base.
   */
  lemma CreditsOfNumber(p: string, w: string, n: int, w': string)
    requires ':' !in p
    requires forall i :: 0 <= i < |w| ==> IsSpace(w[i])
    requires forall i :: 0 <= i < |w'| ==> IsSpace(w'[i])
    ensures CreditsValue(p + ":" + w + IntToString(n) + w') == n
  {
    var d := IntToString(n);
    IntToStringShape(n);
    assert ':' !in w && ':' !in w' && ':' !in d by {
      assert !IsSpace(':') && !IsDigit(':');
    }
    var rest := w + d + w';
    assert p + ":" + w + d + w' == p + [':'] + rest;
    SplitSecondAfter(p, ':', rest);
    StripPadded(w, d, w');
    ParseIntToString(n);
  }

  /** A credits text without ':' gives crediti_base 0 (the IndexError). */
  lemma CreditsNoColon(s: string)
    requires ':' !in s
    ensures CreditsValue(s) == 0
  {
    SplitSecondSpec(s, ':');
  }

  /**
   * A credits text whose stripped second ':'-field holds a character other
   * than a digit, a sign or '_' gives crediti_base 0 (the ValueError).
   */
  lemma CreditsNotNumber(s: string, i: nat)
    requires SplitSecond(s, ':').Some?
    requires var t := Strip(SplitSecond(s, ':').value);
      i < |t| && !IsDigit(t[i]) && t[i] != '-' && t[i] != '+' && t[i] != '_'
    ensures CreditsValue(s) == 0
  {
    ParseIntRejects(Strip(SplitSecond(s, ':').value), i);
  }
}
