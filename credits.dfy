/**
 * Residual credits of a team: its base credits plus, for every player whose
 * name carried a '*', half of that player's cost rounded up.
 */
module Credits {
  import opened Roster

  /** ceil(cost / 2) on an integer cost: the least integer whose double reaches cost. */
  function HalfUp(cost: int): (h: int)
    ensures 2 * h >= cost && 2 * (h - 1) < cost
  {
    (cost + 1) / 2
  }

  /** The bonus of a player table: HalfUp of the cost of each asterisk player, summed. */
  function Bonus(ps: seq<Player>): int {
    if ps == [] then 0
    else Bonus(ps[..|ps| - 1]) + (if ps[|ps| - 1].hasAsterisk then HalfUp(ps[|ps| - 1].cost) else 0)
  }

  /** The asterisk players, in order: team_df[team_df['Ha_Asterisco']]. */
  function Marked(ps: seq<Player>): (m: seq<Player>)
    ensures |m| <= |ps|
  {
    if ps == [] then []
    else Marked(ps[..|ps| - 1]) + (if ps[|ps| - 1].hasAsterisk then [ps[|ps| - 1]] else [])
  }

  /** HalfUp of every cost of a table, summed. */
  function SumHalves(ps: seq<Player>): int {
    if ps == [] then 0 else SumHalves(ps[..|ps| - 1]) + HalfUp(ps[|ps| - 1].cost)
  }

  /** calculate_crediti_residui: the loop over the rows that adds the bonus of each asterisk player. */
  method CalculateResidualCredits(ps: seq<Player>, base: int) returns (credits: int)
    ensures credits == base + Bonus(ps)
  {
    var bonus := 0;
    var i := 0;
    while i < |ps|
      invariant i <= |ps|
      invariant bonus == Bonus(ps[..i])
    {
      assert ps[..i + 1][..i] == ps[..i];
      if ps[i].hasAsterisk {
        bonus := bonus + HalfUp(ps[i].cost);
      }
      i := i + 1;
    }
    assert ps[..|ps|] == ps;
    credits := base + bonus;
  }

  /** bonus_totale of the team tab: the loop over the asterisk rows that adds HalfUp of each cost. */
  method BonusTotal(ps: seq<Player>) returns (bonus: int)
    ensures bonus == Bonus(ps)
  {
    var marked := Marked(ps);
    bonus := 0;
    var i := 0;
    while i < |marked|
      invariant i <= |marked|
      invariant bonus == SumHalves(marked[..i])
    {
      assert marked[..i + 1][..i] == marked[..i];
      bonus := bonus + HalfUp(marked[i].cost);
      i := i + 1;
    }
    assert marked[..|marked|] == marked;
    MarkedHalves(ps);
  }

  /** Summing over the asterisk rows only gives the bonus of the whole table. */
  lemma {:induction false} MarkedHalves(ps: seq<Player>)
    ensures SumHalves(Marked(ps)) == Bonus(ps)
  {
    if ps != [] {
      var init := ps[..|ps| - 1];
      MarkedHalves(init);
      if ps[|ps| - 1].hasAsterisk {
        var m := Marked(init) + [ps[|ps| - 1]];
        assert m[..|m| - 1] == Marked(init);
        assert SumHalves(m) == SumHalves(Marked(init)) + HalfUp(ps[|ps| - 1].cost);
      } else {
        assert Marked(ps) == Marked(init) + [] == Marked(init);
      }
    }
  }

  /** The marked rows are exactly the asterisk players of the table. */
  lemma {:induction false} MarkedMembers(ps: seq<Player>)
    ensures forall p :: p in Marked(ps) <==> p in ps && p.hasAsterisk
  {
    if ps != [] {
      MarkedMembers(ps[..|ps| - 1]);
      assert ps == ps[..|ps| - 1] + [ps[|ps| - 1]];
    }
  }

  /** The bonus is additive over a split of the table. */
  lemma {:induction false} BonusAppend(a: seq<Player>, b: seq<Player>)
    ensures Bonus(a + b) == Bonus(a) + Bonus(b)
    decreases |b|
  {
    if b == [] {
      assert a + b == a;
    } else {
      var b' := b[..|b| - 1];
      assert (a + b)[..|a + b| - 1] == a + b';
      BonusAppend(a, b');
    }
  }

  /** Players without an asterisk contribute nothing, whatever their cost. */
  lemma {:induction false} BonusIgnoresUnmarked(ps: seq<Player>)
    requires forall i :: 0 <= i < |ps| ==> !ps[i].hasAsterisk
    ensures Bonus(ps) == 0
  {
    if ps != [] {
      BonusIgnoresUnmarked(ps[..|ps| - 1]);
    }
  }

  /** With non-negative costs the bonus is between 0 and the sum of the asterisk players' costs. */
  lemma {:induction false} BonusBounds(ps: seq<Player>)
    requires forall i :: 0 <= i < |ps| ==> ps[i].cost >= 0
    ensures 0 <= Bonus(ps) <= MarkedCost(ps)
  {
    if ps != [] {
      BonusBounds(ps[..|ps| - 1]);
    }
  }

  /** The costs of the asterisk players, summed. */
  function MarkedCost(ps: seq<Player>): int {
    if ps == [] then 0
    else MarkedCost(ps[..|ps| - 1]) + (if ps[|ps| - 1].hasAsterisk then ps[|ps| - 1].cost else 0)
  }

  /** Base 120 and one asterisk player of cost 50 give 145 residual credits. */
  lemma ResidualExample(p: Player)
    requires p.hasAsterisk && p.cost == 50
    ensures 120 + Bonus([p]) == 145
  {
    assert [p][..0] == [];
  }
}
