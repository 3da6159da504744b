/** The two views derived from the head-to-head table: the win-percentage
    table (`data_df_to_ratio_df`) and one hero's per-opponent breakdown
    (`data_df_to_hero_df`). */
module Projectors {
  import opened Wrappers
  import opened Text
  import opened HeroOrder
  import opened ResultMatrix

  /** Losses of `row` against `col` are `col`'s wins against `row`. */
  function Losses(t: Table, row: string, col: string): nat {
    At(t, col, row).wins
  }

  /** Games played by `row` against `col`: its wins, draws and losses. */
  function Games(t: Table, row: string, col: string): (g: nat)
    ensures g == 0 <==> At(t, row, col) == Zero && At(t, col, row).wins == 0
  {
    At(t, row, col).wins + At(t, row, col).draws + Losses(t, row, col)
  }

  /** Both orientations of a pair count the same games, because the draws are
      recorded in both orientations. */
  lemma GamesSymmetric(t: Table, a: string, b: string)
    requires WellFormed(t)
    ensures Games(t, a, b) == Games(t, b, a)
  {
    DrawsSymmetric(t, a, b);
  }

  /** `int(wins / n_games * 100)`: the win share as a whole percentage,
      rounded down. */
  function WinPercent(wins: nat, draws: nat, losses: nat): (p: nat)
    requires wins + draws + losses > 0
    ensures p <= 100
    ensures p * (wins + draws + losses) <= 100 * wins < (p + 1) * (wins + draws + losses)
  {
    var g := wins + draws + losses;
    var p := 100 * wins / g;
    assert p * g <= 100 * wins;
    assert p <= 100 by {
      if p > 100 { MulLeft(101, p, g); }
    }
    p
  }

  lemma MulLeft(a: nat, b: nat, c: nat)
    requires a <= b
    ensures a * c <= b * c
  {
  }

  /** What a cell of the ratio table says. */
  datatype Ratio = Mirror | NoGames | Percent(pct: nat)

  /** The ratio-table cell of `row` against `col`: "M" on the diagonal, "--"
      when the two never met, the win percentage otherwise. */
  function RatioOf(t: Table, row: string, col: string): (r: Ratio)
    ensures r == Mirror <==> row == col
    ensures r == NoGames <==> row != col && Games(t, row, col) == 0
    ensures r.Percent? ==> r.pct <= 100
    ensures r.Percent? ==>
      r.pct * Games(t, row, col) <= 100 * At(t, row, col).wins < (r.pct + 1) * Games(t, row, col)
  {
    if row == col then Mirror
    else if Games(t, row, col) == 0 then NoGames
    else Percent(WinPercent(At(t, row, col).wins, At(t, row, col).draws, Losses(t, row, col)))
  }

  /** The text written into the cell. */
  function Render(r: Ratio): (s: string)
    ensures |s| >= 1
  {
    match r
    case Mirror => "M"
    case NoGames => "--"
    case Percent(p) => NatToString(p) + "%"
  }

  /** A rendered percentage, and only a rendered percentage, starts with a digit. */
  lemma RenderShape(r: Ratio)
    ensures r.Percent? <==> '0' <= Render(r)[0] <= '9'
  {
    if r.Percent? {
      assert Render(r)[0] == NatToString(r.pct)[0];
    }
  }

  /** Different ratios never print the same: the cell text can be read back. */
  lemma RenderInjective(a: Ratio, b: Ratio)
    requires Render(a) == Render(b)
    ensures a == b
  {
    RenderShape(a);
    RenderShape(b);
    if a.Percent? && b.Percent? {
      var sa, sb := NatToString(a.pct), NatToString(b.pct);
      assert sa == Render(a)[..|sa|];
      assert sb == Render(b)[..|sb|];
      NatToStringInjective(a.pct, b.pct);
    }
  }

  /** Two heroes that never met show "--" in both orientations. */
  lemma NoGamesSymmetric(t: Table, a: string, b: string)
    requires WellFormed(t)
    ensures RatioOf(t, a, b) == NoGames <==> RatioOf(t, b, a) == NoGames
  {
    GamesSymmetric(t, a, b);
  }

  /** Two shares of the same games, each rounded down to a whole percentage,
      add up to at most 100, and to at least 99 when they cover every game. */
  lemma FloorShares(w1: nat, w2: nat, d: nat, g: nat, p1: nat, p2: nat)
    requires g == w1 + w2 + d && g > 0
    requires p1 * g <= 100 * w1 < (p1 + 1) * g
    requires p2 * g <= 100 * w2 < (p2 + 1) * g
    ensures p1 + p2 <= 100
    ensures d == 0 ==> p1 + p2 >= 99
  {
    assert (p1 + p2) * g == p1 * g + p2 * g;
    if p1 + p2 > 100 {
      MulLeft(101, p1 + p2, g);
    }
    if d == 0 {
      assert (p1 + p2 + 2) * g == (p1 + 1) * g + (p2 + 1) * g;
      if p1 + p2 + 2 <= 100 {
        MulLeft(p1 + p2 + 2, 100, g);
      }
    }
  }

  /** The two percentages of a pair never add up to more than 100; without
      draws they add up to 99 or 100 (each is rounded down). */
  lemma PercentComplement(t: Table, a: string, b: string)
    requires WellFormed(t) && a != b && Games(t, a, b) > 0
    ensures RatioOf(t, a, b).Percent? && RatioOf(t, b, a).Percent?
    ensures RatioOf(t, a, b).pct + RatioOf(t, b, a).pct <= 100
    ensures At(t, a, b).draws == 0 ==> RatioOf(t, a, b).pct + RatioOf(t, b, a).pct >= 99
  {
    GamesSymmetric(t, a, b);
    DrawsSymmetric(t, a, b);
    var g := Games(t, a, b);
    var w1, w2, d := At(t, a, b).wins, At(t, b, a).wins, At(t, a, b).draws;
    assert g == w1 + w2 + d;
    FloorShares(w1, w2, d, g, RatioOf(t, a, b).pct, RatioOf(t, b, a).pct);
  }

  /** Draws are recorded in both orientations. */
  lemma DrawsSymmetric(t: Table, a: string, b: string)
    requires WellFormed(t)
    ensures At(t, a, b).draws == At(t, b, a).draws
  {
    if (a, b) !in t.cells {
      assert (b, a) !in t.cells;
    }
  }

  /** A table of text cells: the pandas frame `data_df_to_ratio_df` returns. */
  datatype TextTable = TextTable(index: seq<string>, columns: seq<string>, cells: map<Key, string>)

  /** The ratio table: the same labels as the head-to-head table, each cell
      the rendered ratio of its row hero against its column hero. */
  function RatioTable(t: Table): (r: TextTable)
    ensures r.index == t.index && r.columns == t.columns && r.cells.Keys == t.cells.Keys
  {
    TextTable(t.index, t.columns, map k | k in t.cells :: Render(RatioOf(t, k.0, k.1)))
  }

  /** Every pair of heroes has a cell, and the cell reads "M" exactly on the
      diagonal, "--" exactly where the two never met, a percentage otherwise. */
  lemma RatioTableCells(t: Table, a: string, b: string)
    requires WellFormed(t) && a in t.index && b in t.index
    ensures (a, b) in RatioTable(t).cells
    ensures RatioTable(t).cells[(a, b)] == "M" <==> a == b
    ensures RatioTable(t).cells[(a, b)] == "--" <==> a != b && Games(t, a, b) == 0
    ensures a != b && Games(t, a, b) > 0 ==>
      var p := RatioOf(t, a, b).pct;
      && RatioTable(t).cells[(a, b)] == NatToString(p) + "%"
      && p <= 100
      && p * Games(t, a, b) <= 100 * At(t, a, b).wins < (p + 1) * Games(t, a, b)
  {
    var s := RatioTable(t).cells[(a, b)];
    assert s == Render(RatioOf(t, a, b));
    if s == "M" { RenderInjective(RatioOf(t, a, b), Mirror); }
    if s == "--" { RenderInjective(RatioOf(t, a, b), NoGames); }
  }

  /** The body of the inner loop of `data_df_to_ratio_df`: the text of one cell. */
  method RatioCell(df: DataFrame, row: string, col: string) returns (text: string)
    requires WellFormed(df.Value()) && row in df.index && col in df.index
    ensures text == Render(RatioOf(df.Value(), row, col))
  {
    var wins := df.CellAt(row, col).wins;
    var draws := df.CellAt(row, col).draws;
    var loses := df.CellAt(col, row).wins;
    var nGames := wins + draws + loses;
    if row == col {
      text := "M";
    } else if nGames == 0 {
      text := "--";
    } else {
      text := NatToString(WinPercent(wins, draws, loses)) + "%";
    }
  }

  /** The inner loop of `data_df_to_ratio_df`: one cell per column label for
      `row`, the cells already written kept. */
  method FillRow(df: DataFrame, row: string, cells: map<Key, string>) returns (r: map<Key, string>)
    requires WellFormed(df.Value()) && row in df.index
    requires forall k :: k in cells ==> cells[k] == Render(RatioOf(df.Value(), k.0, k.1))
    ensures forall k :: k in r <==> k in cells || (k.0 == row && k.1 in df.columns)
    ensures forall k :: k in r ==> r[k] == Render(RatioOf(df.Value(), k.0, k.1))
  {
    r := cells;
    var j := 0;
    while j < |df.columns|
      invariant 0 <= j <= |df.columns|
      invariant forall k :: k in r <==> k in cells || (k.0 == row && k.1 in df.columns[..j])
      invariant forall k :: k in r ==> r[k] == Render(RatioOf(df.Value(), k.0, k.1))
    {
      var col := df.columns[j];
      var text := RatioCell(df, row, col);
      r := r[(row, col) := text];
      assert df.columns[..j + 1] == df.columns[..j] + [col];
      j := j + 1;
    }
    assert df.columns[..j] == df.columns;
  }

  /** `data_df_to_ratio_df`: a nested loop over row and column labels filling
      a fresh table of text cells. */
  method DataDfToRatioDf(df: DataFrame) returns (r: TextTable)
    requires WellFormed(df.Value())
    ensures r == RatioTable(df.Value())
  {
    var cells: map<Key, string> := map[];
    var i := 0;
    while i < |df.index|
      invariant 0 <= i <= |df.index|
      invariant forall k :: k in cells <==> k.0 in df.index[..i] && k.1 in df.columns
      invariant forall k :: k in cells ==> cells[k] == Render(RatioOf(df.Value(), k.0, k.1))
    {
      var row := df.index[i];
      cells := FillRow(df, row, cells);
      assert df.index[..i + 1] == df.index[..i] + [row];
      i := i + 1;
    }
    assert df.index[..i] == df.index;
    assert cells == RatioTable(df.Value()).cells;
    r := TextTable(df.index, df.columns, cells);
  }

  /** One row of the hero breakdown:
      `[opponent, wins, loses, draws, n_games, f'{winrate}%']`. */
  datatype HeroRow = HeroRow(opponent: string, wins: nat, losses: nat, draws: nat, games: nat, winrate: string)

  /** The row for `opponent` when there is one: none for the hero itself or
      for an opponent never met. */
  function RowFor(t: Table, hero: string, opponent: string): (rows: seq<HeroRow>)
    ensures |rows| <= 1
    ensures |rows| == 1 <==> opponent != hero && Games(t, hero, opponent) > 0
  {
    var wins, draws, losses := At(t, hero, opponent).wins, At(t, hero, opponent).draws, Losses(t, hero, opponent);
    if wins + draws + losses == 0 || opponent == hero then []
    else [HeroRow(opponent, wins, losses, draws, wins + draws + losses,
                  NatToString(WinPercent(wins, draws, losses)) + "%")]
  }

  /** The rows produced by the loop over `opponents`, in their order. */
  function BreakdownRows(t: Table, hero: string, opponents: seq<string>): (rows: seq<HeroRow>)
    ensures |rows| <= |opponents|
    decreases |opponents|
  {
    if opponents == [] then []
    else BreakdownRows(t, hero, opponents[..|opponents| - 1]) + RowFor(t, hero, opponents[|opponents| - 1])
  }

  /** What `data_df_to_hero_df` returns: the lookup of the hero's row raises
      on the first opponent when the hero is not a row label; with no columns
      at all the loop never runs and the table comes back empty. */
  function HeroBreakdown(t: Table, hero: string): (r: Result<seq<HeroRow>, Error>)
    ensures r.Err? <==> |t.columns| > 0 && hero !in t.index
    ensures r.Err? ==> r.error == UnknownHero(hero)
  {
    if |t.columns| > 0 && hero !in t.index then Err(UnknownHero(hero))
    else Ok(BreakdownRows(t, hero, t.columns))
  }

  /** The loop body of `data_df_to_hero_df` for one opponent: nothing when
      the two never met or the opponent is the hero itself (`continue`),
      otherwise the row to append. */
  method OpponentRow(df: DataFrame, hero: string, opponent: string) returns (row: seq<HeroRow>)
    requires WellFormed(df.Value()) && hero in df.index && opponent in df.columns
    ensures row == RowFor(df.Value(), hero, opponent)
  {
    var wins := df.CellAt(hero, opponent).wins;
    var draws := df.CellAt(hero, opponent).draws;
    var loses := df.CellAt(opponent, hero).wins;
    var nGames := wins + draws + loses;
    if nGames == 0 || opponent == hero {
      return [];
    }
    var winrate := WinPercent(wins, draws, loses);
    row := [HeroRow(opponent, wins, loses, draws, nGames, NatToString(winrate) + "%")];
  }

  /** `data_df_to_hero_df`: the loop over the column labels appending a row
      per opponent met. */
  method DataDfToHeroDf(df: DataFrame, hero: string) returns (r: Result<seq<HeroRow>, Error>)
    requires WellFormed(df.Value())
    ensures r == HeroBreakdown(df.Value(), hero)
  {
    var t := df.Value();
    var rows: seq<HeroRow> := [];
    var j := 0;
    while j < |df.columns|
      invariant 0 <= j <= |df.columns|
      invariant j > 0 ==> hero in df.index
      invariant rows == BreakdownRows(t, hero, df.columns[..j])
    {
      var opponent := df.columns[j];
      if hero !in df.index {
        return Err(UnknownHero(hero));
      }
      BreakdownRowsSnoc(t, hero, df.columns, j);
      var row := OpponentRow(df, hero, opponent);
      rows := rows + row;
      j := j + 1;
    }
    assert df.columns[..j] == df.columns;
    r := Ok(rows);
  }

  /** The loop over the first `j + 1` columns is the loop over the first `j`, then one more column. */
  lemma BreakdownRowsSnoc(t: Table, hero: string, cols: seq<string>, j: nat)
    requires j < |cols|
    ensures BreakdownRows(t, hero, cols[..j + 1]) == BreakdownRows(t, hero, cols[..j]) + RowFor(t, hero, cols[j])
  {
    assert cols[..j + 1][..j] == cols[..j];
  }

  function Opponents(rows: seq<HeroRow>): (os: seq<string>)
    ensures |os| == |rows| && forall i :: 0 <= i < |rows| ==> os[i] == rows[i].opponent
  {
    seq(|rows|, i requires 0 <= i < |rows| => rows[i].opponent)
  }

  /** A row is about an opponent of the list other than the hero, with the
      table's counts, a positive number of games, and the same win rate the
      ratio table shows for that pair. */
  predicate RowAgrees(t: Table, hero: string, row: HeroRow) {
    && row.opponent != hero
    && row.wins == At(t, hero, row.opponent).wins
    && row.draws == At(t, hero, row.opponent).draws
    && row.losses == Losses(t, hero, row.opponent)
    && row.games == row.wins + row.draws + row.losses == Games(t, hero, row.opponent)
    && row.games > 0
    && row.winrate == Render(RatioOf(t, hero, row.opponent))
  }

  lemma OpponentsAppend(a: seq<HeroRow>, b: seq<HeroRow>)
    ensures Opponents(a + b) == Opponents(a) + Opponents(b)
  {
  }

  /** The row for one opponent, when there is one, agrees with both tables;
      there is one exactly for another hero met. */
  lemma RowForSpec(t: Table, hero: string, o: string)
    ensures forall row :: row in RowFor(t, hero, o) ==> row.opponent == o && RowAgrees(t, hero, row)
    ensures Opponents(RowFor(t, hero, o)) == if o != hero && Games(t, hero, o) > 0 then [o] else []
  {
  }

  /** Soundness and completeness of the rows over a list of opponents: the
      opponents listed are exactly those met, other than the hero, in the
      list's order. */
  lemma {:induction false} BreakdownRowsSpec(t: Table, hero: string, opponents: seq<string>)
    ensures forall row :: row in BreakdownRows(t, hero, opponents) ==>
      row.opponent in opponents && RowAgrees(t, hero, row)
    ensures forall o :: o in Opponents(BreakdownRows(t, hero, opponents)) <==>
      o in opponents && o != hero && Games(t, hero, o) > 0
    decreases |opponents|
  {
    if opponents != [] {
      var front := opponents[..|opponents| - 1];
      var last := opponents[|opponents| - 1];
      BreakdownRowsSpec(t, hero, front);
      RowForSpec(t, hero, last);
      assert opponents == front + [last];
      var before := BreakdownRows(t, hero, front);
      OpponentsAppend(before, RowFor(t, hero, last));
    }
  }

  /** Taken over a sorted, duplicate-free list of opponents, the rows list
      each opponent once, in sorted order. */
  lemma {:induction false} BreakdownRowsOrder(t: Table, hero: string, opponents: seq<string>)
    requires Sorted(opponents) && Distinct(opponents)
    ensures Sorted(Opponents(BreakdownRows(t, hero, opponents)))
    ensures Distinct(Opponents(BreakdownRows(t, hero, opponents)))
    decreases |opponents|
  {
    if opponents != [] {
      var front := opponents[..|opponents| - 1];
      var last := opponents[|opponents| - 1];
      BreakdownRowsOrder(t, hero, front);
      BreakdownRowsSpec(t, hero, front);
      RowForSpec(t, hero, last);
      OpponentsAppend(BreakdownRows(t, hero, front), RowFor(t, hero, last));
      var before := Opponents(BreakdownRows(t, hero, front));
      forall i | 0 <= i < |before| ensures Le(before[i], last) && before[i] != last {
        assert before[i] in front;
        var k :| 0 <= k < |front| && front[k] == before[i];
        assert opponents[k] == before[i];
      }
    }
  }

  /** The breakdown of the hero's opponents: a row for every other hero it
      met and no other, each matching the head-to-head table and the ratio
      table; on a sorted table the opponents come once each, in name order. */
  lemma HeroBreakdownSpec(t: Table, hero: string)
    requires WellFormed(t) && Sorted(t.columns) && HeroBreakdown(t, hero).Ok?
    ensures forall row :: row in HeroBreakdown(t, hero).value ==> RowAgrees(t, hero, row)
    ensures forall o :: o in Opponents(HeroBreakdown(t, hero).value) <==>
      o in t.index && o != hero && Games(t, hero, o) > 0
    ensures Sorted(Opponents(HeroBreakdown(t, hero).value))
    ensures Distinct(Opponents(HeroBreakdown(t, hero).value))
  {
    BreakdownRowsSpec(t, hero, t.columns);
    BreakdownRowsOrder(t, hero, t.columns);
  }

  /** A hero of the table that never played anyone else gets an empty breakdown. */
  lemma IdleHero(t: Table, hero: string)
    requires WellFormed(t) && hero in t.index
    requires forall o :: o in t.index && o != hero ==> Games(t, hero, o) == 0
    ensures HeroBreakdown(t, hero) == Ok([])
  {
    BreakdownRowsSpec(t, hero, t.columns);
    NoMembersEmpty(Opponents(HeroBreakdown(t, hero).value));
  }

  lemma NoMembersEmpty<T>(s: seq<T>)
    ensures (forall x :: x !in s) ==> s == []
  {
    if s != [] {
      assert s[0] in s;
    }
  }
}
