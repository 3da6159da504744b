/** The head-to-head table that `url_to_data_df` grows in a pandas DataFrame:
    row and column labels are hero names, and the cell at (row, col) holds how
    often the row hero beat the column hero and how many draws the two had in
    that orientation. */
module ResultMatrix {
  import opened HeroOrder

  /** One cell: `(wins, draws)` of the row hero against the column hero. */
  datatype Cell = Cell(wins: nat, draws: nat)

  const Zero := Cell(0, 0)

  /** (row hero, column hero) */
  type Key = (string, string)

  /** The DataFrame as a value: row labels, column labels and the cells. */
  datatype Table = Table(index: seq<string>, columns: seq<string>, cells: map<Key, Cell>)

  /** `pd.DataFrame()` */
  const Empty := Table([], [], map[])

  /** What the core raises: a result banner it does not know (`ValueError`),
      or a hero that is not a row of the table (`KeyError` from `.at`). */
  datatype Error = UnrecognizedResult | UnknownHero(hero: string)

  predicate Distinct<T(==)>(s: seq<T>) {
    forall i, j :: 0 <= i < j < |s| ==> s[i] != s[j]
  }

  /** The cell at `k`, read as (0, 0) where the table has none. */
  function Get(cells: map<Key, Cell>, k: Key): Cell {
    if k in cells then cells[k] else Zero
  }

  function At(t: Table, row: string, col: string): Cell {
    Get(t.cells, (row, col))
  }

  /** The shape every table the scraper builds keeps between two matches:
      the same heroes label the rows and the columns, in the same order, none
      twice; there is a cell for every (row, column) pair and no other; and
      draws are recorded alike in both orientations. */
  ghost predicate WellFormed(t: Table) {
    && t.index == t.columns
    && Distinct(t.index)
    && (forall k :: k in t.cells <==> k.0 in t.index && k.1 in t.index)
    && (forall r, c :: (r, c) in t.cells ==> t.cells[(r, c)].draws == At(t, c, r).draws)
  }

  /** The table after `data_df[name] = [(0, 0)] * len(data_df)`: a new last
      column, zero in every existing row. */
  function WithColumn(t: Table, name: string): (r: Table)
    ensures r.index == t.index && r.columns == t.columns + [name]
    ensures forall row :: row in t.index ==> (row, name) in r.cells && r.cells[(row, name)] == Zero
    ensures forall k :: k in r.cells <==> k in t.cells || (k.0 in t.index && k.1 == name)
    ensures forall k :: k in t.cells && k.1 != name ==> r.cells[k] == t.cells[k]
  {
    Table(t.index, t.columns + [name], t.cells + map r | r in t.index :: (r, name) := Zero)
  }

  /** The table after `data_df.loc[name] = [(0, 0)] * len(data_df.columns)`:
      a new last row, zero in every column. */
  function WithRow(t: Table, name: string): (r: Table)
    ensures r.index == t.index + [name] && r.columns == t.columns
    ensures forall col :: col in t.columns ==> (name, col) in r.cells && r.cells[(name, col)] == Zero
    ensures forall k :: k in r.cells <==> k in t.cells || (k.0 == name && k.1 in t.columns)
    ensures forall k :: k in t.cells && k.0 != name ==> r.cells[k] == t.cells[k]
  {
    Table(t.index + [name], t.columns, t.cells + map c | c in t.columns :: (name, c) := Zero)
  }

  /** Registering a hero on first sighting: when it is not yet a column, it
      gets a new last column and a new last row, all (0, 0); no existing cell
      changes, and the hero is never added twice. */
  function Registered(t: Table, hero: string): (r: Table)
    ensures WellFormed(t) ==> WellFormed(r)
    ensures WellFormed(t) ==> r.index == if hero in t.index then t.index else t.index + [hero]
    ensures WellFormed(t) ==> forall k :: k in t.cells ==> k in r.cells && r.cells[k] == t.cells[k]
    ensures WellFormed(t) ==> forall k :: k in r.cells && k !in t.cells ==> r.cells[k] == Zero
  {
    if hero in t.columns then t
    else
      var r := WithRow(WithColumn(t, hero), hero);
      assert WellFormed(t) ==> WellFormed(r) by {
        if WellFormed(t) {
          FreshHeroLabels(t, hero);
          FreshHeroDomain(t, hero);
          FreshHeroDraws(t, hero);
        }
      }
      r
  }

  /** A fresh hero becomes the last label of both axes, still none twice. */
  lemma FreshHeroLabels(t: Table, hero: string)
    requires WellFormed(t) && hero !in t.index
    ensures WithRow(WithColumn(t, hero), hero).index == t.index + [hero]
    ensures WithRow(WithColumn(t, hero), hero).columns == t.index + [hero]
    ensures Distinct(t.index + [hero])
  {
    var idx := t.index + [hero];
    forall i, j | 0 <= i < j < |idx| ensures idx[i] != idx[j] {
      if j == |idx| - 1 { assert idx[i] in t.index; }
    }
  }

  /** With a fresh hero there is a cell for every pair of heroes and no other. */
  lemma FreshHeroDomain(t: Table, hero: string)
    requires WellFormed(t) && hero !in t.index
    ensures forall k :: k in WithRow(WithColumn(t, hero), hero).cells <==> k.0 in t.index + [hero] && k.1 in t.index + [hero]
  {
    var c := WithColumn(t, hero);
    assert forall k :: k in c.cells <==> k.0 in t.index && k.1 in t.index + [hero];
  }


  /** Old cells keep their values; the new ones are (0, 0). */
  lemma FreshHeroCells(t: Table, hero: string)
    requires WellFormed(t) && hero !in t.index
    ensures var r := WithRow(WithColumn(t, hero), hero);
      forall k :: k in r.cells ==> r.cells[k] == if k in t.cells then t.cells[k] else Zero
  {
    var r := WithRow(WithColumn(t, hero), hero);
    forall k | k in r.cells ensures r.cells[k] == if k in t.cells then t.cells[k] else Zero {
      if k in t.cells {
        assert k.0 != hero && k.1 != hero;
      }
    }
  }

  /** A fresh hero's cells have no draws, so the draws stay symmetric. */
  lemma FreshHeroDraws(t: Table, hero: string)
    requires WellFormed(t) && hero !in t.index
    ensures var r := WithRow(WithColumn(t, hero), hero);
      forall a, b :: (a, b) in r.cells ==> r.cells[(a, b)].draws == At(r, b, a).draws
  {
    var r := WithRow(WithColumn(t, hero), hero);
    FreshHeroCells(t, hero);
    FreshHeroDomain(t, hero);
    forall a, b | (a, b) in r.cells ensures r.cells[(a, b)].draws == At(r, b, a).draws {
      assert (b, a) in r.cells;
      if (a, b) in t.cells {
        assert (b, a) in t.cells;
        assert r.cells[(b, a)] == t.cells[(b, a)];
      } else {
        assert (b, a) !in t.cells;
        assert r.cells[(b, a)] == Zero;
      }
    }
  }

  /** `M[winner][loser].wins += 1` */
  function AddWin(t: Table, winner: string, loser: string): (r: Table)
    ensures r.index == t.index && r.columns == t.columns
    ensures At(r, winner, loser) == Cell(At(t, winner, loser).wins + 1, At(t, winner, loser).draws)
    ensures forall k :: k != (winner, loser) ==> Get(r.cells, k) == Get(t.cells, k)
  {
    var c := At(t, winner, loser);
    t.(cells := t.cells[(winner, loser) := Cell(c.wins + 1, c.draws)])
  }

  /** `M[a][b].draws += 1` */
  function AddDraw(t: Table, a: string, b: string): (r: Table)
    ensures r.index == t.index && r.columns == t.columns
    ensures At(r, a, b) == Cell(At(t, a, b).wins, At(t, a, b).draws + 1)
    ensures forall k :: k != (a, b) ==> Get(r.cells, k) == Get(t.cells, k)
  {
    var c := At(t, a, b);
    t.(cells := t.cells[(a, b) := Cell(c.wins, c.draws + 1)])
  }

  /** The table after `sort_index(axis=0).sort_index(axis=1)`: rows and columns
      in ascending name order, every cell still under its own pair of labels. */
  function SortTable(t: Table): (r: Table)
    ensures WellFormed(t) ==> WellFormed(r) && Sorted(r.index)
    ensures forall h :: h in r.index <==> h in t.index
    ensures forall h :: h in r.columns <==> h in t.columns
    ensures multiset(r.index) == multiset(t.index) && multiset(r.columns) == multiset(t.columns)
    ensures Sorted(r.index) && Sorted(r.columns) && r.cells == t.cells
  {
    var r := Table(Sort(t.index), Sort(t.columns), t.cells);
    SortMembers(t.index);
    SortMembers(t.columns);
    assert WellFormed(t) ==> WellFormed(r) by {
      if WellFormed(t) { SortedWellFormed(t); }
    }
    r
  }

  /** Sorting keeps exactly the same names. */
  lemma SortMembers(s: seq<string>)
    ensures forall h :: h in Sort(s) <==> h in s
  {
    forall h ensures h in Sort(s) <==> h in s {
      assert h in Sort(s) <==> h in multiset(Sort(s));
    }
  }

  /** Sorting the labels of a well-formed table, cells untouched, keeps it well formed. */
  lemma SortedWellFormed(t: Table)
    requires WellFormed(t)
    ensures WellFormed(Table(Sort(t.index), Sort(t.columns), t.cells))
  {
    var r := Table(Sort(t.index), Sort(t.columns), t.cells);
    SortMembers(t.index);
    DistinctPermutation(t.index, r.index);
    assert forall a, b :: At(r, a, b) == At(t, a, b);
  }

  lemma {:induction false} DistinctCounts<T>(s: seq<T>, x: T)
    requires Distinct(s)
    ensures multiset(s)[x] <= 1
    decreases |s|
  {
    if s != [] {
      var s' := s[..|s| - 1];
      assert s == s' + [s[|s| - 1]];
      DistinctCounts(s', x);
      if x == s[|s| - 1] { assert x !in s'; }
    }
  }

  /** Two equal entries at different positions count twice. */
  lemma TwoCopies<T>(s: seq<T>, i: nat, j: nat)
    requires i < j < |s|
    ensures s[i] == s[j] ==> multiset(s)[s[j]] >= 2
  {
    assert s == s[..j] + [s[j]] + s[j + 1..];
    assert s[i] in multiset(s[..j]);
    assert multiset(s)[s[j]] >= multiset(s[..j])[s[j]] + 1;
  }

  /** Rearranging a sequence of distinct elements keeps them distinct. */
  lemma DistinctPermutation<T>(a: seq<T>, b: seq<T>)
    requires Distinct(a) && multiset(a) == multiset(b)
    ensures Distinct(b)
  {
    forall i, j | 0 <= i < j < |b| ensures b[i] != b[j] {
      DistinctCounts(a, b[j]);
      TwoCopies(b, i, j);
    }
  }

  /** The last element of a sequence of distinct elements, and the rest. */
  lemma DistinctInit<T>(s: seq<T>)
    requires Distinct(s) && s != []
    ensures Distinct(s[..|s| - 1]) && s[|s| - 1] !in s[..|s| - 1]
  {
  }

  /** Deleting the element at `i` from a sequence of distinct elements. */
  lemma DistinctRemove<T>(s: seq<T>, i: nat)
    requires Distinct(s) && i < |s|
    ensures Distinct(s[..i] + s[i + 1..])
    ensures forall x :: x in s[..i] + s[i + 1..] <==> x in s && x != s[i]
  {
    var r := s[..i] + s[i + 1..];
    assert forall p :: 0 <= p < |r| ==> r[p] == if p < i then s[p] else s[p + 1];
    forall x ensures x in r <==> x in s && x != s[i] {
      if x in s && x != s[i] {
        var p :| 0 <= p < |s| && s[p] == x;
        if p < i { assert r[p] == x; } else { assert r[p - 1] == x; }
      }
    }
  }

  /** The two counters a cell holds. */
  datatype Counter = Wins | Draws

  function Count(c: Cell, counter: Counter): nat {
    match counter
    case Wins => c.wins
    case Draws => c.draws
  }

  /** Sum of one counter over the cells at `keys`. */
  function Total(cells: map<Key, Cell>, keys: seq<Key>, counter: Counter): nat {
    if keys == [] then 0
    else Total(cells, keys[..|keys| - 1], counter) + Count(Get(cells, keys[|keys| - 1]), counter)
  }

  function RowKeys(row: string, cols: seq<string>): seq<Key> {
    seq(|cols|, i requires 0 <= i < |cols| => (row, cols[i]))
  }

  /** Every (row, column) pair, row by row. */
  function Pairs(rows: seq<string>, cols: seq<string>): (ks: seq<Key>)
    ensures forall k :: k in ks <==> k.0 in rows && k.1 in cols
    ensures Distinct(rows) && Distinct(cols) ==> Distinct(ks)
  {
    if rows == [] then []
    else
      var init := Pairs(rows[..|rows| - 1], cols);
      var row := rows[|rows| - 1];
      var last := RowKeys(row, cols);
      var ks := init + last;
      assert rows == rows[..|rows| - 1] + [row];
      assert forall k :: k in last <==> k.0 == row && k.1 in cols by {
        forall k ensures k in last <==> k.0 == row && k.1 in cols {
          if k.0 == row && k.1 in cols {
            var j :| 0 <= j < |cols| && cols[j] == k.1;
            assert last[j] == k;
          }
        }
      }
      assert Distinct(rows) && Distinct(cols) ==> Distinct(ks) by {
        if Distinct(rows) && Distinct(cols) {
          DistinctInit(rows);
          forall i, j | 0 <= i < j < |ks| ensures ks[i] != ks[j] {
            if j >= |init| {
              if i < |init| { assert ks[i] in init; assert ks[j] in last; }
              else { assert ks[i] == (row, cols[i - |init|]) && ks[j] == (row, cols[j - |init|]); }
            }
          }
        }
      }
      ks
  }

  /** Sum of one counter over the whole table. */
  function TotalOf(t: Table, counter: Counter): nat {
    Total(t.cells, Pairs(t.index, t.columns), counter)
  }

  lemma {:induction false} TotalAppend(cells: map<Key, Cell>, a: seq<Key>, b: seq<Key>, counter: Counter)
    ensures Total(cells, a + b, counter) == Total(cells, a, counter) + Total(cells, b, counter)
    decreases |b|
  {
    if b == [] {
      assert a + b == a;
    } else {
      assert (a + b)[..|a + b| - 1] == a + b[..|b| - 1];
      TotalAppend(cells, a, b[..|b| - 1], counter);
    }
  }

  lemma TotalRemove(cells: map<Key, Cell>, keys: seq<Key>, i: nat, counter: Counter)
    requires i < |keys|
    ensures Total(cells, keys, counter) == Total(cells, keys[..i] + keys[i + 1..], counter) + Count(Get(cells, keys[i]), counter)
  {
    assert keys == (keys[..i] + [keys[i]]) + keys[i + 1..];
    TotalAppend(cells, keys[..i] + [keys[i]], keys[i + 1..], counter);
    TotalAppend(cells, keys[..i], [keys[i]], counter);
    TotalAppend(cells, keys[..i], keys[i + 1..], counter);
    assert [keys[i]][..0] == [];
  }

  /** Summing over `ys` in `after` gives what summing over `xs` in `before`
      gave, when `ys` holds every key of `xs` with the same cell and the keys
      `xs` lacks hold (0, 0). Order does not matter. */
  lemma {:induction false} TotalExtend(before: map<Key, Cell>, after: map<Key, Cell>, xs: seq<Key>, ys: seq<Key>, counter: Counter)
    requires Distinct(xs) && Distinct(ys)
    requires forall k :: k in xs ==> k in ys && Get(after, k) == Get(before, k)
    requires forall k :: k in ys && k !in xs ==> Get(after, k) == Zero
    ensures Total(after, ys, counter) == Total(before, xs, counter)
    decreases |ys|
  {
    if ys != [] {
      var y := ys[|ys| - 1];
      var ys' := ys[..|ys| - 1];
      DistinctInit(ys);
      assert forall k :: k in ys <==> k in ys' || k == y by {
        assert ys == ys' + [y];
      }
      if y in xs {
        var i :| 0 <= i < |xs| && xs[i] == y;
        DistinctRemove(xs, i);
        TotalRemove(before, xs, i, counter);
        TotalExtend(before, after, xs[..i] + xs[i + 1..], ys', counter);
      } else {
        TotalExtend(before, after, xs, ys', counter);
      }
    }
  }

  /** Overwriting the cell at one of the summed keys changes the sum by the difference. */
  lemma TotalUpdate(cells: map<Key, Cell>, keys: seq<Key>, k: Key, v: Cell, counter: Counter)
    requires Distinct(keys) && k in keys
    ensures Total(cells[k := v], keys, counter) + Count(Get(cells, k), counter)
         == Total(cells, keys, counter) + Count(v, counter)
  {
    var i :| 0 <= i < |keys| && keys[i] == k;
    DistinctRemove(keys, i);
    var rest := keys[..i] + keys[i + 1..];
    TotalRemove(cells, keys, i, counter);
    TotalRemove(cells[k := v], keys, i, counter);
    TotalExtend(cells, cells[k := v], rest, rest, counter);
  }

  /** Registering a hero adds only zero cells, so no total moves. */
  lemma RegisteredTotals(t: Table, hero: string, counter: Counter)
    requires WellFormed(t)
    ensures TotalOf(Registered(t, hero), counter) == TotalOf(t, counter)
  {
    var r := Registered(t, hero);
    TotalExtend(t.cells, r.cells, Pairs(t.index, t.columns), Pairs(r.index, r.columns), counter);
  }

  /** One win adds one to the win total and leaves the draw total alone. */
  lemma AddWinTotals(t: Table, winner: string, loser: string)
    requires Distinct(t.index) && Distinct(t.columns) && winner in t.index && loser in t.columns
    ensures TotalOf(AddWin(t, winner, loser), Wins) == TotalOf(t, Wins) + 1
    ensures TotalOf(AddWin(t, winner, loser), Draws) == TotalOf(t, Draws)
  {
    var c := At(t, winner, loser);
    TotalUpdate(t.cells, Pairs(t.index, t.columns), (winner, loser), Cell(c.wins + 1, c.draws), Wins);
    TotalUpdate(t.cells, Pairs(t.index, t.columns), (winner, loser), Cell(c.wins + 1, c.draws), Draws);
  }

  /** One draw entry adds one to the draw total and leaves the win total alone. */
  lemma AddDrawTotals(t: Table, a: string, b: string)
    requires Distinct(t.index) && Distinct(t.columns) && a in t.index && b in t.columns
    ensures TotalOf(AddDraw(t, a, b), Wins) == TotalOf(t, Wins)
    ensures TotalOf(AddDraw(t, a, b), Draws) == TotalOf(t, Draws) + 1
  {
    var c := At(t, a, b);
    TotalUpdate(t.cells, Pairs(t.index, t.columns), (a, b), Cell(c.wins, c.draws + 1), Wins);
    TotalUpdate(t.cells, Pairs(t.index, t.columns), (a, b), Cell(c.wins, c.draws + 1), Draws);
  }

  /** Sorting rows and columns moves no cell, so no total moves. */
  lemma SortTableTotals(t: Table, counter: Counter)
    requires WellFormed(t)
    ensures TotalOf(SortTable(t), counter) == TotalOf(t, counter)
  {
    var r := SortTable(t);
    TotalExtend(t.cells, r.cells, Pairs(t.index, t.columns), Pairs(r.index, r.columns), counter);
  }

  /** The DataFrame that `url_to_data_df` grows in place. */
  class DataFrame {
    var index: seq<string>
    var columns: seq<string>
    var cells: map<Key, Cell>

    function Value(): Table
      reads this
    {
      Table(index, columns, cells)
    }

    /** `pd.DataFrame()`: no rows, no columns. */
    constructor ()
      ensures Value() == Empty
    {
      index, columns, cells := [], [], map[];
    }

    /** `df[name] = [(0, 0)] * len(df)` for a name that is not yet a column. */
    method AddColumn(name: string)
      requires name !in columns
      modifies this
      ensures Value() == WithColumn(old(Value()), name)
    {
      cells := cells + map r | r in index :: (r, name) := Zero;
      columns := columns + [name];
    }

    /** `df.loc[name] = [(0, 0)] * len(df.columns)` for a name that is not yet a row. */
    method AddRow(name: string)
      requires name !in index
      modifies this
      ensures Value() == WithRow(old(Value()), name)
    {
      cells := cells + map c | c in columns :: (name, c) := Zero;
      index := index + [name];
    }

    /** `df.at[row, col]` */
    function CellAt(row: string, col: string): (c: Cell)
      reads this
      requires (row, col) in cells
      ensures c == At(Value(), row, col)
    {
      cells[(row, col)]
    }

    /** `df.at[row, col] = c` for an existing cell. */
    method Put(row: string, col: string, c: Cell)
      requires (row, col) in cells
      modifies this
      ensures Value() == old(Value()).(cells := old(cells)[(row, col) := c])
    {
      cells := cells[(row, col) := c];
    }

    /** `df = df.sort_index(axis=0).sort_index(axis=1)` */
    method SortIndex()
      modifies this
      ensures Value() == SortTable(old(Value()))
    {
      index := Sort(index);
      columns := Sort(columns);
    }
  }
}
