/** The aggregation done by `url_to_data_df`: the matches of every round page,
    in page order, are folded into the head-to-head table, which is then
    sorted by hero name. */
module Scraper {
  import opened Wrappers
  import opened Text
  import opened HeroOrder
  import opened ResultMatrix

  /** The three result banners a coverage page shows (the arrows are U+25C0 and U+25B6). */
  const PLAYER1_WINS: string := "\U{25C0}Player 1Wins!\U{25B6}"
  const PLAYER2_WINS: string := "\U{25C0}Player 2Wins!\U{25B6}"
  const DRAW: string := "\U{25C0}Draw\U{25B6}"

  /** One match row as the page fetcher hands it over: the text of each
      player's hero box, links already removed, and the text of the result box. */
  datatype RawMatch = RawMatch(p1Text: string, p2Text: string, resultText: string)

  /** `(p1_hero, p2_hero, result)` */
  datatype Match = Match(p1: string, p2: string, result: string)

  /** The last step of `_get_heroes_and_winner`: every '/' is deleted from both
      hero names; the result text is passed on as it is. */
  function GetHeroesAndWinner(raw: RawMatch): (m: Match)
    ensures '/' !in m.p1 && '/' !in m.p2
    ensures m.result == raw.resultText
    ensures '/' !in raw.p1Text ==> m.p1 == raw.p1Text
    ensures '/' !in raw.p2Text ==> m.p2 == raw.p2Text
  {
    var m := Match(Without(raw.p1Text, {'/'}), Without(raw.p2Text, {'/'}), raw.resultText);
    assert '/' !in raw.p1Text ==> m.p1 == raw.p1Text by {
      if '/' !in raw.p1Text { WithoutKeepsClean(raw.p1Text, {'/'}); }
    }
    assert '/' !in raw.p2Text ==> m.p2 == raw.p2Text by {
      if '/' !in raw.p2Text { WithoutKeepsClean(raw.p2Text, {'/'}); }
    }
    m
  }

  /** A match where a hero name is empty is a bye. */
  predicate IsBye(m: Match) {
    m.p1 == "" || m.p2 == ""
  }

  /** Every cell outside `changed` is as it was, and the labels are the same. */
  ghost predicate ChangedOnly(t: Table, t': Table, changed: set<Key>) {
    && t'.index == t.index && t'.columns == t.columns
    && t'.cells.Keys == t.cells.Keys
    && forall k :: k in t.cells && k !in changed ==> t'.cells[k] == t.cells[k]
  }

  /** One win for `w` against `l` changes that cell's wins and nothing else. */
  lemma AddWinEffect(t: Table, w: string, l: string)
    requires WellFormed(t) && w in t.index && l in t.index
    ensures WellFormed(AddWin(t, w, l))
    ensures ChangedOnly(t, AddWin(t, w, l), {(w, l)})
    ensures At(AddWin(t, w, l), w, l) == Cell(At(t, w, l).wins + 1, At(t, w, l).draws)
  {
    var r := AddWin(t, w, l);
    assert r.cells.Keys == t.cells.Keys;
    forall a, b | (a, b) in r.cells ensures r.cells[(a, b)].draws == At(r, b, a).draws {
      assert (b, a) in t.cells;
    }
  }

  /** A draw between `a` and `b` adds one draw in each orientation, two to the
      single cell of a mirror match, and changes nothing else. */
  lemma DrawEffect(t: Table, a: string, b: string)
    requires WellFormed(t) && a in t.index && b in t.index
    ensures WellFormed(AddDraw(AddDraw(t, a, b), b, a))
    ensures ChangedOnly(t, AddDraw(AddDraw(t, a, b), b, a), {(a, b), (b, a)})
    ensures At(AddDraw(AddDraw(t, a, b), b, a), a, b).wins == At(t, a, b).wins
    ensures At(AddDraw(AddDraw(t, a, b), b, a), b, a).wins == At(t, b, a).wins
    ensures At(AddDraw(AddDraw(t, a, b), b, a), a, b).draws == At(t, a, b).draws + (if a == b then 2 else 1)
    ensures At(AddDraw(AddDraw(t, a, b), b, a), b, a).draws == At(t, b, a).draws + (if a == b then 2 else 1)
  {
    var r := AddDraw(AddDraw(t, a, b), b, a);
    assert r.cells.Keys == t.cells.Keys;
    forall x, y | (x, y) in r.cells ensures r.cells[(x, y)].draws == At(r, y, x).draws {
      assert (y, x) in t.cells;
    }
  }

  /** The banner dispatch on two registered heroes. A win adds one to the
      winner's wins against the loser; a draw adds one to the draws of both
      orientations (two to the one cell of a mirror match); any other text
      raises. Nothing else changes. */
  function Apply(t: Table, p1: string, p2: string, result: string): (r: Result<Table, Error>)
    requires WellFormed(t) && p1 in t.index && p2 in t.index
    ensures r.Err? <==> result != PLAYER1_WINS && result != PLAYER2_WINS && result != DRAW
    ensures r.Ok? ==> WellFormed(r.value) && r.value.index == t.index && r.value.columns == t.columns
    ensures result == PLAYER1_WINS ==>
      && ChangedOnly(t, r.value, {(p1, p2)})
      && At(r.value, p1, p2) == Cell(At(t, p1, p2).wins + 1, At(t, p1, p2).draws)
    ensures result == PLAYER2_WINS ==>
      && ChangedOnly(t, r.value, {(p2, p1)})
      && At(r.value, p2, p1) == Cell(At(t, p2, p1).wins + 1, At(t, p2, p1).draws)
    ensures result == DRAW ==>
      && ChangedOnly(t, r.value, {(p1, p2), (p2, p1)})
      && At(r.value, p1, p2).wins == At(t, p1, p2).wins
      && At(r.value, p2, p1).wins == At(t, p2, p1).wins
      && At(r.value, p1, p2).draws == At(t, p1, p2).draws + (if p1 == p2 then 2 else 1)
      && At(r.value, p2, p1).draws == At(t, p2, p1).draws + (if p1 == p2 then 2 else 1)
  {
    if result == PLAYER1_WINS then
      AddWinEffect(t, p1, p2);
      Ok(AddWin(t, p1, p2))
    else if result == PLAYER2_WINS then
      AddWinEffect(t, p2, p1);
      Ok(AddWin(t, p2, p1))
    else if result == DRAW then
      DrawEffect(t, p1, p2);
      Ok(AddDraw(AddDraw(t, p1, p2), p2, p1))
    else Err(UnrecognizedResult)
  }

  /** How the match loop treats a match. */
  datatype Kind = Bye | Player1Win | Player2Win | Drawn | Unrecognized

  function KindOf(raw: RawMatch): (k: Kind)
    ensures k == Bye <==> IsBye(GetHeroesAndWinner(raw))
    ensures k == Unrecognized <==>
      (!IsBye(GetHeroesAndWinner(raw))
       && raw.resultText != PLAYER1_WINS && raw.resultText != PLAYER2_WINS && raw.resultText != DRAW)
  {
    var m := GetHeroesAndWinner(raw);
    if IsBye(m) then Bye
    else if m.result == PLAYER1_WINS then Player1Win
    else if m.result == PLAYER2_WINS then Player2Win
    else if m.result == DRAW then Drawn
    else Unrecognized
  }

  /** The hero names a match brings to the table: none for a bye. */
  function MatchHeroes(raw: RawMatch): (hs: set<string>)
    ensures forall h :: h in hs ==> h != "" && '/' !in h
  {
    var m := GetHeroesAndWinner(raw);
    if IsBye(m) then {} else {m.p1, m.p2}
  }

  /** The body of the match loop: skip a bye, register both heroes, apply the
      banner. It fails exactly on a non-bye match with an unknown banner; a bye
      leaves the table as it is; otherwise the heroes are those before plus
      the match's two. */
  function Step(t: Table, raw: RawMatch): (r: Result<Table, Error>)
    requires WellFormed(t)
    ensures r.Ok? ==> WellFormed(r.value)
    ensures r.Err? <==> KindOf(raw) == Unrecognized
    ensures r.Err? ==> r.error == UnrecognizedResult
    ensures KindOf(raw) == Bye ==> r == Ok(t)
    ensures r.Ok? ==> forall h :: h in r.value.index <==> h in t.index || h in MatchHeroes(raw)
  {
    var m := GetHeroesAndWinner(raw);
    if IsBye(m) then Ok(t)
    else
      RegisterPair(t, m.p1, m.p2);
      Apply(Registered(Registered(t, m.p1), m.p2), m.p1, m.p2, m.result)
  }

  /** Registering both heroes of a match: the table stays well formed and its
      heroes are those before plus the two. */
  lemma RegisterPair(t: Table, a: string, b: string)
    requires WellFormed(t)
    ensures WellFormed(Registered(Registered(t, a), b))
    ensures forall h :: h in Registered(Registered(t, a), b).index <==> h in t.index || h == a || h == b
  {
    RegisteredMembers(t, a);
    RegisteredMembers(Registered(t, a), b);
  }

  /** Registering a hero adds exactly that hero to the table's heroes. */
  lemma RegisteredMembers(t: Table, hero: string)
    requires WellFormed(t)
    ensures WellFormed(Registered(t, hero))
    ensures forall h :: h in Registered(t, hero).index <==> h in t.index || h == hero
  {
    var r := Registered(t, hero);
    if hero !in t.index {
      assert r.index == t.index + [hero];
    }
  }

  /** The matches of all round pages, page 1 first. */
  function Flatten(pages: seq<seq<RawMatch>>): (ms: seq<RawMatch>)
    ensures forall m :: m in ms <==> exists i :: 0 <= i < |pages| && m in pages[i]
  {
    if pages == [] then []
    else
      var rest := Flatten(pages[1..]);
      assert forall i :: 1 <= i < |pages| ==> pages[i] == pages[1..][i - 1];
      pages[0] + rest
  }

  /** The loop over matches: stops at the first error. */
  function Fold(t: Table, ms: seq<RawMatch>): (r: Result<Table, Error>)
    requires WellFormed(t)
    ensures r.Ok? ==> WellFormed(r.value)
    ensures r.Err? ==> r.error == UnrecognizedResult
    decreases |ms|
  {
    if ms == [] then Ok(t)
    else
      match Step(t, ms[0])
      case Err(e) => Err(e)
      case Ok(t') => Fold(t', ms[1..])
  }

  /** What `url_to_data_df` returns for the matches of its round pages. */
  function Aggregate(pages: seq<seq<RawMatch>>): (r: Result<Table, Error>)
    ensures r.Ok? ==> WellFormed(r.value) && Sorted(r.value.index) && r.value.columns == r.value.index
    ensures r.Ok? ==> forall a, b :: At(r.value, a, b).draws == At(r.value, b, a).draws
  {
    match Fold(Empty, Flatten(pages))
    case Err(e) => Err(e)
    case Ok(t) => Ok(SortTable(t))
  }

  /** Registering one hero on the DataFrame (a new column, then a new row)
      when it is not yet a column. */
  method Register(df: DataFrame, hero: string)
    requires WellFormed(df.Value())
    modifies df
    ensures df.Value() == Registered(old(df.Value()), hero)
  {
    if hero !in df.columns {
      df.AddColumn(hero);
      df.AddRow(hero);
    }
  }

  /** `wins, draws = data_df.at[w, l]; data_df.at[w, l] = (wins+1, draws)` */
  method RecordWin(df: DataFrame, w: string, l: string)
    requires (w, l) in df.cells
    modifies df
    ensures df.Value() == AddWin(old(df.Value()), w, l)
  {
    var c := df.CellAt(w, l);
    df.Put(w, l, Cell(c.wins + 1, c.draws));
  }

  /** The two draw updates, `(a, b)` first, then `(b, a)`. */
  method RecordDraw(df: DataFrame, a: string, b: string)
    requires (a, b) in df.cells && (b, a) in df.cells
    modifies df
    ensures df.Value() == AddDraw(AddDraw(old(df.Value()), a, b), b, a)
  {
    var c := df.CellAt(a, b);
    df.Put(a, b, Cell(c.wins, c.draws + 1));
    c := df.CellAt(b, a);
    df.Put(b, a, Cell(c.wins, c.draws + 1));
  }

  /** The banner dispatch on the DataFrame: false where the source raises. */
  method Record(df: DataFrame, p1: string, p2: string, result: string) returns (ok: bool)
    requires WellFormed(df.Value()) && p1 in df.index && p2 in df.index
    modifies df
    ensures ok <==> Apply(old(df.Value()), p1, p2, result).Ok?
    ensures ok ==> df.Value() == Apply(old(df.Value()), p1, p2, result).value
  {
    assert (p1, p2) in df.cells && (p2, p1) in df.cells;
    if result == PLAYER1_WINS {
      RecordWin(df, p1, p2);
    } else if result == PLAYER2_WINS {
      RecordWin(df, p2, p1);
    } else if result == DRAW {
      RecordDraw(df, p1, p2);
    } else {
      return false;
    }
    return true;
  }

  /** One pass of the loop body of `url_to_data_df` on the DataFrame: false
      when the match's banner is not recognised (where the source raises). */
  method ProcessMatch(df: DataFrame, raw: RawMatch) returns (ok: bool)
    requires WellFormed(df.Value())
    modifies df
    ensures ok ==> Step(old(df.Value()), raw) == Ok(df.Value())
    ensures !ok ==> Step(old(df.Value()), raw) == Err(UnrecognizedResult)
  {
    var m := GetHeroesAndWinner(raw);
    var p1, p2, result := m.p1, m.p2, m.result;
    // Bye
    if p1 == "" || p2 == "" {
      return true;
    }
    Register(df, p1);
    Register(df, p2);
    ok := Record(df, p1, p2, result);
  }

  /** The first match still to do decides: an error stops the loop,
      otherwise the rest is folded from the new table. */
  lemma FoldFront(t: Table, todo: seq<RawMatch>, rest: seq<RawMatch>)
    requires WellFormed(t) && todo != []
    ensures Step(t, todo[0]).Err? ==> Fold(t, todo + rest) == Err(UnrecognizedResult)
    ensures Step(t, todo[0]).Ok? ==> Fold(t, todo + rest) == Fold(Step(t, todo[0]).value, todo[1..] + rest)
  {
    assert (todo + rest)[0] == todo[0];
    assert (todo + rest)[1..] == todo[1..] + rest;
  }

  /** Folding `a + b` is folding `a`, then folding `b` from where `a` led;
      an error in `a` is the error of the whole. */
  lemma {:induction false} FoldAppend(t: Table, a: seq<RawMatch>, b: seq<RawMatch>)
    requires WellFormed(t)
    ensures Fold(t, a).Err? ==> Fold(t, a + b) == Err(UnrecognizedResult)
    ensures Fold(t, a).Ok? ==> Fold(t, a + b) == Fold(Fold(t, a).value, b)
    decreases |a|
  {
    if a == [] {
      assert a + b == b;
    } else {
      FoldFront(t, a, b);
      if Step(t, a[0]).Ok? {
        FoldAppend(Step(t, a[0]).value, a[1..], b);
      }
    }
  }

  /** The inner loop of `url_to_data_df` over the matches of one round page:
      it succeeds exactly when folding the page succeeds, and then leaves the
      DataFrame holding the folded table; false where the source raises. */
  method ProcessPage(df: DataFrame, matches: seq<RawMatch>) returns (ok: bool)
    requires WellFormed(df.Value())
    modifies df
    ensures ok <==> Fold(old(df.Value()), matches).Ok?
    ensures ok ==> Fold(old(df.Value()), matches) == Ok(df.Value())
  {
    var todo := matches;
    while todo != []
      invariant WellFormed(df.Value())
      invariant Fold(old(df.Value()), matches) == Fold(df.Value(), todo)
      decreases |todo|
    {
      ok := ProcessMatch(df, todo[0]);
      if !ok {
        return false;
      }
      todo := todo[1..];
    }
    return true;
  }

  /** The matches of the pages from `p` on are those of page `p`, then those of the later pages. */
  lemma FlattenFrom(pages: seq<seq<RawMatch>>, p: nat)
    requires p < |pages|
    ensures Flatten(pages[p..]) == pages[p] + Flatten(pages[p + 1..])
  {
    assert pages[p..][1..] == pages[p + 1..];
  }

  /** `url_to_data_df(url, n_rounds)`: the round addresses are built, and
      `pages[k]` stands for the match rows the page fetcher found at the
      `k`-th of them (the HTTP requests and the HTML parsing are not part of
      this model). */
  method UrlToDataDf(url: string, nRounds: nat, pages: seq<seq<RawMatch>>) returns (r: Result<Table, Error>)
    requires |pages| == nRounds
    ensures r == Aggregate(pages)
  {
    var ccRounds := RoundUrls(url, nRounds);
    var df := new DataFrame();
    var p := 0;
    while p < |ccRounds|
      invariant 0 <= p <= |ccRounds| == |pages|
      invariant WellFormed(df.Value())
      invariant Fold(df.Value(), Flatten(pages[p..])) == Fold(Empty, Flatten(pages))
    {
      FlattenFrom(pages, p);
      FoldAppend(df.Value(), pages[p], Flatten(pages[p + 1..]));
      var ok := ProcessPage(df, pages[p]);
      if !ok {
        return Err(UnrecognizedResult);
      }
      p := p + 1;
    }
    df.SortIndex();
    r := Ok(df.Value());
  }

  /** How many of `ms` are of kind `k`. */
  function Tally(ms: seq<RawMatch>, k: Kind): nat {
    if ms == [] then 0 else (if KindOf(ms[0]) == k then 1 else 0) + Tally(ms[1..], k)
  }

  /** Every match is of exactly one kind. */
  lemma {:induction false} TallyPartition(ms: seq<RawMatch>)
    ensures Tally(ms, Bye) + Tally(ms, Player1Win) + Tally(ms, Player2Win) + Tally(ms, Drawn)
            + Tally(ms, Unrecognized) == |ms|
  {
    if ms != [] { TallyPartition(ms[1..]); }
  }

  /** The hero names the non-bye matches of `ms` bring. */
  function Heroes(ms: seq<RawMatch>): set<string> {
    if ms == [] then {} else MatchHeroes(ms[0]) + Heroes(ms[1..])
  }

  /** Aggregation fails exactly when some non-bye match has an unknown banner. */
  lemma {:induction false} FoldFails(t: Table, ms: seq<RawMatch>)
    requires WellFormed(t)
    ensures Fold(t, ms).Err? <==> Tally(ms, Unrecognized) > 0
    decreases |ms|
  {
    if ms != [] && Step(t, ms[0]).Ok? {
      FoldFails(Step(t, ms[0]).value, ms[1..]);
    }
  }

  /** The row labels after the loop: those before, and every hero of a non-bye match. */
  lemma {:induction false} FoldHeroes(t: Table, ms: seq<RawMatch>)
    requires WellFormed(t) && Fold(t, ms).Ok?
    ensures forall h :: h in Fold(t, ms).value.index <==> h in t.index || h in Heroes(ms)
    decreases |ms|
  {
    if ms != [] {
      FoldHeroes(Step(t, ms[0]).value, ms[1..]);
    }
  }

  /** One match moves the totals by its kind: a win adds one win, a draw two
      draw entries (one per orientation), a bye nothing. */
  lemma StepCounts(t: Table, raw: RawMatch)
    requires WellFormed(t) && Step(t, raw).Ok?
    ensures TotalOf(Step(t, raw).value, Wins)
         == TotalOf(t, Wins) + (if KindOf(raw) == Player1Win || KindOf(raw) == Player2Win then 1 else 0)
    ensures TotalOf(Step(t, raw).value, Draws)
         == TotalOf(t, Draws) + (if KindOf(raw) == Drawn then 2 else 0)
  {
    var m := GetHeroesAndWinner(raw);
    if !IsBye(m) {
      var t1 := Registered(t, m.p1);
      var t2 := Registered(t1, m.p2);
      RegisteredTotals(t, m.p1, Wins);
      RegisteredTotals(t, m.p1, Draws);
      RegisteredTotals(t1, m.p2, Wins);
      RegisteredTotals(t1, m.p2, Draws);
      if m.result == PLAYER1_WINS {
        AddWinTotals(t2, m.p1, m.p2);
      } else if m.result == PLAYER2_WINS {
        AddWinTotals(t2, m.p2, m.p1);
      } else {
        AddDrawTotals(t2, m.p1, m.p2);
        AddDrawTotals(AddDraw(t2, m.p1, m.p2), m.p2, m.p1);
      }
    }
  }

  /** Games accounting over the loop. */
  lemma {:induction false} FoldCounts(t: Table, ms: seq<RawMatch>)
    requires WellFormed(t) && Fold(t, ms).Ok?
    ensures TotalOf(Fold(t, ms).value, Wins) == TotalOf(t, Wins) + Tally(ms, Player1Win) + Tally(ms, Player2Win)
    ensures TotalOf(Fold(t, ms).value, Draws) == TotalOf(t, Draws) + 2 * Tally(ms, Drawn)
    decreases |ms|
  {
    if ms != [] {
      StepCounts(t, ms[0]);
      FoldCounts(Step(t, ms[0]).value, ms[1..]);
    }
  }

  /** The aggregation raises exactly when a non-bye match of some round page
      has a banner other than the three known ones; then no table comes out. */
  lemma AggregateFails(pages: seq<seq<RawMatch>>)
    ensures Aggregate(pages).Err? <==> Tally(Flatten(pages), Unrecognized) > 0
  {
    FoldFails(Empty, Flatten(pages));
  }

  /** The heroes of the result are exactly the names seen in non-bye matches,
      none of them empty or holding a '/'. */
  lemma AggregateHeroes(pages: seq<seq<RawMatch>>)
    requires Aggregate(pages).Ok?
    ensures forall h :: h in Aggregate(pages).value.index <==> h in Heroes(Flatten(pages))
    ensures forall h :: h in Aggregate(pages).value.index ==> h != "" && '/' !in h
  {
    FoldHeroes(Empty, Flatten(pages));
    HeroesAreNames(Flatten(pages));
  }

  lemma {:induction false} HeroesAreNames(ms: seq<RawMatch>)
    ensures forall h :: h in Heroes(ms) ==> h != "" && '/' !in h
    decreases |ms|
  {
    if ms != [] { HeroesAreNames(ms[1..]); }
  }

  /** Games accounting: the win total is the number of decisive matches, the
      draw total twice the number of drawn ones, so wins plus half the draws
      is the number of matches that were not byes (mirror matches included). */
  lemma AggregateGames(pages: seq<seq<RawMatch>>)
    requires Aggregate(pages).Ok?
    ensures var t, ms := Aggregate(pages).value, Flatten(pages);
      && TotalOf(t, Wins) == Tally(ms, Player1Win) + Tally(ms, Player2Win)
      && TotalOf(t, Draws) == 2 * Tally(ms, Drawn)
      && TotalOf(t, Wins) + TotalOf(t, Draws) / 2 == |ms| - Tally(ms, Bye)
  {
    var ms := Flatten(pages);
    var t := Fold(Empty, ms).value;
    FoldCounts(Empty, ms);
    FoldFails(Empty, ms);
    TallyPartition(ms);
    SortTableTotals(t, Wins);
    SortTableTotals(t, Draws);
  }

  /** A mirror match registers its hero once: the match is applied to the
      table with that hero added, whose diagonal cell is the one from before. */
  lemma MirrorRegistered(t: Table, hero: string, result: string)
    requires WellFormed(t) && hero != "" && '/' !in hero
    ensures hero in Registered(t, hero).index
    ensures At(Registered(t, hero), hero, hero) == At(t, hero, hero)
    ensures Step(t, RawMatch(hero, hero, result)) == Apply(Registered(t, hero), hero, hero, result)
  {
    var t1 := Registered(t, hero);
    RegisteredMembers(t, hero);
    assert GetHeroesAndWinner(RawMatch(hero, hero, result)) == Match(hero, hero, result);
    assert Registered(t1, hero) == t1;
  }

  /** A first-player win in a mirror match adds one win on the diagonal. */
  lemma MirrorWin(t: Table, hero: string)
    requires WellFormed(t) && hero != "" && '/' !in hero
    ensures Step(t, RawMatch(hero, hero, PLAYER1_WINS)).Ok?
    ensures At(Step(t, RawMatch(hero, hero, PLAYER1_WINS)).value, hero, hero)
         == Cell(At(t, hero, hero).wins + 1, At(t, hero, hero).draws)
  {
    MirrorRegistered(t, hero, PLAYER1_WINS);
  }

  /** A drawn mirror match adds two draws on the diagonal, one per orientation. */
  lemma MirrorDraw(t: Table, hero: string)
    requires WellFormed(t) && hero != "" && '/' !in hero
    ensures Step(t, RawMatch(hero, hero, DRAW)).Ok?
    ensures At(Step(t, RawMatch(hero, hero, DRAW)).value, hero, hero)
         == Cell(At(t, hero, hero).wins, At(t, hero, hero).draws + 2)
  {
    MirrorRegistered(t, hero, DRAW);
  }

  /** The round pages `url_to_data_df` fetches: `{url}results/{x}/` for x = 1..n_rounds. */
  function RoundUrls(url: string, nRounds: nat): (urls: seq<string>)
    ensures |urls| == nRounds
  {
    seq(nRounds, k requires 0 <= k < nRounds => url + "results/" + NatToString(k + 1) + "/")
  }

  /** No round page is fetched twice. */
  lemma RoundUrlsDistinct(url: string, nRounds: nat)
    ensures Distinct(RoundUrls(url, nRounds))
  {
    var urls := RoundUrls(url, nRounds);
    var front := url + "results/";
    forall i, j | 0 <= i < j < nRounds ensures urls[i] != urls[j] {
      var a, b := NatToString(i + 1), NatToString(j + 1);
      if urls[i] == urls[j] {
        assert |a| == |b|;
        assert a == urls[i][|front|..|front| + |a|];
        assert b == urls[j][|front|..|front| + |b|];
        NatToStringInjective(i + 1, j + 1);
      }
    }
  }

  /** Two rounds: `a` beats `b` as first player, then `b` and `a` draw,
      then some hero `c` has a bye. The heroes come out in name order, the win
      in `a`'s row and the draw in both orientations. */
  lemma WinThenDraw(a: string, b: string, c: string)
    requires a != b && a != "" && b != "" && '/' !in a && '/' !in b && Le(b, a)
    ensures var r := Aggregate([[RawMatch(a, b, PLAYER1_WINS)], [RawMatch(b, a, DRAW), RawMatch(c, "", PLAYER2_WINS)]]);
      && r.Ok?
      && r.value.index == [b, a]
      && At(r.value, a, b) == Cell(1, 1)
      && At(r.value, b, a) == Cell(0, 1)
  {
    var pages := [[RawMatch(a, b, PLAYER1_WINS)], [RawMatch(b, a, DRAW), RawMatch(c, "", PLAYER2_WINS)]];
    var t2 := WinThenDrawFold(a, b, c);
    SortTwo(t2, a, b);
    assert Aggregate(pages) == Ok(SortTable(t2));
  }

  /** Sorting a table of two heroes puts the smaller name first. */
  lemma SortTwo(t: Table, a: string, b: string)
    requires t.index == [a, b] && Le(b, a)
    ensures SortTable(t).index == [b, a] && SortTable(t).cells == t.cells
  {
    var s := Sort([a, b]);
    assert Sorted([b, a]);
    assert multiset(s) == multiset([a, b]) == multiset([b, a]);
    SortedUnique(s, [b, a]);
  }

  /** The matches of `WinThenDraw` folded, before the final sort. */
  lemma WinThenDrawFold(a: string, b: string, c: string) returns (t2: Table)
    requires a != b && a != "" && b != "" && '/' !in a && '/' !in b
    ensures Fold(Empty, Flatten([[RawMatch(a, b, PLAYER1_WINS)], [RawMatch(b, a, DRAW), RawMatch(c, "", PLAYER2_WINS)]])) == Ok(t2)
    ensures t2.index == [a, b]
    ensures At(t2, a, b) == Cell(1, 1) && At(t2, b, a) == Cell(0, 1)
  {
    var m1 := RawMatch(a, b, PLAYER1_WINS);
    var m2 := RawMatch(b, a, DRAW);
    var m3 := RawMatch(c, "", PLAYER2_WINS);
    assert Flatten([[m1], [m2, m3]]) == [m1] + ([m2] + ([m3] + [])) by {
      assert [[m1], [m2, m3]][1..] == [[m2, m3]];
      assert [[m2, m3]][1..] == [];
      assert Flatten([[m2, m3]]) == [m2, m3] + Flatten([]);
      assert [m2, m3] == [m2] + ([m3] + []);
    }
    var t1 := FirstMeeting(a, b);
    t2 := DrawBetweenKnown(t1, b, a);
    FoldStep(Empty, m1, [m2] + ([m3] + []));
    FoldStep(t1, m2, [m3] + []);
    FoldStep(t2, m3, []);
  }

  /** Folding a match in front of others is one step, then the others. */
  lemma FoldStep(t: Table, m: RawMatch, ms: seq<RawMatch>)
    requires WellFormed(t) && Step(t, m).Ok?
    ensures Fold(t, [m] + ms) == Fold(Step(t, m).value, ms)
  {
    assert ([m] + ms)[0] == m;
    assert ([m] + ms)[1..] == ms;
  }

  /** Two new heroes meet and the first player wins: both are registered in
      order of appearance and the winner has one win against the loser. */
  lemma FirstMeeting(a: string, b: string) returns (t1: Table)
    requires a != b && a != "" && b != "" && '/' !in a && '/' !in b
    ensures WellFormed(Empty) && Step(Empty, RawMatch(a, b, PLAYER1_WINS)) == Ok(t1)
    ensures WellFormed(t1) && t1.index == [a, b]
    ensures At(t1, a, b) == Cell(1, 0) && At(t1, b, a) == Zero
  {
    var t0 := RegisterTwo(a, b);
    t1 := AddWin(t0, a, b);
    FirstWinStep(a, b);
    FirstWinCells(t0, a, b);
  }

  /** The first match between two new heroes, won by the first player, is
      registration of both followed by one win. */
  lemma FirstWinStep(a: string, b: string)
    requires a != "" && b != "" && '/' !in a && '/' !in b
    ensures WellFormed(Empty)
    ensures Step(Empty, RawMatch(a, b, PLAYER1_WINS)) == Ok(AddWin(Registered(Registered(Empty, a), b), a, b))
  {
    assert WellFormed(Empty);
    var raw := RawMatch(a, b, PLAYER1_WINS);
    assert GetHeroesAndWinner(raw) == Match(a, b, PLAYER1_WINS);
    RegisterPair(Empty, a, b);
  }

  /** One win on a table of two fresh heroes. */
  lemma FirstWinCells(t0: Table, a: string, b: string)
    requires a != b && WellFormed(t0) && t0.index == [a, b]
    requires At(t0, a, b) == Zero && At(t0, b, a) == Zero
    ensures WellFormed(AddWin(t0, a, b)) && AddWin(t0, a, b).index == [a, b]
    ensures At(AddWin(t0, a, b), a, b) == Cell(1, 0) && At(AddWin(t0, a, b), b, a) == Zero
  {
    AddWinEffect(t0, a, b);
    assert (b, a) != (a, b);
  }

  lemma RegisterTwo(a: string, b: string) returns (t0: Table)
    requires a != b
    ensures WellFormed(Empty) && t0 == Registered(Registered(Empty, a), b)
    ensures WellFormed(t0) && t0.index == [a, b]
    ensures At(t0, a, b) == Zero && At(t0, b, a) == Zero
  {
    assert WellFormed(Empty);
    var ta := Registered(Empty, a);
    assert ta.index == [a];
    t0 := Registered(ta, b);
    assert t0.index == [a, b];
    assert (a, b) in t0.cells && (b, a) in t0.cells;
  }

  /** A draw between two heroes already in the table adds one draw in each
      orientation and registers nobody. */
  lemma DrawBetweenKnown(t: Table, a: string, b: string) returns (t2: Table)
    requires WellFormed(t) && a in t.index && b in t.index && a != b
    requires a != "" && b != "" && '/' !in a && '/' !in b
    ensures Step(t, RawMatch(a, b, DRAW)) == Ok(t2)
    ensures t2.index == t.index
    ensures At(t2, a, b) == Cell(At(t, a, b).wins, At(t, a, b).draws + 1)
    ensures At(t2, b, a) == Cell(At(t, b, a).wins, At(t, b, a).draws + 1)
  {
    assert GetHeroesAndWinner(RawMatch(a, b, DRAW)) == Match(a, b, DRAW);
    assert Registered(t, a) == t && Registered(t, b) == t;
    t2 := Step(t, RawMatch(a, b, DRAW)).value;
  }
}
