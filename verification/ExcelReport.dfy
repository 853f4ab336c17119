/**
 The participant report of an organization: one row per attended sport, filled from
 grouped athlete and leader counts, and a final row of column sums.
 */
module ExcelReport {
  import opened Prelude

  type SportId = nat

  datatype Gender = Male | Female | Mixed
  datatype LeaderRole = Coach | Manager | Delegate | TeamLead | CoachTrainer | TeacherAssistant

  /** One group of a GROUP BY query. */
  datatype Group<K> = Group(key: K, count: nat)
  datatype AthleteKey = AthleteKey(sport: SportId, gender: Gender)
  datatype LeaderKey = LeaderKey(sport: SportId, role: LeaderRole, gender: Gender)

  /** A column of leaders. */
  datatype Cell = Cell(role: LeaderRole, gender: Gender)

  predicate CountedRole(role: LeaderRole) { role in {Delegate, Manager, Coach} }

  const COLUMNS: set<Cell> := {
    Cell(Delegate, Male), Cell(Delegate, Female), Cell(Manager, Male),
    Cell(Manager, Female), Cell(Coach, Male), Cell(Coach, Female)}

  datatype Row = Row(sport: Option<SportId>, cells: map<Cell, nat>, athleteMale: nat, athleteFemale: nat,
                     totalMale: nat, totalFemale: nat, total: nat)

  /** The count of the last group with the key, 0 without one. */
  function Last<K(==)>(rows: seq<Group<K>>, key: K): nat {
    if rows == [] then 0
    else if rows[|rows| - 1].key == key then rows[|rows| - 1].count
    else Last(rows[..|rows| - 1], key)
  }

  function Total(cells: map<Cell, nat>, g: Gender): nat
    requires {Cell(Delegate, g), Cell(Manager, g), Cell(Coach, g)} <= cells.Keys
  {
    cells[Cell(Delegate, g)] + cells[Cell(Manager, g)] + cells[Cell(Coach, g)]
  }

  function SportRow(sport: SportId, athletes: seq<Group<AthleteKey>>, leaders: seq<Group<LeaderKey>>): (r: Row)
    ensures r.cells.Keys == COLUMNS
  {
    var cells := map c | c in COLUMNS :: Last(leaders, LeaderKey(sport, c.role, c.gender));
    var am, af := Last(athletes, AthleteKey(sport, Male)), Last(athletes, AthleteKey(sport, Female));
    var tm, tf := Total(cells, Male) + am, Total(cells, Female) + af;
    Row(Some(sport), cells, am, af, tm, tf, tm + tf)
  }

  const NO_ROW: Row := Row(None, map c | c in COLUMNS :: 0, 0, 0, 0, 0, 0)

  function Plus(a: Row, b: Row): (r: Row)
    requires a.cells.Keys == b.cells.Keys == COLUMNS
    ensures r.cells.Keys == COLUMNS
  {
    Row(None, map c | c in COLUMNS :: a.cells[c] + b.cells[c],
        a.athleteMale + b.athleteMale, a.athleteFemale + b.athleteFemale,
        a.totalMale + b.totalMale, a.totalFemale + b.totalFemale, a.total + b.total)
  }

  /** The column-wise sum of the rows of the given sports. */
  function GrandTotal(sports: seq<SportId>, athletes: seq<Group<AthleteKey>>, leaders: seq<Group<LeaderKey>>): (r: Row)
    ensures r.cells.Keys == COLUMNS && r.sport == None
  {
    if sports == [] then NO_ROW
    else Plus(GrandTotal(sports[..|sports| - 1], athletes, leaders), SportRow(sports[|sports| - 1], athletes, leaders))
  }

  /** A delegate, manager or coach group of the sport with a gender that has no column. */
  predicate Unprintable(leaders: seq<Group<LeaderKey>>, sport: SportId) {
    exists i ::
      0 <= i < |leaders| && leaders[i].key.sport == sport && CountedRole(leaders[i].key.role)
        && leaders[i].key.gender == Mixed
  }

  method CountAthletes(sport: SportId, athletes: seq<Group<AthleteKey>>) returns (male: nat, female: nat)
    ensures male == Last(athletes, AthleteKey(sport, Male)) && female == Last(athletes, AthleteKey(sport, Female))
  {
    var counts: map<Gender, nat> := map[Male := 0, Female := 0];
    for i := 0 to |athletes|
      invariant {Male, Female} <= counts.Keys
      invariant counts[Male] == Last(athletes[..i], AthleteKey(sport, Male))
      invariant counts[Female] == Last(athletes[..i], AthleteKey(sport, Female))
    {
      assert athletes[..i + 1][..i] == athletes[..i];
      var g := athletes[i];
      if g.key.sport == sport { counts := counts[g.key.gender := g.count]; }
    }
    assert athletes[..|athletes|] == athletes;
    return counts[Male], counts[Female];
  }

  method CountLeaders(sport: SportId, leaders: seq<Group<LeaderKey>>) returns (counts: map<Cell, nat>)
    ensures COLUMNS <= counts.Keys && forall c | c in COLUMNS ::
              counts[c] == Last(leaders, LeaderKey(sport, c.role, c.gender))
    ensures counts.Keys == COLUMNS <==> !Unprintable(leaders, sport)
  {
    counts := map c | c in COLUMNS :: 0;
    for i := 0 to |leaders|
      invariant COLUMNS <= counts.Keys
      invariant forall c | c in COLUMNS :: counts[c] == Last(leaders[..i], LeaderKey(sport, c.role, c.gender))
      invariant forall c | c in counts && c !in COLUMNS :: CountedRole(c.role) && c.gender == Mixed
      invariant counts.Keys == COLUMNS <==> !Unprintable(leaders[..i], sport)
    {
      assert leaders[..i + 1][..i] == leaders[..i];
      var g := leaders[i];
      MoreLeaders(leaders, i, sport);
      if g.key.sport == sport && CountedRole(g.key.role) {
        counts := counts[Cell(g.key.role, g.key.gender) := g.count];
        if g.key.gender == Mixed {
          assert Cell(g.key.role, Mixed) in counts.Keys && Cell(g.key.role, Mixed) !in COLUMNS;
        }
      }
    }
    assert leaders[..|leaders|] == leaders;
  }

  lemma MoreLeaders(leaders: seq<Group<LeaderKey>>, i: nat, sport: SportId)
    requires i < |leaders|
    ensures Unprintable(leaders[..i + 1], sport) <==>
            Unprintable(leaders[..i], sport)
            || (leaders[i].key.sport == sport && CountedRole(leaders[i].key.role) && leaders[i].key.gender == Mixed)
  {
    var k := leaders[i].key;
    if k.sport == sport && CountedRole(k.role) && k.gender == Mixed { assert leaders[..i + 1][i] == leaders[i]; }
    if Unprintable(leaders[..i], sport) {
      var j :| 0 <= j < i && leaders[..i][j].key.sport == sport && CountedRole(leaders[..i][j].key.role)
        && leaders[..i][j].key.gender == Mixed;
      assert leaders[..i + 1][j] == leaders[..i][j];
    }
    if Unprintable(leaders[..i + 1], sport) {
      var j :| 0 <= j <= i && leaders[..i + 1][j].key.sport == sport && CountedRole(leaders[..i + 1][j].key.role)
        && leaders[..i + 1][j].key.gender == Mixed;
      if j < i { assert leaders[..i][j] == leaders[..i + 1][j]; }
    }
  }

  /** Adds the counts key by key; a key the totals do not have is a KeyError. */
  method AddCounts(totals: map<Cell, nat>, counts: map<Cell, nat>) returns (result: Option<map<Cell, nat>>)
    requires totals.Keys == COLUMNS && COLUMNS <= counts.Keys
    ensures result.Some? <==> counts.Keys == COLUMNS
    ensures result.Some? ==> result.value == map c | c in COLUMNS :: totals[c] + counts[c]
  {
    var sums := totals;
    var pending := counts.Keys;
    while pending != {}
      invariant pending <= counts.Keys && sums.Keys == COLUMNS
      invariant forall c | c in counts && c !in pending :: c in COLUMNS
      invariant forall c | c in COLUMNS :: sums[c] == if c in pending then totals[c] else totals[c] + counts[c]
    {
      var c :| c in pending;
      if c !in sums { return None; }
      sums := sums[c := sums[c] + counts[c]];
      pending := pending - {c};
    }
    assert counts.Keys <= COLUMNS;
    return Some(sums);
  }

  /** One sport: its row, and the totals with the row added. None stands for the KeyError. */
  method AddSport(sport: SportId, athletes: seq<Group<AthleteKey>>, leaders: seq<Group<LeaderKey>>, grand: Row)
    returns (result: Option<(Row, Row)>)
    requires grand.cells.Keys == COLUMNS
    ensures result == None <==> Unprintable(leaders, sport)
    ensures result.Some? ==>
              result.value == (SportRow(sport, athletes, leaders), Plus(grand, SportRow(sport, athletes, leaders)))
  {
    hide Last, Unprintable;
    var male, female := CountAthletes(sport, athletes);
    var counts := CountLeaders(sport, leaders);
    var totalMale, totalFemale := Total(counts, Male) + male, Total(counts, Female) + female;
    var cells := AddCounts(grand.cells, counts);
    if cells == None { return None; }
    var row := Row(Some(sport), counts, male, female, totalMale, totalFemale, totalMale + totalFemale);
    assert row.cells == SportRow(sport, athletes, leaders).cells;
    var sums := Row(None, cells.value, grand.athleteMale + male, grand.athleteFemale + female,
                    grand.totalMale + totalMale, grand.totalFemale + totalFemale,
                    grand.total + (totalMale + totalFemale));
    return Some((row, sums));
  }

  lemma NoSports(athletes: seq<Group<AthleteKey>>, leaders: seq<Group<LeaderKey>>)
    ensures GrandTotal([], athletes, leaders) == NO_ROW
  {}

  lemma OneMoreSport(sports: seq<SportId>, athletes: seq<Group<AthleteKey>>, leaders: seq<Group<LeaderKey>>)
    requires sports != []
    ensures GrandTotal(sports, athletes, leaders)
            == Plus(GrandTotal(sports[..|sports| - 1], athletes, leaders),
              SportRow(sports[|sports| - 1], athletes, leaders))
  {}

  /** The report: None stands for the KeyError. */
  method Report(
      sports: seq<SportId>, athletes: seq<Group<AthleteKey>>, leaders: seq<Group<LeaderKey>>)
      returns (data: Option<seq<Row>>)
    ensures data == None <==> exists s :: s in sports && Unprintable(leaders, s)
    ensures data.Some? ==> |data.value| == |sports| + 1
    ensures data.Some? ==> forall i | 0 <= i < |sports| :: data.value[i] == SportRow(sports[i], athletes, leaders)
    ensures data.Some? ==> data.value[|sports|] == GrandTotal(sports, athletes, leaders)
  {
    hide Last, Unprintable, SportRow, Plus, COLUMNS, NO_ROW, GrandTotal;
    var grand := NO_ROW;
    NoSports(athletes, leaders);
    var rows: seq<Row> := [];
    for i := 0 to |sports|
      invariant |rows| == i && forall j | 0 <= j < i :: rows[j] == SportRow(sports[j], athletes, leaders)
      invariant forall j | 0 <= j < i :: !Unprintable(leaders, sports[j])
      invariant grand.cells.Keys == COLUMNS && grand == GrandTotal(sports[..i], athletes, leaders)
    {
      assert sports[..i + 1][..i] == sports[..i];
      OneMoreSport(sports[..i + 1], athletes, leaders);
      var added := AddSport(sports[i], athletes, leaders, grand);
      if added == None {
        assert sports[i] in sports;
        return None;
      }
      rows, grand := rows + [added.value.0], added.value.1;
    }
    assert sports[..|sports|] == sports;
    data := Some(rows + [grand]);
  }

  // ---- conservation ---------------------------------------------------------------------

  ghost predicate UniqueKeys<K>(rows: seq<Group<K>>) {
    forall i, j | 0 <= i < j < |rows| :: rows[i].key != rows[j].key
  }

  ghost function SumWhere<K(!new)>(rows: seq<Group<K>>, p: K -> bool): nat {
    if rows == [] then 0
      else SumWhere(rows[..|rows| - 1], p) + (if p(rows[|rows| - 1].key) then rows[|rows| - 1].count else 0)
  }

  lemma {:induction false} SumOfNone<K(!new)>(rows: seq<Group<K>>, p: K -> bool)
    requires forall i | 0 <= i < |rows| :: !p(rows[i].key)
    ensures SumWhere(rows, p) == 0
  {
    if rows != [] { SumOfNone(rows[..|rows| - 1], p); }
  }

  /** With unique keys, the last group of a key is all there is of it. */
  lemma {:induction false} LastIsSum<K(!new)>(rows: seq<Group<K>>, key: K, p: K -> bool)
    requires UniqueKeys(rows) && forall k :: p(k) <==> k == key
    ensures Last(rows, key) == SumWhere(rows, p)
  {
    if rows != [] {
      var before := rows[..|rows| - 1];
      if rows[|rows| - 1].key == key {
        forall i | 0 <= i < |before| ensures !p(before[i].key) { assert before[i] == rows[i]; }
        SumOfNone(before, p);
      } else {
        LastIsSum(before, key, p);
      }
    }
  }

  lemma {:induction false} SumSplits<K(!new)>(rows: seq<Group<K>>, whole: K -> bool, a: K -> bool, b: K -> bool)
    requires forall k :: (whole(k) <==> a(k) || b(k)) && !(a(k) && b(k))
    ensures SumWhere(rows, whole) == SumWhere(rows, a) + SumWhere(rows, b)
  {
    if rows != [] { SumSplits(rows[..|rows| - 1], whole, a, b); }
  }

  ghost function AthletesIn(sports: set<SportId>, genders: set<Gender>): AthleteKey -> bool {
    (k: AthleteKey) => k.sport in sports && k.gender in genders
  }

  ghost function LeadersIn(sports: set<SportId>, cells: set<Cell>): LeaderKey -> bool {
    (k: LeaderKey) => k.sport in sports && Cell(k.role, k.gender) in cells
  }

  lemma AthletesOfSport(sport: SportId, athletes: seq<Group<AthleteKey>>)
    requires UniqueKeys(athletes)
    ensures Last(athletes, AthleteKey(sport, Male)) + Last(athletes, AthleteKey(sport, Female))
            == SumWhere(athletes, AthletesIn({sport}, {Male, Female}))
  {
    LastIsSum(athletes, AthleteKey(sport, Male), AthletesIn({sport}, {Male}));
    LastIsSum(athletes, AthleteKey(sport, Female), AthletesIn({sport}, {Female}));
    SumSplits(athletes, AthletesIn({sport}, {Male, Female}), AthletesIn({sport}, {Male}),
      AthletesIn({sport}, {Female}));
  }

  lemma LeadersOfCell(sport: SportId, leaders: seq<Group<LeaderKey>>, c: Cell, cells: set<Cell>)
    requires UniqueKeys(leaders) && c !in cells
    ensures SumWhere(leaders, LeadersIn({sport}, cells + {c}))
            == SumWhere(leaders, LeadersIn({sport}, cells)) + Last(leaders, LeaderKey(sport, c.role, c.gender))
  {
    LastIsSum(leaders, LeaderKey(sport, c.role, c.gender), LeadersIn({sport}, {c}));
    SumSplits(leaders, LeadersIn({sport}, cells + {c}), LeadersIn({sport}, cells), LeadersIn({sport}, {c}));
  }

  lemma LeadersOfSport(sport: SportId, leaders: seq<Group<LeaderKey>>)
    requires UniqueKeys(leaders)
    ensures Total(SportRow(sport, [], leaders).cells, Male) + Total(SportRow(sport, [], leaders).cells, Female)
            == SumWhere(leaders, LeadersIn({sport}, COLUMNS))
  {
    var c1, c2, c3 := {Cell(Delegate, Male)}, {Cell(Delegate, Male), Cell(Delegate, Female)},
      {Cell(Delegate, Male), Cell(Delegate, Female), Cell(Manager, Male)};
    var c4, c5 := c3 + {Cell(Manager, Female)}, c3 + {Cell(Manager, Female)} + {Cell(Coach, Male)};
    SumOfNone(leaders, LeadersIn({sport}, {}));
    LeadersOfCell(sport, leaders, Cell(Delegate, Male), {});
    assert {} + {Cell(Delegate, Male)} == c1;
    LeadersOfCell(sport, leaders, Cell(Delegate, Female), c1);
    assert c1 + {Cell(Delegate, Female)} == c2;
    LeadersOfCell(sport, leaders, Cell(Manager, Male), c2);
    assert c2 + {Cell(Manager, Male)} == c3;
    LeadersOfCell(sport, leaders, Cell(Manager, Female), c3);
    LeadersOfCell(sport, leaders, Cell(Coach, Male), c4);
    LeadersOfCell(sport, leaders, Cell(Coach, Female), c5);
    assert c5 + {Cell(Coach, Female)} == COLUMNS;
  }

  lemma RowConserves(sport: SportId, athletes: seq<Group<AthleteKey>>, leaders: seq<Group<LeaderKey>>)
    requires UniqueKeys(athletes) && UniqueKeys(leaders)
    ensures SportRow(sport, athletes, leaders).total
            == SumWhere(athletes, AthletesIn({sport}, {Male, Female})) + SumWhere(leaders, LeadersIn({sport}, COLUMNS))
  {
    AthletesOfSport(sport, athletes);
    LeadersOfSport(sport, leaders);
    assert SportRow(sport, athletes, leaders).cells == SportRow(sport, [], leaders).cells;
  }

  ghost function SetOf(sports: seq<SportId>): set<SportId> { set s | s in sports }

  ghost predicate Distinct(sports: seq<SportId>) { forall i, j | 0 <= i < j < |sports| :: sports[i] != sports[j] }

  /** The grand total is everything fetched with a column for it: nothing lost, nothing counted twice. */
  lemma {:induction false} ReportConserves(
      sports: seq<SportId>, athletes: seq<Group<AthleteKey>>, leaders: seq<Group<LeaderKey>>)
    requires Distinct(sports) && UniqueKeys(athletes) && UniqueKeys(leaders)
    ensures GrandTotal(sports, athletes, leaders).total
            == SumWhere(athletes, AthletesIn(SetOf(sports), {Male, Female}))
              + SumWhere(leaders, LeadersIn(SetOf(sports), COLUMNS))
    ensures var g := GrandTotal(sports, athletes, leaders); g.total == g.totalMale + g.totalFemale
  {
    if sports == [] {
      SumOfNone(athletes, AthletesIn(SetOf(sports), {Male, Female}));
      SumOfNone(leaders, LeadersIn(SetOf(sports), COLUMNS));
    } else {
      var before, s := sports[..|sports| - 1], sports[|sports| - 1];
      ReportConserves(before, athletes, leaders);
      RowConserves(s, athletes, leaders);
      assert s !in SetOf(before);
      assert SetOf(sports) == SetOf(before) + {s};
      SumSplits(athletes, AthletesIn(SetOf(sports), {Male, Female}), AthletesIn(SetOf(before), {Male, Female}),
        AthletesIn({s}, {Male, Female}));
      SumSplits(leaders, LeadersIn(SetOf(sports), COLUMNS), LeadersIn(SetOf(before), COLUMNS), LeadersIn({s}, COLUMNS));
    }
  }

  /** Each column of the final row is everything fetched for that column, and each total is the sum of its parts. */
  lemma {:induction false} ColumnsConserve(
      sports: seq<SportId>, athletes: seq<Group<AthleteKey>>, leaders: seq<Group<LeaderKey>>, c: Cell)
    requires Distinct(sports) && UniqueKeys(athletes) && UniqueKeys(leaders) && c in COLUMNS
    ensures var g := GrandTotal(sports, athletes, leaders);
            g.cells[c]
              == SumWhere(leaders, LeadersIn(SetOf(sports), {c}))
    ensures var g := GrandTotal(sports, athletes, leaders);
            g.athleteMale
              == SumWhere(athletes, AthletesIn(SetOf(sports), {Male}))
    ensures var g := GrandTotal(sports, athletes, leaders);
            g.athleteFemale
              == SumWhere(athletes, AthletesIn(SetOf(sports), {Female}))
    ensures var g := GrandTotal(sports, athletes, leaders);
            g.totalMale == Total(g.cells, Male) + g.athleteMale
              && g.totalFemale == Total(g.cells, Female) + g.athleteFemale
  {
    hide COLUMNS, Last, UniqueKeys;
    if sports == [] {
      SumOfNone(leaders, LeadersIn(SetOf(sports), {c}));
      SumOfNone(athletes, AthletesIn(SetOf(sports), {Male}));
      SumOfNone(athletes, AthletesIn(SetOf(sports), {Female}));
      EmptyTotals();
    } else {
      var before, s := sports[..|sports| - 1], sports[|sports| - 1];
      ColumnsConserve(before, athletes, leaders, c);
      LastIsSum(leaders, LeaderKey(s, c.role, c.gender), LeadersIn({s}, {c}));
      LastIsSum(athletes, AthleteKey(s, Male), AthletesIn({s}, {Male}));
      LastIsSum(athletes, AthleteKey(s, Female), AthletesIn({s}, {Female}));
      assert s !in SetOf(before);
      assert SetOf(sports) == SetOf(before) + {s};
      SumSplits(leaders, LeadersIn(SetOf(sports), {c}), LeadersIn(SetOf(before), {c}), LeadersIn({s}, {c}));
      SumSplits(athletes, AthletesIn(SetOf(sports), {Male}), AthletesIn(SetOf(before), {Male}),
        AthletesIn({s}, {Male}));
      SumSplits(athletes, AthletesIn(SetOf(sports), {Female}), AthletesIn(SetOf(before), {Female}),
        AthletesIn({s}, {Female}));
      TotalsAdd(before, s, athletes, leaders);
    }
  }

  lemma EmptyTotals()
    ensures NO_ROW.cells.Keys == COLUMNS && forall c | c in COLUMNS :: NO_ROW.cells[c] == 0
    ensures Total(NO_ROW.cells, Male) == 0 && Total(NO_ROW.cells, Female) == 0
  {}

  lemma TotalsAdd(before: seq<SportId>, s: SportId, athletes: seq<Group<AthleteKey>>, leaders: seq<Group<LeaderKey>>)
    ensures var g, r := GrandTotal(before, athletes, leaders), SportRow(s, athletes, leaders);
            forall x | x in {Male, Female} :: Total(Plus(g, r).cells, x) == Total(g.cells, x) + Total(r.cells, x)
    ensures var r := SportRow(s, athletes, leaders);
            r.totalMale == Total(r.cells, Male) + r.athleteMale
              && r.totalFemale == Total(r.cells, Female) + r.athleteFemale
  {
    hide GrandTotal, Last;
  }

  /**
   Athletes registered as MIXED are fetched but appear in no column: the total counts all athletes iff there are
   none.
   */
  lemma AllAthletesCountedIff(sports: seq<SportId>, athletes: seq<Group<AthleteKey>>, leaders: seq<Group<LeaderKey>>)
    requires Distinct(sports) && UniqueKeys(athletes) && UniqueKeys(leaders)
    ensures GrandTotal(sports, athletes, leaders).total
              == SumWhere(athletes, AthletesIn(SetOf(sports), {Male, Female, Mixed}))
                + SumWhere(leaders, LeadersIn(SetOf(sports), COLUMNS))
       <==> SumWhere(athletes, AthletesIn(SetOf(sports), {Mixed})) == 0
  {
    ReportConserves(sports, athletes, leaders);
    SumSplits(athletes, AthletesIn(SetOf(sports), {Male, Female, Mixed}), AthletesIn(SetOf(sports), {Male, Female}),
      AthletesIn(SetOf(sports), {Mixed}));
  }
}
