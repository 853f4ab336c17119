/**
 Declaring the categories of an (event, sport) pair: one call deletes, updates and inserts
 rows until the table matches the declared list.
 */
module CategorySurvey {
  import opened Prelude

  type EventId = nat
  type SportId = nat

  datatype Gender = Male | Female | Mixed
  datatype Category = Category(id: nat, event: EventId, sport: SportId, name: string, gender: Option<Gender>,
                               teamMin: Option<nat>, teamMax: Option<nat>)
  datatype Item = Item(name: string, gender: Gender)
  datatype Status = Submitted | Approved | Rejected | Flagged | RevisionRequested
  datatype Review = Review(event: EventId, sport: SportId, status: Status)

  datatype SurveyError = IntegrityError

  predicate InPair(c: Category, event: EventId, sport: SportId) { c.event == event && c.sport == sport }

  /** The unique constraint on (event, sport, category). */
  predicate UniqueNames(rows: seq<Category>) {
    forall i, j | 0 <= i < j < |rows| ::
      !(InPair(rows[i], rows[j].event, rows[j].sport) && rows[i].name == rows[j].name)
  }

  predicate Ascending(rows: seq<Category>) {
    forall i, j | 0 <= i < j < |rows| :: rows[i].id < rows[j].id
  }

  /** The unique constraint on (event, sport) of the review headers. */
  predicate UniqueHeaders(reviews: seq<Review>) {
    forall i, j | 0 <= i < j < |reviews| ::
      !(reviews[i].event == reviews[j].event && reviews[i].sport == reviews[j].sport)
  }

  predicate HasHeader(reviews: seq<Review>, event: EventId, sport: SportId) {
    exists i :: 0 <= i < |reviews| && reviews[i].event == event && reviews[i].sport == sport
  }

  function Names(items: seq<Item>): set<string> { set i | 0 <= i < |items| :: items[i].name }

  function NamesOf(rows: seq<Category>, event: EventId, sport: SportId): set<string> {
    set i | 0 <= i < |rows| && InPair(rows[i], event, sport) :: rows[i].name
  }

  /** The gender declared last for the name, or the one it had. */
  function Declared(items: seq<Item>, name: string, was: Option<Gender>): Option<Gender> {
    if items == [] then was
    else if items[|items| - 1].name == name then Some(items[|items| - 1].gender)
    else Declared(items[..|items| - 1], name, was)
  }

  function Updated(c: Category, event: EventId, sport: SportId, items: seq<Item>): Category {
    if InPair(c, event, sport) then c.(gender := Declared(items, c.name, c.gender)) else c
  }

  function Kept(c: Category, event: EventId, sport: SportId, names: set<string>): bool {
    !InPair(c, event, sport) || c.name in names
  }

  /** The table after the DELETE statement. */
  function Survivors(rows: seq<Category>, event: EventId, sport: SportId, names: set<string>): seq<Category> {
    if rows == [] then []
    else
      var n := |rows| - 1;
      Survivors(rows[..n], event, sport, names) + if Kept(rows[n], event, sport, names) then [rows[n]] else []
  }

  function AllUpdated(rows: seq<Category>, event: EventId, sport: SportId, items: seq<Item>): seq<Category> {
    seq(|rows|, i requires 0 <= i < |rows| => Updated(rows[i], event, sport, items))
  }

  /** One row for every item whose name was not there, in the order declared. */
  function Inserted(
      nextId: nat, event: EventId, sport: SportId, existing: set<string>, items: seq<Item>): seq<Category>
  {
    if items == [] then []
    else
      var before := Inserted(nextId, event, sport, existing, items[..|items| - 1]);
      var item := items[|items| - 1];
      if item.name in existing then before
      else before + [Category(nextId + |before|, event, sport, item.name, Some(item.gender), None, None)]
  }

  function Reconciled(
      rows: seq<Category>, nextId: nat, event: EventId, sport: SportId, items: seq<Item>): seq<Category>
  {
    AllUpdated(Survivors(rows, event, sport, Names(items)), event, sport, items)
    + Inserted(nextId, event, sport, NamesOf(rows, event, sport), items)
  }

  /** No name that is new to the pair is declared twice. */
  predicate NewNamesOnce(existing: set<string>, items: seq<Item>) {
    forall i, j | 0 <= i < j < |items| :: items[i].name == items[j].name ==> items[i].name in existing
  }

  function OfPair(rows: seq<Category>, event: EventId, sport: SportId): seq<Category> {
    if rows == [] then []
    else
      var n := |rows| - 1;
      OfPair(rows[..n], event, sport) + if InPair(rows[n], event, sport) then [rows[n]] else []
  }

  // ---- the parts ------------------------------------------------------------------------

  lemma {:induction false} SurvivorsAre(rows: seq<Category>, event: EventId, sport: SportId, names: set<string>)
    ensures forall c :: c in Survivors(rows, event, sport, names) <==> c in rows && Kept(c, event, sport, names)
    ensures UniqueNames(rows) ==> UniqueNames(Survivors(rows, event, sport, names))
    ensures Ascending(rows) ==> Ascending(Survivors(rows, event, sport, names))
  {
    hide Kept, UniqueNames, Ascending;
    if rows == [] {
    } else {
      var n := |rows| - 1;
      var part := Survivors(rows[..n], event, sport, names);
      SurvivorsAre(rows[..n], event, sport, names);
      assert rows == rows[..n] + [rows[n]];
      ShorterTable(rows);
      forall c | c in part ensures c in rows[..n] {}
      OneMoreRow(rows[..n], part, rows[n]);
      assert part + [] == part;
    }
  }

  lemma ShorterTable(rows: seq<Category>)
    requires rows != []
    ensures UniqueNames(rows) ==> UniqueNames(rows[..|rows| - 1])
    ensures Ascending(rows) ==> Ascending(rows[..|rows| - 1])
  {}

  /** A row that fits behind a table fits behind a part of it. */
  lemma OneMoreRow(rows: seq<Category>, part: seq<Category>, c: Category)
    requires forall d | d in part :: d in rows
    ensures UniqueNames(rows + [c]) && UniqueNames(part) ==> UniqueNames(part + [c])
    ensures Ascending(rows + [c]) && Ascending(part) ==> Ascending(part + [c])
  {
    forall i | 0 <= i < |part| ensures exists k :: 0 <= k < |rows| && (rows + [c])[k] == part[i] {
      assert part[i] in rows;
      var k :| 0 <= k < |rows| && rows[k] == part[i];
      assert (rows + [c])[k] == part[i];
    }
    assert (rows + [c])[|rows|] == c;
  }

  lemma {:induction false} InsertedAre(
      nextId: nat, event: EventId, sport: SportId, existing: set<string>, items: seq<Item>)
    ensures var added := Inserted(nextId, event, sport, existing, items);
            && (forall k | 0 <= k < |added| :: InPair(added[k], event, sport) && added[k].id == nextId + k)
            && NamesOf(added, event, sport) == Names(items) - existing
  {
    if items != [] {
      var n := |items| - 1;
      InsertedAre(nextId, event, sport, existing, items[..n]);
      var before, added := Inserted(nextId, event, sport, existing, items[..n]),
        Inserted(nextId, event, sport, existing, items);
      assert Names(items) == Names(items[..n]) + {items[n].name};
      if items[n].name !in existing { NamesOfMore(before, added[|before|], event, sport); }
    }
  }

  lemma NamesOfMore(rows: seq<Category>, c: Category, event: EventId, sport: SportId)
    ensures NamesOf(rows + [c], event, sport)
            == NamesOf(rows, event, sport) + if InPair(c, event, sport) then {c.name} else {}
  {
    assert forall i | 0 <= i < |rows| :: (rows + [c])[i] == rows[i];
    assert (rows + [c])[|rows|] == c;
  }

  lemma UniqueMore(rows: seq<Category>, c: Category)
    ensures UniqueNames(rows + [c]) <==> UniqueNames(rows) && c.name !in NamesOf(rows, c.event, c.sport)
  {
    var more := rows + [c];
    assert more[|rows|] == c && forall i | 0 <= i < |rows| :: more[i] == rows[i];
    if UniqueNames(more) {
      forall i, j | 0 <= i < j < |rows|
        ensures !(InPair(rows[i], rows[j].event, rows[j].sport) && rows[i].name == rows[j].name)
      {
        assert more[i] == rows[i] && more[j] == rows[j];
      }
    }
  }

  lemma {:induction false} InsertedUnique(
      nextId: nat, event: EventId, sport: SportId, existing: set<string>, items: seq<Item>)
    ensures UniqueNames(Inserted(nextId, event, sport, existing, items)) <==> NewNamesOnce(existing, items)
  {
    if items != [] {
      var n := |items| - 1;
      var before, item := Inserted(nextId, event, sport, existing, items[..n]), items[n];
      InsertedUnique(nextId, event, sport, existing, items[..n]);
      InsertedAre(nextId, event, sport, existing, items[..n]);
      assert NewNamesOnce(existing, items) <==>
             NewNamesOnce(existing, items[..n]) && (item.name in existing || item.name !in Names(items[..n])) by {
        assert items == items[..n] + [item];
      }
      if item.name !in existing {
        UniqueMore(before, Category(nextId + |before|, event, sport, item.name, Some(item.gender), None, None));
      }
    }
  }

  lemma {:induction false} InsertedGender(
      nextId: nat, event: EventId, sport: SportId, existing: set<string>, items: seq<Item>, k: nat)
    requires NewNamesOnce(existing, items) && k < |Inserted(nextId, event, sport, existing, items)|
    ensures var c := Inserted(nextId, event, sport, existing, items)[k];
            c.gender.Some?
              && c.gender == Declared(items, c.name, None)
  {
    var n := |items| - 1;
    InsertedAre(nextId, event, sport, existing, items[..n]);
    var before := Inserted(nextId, event, sport, existing, items[..n]);
    if k < |before| {
      InsertedGender(nextId, event, sport, existing, items[..n], k);
      var c := before[k];
      assert c.name in NamesOf(before, event, sport);
      var i :| 0 <= i < n && items[..n][i].name == c.name;
      assert items[i].name == c.name && c.name !in existing;
    }
  }

  /** A declared name's gender does not depend on what it was. */
  lemma {:induction false} DeclaredForgets(items: seq<Item>, name: string, a: Option<Gender>, b: Option<Gender>)
    ensures name in Names(items) ==>
              Declared(items, name, a) == Declared(items, name, b) && Declared(items, name, a).Some?
    ensures name !in Names(items) ==> Declared(items, name, a) == a
  {
    if items != [] {
      var n := |items| - 1;
      assert Names(items) == Names(items[..n]) + {items[n].name};
      DeclaredForgets(items[..n], name, a, b);
    }
  }

  // ---- what a call leaves ---------------------------------------------------------------

  /** A row of the result is an old row with at most a new gender, or a new one. */
  lemma ReconciledRows(rows: seq<Category>, nextId: nat, event: EventId, sport: SportId, items: seq<Item>, c: Category)
    ensures c in Reconciled(rows, nextId, event, sport, items) <==>
            || (exists was ::
              was in rows && Kept(was, event, sport, Names(items)) && c == Updated(was, event, sport, items))
            || c in Inserted(nextId, event, sport, NamesOf(rows, event, sport), items)
  {
    var s := Survivors(rows, event, sport, Names(items));
    SurvivorsAre(rows, event, sport, Names(items));
    var u := AllUpdated(s, event, sport, items);
    if c in u {
      var i :| 0 <= i < |u| && u[i] == c;
      assert s[i] in s;
    }
    if was :| was in rows && Kept(was, event, sport, Names(items)) && c == Updated(was, event, sport, items) {
      var i :| 0 <= i < |s| && s[i] == was;
      assert u[i] == c;
    }
  }

  /** Two tables that share no name of a pair stay unique side by side. */
  lemma UniqueTogether(u: seq<Category>, added: seq<Category>)
    requires UniqueNames(u)
    requires forall i, k | 0 <= i < |u| && 0 <= k < |added| ::
               !(InPair(u[i], added[k].event, added[k].sport) && u[i].name == added[k].name)
    ensures UniqueNames(u + added) <==> UniqueNames(added)
  {
    hide InPair;
    var all := u + added;
    if UniqueNames(added) {
      forall i, j | 0 <= i < j < |all|
        ensures !(InPair(all[i], all[j].event, all[j].sport) && all[i].name == all[j].name)
      {
        if j < |u| { assert all[i] == u[i] && all[j] == u[j]; }
        else if i >= |u| { assert all[i] == added[i - |u|] && all[j] == added[j - |u|]; }
        else { assert all[i] == u[i] && all[j] == added[j - |u|]; }
      }
    }
    if UniqueNames(all) {
      forall i, j | 0 <= i < j < |added|
        ensures !(InPair(added[i], added[j].event, added[j].sport) && added[i].name == added[j].name)
      {
        assert all[|u| + i] == added[i] && all[|u| + j] == added[j];
      }
    }
  }

  lemma UpdatedUnique(rows: seq<Category>, event: EventId, sport: SportId, items: seq<Item>)
    requires UniqueNames(rows)
    ensures UniqueNames(AllUpdated(rows, event, sport, items))
  {
    hide Declared;
  }

  /** The call is accepted exactly when no new name is declared twice. */
  lemma AcceptedIff(rows: seq<Category>, nextId: nat, event: EventId, sport: SportId, items: seq<Item>)
    requires UniqueNames(rows)
    ensures UniqueNames(Reconciled(rows, nextId, event, sport, items)) <==>
            NewNamesOnce(NamesOf(rows, event, sport), items)
  {
    hide Inserted, Survivors, UniqueNames, NewNamesOnce, Declared;
    var existing := NamesOf(rows, event, sport);
    var s, added := Survivors(rows, event, sport, Names(items)), Inserted(nextId, event, sport, existing, items);
    var u := AllUpdated(s, event, sport, items);
    SurvivorsAre(rows, event, sport, Names(items));
    UpdatedUnique(s, event, sport, items);
    InsertedAre(nextId, event, sport, existing, items);
    InsertedUnique(nextId, event, sport, existing, items);
    forall i, k | 0 <= i < |u| && 0 <= k < |added|
      ensures !(InPair(u[i], added[k].event, added[k].sport) && u[i].name == added[k].name)
    {
      assert added[k].name in NamesOf(added, event, sport);
      if InPair(u[i], event, sport) { assert s[i] in rows && u[i].name in existing; }
    }
    UniqueTogether(u, added);
  }

  /** An accepted call leaves exactly the declared names, each with the gender declared last. */
  lemma DeclaredExactly(rows: seq<Category>, nextId: nat, event: EventId, sport: SportId, items: seq<Item>)
    requires UniqueNames(rows) && NewNamesOnce(NamesOf(rows, event, sport), items)
    ensures var after := Reconciled(rows, nextId, event, sport, items);
            && NamesOf(after, event, sport) == Names(items)
            && forall c | c in after && InPair(c, event, sport) ::
              c.gender.Some? && c.gender == Declared(items, c.name, None)
  {
    hide Inserted, Survivors, Reconciled;
    var existing := NamesOf(rows, event, sport);
    var after, added := Reconciled(rows, nextId, event, sport, items), Inserted(nextId, event, sport, existing, items);
    InsertedAre(nextId, event, sport, existing, items);
    forall c | c in after && InPair(c, event, sport)
      ensures c.gender.Some? && c.gender == Declared(items, c.name, None) && c.name in Names(items)
    {
      ReconciledRows(rows, nextId, event, sport, items, c);
      if c in added {
        var k :| 0 <= k < |added| && added[k] == c;
        InsertedGender(nextId, event, sport, existing, items, k);
        assert c.name in NamesOf(added, event, sport);
      } else {
        var was :| was in rows && Kept(was, event, sport, Names(items)) && c == Updated(was, event, sport, items);
        DeclaredForgets(items, c.name, was.gender, None);
      }
    }
    forall name | name in Names(items) ensures name in NamesOf(after, event, sport) {
      var c: Category;
      if name in existing {
        var i :| 0 <= i < |rows| && InPair(rows[i], event, sport) && rows[i].name == name;
        c := Updated(rows[i], event, sport, items);
        assert rows[i] in rows && Kept(rows[i], event, sport, Names(items));
      } else {
        assert name in NamesOf(added, event, sport);
        var k :| 0 <= k < |added| && InPair(added[k], event, sport) && added[k].name == name;
        c := added[k];
      }
      ReconciledRows(rows, nextId, event, sport, items, c);
      var j :| 0 <= j < |after| && after[j] == c;
    }
  }

  /**
   Rows of declared names keep their id and team size; rows of other pairs are not touched at all; no other row was
   there before.
   */
  lemma SurvivorsKeepIds(rows: seq<Category>, nextId: nat, event: EventId, sport: SportId, items: seq<Item>)
    requires forall c | c in rows :: c.id < nextId
    ensures var after := Reconciled(rows, nextId, event, sport, items);
            && (forall c | c in rows && InPair(c, event, sport) && c.name in Names(items) ::
              c.(gender := Declared(items, c.name, c.gender)) in after)
            && (forall c | !InPair(c, event, sport) :: c in after <==> c in rows)
            && (forall c | c in after && c.id < nextId :: exists was :: was in rows && was.(gender := c.gender) == c)
  {
    hide Inserted, Survivors, Reconciled, Declared;
    var after := Reconciled(rows, nextId, event, sport, items);
    InsertedAre(nextId, event, sport, NamesOf(rows, event, sport), items);
    forall c | c in rows && InPair(c, event, sport) && c.name in Names(items)
      ensures c.(gender := Declared(items, c.name, c.gender)) in after
    {
      assert Kept(c, event, sport, Names(items));
      ReconciledRows(rows, nextId, event, sport, items, Updated(c, event, sport, items));
    }
    forall c | !InPair(c, event, sport) ensures c in after <==> c in rows {
      ReconciledRows(rows, nextId, event, sport, items, c);
      if c in rows { assert Kept(c, event, sport, Names(items)) && c == Updated(c, event, sport, items); }
    }
    forall c | c in after && c.id < nextId ensures exists was :: was in rows && was.(gender := c.gender) == c {
      ReconciledRows(rows, nextId, event, sport, items, c);
      var was :| was in rows && Kept(was, event, sport, Names(items)) && c == Updated(was, event, sport, items);
      assert was.(gender := c.gender) == c;
    }
  }

  lemma {:induction false} NothingToDelete(rows: seq<Category>, event: EventId, sport: SportId, names: set<string>)
    requires forall c | c in rows :: Kept(c, event, sport, names)
    ensures Survivors(rows, event, sport, names) == rows
  {
    if rows != [] {
      assert rows[|rows| - 1] in rows;
      NothingToDelete(rows[..|rows| - 1], event, sport, names);
    }
  }

  lemma {:induction false} NothingToInsert(
      nextId: nat, event: EventId, sport: SportId, existing: set<string>, items: seq<Item>)
    requires Names(items) <= existing
    ensures Inserted(nextId, event, sport, existing, items) == []
  {
    if items != [] {
      var n := |items| - 1;
      assert items[n].name in Names(items);
      assert Names(items) == Names(items[..n]) + {items[n].name};
      NothingToInsert(nextId, event, sport, existing, items[..n]);
    }
  }

  /** Declaring the same list again changes nothing. */
  lemma ReconciledTwice(rows: seq<Category>, nextId: nat, event: EventId, sport: SportId, items: seq<Item>, later: nat)
    requires UniqueNames(rows) && NewNamesOnce(NamesOf(rows, event, sport), items)
    ensures var after := Reconciled(rows, nextId, event, sport, items);
            Reconciled(after, later, event, sport, items) == after
  {
    hide Inserted, Survivors;
    var after := Reconciled(rows, nextId, event, sport, items);
    DeclaredExactly(rows, nextId, event, sport, items);
    assert NamesOf(after, event, sport) == Names(items);
    forall c | c in after ensures Kept(c, event, sport, Names(items)) && Updated(c, event, sport, items) == c {
      if InPair(c, event, sport) {
        var i :| 0 <= i < |after| && after[i] == c;
        assert c.name in NamesOf(after, event, sport);
        DeclaredForgets(items, c.name, c.gender, None);
      }
    }
    NothingToDelete(after, event, sport, Names(items));
    NothingToInsert(later, event, sport, NamesOf(after, event, sport), items);
    assert AllUpdated(after, event, sport, items) == after;
  }

  // ---- the service ----------------------------------------------------------------------

  /** One item moves the rows on by one step. */
  lemma UpdateOne(rows: seq<Category>, event: EventId, sport: SportId, items: seq<Item>, n: nat, k: nat)
    requires UniqueNames(rows) && n < |items| && k < |rows|
    requires InPair(rows[k], event, sport) && rows[k].name == items[n].name
    ensures var before := AllUpdated(rows, event, sport, items[..n]);
            AllUpdated(rows, event, sport, items[..n + 1]) == before[k := before[k].(gender := Some(items[n].gender))]
  {
    assert items[..n + 1][..n] == items[..n];
    var before, after := AllUpdated(rows, event, sport, items[..n]), AllUpdated(rows, event, sport, items[..n + 1]);
    forall i | 0 <= i < |rows| && i != k ensures after[i] == before[i] {
      assert i < k || k < i;
    }
  }

  lemma NoUpdate(rows: seq<Category>, event: EventId, sport: SportId, items: seq<Item>, n: nat)
    requires n < |items| && items[n].name !in NamesOf(rows, event, sport)
    ensures AllUpdated(rows, event, sport, items[..n + 1]) == AllUpdated(rows, event, sport, items[..n])
  {
    assert items[..n + 1][..n] == items[..n];
    forall i | 0 <= i < |rows|
      ensures Updated(rows[i], event, sport, items[..n + 1]) == Updated(rows[i], event, sport, items[..n])
    {
      if InPair(rows[i], event, sport) { assert rows[i].name in NamesOf(rows, event, sport); }
    }
  }

  /** After the DELETE, the names of the pair that are left are those both there and declared. */
  lemma NamesLeft(rows: seq<Category>, event: EventId, sport: SportId, names: set<string>)
    ensures NamesOf(Survivors(rows, event, sport, names), event, sport) == NamesOf(rows, event, sport) * names
  {
    hide Survivors;
    var s := Survivors(rows, event, sport, names);
    SurvivorsAre(rows, event, sport, names);
    forall i | 0 <= i < |s| && InPair(s[i], event, sport) ensures s[i].name in NamesOf(rows, event, sport) * names {
      assert s[i] in s;
    }
    forall i | 0 <= i < |rows| && InPair(rows[i], event, sport) && rows[i].name in names
      ensures rows[i].name in NamesOf(s, event, sport)
    {
      assert rows[i] in s;
    }
  }

  /** An accepted call keeps the table's constraints. */
  lemma ReconciledAscends(rows: seq<Category>, nextId: nat, event: EventId, sport: SportId, items: seq<Item>)
    requires Ascending(rows) && forall c | c in rows :: c.id < nextId
    ensures var after := Reconciled(rows, nextId, event, sport, items);
            && Ascending(after)
            && forall c | c in after ::
              c.id < nextId + |Inserted(nextId, event, sport, NamesOf(rows, event, sport), items)|
  {
    hide Inserted, Survivors;
    SurvivorsAre(rows, event, sport, Names(items));
    InsertedAre(nextId, event, sport, NamesOf(rows, event, sport), items);
    var s := Survivors(rows, event, sport, Names(items));
    forall i | 0 <= i < |s| ensures s[i].id < nextId { assert s[i] in rows; }
  }

  class CategorySurveyService {
    var categories: seq<Category>
    var reviews: seq<Review>
    var nextId: nat

    ghost predicate Valid()
      reads this
    {
      && UniqueNames(categories) && Ascending(categories) && UniqueHeaders(reviews)
      && forall c | c in categories :: c.id < nextId
    }

    constructor ()
      ensures Valid() && categories == [] && reviews == []
    {
      categories, reviews, nextId := [], [], 0;
    }

    /** Names that are new and declared twice break the unique constraint at commit: the transaction leaves nothing. */
    method UpsertCategories(event: EventId, sport: SportId, items: seq<Item>)
      returns (result: Result<seq<Category>, SurveyError>)
      requires Valid()
      modifies this
      ensures Valid() && nextId >= old(nextId)
      ensures result.Ok? <==> NewNamesOnce(NamesOf(old(categories), event, sport), items)
      ensures result.Err? ==> categories == old(categories) && reviews == old(reviews)
      ensures result.Ok? ==> categories == Reconciled(old(categories), old(nextId), event, sport, items)
      ensures result.Ok? ==> result.value == OfPair(categories, event, sport)
      ensures result.Ok? ==>
                reviews == old(reviews)
                           + if HasHeader(old(reviews), event, sport) then [] else [Review(event, sport, Submitted)]
    {
      hide Inserted, Survivors, Declared, OfPair;
      var existingNames := NamesOf(categories, event, sport);
      var rows := Delete(event, sport, Names(items));
      ghost var left := rows;
      var pending: seq<Category> := [];
      SurvivorsAre(categories, event, sport, Names(items));
      NamesLeft(categories, event, sport, Names(items));
      NothingInserted(nextId, event, sport, existingNames);
      assert rows == AllUpdated(left, event, sport, items[..0]) by { UpdatedByNone(left, event, sport); }
      for i := 0 to |items|
        invariant categories == old(categories) && reviews == old(reviews) && nextId == old(nextId)
        invariant rows == AllUpdated(left, event, sport, items[..i])
        invariant pending == Inserted(nextId, event, sport, existingNames, items[..i])
      {
        var item := items[i];
        assert item.name in Names(items);
        InsertedStep(nextId, event, sport, existingNames, items, i);
        if item.name in existingNames {
          var k := First(left, rows, event, sport, items, i);
          UpdateOne(left, event, sport, items, i, k);
          if rows[k].gender != Some(item.gender) {
            rows := rows[k := rows[k].(gender := Some(item.gender))];
          }
        } else {
          NoUpdate(left, event, sport, items, i);
          pending := pending + [Category(nextId + |pending|, event, sport, item.name, Some(item.gender), None, None)];
        }
      }
      assert items[..|items|] == items;
      AcceptedIff(categories, nextId, event, sport, items);
      ReconciledAscends(categories, nextId, event, sport, items);
      if !UniqueNames(rows + pending) { return Err(IntegrityError); }
      var hasHeader := HasHeader(reviews, event, sport);
      if !hasHeader { reviews := reviews + [Review(event, sport, Submitted)]; }
      categories, nextId := rows + pending, nextId + |pending|;
      return Ok(OfPair(categories, event, sport));
    }

    method Delete(event: EventId, sport: SportId, names: set<string>) returns (rows: seq<Category>)
      ensures rows == Survivors(categories, event, sport, names)
    {
      rows := [];
      for i := 0 to |categories|
        invariant rows == Survivors(categories[..i], event, sport, names)
      {
        assert categories[..i + 1][..i] == categories[..i];
        if Kept(categories[i], event, sport, names) { rows := rows + [categories[i]]; }
      }
      assert categories[..|categories|] == categories;
    }
  }

  /** The first row of the pair with the item's name. */
  method First(
      ghost left: seq<Category>, rows: seq<Category>, event: EventId, sport: SportId, items: seq<Item>, n: nat)
      returns (k: nat)
    requires n < |items| && rows == AllUpdated(left, event, sport, items[..n])
    requires items[n].name in NamesOf(left, event, sport)
    ensures k < |rows| && InPair(left[k], event, sport) && left[k].name == items[n].name
  {
    k := 0;
    ghost var j :| 0 <= j < |left| && InPair(left[j], event, sport) && left[j].name == items[n].name;
    while !(InPair(rows[k], event, sport) && rows[k].name == items[n].name)
      invariant k <= j
      decreases j - k
    {
      k := k + 1;
    }
  }

  lemma UpdatedByNone(rows: seq<Category>, event: EventId, sport: SportId)
    ensures AllUpdated(rows, event, sport, []) == rows
  {
  }

  lemma NothingInserted(nextId: nat, event: EventId, sport: SportId, existing: set<string>)
    ensures Inserted(nextId, event, sport, existing, []) == []
  {
  }

  lemma InsertedStep(nextId: nat, event: EventId, sport: SportId, existing: set<string>, items: seq<Item>, n: nat)
    requires n < |items|
    ensures var before := Inserted(nextId, event, sport, existing, items[..n]);
            Inserted(nextId, event, sport, existing, items[..n + 1])
            == before + if items[n].name in existing then []
              else [Category(nextId + |before|, event, sport, items[n].name, Some(items[n].gender), None, None)]
  {
    assert items[..n + 1][..n] == items[..n];
  }

  /** A row that was not there has no team size yet. */
  lemma {:induction false} NewRowsPlain(
      nextId: nat, event: EventId, sport: SportId, existing: set<string>, items: seq<Item>)
    ensures forall c | c in Inserted(nextId, event, sport, existing, items) ::
              c.teamMin == None && c.teamMax == None && c.name !in existing && c.event == event && c.sport == sport
  {
    if items != [] { NewRowsPlain(nextId, event, sport, existing, items[..|items| - 1]); }
  }
}
