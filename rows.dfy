/** One row of the CRAQUE dataset, and the selections the dashboards make on
    row sets: boolean-mask filters, dropdown choices with an "all" sentinel,
    sorted option menus and the age slider. */
module Rows {
  import opened Sequences

  datatype Option<T> = None | Some(value: T)

  /** One player-season. The identity columns are typed; `stats` carries the
      metric columns (ratings, WAR, counts, percentages) as opaque payload
      keyed by column label. The English dashboard calls the columns Player,
      Team, League, Season and Age; the Portuguese ones call them Player,
      Squad, Campeonato, Ano and Idade. */
  datatype Row = Row(
    player: string,
    team: string,
    league: string,
    season: string,
    age: int,
    stats: map<string, real>)

  /** A loaded table: its column labels and its rows. */
  datatype Frame = Frame(columns: set<string>, rows: seq<Row>)

  /** The text columns a dropdown can filter on. */
  datatype Field = Player | Team | League | Season

  function Get(r: Row, f: Field): string {
    match f
    case Player => r.player
    case Team => r.team
    case League => r.league
    case Season => r.season
  }

  /** The boolean masks the scripts index a table with. */
  datatype Mask =
    | FieldIs(field: Field, value: string)    // data[field] == value
    | AgeIn(lo: int, hi: int)                  // (Age >= lo) & (Age <= hi)
    | PlayerIn(first: string, second: string)  // Player.isin([first, second])

  predicate Holds(m: Mask, r: Row) {
    match m
    case FieldIs(f, v) => Get(r, f) == v
    case AgeIn(lo, hi) => lo <= r.age && r.age <= hi
    case PlayerIn(p1, p2) => r.player == p1 || r.player == p2
  }

  /** `data[mask]`: the rows the mask holds for, in their original order. */
  function Keep(rows: seq<Row>, m: Mask): (kept: seq<Row>)
    ensures forall x :: x in kept <==> x in rows && Holds(m, x)
  {
    if |rows| == 0 then []
    else
      assert rows == [rows[0]] + rows[1..];
      (if Holds(m, rows[0]) then [rows[0]] else []) + Keep(rows[1..], m)
  }

  /** A mask selection keeps the rows it keeps in their original order and
      alters none of them. */
  lemma {:induction false} KeepInOrder(rows: seq<Row>, m: Mask)
    ensures IsSubsequence(Keep(rows, m), rows)
  {
    if |rows| > 0 {
      KeepInOrder(rows[1..], m);
      var rest := Keep(rows[1..], m);
      if Holds(m, rows[0]) {
        assert Keep(rows, m) == [rows[0]] + rest;
        assert ([rows[0]] + rest)[1..] == rest;
      } else {
        assert Keep(rows, m) == rest;
      }
    }
  }

  /** A mask selection keeps every row the mask holds for as often as it
      occurs, and no other row. */
  lemma {:induction false} KeepCounts(rows: seq<Row>, m: Mask)
    ensures forall x :: multiset(Keep(rows, m))[x] == if Holds(m, x) then multiset(rows)[x] else 0
  {
    if |rows| > 0 {
      KeepCounts(rows[1..], m);
      assert rows == [rows[0]] + rows[1..];
      assert multiset(rows) == multiset{rows[0]} + multiset(rows[1..]);
      var rest := Keep(rows[1..], m);
      if Holds(m, rows[0]) {
        assert multiset(Keep(rows, m)) == multiset{rows[0]} + multiset(rest);
      } else {
        assert Keep(rows, m) == rest;
      }
    }
  }

  /** A mask selection keeps exactly the rows the mask holds for, each as
      often as it occurs, in their original order, and alters none. */
  lemma KeepExact(rows: seq<Row>, m: Mask)
    ensures IsSubsequence(Keep(rows, m), rows)
    ensures forall x :: multiset(Keep(rows, m))[x] == if Holds(m, x) then multiset(rows)[x] else 0
  {
    KeepInOrder(rows, m);
    KeepCounts(rows, m);
  }

  /** A mask that holds for every row removes nothing. */
  lemma {:induction false} KeepAll(rows: seq<Row>, m: Mask)
    requires forall x :: x in rows ==> Holds(m, x)
    ensures Keep(rows, m) == rows
  {
    if |rows| > 0 {
      assert rows[0] in rows;
      assert forall x :: x in rows[1..] ==> x in rows;
      KeepAll(rows[1..], m);
      assert rows == [rows[0]] + rows[1..];
    }
  }

  /** A mask that holds for no row removes every row. */
  lemma {:induction false} KeepNone(rows: seq<Row>, m: Mask)
    requires forall x :: x in rows ==> !Holds(m, x)
    ensures Keep(rows, m) == []
  {
    if |rows| > 0 {
      assert rows[0] in rows;
      assert forall x :: x in rows[1..] ==> x in rows;
      KeepNone(rows[1..], m);
    }
  }

  /** Applying the same mask twice is applying it once. */
  lemma KeepIdempotent(rows: seq<Row>, m: Mask)
    ensures Keep(Keep(rows, m), m) == Keep(rows, m)
  {
    KeepAll(Keep(rows, m), m);
  }

  lemma KeepCons(r: Row, t: seq<Row>, m: Mask)
    ensures Holds(m, r) ==> Keep([r] + t, m) == [r] + Keep(t, m)
    ensures !Holds(m, r) ==> Keep([r] + t, m) == Keep(t, m)
  {
    assert ([r] + t)[0] == r && ([r] + t)[1..] == t;
    assert [] + Keep(t, m) == Keep(t, m);
  }

  /** Two masks give the same rows, in the same order, whichever is applied
      first. */
  lemma {:induction false} KeepCommutes(rows: seq<Row>, m1: Mask, m2: Mask)
    ensures Keep(Keep(rows, m1), m2) == Keep(Keep(rows, m2), m1)
  {
    if |rows| > 0 {
      var r, t := rows[0], rows[1..];
      assert rows == [r] + t;
      KeepCommutes(t, m1, m2);
      var both := Keep(Keep(t, m1), m2);
      KeepCons(r, t, m1);
      KeepCons(r, t, m2);
      if Holds(m1, r) && Holds(m2, r) {
        KeepCons(r, Keep(t, m1), m2);
        KeepCons(r, Keep(t, m2), m1);
        assert Keep(Keep(rows, m1), m2) == [r] + both;
        assert Keep(Keep(rows, m2), m1) == [r] + both;
      } else if Holds(m1, r) {
        KeepCons(r, Keep(t, m1), m2);
        assert Keep(Keep(rows, m1), m2) == both;
        assert Keep(Keep(rows, m2), m1) == both;
      } else if Holds(m2, r) {
        KeepCons(r, Keep(t, m2), m1);
        assert Keep(Keep(rows, m1), m2) == both;
        assert Keep(Keep(rows, m2), m1) == both;
      } else {
        assert Keep(Keep(rows, m1), m2) == both;
        assert Keep(Keep(rows, m2), m1) == both;
      }
    }
  }

  /** Does a dropdown choice admit a row whose field has `value`? The
      sentinel admits everything. */
  predicate Picks(choice: string, sentinel: string, value: string) {
    choice == sentinel || value == choice
  }

  /** A dropdown filter: the sentinel ("All", "Todos") leaves the rows as
      they are, any other choice keeps the rows whose field equals it. */
  function Choose(rows: seq<Row>, f: Field, choice: string, sentinel: string): seq<Row> {
    if choice == sentinel then rows else Keep(rows, FieldIs(f, choice))
  }

  lemma ChooseSpec(rows: seq<Row>, f: Field, choice: string, sentinel: string)
    ensures choice == sentinel ==> Choose(rows, f, choice, sentinel) == rows
    ensures forall x :: x in Choose(rows, f, choice, sentinel) <==> x in rows && Picks(choice, sentinel, Get(x, f))
    ensures IsSubsequence(Choose(rows, f, choice, sentinel), rows)
  {
    SubsequenceReflexive(rows);
    KeepInOrder(rows, FieldIs(f, choice));
  }

  /** A dropdown filter keeps each admitted row as often as it occurs. */
  lemma ChooseCounts(rows: seq<Row>, f: Field, choice: string, sentinel: string)
    ensures forall x :: multiset(Choose(rows, f, choice, sentinel))[x] ==
                       (if Picks(choice, sentinel, Get(x, f)) then multiset(rows)[x] else 0)
  {
    KeepCounts(rows, FieldIs(f, choice));
  }

  /** The column `rows[f]`. */
  function Column(rows: seq<Row>, f: Field): seq<string> {
    seq(|rows|, i requires 0 <= i < |rows| => Get(rows[i], f))
  }

  /** The values field `f` takes in `rows`. */
  function Values(rows: seq<Row>, f: Field): set<string> {
    set x | x in rows :: Get(x, f)
  }

  /** The values field `f` takes in the rows a dropdown on field `g`
      admits. */
  function ValuesWhere(rows: seq<Row>, g: Field, choice: string, sentinel: string, f: Field): set<string> {
    set x | x in rows && Picks(choice, sentinel, Get(x, g)) :: Get(x, f)
  }

  lemma ChooseValues(rows: seq<Row>, g: Field, choice: string, sentinel: string, f: Field)
    ensures Values(Choose(rows, g, choice, sentinel), f) == ValuesWhere(rows, g, choice, sentinel, f)
  {
    ChooseSpec(rows, g, choice, sentinel);
  }

  lemma ColumnValues(rows: seq<Row>, f: Field)
    ensures forall v :: v in Column(rows, f) <==> v in Values(rows, f)
  {
    var col := Column(rows, f);
    forall v | v in Values(rows, f) ensures v in col {
      var x :| x in rows && Get(x, f) == v;
      var i :| 0 <= i < |rows| && rows[i] == x;
      assert col[i] == v;
    }
  }

  /** `[sentinel] + sorted(rows[f].unique())`. */
  function Menu(sentinel: string, rows: seq<Row>, f: Field): seq<string> {
    [sentinel] + SortStrings(Unique(Column(rows, f)))
  }

  /** A dropdown list: the sentinel, then each value of `vals` once, in
      ascending order. */
  ghost predicate IsSortedMenu(menu: seq<string>, sentinel: string, vals: set<string>) {
    && |menu| > 0
    && menu[0] == sentinel
    && Sorted(menu[1..])
    && NoDuplicates(menu[1..])
    && forall v :: v in menu[1..] <==> v in vals
  }

  lemma MenuSpec(sentinel: string, rows: seq<Row>, f: Field)
    ensures IsSortedMenu(Menu(sentinel, rows, f), sentinel, Values(rows, f))
  {
    var u := Unique(Column(rows, f));
    SortDistinct(u);
    ColumnValues(rows, f);
    assert Menu(sentinel, rows, f)[1..] == SortStrings(u);
  }

  function MinAge(rows: seq<Row>): (m: int)
    requires |rows| > 0
    ensures forall x :: x in rows ==> m <= x.age
    ensures exists x :: x in rows && x.age == m
  {
    if |rows| == 1 then rows[0].age
    else
      assert rows == [rows[0]] + rows[1..];
      var rest := MinAge(rows[1..]);
      if rows[0].age <= rest then rows[0].age else rest
  }

  function MaxAge(rows: seq<Row>): (m: int)
    requires |rows| > 0
    ensures forall x :: x in rows ==> x.age <= m
    ensures exists x :: x in rows && x.age == m
  {
    if |rows| == 1 then rows[0].age
    else
      assert rows == [rows[0]] + rows[1..];
      var rest := MaxAge(rows[1..]);
      if rows[0].age >= rest then rows[0].age else rest
  }

  /** Why a page cannot be drawn: the age slider was built over no rows
      (`int()` of the NaN min/max raises), or a table was indexed with
      column labels the frame lacks (pandas raises KeyError). */
  datatype PageError = NoRowsForAgeSlider | MissingColumns(labels: set<string>)

  datatype Result<T> = Ok(value: T) | Err(error: PageError)

  /** The slider's range, and the rows the age mask kept. */
  datatype AgeSlice = AgeSlice(bounds: (int, int), rows: seq<Row>)

  /** The age slider and the age mask: the slider spans the min and max Age
      of `rows`, and the rows with ageMin <= Age <= ageMax are kept. */
  function AgeStep(rows: seq<Row>, ageMin: int, ageMax: int): Result<AgeSlice> {
    if |rows| == 0 then Err(NoRowsForAgeSlider)
    else Ok(AgeSlice((MinAge(rows), MaxAge(rows)), Keep(rows, AgeIn(ageMin, ageMax))))
  }

  lemma AgeStepSpec(rows: seq<Row>, ageMin: int, ageMax: int)
    ensures AgeStep(rows, ageMin, ageMax).Err? <==> |rows| == 0
    ensures AgeStep(rows, ageMin, ageMax).Ok? ==>
      var s := AgeStep(rows, ageMin, ageMax).value;
      && s.bounds == (MinAge(rows), MaxAge(rows))
      && s.bounds.0 <= s.bounds.1
      && (forall x :: x in rows ==> s.bounds.0 <= x.age <= s.bounds.1)
      && (forall x :: x in s.rows <==> x in rows && ageMin <= x.age <= ageMax)
      && IsSubsequence(s.rows, rows)
      && (forall x :: multiset(s.rows)[x] == if ageMin <= x.age <= ageMax then multiset(rows)[x] else 0)
      && (ageMin > ageMax ==> s.rows == [])
  {
    if |rows| > 0 {
      assert rows[0] in rows;
      KeepExact(rows, AgeIn(ageMin, ageMax));
      if ageMin > ageMax {
        KeepNone(rows, AgeIn(ageMin, ageMax));
      }
    }
  }

  /** With the slider left at its default range the age mask removes no
      row. */
  lemma DefaultSliderKeepsAll(rows: seq<Row>)
    requires |rows| > 0
    ensures AgeStep(rows, MinAge(rows), MaxAge(rows)) == Ok(AgeSlice((MinAge(rows), MaxAge(rows)), rows))
  {
    KeepAll(rows, AgeIn(MinAge(rows), MaxAge(rows)));
  }
}
