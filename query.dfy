// The SQL text db_films_get_all builds from a filter: a WHERE clause of up to five
// conditions in a fixed order, then an ORDER BY. Running the query is SQLite's business and
// is not modelled.

module Query {
  import opened Wrappers
  import opened Text
  import opened Records

  /** One condition of the WHERE clause. */
  datatype Condition =
    | GenreIs(genre: string)
    | YearFrom(from: int)
    | YearTo(to: int)
    | TitleLike(text: string)
    | ActorLike(actor: string)

  /** A string field the builder takes into account: non-NULL and non-empty. */
  predicate Given(s: Option<string>) { s.Some? && |s.value| > 0 }

  /** Whether the filter asks for the condition of rank k (genre, year_from, year_to, search text, actor). */
  predicate Wanted(f: FilterState, k: nat)
  {
    if k == 0 then Given(f.genre)
    else if k == 1 then f.yearFrom > 0
    else if k == 2 then f.yearTo > 0
    else if k == 3 then Given(f.searchText)
    else if k == 4 then Given(f.actor)
    else false
  }

  /** The condition of rank k, when the filter asks for it. */
  function Optional(f: FilterState, k: nat): (r: seq<Condition>)
    ensures |r| <= 1 && (|r| == 1 <==> Wanted(f, k))
  {
    if k == 0 && Given(f.genre) then [GenreIs(f.genre.value)]
    else if k == 1 && f.yearFrom > 0 then [YearFrom(f.yearFrom)]
    else if k == 2 && f.yearTo > 0 then [YearTo(f.yearTo)]
    else if k == 3 && Given(f.searchText) then [TitleLike(f.searchText.value)]
    else if k == 4 && Given(f.actor) then [ActorLike(f.actor.value)]
    else []
  }

  /** The conditions of rank below n that the filter asks for, in rank order. */
  function Upto(f: FilterState, n: nat): seq<Condition>
  {
    if n == 0 then [] else Upto(f, n - 1) + Optional(f, n - 1)
  }

  /** Reference list of the conditions a filter yields; a NULL filter yields none. */
  function Conditions(filter: Option<FilterState>): seq<Condition>
  {
    match filter
    case None => []
    case Some(f) => Upto(f, 5)
  }

  /** The position of a condition's kind in the fixed order. */
  function Rank(c: Condition): nat
  {
    match c
    case GenreIs(_) => 0
    case YearFrom(_) => 1
    case YearTo(_) => 2
    case TitleLike(_) => 3
    case ActorLike(_) => 4
  }

  /** The actor condition selects the films with a cast member whose name contains the text. */
  const ActorSubquery: string :=
    "f.id IN (SELECT fa.film_id FROM film_actors fa JOIN actors a ON fa.actor_id = a.id WHERE a.name LIKE '%"

  /** The text of a condition after its WHERE or AND keyword. */
  function ConditionText(c: Condition): string
  {
    match c
    case GenreIs(g) => "g.name = '" + g + "'"
    case YearFrom(y) => "f.year >= " + IntToString(y)
    case YearTo(y) => "f.year <= " + IntToString(y)
    case TitleLike(t) => "f.title LIKE '%" + t + "%'"
    case ActorLike(a) => ActorSubquery + a + "%')"
  }

  /** The texts of the conditions, in order. */
  function Texts(cs: seq<Condition>): (ts: seq<string>)
    ensures |ts| == |cs| && forall i :: 0 <= i < |cs| ==> ts[i] == ConditionText(cs[i])
  {
    seq(|cs|, i requires 0 <= i < |cs| => ConditionText(cs[i]))
  }

  /** The i-th clause written out: the first is introduced by WHERE, every later one by AND. */
  function Clause(ts: seq<string>, i: nat): string
    requires i < |ts|
  {
    " " + (if i == 0 then "WHERE" else "AND") + " " + ts[i]
  }

  /** The clauses of the first n condition texts, in order. */
  function Clauses(ts: seq<string>, n: nat): string
    requires n <= |ts|
  {
    if n == 0 then "" else Clauses(ts, n - 1) + Clause(ts, n - 1)
  }

  const Select: string := "SELECT f.* FROM films f"
  const JoinGenres: string := " JOIN film_genres fg ON f.id = fg.film_id JOIN genres g ON fg.genre_id = g.id"
  const OrderByTitle: string := " ORDER BY f.title COLLATE NOCASE"

  /** The ORDER BY part: year, rating or added date by name, the title otherwise. */
  function OrderText(filter: Option<FilterState>): string
  {
    if filter.None? || filter.value.sortBy.None? then OrderByTitle + " ASC"
    else
      var key := filter.value.sortBy.value;
      (if key == "year" then " ORDER BY f.year"
       else if key == "rating" then " ORDER BY f.rating"
       else if key == "added" then " ORDER BY f.added_date"
       else OrderByTitle)
      + (if filter.value.sortAscending then " ASC" else " DESC")
  }

  /** The whole statement db_films_get_all prepares, as the reference. */
  function QueryText(filter: Option<FilterState>): string
  {
    var ts := Texts(Conditions(filter));
    Select + (if filter.Some? && Given(filter.value.genre) then JoinGenres else "") +
    Clauses(ts, |ts|) + OrderText(filter)
  }

  /** A condition carries the value of the filter field it comes from. */
  predicate FromFilter(f: FilterState, c: Condition)
  {
    match c
    case GenreIs(g) => f.genre == Some(g)
    case YearFrom(y) => f.yearFrom == y
    case YearTo(y) => f.yearTo == y
    case TitleLike(t) => f.searchText == Some(t)
    case ActorLike(a) => f.actor == Some(a)
  }

  /** The conditions come in strictly increasing rank, so each kind at most once. */
  predicate InRankOrder(cs: seq<Condition>)
  {
    forall i, j :: 0 <= i < j < |cs| ==> Rank(cs[i]) < Rank(cs[j])
  }

  /** The kind of rank k is present. */
  predicate HasRank(cs: seq<Condition>, k: nat)
  {
    exists i :: 0 <= i < |cs| && Rank(cs[i]) == k
  }

  /** The rank and the value of each condition below rank n. */
  lemma {:induction false} UptoFromFilter(f: FilterState, n: nat)
    ensures forall i :: 0 <= i < |Upto(f, n)| ==> Rank(Upto(f, n)[i]) < n && FromFilter(f, Upto(f, n)[i])
  {
    if n > 0 {
      UptoFromFilter(f, n - 1);
      var p := Upto(f, n - 1);
      var o := Optional(f, n - 1);
      var cs := p + o;
      assert Upto(f, n) == cs;
      assert |o| == 1 ==> Rank(o[0]) == n - 1 && FromFilter(f, o[0]);
      forall i | 0 <= i < |cs| ensures Rank(cs[i]) < n && FromFilter(f, cs[i]) {
        if i < |p| { assert cs[i] == p[i]; } else { assert cs[i] == o[0]; }
      }
    }
  }

  lemma {:induction false} UptoRanked(f: FilterState, n: nat)
    ensures InRankOrder(Upto(f, n))
  {
    if n > 0 {
      UptoRanked(f, n - 1);
      UptoFromFilter(f, n - 1);
      var p := Upto(f, n - 1);
      var o := Optional(f, n - 1);
      var cs := p + o;
      assert Upto(f, n) == cs;
      assert |o| == 1 ==> Rank(o[0]) == n - 1;
      forall i, j | 0 <= i < j < |cs| ensures Rank(cs[i]) < Rank(cs[j]) {
        if j < |p| {
          assert cs[i] == p[i] && cs[j] == p[j];
        } else {
          assert j == |p| && |o| == 1;
          assert cs[i] == p[i] && cs[j] == o[0];
        }
      }
    }
  }

  lemma {:induction false} UptoHasRank(f: FilterState, n: nat)
    ensures forall k: nat :: HasRank(Upto(f, n), k) <==> k < n && Wanted(f, k)
  {
    if n > 0 {
      UptoHasRank(f, n - 1);
      UptoFromFilter(f, n - 1);
      var p := Upto(f, n - 1);
      var o := Optional(f, n - 1);
      var cs := p + o;
      assert Upto(f, n) == cs;
      assert |o| == 1 ==> Rank(o[0]) == n - 1;
      forall k: nat ensures HasRank(cs, k) <==> k < n && Wanted(f, k) {
        if HasRank(cs, k) {
          var i :| 0 <= i < |cs| && Rank(cs[i]) == k;
          if i < |p| { assert cs[i] == p[i]; assert HasRank(p, k); } else { assert cs[i] == o[0]; }
        }
        if k < n - 1 && Wanted(f, k) {
          var i :| 0 <= i < |p| && Rank(p[i]) == k;
          assert cs[i] == p[i];
        }
        if k == n - 1 && Wanted(f, k) {
          assert cs[|p|] == o[0];
        }
      }
    }
  }

  /**
   * The conditions of a filter: in the fixed order, each carrying its field's value, and
   * each kind present exactly when its field asks for it.
   */
  lemma ConditionsOrdered(f: FilterState)
    ensures InRankOrder(Conditions(Some(f)))
    ensures forall i :: 0 <= i < |Conditions(Some(f))| ==> FromFilter(f, Conditions(Some(f))[i])
    ensures forall k: nat :: HasRank(Conditions(Some(f)), k) <==> Wanted(f, k)
  {
    UptoRanked(f, 5);
    UptoFromFilter(f, 5);
    UptoHasRank(f, 5);
    assert Conditions(Some(f)) == Upto(f, 5);
    assert forall k: nat :: k >= 5 ==> !Wanted(f, k);
  }

  lemma UptoFive(f: FilterState)
    ensures Conditions(Some(f)) == Optional(f, 0) + Optional(f, 1) + Optional(f, 2) + Optional(f, 3) + Optional(f, 4)
  {
    assert Upto(f, 1) == Optional(f, 0);
    assert Upto(f, 2) == Optional(f, 0) + Optional(f, 1);
    assert Upto(f, 3) == Optional(f, 0) + Optional(f, 1) + Optional(f, 2);
    assert Upto(f, 4) == Optional(f, 0) + Optional(f, 1) + Optional(f, 2) + Optional(f, 3);
  }

  /** db_films_get_all takes neither the director nor the plot text into account. */
  lemma QueryIgnoresDirectorAndPlot(f: FilterState, director: Option<string>, plotText: Option<string>)
    ensures QueryText(Some(f.(director := director, plotText := plotText))) == QueryText(Some(f))
  {
    var g := f.(director := director, plotText := plotText);
    UptoFive(f);
    UptoFive(g);
    assert forall k: nat :: Optional(g, k) == Optional(f, k);
  }

  /** Without a filter, or with an empty one, the query lists every film by title. */
  lemma NoFilterQuery(f: FilterState)
    requires !Given(f.genre) && f.yearFrom <= 0 && f.yearTo <= 0 && !Given(f.searchText) && !Given(f.actor)
    ensures QueryText(None) == Select + OrderByTitle + " ASC"
    ensures QueryText(Some(f)) == Select + OrderText(Some(f))
  {
    NoFilterConditions(f);
    assert Texts([]) == [];
  }

  lemma NoFilterConditions(f: FilterState)
    requires !Given(f.genre) && f.yearFrom <= 0 && f.yearTo <= 0 && !Given(f.searchText) && !Given(f.actor)
    ensures Conditions(Some(f)) == []
  {
    UptoFive(f);
  }

  /** Appending one more clause, as the builder does. */
  lemma ClausesSnoc(ts: seq<string>, t: string)
    ensures Clauses(ts + [t], |ts| + 1) == Clauses(ts, |ts|) + " " + (if ts == [] then "WHERE" else "AND") + " " + t
  {
    ClausesPrefix(ts, [t], |ts|);
  }

  lemma {:induction false} ClausesPrefix(ts: seq<string>, more: seq<string>, n: nat)
    requires n <= |ts|
    ensures Clauses(ts + more, n) == Clauses(ts, n)
  {
    if n > 0 {
      ClausesPrefix(ts, more, n - 1);
      assert (ts + more)[n - 1] == ts[n - 1];
    }
  }

  /** The ORDER BY part as db_films_get_all appends it. */
  method AppendOrder(filter: Option<FilterState>, sql: string) returns (r: string)
    ensures r == sql + OrderText(filter)
  {
    if filter.Some? && filter.value.sortBy.Some? {
      var key := filter.value.sortBy.value;
      var column: string;
      if key == "year" {
        column := " ORDER BY f.year";
      } else if key == "rating" {
        column := " ORDER BY f.rating";
      } else if key == "added" {
        column := " ORDER BY f.added_date";
      } else {
        column := OrderByTitle;
      }
      r := sql + column + (if filter.value.sortAscending then " ASC" else " DESC");
    } else {
      r := sql + OrderByTitle + " ASC";
    }
  }

  /**
   * One guarded step of the builder: when the filter asks for the condition, its clause is
   * appended with WHERE or AND according to has_where, which is then set.
   */
  method AppendIf(want: bool, sql: string, hasWhere: bool, t: string, ghost head: string, ghost ts: seq<string>)
    returns (r: string, nowWhere: bool, ghost us: seq<string>)
    requires sql == head + Clauses(ts, |ts|) && hasWhere == (ts != [])
    ensures us == ts + (if want then [t] else [])
    ensures r == head + Clauses(us, |us|) && nowWhere == (us != [])
  {
    us := ts;
    r, nowWhere := sql, hasWhere;
    if want {
      ClausesSnoc(ts, t);
      r := sql + " " + (if hasWhere then "AND" else "WHERE") + " " + t;
      nowWhere := true;
      us := ts + [t];
    }
  }

  /** The builder has written the clauses of the conditions of rank below k after head. */
  ghost predicate WroteUpto(filter: Option<FilterState>, k: nat, head: string, r: string, hasWhere: bool)
  {
    var ts := Texts(CondsUpto(filter, k));
    r == head + Clauses(ts, |ts|) && hasWhere == (ts != [])
  }

  /** The genre and year conditions of db_films_get_all, in that order. */
  method AppendGenreAndYears(filter: Option<FilterState>, sql: string) returns (r: string, hasWhere: bool)
    ensures WroteUpto(filter, 3, sql, r, hasWhere)
  {
    var some := filter.Some?;
    var f := if some then filter.value else FilterZero();
    ghost var ts: seq<string> := [];
    r := sql;
    hasWhere := false;
    var want := some && Given(f.genre);
    var c0 := GenreIs(if want then f.genre.value else "");
    CondsStep(filter, 0, want, c0);
    r, hasWhere, ts := AppendIf(want, r, hasWhere, ConditionText(c0), sql, ts);
    assert ts == Texts(CondsUpto(filter, 1));
    want := some && f.yearFrom > 0;
    var c1 := YearFrom(f.yearFrom);
    CondsStep(filter, 1, want, c1);
    r, hasWhere, ts := AppendIf(want, r, hasWhere, ConditionText(c1), sql, ts);
    assert ts == Texts(CondsUpto(filter, 2));
    want := some && f.yearTo > 0;
    var c2 := YearTo(f.yearTo);
    CondsStep(filter, 2, want, c2);
    r, hasWhere, ts := AppendIf(want, r, hasWhere, ConditionText(c2), sql, ts);
    assert ts == Texts(CondsUpto(filter, 3));
  }

  /** The title and actor conditions of db_films_get_all, continuing after the others. */
  method AppendTitleAndActor(filter: Option<FilterState>, sql: string, hasWhere: bool, ghost head: string)
    returns (r: string, nowWhere: bool)
    requires WroteUpto(filter, 3, head, sql, hasWhere)
    ensures WroteUpto(filter, 5, head, r, nowWhere)
  {
    var some := filter.Some?;
    var f := if some then filter.value else FilterZero();
    ghost var ts := Texts(CondsUpto(filter, 3));
    var want := some && Given(f.searchText);
    var c3 := TitleLike(if want then f.searchText.value else "");
    CondsStep(filter, 3, want, c3);
    r, nowWhere, ts := AppendIf(want, sql, hasWhere, ConditionText(c3), head, ts);
    assert ts == Texts(CondsUpto(filter, 4));
    want := some && Given(f.actor);
    var c4 := ActorLike(if want then f.actor.value else "");
    CondsStep(filter, 4, want, c4);
    r, nowWhere, ts := AppendIf(want, r, nowWhere, ConditionText(c4), head, ts);
    assert ts == Texts(CondsUpto(filter, 5));
  }

  /** db_films_get_all's statement: the select, the genre join when needed, WHERE, ORDER BY. */
  method BuildQuery(filter: Option<FilterState>) returns (sql: string)
    ensures sql == QueryText(filter)
  {
    sql := Select;
    if filter.Some? && Given(filter.value.genre) {
      sql := sql + JoinGenres;
    }
    var hasWhere;
    ghost var head := sql;
    sql, hasWhere := AppendGenreAndYears(filter, sql);
    sql, hasWhere := AppendTitleAndActor(filter, sql, hasWhere, head);
    sql := AppendOrder(filter, sql);
  }

  /** One more rank adds the text of its condition when the filter asks for it. */
  lemma CondsStep(filter: Option<FilterState>, k: nat, want: bool, c: Condition)
    requires want == (filter.Some? && Wanted(filter.value, k))
    requires want ==> Optional(filter.value, k) == [c]
    ensures Texts(CondsUpto(filter, k + 1)) == Texts(CondsUpto(filter, k)) + (if want then [ConditionText(c)] else [])
  {
    if filter.Some? {
      var a, b := CondsUpto(filter, k), Optional(filter.value, k);
      assert Texts(a + b) == Texts(a) + Texts(b);
    }
  }

  /** The conditions of rank below n of a filter that may be NULL. */
  function CondsUpto(filter: Option<FilterState>, n: nat): (cs: seq<Condition>)
    ensures n == 5 ==> cs == Conditions(filter)
    ensures n > 0 && filter.Some? ==> cs == CondsUpto(filter, n - 1) + Optional(filter.value, n - 1)
    ensures filter.None? ==> cs == []
  {
    if filter.Some? then Upto(filter.value, n) else []
  }
}
