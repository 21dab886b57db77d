/** The counting loops of `report` (app.py:173-185): totals over the report rows, and the number of
    visits of every registered volunteer over the whole visit table. */
module Statistics {
  import opened Sequences
  import opened Schema
  import opened Filters
  import opened Counting

  /** The `statistiche` dictionary (app.py:173-177). */
  datatype Statistics = Statistics(totaleVisite: nat, accoglienza: map<string, nat>,
                                   visitePerCitta: map<string, nat>)

  /** The reception grades the counter starts with (app.py:175). */
  const ReceptionSeed: set<string> := {"Buona", "Media", "Scarsa"}

  /** Column 4 (`vi.accoglienza`) of a row. */
  function Reception(r: ReportRow): string
  {
    r.accoglienza
  }

  /** Column 3 (`a.citta`) of a row. */
  function City(r: ReportRow): string
  {
    r.citta
  }

  /** One column of every row, in row order. */
  function Column<R>(rows: seq<R>, col: R -> string): seq<string>
  {
    seq(|rows|, i requires 0 <= i < |rows| => col(rows[i]))
  }

  /** The rows whose column `col` holds `x`. */
  function RowsWith<R(==,!new)>(rows: seq<R>, col: R -> string, x: string): seq<R>
  {
    Keep(rows, (r: R) => col(r) == x)
  }

  /** What the statistics of a list of rows are: the number of rows, the reception counter seeded
      with the three grades, and the city counter seeded with nothing. */
  function StatisticsOf(rows: seq<ReportRow>): Statistics
  {
    Statistics(|rows|, Tally(ReceptionSeed, Column(rows, Reception)), Tally({}, Column(rows, City)))
  }

  lemma ColumnSnoc(rows: seq<ReportRow>, col: ReportRow -> string, i: nat)
    requires i < |rows|
    ensures Column(rows[..i + 1], col) == Column(rows[..i], col) + [col(rows[i])]
  {
  }

  lemma SeededStart()
    ensures Tally(ReceptionSeed, []) == map["Buona" := 0, "Media" := 0, "Scarsa" := 0]
    ensures Tally({}, []) == map[]
  {
    var m := Tally(ReceptionSeed, []);
    assert m.Keys == ReceptionSeed;
  }

  /** One iteration of the loop raises the two counters to those of one more row. */
  lemma CountRow(rows: seq<ReportRow>, i: nat, accoglienza: map<string, nat>, perCitta: map<string, nat>)
    requires i < |rows|
    requires accoglienza == Tally(ReceptionSeed, Column(rows[..i], Reception))
    requires perCitta == Tally({}, Column(rows[..i], City))
    ensures accoglienza[rows[i].accoglienza := Get(accoglienza, rows[i].accoglienza) + 1]
            == Tally(ReceptionSeed, Column(rows[..i + 1], Reception))
    ensures perCitta[rows[i].citta := Get(perCitta, rows[i].citta) + 1] == Tally({}, Column(rows[..i + 1], City))
  {
    ColumnSnoc(rows, Reception, i);
    ColumnSnoc(rows, City, i);
    TallySnoc(ReceptionSeed, Column(rows[..i], Reception), rows[i].accoglienza);
    TallySnoc({}, Column(rows[..i], City), rows[i].citta);
  }

  /** The loop of app.py:173-180. */
  method ComputeStatistics(rows: seq<ReportRow>) returns (s: Statistics)
    ensures s == StatisticsOf(rows)
  {
    var accoglienza: map<string, nat> := map["Buona" := 0, "Media" := 0, "Scarsa" := 0];
    var perCitta: map<string, nat> := map[];
    SeededStart();
    for i := 0 to |rows|
      invariant accoglienza == Tally(ReceptionSeed, Column(rows[..i], Reception))
      invariant perCitta == Tally({}, Column(rows[..i], City))
    {
      CountRow(rows, i, accoglienza, perCitta);
      accoglienza := accoglienza[rows[i].accoglienza := Get(accoglienza, rows[i].accoglienza) + 1];
      perCitta := perCitta[rows[i].citta := Get(perCitta, rows[i].citta) + 1];
    }
    assert rows[..|rows|] == rows;
    s := Statistics(|rows|, accoglienza, perCitta);
  }

  /** Every row is counted exactly once in each counter: both sum to the total. */
  lemma CountersSumToTotal(rows: seq<ReportRow>)
    ensures SumValues(StatisticsOf(rows).accoglienza) == StatisticsOf(rows).totaleVisite
    ensures SumValues(StatisticsOf(rows).visitePerCitta) == StatisticsOf(rows).totaleVisite
  {
    TallySum(ReceptionSeed, Column(rows, Reception));
    TallySum({}, Column(rows, City));
  }

  /** The three grades are always present; any other reception value present in a row is added as
      a key of its own; every key counts the rows with that reception. */
  lemma ReceptionKeys(rows: seq<ReportRow>)
    ensures forall g :: g in ReceptionSeed ==> g in StatisticsOf(rows).accoglienza
    ensures forall g :: g in StatisticsOf(rows).accoglienza <==> g in ReceptionSeed || exists r :: r in rows && r.accoglienza == g
    ensures forall g :: g in StatisticsOf(rows).accoglienza ==>
      StatisticsOf(rows).accoglienza[g] == |RowsWith(rows, Reception, g)|
  {
    ColumnMembers(rows, Reception);
    forall g | g in StatisticsOf(rows).accoglienza
      ensures StatisticsOf(rows).accoglienza[g] == |RowsWith(rows, Reception, g)|
    {
      ColumnCount(rows, Reception, g);
    }
  }

  /** A city is a key exactly when some row has that city, and then its count is positive and is
      the number of rows in that city. */
  lemma CityKeys(rows: seq<ReportRow>)
    ensures forall c :: c in StatisticsOf(rows).visitePerCitta <==> exists r :: r in rows && r.citta == c
    ensures forall c :: c in StatisticsOf(rows).visitePerCitta ==>
      StatisticsOf(rows).visitePerCitta[c] > 0
      && StatisticsOf(rows).visitePerCitta[c] == |RowsWith(rows, City, c)|
  {
    ColumnMembers(rows, City);
    forall c | c in StatisticsOf(rows).visitePerCitta
      ensures StatisticsOf(rows).visitePerCitta[c] == |RowsWith(rows, City, c)|
    {
      ColumnCount(rows, City, c);
    }
  }

  /** A value occurs in a column exactly when some row carries it there. */
  lemma ColumnMembers<R>(rows: seq<R>, col: R -> string)
    ensures forall x :: x in Column(rows, col) <==> exists r :: r in rows && col(r) == x
  {
    var xs := Column(rows, col);
    forall x
      ensures x in xs <==> exists r :: r in rows && col(r) == x
    {
      if x in xs {
        var i :| 0 <= i < |xs| && xs[i] == x;
        assert rows[i] in rows;
      }
      if exists r :: r in rows && col(r) == x {
        var r :| r in rows && col(r) == x;
        var i :| 0 <= i < |rows| && rows[i] == r;
        assert xs[i] == x;
      }
    }
  }

  lemma ColumnCons<R>(rows: seq<R>, col: R -> string)
    requires rows != []
    ensures multiset(Column(rows, col)) == multiset{col(rows[0])} + multiset(Column(rows[1..], col))
  {
    assert Column(rows, col) == [col(rows[0])] + Column(rows[1..], col);
  }

  /** The number of occurrences of a value in a column is the number of rows carrying it. */
  lemma {:induction false} ColumnCount<R(!new)>(rows: seq<R>, col: R -> string, x: string)
    ensures multiset(Column(rows, col))[x] == |RowsWith(rows, col, x)|
  {
    if rows != [] {
      ColumnCount(rows[1..], col, x);
      KeepCons(rows, (r: R) => col(r) == x);
      ColumnCons(rows, col);
    }
  }

  /** Under the foreign keys, the total is the number of visits the filter selects. */
  lemma TotalCountsSelectedVisits(t: Tables, f: Filter)
    requires Consistent(t)
    ensures StatisticsOf(Select(t, f)).totaleVisite == |Selected(t.visite, f)|
  {
    SelectCountsMatchingVisits(t, f);
  }

  // ---------------------------------------------------------------------------------------------
  // Visits per volunteer (app.py:182-185).

  /** The value stored under a volunteer's e-mail in `statistiche_volontari`. */
  datatype VolunteerStats = VolunteerStats(cognome: string, nome: string, visite: nat)

  /** `SELECT COUNT(*) FROM visite WHERE volontario_email = ?` over the whole table. */
  function CountVisits(visits: seq<Visit>, email: string): nat
  {
    |RowsWith(visits, VolunteerEmail, email)|
  }

  /** The `volontario_email` column of a visit. */
  function VolunteerEmail(v: Visit): string
  {
    v.volontarioEmail
  }

  /** The dictionary after writing the entry of every volunteer in table order; a later row with
      the same e-mail would overwrite an earlier one. */
  function VolunteerStatsOf(vs: seq<Volunteer>, visits: seq<Visit>): map<string, VolunteerStats>
  {
    if vs == [] then map[]
    else
      var v := vs[|vs| - 1];
      VolunteerStatsOf(vs[..|vs| - 1], visits)[v.email := VolunteerStats(v.cognome, v.nome, CountVisits(visits, v.email))]
  }

  /** The loop of app.py:182-185. It reads the whole visit table, not the filtered rows. */
  method VolunteerStatistics(vs: seq<Volunteer>, visits: seq<Visit>) returns (m: map<string, VolunteerStats>)
    ensures m == VolunteerStatsOf(vs, visits)
  {
    m := map[];
    for i := 0 to |vs|
      invariant m == VolunteerStatsOf(vs[..i], visits)
    {
      assert vs[..i + 1][..i] == vs[..i];
      var count := CountVisits(visits, vs[i].email);
      m := m[vs[i].email := VolunteerStats(vs[i].cognome, vs[i].nome, count)];
    }
    assert vs[..|vs|] == vs;
  }

  /** Every registered volunteer has an entry, and only they do; each entry counts the visits of
      that e-mail in the whole table. */
  lemma {:induction false} VolunteerStatsKeys(vs: seq<Volunteer>, visits: seq<Visit>)
    ensures forall e :: e in VolunteerStatsOf(vs, visits) <==> HasVolunteer(vs, e)
    ensures forall e :: e in VolunteerStatsOf(vs, visits) ==>
      VolunteerStatsOf(vs, visits)[e].visite == CountVisits(visits, e)
  {
    if vs != [] {
      var init := vs[..|vs| - 1];
      VolunteerStatsKeys(init, visits);
      assert vs == init + [vs[|vs| - 1]];
      assert forall w :: w in vs <==> w in init || w == vs[|vs| - 1];
    }
  }

  /** Under the UNIQUE constraint on e-mails, each entry carries its volunteer's own names. */
  lemma {:induction false} VolunteerStatsNames(vs: seq<Volunteer>, visits: seq<Visit>)
    requires DistinctBy(vs, (w: Volunteer) => w.email)
    ensures forall v :: v in vs ==>
      v.email in VolunteerStatsOf(vs, visits)
      && VolunteerStatsOf(vs, visits)[v.email] == VolunteerStats(v.cognome, v.nome, CountVisits(visits, v.email))
  {
    if vs != [] {
      var init, last := vs[..|vs| - 1], vs[|vs| - 1];
      assert DistinctBy(init, (w: Volunteer) => w.email);
      VolunteerStatsNames(init, visits);
      forall v | v in init
        ensures v.email != last.email
      {
        var i :| 0 <= i < |init| && init[i] == v;
        assert vs[i] == v;
      }
      assert forall v :: v in vs ==> v in init || v == last;
    }
  }

  /** The count is the number of times the e-mail occurs in the `volontario_email` column. */
  lemma CountIsMultiplicity(visits: seq<Visit>, email: string)
    ensures CountVisits(visits, email) == multiset(Column(visits, VolunteerEmail))[email]
  {
    ColumnCount(visits, VolunteerEmail, email);
  }
}
