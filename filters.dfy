/** The visit filter of the report pages (app.py:148-168) as a predicate on visits, and the rows the
    report query returns: the filtered visits joined with their volunteer and assisted person. */
module Filters {
  import opened Optional
  import opened Text
  import opened Sequences
  import opened Schema

  /** The three optional criteria; an empty string means "no criterion". */
  datatype Filter = Filter(volontarioEmail: string, dataInizio: string, dataFine: string)

  const NoFilter: Filter := Filter("", "", "")

  /** `v.email = X AND vi.data_visita >= start AND vi.data_visita <= end`, each conjunct present only
      when its criterion is non-empty (app.py:160-168). Because the join equates `v.email` with
      `vi.volontario_email`, the e-mail criterion is stated on the visit. */
  predicate Matches(f: Filter, v: Visit)
  {
    && (f.volontarioEmail != "" ==> v.volontarioEmail == f.volontarioEmail)
    && (f.dataInizio != "" ==> TextLe(f.dataInizio, v.dataVisita))
    && (f.dataFine != "" ==> TextLe(v.dataVisita, f.dataFine))
  }

  /** The visits a filter keeps, in table order. */
  function Selected(visits: seq<Visit>, f: Filter): seq<Visit>
  {
    Keep(visits, (v: Visit) => Matches(f, v))
  }

  /** One row of the report query: the columns selected at app.py:156. */
  datatype ReportRow = ReportRow(cognome: string, nome: string, assistitoNome: string, citta: string,
                                 accoglienza: string, dataVisita: string, necessita: string,
                                 cosaMigliorare: string)

  /** The visit finds its volunteer and its assisted person, so the inner joins keep it. */
  predicate Resolves(vs: seq<Volunteer>, assisted: seq<Assisted>, v: Visit)
  {
    HasVolunteer(vs, v.volontarioEmail) && HasAssisted(assisted, v.assistitoNome)
  }

  /** The joined row of one visit (app.py:157-158), if both joins find a partner. */
  function JoinVisit(vs: seq<Volunteer>, assisted: seq<Assisted>, v: Visit): (r: Option<ReportRow>)
    ensures r.Some? <==> Resolves(vs, assisted, v)
    ensures r.Some? ==>
      && r.value.assistitoNome == v.assistitoNome && r.value.accoglienza == v.accoglienza
      && r.value.dataVisita == v.dataVisita && r.value.necessita == v.necessita
      && r.value.cosaMigliorare == v.cosaMigliorare
      && (exists w :: w in vs && w.email == v.volontarioEmail
                      && w.cognome == r.value.cognome && w.nome == r.value.nome)
      && (exists a :: a in assisted && a.nomeSigla == v.assistitoNome && a.citta == r.value.citta)
  {
    match (FindVolunteer(vs, v.volontarioEmail), FindAssisted(assisted, v.assistitoNome))
    case (Some(w), Some(a)) =>
      Some(ReportRow(w.cognome, w.nome, v.assistitoNome, a.citta, v.accoglienza, v.dataVisita,
                     v.necessita, v.cosaMigliorare))
    case _ => None
  }

  /** The inner join of a list of visits with the two other tables, in visit order. */
  function Join(vs: seq<Volunteer>, assisted: seq<Assisted>, visits: seq<Visit>): (rows: seq<ReportRow>)
    ensures |rows| <= |visits|
    ensures forall r :: r in rows ==> exists v :: v in visits && JoinVisit(vs, assisted, v) == Some(r)
  {
    if visits == [] then []
    else
      var rest := Join(vs, assisted, visits[1..]);
      assert forall v :: v in visits[1..] ==> v in visits;
      match JoinVisit(vs, assisted, visits[0])
      case Some(r) => [r] + rest
      case None => rest
  }

  /** When every visit resolves, the join has one row per visit, in visit order. */
  lemma {:induction false} JoinResolved(vs: seq<Volunteer>, assisted: seq<Assisted>, visits: seq<Visit>)
    requires forall v :: v in visits ==> Resolves(vs, assisted, v)
    ensures |Join(vs, assisted, visits)| == |visits|
    ensures forall i :: 0 <= i < |visits| ==> JoinVisit(vs, assisted, visits[i]) == Some(Join(vs, assisted, visits)[i])
  {
    if visits != [] {
      assert forall v :: v in visits[1..] ==> v in visits;
      JoinResolved(vs, assisted, visits[1..]);
      JoinResolvedHead(vs, assisted, visits);
      IndexShift(vs, assisted, visits);
    }
  }

  lemma JoinResolvedHead(vs: seq<Volunteer>, assisted: seq<Assisted>, visits: seq<Visit>)
    requires visits != [] && Resolves(vs, assisted, visits[0])
    ensures Join(vs, assisted, visits) == [JoinVisit(vs, assisted, visits[0]).value] + Join(vs, assisted, visits[1..])
  {
  }

  lemma IndexShift(vs: seq<Volunteer>, assisted: seq<Assisted>, visits: seq<Visit>)
    requires visits != [] && Resolves(vs, assisted, visits[0])
    requires Join(vs, assisted, visits) == [JoinVisit(vs, assisted, visits[0]).value] + Join(vs, assisted, visits[1..])
    requires |Join(vs, assisted, visits[1..])| == |visits| - 1
    requires forall i :: 0 <= i < |visits| - 1 ==>
      JoinVisit(vs, assisted, visits[1..][i]) == Some(Join(vs, assisted, visits[1..])[i])
    ensures forall i :: 0 <= i < |visits| ==> JoinVisit(vs, assisted, visits[i]) == Some(Join(vs, assisted, visits)[i])
  {
    var rows, rest := Join(vs, assisted, visits), Join(vs, assisted, visits[1..]);
    forall i | 0 <= i < |visits|
      ensures JoinVisit(vs, assisted, visits[i]) == Some(rows[i])
    {
      if i > 0 {
        assert visits[i] == visits[1..][i - 1] && rows[i] == rest[i - 1];
      }
    }
  }

  /** The rows the report query returns for a filter (app.py:156-171). */
  function Select(t: Tables, f: Filter): seq<ReportRow>
  {
    Join(t.volontari, t.assistiti, Selected(t.visite, f))
  }

  /** Every row of the report satisfies the date criteria of the filter. */
  lemma SelectRespectsDates(t: Tables, f: Filter)
    ensures forall r :: r in Select(t, f) ==>
      && (f.dataInizio != "" ==> TextLe(f.dataInizio, r.dataVisita))
      && (f.dataFine != "" ==> TextLe(r.dataVisita, f.dataFine))
  {
    forall r | r in Select(t, f)
      ensures f.dataInizio != "" ==> TextLe(f.dataInizio, r.dataVisita)
      ensures f.dataFine != "" ==> TextLe(r.dataVisita, f.dataFine)
    {
      var v :| v in Selected(t.visite, f) && JoinVisit(t.volontari, t.assistiti, v) == Some(r);
      assert Matches(f, v);
    }
  }

  /** When the foreign keys hold, the report lists one row per matching visit, in table order. */
  lemma SelectCountsMatchingVisits(t: Tables, f: Filter)
    requires Consistent(t)
    ensures |Select(t, f)| == |Selected(t.visite, f)|
    ensures forall i :: 0 <= i < |Selected(t.visite, f)| ==>
      JoinVisit(t.volontari, t.assistiti, Selected(t.visite, f)[i]) == Some(Select(t, f)[i])
  {
    var sel := Selected(t.visite, f);
    assert forall v :: v in sel ==> v in t.visite;
    JoinResolved(t.volontari, t.assistiti, sel);
  }

  /** An empty filter selects every visit. */
  lemma NoFilterSelectsAll(visits: seq<Visit>)
    ensures Selected(visits, NoFilter) == visits
  {
    KeepAll(visits, (v: Visit) => Matches(NoFilter, v));
  }

  /** The filter is the intersection of its three single-criterion filters. */
  lemma FilterIsIntersection(visits: seq<Visit>, f: Filter)
    ensures forall v :: v in Selected(visits, f) <==>
      && v in Selected(visits, Filter(f.volontarioEmail, "", ""))
      && v in Selected(visits, Filter("", f.dataInizio, ""))
      && v in Selected(visits, Filter("", "", f.dataFine))
  {
  }
}
