/** The table effects of the two administrator clean-ups: `clean` (app.py:288-302) deletes the
    visits of a date range and then the assisted persons no visit refers to any more;
    `clean_volontari` (app.py:305-316) deletes the volunteers no visit refers to. */
module Cleanup {
  import opened Optional
  import opened Text
  import opened Sequences
  import opened Schema
  import opened Filters

  /** `data_visita BETWEEN start AND end`. The bounds come from `request.form.get`, which yields
      `None` for a missing field; SQL compares NULL with nothing, so the condition is then false. */
  predicate InRange(d: string, start: Option<string>, end: Option<string>)
  {
    start.Some? && end.Some? && TextLe(start.value, d) && TextLe(d, end.value)
  }

  predicate OutsideRange(v: Visit, start: Option<string>, end: Option<string>)
  {
    !InRange(v.dataVisita, start, end)
  }

  /** `DELETE FROM visite WHERE data_visita BETWEEN ? AND ?` (app.py:296). */
  function DeleteVisitsBetween(visits: seq<Visit>, start: Option<string>, end: Option<string>): (r: seq<Visit>)
    ensures forall v :: v in r <==> v in visits && !InRange(v.dataVisita, start, end)
    ensures forall v :: multiset(r)[v] == if InRange(v.dataVisita, start, end) then 0 else multiset(visits)[v]
  {
    KeepMultiset(visits, (v: Visit) => OutsideRange(v, start, end));
    Keep(visits, (v: Visit) => OutsideRange(v, start, end))
  }

  /** `DELETE FROM assistiti WHERE nome_sigla NOT IN (SELECT assistito_nome FROM visite)` (app.py:297). */
  function PruneAssisted(assisted: seq<Assisted>, visits: seq<Visit>): (r: seq<Assisted>)
    ensures forall a :: a in r <==> a in assisted && NameReferenced(visits, a.nomeSigla)
  {
    Keep(assisted, (a: Assisted) => NameReferenced(visits, a.nomeSigla))
  }

  /** The state after `clean`: the two deletes in order, the second seeing the visits the first
      left. The volunteer table is not touched. */
  function Clean(t: Tables, start: Option<string>, end: Option<string>): (r: Tables)
    ensures r.volontari == t.volontari
    ensures forall v :: v in r.visite <==> v in t.visite && !InRange(v.dataVisita, start, end)
    ensures forall a :: a in r.assistiti <==> a in t.assistiti && NameReferenced(r.visite, a.nomeSigla)
  {
    var visits := DeleteVisitsBetween(t.visite, start, end);
    Tables(t.volontari, PruneAssisted(t.assistiti, visits), visits)
  }

  /** The state after `clean_volontari` (app.py:311). */
  function CleanVolontari(t: Tables): (r: Tables)
    ensures r.assistiti == t.assistiti && r.visite == t.visite
    ensures forall w :: w in r.volontari <==> w in t.volontari && EmailReferenced(t.visite, w.email)
  {
    Tables(Keep(t.volontari, (w: Volunteer) => EmailReferenced(t.visite, w.email)), t.assistiti, t.visite)
  }

  /** `clean` keeps the foreign keys: an assisted person that a remaining visit names is itself
      kept, and no volunteer is deleted. */
  lemma CleanKeepsConsistency(t: Tables, start: Option<string>, end: Option<string>)
    requires Consistent(t)
    ensures Consistent(Clean(t, start, end))
  {
    var r := Clean(t, start, end);
    forall v | v in r.visite
      ensures HasVolunteer(r.volontari, v.volontarioEmail) && HasAssisted(r.assistiti, v.assistitoNome)
    {
      var a :| a in t.assistiti && a.nomeSigla == v.assistitoNome;
      assert NameReferenced(r.visite, a.nomeSigla);
      assert a in r.assistiti;
    }
  }

  /** `clean_volontari` keeps the foreign keys: a volunteer a visit names is referenced. */
  lemma CleanVolontariKeepsConsistency(t: Tables)
    requires Consistent(t)
    ensures Consistent(CleanVolontari(t))
  {
    var r := CleanVolontari(t);
    forall v | v in r.visite
      ensures HasVolunteer(r.volontari, v.volontarioEmail)
    {
      var w :| w in t.volontari && w.email == v.volontarioEmail;
      assert EmailReferenced(t.visite, w.email);
      assert w in r.volontari;
    }
  }

  /** Deleting rows never breaks the UNIQUE constraints. */
  lemma CleanKeepsKeysUnique(t: Tables, start: Option<string>, end: Option<string>)
    requires KeysUnique(t)
    ensures KeysUnique(Clean(t, start, end))
    ensures KeysUnique(CleanVolontari(t))
  {
    var visits := DeleteVisitsBetween(t.visite, start, end);
    KeepDistinct(t.assistiti, (a: Assisted) => NameReferenced(visits, a.nomeSigla), (a: Assisted) => a.nomeSigla);
    KeepDistinct(t.volontari, (w: Volunteer) => EmailReferenced(t.visite, w.email), (w: Volunteer) => w.email);
  }

  /** A missing bound deletes no visit. */
  lemma MissingBoundDeletesNothing(t: Tables, start: Option<string>, end: Option<string>)
    requires start.None? || end.None?
    ensures Clean(t, start, end).visite == t.visite
  {
    KeepAll(t.visite, (v: Visit) => OutsideRange(v, start, end));
  }

  /** A range whose start comes after its end deletes no visit. */
  lemma EmptyRangeDeletesNothing(t: Tables, start: string, end: string)
    requires !TextLe(start, end)
    ensures Clean(t, Some(start), Some(end)).visite == t.visite
  {
    forall v | v in t.visite
      ensures OutsideRange(v, Some(start), Some(end))
    {
      if TextLe(start, v.dataVisita) && TextLe(v.dataVisita, end) {
        TextLeTransitive(start, v.dataVisita, end);
      }
    }
    KeepAll(t.visite, (v: Visit) => OutsideRange(v, Some(start), Some(end)));
  }

  /** After cleaning a range, a report over that same range is empty. The end bound must be
      given: an empty end means "no bound" to the report but `BETWEEN start AND ''` to `clean`. */
  lemma CleanedRangeReportsNothing(t: Tables, start: string, end: string)
    requires end != ""
    ensures Selected(Clean(t, Some(start), Some(end)).visite, Filter("", start, end)) == []
  {
    var r := Clean(t, Some(start), Some(end));
    var f := Filter("", start, end);
    forall v | v in r.visite
      ensures !Matches(f, v)
    {
      assert !InRange(v.dataVisita, Some(start), Some(end));
      if start == "" {
        assert TextLe(start, v.dataVisita);
      }
    }
    KeepNone(r.visite, (v: Visit) => Matches(f, v));
  }

  /** Running `clean` twice with the same bounds changes nothing the first run did not. */
  lemma CleanIdempotent(t: Tables, start: Option<string>, end: Option<string>)
    ensures Clean(Clean(t, start, end), start, end) == Clean(t, start, end)
  {
    var r := Clean(t, start, end);
    KeepAll(r.visite, (v: Visit) => OutsideRange(v, start, end));
    KeepAll(r.assistiti, (a: Assisted) => NameReferenced(r.visite, a.nomeSigla));
  }

  /** Running `clean_volontari` twice deletes nothing the second time. */
  lemma CleanVolontariIdempotent(t: Tables)
    ensures CleanVolontari(CleanVolontari(t)) == CleanVolontari(t)
  {
    var r := CleanVolontari(t);
    KeepAll(r.volontari, (w: Volunteer) => EmailReferenced(r.visite, w.email));
  }
}
