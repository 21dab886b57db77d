/** The three tables created by `init_db` (app.py:18-43), held in memory as ordered sequences of
    rows. The `id SERIAL` surrogate columns are not modelled: nothing in the core reads them. */
module Schema {
  import opened Optional
  import opened Sequences

  /** A row of `volontari` (app.py:21-26). */
  datatype Volunteer = Volunteer(cognome: string, nome: string, cellulare: string, email: string)

  /** A row of `assistiti` (app.py:27-30). */
  datatype Assisted = Assisted(nomeSigla: string, citta: string)

  /** A row of `visite` (app.py:31-40); `dataVisita` is TEXT and compared as text. */
  datatype Visit = Visit(volontarioEmail: string, assistitoNome: string, accoglienza: string,
                         dataVisita: string, necessita: string, cosaMigliorare: string)

  /** The state of the database. */
  datatype Tables = Tables(volontari: seq<Volunteer>, assistiti: seq<Assisted>, visite: seq<Visit>)

  predicate HasVolunteer(vs: seq<Volunteer>, email: string)
  {
    exists v :: v in vs && v.email == email
  }

  predicate HasAssisted(assisted: seq<Assisted>, nome: string)
  {
    exists a :: a in assisted && a.nomeSigla == nome
  }

  /** Some visit refers to the volunteer with this e-mail. */
  predicate EmailReferenced(visits: seq<Visit>, email: string)
  {
    exists v :: v in visits && v.volontarioEmail == email
  }

  /** Some visit refers to the assisted person with this name or initials. */
  predicate NameReferenced(visits: seq<Visit>, nome: string)
  {
    exists v :: v in visits && v.assistitoNome == nome
  }

  /** The UNIQUE constraints on `volontari.email` (app.py:26) and `assistiti.nome_sigla`
      (app.py:29), which the database enforces on every state. */
  predicate KeysUnique(t: Tables)
  {
    && DistinctBy(t.volontari, (v: Volunteer) => v.email)
    && DistinctBy(t.assistiti, (a: Assisted) => a.nomeSigla)
  }

  /** The FOREIGN KEY clauses of app.py:39-40: every visit names an existing volunteer and an
      existing assisted person. */
  predicate Consistent(t: Tables)
  {
    forall v :: v in t.visite ==>
      HasVolunteer(t.volontari, v.volontarioEmail) && HasAssisted(t.assistiti, v.assistitoNome)
  }

  /** `SELECT ... FROM volontari WHERE email = ?` followed by `fetchone()`. */
  function FindVolunteer(vs: seq<Volunteer>, email: string): (r: Option<Volunteer>)
    ensures r.Some? ==> r.value in vs && r.value.email == email
    ensures r.None? <==> !HasVolunteer(vs, email)
  {
    if vs == [] then None
    else if vs[0].email == email then Some(vs[0])
    else
      assert forall v :: v in vs[1..] ==> v in vs;
      FindVolunteer(vs[1..], email)
  }

  /** `SELECT ... FROM assistiti WHERE nome_sigla = ?` followed by `fetchone()`. */
  function FindAssisted(assisted: seq<Assisted>, nome: string): (r: Option<Assisted>)
    ensures r.Some? ==> r.value in assisted && r.value.nomeSigla == nome
    ensures r.None? <==> !HasAssisted(assisted, nome)
  {
    if assisted == [] then None
    else if assisted[0].nomeSigla == nome then Some(assisted[0])
    else
      assert forall a :: a in assisted[1..] ==> a in assisted;
      FindAssisted(assisted[1..], nome)
  }

  /** Under the UNIQUE constraint the row a lookup returns is the one row with that key. */
  lemma FindVolunteerUnique(vs: seq<Volunteer>, v: Volunteer)
    requires DistinctBy(vs, (w: Volunteer) => w.email)
    requires v in vs
    ensures FindVolunteer(vs, v.email) == Some(v)
  {
    var r := FindVolunteer(vs, v.email).value;
    var i :| 0 <= i < |vs| && vs[i] == v;
    var j :| 0 <= j < |vs| && vs[j] == r;
    assert i == j;
  }

  lemma FindAssistedUnique(assisted: seq<Assisted>, a: Assisted)
    requires DistinctBy(assisted, (b: Assisted) => b.nomeSigla)
    requires a in assisted
    ensures FindAssisted(assisted, a.nomeSigla) == Some(a)
  {
    var r := FindAssisted(assisted, a.nomeSigla).value;
    var i :| 0 <= i < |assisted| && assisted[i] == a;
    var j :| 0 <= j < |assisted| && assisted[j] == r;
    assert i == j;
  }
}
