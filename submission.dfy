/** What the volunteer form of `index` (app.py:45-124) does to the tables, as functions of the
    tables before the request, the lower-cased session e-mail and the submitted form fields. */
module Submission {
  import opened Optional
  import opened Sequences
  import opened Schema

  /** The messages the page can show, one per message the source assigns. */
  datatype Message =
    | EmailNotRegistered      // app.py:63, the e-mail has no volunteer: the registration form is shown
    | VolunteerRegistered     // app.py:75
    | EmailAlreadyRegistered  // app.py:81, the INSERT broke the UNIQUE constraint
    | CityRequired            // app.py:96, a new assisted person without a city
    | VisitRecorded           // app.py:109
    | VolunteerNotFound       // app.py:113, the session e-mail has no volunteer row

  /** What the request ends with: the page rendered with its message and the volunteer and assisted
      rows it shows, or the `BadRequestKeyError` that `request.form[field]` raises for a missing field, which
      aborts the request. */
  datatype Outcome =
    | Page(messaggio: Option<Message>, volunteer: Option<Volunteer>, assisted: Option<Assisted>)
    | MissingField(field: string)

  /** The submitted form fields. */
  type Form = map<string, string>

  /** `request.form.get(k, '')`. */
  function FormGet(form: Form, k: string): string
  {
    if k in form then form[k] else ""
  }

  /** The four visit fields read with `request.form[...]` (app.py:102-105), in the order read. */
  const VisitFields: seq<string> := ["accoglienza", "data_visita", "necessita", "cosa_migliorare"]

  /** The form carries every visit field. */
  predicate HasVisitFields(form: Form)
  {
    "accoglienza" in form && "data_visita" in form && "necessita" in form && "cosa_migliorare" in form
  }

  /** Reading the visit fields in order fails exactly when one of them is missing. */
  lemma VisitFieldsChecked(form: Form)
    ensures FirstMissing(form, VisitFields).None? <==> HasVisitFields(form)
  {
    assert forall k :: k in VisitFields <==> k == "accoglienza" || k == "data_visita" || k == "necessita" || k == "cosa_migliorare";
  }

  /** The first visit field the form lacks, if any. */
  function FirstMissing(form: Form, fields: seq<string>): (r: Option<string>)
    ensures r.None? <==> forall k :: k in fields ==> k in form
    ensures r.Some? ==> r.value in fields && r.value !in form
    ensures r.Some? ==> exists i | 0 <= i < |fields| :: fields[i] == r.value && forall j | 0 <= j < i :: fields[j] in form
  {
    if fields == [] then None
    else if fields[0] !in form then Some(fields[0])
    else
      var r := FirstMissing(form, fields[1..]);
      if r.Some? then
        var i :| 0 <= i < |fields[1..]| && fields[1..][i] == r.value && forall j | 0 <= j < i :: fields[1..][j] in form;
        assert fields[i + 1] == r.value;
        r
      else r
  }

  /** The registration branch (app.py:64-82): the INSERT succeeds unless the UNIQUE constraint on
      `email` rejects it, and a successful insert is followed by fetching the new row. */
  function RegisterStep(t: Tables, email: string, form: Form): (r: (Tables, Outcome))
    requires "cognome" in form && "nome" in form && "cellulare" in form
    ensures r.0.assistiti == t.assistiti && r.0.visite == t.visite
    ensures HasVolunteer(r.0.volontari, email)
    ensures HasVolunteer(t.volontari, email) <==> r.1 == Page(Some(EmailAlreadyRegistered), None, None)
    ensures HasVolunteer(t.volontari, email) ==> r.0 == t
    ensures !HasVolunteer(t.volontari, email) ==>
      && r.0.volontari == t.volontari + [Volunteer(form["cognome"], form["nome"], form["cellulare"], email)]
      && r.1 == Page(Some(VolunteerRegistered), FindVolunteer(r.0.volontari, email), None)
  {
    if HasVolunteer(t.volontari, email) then
      (t, Page(Some(EmailAlreadyRegistered), None, None))
    else
      var w := Volunteer(form["cognome"], form["nome"], form["cellulare"], email);
      var vs := t.volontari + [w];
      assert w in vs;
      (t.(volontari := vs), Page(Some(VolunteerRegistered), FindVolunteer(vs, email), None))
  }

  /** The visit branch (app.py:83-115). */
  function SubmitStep(t: Tables, email: string, form: Form): (Tables, Outcome)
    requires "assistito_nome" in form
  {
    match FindVolunteer(t.volontari, email)
    case None => (t, Page(Some(VolunteerNotFound), None, None))
    case Some(w) =>
      var nome := form["assistito_nome"];
      var found := FindAssisted(t.assistiti, nome);
      if found.None? && FormGet(form, "citta") == "" then
        (t, Page(Some(CityRequired), Some(w), None))
      else
        var t1 := if found.None? then t.(assistiti := t.assistiti + [Assisted(nome, form["citta"])]) else t;
        VisitFieldsChecked(form);
        match FirstMissing(form, VisitFields)
        case Some(k) => (t1, MissingField(k))
        case None =>
          var v := Visit(email, nome, form["accoglienza"], form["data_visita"], form["necessita"],
                         form["cosa_migliorare"]);
          (t1.(visite := t1.visite + [v]), Page(Some(VisitRecorded), Some(w), found))
  }

  /** What the visit branch does: an unknown volunteer, or a new assisted person without a city,
      changes nothing; a new assisted person with a city is committed; a visit is recorded exactly
      when the volunteer exists, the assisted person exists or has a city, and every visit field is
      present, and it is then the one row appended; under the same first two conditions a missing
      visit field ends the request with the error naming that field. */
  lemma SubmitOutcomes(t: Tables, email: string, form: Form, r: (Tables, Outcome))
    requires "assistito_nome" in form && r == SubmitStep(t, email, form)
    ensures r.0.volontari == t.volontari
    ensures !HasVolunteer(t.volontari, email) <==> r.1 == Page(Some(VolunteerNotFound), None, None)
    ensures !HasVolunteer(t.volontari, email) ==> r.0 == t
    ensures (HasVolunteer(t.volontari, email) && !HasAssisted(t.assistiti, form["assistito_nome"])
             && FormGet(form, "citta") == "") ==>
      r == (t, Page(Some(CityRequired), FindVolunteer(t.volontari, email), None))
    ensures r.1.Page? && r.1.messaggio == Some(CityRequired) <==>
      HasVolunteer(t.volontari, email) && !HasAssisted(t.assistiti, form["assistito_nome"]) && FormGet(form, "citta") == ""
    ensures r.1.MissingField? <==>
      && HasVolunteer(t.volontari, email)
      && (HasAssisted(t.assistiti, form["assistito_nome"]) || FormGet(form, "citta") != "")
      && !HasVisitFields(form)
    ensures r.1.MissingField? ==> r.1.field in VisitFields && r.1.field !in form
    ensures r.0.assistiti == t.assistiti
            || (&& HasVolunteer(t.volontari, email)
                && !HasAssisted(t.assistiti, form["assistito_nome"])
                && FormGet(form, "citta") != ""
                && r.0.assistiti == t.assistiti + [Assisted(form["assistito_nome"], form["citta"])])
    ensures (&& HasVolunteer(t.volontari, email) && !HasAssisted(t.assistiti, form["assistito_nome"])
             && FormGet(form, "citta") != "") ==>
      r.0.assistiti == t.assistiti + [Assisted(form["assistito_nome"], form["citta"])]
    ensures r.0.visite == t.visite
            || r.1 == Page(Some(VisitRecorded), FindVolunteer(t.volontari, email), FindAssisted(t.assistiti, form["assistito_nome"]))
    ensures r.1.Page? && r.1.messaggio == Some(VisitRecorded) <==>
      && HasVolunteer(t.volontari, email)
      && (HasAssisted(t.assistiti, form["assistito_nome"]) || FormGet(form, "citta") != "")
      && HasVisitFields(form)
    ensures (&& HasVolunteer(t.volontari, email)
             && (HasAssisted(t.assistiti, form["assistito_nome"]) || FormGet(form, "citta") != "")
             && HasVisitFields(form)) ==>
      r.0.visite == t.visite + [Visit(email, form["assistito_nome"], form["accoglienza"], form["data_visita"],
                                      form["necessita"], form["cosa_migliorare"])]
  {
    if HasVolunteer(t.volontari, email) {
      var nome := form["assistito_nome"];
      if !HasAssisted(t.assistiti, nome) && FormGet(form, "citta") == "" {
      } else {
        VisitFieldsChecked(form);
      }
    }
  }

  /** A new assisted person with a city stays in the table when a visit field is then missing:
      the insert is committed before the fields are read, and the request then fails. */
  lemma MissingFieldKeepsNewAssisted(t: Tables, email: string, form: Form)
    requires "assistito_nome" in form
    requires HasVolunteer(t.volontari, email) && !HasAssisted(t.assistiti, form["assistito_nome"])
    requires FormGet(form, "citta") != "" && !HasVisitFields(form)
    ensures SubmitStep(t, email, form).1.MissingField?
    ensures SubmitStep(t, email, form).0
            == t.(assistiti := t.assistiti + [Assisted(form["assistito_nome"], form["citta"])])
  {
    VisitFieldsChecked(form);
  }

  /** Registration keeps the e-mail key unique, keeps the foreign keys, and the row fetched after
      the insert is the new volunteer. */
  lemma RegisterKeepsInvariants(t: Tables, email: string, form: Form)
    requires "cognome" in form && "nome" in form && "cellulare" in form
    requires KeysUnique(t) && Consistent(t)
    ensures KeysUnique(RegisterStep(t, email, form).0) && Consistent(RegisterStep(t, email, form).0)
    ensures !HasVolunteer(t.volontari, email) ==>
      RegisterStep(t, email, form).1.volunteer == Some(Volunteer(form["cognome"], form["nome"], form["cellulare"], email))
  {
    var r := RegisterStep(t, email, form).0;
    if !HasVolunteer(t.volontari, email) {
      var w := Volunteer(form["cognome"], form["nome"], form["cellulare"], email);
      DistinctBySnoc(t.volontari, w, (u: Volunteer) => u.email);
      FindVolunteerUnique(r.volontari, w);
      forall v | v in r.visite
        ensures HasVolunteer(r.volontari, v.volontarioEmail)
      {
        var u :| u in t.volontari && u.email == v.volontarioEmail;
        assert u in r.volontari;
      }
    }
  }

  /** Submitting a visit keeps both keys unique and the foreign keys: the visit is only inserted
      once its volunteer and its assisted person exist. */
  lemma SubmitKeepsInvariants(t: Tables, email: string, form: Form)
    requires "assistito_nome" in form
    requires KeysUnique(t) && Consistent(t)
    ensures KeysUnique(SubmitStep(t, email, form).0) && Consistent(SubmitStep(t, email, form).0)
  {
    SubmitOutcomes(t, email, form, SubmitStep(t, email, form));
    var r := SubmitStep(t, email, form).0;
    var nome := form["assistito_nome"];
    if r.assistiti != t.assistiti {
      DistinctBySnoc(t.assistiti, Assisted(nome, form["citta"]), (b: Assisted) => b.nomeSigla);
    }
    forall v | v in r.visite
      ensures HasVolunteer(r.volontari, v.volontarioEmail) && HasAssisted(r.assistiti, v.assistitoNome)
    {
      if v in t.visite {
        var a :| a in t.assistiti && a.nomeSigla == v.assistitoNome;
        assert a in r.assistiti;
      } else {
        assert v.volontarioEmail == email && v.assistitoNome == nome;
        if HasAssisted(t.assistiti, nome) {
          var a :| a in t.assistiti && a.nomeSigla == nome;
          assert a in r.assistiti;
        } else {
          assert Assisted(nome, form["citta"]) in r.assistiti;
        }
      }
    }
  }

  /** A recorded visit adds exactly one row, and a request that records no visit adds none. */
  lemma SubmitAddsAtMostOneVisit(t: Tables, email: string, form: Form)
    requires "assistito_nome" in form
    ensures var r := SubmitStep(t, email, form);
      |r.0.visite| == |t.visite| + (if r.1.Page? && r.1.messaggio == Some(VisitRecorded) then 1 else 0)
  {
    SubmitOutcomes(t, email, form, SubmitStep(t, email, form));
  }
}
