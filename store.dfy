/** The database behind the volunteer form, with the e-mail kept in the session, and the request
    handler of `index` (app.py:45-124) that updates both in place. */
module Store {
  import opened Optional
  import opened Text
  import opened Schema
  import opened Submission

  class Database {
    var volontari: seq<Volunteer>
    var assistiti: seq<Assisted>
    var visite: seq<Visit>
    /** `session['email']`; a missing entry reads as the empty string. */
    var sessionEmail: string

    function Snapshot(): Tables
      reads this
    {
      Tables(volontari, assistiti, visite)
    }

    /** The UNIQUE and FOREIGN KEY constraints of the schema (app.py:18-43). */
    ghost predicate Valid()
      reads this
    {
      KeysUnique(Snapshot()) && Consistent(Snapshot())
    }

    /** Empty tables, as `init_db` leaves a fresh database, and an empty session. */
    constructor()
      ensures Snapshot() == Tables([], [], []) && sessionEmail == ""
      ensures Valid()
    {
      volontari := [];
      assistiti := [];
      visite := [];
      sessionEmail := "";
    }

    /** A GET of the form page (app.py:116-123): the volunteer row of the session e-mail, if any. */
    method Show() returns (o: Outcome)
      ensures o == Page(None, if Lower(sessionEmail) == "" then None else FindVolunteer(volontari, Lower(sessionEmail)), None)
    {
      var email := Lower(sessionEmail);
      var found: Option<Volunteer> := None;
      if email != "" {
        found := FindVolunteer(volontari, email);
      }
      o := Page(None, found, None);
    }

    /** The `check_email` branch (app.py:53-63): remember the lower-cased e-mail and look it up. */
    method CheckEmail(form: Form) returns (o: Outcome)
      modifies this
      ensures Snapshot() == old(Snapshot())
      ensures sessionEmail == Lower(FormGet(form, "email"))
      ensures o == Page(if HasVolunteer(volontari, sessionEmail) then None else Some(EmailNotRegistered),
                        FindVolunteer(volontari, sessionEmail), None)
    {
      var email := Lower(FormGet(form, "email"));
      sessionEmail := email;
      var found := FindVolunteer(volontari, email);
      var messaggio: Option<Message> := None;
      if found.None? {
        messaggio := Some(EmailNotRegistered);
      }
      o := Page(messaggio, found, None);
    }

    /** The registration branch (app.py:64-82). */
    method Register(form: Form) returns (o: Outcome)
      requires "cognome" in form && "nome" in form && "cellulare" in form
      modifies this
      ensures (Snapshot(), o) == RegisterStep(old(Snapshot()), Lower(old(sessionEmail)), form)
      ensures sessionEmail == old(sessionEmail)
      ensures old(Valid()) ==> Valid()
    {
      var email := Lower(sessionEmail);
      ghost var before := Snapshot();
      if HasVolunteer(volontari, email) {
        o := Page(Some(EmailAlreadyRegistered), None, None);
      } else {
        volontari := volontari + [Volunteer(form["cognome"], form["nome"], form["cellulare"], email)];
        o := Page(Some(VolunteerRegistered), FindVolunteer(volontari, email), None);
      }
      if KeysUnique(before) && Consistent(before) {
        RegisterKeepsInvariants(before, email, form);
      }
    }

    /** The visit branch (app.py:83-115), which keeps the constraints. */
    method SubmitVisit(form: Form) returns (o: Outcome)
      requires "assistito_nome" in form
      modifies this
      ensures (Snapshot(), o) == SubmitStep(old(Snapshot()), Lower(old(sessionEmail)), form)
      ensures sessionEmail == old(sessionEmail)
      ensures old(Valid()) ==> Valid()
    {
      ghost var before := Snapshot();
      if KeysUnique(before) && Consistent(before) {
        SubmitKeepsInvariants(before, Lower(sessionEmail), form);
      }
      o := ApplyVisit(form);
    }

    /** The statements of the visit branch, step by step: a new assisted person is committed
        before the visit fields are read. */
    method ApplyVisit(form: Form) returns (o: Outcome)
      requires "assistito_nome" in form
      modifies this
      ensures (Snapshot(), o) == SubmitStep(old(Snapshot()), Lower(old(sessionEmail)), form)
      ensures sessionEmail == old(sessionEmail)
    {
      var email := Lower(sessionEmail);
      var volunteer := FindVolunteer(volontari, email);
      if volunteer.None? {
        return Page(Some(VolunteerNotFound), None, None);
      }
      var nome := form["assistito_nome"];
      var assisted := FindAssisted(assistiti, nome);
      if assisted.None? {
        var citta := FormGet(form, "citta");
        if citta == "" {
          return Page(Some(CityRequired), volunteer, None);
        }
        assistiti := assistiti + [Assisted(nome, citta)];
      }
      var missing := FirstMissing(form, VisitFields);
      if missing.Some? {
        return MissingField(missing.value);
      }
      VisitFieldsChecked(form);
      visite := visite + [Visit(email, nome, form["accoglienza"], form["data_visita"], form["necessita"],
                                form["cosa_migliorare"])];
      o := Page(Some(VisitRecorded), volunteer, assisted);
    }

    /** A POST of the form page: the first branch whose fields are present runs (app.py:52-115). */
    method Post(form: Form) returns (o: Outcome)
      modifies this
      ensures old(Valid()) ==> Valid()
      ensures "check_email" !in form ==> sessionEmail == old(sessionEmail)
      ensures ("check_email" in form || (!("cognome" in form && "nome" in form && "cellulare" in form)
                                         && "assistito_nome" !in form)) ==> Snapshot() == old(Snapshot())
    {
      if "check_email" in form {
        o := CheckEmail(form);
      } else if "cognome" in form && "nome" in form && "cellulare" in form {
        o := Register(form);
      } else if "assistito_nome" in form {
        o := SubmitVisit(form);
      } else {
        o := Page(None, None, None);
      }
    }
  }

  /** A volunteer who registers and then submits a visit for a known assisted person with every
      field filled in finds the visit recorded under the lower-cased e-mail. */
  method RegisterThenVisit(db: Database, email: string, w: Volunteer, a: Assisted, form: Form)
    returns (o: Outcome)
    requires db.Valid()
    requires !HasVolunteer(db.volontari, Lower(email)) && a in db.assistiti
    requires form.Keys == {"assistito_nome", "accoglienza", "data_visita", "necessita", "cosa_migliorare"}
    requires form["assistito_nome"] == a.nomeSigla
    modifies db
    ensures db.Valid()
    ensures o == Page(Some(VisitRecorded), Some(Volunteer(w.cognome, w.nome, w.cellulare, Lower(email))), Some(a))
    ensures db.visite == old(db.visite) + [Visit(Lower(email), a.nomeSigla, form["accoglienza"], form["data_visita"],
                                                 form["necessita"], form["cosa_migliorare"])]
  {
    var check := db.CheckEmail(map["check_email" := "", "email" := email]);
    LowerIdempotent(email);
    var reg := db.Register(map["cognome" := w.cognome, "nome" := w.nome, "cellulare" := w.cellulare]);
    ghost var t := db.Snapshot();
    FindVolunteerUnique(t.volontari, Volunteer(w.cognome, w.nome, w.cellulare, Lower(email)));
    FindAssistedUnique(t.assistiti, a);
    o := db.SubmitVisit(form);
  }
}
