/** The report query text and its parameter list, built by the same code in `report`,
    `download_csv` and `download_pdf` (app.py:156-168, 204-216, 245-257). */
module QueryBuilder {
  import opened Text
  import opened Sequences
  import opened Schema
  import opened Filters

  /** Which driver runs the query: PostgreSQL when `DATABASE_URL` is set (app.py:13), SQLite
      otherwise. Only the placeholder style and the code path differ. */
  datatype Dialect = Sqlite | Postgres

  function Placeholder(d: Dialect): string
  {
    if d == Postgres then "%s" else "?"
  }

  // The text of the unfiltered query (app.py:156-158), spelled in pieces.
  const SelectList: string :=
    "SELECT v.cognome, v.nome, " + "vi.assistito_nome, a.citta, " + "vi.accoglienza, vi.data_visita, "
    + "vi.necessita, vi.cosa_migliorare "
  const FromVisits: string := "FROM visite vi " + "JOIN volontari v " + "ON vi.volontario_email = v.email "
  const JoinAssisted: string := "JOIN assistiti a " + "ON vi.assistito_nome = a.nome_sigla"
  const BaseQuery: string := SelectList + FromVisits + JoinAssisted

  /** One conjunct of the WHERE clause, carrying the value bound to its placeholder. */
  datatype Clause = EmailIs(email: string) | DateFrom(start: string) | DateTo(bound: string)

  /** What a conjunct means for a visit. */
  predicate Holds(c: Clause, v: Visit)
  {
    match c
    case EmailIs(e) => v.volontarioEmail == e
    case DateFrom(s) => TextLe(s, v.dataVisita)
    case DateTo(b) => TextLe(v.dataVisita, b)
  }

  /** The text of a conjunct: it never contains the value itself, only a placeholder. */
  function ClauseText(c: Clause, ph: string): string
  {
    match c
    case EmailIs(_) => " v.email = " + ph
    case DateFrom(_) => " vi.data_visita >= " + ph
    case DateTo(_) => " vi.data_visita <= " + ph
  }

  function Param(c: Clause): string
  {
    match c
    case EmailIs(e) => e
    case DateFrom(s) => s
    case DateTo(b) => b
  }

  /** The values bound to the placeholders, in order. */
  function Params(cs: seq<Clause>): (ps: seq<string>)
    ensures |ps| == |cs|
  {
    if cs == [] then [] else Params(cs[..|cs| - 1]) + [Param(cs[|cs| - 1])]
  }

  /** The conjuncts a filter asks for: one per non-empty criterion, in the order e-mail, start, end. */
  function ActiveClauses(f: Filter): seq<Clause>
  {
    (if f.volontarioEmail != "" then [EmailIs(f.volontarioEmail)] else [])
    + (if f.dataInizio != "" then [DateFrom(f.dataInizio)] else [])
    + (if f.dataFine != "" then [DateTo(f.dataFine)] else [])
  }

  /** The WHERE clause meant by the code: nothing for no conjunct, otherwise " WHERE" before the
      first conjunct and " AND" before each later one. */
  function WhereClause(cs: seq<Clause>, ph: string): string
  {
    if cs == [] then ""
    else WhereClause(cs[..|cs| - 1], ph) + ((if |cs| == 1 then " WHERE" else " AND") + ClauseText(cs[|cs| - 1], ph))
  }

  /** The query the code is evidently meant to build. */
  function IntendedQuery(f: Filter, d: Dialect): string
  {
    BaseQuery + WhereClause(ActiveClauses(f), Placeholder(d))
  }

  /** What the SQLite branch actually appends (app.py:161, 164, 167): the conditional expression
      `(' AND' if 'WHERE' in query else ' WHERE') + X if PG else Y` groups as `(... + X) if PG else Y`,
      so a date conjunct gets no connective at all; only the e-mail conjunct carries " WHERE". */
  function SqliteAsWritten(cs: seq<Clause>): string
  {
    if cs == [] then ""
    else
      var c := cs[|cs| - 1];
      SqliteAsWritten(cs[..|cs| - 1]) + ((if c.EmailIs? then " WHERE" else "") + ClauseText(c, "?"))
  }

  /** The query text as written, in both dialects. */
  function AsWrittenQuery(f: Filter, d: Dialect): string
  {
    if d == Postgres then IntendedQuery(f, d) else BaseQuery + SqliteAsWritten(ActiveClauses(f))
  }

  // ---------------------------------------------------------------------------------------------
  // Character counting: the only upper-case W a query can hold is the one of " WHERE".

  lemma SelectListHasNoW()
    ensures 'W' !in SelectList
  {
    NamesHaveNoW();
    VisitColumnsHaveNoW();
  }

  lemma NamesHaveNoW()
    ensures 'W' !in "SELECT v.cognome, v.nome, "
    ensures 'W' !in "vi.assistito_nome, a.citta, "
  {
  }

  lemma VisitColumnsHaveNoW()
    ensures 'W' !in "vi.accoglienza, vi.data_visita, "
    ensures 'W' !in "vi.necessita, vi.cosa_migliorare "
  {
  }

  lemma FromVisitsHasNoW()
    ensures 'W' !in FromVisits
  {
  }

  lemma JoinAssistedHasNoW()
    ensures 'W' !in JoinAssisted
  {
  }

  lemma BaseQueryHasNoW()
    ensures 'W' !in BaseQuery
  {
    SelectListHasNoW();
    FromVisitsHasNoW();
    JoinAssistedHasNoW();
  }

  lemma ClauseTextHasNoW(c: Clause, ph: string)
    requires 'W' !in ph
    ensures 'W' !in ClauseText(c, ph)
  {
    assert 'W' !in " v.email = " && 'W' !in " vi.data_visita >= " && 'W' !in " vi.data_visita <= ";
  }

  lemma WhereHasOneW()
    ensures multiset(" WHERE")['W'] == 1
  {
    assert multiset(" WHERE") == multiset{' ', 'W', 'H', 'E', 'R', 'E'};
  }

  lemma ConnectiveCountsW(first: bool, c: Clause, ph: string)
    requires 'W' !in ph
    ensures multiset((if first then " WHERE" else " AND") + ClauseText(c, ph))['W'] == if first then 1 else 0
  {
    ClauseTextHasNoW(c, ph);
    if first {
      FirstConnectiveCountsW(ClauseText(c, ph));
    } else {
      LaterConnectiveCountsW(ClauseText(c, ph));
    }
  }

  lemma FirstConnectiveCountsW(t: string)
    requires 'W' !in t
    ensures multiset(" WHERE" + t)['W'] == 1
  {
    WhereHasOneW();
    assert multiset(" WHERE" + t) == multiset(" WHERE") + multiset(t);
  }

  lemma LaterConnectiveCountsW(t: string)
    requires 'W' !in t
    ensures multiset(" AND" + t)['W'] == 0
  {
    assert multiset(" AND") == multiset{' ', 'A', 'N', 'D'};
    assert multiset(" AND" + t) == multiset(" AND") + multiset(t);
  }

  lemma {:induction false} WhereClauseCountsW(cs: seq<Clause>, ph: string)
    requires 'W' !in ph
    ensures multiset(WhereClause(cs, ph))['W'] == if cs == [] then 0 else 1
  {
    if cs != [] {
      var init := cs[..|cs| - 1];
      WhereClauseCountsW(init, ph);
      ConnectiveCountsW(|cs| == 1, cs[|cs| - 1], ph);
      assert multiset(WhereClause(cs, ph)) == multiset(WhereClause(init, ph))
        + multiset((if |cs| == 1 then " WHERE" else " AND") + ClauseText(cs[|cs| - 1], ph));
    }
  }

  /** Only the e-mail conjunct brings a W into the SQLite text as written. */
  lemma {:induction false} SqliteDatesHaveNoW(cs: seq<Clause>)
    requires forall c :: c in cs ==> !c.EmailIs?
    ensures 'W' !in SqliteAsWritten(cs)
  {
    if cs != [] {
      var init, c := cs[..|cs| - 1], cs[|cs| - 1];
      assert forall x :: x in init ==> x in cs;
      SqliteDatesHaveNoW(init);
      ClauseTextHasNoW(c, "?");
    }
  }

  // ---------------------------------------------------------------------------------------------
  // What the intended query says.

  /** A non-empty WHERE clause after a text free of W puts WHERE into the query. */
  lemma {:induction false} WhereClauseShowsWhere(base: string, cs: seq<Clause>, ph: string)
    requires cs != []
    ensures Contains(base + WhereClause(cs, ph), "WHERE")
  {
    var init, c := cs[..|cs| - 1], cs[|cs| - 1];
    if init == [] {
      OneClauseSplit(base, cs, ph);
      ContainsInfix(base + " ", "WHERE", ClauseText(c, ph));
    } else {
      WhereClauseShowsWhere(base, init, ph);
      LaterClauseSplit(base, cs, ph);
      ContainsExtend(base + WhereClause(init, ph), " AND" + ClauseText(c, ph), "WHERE");
    }
  }

  lemma OneClauseSplit(base: string, cs: seq<Clause>, ph: string)
    requires |cs| == 1
    ensures base + WhereClause(cs, ph) == base + " " + "WHERE" + ClauseText(cs[0], ph)
  {
    assert cs[..0] == [];
  }

  lemma LaterClauseSplit(base: string, cs: seq<Clause>, ph: string)
    requires |cs| > 1
    ensures base + WhereClause(cs, ph) == (base + WhereClause(cs[..|cs| - 1], ph)) + (" AND" + ClauseText(cs[|cs| - 1], ph))
  {
  }

  /** After a text free of W, a WHERE clause holds WHERE exactly when it has a conjunct, and then
      exactly once. */
  lemma WhereClauseShape(base: string, cs: seq<Clause>, ph: string)
    requires 'W' !in base && 'W' !in ph
    ensures Contains(base + WhereClause(cs, ph), "WHERE") <==> cs != []
    ensures cs != [] ==>
      forall i, j :: OccursAt(base + WhereClause(cs, ph), "WHERE", i) && OccursAt(base + WhereClause(cs, ph), "WHERE", j) ==> i == j
  {
    var q := base + WhereClause(cs, ph);
    WhereClauseCountsW(cs, ph);
    assert multiset(q) == multiset(base) + multiset(WhereClause(cs, ph));
    if cs == [] {
      assert 'W' !in q;
      MissingHeadNotContained(q, "WHERE");
    } else {
      WhereClauseShowsWhere(base, cs, ph);
      SingleHeadSingleOccurrence(q, "WHERE");
    }
  }

  /** With no criterion the query is the bare join and holds no WHERE; otherwise it holds exactly
      one occurrence of WHERE, and it is the clause of WhereClause: the conjuncts joined by AND. */
  lemma IntendedQueryHasOneWhere(f: Filter, d: Dialect)
    ensures ActiveClauses(f) == [] <==> IntendedQuery(f, d) == BaseQuery
    ensures Contains(IntendedQuery(f, d), "WHERE") <==> ActiveClauses(f) != []
    ensures ActiveClauses(f) != [] ==>
      forall i, j :: OccursAt(IntendedQuery(f, d), "WHERE", i) && OccursAt(IntendedQuery(f, d), "WHERE", j) ==> i == j
  {
    BaseQueryHasNoW();
    WhereClauseShape(BaseQuery, ActiveClauses(f), Placeholder(d));
    if ActiveClauses(f) != [] {
      assert |WhereClause(ActiveClauses(f), Placeholder(d))| > 0;
    }
  }

  /** The conjuncts say exactly what the filter predicate says. */
  lemma ClausesDenoteFilter(f: Filter, v: Visit)
    ensures Matches(f, v) <==> forall c :: c in ActiveClauses(f) ==> Holds(c, v)
  {
    var cs := ActiveClauses(f);
    var e := if f.volontarioEmail != "" then [EmailIs(f.volontarioEmail)] else [];
    var s := if f.dataInizio != "" then [DateFrom(f.dataInizio)] else [];
    var t := if f.dataFine != "" then [DateTo(f.dataFine)] else [];
    assert cs == e + s + t;
    if Matches(f, v) {
      forall c | c in cs
        ensures Holds(c, v)
      {
        assert c in e || c in s || c in t;
      }
    }
    if forall c :: c in cs ==> Holds(c, v) {
      if f.volontarioEmail != "" {
        assert EmailIs(f.volontarioEmail) in cs;
      }
      if f.dataInizio != "" {
        assert DateFrom(f.dataInizio) in cs;
      }
      if f.dataFine != "" {
        assert DateTo(f.dataFine) in cs;
      }
    }
  }

  lemma {:induction false} ParamsAppend(cs: seq<Clause>, ds: seq<Clause>)
    ensures Params(cs + ds) == Params(cs) + Params(ds)
    decreases |ds|
  {
    if ds != [] {
      var init := ds[..|ds| - 1];
      assert (cs + ds)[..|cs + ds| - 1] == cs + init;
      ParamsAppend(cs, init);
    } else {
      assert cs + ds == cs;
    }
  }

  /** The parameter list holds one entry per non-empty criterion, in the order e-mail, start, end. */
  lemma ParamsFollowCriteria(f: Filter)
    ensures Params(ActiveClauses(f)) == Keep([f.volontarioEmail, f.dataInizio, f.dataFine], (x: string) => x != "")
  {
    var p := (x: string) => x != "";
    ParamsOfActiveClauses(f);
    KeepThree(f.volontarioEmail, f.dataInizio, f.dataFine, p);
  }

  lemma ParamsOfActiveClauses(f: Filter)
    ensures Params(ActiveClauses(f)) ==
      (if f.volontarioEmail != "" then [f.volontarioEmail] else [])
      + (if f.dataInizio != "" then [f.dataInizio] else [])
      + (if f.dataFine != "" then [f.dataFine] else [])
  {
    var e := if f.volontarioEmail != "" then [EmailIs(f.volontarioEmail)] else [];
    var s := if f.dataInizio != "" then [DateFrom(f.dataInizio)] else [];
    var t := if f.dataFine != "" then [DateTo(f.dataFine)] else [];
    ParamsAppend(e + s, t);
    ParamsAppend(e, s);
    assert Params(e) == (if f.volontarioEmail != "" then [f.volontarioEmail] else []);
    assert Params(s) == (if f.dataInizio != "" then [f.dataInizio] else []);
    assert Params(t) == (if f.dataFine != "" then [f.dataFine] else []);
  }

  lemma KeepThree(x: string, y: string, z: string, p: string -> bool)
    ensures Keep([x, y, z], p) == (if p(x) then [x] else []) + (if p(y) then [y] else []) + (if p(z) then [z] else [])
  {
    assert [x, y, z] == [x] + [y] + [z];
    KeepAppend([x] + [y], [z], p);
    KeepAppend([x], [y], p);
    KeepOne(x, p);
    KeepOne(y, p);
    KeepOne(z, p);
  }

  lemma KeepOne(x: string, p: string -> bool)
    ensures Keep([x], p) == if p(x) then [x] else []
  {
    assert [x][1..] == [];
  }

  /** Two conjuncts of the same kind, whatever their values. */
  predicate SameKind(c: Clause, e: Clause)
  {
    c.EmailIs? == e.EmailIs? && c.DateFrom? == e.DateFrom? && c.DateTo? == e.DateTo?
  }

  /** Two lists of conjuncts of the same kinds, position by position. */
  predicate SameShape(cs: seq<Clause>, ds: seq<Clause>)
  {
    |cs| == |ds| && forall i :: 0 <= i < |cs| ==> SameKind(cs[i], ds[i])
  }

  lemma SameShapeAppend(a: seq<Clause>, b: seq<Clause>, c: seq<Clause>, d: seq<Clause>)
    requires SameShape(a, c) && SameShape(b, d)
    ensures SameShape(a + b, c + d)
  {
    forall i | 0 <= i < |a + b|
      ensures SameKind((a + b)[i], (c + d)[i])
    {
      if i < |a| {
        assert (a + b)[i] == a[i] && (c + d)[i] == c[i];
      } else {
        assert (a + b)[i] == b[i - |a|] && (c + d)[i] == d[i - |a|];
      }
    }
  }

  /** The query text depends only on which criteria are present, never on their values: the values
      travel as parameters, so a criterion cannot inject SQL. */
  lemma QueryIgnoresValues(f: Filter, g: Filter, d: Dialect)
    requires (f.volontarioEmail == "") == (g.volontarioEmail == "")
    requires (f.dataInizio == "") == (g.dataInizio == "")
    requires (f.dataFine == "") == (g.dataFine == "")
    ensures AsWrittenQuery(f, d) == AsWrittenQuery(g, d)
    ensures IntendedQuery(f, d) == IntendedQuery(g, d)
  {
    ActiveShapes(f, g);
    SameShapeSameText(ActiveClauses(f), ActiveClauses(g), Placeholder(d));
  }

  lemma ActiveShapes(f: Filter, g: Filter)
    requires (f.volontarioEmail == "") == (g.volontarioEmail == "")
    requires (f.dataInizio == "") == (g.dataInizio == "")
    requires (f.dataFine == "") == (g.dataFine == "")
    ensures SameShape(ActiveClauses(f), ActiveClauses(g))
  {
    var ef, eg := Part(f.volontarioEmail, EmailIs(f.volontarioEmail)), Part(g.volontarioEmail, EmailIs(g.volontarioEmail));
    var sf, sg := Part(f.dataInizio, DateFrom(f.dataInizio)), Part(g.dataInizio, DateFrom(g.dataInizio));
    var tf, tg := Part(f.dataFine, DateTo(f.dataFine)), Part(g.dataFine, DateTo(g.dataFine));
    assert SameShape(ef, eg) && SameShape(sf, sg) && SameShape(tf, tg);
    SameShapeAppend([], ef, [], eg);
    SameShapeAppend([] + ef, sf, [] + eg, sg);
    SameShapeAppend(([] + ef) + sf, tf, ([] + eg) + sg, tg);
    ActiveParts(f);
    ActiveParts(g);
  }

  lemma {:induction false} SameShapeSameText(cs: seq<Clause>, ds: seq<Clause>, ph: string)
    requires SameShape(cs, ds)
    ensures WhereClause(cs, ph) == WhereClause(ds, ph)
    ensures SqliteAsWritten(cs) == SqliteAsWritten(ds)
  {
    if cs != [] {
      SameShapeSameText(cs[..|cs| - 1], ds[..|ds| - 1], ph);
      var c, e := cs[|cs| - 1], ds[|ds| - 1];
      assert SameKind(c, e);
      assert ClauseText(c, ph) == ClauseText(e, ph) && ClauseText(c, "?") == ClauseText(e, "?");
    }
  }

  // ---------------------------------------------------------------------------------------------
  // The builder as written, and as intended.

  /** Emitting one more conjunct after a query built from `cs`. */
  lemma ExtendWhere(base: string, q: string, cs: seq<Clause>, c: Clause, ph: string)
    requires q == base + WhereClause(cs, ph)
    ensures q + ((if cs == [] then " WHERE" else " AND") + ClauseText(c, ph)) == base + WhereClause(cs + [c], ph)
  {
    var ds := cs + [c];
    assert ds[..|ds| - 1] == cs && ds[|ds| - 1] == c;
    var x := (if cs == [] then " WHERE" else " AND") + ClauseText(c, ph);
    assert WhereClause(ds, ph) == WhereClause(cs, ph) + x;
    Associative(base, WhereClause(cs, ph), x);
  }

  /** Concatenation is associative. Proved apart from the lemmas that use it: the step is cheap on
      three opaque strings and expensive among the facts about the query text. */
  lemma Associative(a: string, b: string, c: string)
    ensures (a + b) + c == a + (b + c)
  {
  }

  lemma ExtendSqlite(base: string, q: string, cs: seq<Clause>, c: Clause)
    requires q == base + SqliteAsWritten(cs)
    ensures c.EmailIs? ==> q + (" WHERE" + ClauseText(c, "?")) == base + SqliteAsWritten(cs + [c])
    ensures !c.EmailIs? ==> q + ClauseText(c, "?") == base + SqliteAsWritten(cs + [c])
  {
    var ds := cs + [c];
    assert ds[..|ds| - 1] == cs && ds[|ds| - 1] == c;
    var x := (if c.EmailIs? then " WHERE" else "") + ClauseText(c, "?");
    assert SqliteAsWritten(ds) == SqliteAsWritten(cs) + x;
    Associative(base, SqliteAsWritten(cs), x);
    if !c.EmailIs? {
      assert x == ClauseText(c, "?");
    }
  }

  lemma ExtendParams(ps: seq<string>, cs: seq<Clause>, c: Clause)
    requires ps == Params(cs)
    ensures ps + [Param(c)] == Params(cs + [c])
  {
    assert (cs + [c])[..|cs|] == cs;
  }

  /** The query holds WHERE exactly when some conjunct has been emitted. */
  lemma WhereMarksClauses(cs: seq<Clause>, ph: string)
    requires 'W' !in ph
    ensures Contains(BaseQuery + WhereClause(cs, ph), "WHERE") <==> cs != []
  {
    BaseQueryHasNoW();
    WhereClauseShape(BaseQuery, cs, ph);
  }

  /** The connective chosen by `' AND' if 'WHERE' in query else ' WHERE'`. */
  function Connective(query: string): string
  {
    if Contains(query, "WHERE") then " AND" else " WHERE"
  }

  /** On a query built so far, the connective test sees exactly whether a conjunct was emitted. */
  lemma ConnectiveAfter(cs: seq<Clause>, ph: string)
    requires 'W' !in ph
    ensures Connective(BaseQuery + WhereClause(cs, ph)) == if cs == [] then " WHERE" else " AND"
  {
    WhereMarksClauses(cs, ph);
  }

  // The literals appended by app.py:161, 164 and 167, as the conjunct texts they spell.
  lemma EmailLiterals(e: string)
    ensures " WHERE v.email = %s" == " WHERE" + ClauseText(EmailIs(e), "%s")
    ensures " WHERE v.email = ?" == " WHERE" + ClauseText(EmailIs(e), "?")
  {
  }

  lemma DateLiterals(s: string)
    ensures " vi.data_visita >= %s" == ClauseText(DateFrom(s), "%s")
    ensures " vi.data_visita >= ?" == ClauseText(DateFrom(s), "?")
    ensures " vi.data_visita <= %s" == ClauseText(DateTo(s), "%s")
    ensures " vi.data_visita <= ?" == ClauseText(DateTo(s), "?")
  {
  }

  /** The text built so far from the conjuncts `cs`, as the code writes it in dialect `d`. */
  ghost predicate BuiltAsWritten(query: string, cs: seq<Clause>, d: Dialect)
  {
    if d == Postgres then query == BaseQuery + WhereClause(cs, "%s") else query == BaseQuery + SqliteAsWritten(cs)
  }

  /** One of the three `if` bodies of app.py:160-168 as written: the e-mail conjunct comes first and
      always opens with " WHERE"; a date conjunct chooses its connective only under PostgreSQL. */
  method AppendAsWritten(query: string, ghost cs: seq<Clause>, c: Clause, d: Dialect) returns (q: string)
    requires BuiltAsWritten(query, cs, d)
    requires c.EmailIs? ==> cs == []
    ensures BuiltAsWritten(q, cs + [c], d)
  {
    if d == Postgres {
      ExtendWhere(BaseQuery, query, cs, c, "%s");
    } else {
      ExtendSqlite(BaseQuery, query, cs, c);
    }
    match c
    case EmailIs(e) =>
      EmailLiterals(e);
      q := query + if d == Postgres then " WHERE v.email = %s" else " WHERE v.email = ?";
    case DateFrom(s) =>
      DateLiterals(s);
      if d == Postgres {
        ConnectiveAfter(cs, "%s");
      }
      q := query + if d == Postgres then Connective(query) + " vi.data_visita >= %s" else " vi.data_visita >= ?";
    case DateTo(b) =>
      DateLiterals(b);
      if d == Postgres {
        ConnectiveAfter(cs, "%s");
      }
      q := query + if d == Postgres then Connective(query) + " vi.data_visita <= %s" else " vi.data_visita <= ?";
  }

  /** The conjunct of one criterion: present when the criterion is non-empty. */
  function Part(value: string, c: Clause): seq<Clause>
  {
    if value != "" then [c] else []
  }

  lemma ActiveParts(f: Filter)
    ensures ActiveClauses(f) == (([] + Part(f.volontarioEmail, EmailIs(f.volontarioEmail)))
                                 + Part(f.dataInizio, DateFrom(f.dataInizio))) + Part(f.dataFine, DateTo(f.dataFine))
  {
    assert [] + Part(f.volontarioEmail, EmailIs(f.volontarioEmail)) == Part(f.volontarioEmail, EmailIs(f.volontarioEmail));
  }

  /** One `if value:` of app.py:160-168 as written, with the parameter it appends. */
  method AddAsWritten(query: string, params: seq<string>, ghost cs: seq<Clause>, value: string, c: Clause, d: Dialect)
    returns (q: string, ps: seq<string>)
    requires BuiltAsWritten(query, cs, d) && params == Params(cs)
    requires Param(c) == value
    requires c.EmailIs? ==> cs == []
    ensures BuiltAsWritten(q, cs + Part(value, c), d) && ps == Params(cs + Part(value, c))
  {
    if value != "" {
      q := AppendAsWritten(query, cs, c, d);
      ExtendParams(params, cs, c);
      ps := params + [value];
    } else {
      assert cs + Part(value, c) == cs;
      q, ps := query, params;
    }
  }

  lemma AsWrittenOfClauses(query: string, cs: seq<Clause>, f: Filter, d: Dialect)
    requires BuiltAsWritten(query, cs, d)
    requires cs == ActiveClauses(f)
    ensures query == AsWrittenQuery(f, d)
  {
  }

  /** The builder of app.py:156-168 as written. In the PostgreSQL dialect it builds the intended
      query; in the SQLite dialect it builds SqliteAsWritten. The parameter list is right in both. */
  method BuildQuery(f: Filter, d: Dialect) returns (query: string, params: seq<string>)
    ensures params == Params(ActiveClauses(f))
    ensures query == AsWrittenQuery(f, d)
  {
    ghost var e := Part(f.volontarioEmail, EmailIs(f.volontarioEmail));
    ghost var s := Part(f.dataInizio, DateFrom(f.dataInizio));
    ghost var t := Part(f.dataFine, DateTo(f.dataFine));
    assert WhereClause([], "%s") == [] && SqliteAsWritten([]) == [];
    assert BaseQuery == BaseQuery + WhereClause([], "%s") && BaseQuery == BaseQuery + SqliteAsWritten([]);
    query, params := AddAsWritten(BaseQuery, [], [], f.volontarioEmail, EmailIs(f.volontarioEmail), d);
    query, params := AddAsWritten(query, params, [] + e, f.dataInizio, DateFrom(f.dataInizio), d);
    query, params := AddAsWritten(query, params, ([] + e) + s, f.dataFine, DateTo(f.dataFine), d);
    ActiveParts(f);
    AsWrittenOfClauses(query, (([] + e) + s) + t, f, d);
  }

  /** One `if` body with the conditional expression grouped as intended: the connective is chosen
      in both dialects and only the placeholder depends on the dialect. */
  method AppendIntended(query: string, ghost cs: seq<Clause>, c: Clause, ph: string) returns (q: string)
    requires 'W' !in ph
    requires query == BaseQuery + WhereClause(cs, ph)
    requires c.EmailIs? ==> cs == []
    ensures q == BaseQuery + WhereClause(cs + [c], ph)
  {
    ExtendWhere(BaseQuery, query, cs, c, ph);
    ConnectiveAfter(cs, ph);
    match c
    case EmailIs(_) =>
      q := query + (" WHERE" + (" v.email = " + ph));
    case DateFrom(_) =>
      q := query + (Connective(query) + (" vi.data_visita >= " + ph));
    case DateTo(_) =>
      q := query + (Connective(query) + (" vi.data_visita <= " + ph));
  }

  /** One `if value:` with the intended grouping, with the parameter it appends. */
  method AddIntended(query: string, params: seq<string>, ghost cs: seq<Clause>, value: string, c: Clause, ph: string)
    returns (q: string, ps: seq<string>)
    requires 'W' !in ph
    requires query == BaseQuery + WhereClause(cs, ph) && params == Params(cs)
    requires Param(c) == value
    requires c.EmailIs? ==> cs == []
    ensures q == BaseQuery + WhereClause(cs + Part(value, c), ph) && ps == Params(cs + Part(value, c))
  {
    if value != "" {
      q := AppendIntended(query, cs, c, ph);
      ExtendParams(params, cs, c);
      ps := params + [value];
    } else {
      assert cs + Part(value, c) == cs;
      q, ps := query, params;
    }
  }

  lemma IntendedOfClauses(query: string, cs: seq<Clause>, f: Filter, d: Dialect)
    requires query == BaseQuery + WhereClause(cs, Placeholder(d))
    requires cs == ActiveClauses(f)
    ensures query == IntendedQuery(f, d)
  {
  }

  /** The builder as intended: the query of IntendedQuery, with the same parameters. */
  method BuildQueryCorrected(f: Filter, d: Dialect) returns (query: string, params: seq<string>)
    ensures params == Params(ActiveClauses(f))
    ensures query == IntendedQuery(f, d)
  {
    ghost var e := Part(f.volontarioEmail, EmailIs(f.volontarioEmail));
    ghost var s := Part(f.dataInizio, DateFrom(f.dataInizio));
    ghost var t := Part(f.dataFine, DateTo(f.dataFine));
    var ph := Placeholder(d);
    assert WhereClause([], ph) == [] && SqliteAsWritten([]) == [];
    assert BaseQuery == BaseQuery + WhereClause([], ph) && BaseQuery == BaseQuery + SqliteAsWritten([]);
    query, params := AddIntended(BaseQuery, [], [], f.volontarioEmail, EmailIs(f.volontarioEmail), ph);
    query, params := AddIntended(query, params, [] + e, f.dataInizio, DateFrom(f.dataInizio), ph);
    query, params := AddIntended(query, params, ([] + e) + s, f.dataFine, DateTo(f.dataFine), ph);
    ActiveParts(f);
    IntendedOfClauses(query, (([] + e) + s) + t, f, d);
  }

  /** The SQLite builder as written emits no WHERE at all for a filter on dates only, so the date
      conjunct is glued to the join condition and differs from the intended query. */
  lemma SqliteDateOnlyLosesWhere(f: Filter)
    requires f.volontarioEmail == "" && (f.dataInizio != "" || f.dataFine != "")
    ensures !Contains(AsWrittenQuery(f, Sqlite), "WHERE")
    ensures AsWrittenQuery(f, Sqlite) != IntendedQuery(f, Sqlite)
  {
    SqliteDatesQueryHasNoW(f);
    MissingHeadNotContained(AsWrittenQuery(f, Sqlite), "WHERE");
    WhereMarksClauses(ActiveClauses(f), "?");
  }

  lemma SqliteDatesQueryHasNoW(f: Filter)
    requires f.volontarioEmail == ""
    ensures 'W' !in AsWrittenQuery(f, Sqlite)
  {
    BaseQueryHasNoW();
    SqliteDatesHaveNoW(ActiveClauses(f));
  }

  /** With any date criterion the SQLite text as written is shorter than the intended text, so the
      two differ: every date conjunct lacks its connective. */
  lemma SqliteDatesBreakQuery(f: Filter)
    requires f.dataInizio != "" || f.dataFine != ""
    ensures AsWrittenQuery(f, Sqlite) != IntendedQuery(f, Sqlite)
  {
    var cs := ActiveClauses(f);
    assert !cs[|cs| - 1].EmailIs?;
    SqliteShorter(cs);
  }

  /** When only the first conjunct may test the e-mail, each date conjunct costs the SQLite text as
      written at least the four characters of its missing connective. */
  lemma {:induction false} SqliteShorter(cs: seq<Clause>)
    requires forall i :: 0 < i < |cs| ==> !cs[i].EmailIs?
    ensures |SqliteAsWritten(cs)| <= |WhereClause(cs, "?")|
    ensures cs != [] && !cs[|cs| - 1].EmailIs? ==> |SqliteAsWritten(cs)| < |WhereClause(cs, "?")|
  {
    if cs != [] {
      var init := cs[..|cs| - 1];
      SqliteShorter(init);
    }
  }

  /** A concrete instance: a start date alone yields the join followed directly by the date test. */
  lemma SqliteStartDateExample()
    ensures AsWrittenQuery(Filter("", "2024-01-01", ""), Sqlite) == BaseQuery + " vi.data_visita >= ?"
    ensures IntendedQuery(Filter("", "2024-01-01", ""), Sqlite) == BaseQuery + " WHERE vi.data_visita >= ?"
  {
    StartDateClauses(Filter("", "2024-01-01", ""));
  }

  lemma StartDateClauses(f: Filter)
    requires f.volontarioEmail == "" && f.dataInizio != "" && f.dataFine == ""
    ensures SqliteAsWritten(ActiveClauses(f)) == " vi.data_visita >= ?"
    ensures WhereClause(ActiveClauses(f), "?") == " WHERE vi.data_visita >= ?"
  {
    var c := DateFrom(f.dataInizio);
    assert ActiveClauses(f) == [c];
    assert [c][..0] == [];
  }
}
