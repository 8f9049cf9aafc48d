/**
 * The database as the application sees it through its ORM session: one table
 * per model, each a sequence of rows in primary-key order, and per table the
 * key its next insert receives. Every primary key is an `INTEGER PRIMARY KEY`
 * on SQLite, that is the rowid: a new row gets one more than the largest key
 * present (`ProchaineCle`), so deleting the newest rows lowers the next key
 * and their keys are handed out again. `Valid()` is what the schema and the
 * application's own guards keep true of every committed state; the
 * primitives below (insert, update one row, delete a patron with every row
 * that refers to it) are the only ways the workflows change the tables, and
 * each keeps `Valid()`.
 *
 * `Prolonger` is `Emprunt.prolonger`: the model method that updates a loaded
 * loan row in place.
 */
module Session {
  import opened Base
  import opened Modeles

  function Max0(n: int): nat { if n < 0 then 0 else n }

  // The invariant of each table, stated on the table's rows and the tables
  // its foreign keys point into.

  /** Patrons: valid keys; `email` is `unique=True` (at most one row per e-mail). */
  ghost predicate UsagersCoherents(us: seq<Usager>)
  {
    && ClesValides(us, IdUsager)
    && (forall email :: Compter(us, AvecEmail(email)) <= 1)
  }

  /** Works: valid keys; `isbn` is `unique=True` (at most one row per ISBN; any number of works may have none). */
  ghost predicate OuvragesCoherents(os: seq<Ouvrage>)
  {
    && ClesValides(os, IdOuvrage)
    && (forall isbn :: Compter(os, AvecIsbn(isbn)) <= 1)
  }

  /** At most one row per e-mail is: no two rows share an e-mail. */
  lemma {:induction false} EmailsDistincts(us: seq<Usager>)
    requires forall email :: Compter(us, AvecEmail(email)) <= 1
    ensures forall i, j :: 0 <= i < j < |us| ==> us[i].email != us[j].email
  {
    if |us| > 0 {
      var n := |us| - 1;
      assert us == us[..n] + [us[n]];
      forall email ensures Compter(us[..n], AvecEmail(email)) <= 1 {
        CompterAjout(us[..n], us[n], AvecEmail(email));
      }
      EmailsDistincts(us[..n]);
      CompterAjout(us[..n], us[n], AvecEmail(us[n].email));
      CompterNul(us[..n], AvecEmail(us[n].email));
      forall i | 0 <= i < n ensures us[i].email != us[n].email {
        assert us[i] == us[..n][i];
      }
    }
  }

  /** At most one row per ISBN is: no two works share an ISBN. */
  lemma {:induction false} IsbnDistincts(os: seq<Ouvrage>)
    requires forall isbn :: Compter(os, AvecIsbn(isbn)) <= 1
    ensures forall i, j :: 0 <= i < j < |os| && os[i].isbn.Some? ==> os[i].isbn != os[j].isbn
  {
    if |os| > 0 {
      var n := |os| - 1;
      assert os == os[..n] + [os[n]];
      forall isbn ensures Compter(os[..n], AvecIsbn(isbn)) <= 1 {
        CompterAjout(os[..n], os[n], AvecIsbn(isbn));
      }
      IsbnDistincts(os[..n]);
      if os[n].isbn.Some? {
        CompterAjout(os[..n], os[n], AvecIsbn(os[n].isbn.value));
        CompterNul(os[..n], AvecIsbn(os[n].isbn.value));
        forall i | 0 <= i < n ensures os[i].isbn != os[n].isbn {
          assert os[i] == os[..n][i];
        }
      }
    }
  }

  /** Copies: valid keys, an existing work each, and as many copy rows per work as it declares (none for a negative count). */
  ghost predicate ExemplairesCoherents(cs: seq<Exemplaire>, os: seq<Ouvrage>)
  {
    && ClesValides(cs, IdExemplaire)
    && (forall c :: c in cs ==> c.ouvrageId in Cles(os, IdOuvrage))
    && (forall o :: o in os ==> Compter(cs, DeOuvrage(o.id)) == Max0(o.nombreExemplaires))
  }

  /**
   * Loans: valid keys, an existing patron and copy each, at most two
   * extensions, at most one `en_cours` loan per copy and at most five
   * `en_cours` loans per patron.
   */
  ghost predicate EmpruntsCoherents(es: seq<Emprunt>, us: seq<Usager>, cs: seq<Exemplaire>)
  {
    && ClesValides(es, IdEmprunt)
    && (forall e :: e in es ==> e.usagerId in Cles(us, IdUsager) && e.exemplaireId in Cles(cs, IdExemplaire))
    && (forall e :: e in es ==> 0 <= e.prolongations <= MaxProlongations)
    && (forall cid :: Compter(es, EnCoursSur(cid)) <= 1)
    && (forall uid :: Compter(es, EnCoursDe(uid)) <= LimiteEmprunts)
  }

  /** Reservations: valid keys, an existing patron and work each, at most one `active` reservation per patron and work. */
  ghost predicate ReservationsCoherentes(rs: seq<Reservation>, us: seq<Usager>, os: seq<Ouvrage>)
  {
    && ClesValides(rs, IdReservation)
    && (forall r :: r in rs ==> r.usagerId in Cles(us, IdUsager) && r.ouvrageId in Cles(os, IdOuvrage))
    && (forall uid, wid :: Compter(rs, ActiveDe(uid, wid)) <= 1)
  }

  /** Requests: valid keys, an existing patron and work each, at most one pending request per patron, work and type. */
  ghost predicate DemandesCoherentes(ds: seq<Demande>, us: seq<Usager>, os: seq<Ouvrage>)
  {
    && ClesValides(ds, IdDemande)
    && (forall d :: d in ds ==> d.usagerId in Cles(us, IdUsager) && d.ouvrageId in Cles(os, IdOuvrage))
    && (forall uid, wid, t :: Compter(ds, EnAttenteDe(uid, wid, t)) <= 1)
  }

  /** Loans stay consistent when the patron and copy tables only gain keys. */
  lemma EmpruntsReferencesElargies(es: seq<Emprunt>, us: seq<Usager>, cs: seq<Exemplaire>, us': seq<Usager>, cs': seq<Exemplaire>)
    requires EmpruntsCoherents(es, us, cs)
    requires Cles(us, IdUsager) <= Cles(us', IdUsager) && Cles(cs, IdExemplaire) <= Cles(cs', IdExemplaire)
    ensures EmpruntsCoherents(es, us', cs')
  {
  }

  /** Reservations stay consistent when the patron and work tables only gain keys. */
  lemma ReservationsReferencesElargies(rs: seq<Reservation>, us: seq<Usager>, os: seq<Ouvrage>, us': seq<Usager>, os': seq<Ouvrage>)
    requires ReservationsCoherentes(rs, us, os)
    requires Cles(us, IdUsager) <= Cles(us', IdUsager) && Cles(os, IdOuvrage) <= Cles(os', IdOuvrage)
    ensures ReservationsCoherentes(rs, us', os')
  {
  }

  /** Requests stay consistent when the patron and work tables only gain keys. */
  lemma DemandesReferencesElargies(ds: seq<Demande>, us: seq<Usager>, os: seq<Ouvrage>, us': seq<Usager>, os': seq<Ouvrage>)
    requires DemandesCoherentes(ds, us, os)
    requires Cles(us, IdUsager) <= Cles(us', IdUsager) && Cles(os, IdOuvrage) <= Cles(os', IdOuvrage)
    ensures DemandesCoherentes(ds, us', os')
  {
  }

  /** The empty tables are consistent. */
  lemma TablesVides()
    ensures UsagersCoherents([]) && OuvragesCoherents([]) && ExemplairesCoherents([], [])
    ensures forall us: seq<Usager>, cs: seq<Exemplaire> :: EmpruntsCoherents([], us, cs)
    ensures forall us: seq<Usager>, os: seq<Ouvrage> :: ReservationsCoherentes([], us, os)
    ensures forall us: seq<Usager>, os: seq<Ouvrage> :: DemandesCoherentes([], us, os)
  {
  }

  /** A new patron with the next key and an e-mail no patron has keeps the patron table consistent. */
  lemma UsagerAjoute(us: seq<Usager>, u: Usager)
    requires UsagersCoherents(us) && u.id == ProchaineCle(us, IdUsager)
    requires forall v :: v in us ==> v.email != u.email
    ensures UsagersCoherents(us + [u])
    ensures Cles(us + [u], IdUsager) == Cles(us, IdUsager) + {u.id}
  {
    ClesAjout(us, IdUsager, u);
    forall email ensures Compter(us + [u], AvecEmail(email)) <= 1 {
      CompterAjout(us, u, AvecEmail(email));
      if u.email == email {
        CompterNul(us, AvecEmail(email));
        forall i | 0 <= i < |us| ensures !AvecEmail(email)(us[i]) {
          assert us[i] in us;
        }
      }
    }
  }

  /** Replacing a patron row by one with the same key and e-mail keeps the patron table consistent. */
  lemma UsagerRemplace(us: seq<Usager>, k: nat, u: Usager)
    requires UsagersCoherents(us) && k < |us|
    requires u.id == us[k].id && u.email == us[k].email
    ensures UsagersCoherents(us[k := u])
    ensures Cles(us[k := u], IdUsager) == Cles(us, IdUsager)
  {
    ClesRemplace(us, IdUsager, k, u);
    forall email ensures Compter(us[k := u], AvecEmail(email)) <= 1 {
      CompterRemplace(us, k, u, AvecEmail(email));
    }
  }

  /**
   * A new loan with the next key, existing patron and copy, and a legal
   * extension count keeps the loan table consistent, provided that an
   * `en_cours` loan is of a copy without a loan in course, for a patron under
   * the limit.
   */
  lemma EmpruntAjoute(es: seq<Emprunt>, us: seq<Usager>, cs: seq<Exemplaire>, e: Emprunt)
    requires EmpruntsCoherents(es, us, cs) && e.id == ProchaineCle(es, IdEmprunt)
    requires e.usagerId in Cles(us, IdUsager) && e.exemplaireId in Cles(cs, IdExemplaire)
    requires 0 <= e.prolongations <= MaxProlongations
    requires e.statut == EnCours ==>
               Compter(es, EnCoursSur(e.exemplaireId)) == 0 && Compter(es, EnCoursDe(e.usagerId)) < LimiteEmprunts
    ensures EmpruntsCoherents(es + [e], us, cs)
  {
    ClesAjout(es, IdEmprunt, e);
    forall cid ensures Compter(es + [e], EnCoursSur(cid)) <= 1 {
      CompterAjout(es, e, EnCoursSur(cid));
    }
    forall uid ensures Compter(es + [e], EnCoursDe(uid)) <= LimiteEmprunts {
      CompterAjout(es, e, EnCoursDe(uid));
    }
  }

  /** A new reservation keeps the table consistent when an `active` one is the patron's first active one for the work. */
  lemma ReservationAjoutee(rs: seq<Reservation>, us: seq<Usager>, os: seq<Ouvrage>, r: Reservation)
    requires ReservationsCoherentes(rs, us, os) && r.id == ProchaineCle(rs, IdReservation)
    requires r.usagerId in Cles(us, IdUsager) && r.ouvrageId in Cles(os, IdOuvrage)
    requires r.statut == Active ==> Compter(rs, ActiveDe(r.usagerId, r.ouvrageId)) == 0
    ensures ReservationsCoherentes(rs + [r], us, os)
  {
    ClesAjout(rs, IdReservation, r);
    forall uid, wid ensures Compter(rs + [r], ActiveDe(uid, wid)) <= 1 {
      CompterAjout(rs, r, ActiveDe(uid, wid));
    }
  }

  /** A new request keeps the table consistent when a pending one is the only pending one of its patron, work and type. */
  lemma DemandeAjoutee(ds: seq<Demande>, us: seq<Usager>, os: seq<Ouvrage>, d: Demande)
    requires DemandesCoherentes(ds, us, os) && d.id == ProchaineCle(ds, IdDemande)
    requires d.usagerId in Cles(us, IdUsager) && d.ouvrageId in Cles(os, IdOuvrage)
    requires d.statut == EnAttente ==> Compter(ds, EnAttenteDe(d.usagerId, d.ouvrageId, d.typeDemande)) == 0
    ensures DemandesCoherentes(ds + [d], us, os)
  {
    ClesAjout(ds, IdDemande, d);
    forall uid, wid, t ensures Compter(ds + [d], EnAttenteDe(uid, wid, t)) <= 1 {
      CompterAjout(ds, d, EnAttenteDe(uid, wid, t));
    }
  }

  /** Replacing a loan by one with the same key, patron and copy, legal extensions and no new `en_cours` keeps the table consistent. */
  lemma EmpruntRemplace(es: seq<Emprunt>, us: seq<Usager>, cs: seq<Exemplaire>, k: nat, e: Emprunt)
    requires EmpruntsCoherents(es, us, cs) && k < |es|
    requires e.id == es[k].id && e.usagerId == es[k].usagerId && e.exemplaireId == es[k].exemplaireId
    requires 0 <= e.prolongations <= MaxProlongations
    requires e.statut == EnCours ==> es[k].statut == EnCours
    ensures EmpruntsCoherents(es[k := e], us, cs)
  {
    ClesRemplace(es, IdEmprunt, k, e);
    forall cid ensures Compter(es[k := e], EnCoursSur(cid)) <= 1 {
      CompterRemplace(es, k, e, EnCoursSur(cid));
    }
    forall uid ensures Compter(es[k := e], EnCoursDe(uid)) <= LimiteEmprunts {
      CompterRemplace(es, k, e, EnCoursDe(uid));
    }
  }

  /** Replacing a reservation by one with the same key, patron and work and no new `active` keeps the table consistent. */
  lemma ReservationRemplacee(rs: seq<Reservation>, us: seq<Usager>, os: seq<Ouvrage>, k: nat, r: Reservation)
    requires ReservationsCoherentes(rs, us, os) && k < |rs|
    requires r.id == rs[k].id && r.usagerId == rs[k].usagerId && r.ouvrageId == rs[k].ouvrageId
    requires r.statut == Active ==> rs[k].statut == Active
    ensures ReservationsCoherentes(rs[k := r], us, os)
  {
    ClesRemplace(rs, IdReservation, k, r);
    forall uid, wid ensures Compter(rs[k := r], ActiveDe(uid, wid)) <= 1 {
      CompterRemplace(rs, k, r, ActiveDe(uid, wid));
    }
  }

  /** Replacing a request by one with the same key, patron, work and type and no new pending one keeps the table consistent. */
  lemma DemandeRemplacee(ds: seq<Demande>, us: seq<Usager>, os: seq<Ouvrage>, k: nat, d: Demande)
    requires DemandesCoherentes(ds, us, os) && k < |ds|
    requires d.id == ds[k].id && d.usagerId == ds[k].usagerId
    requires d.ouvrageId == ds[k].ouvrageId && d.typeDemande == ds[k].typeDemande
    requires d.statut == EnAttente ==> ds[k].statut == EnAttente
    ensures DemandesCoherentes(ds[k := d], us, os)
  {
    ClesRemplace(ds, IdDemande, k, d);
    forall uid, wid, t ensures Compter(ds[k := d], EnAttenteDe(uid, wid, t)) <= 1 {
      CompterRemplace(ds, k, d, EnAttenteDe(uid, wid, t));
    }
  }

  /**
   * Deleting a patron's loans leaves a consistent table whose next key is one
   * more than its largest remaining key, no higher than before.
   */
  lemma EmpruntsSansUsager(es: seq<Emprunt>, us: seq<Usager>, cs: seq<Exemplaire>, uid: int)
    requires EmpruntsCoherents(es, us, cs)
    ensures var f := Filtrer(es, Sauf(UsagerDeEmprunt, uid));
      && EmpruntsCoherents(f, us, cs)
      && ProchaineCle(f, IdEmprunt) <= ProchaineCle(es, IdEmprunt)
      && (forall e :: e in f ==> e in es && e.usagerId != uid)
  {
    var f := Filtrer(es, Sauf(UsagerDeEmprunt, uid));
    ClesFiltrer(es, IdEmprunt, Sauf(UsagerDeEmprunt, uid));
    forall e | e in f ensures e in es && e.usagerId != uid {
      FiltrerContient(es, Sauf(UsagerDeEmprunt, uid), e);
    }
    forall cid ensures Compter(f, EnCoursSur(cid)) <= 1 {
      CompterFiltrer(es, Sauf(UsagerDeEmprunt, uid), EnCoursSur(cid));
    }
    forall u ensures Compter(f, EnCoursDe(u)) <= LimiteEmprunts {
      CompterFiltrer(es, Sauf(UsagerDeEmprunt, uid), EnCoursDe(u));
    }
  }

  /**
   * Deleting a patron's reservations leaves a consistent table whose next key
   * is one more than its largest remaining key, no higher than before.
   */
  lemma ReservationsSansUsager(rs: seq<Reservation>, us: seq<Usager>, os: seq<Ouvrage>, uid: int)
    requires ReservationsCoherentes(rs, us, os)
    ensures var f := Filtrer(rs, Sauf(UsagerDeReservation, uid));
      && ReservationsCoherentes(f, us, os)
      && ProchaineCle(f, IdReservation) <= ProchaineCle(rs, IdReservation)
      && (forall r :: r in f ==> r in rs && r.usagerId != uid)
  {
    var f := Filtrer(rs, Sauf(UsagerDeReservation, uid));
    ClesFiltrer(rs, IdReservation, Sauf(UsagerDeReservation, uid));
    forall r | r in f ensures r in rs && r.usagerId != uid {
      FiltrerContient(rs, Sauf(UsagerDeReservation, uid), r);
    }
    forall u, w ensures Compter(f, ActiveDe(u, w)) <= 1 {
      CompterFiltrer(rs, Sauf(UsagerDeReservation, uid), ActiveDe(u, w));
    }
  }

  /**
   * Deleting a patron's requests leaves a consistent table whose next key is
   * one more than its largest remaining key, no higher than before.
   */
  lemma DemandesSansUsager(ds: seq<Demande>, us: seq<Usager>, os: seq<Ouvrage>, uid: int)
    requires DemandesCoherentes(ds, us, os)
    ensures var f := Filtrer(ds, Sauf(UsagerDeDemande, uid));
      && DemandesCoherentes(f, us, os)
      && ProchaineCle(f, IdDemande) <= ProchaineCle(ds, IdDemande)
      && (forall d :: d in f ==> d in ds && d.usagerId != uid)
  {
    var f := Filtrer(ds, Sauf(UsagerDeDemande, uid));
    ClesFiltrer(ds, IdDemande, Sauf(UsagerDeDemande, uid));
    forall d | d in f ensures d in ds && d.usagerId != uid {
      FiltrerContient(ds, Sauf(UsagerDeDemande, uid), d);
    }
    forall u, w, t ensures Compter(f, EnAttenteDe(u, w, t)) <= 1 {
      CompterFiltrer(ds, Sauf(UsagerDeDemande, uid), EnAttenteDe(u, w, t));
    }
  }

  /**
   * Deleting a patron row leaves a consistent patron table whose next key is
   * one more than its largest remaining key, no higher than before, and that
   * keeps every other patron.
   */
  lemma UsagersSansUsager(us: seq<Usager>, uid: int)
    requires UsagersCoherents(us)
    ensures var f := Filtrer(us, Sauf(IdUsager, uid));
      && UsagersCoherents(f)
      && ProchaineCle(f, IdUsager) <= ProchaineCle(us, IdUsager)
      && Cles(us, IdUsager) - {uid} <= Cles(f, IdUsager)
  {
    var f := Filtrer(us, Sauf(IdUsager, uid));
    ClesFiltrer(us, IdUsager, Sauf(IdUsager, uid));
    forall x | x in Cles(us, IdUsager) && x != uid ensures x in Cles(f, IdUsager) {
      var u :| u in us && u.id == x;
      assert Sauf(IdUsager, uid)(u);
    }
    forall u | u in f ensures u in us {
      FiltrerContient(us, Sauf(IdUsager, uid), u);
    }
    forall email ensures Compter(f, AvecEmail(email)) <= 1 {
      CompterFiltrer(us, Sauf(IdUsager, uid), AvecEmail(email));
    }
  }

  /** Loans stay consistent when the patron table loses only a patron none of them refers to. */
  lemma EmpruntsReferencesSansUsager(es: seq<Emprunt>, us: seq<Usager>, cs: seq<Exemplaire>, us': seq<Usager>, uid: int)
    requires EmpruntsCoherents(es, us, cs)
    requires forall e :: e in es ==> e.usagerId != uid
    requires Cles(us, IdUsager) - {uid} <= Cles(us', IdUsager)
    ensures EmpruntsCoherents(es, us', cs)
  {
  }

  /** Reservations stay consistent when the patron table loses only a patron none of them refers to. */
  lemma ReservationsReferencesSansUsager(rs: seq<Reservation>, us: seq<Usager>, os: seq<Ouvrage>, us': seq<Usager>, uid: int)
    requires ReservationsCoherentes(rs, us, os)
    requires forall r :: r in rs ==> r.usagerId != uid
    requires Cles(us, IdUsager) - {uid} <= Cles(us', IdUsager)
    ensures ReservationsCoherentes(rs, us', os)
  {
  }

  /** Requests stay consistent when the patron table loses only a patron none of them refers to. */
  lemma DemandesReferencesSansUsager(ds: seq<Demande>, us: seq<Usager>, os: seq<Ouvrage>, us': seq<Usager>, uid: int)
    requires DemandesCoherentes(ds, us, os)
    requires forall d :: d in ds ==> d.usagerId != uid
    requires Cles(us, IdUsager) - {uid} <= Cles(us', IdUsager)
    ensures DemandesCoherentes(ds, us', os)
  {
  }

  class Bibliotheque {
    var usagers: seq<Usager>
    var ouvrages: seq<Ouvrage>
    var exemplaires: seq<Exemplaire>
    var emprunts: seq<Emprunt>
    var reservations: seq<Reservation>
    var demandes: seq<Demande>

    // `Valid()` is split by table, each part reading only the fields it is about,
    // so that an operation on some tables keeps the parts about the others.

    ghost predicate UsagersOk()
      reads this`usagers
    {
      UsagersCoherents(usagers)
    }

    ghost predicate OuvragesOk()
      reads this`ouvrages
    {
      OuvragesCoherents(ouvrages)
    }

    ghost predicate ExemplairesOk()
      reads this`exemplaires, this`ouvrages
    {
      ExemplairesCoherents(exemplaires, ouvrages)
    }

    ghost predicate EmpruntsOk()
      reads this`emprunts, this`usagers, this`exemplaires
    {
      EmpruntsCoherents(emprunts, usagers, exemplaires)
    }

    ghost predicate ReservationsOk()
      reads this`reservations, this`usagers, this`ouvrages
    {
      ReservationsCoherentes(reservations, usagers, ouvrages)
    }

    ghost predicate DemandesOk()
      reads this`demandes, this`usagers, this`ouvrages
    {
      DemandesCoherentes(demandes, usagers, ouvrages)
    }

    /**
     * What the schema (keys, `nullable=False` foreign keys, `unique=True`
     * columns) and the application's own guards keep true of every committed
     * state.
     */
    ghost predicate Valid()
      reads this
    {
      UsagersOk() && OuvragesOk() && ExemplairesOk() && EmpruntsOk() && ReservationsOk() && DemandesOk()
    }

    /** An empty database. */
    constructor ()
      ensures Valid()
      ensures usagers == [] && ouvrages == [] && exemplaires == []
      ensures emprunts == [] && reservations == [] && demandes == []
    {
      usagers, ouvrages, exemplaires := [], [], [];
      emprunts, reservations, demandes := [], [], [];
      TablesVides();
    }

    // `db.session.get(Model, id)`: the position of the row with that key.

    function IndexUsager(id: int): (r: Option<nat>)
      reads this`usagers
      ensures r.Some? ==> r.value < |usagers| && usagers[r.value].id == id
      ensures r.None? <==> id !in Cles(usagers, IdUsager)
    {
      PremierCle(usagers, IdUsager, id);
      Premier(usagers, AvecCle(IdUsager, id))
    }

    function IndexOuvrage(id: int): (r: Option<nat>)
      reads this`ouvrages
      ensures r.Some? ==> r.value < |ouvrages| && ouvrages[r.value].id == id
      ensures r.None? <==> id !in Cles(ouvrages, IdOuvrage)
    {
      PremierCle(ouvrages, IdOuvrage, id);
      Premier(ouvrages, AvecCle(IdOuvrage, id))
    }

    function IndexExemplaire(id: int): (r: Option<nat>)
      reads this`exemplaires
      ensures r.Some? ==> r.value < |exemplaires| && exemplaires[r.value].id == id
      ensures r.None? <==> id !in Cles(exemplaires, IdExemplaire)
    {
      PremierCle(exemplaires, IdExemplaire, id);
      Premier(exemplaires, AvecCle(IdExemplaire, id))
    }

    function IndexEmprunt(id: int): (r: Option<nat>)
      reads this`emprunts
      ensures r.Some? ==> r.value < |emprunts| && emprunts[r.value].id == id
      ensures r.None? <==> id !in Cles(emprunts, IdEmprunt)
    {
      PremierCle(emprunts, IdEmprunt, id);
      Premier(emprunts, AvecCle(IdEmprunt, id))
    }

    function IndexDemande(id: int): (r: Option<nat>)
      reads this`demandes
      ensures r.Some? ==> r.value < |demandes| && demandes[r.value].id == id
      ensures r.None? <==> id !in Cles(demandes, IdDemande)
    {
      PremierCle(demandes, IdDemande, id);
      Premier(demandes, AvecCle(IdDemande, id))
    }

    /** `db.session.get(Usager, id)`: the row, or `None`. */
    function TrouverUsager(id: int): (r: Option<Usager>)
      reads this`usagers
      ensures r.Some? ==> r.value in usagers && r.value.id == id
      ensures r.None? <==> id !in Cles(usagers, IdUsager)
    {
      match IndexUsager(id)
      case Some(k) => Some(usagers[k])
      case None => None
    }

    /** `db.session.get(Ouvrage, id)`: the row, or `None`. */
    function TrouverOuvrage(id: int): (r: Option<Ouvrage>)
      reads this`ouvrages
      ensures r.Some? ==> r.value in ouvrages && r.value.id == id
      ensures r.None? <==> id !in Cles(ouvrages, IdOuvrage)
    {
      match IndexOuvrage(id)
      case Some(k) => Some(ouvrages[k])
      case None => None
    }

    /** `exemplaire.ouvrage_id` for an existing copy. */
    function OuvrageDe(exemplaireId: int): (w: int)
      reads this`exemplaires
      requires exemplaireId in Cles(exemplaires, IdExemplaire)
      ensures exists i :: 0 <= i < |exemplaires| && exemplaires[i].id == exemplaireId && exemplaires[i].ouvrageId == w
    {
      var k := IndexExemplaire(exemplaireId).value;
      exemplaires[k].ouvrageId
    }

    // Inserts (`db.session.add` of a new row, whose key is one more than the largest present).

    method InsererUsager(u: Usager)
      requires Valid()
      requires u.id == ProchaineCle(usagers, IdUsager)
      requires forall v :: v in usagers ==> v.email != u.email
      modifies this`usagers
      ensures Valid()
      ensures usagers == old(usagers) + [u]
    {
      UsagerAjoute(usagers, u);
      EmpruntsReferencesElargies(emprunts, usagers, exemplaires, usagers + [u], exemplaires);
      ReservationsReferencesElargies(reservations, usagers, ouvrages, usagers + [u], ouvrages);
      DemandesReferencesElargies(demandes, usagers, ouvrages, usagers + [u], ouvrages);
      usagers := usagers + [u];
    }

    method InsererEmprunt(e: Emprunt)
      requires Valid()
      requires e.id == ProchaineCle(emprunts, IdEmprunt)
      requires e.usagerId in Cles(usagers, IdUsager) && e.exemplaireId in Cles(exemplaires, IdExemplaire)
      requires 0 <= e.prolongations <= MaxProlongations
      requires e.statut == EnCours ==>
                 Compter(emprunts, EnCoursSur(e.exemplaireId)) == 0
                 && Compter(emprunts, EnCoursDe(e.usagerId)) < LimiteEmprunts
      modifies this`emprunts
      ensures Valid()
      ensures emprunts == old(emprunts) + [e]
    {
      EmpruntAjoute(emprunts, usagers, exemplaires, e);
      emprunts := emprunts + [e];
    }

    method InsererReservation(r: Reservation)
      requires Valid()
      requires r.id == ProchaineCle(reservations, IdReservation)
      requires r.usagerId in Cles(usagers, IdUsager) && r.ouvrageId in Cles(ouvrages, IdOuvrage)
      requires r.statut == Active ==> Compter(reservations, ActiveDe(r.usagerId, r.ouvrageId)) == 0
      modifies this`reservations
      ensures Valid()
      ensures reservations == old(reservations) + [r]
    {
      ReservationAjoutee(reservations, usagers, ouvrages, r);
      reservations := reservations + [r];
    }

    method InsererDemande(d: Demande)
      requires Valid()
      requires d.id == ProchaineCle(demandes, IdDemande)
      requires d.usagerId in Cles(usagers, IdUsager) && d.ouvrageId in Cles(ouvrages, IdOuvrage)
      requires d.statut == EnAttente ==> Compter(demandes, EnAttenteDe(d.usagerId, d.ouvrageId, d.typeDemande)) == 0
      modifies this`demandes
      ensures Valid()
      ensures demandes == old(demandes) + [d]
    {
      DemandeAjoutee(demandes, usagers, ouvrages, d);
      demandes := demandes + [d];
    }

    // Updates of one loaded row (assignments to its attributes, then commit).

    method MajUsager(k: nat, u: Usager)
      requires Valid() && k < |usagers|
      requires u.id == usagers[k].id && u.email == usagers[k].email
      modifies this`usagers
      ensures Valid()
      ensures usagers == old(usagers)[k := u]
    {
      UsagerRemplace(usagers, k, u);
      usagers := usagers[k := u];
    }

    method MajEmprunt(k: nat, e: Emprunt)
      requires Valid() && k < |emprunts|
      requires e.id == emprunts[k].id && e.usagerId == emprunts[k].usagerId
      requires e.exemplaireId == emprunts[k].exemplaireId
      requires 0 <= e.prolongations <= MaxProlongations
      requires e.statut == EnCours ==> emprunts[k].statut == EnCours
      modifies this`emprunts
      ensures Valid()
      ensures emprunts == old(emprunts)[k := e]
    {
      EmpruntRemplace(emprunts, usagers, exemplaires, k, e);
      emprunts := emprunts[k := e];
      assert EmpruntsOk();
    }

    method MajReservation(k: nat, r: Reservation)
      requires Valid() && k < |reservations|
      requires r.id == reservations[k].id && r.usagerId == reservations[k].usagerId
      requires r.ouvrageId == reservations[k].ouvrageId
      requires r.statut == Active ==> reservations[k].statut == Active
      modifies this`reservations
      ensures Valid()
      ensures reservations == old(reservations)[k := r]
    {
      ReservationRemplacee(reservations, usagers, ouvrages, k, r);
      reservations := reservations[k := r];
      assert ReservationsOk();
    }

    method MajDemande(k: nat, d: Demande)
      requires Valid() && k < |demandes|
      requires d.id == demandes[k].id && d.usagerId == demandes[k].usagerId
      requires d.ouvrageId == demandes[k].ouvrageId && d.typeDemande == demandes[k].typeDemande
      requires d.statut == EnAttente ==> demandes[k].statut == EnAttente
      modifies this`demandes
      ensures Valid()
      ensures demandes == old(demandes)[k := d]
    {
      DemandeRemplacee(demandes, usagers, ouvrages, k, d);
      demandes := demandes[k := d];
      assert DemandesOk();
    }

    /** `DemandeUsager.query.filter_by(usager_id=uid).delete()`. */
    method SupprimerDemandesDe(uid: int)
      requires Valid()
      modifies this`demandes
      ensures Valid()
      ensures demandes == Filtrer(old(demandes), Sauf(UsagerDeDemande, uid))
      ensures ProchaineCle(demandes, IdDemande) <= old(ProchaineCle(demandes, IdDemande))
      ensures forall d :: d in demandes ==> d.usagerId != uid
    {
      DemandesSansUsager(demandes, usagers, ouvrages, uid);
      demandes := Filtrer(demandes, Sauf(UsagerDeDemande, uid));
    }

    /** `Reservation.query.filter_by(usager_id=uid).delete()`. */
    method SupprimerReservationsDe(uid: int)
      requires Valid()
      modifies this`reservations
      ensures Valid()
      ensures reservations == Filtrer(old(reservations), Sauf(UsagerDeReservation, uid))
      ensures ProchaineCle(reservations, IdReservation) <= old(ProchaineCle(reservations, IdReservation))
      ensures forall r :: r in reservations ==> r.usagerId != uid
    {
      ReservationsSansUsager(reservations, usagers, ouvrages, uid);
      reservations := Filtrer(reservations, Sauf(UsagerDeReservation, uid));
    }

    /** `Emprunt.query.filter_by(usager_id=uid).delete()`. */
    method SupprimerEmpruntsDe(uid: int)
      requires Valid()
      modifies this`emprunts
      ensures Valid()
      ensures emprunts == Filtrer(old(emprunts), Sauf(UsagerDeEmprunt, uid))
      ensures ProchaineCle(emprunts, IdEmprunt) <= old(ProchaineCle(emprunts, IdEmprunt))
      ensures forall e :: e in emprunts ==> e.usagerId != uid
    {
      EmpruntsSansUsager(emprunts, usagers, exemplaires, uid);
      emprunts := Filtrer(emprunts, Sauf(UsagerDeEmprunt, uid));
    }

    /** `db.session.delete(usager)`, once no loan, reservation or request refers to the patron. */
    method SupprimerUsagerSeul(uid: int)
      requires Valid()
      requires forall e :: e in emprunts ==> e.usagerId != uid
      requires forall r :: r in reservations ==> r.usagerId != uid
      requires forall d :: d in demandes ==> d.usagerId != uid
      modifies this`usagers
      ensures Valid()
      ensures usagers == Filtrer(old(usagers), Sauf(IdUsager, uid))
      ensures ProchaineCle(usagers, IdUsager) <= old(ProchaineCle(usagers, IdUsager))
    {
      var us := Filtrer(usagers, Sauf(IdUsager, uid));
      UsagersSansUsager(usagers, uid);
      EmpruntsReferencesSansUsager(emprunts, usagers, exemplaires, us, uid);
      ReservationsReferencesSansUsager(reservations, usagers, ouvrages, us, uid);
      DemandesReferencesSansUsager(demandes, usagers, ouvrages, us, uid);
      usagers := us;
    }

    /**
     * Deleting a patron: `filter_by(usager_id=uid).delete()` on the requests,
     * the reservations and the loans, then `db.session.delete(usager)`, all in
     * one commit. Each step leaves a valid state; each table keeps its other
     * rows in order, and its next key becomes one more than its largest
     * remaining key, so the keys of deleted newest rows are handed out again.
     */
    method SupprimerUsager(uid: int)
      requires Valid()
      modifies this`usagers, this`emprunts, this`reservations, this`demandes
      ensures Valid()
      ensures demandes == Filtrer(old(demandes), Sauf(UsagerDeDemande, uid))
      ensures reservations == Filtrer(old(reservations), Sauf(UsagerDeReservation, uid))
      ensures emprunts == Filtrer(old(emprunts), Sauf(UsagerDeEmprunt, uid))
      ensures usagers == Filtrer(old(usagers), Sauf(IdUsager, uid))
      ensures ProchaineCle(demandes, IdDemande) <= old(ProchaineCle(demandes, IdDemande))
      ensures ProchaineCle(reservations, IdReservation) <= old(ProchaineCle(reservations, IdReservation))
      ensures ProchaineCle(emprunts, IdEmprunt) <= old(ProchaineCle(emprunts, IdEmprunt))
      ensures ProchaineCle(usagers, IdUsager) <= old(ProchaineCle(usagers, IdUsager))
    {
      ghost var D, R, E := demandes, reservations, emprunts;
      SupprimerDemandesDe(uid);
      ghost var D' := demandes;
      SupprimerReservationsDe(uid);
      ghost var R' := reservations;
      assert demandes == D';
      SupprimerEmpruntsDe(uid);
      assert demandes == D' && reservations == R';
      SupprimerUsagerSeul(uid);
      assert demandes == D' && reservations == R' && emprunts == Filtrer(E, Sauf(UsagerDeEmprunt, uid));
    }

    /**
     * `Emprunt.prolonger` on the loaded loan at position `k`: when
     * `peut_prolonger` allows it, the due date moves 7 days later and one
     * more extension is counted; otherwise the refusal message is returned
     * and nothing changes.
     */
    method Prolonger(k: nat, now: int) returns (r: (bool, string))
      requires Valid() && k < |emprunts|
      modifies this`emprunts
      ensures Valid()
      ensures !PeutProlonger(old(emprunts[k]), now).0 ==> r == PeutProlonger(old(emprunts[k]), now)
      ensures PeutProlonger(old(emprunts[k]), now).0 ==> r == (true, MsgProlonge)
      ensures r.0 ==> emprunts == old(emprunts)[k := Prolongation(old(emprunts[k]))]
      ensures !r.0 ==> emprunts == old(emprunts)
    {
      var e := emprunts[k];
      var verdict := PeutProlonger(e, now);
      if verdict.0 {
        MajEmprunt(k, Prolongation(e));
        r := (true, MsgProlonge);
      } else {
        r := verdict;
      }
    }
  }
}
