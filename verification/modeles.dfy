/**
 * The records of the library (`models.py`) and the rules the records answer
 * themselves: borrowing eligibility of a patron, availability of a copy and
 * of a work, overdue detection, the extension guard, and the defaults a new
 * loan, reservation or request receives.
 *
 * A relationship such as `usager.emprunts` or `exemplaire.emprunts` is the
 * subset of a table whose foreign key matches; each is written below as a
 * filter over the whole table (`EnCoursDe`, `EnCoursSur`, ...).
 */
module Modeles {
  import opened Base

  // Status values, as the columns store them.
  const Actif: string := "actif"
  const EnCours: string := "en_cours"
  const EnRetard: string := "en_retard"
  const Retourne: string := "retourne"
  const RetourneAccent: string := "retourn\U{e9}"
  const Active: string := "active"
  const HonoreeAccent: string := "honor\U{e9}e"
  const Annulee: string := "annulee"
  const EnAttente: string := "en_attente"
  const Acceptee: string := "acceptee"
  const Refusee: string := "refusee"
  const TypeEmprunt: string := "emprunt"
  const TypeReservation: string := "reservation"
  const EtatBon: string := "bon"

  // Limits and durations.
  const LimiteEmprunts: int := 5
  const MaxProlongations: int := 2
  const DureeEmprunt: int := 21 * Jour
  const DureeProlongation: int := 7 * Jour
  const DureeReservation: int := 7 * Jour

  // Messages returned by the model methods.
  const MsgOK: string := "OK"
  const MsgCompteNonActif: string := "Compte non actif"
  const MsgLimiteAtteinte: string := "Limite d emprunts atteinte"
  const MsgMaxProlongations: string := "Nombre maximum de prolongations atteint"
  const MsgEnRetard: string := "Emprunt en retard"
  const MsgProlonge: string := "Emprunt prolonge"

  /** A stored password hash. The hashing library is not modelled: a hash stands for the password it was made from. */
  datatype Empreinte = Hache(secret: string)

  datatype Usager = Usager(
    id: int, nom: string, prenom: string, email: string,
    motDePasse: Option<Empreinte>, statut: string)

  datatype Ouvrage = Ouvrage(
    id: int, titre: string, auteur: string, isbn: Option<string>, nombreExemplaires: int)

  datatype Exemplaire = Exemplaire(id: int, ouvrageId: int, numero: string, etat: string)

  datatype Emprunt = Emprunt(
    id: int, usagerId: int, exemplaireId: int,
    dateEmprunt: int, dateRetourPrevue: int, dateRetourReelle: Option<int>,
    statut: string, prolongations: int)

  datatype Reservation = Reservation(
    id: int, usagerId: int, ouvrageId: int,
    dateReservation: int, dateExpiration: int, statut: string, priorite: int)

  datatype Demande = Demande(
    id: int, usagerId: int, ouvrageId: int, typeDemande: string, statut: string,
    commentaire: string, commentaireAdmin: Option<string>,
    dateCreation: int, dateTraitement: Option<int>, bibliothecaireId: Option<int>)

  // Primary keys.
  function IdUsager(u: Usager): int { u.id }
  function IdOuvrage(o: Ouvrage): int { o.id }
  function IdExemplaire(c: Exemplaire): int { c.id }
  function IdEmprunt(e: Emprunt): int { e.id }
  function IdReservation(r: Reservation): int { r.id }
  function IdDemande(d: Demande): int { d.id }

  // Foreign keys towards the patron.
  function UsagerDeEmprunt(e: Emprunt): int { e.usagerId }
  function UsagerDeReservation(r: Reservation): int { r.usagerId }
  function UsagerDeDemande(d: Demande): int { d.usagerId }

  // The filters behind the relationships and queries.

  /** The `en_cours` loans among `usager.emprunts`. */
  function EnCoursDe(usagerId: int): Emprunt -> bool
  {
    (e: Emprunt) => e.usagerId == usagerId && e.statut == EnCours
  }

  /** The `en_cours` loans among `exemplaire.emprunts`. */
  function EnCoursSur(exemplaireId: int): Emprunt -> bool
  {
    (e: Emprunt) => e.exemplaireId == exemplaireId && e.statut == EnCours
  }

  /** The patron rows whose stored e-mail is `email` (`filter_by(email=...)`). */
  function AvecEmail(email: string): Usager -> bool
  {
    (u: Usager) => u.email == email
  }

  /** The work rows whose ISBN is `isbn` (`filter_by(isbn=...)`). */
  function AvecIsbn(isbn: string): Ouvrage -> bool
  {
    (o: Ouvrage) => o.isbn == Some(isbn)
  }

  /** `ouvrage.exemplaires`. */
  function DeOuvrage(ouvrageId: int): Exemplaire -> bool
  {
    (c: Exemplaire) => c.ouvrageId == ouvrageId
  }

  /** A copy of the work that has at least one `en_cours` loan (`any(...)` in `exemplaires_disponibles`). */
  function OccupeDe(ouvrageId: int, emprunts: seq<Emprunt>): Exemplaire -> bool
  {
    (c: Exemplaire) => c.ouvrageId == ouvrageId && Compter(emprunts, EnCoursSur(c.id)) > 0
  }

  /** A copy of the work whose `est_disponible()` holds. */
  function LibreDe(ouvrageId: int, emprunts: seq<Emprunt>): Exemplaire -> bool
  {
    (c: Exemplaire) => c.ouvrageId == ouvrageId && ExemplaireLibre(c, emprunts)
  }

  /** The `active` reservations of a work. */
  function ActiveSur(ouvrageId: int): Reservation -> bool
  {
    (r: Reservation) => r.ouvrageId == ouvrageId && r.statut == Active
  }

  /** An `active` reservation of this patron for this work. */
  function ActiveDe(usagerId: int, ouvrageId: int): Reservation -> bool
  {
    (r: Reservation) => r.usagerId == usagerId && r.ouvrageId == ouvrageId && r.statut == Active
  }

  /** A pending request of this patron, for this work, of this type: what `creer_demande_usager` calls identical. */
  function EnAttenteDe(usagerId: int, ouvrageId: int, typeDemande: string): Demande -> bool
  {
    (d: Demande) => d.usagerId == usagerId && d.ouvrageId == ouvrageId && d.typeDemande == typeDemande && d.statut == EnAttente
  }

  /** A loan of the patron in `en_cours` or `en_retard`, the two states that block deleting the patron. */
  function NonRenduDe(usagerId: int): Emprunt -> bool
  {
    (e: Emprunt) => e.usagerId == usagerId && (e.statut == EnCours || e.statut == EnRetard)
  }

  // Usager

  /**
   * `Usager.peut_emprunter`: an account that is not `actif` is refused before
   * anything is counted; an active one is refused once 5 of its loans are
   * `en_cours`.
   */
  function PeutEmprunter(u: Usager, emprunts: seq<Emprunt>): (r: (bool, string))
    ensures u.statut != Actif ==> r == (false, MsgCompteNonActif)
    ensures u.statut == Actif && |Positions(emprunts, EnCoursDe(u.id))| >= LimiteEmprunts ==> r == (false, MsgLimiteAtteinte)
    ensures u.statut == Actif && |Positions(emprunts, EnCoursDe(u.id))| < LimiteEmprunts ==> r == (true, MsgOK)
  {
    CompterPositions(emprunts, EnCoursDe(u.id));
    if u.statut != Actif then (false, MsgCompteNonActif)
    else if Compter(emprunts, EnCoursDe(u.id)) >= LimiteEmprunts then (false, MsgLimiteAtteinte)
    else (true, MsgOK)
  }

  // Exemplaire

  /**
   * `Exemplaire.est_disponible`: no loan of this copy is `en_cours`. Loans in
   * any other status, `en_retard` and both spellings of "returned" included,
   * do not block the copy.
   */
  function ExemplaireLibre(c: Exemplaire, emprunts: seq<Emprunt>): (r: bool)
    ensures r <==> forall i :: 0 <= i < |emprunts| ==>
                     !(emprunts[i].exemplaireId == c.id && emprunts[i].statut == EnCours)
  {
    CompterNul(emprunts, EnCoursSur(c.id));
    Compter(emprunts, EnCoursSur(c.id)) == 0
  }

  // Ouvrage

  /**
   * `Ouvrage.exemplaires_disponibles`: the declared number of copies minus the
   * number of copy rows of the work that have an `en_cours` loan. It can be
   * negative when the declared number is below the busy rows.
   */
  function ExemplairesDisponibles(o: Ouvrage, exemplaires: seq<Exemplaire>, emprunts: seq<Emprunt>): (r: int)
    ensures r == o.nombreExemplaires - |Positions(exemplaires, OccupeDe(o.id, emprunts))|
    ensures r <= o.nombreExemplaires
  {
    CompterPositions(exemplaires, OccupeDe(o.id, emprunts));
    o.nombreExemplaires - Compter(exemplaires, OccupeDe(o.id, emprunts))
  }

  /** `Ouvrage.est_disponible`: more copies declared than copy rows busy. */
  function OuvrageDisponible(o: Ouvrage, exemplaires: seq<Exemplaire>, emprunts: seq<Emprunt>): (r: bool)
    ensures r <==> |Positions(exemplaires, OccupeDe(o.id, emprunts))| < o.nombreExemplaires
  {
    ExemplairesDisponibles(o, exemplaires, emprunts) > 0
  }

  /**
   * When the work has as many copy rows as it declares, being available means
   * that some copy row of the work is free, so the search for a free copy
   * that follows every availability check succeeds.
   */
  lemma DisponibleDonneLibre(o: Ouvrage, exemplaires: seq<Exemplaire>, emprunts: seq<Emprunt>)
    requires Compter(exemplaires, DeOuvrage(o.id)) == o.nombreExemplaires
    requires OuvrageDisponible(o, exemplaires, emprunts)
    ensures exists i :: 0 <= i < |exemplaires| && LibreDe(o.id, emprunts)(exemplaires[i])
  {
    var occupe := OccupeDe(o.id, emprunts);
    CompterPositions(exemplaires, occupe);
    CompterPlusEtroit(exemplaires, DeOuvrage(o.id), occupe);
    var i :| 0 <= i < |exemplaires| && DeOuvrage(o.id)(exemplaires[i]) && !occupe(exemplaires[i]);
    assert LibreDe(o.id, emprunts)(exemplaires[i]);
  }

  // Emprunt

  /**
   * `Emprunt(...)` with its `__init__` default: status `en_cours`, no
   * extension, and, when no due date is supplied, due 21 days after `now`.
   */
  function NouvelEmprunt(id: int, usagerId: int, exemplaireId: int, now: int, dateRetourPrevue: Option<int>): (e: Emprunt)
    ensures dateRetourPrevue.None? ==> e.dateRetourPrevue == now + 21 * Jour
    ensures dateRetourPrevue.Some? ==> e.dateRetourPrevue == dateRetourPrevue.value
    ensures e.id == id && e.usagerId == usagerId && e.exemplaireId == exemplaireId
    ensures e.dateEmprunt == now && e.dateRetourReelle.None?
    ensures e.statut == EnCours && e.prolongations == 0
  {
    var due := if dateRetourPrevue.Some? then dateRetourPrevue.value else now + DureeEmprunt;
    Emprunt(id, usagerId, exemplaireId, now, due, None, EnCours, 0)
  }

  /** `Emprunt.est_en_retard`: a returned loan (either spelling) is never overdue; any other is overdue once `now` is past its due date. */
  function EstEnRetard(e: Emprunt, now: int): (r: bool)
    ensures (e.statut == Retourne || e.statut == RetourneAccent) ==> !r
    ensures e.statut != Retourne && e.statut != RetourneAccent ==> (r <==> now > e.dateRetourPrevue)
  {
    if e.statut == Retourne || e.statut == RetourneAccent then false
    else now > e.dateRetourPrevue
  }

  /** `Emprunt.peut_prolonger`: the extension count is checked before the overdue test. */
  function PeutProlonger(e: Emprunt, now: int): (r: (bool, string))
    ensures e.prolongations >= MaxProlongations ==> r == (false, MsgMaxProlongations)
    ensures e.prolongations < MaxProlongations && EstEnRetard(e, now) ==> r == (false, MsgEnRetard)
    ensures r.0 <==> e.prolongations < MaxProlongations && !EstEnRetard(e, now)
    ensures r.0 ==> r.1 == MsgOK
  {
    if e.prolongations >= MaxProlongations then (false, MsgMaxProlongations)
    else if EstEnRetard(e, now) then (false, MsgEnRetard)
    else (true, MsgOK)
  }

  /** The field update of one extension: seven more days and one more extension, nothing else. */
  function Prolongation(e: Emprunt): (f: Emprunt)
    ensures f.dateRetourPrevue - e.dateRetourPrevue == 7 * Jour
    ensures f.prolongations == e.prolongations + 1
    ensures f.(dateRetourPrevue := e.dateRetourPrevue, prolongations := e.prolongations) == e
  {
    e.(dateRetourPrevue := e.dateRetourPrevue + DureeProlongation, prolongations := e.prolongations + 1)
  }

  /** A fresh loan with the default due date is overdue exactly after 21 days, and can be extended until then. */
  lemma NouvelEmpruntEcheance(id: int, usagerId: int, exemplaireId: int, now: int, t: int)
    ensures EstEnRetard(NouvelEmprunt(id, usagerId, exemplaireId, now, None), t) <==> t > now + 21 * Jour
    ensures PeutProlonger(NouvelEmprunt(id, usagerId, exemplaireId, now, None), t).0 <==> t <= now + 21 * Jour
  {
  }

  /**
   * Starting from a loan in course with no extension, due at `d` and not yet
   * overdue, two extensions succeed and move the due date to `d` + 14 days;
   * a third is refused with the maximum-extension message, whatever the time.
   */
  lemma TroisiemeProlongationRefusee(e: Emprunt, t1: int, t2: int, t3: int)
    requires e.statut == EnCours && e.prolongations == 0
    requires t1 <= e.dateRetourPrevue && t2 <= e.dateRetourPrevue + 7 * Jour
    ensures PeutProlonger(e, t1).0
    ensures PeutProlonger(Prolongation(e), t2).0
    ensures Prolongation(Prolongation(e)).dateRetourPrevue == e.dateRetourPrevue + 14 * Jour
    ensures Prolongation(Prolongation(e)).prolongations == 2
    ensures PeutProlonger(Prolongation(Prolongation(e)), t3) == (false, MsgMaxProlongations)
  {
  }

  // Reservation

  /** `Reservation(...)` with its defaults: status `active` and, when no expiry is supplied, expiring 7 days after `now`. */
  function NouvelleReservation(id: int, usagerId: int, ouvrageId: int, now: int, priorite: int, dateExpiration: Option<int>): (r: Reservation)
    ensures dateExpiration.None? ==> r.dateExpiration == now + 7 * Jour
    ensures dateExpiration.Some? ==> r.dateExpiration == dateExpiration.value
    ensures r.id == id && r.usagerId == usagerId && r.ouvrageId == ouvrageId
    ensures r.dateReservation == now && r.statut == Active && r.priorite == priorite
  {
    var exp := if dateExpiration.Some? then dateExpiration.value else now + DureeReservation;
    Reservation(id, usagerId, ouvrageId, now, exp, Active, priorite)
  }

  /** `order_by(priorite, date_reservation)`: strictly ahead in the waiting line. */
  function Avant(a: Reservation, b: Reservation): (devant: bool)
    ensures a.priorite < b.priorite ==> devant
    ensures a.priorite > b.priorite ==> !devant
    ensures a.priorite == b.priorite ==> (devant <==> a.dateReservation < b.dateReservation)
  {
    a.priorite < b.priorite || (a.priorite == b.priorite && a.dateReservation < b.dateReservation)
  }

  /**
   * The waiting-line order is a strict order, and two reservations neither of
   * which is ahead of the other have the same priority and date: only then
   * does the database choose between them.
   */
  lemma AvantOrdreStrict(a: Reservation, b: Reservation, c: Reservation)
    ensures !Avant(a, a)
    ensures Avant(a, b) ==> !Avant(b, a)
    ensures Avant(a, b) && Avant(b, c) ==> Avant(a, c)
    ensures !Avant(a, b) && !Avant(b, a) ==> a.priorite == b.priorite && a.dateReservation == b.dateReservation
  {
  }

  // DemandeUsager

  /** `DemandeUsager(...)` with its defaults: status `en_attente`, not yet handled by anyone. */
  function NouvelleDemande(id: int, usagerId: int, ouvrageId: int, typeDemande: string, commentaire: string, now: int): (d: Demande)
    ensures d.statut == EnAttente
    ensures d.id == id && d.usagerId == usagerId && d.ouvrageId == ouvrageId
    ensures d.typeDemande == typeDemande && d.commentaire == commentaire && d.dateCreation == now
    ensures d.commentaireAdmin.None? && d.dateTraitement.None? && d.bibliothecaireId.None?
  {
    Demande(id, usagerId, ouvrageId, typeDemande, EnAttente, commentaire, None, now, None, None)
  }
}
