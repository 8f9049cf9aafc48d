/**
 * The guard-and-update logic of the route handlers of `app.py`. Each handler
 * runs its guards in order and either answers with the first one that fails,
 * changing nothing, or applies its update and commits. What the handler
 * renders is reduced to a `Reponse`: success, a refusal with its reason (the
 * flashed message), a 404 from `get_or_404`, or a 500 when the commit raises.
 *
 * Form values arrive as parameters. A field the handler only tests for
 * truth or looks up (an id, `date_retour`) is `None` when absent or empty;
 * the ISBN of `ajouter_ouvrage` is stored as submitted, so it is `None` when
 * the field is absent and `Some("")` when it is sent empty. The logged-in administrator is `adminId`; the logged-in patron is
 * `usagerId`, a patron of the database.
 */
module Routes {
  import opened Base
  import opened Texte
  import opened Modeles
  import opened Session
  import opened Controleurs

  /** Why a handler refused, one reason per flashed message. */
  datatype Motif =
    | UsagerNonTrouve | UsagerNonActif | LimiteAtteinte
    | OuvrageNonTrouve | OuvrageNonDisponible | AucunExemplaire
    | EmpruntNonEnCours | MaxProlongationsAtteint
    | SelectionManquante | UsagerOuOuvrageNonTrouve | ReservationDejaActive
    | TypeInvalide | DemandeIdentique | DemandeDejaTraitee | RefusAutomatique(message: string)
    | EmpruntsActifs
    | MotDePasseTropCourt | EmailDejaUtilise | AucunCompte | IdentiteNonVerifiee | ConfirmationDifferente

  datatype Reponse = Succes | Refus(motif: Motif) | Introuvable404 | Erreur500

  /** The shortest password the forms accept. */
  const LongueurMinMotDePasse: int := 6

  // Loans

  /**
   * `nouvel_emprunt`: the patron must exist, be `actif` and have fewer than
   * five loans `en_cours`; the work must exist and be available. The loan
   * goes to the first free copy of the work, due on the supplied date when
   * one was given and parsed, else 21 days later. In a valid database an
   * available work always has a free copy, so "Aucun exemplaire disponible"
   * is never answered.
   */
  method RouteNouvelEmprunt(b: Bibliotheque, usagerId: int, ouvrageId: int, dateRetour: Option<int>, now: int)
    returns (r: Reponse)
    requires b.Valid()
    modifies b`emprunts
    ensures b.Valid()
    ensures var u, o, E := old(b.TrouverUsager(usagerId)), old(b.TrouverOuvrage(ouvrageId)), old(b.emprunts);
            if u.None? then r == Refus(UsagerNonTrouve) && unchanged(b)
            else if u.value.statut != Actif then r == Refus(UsagerNonActif) && unchanged(b)
            else if |Positions(E, EnCoursDe(usagerId))| >= LimiteEmprunts then r == Refus(LimiteAtteinte) && unchanged(b)
            else if o.None? then r == Refus(OuvrageNonTrouve) && unchanged(b)
            else if !OuvrageDisponible(o.value, b.exemplaires, E) then r == Refus(OuvrageNonDisponible) && unchanged(b)
            else
              var k := Premier(b.exemplaires, LibreDe(ouvrageId, E));
              && k.Some?
              && r == Succes
              && b.emprunts == E + [NouvelEmprunt(old(ProchaineCle(b.emprunts, IdEmprunt)), usagerId, b.exemplaires[k.value].id, now, dateRetour)]
  {
    var u := b.TrouverUsager(usagerId);
    if u.None? {
      return Refus(UsagerNonTrouve);
    }
    if u.value.statut != Actif {
      return Refus(UsagerNonActif);
    }
    CompterPositions(b.emprunts, EnCoursDe(usagerId));
    if Compter(b.emprunts, EnCoursDe(usagerId)) >= LimiteEmprunts {
      return Refus(LimiteAtteinte);
    }
    var o := b.TrouverOuvrage(ouvrageId);
    if o.None? {
      return Refus(OuvrageNonTrouve);
    }
    if !OuvrageDisponible(o.value, b.exemplaires, b.emprunts) {
      return Refus(OuvrageNonDisponible);
    }
    DisponibleDonneLibre(o.value, b.exemplaires, b.emprunts);
    var k := EmprunterPremierLibre(b, usagerId, ouvrageId, now, dateRetour);
    if k.None? {
      return Refus(AucunExemplaire);
    }
    return Succes;
  }

  /**
   * The `retourner_emprunt` route: 404 for an unknown id; otherwise the loan
   * is marked `retourne` with the return date, whatever its status was. No
   * reservation is touched.
   */
  method RouteRetourEmprunt(b: Bibliotheque, id: int, now: int) returns (r: Reponse)
    requires b.Valid()
    modifies b`emprunts
    ensures b.Valid()
    ensures old(b.IndexEmprunt(id)).None? ==> r == Introuvable404 && unchanged(b)
    ensures old(b.IndexEmprunt(id)).Some? ==>
              var k := old(b.IndexEmprunt(id)).value;
              && r == Succes
              && b.emprunts == old(b.emprunts)[k := old(b.emprunts)[k].(dateRetourReelle := Some(now), statut := Retourne)]
  {
    var k := b.IndexEmprunt(id);
    if k.None? {
      return Introuvable404;
    }
    var e := b.emprunts[k.value];
    b.MajEmprunt(k.value, e.(dateRetourReelle := Some(now), statut := Retourne));
    return Succes;
  }

  /**
   * The `prolonger_emprunt` route: 404 for an unknown id; a loan that is not
   * `en_cours` or already extended twice is refused; otherwise the due date
   * moves 7 days later and one more extension is counted. Unlike
   * `Emprunt.prolonger`, an overdue loan is not refused.
   */
  method RouteProlongerEmprunt(b: Bibliotheque, id: int) returns (r: Reponse)
    requires b.Valid()
    modifies b`emprunts
    ensures b.Valid()
    ensures old(b.IndexEmprunt(id)).None? ==> r == Introuvable404 && unchanged(b)
    ensures old(b.IndexEmprunt(id)).Some? ==>
              var k := old(b.IndexEmprunt(id)).value;
              var e := old(b.emprunts)[k];
              if e.statut != EnCours then r == Refus(EmpruntNonEnCours) && unchanged(b)
              else if e.prolongations >= MaxProlongations then r == Refus(MaxProlongationsAtteint) && unchanged(b)
              else r == Succes && b.emprunts == old(b.emprunts)[k := Prolongation(e)]
  {
    var k := b.IndexEmprunt(id);
    if k.None? {
      return Introuvable404;
    }
    var e := b.emprunts[k.value];
    if e.statut != EnCours {
      return Refus(EmpruntNonEnCours);
    }
    if e.prolongations >= MaxProlongations {
      return Refus(MaxProlongationsAtteint);
    }
    assert e in b.emprunts;
    b.MajEmprunt(k.value, Prolongation(e));
    return Succes;
  }

  /**
   * Where the two extension paths disagree: an overdue loan in course with
   * extensions left is refused by `Emprunt.prolonger` but passes the guards
   * of the route; a returned loan that is not overdue passes `prolonger`'s
   * guard but is refused by the route.
   */
  lemma ProlongationSelonLeChemin(e: Emprunt, now: int)
    ensures e.statut == EnCours && e.prolongations < MaxProlongations && now > e.dateRetourPrevue ==>
              PeutProlonger(e, now) == (false, MsgEnRetard)
    ensures e.statut == Retourne && e.prolongations < MaxProlongations ==> PeutProlonger(e, now) == (true, MsgOK)
  {
  }

  // Reservations

  /**
   * `reserver_ouvrage` (the admin form on one work): 404 for an unknown
   * work; refused when no patron is selected, when the patron does not
   * exist, or when the patron already holds an active reservation for the
   * work; otherwise one reservation whose priority is the number of active
   * reservations of the work, plus one.
   */
  method RouteReserverOuvrage(b: Bibliotheque, ouvrageId: int, usagerId: Option<int>, now: int) returns (r: Reponse)
    requires b.Valid()
    modifies b`reservations
    ensures b.Valid()
    ensures var R := old(b.reservations);
            if old(b.TrouverOuvrage(ouvrageId)).None? then r == Introuvable404 && unchanged(b)
            else if usagerId.None? then r == Refus(SelectionManquante) && unchanged(b)
            else if old(b.TrouverUsager(usagerId.value)).None? then r == Refus(UsagerNonTrouve) && unchanged(b)
            else if DejaReservee(R, usagerId.value, ouvrageId) then r == Refus(ReservationDejaActive) && unchanged(b)
            else
              && r == Succes
              && b.reservations == R + [NouvelleReservation(old(ProchaineCle(b.reservations, IdReservation)), usagerId.value, ouvrageId, now,
                                                            |Positions(R, ActiveSur(ouvrageId))| + 1, None)]
  {
    var o := b.TrouverOuvrage(ouvrageId);
    if o.None? {
      return Introuvable404;
    }
    if usagerId.None? {
      return Refus(SelectionManquante);
    }
    var u := b.TrouverUsager(usagerId.value);
    if u.None? {
      return Refus(UsagerNonTrouve);
    }
    var creee := CreerReservation(b, usagerId.value, ouvrageId, now);
    if !creee {
      return Refus(ReservationDejaActive);
    }
    return Succes;
  }

  /**
   * `nouvelle_reservation` (the generic admin form): refused when either
   * selection is missing, when either row does not exist, or on a duplicate
   * active reservation; otherwise one reservation with priority "active
   * count plus one".
   */
  method RouteNouvelleReservation(b: Bibliotheque, usagerId: Option<int>, ouvrageId: Option<int>, now: int)
    returns (r: Reponse)
    requires b.Valid()
    modifies b`reservations
    ensures b.Valid()
    ensures usagerId.None? || ouvrageId.None? ==> r == Refus(SelectionManquante) && unchanged(b)
    ensures usagerId.Some? && ouvrageId.Some? ==>
              var R, u, w := old(b.reservations), usagerId.value, ouvrageId.value;
              if old(b.TrouverUsager(u)).None? || old(b.TrouverOuvrage(w)).None? then
                r == Refus(UsagerOuOuvrageNonTrouve) && unchanged(b)
              else if DejaReservee(R, u, w) then r == Refus(ReservationDejaActive) && unchanged(b)
              else
                && r == Succes
                && b.reservations == R + [NouvelleReservation(old(ProchaineCle(b.reservations, IdReservation)), u, w, now,
                                                              |Positions(R, ActiveSur(w))| + 1, None)]
  {
    if usagerId.None? || ouvrageId.None? {
      return Refus(SelectionManquante);
    }
    var u := b.TrouverUsager(usagerId.value);
    var o := b.TrouverOuvrage(ouvrageId.value);
    if u.None? || o.None? {
      return Refus(UsagerOuOuvrageNonTrouve);
    }
    var creee := CreerReservation(b, usagerId.value, ouvrageId.value, now);
    if !creee {
      return Refus(ReservationDejaActive);
    }
    return Succes;
  }

  // Requests

  /** The patron already has a pending request for the work, of that type. */
  ghost predicate DemandeEnAttente(ds: seq<Demande>, usagerId: int, ouvrageId: int, typeDemande: string)
  {
    exists i :: 0 <= i < |ds| && EnAttenteDe(usagerId, ouvrageId, typeDemande)(ds[i])
  }

  /**
   * `creer_demande_usager`: a type other than `emprunt` or `reservation` is
   * refused, then a missing work, then a request identical to a pending one
   * (same patron, work and type); otherwise one pending request with the
   * stripped comment.
   */
  method RouteCreerDemande(b: Bibliotheque, usagerId: int, ouvrageId: Option<int>, typeDemande: string,
                           commentaire: string, now: int) returns (r: Reponse)
    requires b.Valid() && usagerId in Cles(b.usagers, IdUsager)
    modifies b`demandes
    ensures b.Valid()
    ensures typeDemande != TypeEmprunt && typeDemande != TypeReservation ==> r == Refus(TypeInvalide) && unchanged(b)
    ensures typeDemande == TypeEmprunt || typeDemande == TypeReservation ==>
              var D := old(b.demandes);
              if ouvrageId.None? || old(b.TrouverOuvrage(ouvrageId.value)).None? then
                r == Refus(OuvrageNonTrouve) && unchanged(b)
              else if DemandeEnAttente(D, usagerId, ouvrageId.value, typeDemande) then
                r == Refus(DemandeIdentique) && unchanged(b)
              else
                && r == Succes
                && b.demandes == D + [NouvelleDemande(old(ProchaineCle(b.demandes, IdDemande)), usagerId, ouvrageId.value, typeDemande,
                                                      Strip(commentaire), now)]
  {
    if typeDemande != TypeEmprunt && typeDemande != TypeReservation {
      return Refus(TypeInvalide);
    }
    if ouvrageId.None? {
      return Refus(OuvrageNonTrouve);
    }
    var o := b.TrouverOuvrage(ouvrageId.value);
    if o.None? {
      return Refus(OuvrageNonTrouve);
    }
    var w := ouvrageId.value;
    var existante := Premier(b.demandes, EnAttenteDe(usagerId, w, typeDemande));
    if existante.Some? {
      return Refus(DemandeIdentique);
    }
    CompterNul(b.demandes, EnAttenteDe(usagerId, w, typeDemande));
    b.InsererDemande(NouvelleDemande(ProchaineCle(b.demandes, IdDemande), usagerId, w, typeDemande, Strip(commentaire), now));
    return Succes;
  }

  /**
   * The four assignments that close a request: its status, the
   * administrator's comment, the processing date and the administrator.
   */
  function Traitee(d: Demande, statut: string, commentaire: string, adminId: int, now: int): (t: Demande)
    ensures t.statut == statut && t.commentaireAdmin == Some(commentaire)
    ensures t.dateTraitement == Some(now) && t.bibliothecaireId == Some(adminId)
    ensures t.(statut := d.statut, commentaireAdmin := d.commentaireAdmin,
               dateTraitement := d.dateTraitement, bibliothecaireId := d.bibliothecaireId) == d
  {
    d.(statut := statut, commentaireAdmin := Some(commentaire), dateTraitement := Some(now), bibliothecaireId := Some(adminId))
  }

  /** Closing the pending request at position `k`. */
  method CloreDemande(b: Bibliotheque, k: nat, statut: string, commentaire: string, adminId: int, now: int)
    requires b.Valid() && k < |b.demandes| && statut != EnAttente
    modifies b`demandes
    ensures b.Valid()
    ensures b.demandes == old(b.demandes)[k := Traitee(old(b.demandes)[k], statut, commentaire, adminId, now)]
  {
    b.MajDemande(k, Traitee(b.demandes[k], statut, commentaire, adminId, now));
  }

  /**
   * The borrowing branch of `accepter_demande`, for a pending request at
   * position `k`: the patron is checked again with `peut_emprunter` and the
   * work for availability; if both pass, a loan of the first free copy is
   * added with the default due date and the request is accepted.
   */
  method AccepterDemandeEmprunt(b: Bibliotheque, k: nat, commentaire: string, adminId: int, now: int) returns (r: Reponse)
    requires b.Valid() && k < |b.demandes| && b.demandes[k].statut == EnAttente
    modifies b`demandes, b`emprunts
    ensures b.Valid()
    ensures var d, E := old(b.demandes)[k], old(b.emprunts);
            var u, o := old(b.TrouverUsager(d.usagerId)), old(b.TrouverOuvrage(d.ouvrageId));
            && u.Some? && o.Some?
            && if !PeutEmprunter(u.value, E).0 then
                 r == Refus(RefusAutomatique(PeutEmprunter(u.value, E).1)) && unchanged(b)
               else if !OuvrageDisponible(o.value, b.exemplaires, E) then
                 r == Refus(OuvrageNonDisponible) && unchanged(b)
               else
                 var c := Premier(b.exemplaires, LibreDe(d.ouvrageId, E));
                 && c.Some?
                 && r == Succes
                 && b.emprunts == E + [NouvelEmprunt(old(ProchaineCle(b.emprunts, IdEmprunt)), d.usagerId, b.exemplaires[c.value].id, now, None)]
                 && b.demandes == old(b.demandes)[k := Traitee(d, Acceptee, commentaire, adminId, now)]
  {
    var d := b.demandes[k];
    assert d in b.demandes;
    var u := b.TrouverUsager(d.usagerId);
    var o := b.TrouverOuvrage(d.ouvrageId);
    var verdict := PeutEmprunter(u.value, b.emprunts);
    if !verdict.0 {
      return Refus(RefusAutomatique(verdict.1));
    }
    if !OuvrageDisponible(o.value, b.exemplaires, b.emprunts) {
      return Refus(OuvrageNonDisponible);
    }
    CompterPositions(b.emprunts, EnCoursDe(d.usagerId));
    DisponibleDonneLibre(o.value, b.exemplaires, b.emprunts);
    ghost var E, D, C := b.emprunts, b.demandes, b.exemplaires;
    var c := EmprunterPremierLibre(b, d.usagerId, d.ouvrageId, now, None);
    ghost var pret := NouvelEmprunt(ProchaineCle(E, IdEmprunt), d.usagerId, C[c.value].id, now, None);
    assert b.emprunts == E + [pret];
    CloreDemande(b, k, Acceptee, commentaire, adminId, now);
    assert b.emprunts == E + [pret] && b.exemplaires == C;
    return Succes;
  }

  /**
   * The reservation branch of `accepter_demande`: refused when the patron
   * already holds an active reservation for the work; otherwise one
   * reservation with priority "active count plus one" and the request is
   * accepted.
   */
  method AccepterDemandeReservation(b: Bibliotheque, k: nat, commentaire: string, adminId: int, now: int) returns (r: Reponse)
    requires b.Valid() && k < |b.demandes| && b.demandes[k].statut == EnAttente
    modifies b`demandes, b`reservations
    ensures b.Valid()
    ensures var d, R := old(b.demandes)[k], old(b.reservations);
            if DejaReservee(R, d.usagerId, d.ouvrageId) then r == Refus(ReservationDejaActive) && unchanged(b)
            else
              && r == Succes
              && b.reservations == R + [NouvelleReservation(old(ProchaineCle(b.reservations, IdReservation)), d.usagerId, d.ouvrageId, now,
                                                            |Positions(R, ActiveSur(d.ouvrageId))| + 1, None)]
              && b.demandes == old(b.demandes)[k := Traitee(d, Acceptee, commentaire, adminId, now)]
  {
    var d := b.demandes[k];
    assert d in b.demandes;
    var creee := CreerReservation(b, d.usagerId, d.ouvrageId, now);
    if !creee {
      return Refus(ReservationDejaActive);
    }
    CloreDemande(b, k, Acceptee, commentaire, adminId, now);
    return Succes;
  }

  /**
   * `accepter_demande`: 404 for an unknown request; a request that is no
   * longer pending is left as it is; a borrowing or reservation request goes
   * through its branch; a request of any other type is accepted as it is.
   */
  method RouteAccepterDemande(b: Bibliotheque, id: int, commentaire: string, adminId: int, now: int) returns (r: Reponse)
    requires b.Valid()
    modifies b`demandes, b`emprunts, b`reservations
    ensures b.Valid()
    ensures old(b.IndexDemande(id)).None? ==> r == Introuvable404 && unchanged(b)
    ensures old(b.IndexDemande(id)).Some? && old(b.demandes[b.IndexDemande(id).value]).statut != EnAttente ==>
              r == Refus(DemandeDejaTraitee) && unchanged(b)
    ensures old(b.IndexDemande(id)).Some? ==>
              var k := old(b.IndexDemande(id)).value;
              var d := old(b.demandes)[k];
              && (r == Succes ==> b.demandes == old(b.demandes)[k := Traitee(d, Acceptee, Strip(commentaire), adminId, now)])
              && (r != Succes ==> unchanged(b))
              && (d.typeDemande != TypeEmprunt ==> b.emprunts == old(b.emprunts))
              && (d.typeDemande != TypeReservation ==> b.reservations == old(b.reservations))
              && (d.statut == EnAttente && d.typeDemande != TypeEmprunt && d.typeDemande != TypeReservation ==> r == Succes)
              && r != Introuvable404
              && (r == Refus(DemandeDejaTraitee) <==> d.statut != EnAttente)
  {
    var k := b.IndexDemande(id);
    if k.None? {
      return Introuvable404;
    }
    var d := b.demandes[k.value];
    var note := Strip(commentaire);
    if d.statut != EnAttente {
      return Refus(DemandeDejaTraitee);
    }
    if d.typeDemande == TypeEmprunt {
      r := AccepterDemandeEmprunt(b, k.value, note, adminId, now);
    } else if d.typeDemande == TypeReservation {
      r := AccepterDemandeReservation(b, k.value, note, adminId, now);
    } else {
      CloreDemande(b, k.value, Acceptee, note, adminId, now);
      r := Succes;
    }
  }

  /**
   * `refuser_demande`: 404 for an unknown request; a request that is no
   * longer pending is left as it is; otherwise it is closed as `refusee`.
   */
  method RouteRefuserDemande(b: Bibliotheque, id: int, commentaire: string, adminId: int, now: int) returns (r: Reponse)
    requires b.Valid()
    modifies b`demandes
    ensures b.Valid()
    ensures old(b.IndexDemande(id)).None? ==> r == Introuvable404 && unchanged(b)
    ensures old(b.IndexDemande(id)).Some? ==>
              var k := old(b.IndexDemande(id)).value;
              var d := old(b.demandes)[k];
              if d.statut != EnAttente then r == Refus(DemandeDejaTraitee) && unchanged(b)
              else r == Succes && b.demandes == old(b.demandes)[k := Traitee(d, Refusee, Strip(commentaire), adminId, now)]
  {
    var k := b.IndexDemande(id);
    if k.None? {
      return Introuvable404;
    }
    if b.demandes[k.value].statut != EnAttente {
      return Refus(DemandeDejaTraitee);
    }
    CloreDemande(b, k.value, Refusee, Strip(commentaire), adminId, now);
    return Succes;
  }

  /**
   * Each request is resolved at most once: after `accepter_demande` accepted
   * it, or found it already processed, `refuser_demande` on the same id
   * finds it processed and changes nothing. An unknown id is a 404 for both.
   */
  method AccepterPuisRefuser(b: Bibliotheque, id: int, commentaire: string, adminId: int, now: int)
    returns (r1: Reponse, r2: Reponse)
    requires b.Valid()
    modifies b`demandes, b`emprunts, b`reservations
    ensures r1 == Introuvable404 <==> r2 == Introuvable404
    ensures r1 == Succes || r1 == Refus(DemandeDejaTraitee) ==> r2 == Refus(DemandeDejaTraitee)
  {
    ghost var k0 := b.IndexDemande(id);
    r1 := RouteAccepterDemande(b, id, commentaire, adminId, now);
    if k0.Some? {
      var k := k0.value;
      assert b.demandes[k].id == id;
      PremierCleUnique(b.demandes, IdDemande, k);
      assert b.IndexDemande(id) == Some(k);
      assert r1 == Succes ==> b.demandes[k].statut == Acceptee;
    } else {
      assert b.IndexDemande(id).None?;
    }
    r2 := RouteRefuserDemande(b, id, commentaire, adminId, now);
  }

  // Patrons

  /**
   * `supprimer_usager`: 404 for an unknown patron; refused while any loan of
   * the patron is `en_cours` or `en_retard`; otherwise the patron's
   * requests, reservations and loans are deleted, then the patron.
   */
  method RouteSupprimerUsager(b: Bibliotheque, id: int) returns (r: Reponse)
    requires b.Valid()
    modifies b`usagers, b`emprunts, b`reservations, b`demandes
    ensures b.Valid()
    ensures old(b.TrouverUsager(id)).None? ==> r == Introuvable404 && unchanged(b)
    ensures old(b.TrouverUsager(id)).Some? && |Positions(old(b.emprunts), NonRenduDe(id))| > 0 ==>
              r == Refus(EmpruntsActifs) && unchanged(b)
    ensures old(b.TrouverUsager(id)).Some? && |Positions(old(b.emprunts), NonRenduDe(id))| == 0 ==>
              && r == Succes
              && b.demandes == Filtrer(old(b.demandes), Sauf(UsagerDeDemande, id))
              && b.reservations == Filtrer(old(b.reservations), Sauf(UsagerDeReservation, id))
              && b.emprunts == Filtrer(old(b.emprunts), Sauf(UsagerDeEmprunt, id))
              && b.usagers == Filtrer(old(b.usagers), Sauf(IdUsager, id))
              && id !in Cles(b.usagers, IdUsager)
  {
    var u := b.TrouverUsager(id);
    if u.None? {
      return Introuvable404;
    }
    CompterPositions(b.emprunts, NonRenduDe(id));
    if Compter(b.emprunts, NonRenduDe(id)) > 0 {
      return Refus(EmpruntsActifs);
    }
    SansLaCle(b.usagers, id);
    b.SupprimerUsager(id);
    return Succes;
  }

  /** No row of the filtered patron table has the deleted key. */
  lemma SansLaCle(us: seq<Usager>, id: int)
    ensures id !in Cles(Filtrer(us, Sauf(IdUsager, id)), IdUsager)
  {
  }

  // Works

  /**
   * `ajouter_ouvrage` (the admin form): the same steps as
   * `GestionBibliotheque.ajouter_ouvrage` (the work is flushed before its
   * copies are numbered); a duplicate ISBN makes the flush raise, which the
   * handler does not catch, so the answer is a server error and nothing is
   * committed. An ISBN field sent empty is stored as `""`, which is unique
   * like any other value: only the first work added that way succeeds. An
   * absent field stores NULL, which never clashes.
   */
  method RouteAjouterOuvrage(b: Bibliotheque, titre: string, auteur: string, isbn: Option<string>, nbExemplaires: int)
    returns (r: Reponse)
    requires b.Valid()
    modifies b`ouvrages, b`exemplaires
    ensures b.Valid()
    ensures IsbnPris(old(b.ouvrages), isbn) ==> r == Erreur500 && unchanged(b)
    ensures isbn == Some("") && (exists i :: 0 <= i < |old(b.ouvrages)| && old(b.ouvrages)[i].isbn == Some("")) ==>
              r == Erreur500 && unchanged(b)
    ensures isbn.None? ==> r == Succes
    ensures !IsbnPris(old(b.ouvrages), isbn) ==>
              var w := old(ProchaineCle(b.ouvrages, IdOuvrage));
              && w >= 1
              && r == Succes
              && b.ouvrages == old(b.ouvrages) + [Ouvrage(w, titre, auteur, isbn, nbExemplaires)]
              && b.exemplaires == old(b.exemplaires)
                                  + NouveauxExemplaires(old(ProchaineCle(b.exemplaires, IdExemplaire)), w, Prefixe(isbn, w), Max0(nbExemplaires))
  {
    var issue := AjouterOuvrage(b, titre, auteur, isbn, nbExemplaires);
    if issue.Exception? {
      return Erreur500;
    }
    return Succes;
  }

  // Patron accounts

  /**
   * `usager_register`: a password shorter than 6 characters is refused, then
   * an e-mail (stripped and lower-cased) that a patron already has;
   * otherwise an `actif` patron is added with the stripped names, the
   * normalised e-mail and the hashed password.
   */
  method RouteInscription(b: Bibliotheque, nom: string, prenom: string, email: string, motDePasse: string)
    returns (r: Reponse)
    requires b.Valid()
    modifies b`usagers
    ensures b.Valid()
    ensures |motDePasse| < LongueurMinMotDePasse ==> r == Refus(MotDePasseTropCourt) && unchanged(b)
    ensures |motDePasse| >= LongueurMinMotDePasse ==>
              var U := old(b.usagers);
              if exists v :: v in U && v.email == Normaliser(email) then r == Refus(EmailDejaUtilise) && unchanged(b)
              else
                && r == Succes
                && b.usagers == U + [Usager(old(ProchaineCle(b.usagers, IdUsager)), Strip(nom), Strip(prenom), Normaliser(email),
                                            Some(Hache(motDePasse)), Actif)]
  {
    if |motDePasse| < LongueurMinMotDePasse {
      return Refus(MotDePasseTropCourt);
    }
    var adresse := Normaliser(email);
    var existant := Premier(b.usagers, AvecEmail(adresse));
    if existant.Some? {
      assert b.usagers[existant.value] in b.usagers;
      return Refus(EmailDejaUtilise);
    }
    forall v | v in b.usagers ensures v.email != adresse {
      var i :| 0 <= i < |b.usagers| && b.usagers[i] == v;
    }
    b.InsererUsager(Usager(ProchaineCle(b.usagers, IdUsager), Strip(nom), Strip(prenom), adresse, Some(Hache(motDePasse)), Actif));
    return Succes;
  }

  /**
   * Deleting the newest patron (one without a loan in course), then
   * registering: the new patron's key is one more than the key of the patron
   * before the deleted one (1 when none is left), never more than the deleted
   * key, so with consecutive keys the deleted key is handed out again. The
   * deleted patron's own e-mail is free again, so that patron can register
   * anew.
   */
  method InscriptionApresSuppression(b: Bibliotheque, nom: string, prenom: string, email: string, motDePasse: string)
    returns (r1: Reponse, r2: Reponse)
    requires b.Valid() && |b.usagers| > 0
    requires |Positions(b.emprunts, NonRenduDe(b.usagers[|b.usagers| - 1].id))| == 0
    requires |motDePasse| >= LongueurMinMotDePasse
    modifies b`usagers, b`emprunts, b`reservations, b`demandes
    ensures b.Valid()
    ensures r1 == Succes
    ensures Normaliser(email) == old(b.usagers)[|old(b.usagers)| - 1].email ==> r2 == Succes
    ensures r2 == Succes ==>
              var U := old(b.usagers);
              var n := |U| - 1;
              && |b.usagers| == |U| && b.usagers[..n] == U[..n]
              && b.usagers[n].id == (if n == 0 then 1 else U[n - 1].id + 1)
              && b.usagers[n].id <= U[n].id
              && ((if n == 0 then 1 else U[n - 1].id + 1) == U[n].id ==> b.usagers[n].id == U[n].id)
  {
    ghost var U := b.usagers;
    ghost var n := |U| - 1;
    var id := b.usagers[|b.usagers| - 1].id;
    assert U[n] in U;
    DernierUsagerRetire(U);
    r1 := RouteSupprimerUsager(b, id);
    assert b.usagers == U[..n];
    r2 := RouteInscription(b, nom, prenom, email, motDePasse);
    assert r2 == Succes ==> |b.usagers| == |U| && b.usagers[..n] == U[..n] && b.usagers[n].id == ProchaineCle(U[..n], IdUsager);
  }

  /**
   * Removing the newest patron of a consistent patron table leaves the rows
   * before it; the next key becomes one more than the key of the patron
   * before it (1 when none is left), never more than the removed key; and no
   * remaining patron has the removed patron's e-mail.
   */
  lemma DernierUsagerRetire(U: seq<Usager>)
    requires UsagersCoherents(U) && |U| > 0
    ensures var n := |U| - 1;
            && Filtrer(U, Sauf(IdUsager, U[n].id)) == U[..n]
            && ProchaineCle(U[..n], IdUsager) == (if n == 0 then 1 else U[n - 1].id + 1)
            && ProchaineCle(U[..n], IdUsager) <= U[n].id
            && (forall v :: v in U[..n] ==> v.email != U[n].email)
  {
    var n := |U| - 1;
    CleReutilisee(U, IdUsager);
    EmailsDistincts(U);
    forall v | v in U[..n] ensures v.email != U[n].email {
      var i :| 0 <= i < n && U[..n][i] == v;
    }
  }

  /**
   * The names stored at registration are the stripped ones, and the identity
   * check of `usager_forgot_password` compares stripped, lower-cased names:
   * a patron who types the names given at registration passes it.
   */
  lemma IdentiteApresInscription(nom: string)
    ensures Normaliser(Strip(nom)) == Normaliser(nom)
  {
    var t := Strip(nom);
    assert SansEspaceDebut(t) == t;
    assert SansEspaceFin(t) == t;
  }

  /**
   * `usager_forgot_password`: the account is looked up by normalised e-mail;
   * its stored names, stripped and lower-cased, must equal the ones given;
   * the new password must have at least 6 characters and equal its
   * confirmation. Only then is the password hash replaced.
   */
  method RouteMotDePasseOublie(b: Bibliotheque, email: string, nom: string, prenom: string,
                               nouveau: string, confirmation: string) returns (r: Reponse)
    requires b.Valid()
    modifies b`usagers
    ensures b.Valid()
    ensures var U := old(b.usagers);
            var k := Premier(U, AvecEmail(Normaliser(email)));
            if k.None? then r == Refus(AucunCompte) && unchanged(b)
            else if Normaliser(U[k.value].nom) != Normaliser(nom) || Normaliser(U[k.value].prenom) != Normaliser(prenom) then
              r == Refus(IdentiteNonVerifiee) && unchanged(b)
            else if |nouveau| < LongueurMinMotDePasse then r == Refus(MotDePasseTropCourt) && unchanged(b)
            else if nouveau != confirmation then r == Refus(ConfirmationDifferente) && unchanged(b)
            else r == Succes && b.usagers == U[k.value := U[k.value].(motDePasse := Some(Hache(nouveau)))]
  {
    var k := Premier(b.usagers, AvecEmail(Normaliser(email)));
    if k.None? {
      return Refus(AucunCompte);
    }
    var u := b.usagers[k.value];
    if Normaliser(u.nom) != Normaliser(nom) || Normaliser(u.prenom) != Normaliser(prenom) {
      return Refus(IdentiteNonVerifiee);
    }
    if |nouveau| < LongueurMinMotDePasse {
      return Refus(MotDePasseTropCourt);
    }
    if nouveau != confirmation {
      return Refus(ConfirmationDifferente);
    }
    b.MajUsager(k.value, u.(motDePasse := Some(Hache(nouveau))));
    return Succes;
  }
}
