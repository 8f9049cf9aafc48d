/**
 * `GestionBibliotheque` (`controllers.py`): adding a work with its numbered
 * copies, borrowing the first free copy of a work, returning a loan (which
 * honours the reservation at the head of the work's waiting line), and
 * reserving a work. Each static method works on the whole database; here it
 * takes the store `b` and changes only the tables it writes.
 *
 * The search for a free copy and the reservation insert are shared with the
 * route handlers of `app.py`, which run the same steps.
 */
module Controleurs {
  import opened Base
  import opened Texte
  import opened Modeles
  import opened Session

  const MsgAucunExemplaire: string := "Aucun exemplaire disponible"
  const MsgErreurExemplaire: string := "Erreur: aucun exemplaire disponible trouv\U{e9}"
  const MsgEmpruntEnregistre: string := "Emprunt enregistr\U{e9} avec succ\U{e8}s"
  const MsgEmpruntNonTrouve: string := "Emprunt non trouv\U{e9}"
  const MsgRetourEnregistre: string := "Retour enregistr\U{e9} avec succ\U{e8}s"
  const MsgIntrouvable: string := "Usager ou ouvrage non trouv\U{e9}"
  const MsgDejaReserve: string := "Vous avez d\U{e9}j\U{e0} une r\U{e9}servation active pour cet ouvrage"
  const MsgReservationCreee: string := "R\U{e9}servation cr\U{e9}\U{e9}e avec succ\U{e8}s"

  // Copy numbering

  /** `isbn or ouvrage.id`: the ISBN unless it is missing or empty, else the work's id. */
  function Prefixe(isbn: Option<string>, ouvrageId: nat): (p: string)
    ensures isbn.Some? && isbn.value != "" ==> p == isbn.value
    ensures isbn.None? || isbn.value == "" ==> p == Decimal(ouvrageId)
    ensures |p| > 0
  {
    if isbn.Some? && isbn.value != "" then isbn.value else Decimal(ouvrageId)
  }

  /** Without an ISBN the prefix is the work's id written in decimal, and reads back as that id. */
  lemma PrefixeSansIsbn(isbn: Option<string>, ouvrageId: nat)
    requires isbn.None? || isbn.value == ""
    ensures var p := Prefixe(isbn, ouvrageId);
            && (forall i :: 0 <= i < |p| ==> EstChiffre(p[i]))
            && Valeur(p) == ouvrageId
  {
    ValeurDecimal(ouvrageId);
  }

  /** `f"{prefixe}-{n:03d}"`. */
  function Numero(prefixe: string, n: nat): (numero: string)
    ensures |numero| >= |prefixe| + 4 && numero[..|prefixe|] == prefixe
    ensures n < 1000 ==> |numero| == |prefixe| + 4
  {
    prefixe + "-" + Pad3(n)
  }

  /**
   * An inventory number is the prefix, a dash, and a field of digits that
   * reads back as `n`: exactly three digits below 1000, and no leading zero
   * beyond those three.
   */
  lemma NumeroLu(prefixe: string, n: nat)
    ensures |Numero(prefixe, n)| >= |prefixe| + 4
    ensures Numero(prefixe, n)[..|prefixe|] == prefixe && Numero(prefixe, n)[|prefixe|] == '-'
    ensures var champ := Numero(prefixe, n)[|prefixe| + 1..];
            && (forall i :: 0 <= i < |champ| ==> EstChiffre(champ[i])) && Valeur(champ) == n
            && (n < 1000 ==> |champ| == 3)
            && (|champ| > 3 ==> champ[0] != '0')
  {
    assert Numero(prefixe, n)[|prefixe| + 1..] == Pad3(n);
    Pad3Valeur(n);
  }

  /** Two numbers made from the same prefix differ when their sequence numbers differ. */
  lemma NumeroInjectif(prefixe: string, m: nat, n: nat)
    requires m != n
    ensures Numero(prefixe, m) != Numero(prefixe, n)
  {
    NumeroLu(prefixe, m);
    NumeroLu(prefixe, n);
  }

  /** The copy rows the loop of `ajouter_ouvrage` adds, the `i`-th with the `i`-th fresh id. */
  function NouveauxExemplaires(premierId: int, ouvrageId: int, prefixe: string, n: nat): seq<Exemplaire>
  {
    seq(n, i requires 0 <= i < n => Exemplaire(premierId + i, ouvrageId, Numero(prefixe, i + 1), EtatBon))
  }

  /**
   * The copies added for a work: exactly `n` of them, all of that work, all in
   * state `bon`, numbered `-001`, `-002`, ... in order, with pairwise distinct
   * inventory numbers.
   */
  lemma NouveauxExemplairesNumerotes(premierId: int, ouvrageId: int, prefixe: string, n: nat)
    ensures var cs := NouveauxExemplaires(premierId, ouvrageId, prefixe, n);
            && |cs| == n
            && (forall i :: 0 <= i < n ==> cs[i].id == premierId + i)
            && (forall i :: 0 <= i < n ==> cs[i].ouvrageId == ouvrageId && cs[i].etat == EtatBon)
            && (forall i :: 0 <= i < n ==> cs[i].numero == Numero(prefixe, i + 1))
            && (forall i, j :: 0 <= i < j < n ==> cs[i].numero != cs[j].numero)
  {
    var cs := NouveauxExemplaires(premierId, ouvrageId, prefixe, n);
    forall i, j | 0 <= i < j < n ensures cs[i].numero != cs[j].numero {
      NumeroInjectif(prefixe, i + 1, j + 1);
    }
  }

  /**
   * The `unique=True` constraint on `isbn` rejects the insert: another work
   * has the same ISBN. A missing ISBN (NULL) never clashes; the empty string
   * is a value like any other and clashes with another empty ISBN.
   */
  function IsbnPris(ouvrages: seq<Ouvrage>, isbn: Option<string>): (pris: bool)
    ensures isbn.None? ==> !pris
    ensures isbn.Some? ==> (pris <==> exists i :: 0 <= i < |ouvrages| && ouvrages[i].isbn == isbn)
  {
    isbn.Some? && exists o :: o in ouvrages && o.isbn == isbn
  }

  /** The `n`-th copy row comes after the first `n - 1`. */
  lemma NouveauxExemplairesSuivant(premierId: int, ouvrageId: int, prefixe: string, n: nat)
    requires n > 0
    ensures NouveauxExemplaires(premierId, ouvrageId, prefixe, n)
            == NouveauxExemplaires(premierId, ouvrageId, prefixe, n - 1)
               + [Exemplaire(premierId + n - 1, ouvrageId, Numero(prefixe, n), EtatBon)]
  {
  }

  /**
   * Appending the new copy rows, numbered from the next key, to a table with
   * valid keys: the keys stay valid with the next key past the new rows, and
   * no key is lost.
   */
  lemma {:induction false} ClesExemplairesAjoutes(E: seq<Exemplaire>, premier: int, w: int, prefixe: string, n: nat)
    requires ClesValides(E, IdExemplaire) && premier == ProchaineCle(E, IdExemplaire)
    ensures var F := E + NouveauxExemplaires(premier, w, prefixe, n);
            && ClesValides(F, IdExemplaire)
            && ProchaineCle(F, IdExemplaire) == premier + n
            && Cles(E, IdExemplaire) <= Cles(F, IdExemplaire)
  {
    if n == 0 {
      assert E + NouveauxExemplaires(premier, w, prefixe, 0) == E;
    } else {
      var G := E + NouveauxExemplaires(premier, w, prefixe, n - 1);
      var c := Exemplaire(premier + n - 1, w, Numero(prefixe, n), EtatBon);
      ClesExemplairesAjoutes(E, premier, w, prefixe, n - 1);
      NouveauxExemplairesSuivant(premier, w, prefixe, n);
      assert E + (NouveauxExemplaires(premier, w, prefixe, n - 1) + [c]) == G + [c];
      ClesAjout(G, IdExemplaire, c);
    }
  }

  /**
   * Appending the new copy rows: no row is lost, every new row belongs to the
   * work, and the work gains exactly `n` copy rows while every other work
   * keeps its count.
   */
  lemma {:induction false} AjoutExemplaires(E: seq<Exemplaire>, premier: int, w: int, prefixe: string, n: nat)
    ensures var F := E + NouveauxExemplaires(premier, w, prefixe, n);
            && (forall c :: c in F ==> c in E || c.ouvrageId == w)
            && (forall x :: Compter(F, DeOuvrage(x)) == Compter(E, DeOuvrage(x)) + (if x == w then n else 0))
  {
    if n == 0 {
      assert E + NouveauxExemplaires(premier, w, prefixe, 0) == E;
    } else {
      var G := E + NouveauxExemplaires(premier, w, prefixe, n - 1);
      var c := Exemplaire(premier + n - 1, w, Numero(prefixe, n), EtatBon);
      AjoutExemplaires(E, premier, w, prefixe, n - 1);
      NouveauxExemplairesSuivant(premier, w, prefixe, n);
      assert E + (NouveauxExemplaires(premier, w, prefixe, n - 1) + [c]) == G + [c];
      forall x ensures Compter(G + [c], DeOuvrage(x)) == Compter(E, DeOuvrage(x)) + (if x == w then n else 0) {
        CompterAjout(G, c, DeOuvrage(x));
      }
    }
  }

  /** The loop `for i in range(n): db.session.add(Exemplaire(...))`, one copy row per turn. */
  method AjouterExemplaires(b: Bibliotheque, w: int, prefixe: string, n: nat)
    modifies b`exemplaires
    ensures b.exemplaires == old(b.exemplaires) + NouveauxExemplaires(old(ProchaineCle(b.exemplaires, IdExemplaire)), w, prefixe, n)
    ensures ProchaineCle(b.exemplaires, IdExemplaire) == old(ProchaineCle(b.exemplaires, IdExemplaire)) + n
  {
    ghost var E, premier := b.exemplaires, ProchaineCle(b.exemplaires, IdExemplaire);
    for i := 0 to n
      invariant ProchaineCle(b.exemplaires, IdExemplaire) == premier + i
      invariant b.exemplaires == E + NouveauxExemplaires(premier, w, prefixe, i)
    {
      var table := b.exemplaires;
      var c := Exemplaire(ProchaineCle(table, IdExemplaire), w, Numero(prefixe, i + 1), EtatBon);
      NouveauxExemplairesSuivant(premier, w, prefixe, i + 1);
      assert E + NouveauxExemplaires(premier, w, prefixe, i + 1) == table + [c];
      assert (table + [c])[|table|] == c;
      b.exemplaires := table + [c];
    }
  }

  /**
   * `ajouter_ouvrage`: insert the work (the commit raises on a duplicate ISBN,
   * before any copy is made), then one copy row per `i` in
   * `range(nb_exemplaires)`, none when the count is zero or negative.
   */
  method AjouterOuvrage(b: Bibliotheque, titre: string, auteur: string, isbn: Option<string>, nbExemplaires: int)
    returns (r: Issue<Ouvrage>)
    requires b.Valid()
    modifies b`ouvrages, b`exemplaires
    ensures b.Valid()
    ensures IsbnPris(old(b.ouvrages), isbn) ==> r == Exception && unchanged(b)
    ensures !IsbnPris(old(b.ouvrages), isbn) ==>
              var w := old(ProchaineCle(b.ouvrages, IdOuvrage));
              && w >= 1
              && r == Rend(Ouvrage(w, titre, auteur, isbn, nbExemplaires))
              && b.ouvrages == old(b.ouvrages) + [r.valeur]
              && b.exemplaires == old(b.exemplaires)
                                  + NouveauxExemplaires(old(ProchaineCle(b.exemplaires, IdExemplaire)), w, Prefixe(isbn, w), Max0(nbExemplaires))
  {
    if IsbnPris(b.ouvrages, isbn) {
      return Exception;
    }
    ClesBornees(b.ouvrages, IdOuvrage);
    var w := ProchaineCle(b.ouvrages, IdOuvrage);
    var o := Ouvrage(w, titre, auteur, isbn, nbExemplaires);
    InsererOuvrage(b, o, Prefixe(isbn, w));
    r := Rend(o);
  }

  /** Inserting the work row, then its numbered copy rows (`add`/`commit` with a free ISBN). */
  method InsererOuvrage(b: Bibliotheque, o: Ouvrage, prefixe: string)
    requires b.Valid() && o.id == ProchaineCle(b.ouvrages, IdOuvrage) && !IsbnPris(b.ouvrages, o.isbn)
    modifies b`ouvrages, b`exemplaires
    ensures b.Valid()
    ensures b.ouvrages == old(b.ouvrages) + [o]
    ensures b.exemplaires == old(b.exemplaires)
                             + NouveauxExemplaires(old(ProchaineCle(b.exemplaires, IdExemplaire)), o.id, prefixe, Max0(o.nombreExemplaires))
  {
    var n := Max0(o.nombreExemplaires);
    ghost var U, O, E := b.usagers, b.ouvrages, b.exemplaires;
    ghost var premier := ProchaineCle(E, IdExemplaire);
    ghost var Es, R, D := b.emprunts, b.reservations, b.demandes;
    b.ouvrages := b.ouvrages + [o];
    AjouterExemplaires(b, o.id, prefixe, n);
    assert b.usagers == U && b.emprunts == Es && b.reservations == R && b.demandes == D;
    AjoutOuvrageCoherent(U, O, E, premier, Es, R, D, o, prefixe);
    EtatValide(b, U, O + [o], b.exemplaires, Es, R, D);
  }

  /**
   * Adding a work with a fresh ISBN and the next key, followed by its
   * numbered copy rows, keeps every table of a consistent state consistent.
   */
  lemma AjoutOuvrageCoherent(U: seq<Usager>, O: seq<Ouvrage>, E: seq<Exemplaire>, premier: int,
                             Es: seq<Emprunt>, R: seq<Reservation>, D: seq<Demande>, o: Ouvrage, prefixe: string)
    requires OuvragesCoherents(O) && o.id == ProchaineCle(O, IdOuvrage)
    requires ExemplairesCoherents(E, O) && premier == ProchaineCle(E, IdExemplaire)
    requires EmpruntsCoherents(Es, U, E)
    requires ReservationsCoherentes(R, U, O) && DemandesCoherentes(D, U, O)
    requires !IsbnPris(O, o.isbn)
    ensures var n := Max0(o.nombreExemplaires);
            var F := E + NouveauxExemplaires(premier, o.id, prefixe, n);
            && OuvragesCoherents(O + [o]) && ExemplairesCoherents(F, O + [o])
            && EmpruntsCoherents(Es, U, F)
            && ReservationsCoherentes(R, U, O + [o]) && DemandesCoherentes(D, U, O + [o])
  {
    var n := Max0(o.nombreExemplaires);
    var F := E + NouveauxExemplaires(premier, o.id, prefixe, n);
    ClesExemplairesAjoutes(E, premier, o.id, prefixe, n);
    AjoutExemplaires(E, premier, o.id, prefixe, n);
    OuvrageAjoute(O, E, F, o);
    AjoutOuvrageReferences(U, O, E, F, Es, R, D, o);
  }

  /**
   * Adding a work whose ISBN is not taken, followed by copy rows `F` that
   * extend `E` with exactly as many rows of that work as it declares, keeps
   * the work and copy tables consistent.
   */
  lemma OuvrageAjoute(O: seq<Ouvrage>, E: seq<Exemplaire>, F: seq<Exemplaire>, o: Ouvrage)
    requires OuvragesCoherents(O) && o.id == ProchaineCle(O, IdOuvrage) && ExemplairesCoherents(E, O)
    requires !IsbnPris(O, o.isbn)
    requires ClesValides(F, IdExemplaire)
    requires forall c :: c in F ==> c in E || c.ouvrageId == o.id
    requires forall x :: Compter(F, DeOuvrage(x)) == Compter(E, DeOuvrage(x)) + (if x == o.id then Max0(o.nombreExemplaires) else 0)
    ensures OuvragesCoherents(O + [o])
    ensures ExemplairesCoherents(F, O + [o])
  {
    var w := o.id;
    ClesBornees(O, IdOuvrage);
    forall i | 0 <= i < |E| ensures !DeOuvrage(w)(E[i]) {
      assert E[i] in E;
      var x :| x in O && x.id == E[i].ouvrageId;
      var j :| 0 <= j < |O| && O[j] == x;
    }
    CompterNul(E, DeOuvrage(w));
    ClesAjout(O, IdOuvrage, o);
    forall isbn ensures Compter(O + [o], AvecIsbn(isbn)) <= 1 {
      CompterAjout(O, o, AvecIsbn(isbn));
      if o.isbn == Some(isbn) {
        CompterNul(O, AvecIsbn(isbn));
      }
    }
    forall c | c in F ensures c.ouvrageId in Cles(O + [o], IdOuvrage) {
      if c in E {
        assert c.ouvrageId in Cles(O, IdOuvrage);
      }
    }
    forall x | x in O + [o] ensures Compter(F, DeOuvrage(x.id)) == Max0(x.nombreExemplaires) {
      if x in O {
        var i :| 0 <= i < |O| && O[i] == x;
        assert x.id != w;
      }
    }
  }

  /** A state whose tables are the given values, each table consistent, is valid. */
  lemma EtatValide(b: Bibliotheque, U: seq<Usager>, O: seq<Ouvrage>, F: seq<Exemplaire>,
                   Es: seq<Emprunt>, R: seq<Reservation>, D: seq<Demande>)
    requires b.usagers == U && b.ouvrages == O && b.exemplaires == F
    requires b.emprunts == Es && b.reservations == R && b.demandes == D
    requires UsagersCoherents(U) && OuvragesCoherents(O) && ExemplairesCoherents(F, O)
    requires EmpruntsCoherents(Es, U, F)
    requires ReservationsCoherentes(R, U, O) && DemandesCoherentes(D, U, O)
    ensures b.Valid()
  {
  }

  /** The loans, reservations and requests keep pointing at existing rows once a work and its copies are added. */
  lemma AjoutOuvrageReferences(U: seq<Usager>, O: seq<Ouvrage>, E: seq<Exemplaire>, F: seq<Exemplaire>,
                               Es: seq<Emprunt>, R: seq<Reservation>, D: seq<Demande>, o: Ouvrage)
    requires OuvragesCoherents(O) && o.id == ProchaineCle(O, IdOuvrage)
    requires EmpruntsCoherents(Es, U, E) && Cles(E, IdExemplaire) <= Cles(F, IdExemplaire)
    requires ReservationsCoherentes(R, U, O) && DemandesCoherentes(D, U, O)
    ensures EmpruntsCoherents(Es, U, F)
    ensures ReservationsCoherentes(R, U, O + [o]) && DemandesCoherentes(D, U, O + [o])
  {
    ClesAjout(O, IdOuvrage, o);
    EmpruntsReferencesElargies(Es, U, E, U, F);
    ReservationsReferencesElargies(R, U, O, U, O + [o]);
    DemandesReferencesElargies(D, U, O, U, O + [o]);
  }

  // Borrowing

  /**
   * The search `for exemplaire in ouvrage.exemplaires: if exemplaire.est_disponible(): break`
   * (and its `next(...)` form in `app.py`): the first copy of the work, in
   * table order, that has no loan in course.
   */
  method PremierExemplaireLibre(exemplaires: seq<Exemplaire>, emprunts: seq<Emprunt>, ouvrageId: int)
    returns (r: Option<nat>)
    ensures r.Some? ==> r.value < |exemplaires| && exemplaires[r.value].ouvrageId == ouvrageId
                        && ExemplaireLibre(exemplaires[r.value], emprunts)
    ensures r.Some? ==> forall j :: 0 <= j < r.value && exemplaires[j].ouvrageId == ouvrageId ==>
                          !ExemplaireLibre(exemplaires[j], emprunts)
    ensures r.None? ==> forall j :: 0 <= j < |exemplaires| && exemplaires[j].ouvrageId == ouvrageId ==>
                          !ExemplaireLibre(exemplaires[j], emprunts)
    ensures r == Premier(exemplaires, LibreDe(ouvrageId, emprunts))
  {
    for i := 0 to |exemplaires|
      invariant forall j :: 0 <= j < i ==> !LibreDe(ouvrageId, emprunts)(exemplaires[j])
    {
      if exemplaires[i].ouvrageId == ouvrageId && ExemplaireLibre(exemplaires[i], emprunts) {
        return Some(i);
      }
    }
    return None;
  }

  /**
   * The tail shared by every borrowing path: find the first free copy of the
   * work and, if there is one, add one `en_cours` loan of it for the patron.
   * The caller has already checked that the patron may borrow.
   */
  method EmprunterPremierLibre(b: Bibliotheque, usagerId: int, ouvrageId: int, now: int, dateRetour: Option<int>)
    returns (k: Option<nat>)
    requires b.Valid()
    requires usagerId in Cles(b.usagers, IdUsager)
    requires Compter(b.emprunts, EnCoursDe(usagerId)) < LimiteEmprunts
    modifies b`emprunts
    ensures b.Valid()
    ensures k == Premier(b.exemplaires, LibreDe(ouvrageId, old(b.emprunts)))
    ensures k.None? ==> unchanged(b)
    ensures k.Some? ==> k.value < |b.exemplaires|
    ensures k.Some? ==> b.emprunts == old(b.emprunts) + [NouvelEmprunt(old(ProchaineCle(b.emprunts, IdEmprunt)), usagerId, b.exemplaires[k.value].id, now, dateRetour)]
  {
    k := PremierExemplaireLibre(b.exemplaires, b.emprunts, ouvrageId);
    if k.Some? {
      var c := b.exemplaires[k.value];
      assert c in b.exemplaires;
      CompterNul(b.emprunts, EnCoursSur(c.id));
      b.InsererEmprunt(NouvelEmprunt(ProchaineCle(b.emprunts, IdEmprunt), usagerId, c.id, now, dateRetour));
    }
  }

  /**
   * `emprunter_ouvrage`. A missing patron or work makes the Python code call a
   * method on `None`, which raises. An ineligible patron gets the message of
   * `peut_emprunter`; an unavailable work gets "Aucun exemplaire disponible";
   * otherwise the first free copy is lent with the default due date. In a
   * valid database an available work always has a free copy row, so the
   * "Erreur: ..." answer is never given.
   */
  method EmprunterOuvrage(b: Bibliotheque, usagerId: int, ouvrageId: int, now: int)
    returns (r: Issue<(bool, string)>)
    requires b.Valid()
    modifies b`emprunts
    ensures b.Valid()
    ensures var u, o, E := b.TrouverUsager(usagerId), b.TrouverOuvrage(ouvrageId), old(b.emprunts);
            if u.None? then r == Exception && unchanged(b)
            else if !PeutEmprunter(u.value, E).0 then r == Rend(PeutEmprunter(u.value, E)) && unchanged(b)
            else if o.None? then r == Exception && unchanged(b)
            else if !OuvrageDisponible(o.value, b.exemplaires, E) then
              r == Rend((false, MsgAucunExemplaire)) && unchanged(b)
            else
              var k := Premier(b.exemplaires, LibreDe(ouvrageId, E));
              && k.Some?
              && r == Rend((true, MsgEmpruntEnregistre))
              && b.emprunts == E + [NouvelEmprunt(old(ProchaineCle(b.emprunts, IdEmprunt)), usagerId, b.exemplaires[k.value].id, now, None)]
  {
    var u := b.TrouverUsager(usagerId);
    if u.None? {
      return Exception;
    }
    var verdict := PeutEmprunter(u.value, b.emprunts);
    if !verdict.0 {
      return Rend(verdict);
    }
    var o := b.TrouverOuvrage(ouvrageId);
    if o.None? {
      return Exception;
    }
    if !OuvrageDisponible(o.value, b.exemplaires, b.emprunts) {
      return Rend((false, MsgAucunExemplaire));
    }
    CompterPositions(b.emprunts, EnCoursDe(usagerId));
    DisponibleDonneLibre(o.value, b.exemplaires, b.emprunts);
    var k := EmprunterPremierLibre(b, usagerId, ouvrageId, now, None);
    if k.None? {
      return Rend((false, MsgErreurExemplaire));
    }
    return Rend((true, MsgEmpruntEnregistre));
  }

  // Returning

  /**
   * `reservations[0]` of the work's `active` reservations ordered by
   * `(priorite, date_reservation)`: no active reservation is strictly ahead of
   * it; among reservations with the same key the one stored first is taken.
   */
  function PremiereEnFile(rs: seq<Reservation>, ouvrageId: int): (r: Option<nat>)
    ensures r.None? <==> forall i :: 0 <= i < |rs| ==> !ActiveSur(ouvrageId)(rs[i])
    ensures r.Some? ==> r.value < |rs| && ActiveSur(ouvrageId)(rs[r.value])
    ensures r.Some? ==> forall i :: 0 <= i < |rs| && ActiveSur(ouvrageId)(rs[i]) ==> !Avant(rs[i], rs[r.value])
    ensures r.Some? ==> forall i :: 0 <= i < r.value && ActiveSur(ouvrageId)(rs[i]) ==> Avant(rs[r.value], rs[i])
  {
    if |rs| == 0 then None
    else
      var n := |rs| - 1;
      var m := PremiereEnFile(rs[..n], ouvrageId);
      if !ActiveSur(ouvrageId)(rs[n]) then m
      else if m.Some? && !Avant(rs[n], rs[m.value]) then m
      else Some(n)
  }

  /** A reservation strictly ahead of every other active one of the work is the one taken. */
  lemma PremiereEnFileUnique(rs: seq<Reservation>, ouvrageId: int, k: nat)
    requires k < |rs| && ActiveSur(ouvrageId)(rs[k])
    requires forall j :: 0 <= j < |rs| && j != k && ActiveSur(ouvrageId)(rs[j]) ==> Avant(rs[k], rs[j])
    ensures PremiereEnFile(rs, ouvrageId) == Some(k)
  {
  }

  /**
   * `retourner_emprunt`: an unknown id is answered "Emprunt non trouvé" with
   * no change. Otherwise the loan is marked `retourné` with the return date,
   * and the reservation at the head of its work's line, if any, is marked
   * `honorée`; no other row changes.
   */
  method RetournerEmprunt(b: Bibliotheque, empruntId: int, now: int) returns (r: (bool, string))
    requires b.Valid()
    modifies b`emprunts, b`reservations
    ensures b.Valid()
    ensures old(b.IndexEmprunt(empruntId)).None? ==> r == (false, MsgEmpruntNonTrouve) && unchanged(b)
    ensures old(b.IndexEmprunt(empruntId)).Some? ==>
              var k := old(b.IndexEmprunt(empruntId)).value;
              var e := old(b.emprunts)[k];
              var p := PremiereEnFile(old(b.reservations), old(b.OuvrageDe(e.exemplaireId)));
              && r == (true, MsgRetourEnregistre)
              && b.emprunts == old(b.emprunts)[k := e.(dateRetourReelle := Some(now), statut := RetourneAccent)]
              && (p.None? ==> b.reservations == old(b.reservations))
              && (p.Some? ==> b.reservations == old(b.reservations)[p.value := old(b.reservations)[p.value].(statut := HonoreeAccent)])
  {
    var k := b.IndexEmprunt(empruntId);
    if k.None? {
      return (false, MsgEmpruntNonTrouve);
    }
    var e := b.emprunts[k.value];
    assert e in b.emprunts;
    var p := PremiereEnFile(b.reservations, b.OuvrageDe(e.exemplaireId));
    b.MajEmprunt(k.value, e.(dateRetourReelle := Some(now), statut := RetourneAccent));
    if p.Some? {
      b.MajReservation(p.value, b.reservations[p.value].(statut := HonoreeAccent));
    }
    r := (true, MsgRetourEnregistre);
  }

  /**
   * Returning an `en_cours` loan (under either spelling of the returned
   * status) lowers the patron's count of loans in course by one and frees the
   * copy, given that the copy had no other loan in course.
   */
  lemma RetourLibere(es: seq<Emprunt>, k: nat, statut: string, date: int)
    requires k < |es| && es[k].statut == EnCours && statut != EnCours
    requires Compter(es, EnCoursSur(es[k].exemplaireId)) <= 1
    ensures var f := es[k := es[k].(dateRetourReelle := Some(date), statut := statut)];
            && Compter(f, EnCoursDe(es[k].usagerId)) == Compter(es, EnCoursDe(es[k].usagerId)) - 1
            && Compter(f, EnCoursSur(es[k].exemplaireId)) == 0
  {
    var v := es[k].(dateRetourReelle := Some(date), statut := statut);
    CompterRemplace(es, k, v, EnCoursDe(es[k].usagerId));
    CompterRemplace(es, k, v, EnCoursSur(es[k].exemplaireId));
  }

  /** A patron at the limit of five loans is refused a sixth, and may borrow again once one of them is returned. */
  lemma SixiemeEmpruntApresRetour(u: Usager, es: seq<Emprunt>, k: nat, date: int)
    requires u.statut == Actif && Compter(es, EnCoursDe(u.id)) == LimiteEmprunts
    requires k < |es| && es[k].usagerId == u.id && es[k].statut == EnCours
    ensures PeutEmprunter(u, es) == (false, MsgLimiteAtteinte)
    ensures PeutEmprunter(u, es[k := es[k].(dateRetourReelle := Some(date), statut := RetourneAccent)]) == (true, MsgOK)
  {
    var f := es[k := es[k].(dateRetourReelle := Some(date), statut := RetourneAccent)];
    CompterRemplace(es, k, f[k], EnCoursDe(u.id));
    CompterPositions(es, EnCoursDe(u.id));
    CompterPositions(f, EnCoursDe(u.id));
  }

  // Reserving

  /** The patron already holds an `active` reservation for the work (`filter_by(...).first()` finds one). */
  ghost predicate DejaReservee(rs: seq<Reservation>, usagerId: int, ouvrageId: int)
  {
    exists i :: 0 <= i < |rs| && ActiveDe(usagerId, ouvrageId)(rs[i])
  }

  /**
   * The reservation step shared by `reserver_ouvrage` and the reservation
   * routes: refuse when the patron already has an active reservation for the
   * work; otherwise insert one whose `priorite` is the number of active
   * reservations of the work, plus one.
   */
  method CreerReservation(b: Bibliotheque, usagerId: int, ouvrageId: int, now: int) returns (creee: bool)
    requires b.Valid()
    requires usagerId in Cles(b.usagers, IdUsager) && ouvrageId in Cles(b.ouvrages, IdOuvrage)
    modifies b`reservations
    ensures b.Valid()
    ensures creee <==> !DejaReservee(old(b.reservations), usagerId, ouvrageId)
    ensures !creee ==> unchanged(b)
    ensures creee ==>
              b.reservations == old(b.reservations) +
                [NouvelleReservation(old(ProchaineCle(b.reservations, IdReservation)), usagerId, ouvrageId, now,
                                     |Positions(old(b.reservations), ActiveSur(ouvrageId))| + 1, None)]
    ensures creee ==> Compter(b.reservations, ActiveDe(usagerId, ouvrageId)) == 1
  {
    var existante := Premier(b.reservations, ActiveDe(usagerId, ouvrageId));
    if existante.Some? {
      return false;
    }
    ghost var R := b.reservations;
    var actives := Compter(b.reservations, ActiveSur(ouvrageId));
    var nouvelle := NouvelleReservation(ProchaineCle(b.reservations, IdReservation), usagerId, ouvrageId, now, actives + 1, None);
    PremiereReservationActive(R, nouvelle);
    assert nouvelle == NouvelleReservation(ProchaineCle(R, IdReservation), usagerId, ouvrageId, now,
                                           |Positions(R, ActiveSur(ouvrageId))| + 1, None);
    b.InsererReservation(nouvelle);
    assert b.reservations == R + [nouvelle];
    return true;
  }

  /**
   * When the patron has no active reservation for the work, a new active one
   * is their only one; and the number of active reservations of the work is
   * the number of positions that hold one.
   */
  lemma PremiereReservationActive(rs: seq<Reservation>, r: Reservation)
    requires r.statut == Active
    requires Premier(rs, ActiveDe(r.usagerId, r.ouvrageId)).None?
    ensures !DejaReservee(rs, r.usagerId, r.ouvrageId)
    ensures Compter(rs, ActiveDe(r.usagerId, r.ouvrageId)) == 0
    ensures Compter(rs + [r], ActiveDe(r.usagerId, r.ouvrageId)) == 1
    ensures Compter(rs, ActiveSur(r.ouvrageId)) == |Positions(rs, ActiveSur(r.ouvrageId))|
  {
    CompterNul(rs, ActiveDe(r.usagerId, r.ouvrageId));
    CompterAjout(rs, r, ActiveDe(r.usagerId, r.ouvrageId));
    CompterPositions(rs, ActiveSur(r.ouvrageId));
  }

  /**
   * `reserver_ouvrage`: "Usager ou ouvrage non trouvé" when either row is
   * missing, the duplicate message when the patron already has an active
   * reservation for the work, otherwise one new reservation.
   */
  method ReserverOuvrage(b: Bibliotheque, usagerId: int, ouvrageId: int, now: int) returns (r: (bool, string))
    requires b.Valid()
    modifies b`reservations
    ensures b.Valid()
    ensures b.TrouverUsager(usagerId).None? || b.TrouverOuvrage(ouvrageId).None? ==>
              r == (false, MsgIntrouvable) && unchanged(b)
    ensures b.TrouverUsager(usagerId).Some? && b.TrouverOuvrage(ouvrageId).Some? ==>
              if DejaReservee(old(b.reservations), usagerId, ouvrageId) then
                r == (false, MsgDejaReserve) && unchanged(b)
              else
                && r == (true, MsgReservationCreee)
                && b.reservations == old(b.reservations) +
                     [NouvelleReservation(old(ProchaineCle(b.reservations, IdReservation)), usagerId, ouvrageId, now,
                                          |Positions(old(b.reservations), ActiveSur(ouvrageId))| + 1, None)]
  {
    var u := b.TrouverUsager(usagerId);
    var o := b.TrouverOuvrage(ouvrageId);
    if u.None? || o.None? {
      return (false, MsgIntrouvable);
    }
    var creee := CreerReservation(b, usagerId, ouvrageId, now);
    if !creee {
      return (false, MsgDejaReserve);
    }
    return (true, MsgReservationCreee);
  }

  /**
   * `priorite = count + 1` is not a place in the line. Three reservations of
   * work 7 were made at times 10, 20 and 30 with priorities 1, 2 and 3; the
   * first two were cancelled. A reservation made at time 40 is then given
   * priority 2 and goes ahead of the one made at time 30.
   */
  lemma PrioriteDevanceUneReservationAnterieure()
    ensures var rs := [Reservation(1, 1, 7, 10, 10 + 7 * Jour, Annulee, 1),
                       Reservation(2, 2, 7, 20, 20 + 7 * Jour, Annulee, 2),
                       Reservation(3, 3, 7, 30, 30 + 7 * Jour, Active, 3)];
            var d := NouvelleReservation(4, 4, 7, 40, Compter(rs, ActiveSur(7)) + 1, None);
            && d.priorite == 2
            && PremiereEnFile(rs + [d], 7) == Some(3)
            && rs[2].dateReservation < d.dateReservation
  {
    var r0 := Reservation(1, 1, 7, 10, 10 + 7 * Jour, Annulee, 1);
    var r1 := Reservation(2, 2, 7, 20, 20 + 7 * Jour, Annulee, 2);
    var r2 := Reservation(3, 3, 7, 30, 30 + 7 * Jour, Active, 3);
    assert [r0] == [] + [r0] && [r0, r1] == [r0] + [r1] && [r0, r1, r2] == [r0, r1] + [r2];
    CompterAjout([], r0, ActiveSur(7));
    CompterAjout([r0], r1, ActiveSur(7));
    CompterAjout([r0, r1], r2, ActiveSur(7));
    var d := NouvelleReservation(4, 4, 7, 40, 2, None);
    PremiereEnFileUnique([r0, r1, r2] + [d], 7, 3);
  }
}
