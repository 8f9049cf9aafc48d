# Library loans, reservations and requests — a Dafny model

This project models the business core of a small Flask library application (`APPLICATION/`). The core is the
lifecycle of six kinds of record:
- patrons (`Usager`);
- works (`Ouvrage`) and their copies (`Exemplaire`);
- loans (`Emprunt`);
- reservations (`Reservation`);
- patron requests (`DemandeUsager`).

The model covers three layers:
- `models.py`: the rules the records answer themselves (borrowing eligibility, availability, overdue detection, the
  extension guard, record defaults).
- `controllers.py`: the `GestionBibliotheque` operations (add a work with numbered copies, borrow, return with
  promotion of the first waiting reservation, reserve).
- `app.py`: the guard-and-update logic of the route handlers, which implement the same rules a second time with small
  differences. Both variants are modelled, each with its own contract.

Modules:
- `Base` (`base.dfy`): `Option`, `Issue` (a value or a raised exception), counting and filtering over tables, the
  "first row such that" search, key sets.
- `Texte` (`texte.dfy`): decimal rendering and `{n:03d}` padding, `str.strip()` and `str.lower()` (ASCII and Latin-1
  letters).
- `Modeles` (`modeles.dfy`):
  - the records as datatypes, the status strings as the columns store them, the limits (5 loans, 2 extensions) and
    durations (21, 7 and 7 days);
  - the record predicates and defaults of `models.py`.
- `Session` (`session.dfy`):
  - the database session as the class `Bibliotheque`, one `seq` per table in insertion (= key) order;
  - the keys: every `id` is SQLite's `INTEGER PRIMARY KEY`, that is the rowid, so a new row gets one more than the
    largest key present (`ProchaineCle`, 1 for an empty table). No counter is kept: deleting the newest rows lowers the
    next key, and their keys are given out again;
  - `Valid()`, its invariant: positive keys increasing in table order, existing foreign keys, at most one patron per
    e-mail and one work per ISBN, as many copy rows
    per work as it declares, at most one `en_cours` loan per copy, at most 5 `en_cours` loans per patron, extension
    counts in 0..2, at most one `active` reservation per (patron, work), at most one pending request per (patron, work,
    type);
  - the row insertions, updates and bulk deletes, each proved to keep `Valid()`;
  - `Emprunt.prolonger`, which updates a loaded row in place.
- `Controleurs` (`controleurs.dfy`): the four `GestionBibliotheque` operations.
- `Routes` (`routes.dfy`): the route handlers; each answers a `Reponse` (success, a refusal with its reason, a 404, a
  server error).

Time is an integer number of seconds and "now" is a parameter. A Python exception the code does not catch is the
`Exception` outcome, never a precondition.

Where the code and its written description disagree, the model follows the code:
- A new reservation's priority is "active reservations of the work + 1". After a cancellation this can repeat an
  existing value or rank a newer reservation ahead of an older one (`PrioriteDevanceUneReservationAnterieure`). The
  priorities are neither unique nor increasing.
- Duplicate ISBNs are not caught. `ajouter_ouvrage` raises from the commit (controller) or from the flush (route), so
  the route answers a server error. The route stores the ISBN field as submitted: a field sent empty is the value `""`,
  which clashes like any other, so a second work added with an empty ISBN field fails with a server error; an absent
  field is NULL, which never clashes.
- A patron with only returned loans can be deleted; the route deletes those loans with the patron.
- Copies are freed only by leaving `en_cours`: a loan in `en_retard` neither blocks its copy nor counts towards the
  five-loan limit, but it does block deleting the patron.
- The two variants write different spellings of "returned": the controller writes `retourné` and the return route
  `retourne`. `est_en_retard` recognises both. The controller marks a promoted reservation `honorée`; no modelled route
  writes a reservation status other than `active`.
- `order_by(priorite, date_reservation)` leaves rows with equal keys in an unspecified order. The model takes the one
  with the lowest key.
- Keys are not "auto-incremented" in the sense of never being reused: SQLite's rowid rule hands out the key of a
  deleted newest row again. Deleting the newest patron and registering someone else gives the new patron the deleted
  patron's key (`InscriptionApresSuppression`).

## Model

| member | source | states |
|---|---|---|
| Modeles.PeutEmprunter | APPLICATION/models.py:35-44 | a patron who is not `actif` is refused with "Compte non actif"; an active one is refused with the limit message exactly when 5 or more of their loans are `en_cours`, and accepted with "OK" otherwise |
| Modeles.ExemplaireLibre | APPLICATION/models.py:99-102 | a copy is free exactly when no loan on it is `en_cours`; loans in any other status do not block it |
| Modeles.ExemplairesDisponibles | APPLICATION/models.py:70-76 | the declared copy count minus the number of the work's copy rows that have an `en_cours` loan; never above the declared count |
| Modeles.OuvrageDisponible | APPLICATION/models.py:78-80 | a work is available exactly when fewer of its copy rows are busy than it declares |
| Modeles.DisponibleDonneLibre | APPLICATION/models.py:70-80 | when a work has as many copy rows as it declares, availability implies that some copy row of the work is free |
| Modeles.NouvelEmprunt | APPLICATION/models.py:121-124 | a new loan is `en_cours` with no extension and no return date; it is due 21 days after creation unless a due date is supplied, which is kept |
| Modeles.EstEnRetard | APPLICATION/models.py:126-130 | a returned loan (either spelling) is never overdue; any other loan is overdue exactly when now is past its due date |
| Modeles.PeutProlonger | APPLICATION/models.py:132-138 | refused with the maximum-extensions message at 2 extensions, before the overdue test; otherwise refused when overdue; allowed exactly when under 2 extensions and not overdue |
| Modeles.Prolongation | APPLICATION/models.py:144-145 | an extension moves the due date exactly 7 days later, adds exactly one extension and changes no other field |
| Modeles.NouvelEmpruntEcheance | APPLICATION/models.py:121-138 | a loan created with the default due date becomes overdue exactly after 21 days and can be extended exactly until then |
| Modeles.TroisiemeProlongationRefusee | APPLICATION/models.py:132-147 | from a fresh loan in course, two timely extensions succeed and move the due date 14 days; a third is refused with the maximum-extensions message at any time |
| Modeles.NouvelleReservation | APPLICATION/models.py:165-168 | a new reservation is `active`, carries the given priority, and expires 7 days after creation unless an expiry is supplied |
| Modeles.NouvelleDemande | APPLICATION/models.py:175-184 | a new request is `en_attente` with the given patron, work, type and comment, and no administrator, comment or date of processing yet |
| Texte.Decimal | APPLICATION/controllers.py:31 | `str(n)` is a non-empty string of decimal digits with no leading zero except for 0 itself, of one digit below 10, two below 100, three below 1000 and more from 1000 on |
| Texte.Pad3 | APPLICATION/controllers.py:31 | `{n:03d}` yields decimal digits only, exactly three below 1000, and more than three only for numbers of four or more digits, with no leading zero |
| Texte.ValeurDecimal | APPLICATION/controllers.py:31 | reading back the decimal rendering of a number gives that number |
| Texte.Pad3Valeur | APPLICATION/controllers.py:31 | reading back the zero-padded field gives the number it was made from |
| Texte.Pad3Injectif | APPLICATION/controllers.py:31 | different numbers give different zero-padded fields |
| Texte.SansEspaceDebut | APPLICATION/app.py:131-133 | removes exactly the leading whitespace (every character `str.isspace` accepts): a suffix of the input that does not start with whitespace, preceded only by whitespace |
| Texte.SansEspaceFin | APPLICATION/app.py:131-133 | removes exactly the trailing whitespace (every character `str.isspace` accepts): a prefix of the input that does not end with whitespace, followed only by whitespace |
| Texte.Strip | APPLICATION/app.py:131-133 | the stripped text neither starts nor ends with whitespace |
| Texte.Lower | APPLICATION/app.py:194-196 | lower-casing keeps the length, maps each ASCII capital and each Latin-1 capital (U+00C0-U+00DE except U+00D7) to its small letter, leaves none of those capitals and keeps every other character |
| Texte.LowerEspace | APPLICATION/app.py:194-196 | lower-casing neither creates nor removes whitespace at any position |
| Texte.Normaliser | APPLICATION/app.py:194-196 | `strip().lower()` has the length of the stripped text, neither starts nor ends with whitespace and holds no ASCII or Latin-1 capital |
| Texte.NormaliserIdempotent | APPLICATION/app.py:194-205 | stripping and lower-casing twice gives the same as once, so a stored normalised e-mail compares equal to a normalised form input |
| Base.ClesBornees | APPLICATION/models.py:11 | with valid keys, every key is positive and below the next key, which is at least 1 |
| Base.ClesAjout | APPLICATION/models.py:11 | appending a row whose key is the next key keeps the keys valid, adds exactly that key, and makes the next key one more than it |
| Base.ClesFiltrer | APPLICATION/app.py:529-533 | deleting rows keeps the keys valid, and the next key never goes up |
| Base.CleReutilisee | APPLICATION/app.py:533 | deleting the newest row leaves exactly the rows before it, and the next key falls back to one more than the key before it (1 for an empty table), at most the deleted key |
| Session.EmailsDistincts | APPLICATION/models.py:14 | at most one patron row per e-mail means no two patron rows share an e-mail |
| Session.IsbnDistincts | APPLICATION/models.py:54 | at most one work row per ISBN means no two works with an ISBN share it |
| Session.UsagerAjoute | APPLICATION/models.py:11-14 | a new patron with the next key and an e-mail no patron has keeps the patron table consistent and adds exactly its key |
| Session.UsagerRemplace | APPLICATION/models.py:11-14 | replacing a patron row by one with the same key and e-mail keeps the patron table consistent and its key set |
| Session.UsagersSansUsager | APPLICATION/app.py:533 | deleting a patron row keeps the patron table consistent, keeps every other key, and never raises the next key |
| Session.EmpruntsSansUsager | APPLICATION/app.py:531 | deleting a patron's loans keeps the loan table consistent, leaves none of theirs, and never raises the next key |
| Session.ReservationsSansUsager | APPLICATION/app.py:530 | deleting a patron's reservations keeps the reservation table consistent, leaves none of theirs, and never raises the next key |
| Session.DemandesSansUsager | APPLICATION/app.py:529 | deleting a patron's requests keeps the request table consistent, leaves none of theirs, and never raises the next key |
| Session.EmpruntAjoute | APPLICATION/controllers.py:79-85 | a new loan with the next key, on an existing patron and copy, keeps at most one `en_cours` loan per copy and at most 5 per patron when the copy is free and the patron under the limit |
| Session.ReservationAjoutee | APPLICATION/controllers.py:122-145 | a new `active` reservation that is the patron's first active one for the work keeps at most one active reservation per patron and work |
| Session.DemandeAjoutee | APPLICATION/app.py:343-362 | a new pending request that is the only pending one of its patron, work and type keeps at most one such request |
| Session.Bibliotheque.TrouverUsager | APPLICATION/app.py:563-564 | `db.session.get(Usager, id)` returns the row with that key, or nothing exactly when no row has it |
| Session.Bibliotheque.TrouverOuvrage | APPLICATION/app.py:577-578 | `db.session.get(Ouvrage, id)` returns the row with that key, or nothing exactly when no row has it |
| Session.Bibliotheque.IndexEmprunt | APPLICATION/app.py:617 | `get_or_404` on a loan finds the position of the row with that key, or nothing exactly when no row has it |
| Session.Bibliotheque.IndexDemande | APPLICATION/app.py:783 | `get_or_404` on a request finds the position of the row with that key, or nothing exactly when no row has it |
| Session.Bibliotheque.OuvrageDe | APPLICATION/controllers.py:100 | the work of an existing copy is the `ouvrage_id` of the copy row with that key |
| Session.Bibliotheque.InsererUsager | APPLICATION/app.py:147-158 | adding a patron appends exactly that row and keeps the database valid |
| Session.Bibliotheque.InsererEmprunt | APPLICATION/controllers.py:84-85 | adding a loan appends exactly that row and keeps the database valid |
| Session.Bibliotheque.InsererReservation | APPLICATION/controllers.py:144-145 | adding a reservation appends exactly that row and keeps the database valid |
| Session.Bibliotheque.InsererDemande | APPLICATION/app.py:361-362 | adding a request appends exactly that row and keeps the database valid |
| Session.Bibliotheque.MajUsager | APPLICATION/app.py:217-218 | replacing a patron row with the same key and e-mail changes only that row and keeps the database valid |
| Session.Bibliotheque.MajEmprunt | APPLICATION/app.py:640-642 | updating a loan row in place changes only that row and keeps the database valid |
| Session.Bibliotheque.MajReservation | APPLICATION/controllers.py:106-107 | updating a reservation row in place changes only that row and keeps the database valid |
| Session.Bibliotheque.MajDemande | APPLICATION/app.py:823-828 | updating a request row in place changes only that row and keeps the database valid |
| Session.Bibliotheque.SupprimerDemandesDe | APPLICATION/app.py:529 | deleting a patron's requests keeps exactly the other patrons' requests, in order, leaves none of theirs, keeps the database valid and never raises the next key |
| Session.Bibliotheque.SupprimerReservationsDe | APPLICATION/app.py:530 | deleting a patron's reservations keeps exactly the other patrons' reservations, in order, leaves none of theirs, keeps the database valid and never raises the next key |
| Session.Bibliotheque.SupprimerEmpruntsDe | APPLICATION/app.py:531 | deleting a patron's loans keeps exactly the other patrons' loans, in order, leaves none of theirs, keeps the database valid and never raises the next key |
| Session.Bibliotheque.SupprimerUsagerSeul | APPLICATION/app.py:533-534 | deleting a patron no row refers to keeps exactly the other patrons, keeps the database valid and never raises the next key |
| Session.Bibliotheque.SupprimerUsager | APPLICATION/app.py:528-534 | the four deletions in order leave exactly the rows of the other patrons in each of the four tables, keep the database valid, and never raise any of their next keys |
| Session.Bibliotheque.Prolonger | APPLICATION/models.py:140-147 | `prolonger` returns the guard's refusal and changes nothing when the guard refuses; otherwise it applies one extension to that loan only and answers "Emprunt prolonge" |
| Controleurs.Prefixe | APPLICATION/controllers.py:31 | `isbn or ouvrage.id`: a non-empty ISBN is used as it is; a missing or empty ISBN gives the work's id in decimal; never empty |
| Controleurs.PrefixeSansIsbn | APPLICATION/controllers.py:31 | without an ISBN the prefix is all digits and reads back as the work's id |
| Controleurs.Numero | APPLICATION/controllers.py:31 | a copy number starts with the prefix and is at least four characters longer, exactly four below 1000 |
| Controleurs.NumeroLu | APPLICATION/controllers.py:31 | a copy number is the prefix, a dash, and a digit field that reads back as the sequence number: exactly three digits below 1000, no leading zero when longer |
| Controleurs.NumeroInjectif | APPLICATION/controllers.py:31 | two different sequence numbers give two different copy numbers under the same prefix |
| Controleurs.NouveauxExemplairesNumerotes | APPLICATION/controllers.py:28-34 | the n new copies have consecutive keys, belong to the work, are in state `bon`, are numbered 1..n and have pairwise different numbers |
| Controleurs.AjoutExemplaires | APPLICATION/controllers.py:28-34 | appending the new copies keeps the keys valid and adds exactly n copy rows to the work and none to any other |
| Controleurs.AjouterExemplaires | APPLICATION/controllers.py:28-34 | the loop appends exactly the n numbered copies and advances the copy key by n |
| Controleurs.IsbnPris | APPLICATION/models.py:54 | an ISBN clashes exactly when some work already stores that same value; a missing ISBN (NULL) never clashes, an empty one does |
| Controleurs.AjouterOuvrage | APPLICATION/controllers.py:10-37 | a duplicate ISBN raises and changes nothing; otherwise exactly one work and its max(0, n) numbered copies are added and the database stays valid |
| Controleurs.InsererOuvrage | APPLICATION/controllers.py:24-36 | inserting a work with the next key and a free ISBN appends exactly that row and its max(0, n) numbered copy rows and keeps the database valid |
| Controleurs.AjoutOuvrageCoherent | APPLICATION/controllers.py:24-36 | a work with a fresh ISBN and the next key plus its numbered copies keeps every table consistent, loans, reservations and requests included |
| Controleurs.OuvrageAjoute | APPLICATION/controllers.py:13-36 | a work with a fresh ISBN and the next key, plus exactly its copy rows, keeps the work and copy tables consistent |
| Controleurs.AjoutOuvrageReferences | APPLICATION/controllers.py:24-36 | adding a work and copies keeps every loan, reservation and request pointing at existing rows |
| Controleurs.PremierExemplaireLibre | APPLICATION/controllers.py:69-73 | the search returns the first copy of the work, in table order, that is free; none exactly when no copy of the work is free |
| Controleurs.EmprunterPremierLibre | APPLICATION/controllers.py:69-85 | lends the first free copy of the work (a new `en_cours` loan with the next key) or changes nothing when there is none |
| Controleurs.EmprunterOuvrage | APPLICATION/controllers.py:56-86 | a missing patron or work raises; an ineligible patron gets `peut_emprunter`'s message and an unavailable work "Aucun exemplaire disponible", with no loan; otherwise exactly one loan of the first free copy; the "Erreur" answer never occurs |
| Modeles.Avant | APPLICATION/controllers.py:102 | `order_by(priorite, date_reservation)`: a lower priority comes first; at equal priority the earlier reservation date comes first |
| Modeles.AvantOrdreStrict | APPLICATION/controllers.py:99-102 | that order is irreflexive, asymmetric and transitive, and two reservations neither of which comes first have the same priority and date |
| Controleurs.PremiereEnFile | APPLICATION/controllers.py:99-106 | the first reservation by (priority, date) among the work's active ones: no other active one is strictly ahead of it, earlier rows are strictly behind it, and none exactly when the work has no active reservation |
| Controleurs.PremiereEnFileUnique | APPLICATION/controllers.py:99-106 | an active reservation strictly ahead of every other active one of the work is the one chosen |
| Controleurs.RetournerEmprunt | APPLICATION/controllers.py:89-111 | an unknown loan is refused with no change; otherwise the loan becomes `retourné` with the return date, the first waiting reservation of its work (if any) becomes `honorée`, and no other row changes |
| Controleurs.RetourLibere | APPLICATION/controllers.py:95-96 | returning the only `en_cours` loan of a copy makes the copy free again |
| Controleurs.SixiemeEmpruntApresRetour | APPLICATION/controllers.py:95-96 | a patron at the limit of 5 is refused, and becomes eligible again once one of those loans is returned |
| Controleurs.CreerReservation | APPLICATION/controllers.py:122-145 | refuses exactly when the patron already holds an active reservation for the work, changing nothing; otherwise appends one active reservation whose priority is the work's active count + 1 |
| Controleurs.PremiereReservationActive | APPLICATION/controllers.py:123-136 | when no active reservation of the patron for the work is found, there is none, and after the insert there is exactly one |
| Controleurs.ReserverOuvrage | APPLICATION/controllers.py:114-146 | a missing patron or work is refused, a duplicate active reservation is refused, each with no change; otherwise one reservation with priority "active count + 1" |
| Controleurs.PrioriteDevanceUneReservationAnterieure | APPLICATION/controllers.py:133-141 | after a cancellation, "count + 1" gives a newer reservation a priority equal to an older one's, so the newer one is first in line |
| Routes.RouteNouvelEmprunt | APPLICATION/app.py:559-601 | refuses, in order and with no change, a missing patron, a non-active patron, 5 or more loans in course, a missing work, an unavailable work; otherwise exactly one loan of the first free copy, due on the supplied date or 21 days later; "Aucun exemplaire disponible" never occurs |
| Routes.RouteRetourEmprunt | APPLICATION/app.py:614-620 | 404 with no change for an unknown loan; otherwise the loan becomes `retourne` with the return date whatever its status, and no other row changes |
| Routes.RouteProlongerEmprunt | APPLICATION/app.py:628-642 | 404 for an unknown loan; a loan not `en_cours` or already extended twice is refused with no change; otherwise exactly one extension (+7 days, +1) |
| Routes.ProlongationSelonLeChemin | APPLICATION/app.py:632-641 | the route and `Emprunt.prolonger` disagree: an overdue loan in course is refused by `prolonger` but not by the route, and a returned loan passes `prolonger`'s guard but not the route's |
| Routes.RouteReserverOuvrage | APPLICATION/app.py:675-699 | 404 for an unknown work; refuses with no change a missing selection, a missing patron, a duplicate active reservation; otherwise one reservation with priority "active count + 1" |
| Routes.RouteNouvelleReservation | APPLICATION/app.py:712-734 | refuses with no change a missing selection, a missing patron or work, a duplicate active reservation; otherwise one reservation with priority "active count + 1" |
| Routes.RouteCreerDemande | APPLICATION/app.py:327-362 | refuses with no change a type other than `emprunt`/`reservation`, a missing work, an identical pending request; otherwise one pending request with the stripped comment |
| Routes.Traitee | APPLICATION/app.py:823-826 | closing a request sets its status, the administrator's comment, the processing date and the administrator, and no other field |
| Routes.CloreDemande | APPLICATION/app.py:843-848 | closing the request at a position changes that row only and keeps the database valid |
| Routes.AccepterDemandeEmprunt | APPLICATION/app.py:793-808 | a borrowing request is refused with `peut_emprunter`'s message or for an unavailable work, with the request still pending and no loan; otherwise one loan of the first free copy with the default due date, and the request accepted |
| Routes.AccepterDemandeReservation | APPLICATION/app.py:810-826 | a reservation request for which the patron already holds an active reservation is refused with no change; otherwise one reservation with priority "active count + 1" and the request accepted |
| Routes.RouteAccepterDemande | APPLICATION/app.py:782-828 | 404 exactly for an unknown request; "already processed" exactly for a request no longer pending, with no change; on success the request is accepted; a borrowing request touches no reservation and a reservation request no loan; a request of another type is accepted as it is |
| Routes.RouteRefuserDemande | APPLICATION/app.py:835-848 | 404 for an unknown request; a request no longer pending is refused with no change; otherwise it is closed as `refusee` with the stripped comment |
| Routes.AccepterPuisRefuser | APPLICATION/app.py:786-788 | refusing a request just accepted, or just found already processed, answers "already processed"; an unknown id is a 404 for both |
| Routes.RouteSupprimerUsager | APPLICATION/app.py:515-534 | 404 for an unknown patron; refused with no change while any of their loans is `en_cours` or `en_retard`; otherwise exactly their requests, reservations and loans are deleted, then the patron, whose key no longer exists |
| Routes.SansLaCle | APPLICATION/app.py:533 | after deleting a patron, no patron row has that key |
| Routes.DernierUsagerRetire | APPLICATION/app.py:533 | deleting the newest patron leaves the patrons before it; the next key becomes one more than the key of the patron before it (1 when none is left), at most the deleted key; no remaining patron has the deleted patron's e-mail |
| Routes.InscriptionApresSuppression | APPLICATION/app.py:515-534 | deleting the newest patron (no loan in course or overdue) succeeds; registering again with that patron's e-mail then succeeds; a successful registration adds one row after the remaining ones, whose key is one more than the key of the patron before it (1 when none is left) and never above the deleted patron's key; when the deleted patron's key followed the one before it (keys 1, 2, 3, say) the new patron gets exactly the deleted key |
| Routes.RouteAjouterOuvrage | APPLICATION/app.py:391-415 | a duplicate ISBN, including a second empty ISBN field, makes the request fail with a server error and nothing committed; an absent ISBN always succeeds; otherwise exactly one work and its numbered copies are added |
| Routes.RouteInscription | APPLICATION/app.py:130-158 | refuses with no change a password under 6 characters, then an e-mail (normalised) already in use; otherwise one `actif` patron with the stripped names, the normalised e-mail and the password's hash |
| Routes.IdentiteApresInscription | APPLICATION/app.py:205 | a patron typing the names given at registration passes the identity check of the password reset |
| Routes.RouteMotDePasseOublie | APPLICATION/app.py:193-218 | refuses with no change an unknown e-mail, names that differ after strip and lower-casing, a password under 6 characters, a confirmation that differs; otherwise only that patron's password hash changes |

## Left out
- Flask routing, templates, flashed text, redirects and form parsing. A refusal is a `Motif`, one per flashed message; form values are parameters. A field only tested for truth or looked up is `None` when absent or empty; the ISBN of `ajouter_ouvrage` is `None` when absent and `Some("")` when sent empty.
- Routes.RouteAccepterDemande: its own contract states the outcome of each branch only in summary; the full guard cascade of the borrowing and reservation branches is the contract of AccepterDemandeEmprunt and AccepterDemandeReservation, which it calls.
- Texte.Strip: its contract states only that the result neither starts nor ends with whitespace; that it removes exactly the surrounding whitespace is stated by SansEspaceDebut and SansEspaceFin, of which it is the composition.
- Texte.Lower: maps the ASCII and Latin-1 capitals only; `str.lower()` also lower-cases the capitals of other scripts and blocks (Latin Extended, Greek, Cyrillic and others, some to two characters), which the model leaves unchanged. `strip()` removes the full `str.isspace` set. `len()` is taken as the length of the Dafny string.
- Password hashing: `Hache(p)` stands for the hash of `p`. The hashing library, `check_password` and the login routes are not modelled.
- Columns no rule reads are not modelled: telephone, address, registration date, publication year, publisher, category, description, acquisition date.
- Real clocks and date parsing: time is an integer. An unparsable `date_retour` in `nouvel_emprunt` is `None`, as if the field were empty.
- An identifier the database cannot convert to a key. A non-numeric id, or `int(nb_exemplaires)` raising, is not modelled: ids and counts are integers.
- `supprimer_usager`'s `IntegrityError` branch: in the model no row refers to a patron once their requests, reservations and loans are deleted, so the branch cannot be reached and is not represented.
- `GestionBibliotheque.inscrire_usager` and `get_statistiques`, the `honorer_reservation`/`annuler_reservation` routes, catalogue, search and dashboard routes: outside the loan, reservation and request rules modelled here.
- Concurrency and transactions. Each operation runs alone and commits fully or not at all, so the count-then-insert races on priorities and on the last free copy are not represented.
- No operation writes `en_retard`. The model accepts loans in that status, as rows created elsewhere may carry it.
