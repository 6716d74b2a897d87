# hexalib back office — a Dafny model

This project models the business core of the hexalib bookstore back office.
It is a Spring service layer over JPA repositories. The model covers:

- **Sales** (`Ventes`, `Facturation`). Creating a sale pre-checks stock for
  every line, prices each line with the best discount, takes the stock down
  with one SORTIE ledger row per line, and totals HT, discounts and TTC.
  Cancelling puts the stock back with RETOUR rows. Invoices are numbered
  `FAC-yyyyMMdd-NNN`.
- **Manual stock movements** (`Stock`): the per-type arithmetic and its
  rejection rules, over a catalogue plus an append-only ledger.
- **Discounts** (`Reductions`, `ReductionsService`): validity, the amount,
  the applicability filter, the ranking query and its head, the request
  checks, and the service's target validation, editing and toggle.
- **Books** (`Livres`, `LivresService`): stock status, margin, uniqueness
  guards, book codes, the status toggle and stock adjustment.
- **Purchase orders** (`Commandes`, `CommandesService`): the line subtotal,
  the order total, the EN_ATTENTE → RECUE | ANNULEE life cycle, reception
  into stock, and order numbering.
- **Categories and suppliers** (`Categories`, `Fournisseurs`): uniqueness
  guards, category codes and the status toggles.
- **Users** (`Utilisateurs`): the temporary-password generator and its
  shuffle, and the guards of profile editing, password change and reset.
- **Shared formats** (`Common`, `Digits`, `Codes`): the `%03d` and
  `yyyyMMdd` renderings, `trim`, and the code builders of `CodeGenerator`.

Repositories are maps keyed by id, and the stock ledger is a sequence.
Money is Dafny `real`, which is exact like `BigDecimal` without rounding.
Every service call is a pure function from the state before to a `Result`:
either the state after, or the exception it throws (`NotFound` for
ResourceNotFoundException, `BadRequest` with a reason for
BadRequestException, `IndexHorsLimites` for the
StringIndexOutOfBoundsException of an out-of-range `substring`, and
`ContrainteReferentielle` for the database refusing a delete that a
foreign key still needs). A failure returns no state, which models the
transaction rollback. Stocks and quantities are Java `int` values, and
the unchecked `int` sums and differences of the code wrap around modulo 2^32 in the model
as they do in Java. The following are all parameters:

- "today" and the acting user;
- new ids;
- random draws;
- the password encoder;
- the count of sales used for invoice numbers.

## Model

Paths are relative to the repository root, under `src/main/java/com/hexalib/api/`.

| member | source | states |
|---|---|---|
| Common.Toggle | src/main/java/com/hexalib/api/livre/service/LivreService.java:210-214 | the status toggle always changes the status |
| Common.ToggleInvolution | src/main/java/com/hexalib/api/categorie/service/CategorieService.java:126-130 | toggling twice gives the original status back |
| Common.NotAfterTotal | src/main/java/com/hexalib/api/reduction/model/Reduction.java:79-81 | `!isAfter` on dates is a total order: any two dates compare, and mutual comparison means equality |
| Common.Wrap32 | src/main/java/com/hexalib/api/commande/service/CommandeFournisseurService.java:221 | Java `int` addition: the result is in the `int` range and congruent to the exact value modulo 2^32, equals it when it fits, and is 2^32 off after one overflow |
| Common.Wrap32Add | src/main/java/com/hexalib/api/vente/service/VenteService.java:314-315 | wrapping an intermediate sum changes no later wrapped sum, so a chain of `int` additions is the exact sum wrapped once |
| Digits.NatToStringRoundTrip | src/main/java/com/hexalib/api/vente/service/VenteService.java:341 | the decimal rendering of a counter parses back to the counter |
| Digits.ZeroPadRoundTrip | src/main/java/com/hexalib/api/common/util/CodeGenerator.java:31 | `%0wd` of a value below 10^w has exactly w digits and parses back to the value |
| Digits.Pad3 | src/main/java/com/hexalib/api/common/util/CodeGenerator.java:31 | `%03d` is all digits, three of them below 1000, and always parses back to its argument |
| Digits.FormatYmd | src/main/java/com/hexalib/api/vente/service/VenteService.java:339 | the `yyyyMMdd` rendering has eight digits whose slices parse to year, month and day |
| Digits.FormatYmdInjective | src/main/java/com/hexalib/api/vente/service/VenteService.java:339 | distinct dates render distinctly |
| Digits.Pad3Injective | src/main/java/com/hexalib/api/vente/service/VenteService.java:341 | distinct counters below 1000 get distinct `%03d` suffixes |
| Livres.GetStatutStock | src/main/java/com/hexalib/api/livre/model/Livre.java:122-131 | RUPTURE iff the stock is 0; STOCK_CRITIQUE iff non-zero and at most the threshold; DISPONIBLE iff non-zero and above it |
| Livres.StatutStockMatchesQueries | src/main/java/com/hexalib/api/livre/model/Livre.java:86-96 | `isEnRupture` iff RUPTURE; DISPONIBLE iff neither query holds; with a non-negative threshold, `isStockCritique` iff not DISPONIBLE |
| Livres.GetMarge | src/main/java/com/hexalib/api/livre/model/Livre.java:102-107 | a margin exists iff the purchase price does, and margin plus purchase price is the sale price |
| Stock.SommeQuantitesConcat | src/main/java/com/hexalib/api/stock/service/MouvementStockService.java:74 | the per-book sum of signed quantities is additive over ledger concatenation |
| Stock.CalculerNouveauStock | src/main/java/com/hexalib/api/stock/service/MouvementStockService.java:171-184 | the result is an `int`; SORTIE subtracts the quantity and ENTREE, RETOUR and AJUSTEMENT add it, exactly whenever the result fits; an overflowing addition on a non-negative stock comes out negative |
| Stock.GetQuantiteSignee | src/main/java/com/hexalib/api/stock/service/MouvementStockService.java:189-201 | the recorded quantity is negated for SORTIE, except Integer.MIN_VALUE which `int` negation leaves unchanged, and kept for every other type |
| Stock.NouveauStockEstSigne | src/main/java/com/hexalib/api/stock/service/MouvementStockService.java:53-68 | the two tables agree: new stock = old stock + signed quantity in `int` arithmetic, for every type |
| Stock.ValidateMouvement | src/main/java/com/hexalib/api/stock/service/MouvementStockService.java:147-166 | passes iff neither a SORTIE above the stock nor an AJUSTEMENT whose `int` sum is negative is asked |
| Stock.CreateMouvement | src/main/java/com/hexalib/api/stock/service/MouvementStockService.java:41-82 | an unknown book is NotFound and a SORTIE above the stock fails; on success exactly one row is appended with the request's fields, before = the old stock, after = before + signed quantity in `int` arithmetic (exact for a non-negative `int` stock), after ≥ 0, and the book's stock set to after |
| Stock.CreateMouvementSucceedsIff | src/main/java/com/hexalib/api/stock/service/MouvementStockService.java:45-60 | a movement succeeds iff the book exists, validation passes and the `int` result is non-negative; from a non-negative `int` stock that is iff the exact new stock lies in [0, Integer.MAX_VALUE], so an overflowing movement is refused |
| Stock.CreateMouvementPreservesLedger | src/main/java/com/hexalib/api/stock/service/MouvementStockService.java:53-78 | a movement keeps the ledger coherent and every stock a non-negative `int`, keeps the set of books, and per book the stock moves by exactly the recorded quantity |
| Reductions.CalculerMontantReduction | src/main/java/com/hexalib/api/reduction/model/Reduction.java:77-95 | zero unless active and dated within [debut, fin]; a percentage gives prix × valeur / 100 exactly; any other type gives valeur |
| Reductions.PourcentageBorne | src/main/java/com/hexalib/api/reduction/model/Reduction.java:90-91 | a valid percentage in [0, 100] of a non-negative price lies in [0, price] |
| Reductions.MontantFixeNonPlafonne | src/main/java/com/hexalib/api/reduction/model/Reduction.java:92-94 | a fixed amount above the price is returned uncapped |
| Reductions.NouvelleRequete | src/main/java/com/hexalib/api/reduction/dto/ReductionRequest.java:45 | a request without `actif` is active |
| Reductions.IsDateFinValide | src/main/java/com/hexalib/api/reduction/dto/ReductionRequest.java:49-54 | true when a date is missing, else iff the end is not before the start |
| Reductions.IsCibleIdValide | src/main/java/com/hexalib/api/reduction/dto/ReductionRequest.java:57-62 | true for GLOBALE, else iff a target id is present |
| Reductions.ApplicableIsValidAndTargeted | src/main/java/com/hexalib/api/reduction/repository/ReductionRepository.java:35-44 | the WHERE clause is entity validity plus the target match; a null category id matches no CATEGORIE discount |
| Reductions.Rang | src/main/java/com/hexalib/api/reduction/repository/ReductionRepository.java:45-50 | the CASE rank is 1, 2 or 3, and 1 exactly for LIVRE, 2 exactly for CATEGORIE |
| Reductions.FiltrerMembres | src/main/java/com/hexalib/api/reduction/repository/ReductionRepository.java:35-44 | the filter keeps exactly the stored discounts that apply |
| Reductions.InsererPreserve | src/main/java/com/hexalib/api/reduction/repository/ReductionRepository.java:45-51 | inserting into a sorted list keeps it sorted by (rank asc, valeur desc) and adds exactly one copy |
| Reductions.TrierSpec | src/main/java/com/hexalib/api/reduction/repository/ReductionRepository.java:45-51 | the sort yields a sorted permutation of its input |
| Reductions.FindApplicableReductionsOrderedSpec | src/main/java/com/hexalib/api/reduction/repository/ReductionRepository.java:35-57 | the ordered list is sorted and holds exactly the applicable discounts, as a permutation of the filtered table |
| Reductions.BestIsMostSpecificThenLargest | src/main/java/com/hexalib/api/reduction/repository/ReductionRepository.java:63-70 | no best iff nothing applies; the best applies, ranks no worse than any candidate, and beats any candidate of its rank on valeur |
| Reductions.BestPrefersSpecificScope | src/main/java/com/hexalib/api/reduction/repository/ReductionRepository.java:45-51 | any applicable LIVRE discount makes the best LIVRE; otherwise an applicable CATEGORIE one makes it CATEGORIE |
| ReductionsService.ValidateCible | src/main/java/com/hexalib/api/reduction/service/ReductionService.java:219-231 | no error iff a LIVRE/CATEGORIE target id names an existing book/category (GLOBALE or no id always pass), with the error for each scope |
| ReductionsService.MapToModel | src/main/java/com/hexalib/api/reduction/service/ReductionService.java:233-245 | all nine request fields are copied onto the entity unchanged |
| ReductionsService.MapToModelInjective | src/main/java/com/hexalib/api/reduction/service/ReductionService.java:233-245 | two requests map to the same entity iff they are equal, so no field is dropped |
| ReductionsService.CreateReduction | src/main/java/com/hexalib/api/reduction/service/ReductionService.java:39-50 | fails with a BadRequest iff the target check fails; otherwise stores exactly the mapped request under the new id and changes nothing else |
| ReductionsService.CreateReductionPreserve | src/main/java/com/hexalib/api/reduction/service/ReductionService.java:39-50 | with a fresh id, every stored target still exists, keys stay coherent, and the table grows by one |
| ReductionsService.UpdateReduction | src/main/java/com/hexalib/api/reduction/service/ReductionService.java:155-178 | NotFound before the target check; on success only that discount changes, to the mapped request under its old id |
| ReductionsService.UpdateReductionPreserve | src/main/java/com/hexalib/api/reduction/service/ReductionService.java:155-178 | editing keeps every stored target existing and keys coherent |
| ReductionsService.UpdateAvecMemesChamps | src/main/java/com/hexalib/api/reduction/service/ReductionService.java:164-172 | resubmitting a discount's own fields changes nothing |
| ReductionsService.ToggleActif | src/main/java/com/hexalib/api/reduction/service/ReductionService.java:183-194 | `actif` is negated and nothing else changes; a missing id is NotFound |
| ReductionsService.ToggleActifDeuxFois | src/main/java/com/hexalib/api/reduction/service/ReductionService.java:187 | toggling twice restores the table |
| ReductionsService.ToggleActifValidite | src/main/java/com/hexalib/api/reduction/service/ReductionService.java:187 | within its period, a toggled discount is valid iff it was not |
| ReductionsService.DeleteReduction | src/main/java/com/hexalib/api/reduction/service/ReductionService.java:199-209 | a missing id is NotFound; an id a sale line still points at is refused by the foreign key; otherwise exactly that key is removed and every other entry kept |
| Codes.AvecCompteur | src/main/java/com/hexalib/api/livre/service/LivreService.java:248 | `"%s-%03d"`: the base, a dash, then digits that parse back to the counter; four extra characters below 1000, five or more from 1000 |
| Codes.AvecCompteurInjective | src/main/java/com/hexalib/api/commande/service/CommandeFournisseurService.java:273 | distinct counters give distinct candidates for one base |
| Codes.GenerateLivreCode | src/main/java/com/hexalib/api/common/util/CodeGenerator.java:40-43 | the category code, a dash and three digits that parse back to the draw |
| Codes.BaseDatee | src/main/java/com/hexalib/api/vente/service/VenteService.java:339-341 | the prefix, a dash and the `yyyyMMdd` rendering of today |
| Codes.GenerateNumeroFactureAleatoire | src/main/java/com/hexalib/api/common/util/CodeGenerator.java:49-54 | sixteen characters: "FAC-", the date, a dash and three digits that parse back to the draw |
| Codes.FormeFacture | src/main/java/com/hexalib/api/common/util/CodeGenerator.java:53 | the layout of "FAC-" + date + "-" + counter, and its length 16 below 1000 |
| Codes.PremierLibreSpec | src/main/java/com/hexalib/api/livre/service/LivreService.java:245-257 | the first-free search returns a free counter with every earlier one taken, and nothing iff all are taken |
| Codes.Trim | src/main/java/com/hexalib/api/common/util/CodeGenerator.java:15 | the trimmed string is no longer than the input and neither starts nor ends with a character ≤ U+0020 |
| Codes.TrimRogne | src/main/java/com/hexalib/api/common/util/CodeGenerator.java:15 | the result is a slice of the input with only characters ≤ U+0020 outside it and none at its ends |
| Codes.TrimUnique | src/main/java/com/hexalib/api/common/util/CodeGenerator.java:15 | any slice with only characters ≤ U+0020 outside it and none at its ends is the result: `trim` defined independently of its loops |
| Codes.TrimIdempotent | src/main/java/com/hexalib/api/common/util/CodeGenerator.java:15 | trimming twice changes nothing more |
| Codes.Lettres | src/main/java/com/hexalib/api/common/util/CodeGenerator.java:16-22 | after upper-casing, accent folding and filtering, every character is in A-Z |
| Codes.LettresConcat | src/main/java/com/hexalib/api/common/util/CodeGenerator.java:16-22 | the letters of a concatenation are the letters of each part, character by character |
| Codes.LettresDeMajuscules | src/main/java/com/hexalib/api/common/util/CodeGenerator.java:16-22 | a name made of A-Z capitals is its own letters |
| Codes.LettresCourtes | src/main/java/com/hexalib/api/common/util/CodeGenerator.java:16-22 | when every character upper-cases to one character there are no more letters than characters |
| Codes.LettresEszett | src/main/java/com/hexalib/api/common/util/CodeGenerator.java:16 | `toUpperCase` turns the sharp s into two letters: "ßa" gives "SSA" |
| Codes.PrefixeTelQuEcrit | src/main/java/com/hexalib/api/common/util/CodeGenerator.java:15-28 | as written: throws iff fewer letters survive than min(4, length of the untrimmed name); otherwise four A-Z capitals |
| Codes.GenerateCategorieCodeTelQuEcrit | src/main/java/com/hexalib/api/common/util/CodeGenerator.java:13-34 | as written: throws iff the prefix does; otherwise 7 characters, the prefix then three digits parsing to the draw |
| Codes.CompleterX | src/main/java/com/hexalib/api/common/util/CodeGenerator.java:26-28 | a prefix of at most four characters is padded with 'X' to exactly four |
| Codes.GenerateCategorieCodeForme | src/main/java/com/hexalib/api/common/util/CodeGenerator.java:13-34 | the corrected code has 7 characters: the first four A-Z letters of the trimmed name (or all of them padded with X), then three digits parsing to the draw |
| Codes.TelQuEcritAccordeQuandDefini | src/main/java/com/hexalib/api/common/util/CodeGenerator.java:23-28 | where the written prefix does not throw, it equals the corrected prefix unless the name is shorter than four characters and has more letters than characters |
| Codes.TelQuEcritAccordeCode | src/main/java/com/hexalib/api/common/util/CodeGenerator.java:13-34 | where the written generator does not throw and the name is not a short one with more letters than characters, it yields the corrected code |
| Codes.TelQuEcritEchouePourAB | src/main/java/com/hexalib/api/common/util/CodeGenerator.java:23 | the name "A B" throws as written, while the corrected prefix is "ABXX" |
| Codes.TelQuEcritTronquePourEszett | src/main/java/com/hexalib/api/common/util/CodeGenerator.java:16-23 | the one-character name "ß" has the letters "SS", but the written prefix keeps one of them ("SXXX") where the corrected one gives "SSXX" |
| Commandes.CalculateSousTotal | src/main/java/com/hexalib/api/commande/model/LigneCommandeFournisseur.java:45-49 | with quantity and price present the subtotal is their product; otherwise the line is unchanged; nothing else changes |
| Commandes.CalculateSousTotalIdempotent | src/main/java/com/hexalib/api/commande/model/LigneCommandeFournisseur.java:45-49 | computing the subtotal twice changes nothing |
| Commandes.CalculateSousTotalAuMoinsPrix | src/main/java/com/hexalib/api/commande/model/LigneCommandeFournisseur.java:47 | at least one copy at a non-negative price costs at least the unit price |
| Commandes.NouvelleCommande | src/main/java/com/hexalib/api/commande/model/CommandeFournisseur.java:44-58 | a new order is EN_ATTENTE, with total 0, no lines and no reception date |
| Commandes.SommeConcat | src/main/java/com/hexalib/api/commande/model/CommandeFournisseur.java:92-96 | the sum of subtotals is additive over concatenation |
| Commandes.CalculateMontantTotal | src/main/java/com/hexalib/api/commande/model/CommandeFournisseur.java:92-96 | the total becomes the sum of the line subtotals; nothing else changes |
| Commandes.AddLigne | src/main/java/com/hexalib/api/commande/model/CommandeFournisseur.java:74-78 | the line goes last, and the total is the old sum plus its subtotal |
| Commandes.RetirerMultiset | src/main/java/com/hexalib/api/commande/model/CommandeFournisseur.java:84 | `List.remove` takes out exactly one copy when there is one |
| Commandes.RemoveLigne | src/main/java/com/hexalib/api/commande/model/CommandeFournisseur.java:83-87 | one copy of the line leaves, and the total drops by its subtotal if it was there |
| Commandes.AjouterPuisRetirer | src/main/java/com/hexalib/api/commande/model/CommandeFournisseur.java:74-87 | adding then removing a line gives back the same lines (as a multiset: an equal earlier copy is the one removed) and the same total |
| Commandes.MarquerCommeRecue | src/main/java/com/hexalib/api/commande/model/CommandeFournisseur.java:101-104 | RECUE with the given reception date, nothing else changed |
| Commandes.Annuler | src/main/java/com/hexalib/api/commande/model/CommandeFournisseur.java:109-111 | ANNULEE, nothing else changed |
| CommandesService.GenerateNumeroCommande | src/main/java/com/hexalib/api/commande/service/CommandeFournisseurService.java:264-282 | an issued number is not in use; a failure is LimiteCommandesAtteinte |
| CommandesService.GenerateNumeroCommandePremier | src/main/java/com/hexalib/api/commande/service/CommandeFournisseurService.java:264-282 | the number is CMD-yyyyMMdd-NNN with the lowest free counter, starting at 001 |
| CommandesService.GenerateNumeroCommandeEchoue | src/main/java/com/hexalib/api/commande/service/CommandeFournisseurService.java:269-279 | the call fails iff counters 001 to 998 are all taken |
| CommandesService.GenerateNumeroCommandeJamais999 | src/main/java/com/hexalib/api/commande/service/CommandeFournisseurService.java:272-278 | the counter 999 is never issued |
| CommandesService.ConstruireLignes | src/main/java/com/hexalib/api/commande/service/CommandeFournisseurService.java:67-78 | the lines build iff every requested book exists, one line per request |
| CommandesService.ConstruireLignesCompletes | src/main/java/com/hexalib/api/commande/service/CommandeFournisseurService.java:67-78 | built lines are complete and priced, with positive subtotals for valid requests |
| CommandesService.CreateCommande | src/main/java/com/hexalib/api/commande/service/CommandeFournisseurService.java:44-86 | an unknown supplier is NotFound; on success the new order is stored |
| CommandesService.CreateCommandeEnregistre | src/main/java/com/hexalib/api/commande/service/CommandeFournisseurService.java:44-86 | the stored order is EN_ATTENTE, unreceived, with a fresh number, the requested lines and the sum of their subtotals |
| CommandesService.UpdateCommande | src/main/java/com/hexalib/api/commande/service/CommandeFournisseurService.java:148-190 | a missing order is NotFound; a non-pending one is CommandeNonEnAttente; on success lines and total are replaced |
| CommandesService.UpdateCommandeEnregistre | src/main/java/com/hexalib/api/commande/service/CommandeFournisseurService.java:169-186 | the edited order keeps id, number, status and author, and its total is the sum of its new lines |
| CommandesService.DeleteCommande | src/main/java/com/hexalib/api/commande/service/CommandeFournisseurService.java:192-203 | succeeds iff the order exists and is EN_ATTENTE; removes only it |
| CommandesService.RecevoirLignesEffet | src/main/java/com/hexalib/api/commande/service/CommandeFournisseurService.java:219-228 | reception adds each book's ordered quantity (summed over duplicates) in `int` arithmetic and sets the last line price; books no line names are untouched |
| CommandesService.RecevoirCommande | src/main/java/com/hexalib/api/commande/service/CommandeFournisseurService.java:205-236 | succeeds iff the order exists and is EN_ATTENTE; it becomes RECUE with the date, and no ledger row is written |
| CommandesService.RecevoirCommandeStock | src/main/java/com/hexalib/api/commande/service/CommandeFournisseurService.java:219-222 | every stock stays an `int`; from non-negative stock and quantities a book ends at its exact total when that fits, and negative when the total passes Integer.MAX_VALUE, since the sum is unchecked |
| CommandesService.NotesAnnulation | src/main/java/com/hexalib/api/commande/service/CommandeFournisseurService.java:249-253 | a non-empty motif appends "Motif d'annulation: " + motif after a blank line when notes exist; otherwise the notes are kept |
| CommandesService.AnnulerCommande | src/main/java/com/hexalib/api/commande/service/CommandeFournisseurService.java:238-258 | succeeds iff the order exists and is EN_ATTENTE; it becomes ANNULEE with the notes updated |
| CommandesService.EtatsFinaux | src/main/java/com/hexalib/api/commande/service/CommandeFournisseurService.java:154-156 | once out of EN_ATTENTE, update, delete, receive and cancel all fail with CommandeNonEnAttente |
| CommandesService.PasDeSecondTraitement | src/main/java/com/hexalib/api/commande/service/CommandeFournisseurService.java:211-213 | receiving or cancelling twice fails the second time |
| CommandesService.CreateCommandePreserveIntegre | src/main/java/com/hexalib/api/commande/service/CommandeFournisseurService.java:44-86 | creation keeps every line complete and every total the sum of its lines |
| CommandesService.UpdateCommandePreserveIntegre | src/main/java/com/hexalib/api/commande/service/CommandeFournisseurService.java:148-190 | editing keeps the store consistent |
| CommandesService.DeleteAnnulerPreserventIntegre | src/main/java/com/hexalib/api/commande/service/CommandeFournisseurService.java:192-258 | deletion and cancellation keep the store consistent |
| CommandesService.RecevoirCommandePreserveIntegre | src/main/java/com/hexalib/api/commande/service/CommandeFournisseurService.java:205-236 | reception keeps the store consistent |
| CommandesService.DeleteLivreGardeLesCommandes | src/main/java/com/hexalib/api/commande/model/LigneCommandeFournisseur.java:27-28 | deleting a book an order line points at is refused, and a successful delete keeps every order line on an existing book |
| CommandesService.DeleteFournisseurGardeLesCommandes | src/main/java/com/hexalib/api/commande/model/CommandeFournisseur.java:30-31 | deleting a supplier an order points at is refused, and a successful delete keeps every order's supplier present |
| Categories.GenerateUniqueCode | src/main/java/com/hexalib/api/categorie/service/CategorieService.java:136-148 | a name the generator cannot take a prefix from throws StringIndexOutOfBoundsException at the first attempt; any other failure is CodeCategorieImpossible; a returned code is unused |
| Categories.GenerateUniqueCodeSpec | src/main/java/com/hexalib/api/categorie/service/CategorieService.java:136-148 | the code is the written generator's code at an attempt (of at most 100) where every earlier attempt gave a used code; the index exception iff the first attempt throws; CodeCategorieImpossible iff all 100 attempts give used codes |
| Categories.GenerateUniqueCodeTire | src/main/java/com/hexalib/api/categorie/service/CategorieService.java:136-148 | a returned code is the written generator's code for some draw in 0..999 |
| Categories.GenerateUniqueCodeCorrige | src/main/java/com/hexalib/api/categorie/service/CategorieService.java:136-148 | the loop over the corrected generator: a failure is CodeCategorieImpossible and a returned code is unused |
| Categories.GenerateUniqueCodeCorrigeSpec | src/main/java/com/hexalib/api/categorie/service/CategorieService.java:136-148 | the corrected loop returns the first unused corrected code among 100 draws and fails iff all 100 are used |
| Categories.GenerateUniqueCodeAccorde | src/main/java/com/hexalib/api/categorie/service/CategorieService.java:136-148 | the written and corrected loops return the same thing wherever the written prefix neither throws nor drops letters of a short name |
| Categories.CreateCategorie | src/main/java/com/hexalib/api/categorie/service/CategorieService.java:28-47 | a used name is NomDejaUtilise; otherwise a name the written generator cannot take a prefix from throws; the new category is ACTIF with the request's name and description and an unused code the written generator builds from some draw, and nothing else changes |
| Categories.CreateCategoriePreserve | src/main/java/com/hexalib/api/categorie/service/CategorieService.java:28-47 | with a fresh id, names and codes stay unique |
| Categories.UpdateCategorie | src/main/java/com/hexalib/api/categorie/service/CategorieService.java:86-108 | a missing id is NotFound; renaming to another category's name is refused; a new name the written generator cannot handle throws; the code is regenerated iff the name changes, and then comes from the written generator |
| Categories.UpdateCategoriePreserve | src/main/java/com/hexalib/api/categorie/service/CategorieService.java:86-108 | renaming keeps names and codes unique |
| Categories.DeleteCategorie | src/main/java/com/hexalib/api/categorie/service/CategorieService.java:110-119 | a missing id is NotFound; a category a book still points at is refused by the foreign key; otherwise only that key is removed |
| Categories.ToggleCategorie | src/main/java/com/hexalib/api/categorie/service/CategorieService.java:121-134 | flips the status only |
| Categories.ToggleCategorieDeuxFois | src/main/java/com/hexalib/api/categorie/service/CategorieService.java:126-130 | toggling twice restores the categories |
| Fournisseurs.CreateFournisseur | src/main/java/com/hexalib/api/fournisseur/service/FournisseurService.java:27-53 | fails iff the name is taken or a non-empty e-mail is taken, name first; the new supplier is ACTIF |
| Fournisseurs.CreateFournisseurPreserve | src/main/java/com/hexalib/api/fournisseur/service/FournisseurService.java:27-53 | with a fresh id, names and non-empty e-mails stay unique |
| Fournisseurs.UpdateFournisseur | src/main/java/com/hexalib/api/fournisseur/service/FournisseurService.java:114-143 | fails iff a changed name or a changed non-empty e-mail belongs to another supplier; otherwise every field is overwritten and the status kept |
| Fournisseurs.UpdateFournisseurPreserve | src/main/java/com/hexalib/api/fournisseur/service/FournisseurService.java:114-143 | editing keeps names and non-empty e-mails unique |
| Fournisseurs.DeleteFournisseur | src/main/java/com/hexalib/api/fournisseur/service/FournisseurService.java:146-154 | a missing id is NotFound; a supplier an order still points at is refused by the foreign key; otherwise only that key is removed |
| Fournisseurs.ToggleFournisseur | src/main/java/com/hexalib/api/fournisseur/service/FournisseurService.java:156-169 | flips the status only |
| Fournisseurs.ToggleFournisseurDeuxFois | src/main/java/com/hexalib/api/fournisseur/service/FournisseurService.java:161-165 | toggling twice restores the suppliers |
| LivresService.GenerateUniqueLivreCode | src/main/java/com/hexalib/api/livre/service/LivreService.java:241-258 | a returned code is unused; a failure is CodeLivreImpossible |
| LivresService.GenerateUniqueLivreCodeSpec | src/main/java/com/hexalib/api/livre/service/LivreService.java:241-258 | the code is the category code, a dash and the lowest free counter in 1..1000; failure iff all 1000 are taken |
| LivresService.GenerateUniqueLivreCodeQuatreChiffres | src/main/java/com/hexalib/api/livre/service/LivreService.java:252-254 | with 1..999 taken the code is "CAT-1000", one character longer than the others |
| LivresService.CreateLivre | src/main/java/com/hexalib/api/livre/service/LivreService.java:30-71 | an unknown category is NotFound; duplicate title+author or duplicate non-empty ISBN are refused; the new book is ACTIF with a fresh code |
| LivresService.CreateLivrePreserve | src/main/java/com/hexalib/api/livre/service/LivreService.java:30-71 | with a fresh id, codes, title/author pairs and ISBNs stay unique |
| LivresService.UpdateLivre | src/main/java/com/hexalib/api/livre/service/LivreService.java:147-192 | a missing book or category is NotFound; a title+author pair held by another book is refused; a changed non-empty ISBN that some book holds is refused with IsbnDejaUtilise; on success only this book is overwritten, its status kept, and the code changes iff the category changes, to one no book holds |
| LivresService.UpdateLivrePreserve | src/main/java/com/hexalib/api/livre/service/LivreService.java:147-192 | editing keeps codes, title/author pairs and ISBNs unique |
| LivresService.DeleteLivre | src/main/java/com/hexalib/api/livre/service/LivreService.java:194-203 | a missing id is NotFound; a book a sale line, ledger row or order line still points at is refused by the foreign key; otherwise only that key is removed |
| LivresService.ToggleLivre | src/main/java/com/hexalib/api/livre/service/LivreService.java:205-218 | flips the status only |
| LivresService.ToggleLivreDeuxFois | src/main/java/com/hexalib/api/livre/service/LivreService.java:210-214 | toggling twice restores the catalogue |
| LivresService.AjusterStock | src/main/java/com/hexalib/api/livre/service/LivreService.java:220-235 | succeeds iff the book exists and the count is ≥ 0; the stock becomes that count, and nothing else changes |
| LivresService.AjusterStockProperties | src/main/java/com/hexalib/api/livre/service/LivreService.java:229-231 | adjustment keeps every stock a non-negative `int` and is idempotent |
| LivresService.DeleteCategorieGardeLesLivres | src/main/java/com/hexalib/api/livre/model/Livre.java:63-64 | deleting a category a book points at is refused, and a successful delete keeps every book's category present |
| LivresService.CreateUpdateGardentLesCategories | src/main/java/com/hexalib/api/livre/service/LivreService.java:33-34 | creating or editing a book only points it at an existing category |
| Utilisateurs.DecaleDansAlphabet | src/main/java/com/hexalib/api/auth/service/UserService.java:179-183 | the class draws land in A-Z, a-z and 0-9 |
| Utilisateurs.Brut | src/main/java/com/hexalib/api/auth/service/UserService.java:175-190 | twelve characters of CHARACTERS, with one capital, one small letter, one digit and one special first |
| Utilisateurs.ShuffleString | src/main/java/com/hexalib/api/auth/service/UserService.java:196-205 | the shuffle keeps the length and the multiset of characters |
| Utilisateurs.GenerateSecurePassword | src/main/java/com/hexalib/api/auth/service/UserService.java:175-194 | twelve characters, all in CHARACTERS, including a capital, a small letter, a digit and one of "@#$%&*" |
| Utilisateurs.UpdateProfil | src/main/java/com/hexalib/api/auth/service/UserService.java:41-58 | refused iff the e-mail changes to one already held; otherwise name and e-mail are overwritten |
| Utilisateurs.UpdateProfilPreserve | src/main/java/com/hexalib/api/auth/service/UserService.java:47-51 | profile editing keeps e-mails unique |
| Utilisateurs.ChangePassword | src/main/java/com/hexalib/api/auth/service/UserService.java:63-90 | wrong old password, unchanged password and confirmation mismatch are refused in that order; success stores encode(new) and clears both flags |
| Utilisateurs.ChangePasswordPuisRepeter | src/main/java/com/hexalib/api/auth/service/UserService.java:69-86 | with a sound encoder the new password then matches, and the same request is refused a second time |
| Utilisateurs.ChangePasswordPreserve | src/main/java/com/hexalib/api/auth/service/UserService.java:84-86 | changing the password keeps the users and their e-mails unique |
| Utilisateurs.ResetPassword | src/main/java/com/hexalib/api/auth/service/UserService.java:95-118 | an unknown user is NotFound; otherwise a generated 12-character password is stored hashed, both flags are raised, nothing else changes, and the clear password returned matches the stored hash under a sound encoder |
| Utilisateurs.TemporairePuisChanger | src/main/java/com/hexalib/api/auth/service/UserService.java:63-90 | after a reset, the temporary password opens the change: it is accepted iff the new password does not match the temporary hash and is confirmed, and then both flags drop and the new password matches |
| Ventes.CalculerSousTotal | src/main/java/com/hexalib/api/vente/model/LigneVente.java:62-65 | subtotal + discount = price × quantity, nothing else changed |
| Ventes.SousTotalProperties | src/main/java/com/hexalib/api/vente/model/LigneVente.java:52-65 | idempotent; with the default discount 0 the subtotal is the gross amount; a non-negative discount never raises it |
| Ventes.SousTotalPeutEtreNegatif | src/main/java/com/hexalib/api/vente/model/LigneVente.java:64 | a discount above the gross amount gives a negative subtotal |
| Ventes.Manques | src/main/java/com/hexalib/api/vente/service/VenteService.java:270-278 | the shortfall list holds exactly the short lines, and is empty iff no line is short |
| Ventes.ValidateStock | src/main/java/com/hexalib/api/vente/service/VenteService.java:267-283 | a missing book is NotFound; otherwise it passes iff every line fits the stock, else one BadRequest lists all shortfalls |
| Ventes.LigneUtiliseLaMeilleureReduction | src/main/java/com/hexalib/api/vente/service/VenteService.java:227-259 | a new line copies title, code and sale price; its discount is 0 iff nothing applies, and otherwise comes from an applicable discount that ranks no worse than any other and has the largest valeur of its rank, as its percentage of the gross price or its fixed value |
| Ventes.CreerLigne | src/main/java/com/hexalib/api/vente/service/VenteService.java:212-261 | an unknown book is NotFound; succeeds iff the quantity fits the current stock |
| Ventes.SortiesForme | src/main/java/com/hexalib/api/vente/service/VenteService.java:288-308 | row k is exactly the SORTIE row for line k's book and quantity, whose before-snapshot is that book's stock once the earlier lines were deducted |
| Ventes.SortiesCoherentes | src/main/java/com/hexalib/api/vente/service/VenteService.java:288-300 | for a servable sale of non-negative quantities on an `int` catalogue, every SORTIE row is exact: after = before − q |
| Ventes.MouvementSortie | src/main/java/com/hexalib/api/vente/service/VenteService.java:288-305 | the SORTIE row carries −q and after = before − q, both in `int` arithmetic and exact when they fit, motif "Vente", the invoice number and the user |
| Ventes.DeduireStock | src/main/java/com/hexalib/api/vente/service/VenteService.java:288-307 | one line deducted: its book's stock becomes the `int` difference, other books are unchanged, and one row is appended |
| Ventes.StockPrisWrap | src/main/java/com/hexalib/api/vente/service/VenteService.java:288-291 | on an `int` stock, deducting the lines one `int` subtraction at a time equals subtracting their total once and wrapping |
| Ventes.StockPrisExact | src/main/java/com/hexalib/api/vente/service/VenteService.java:288-291 | with non-negative quantities whose total is within the stock, no step wraps and the stock ends at the exact difference, non-negative when it started so |
| Ventes.RetoursForme | src/main/java/com/hexalib/api/vente/service/VenteService.java:313-333 | row k is exactly the RETOUR row for line k's book and quantity, whose before-snapshot is that book's stock once the earlier lines were given back; with Ventes.MouvementRetour, after = before + q in `int` arithmetic |
| Ventes.SortiesSomme | src/main/java/com/hexalib/api/vente/service/VenteService.java:288-308 | per book the SORTIE rows sum to minus the quantity asked, when no line asks Integer.MIN_VALUE |
| Ventes.RetoursSomme | src/main/java/com/hexalib/api/vente/service/VenteService.java:313-333 | per book the RETOUR rows sum to the quantity given back |
| Ventes.TraiterLignesSucces | src/main/java/com/hexalib/api/vente/service/VenteService.java:80-89 | the line loop succeeds iff each line fits the stock the earlier lines left |
| Ventes.ServableIffTotalWithinStock | src/main/java/com/hexalib/api/vente/service/VenteService.java:219-225 | on an `int` catalogue with non-negative quantities, the running re-check passes iff, per book, the total asked is within stock, so repeated lines whose sum exceeds stock fail |
| Ventes.GenerateNumeroFacture | src/main/java/com/hexalib/api/vente/service/VenteService.java:338-342 | "FAC-", the date, a dash and digits that parse to the count + 1; 16 characters below 1000 |
| Ventes.SommeSousTotauxEstTTC | src/main/java/com/hexalib/api/vente/service/VenteService.java:84-93 | when each subtotal is gross minus discount, the subtotals sum to HT minus the discounts |
| Ventes.CreateVente | src/main/java/com/hexalib/api/vente/service/VenteService.java:59-100 | a failed pre-check is returned as is; on success the sale is stored and one ledger row per line is appended |
| Ventes.CreateVenteRejetteLesManques | src/main/java/com/hexalib/api/vente/service/VenteService.java:267-282 | any short line makes the sale fail with one BadRequest listing every short line (NotFound if a book is missing), and no state is returned |
| Ventes.CreateVenteSucceedsIff | src/main/java/com/hexalib/api/vente/service/VenteService.java:59-89 | a sale succeeds iff the pre-check passes and each line is servable in turn |
| Ventes.CreateVenteEnregistre | src/main/java/com/hexalib/api/vente/service/VenteService.java:69-93 | the stored sale is VALIDEE and numbered; HT is the gross sum, the discount total the sum of discounts, TTC = HT − discounts = the sum of subtotals |
| Ventes.CreateVenteStock | src/main/java/com/hexalib/api/vente/service/VenteService.java:80-89 | each book goes down line by line by the quantity asked, in `int` arithmetic, and exactly the SORTIE rows are appended |
| Ventes.CreateVenteStockInt | src/main/java/com/hexalib/api/vente/service/VenteService.java:288-291 | on an `int` catalogue each stock ends at the total asked subtracted once and wrapped: stocks stay `int`, the result is exact when it fits, and a negative quantity on a stock near Integer.MAX_VALUE turns it negative |
| Ventes.CreateVentePreservesLedger | src/main/java/com/hexalib/api/vente/service/VenteService.java:288-307 | a sale of non-negative quantities keeps every stock a non-negative `int` and the ledger coherent, and per book the new rows add up to the stock change |
| Ventes.AnnulerVente | src/main/java/com/hexalib/api/vente/service/VenteService.java:151-174 | a missing sale is NotFound and an ANNULEE one is refused; on success it is ANNULEE with the motif, its books are restored in `int` arithmetic and exactly its RETOUR rows are appended |
| Ventes.RestaurerLignesEffet | src/main/java/com/hexalib/api/vente/service/VenteService.java:162-165 | giving the lines back raises each book a line names by its lines' quantity in `int` arithmetic, leaves other books untouched, and appends exactly the RETOUR rows |
| Ventes.AnnulerDeuxFoisEchoue | src/main/java/com/hexalib/api/vente/service/VenteService.java:156-158 | cancelling twice fails the second time with VenteDejaAnnulee |
| Ventes.CreerPuisAnnulerRestaureLeStock | src/main/java/com/hexalib/api/vente/service/VenteService.java:59-174 | creating then cancelling a sale restores every book exactly and appends one SORTIE and one RETOUR row per line |
| Ventes.AnnulerVenteReussit | src/main/java/com/hexalib/api/vente/service/VenteService.java:151-168 | a VALIDEE sale whose books still exist can be cancelled |
| Ventes.MouvementRetour | src/main/java/com/hexalib/api/vente/service/VenteService.java:318-331 | the RETOUR row carries +q, before = the old stock, after = before + q in `int` arithmetic, motif "Annulation vente", the invoice number and the user |
| Ventes.RestaurerStock | src/main/java/com/hexalib/api/vente/service/VenteService.java:313-332 | one line given back: its book's stock becomes the `int` sum, other books are unchanged, and one row is appended |
| Ventes.RestaurerLignes | src/main/java/com/hexalib/api/vente/service/VenteService.java:162-165 | the loop over the lines succeeds iff every line's book exists, and keeps the set of books |
| Ventes.AnnulerVenteSousReferences | src/main/java/com/hexalib/api/vente/model/LigneVente.java:31-32 | while every line points at an existing book, any VALIDEE sale can be cancelled |
| Ventes.DeleteLivreGardeLesVentes | src/main/java/com/hexalib/api/stock/model/MouvementStock.java:28-29 | deleting a book a sale line or ledger row points at is refused, and a successful delete keeps every reference valid |
| Ventes.CreateVenteGardeLesReferences | src/main/java/com/hexalib/api/vente/model/LigneVente.java:31-32 | creating a sale keeps every sale line and ledger row on an existing book |
| Ventes.AnnulerVenteGardeLesReferences | src/main/java/com/hexalib/api/stock/model/MouvementStock.java:28-29 | cancelling a sale keeps every sale line and ledger row on an existing book |
| Ventes.DeleteReductionGardeLesVentes | src/main/java/com/hexalib/api/vente/model/LigneVente.java:47-48 | deleting a discount a sale line carries is refused, and a successful delete keeps every carried discount present |
| Facturation.ValideesAuPlusVentes | src/main/java/com/hexalib/api/vente/repository/VenteRepository.java:33-35 | the VALIDEE count of a day never exceeds that day's sales |
| Facturation.NumeroTelQuEcrit | src/main/java/com/hexalib/api/vente/service/VenteService.java:338-342 | as written: the suffix parses to the VALIDEE sales of the day + 1 |
| Facturation.Numero | src/main/java/com/hexalib/api/vente/service/VenteService.java:338-342 | corrected: the suffix parses to all sales of the day + 1 |
| Facturation.NumerosDistincts | src/main/java/com/hexalib/api/vente/service/VenteService.java:339-341 | two invoice numbers coincide only for the same day and counter |
| Facturation.NumeroLibre | src/main/java/com/hexalib/api/vente/model/Vente.java:33 | in a well-numbered table, the corrected number is held by no sale |
| Facturation.TelQuEcritReutiliseUnNumero | src/main/java/com/hexalib/api/vente/repository/VenteRepository.java:33-35 | on any day, a well-numbered table with unique numbers exists where the written number repeats an existing sale's number and the corrected one does not |
| Facturation.VentesDuJourAjout | src/main/java/com/hexalib/api/vente/service/VenteService.java:96 | storing a sale under a fresh id adds one to its own day's count only |
| Facturation.NumerotationAjout | src/main/java/com/hexalib/api/vente/service/VenteService.java:70 | a new sale carrying the corrected number keeps the table well numbered |
| Facturation.NumerotationRemplacement | src/main/java/com/hexalib/api/vente/service/VenteService.java:167-170 | rewriting a sale with its day and number kept keeps the table well numbered |
| Facturation.Vendre | src/main/java/com/hexalib/api/vente/service/VenteService.java:59-100 | the corrected sale creation stores the sale under the corrected number |
| Facturation.VendrePreserve | src/main/java/com/hexalib/api/vente/model/Vente.java:33 | a sale under a fresh id keeps the table well numbered with unique invoice numbers |
| Facturation.AnnulerPreserve | src/main/java/com/hexalib/api/vente/service/VenteService.java:151-174 | cancelling keeps the table well numbered with unique invoice numbers |

## Left out

- Listing, search, paging and statistics (`getAll*`, `search*`, `getStats*`, `getUserStats`, `getMyStats`, `updateDerniereConnexion`) and the JPQL behind them: read-only queries with no business rule beyond the filter.
- `ReductionService.getApplicableReductionsForLivre`, `getBestReductionForLivre`, `getValidReductions` and `getExpired` call repository methods that `ReductionRepository` does not declare. The sale engine uses `findBestApplicableReductionForLivre`, which is modelled.
- PDF rendering (`CommandePdfService`, `FactureService`): layout only, and its amounts go through floating point.
- Controllers, bootstrap, DTO mapping helpers, the JWT and login flow (`AuthService`), and `getCurrentUser`: the acting user is a parameter.
- The password encoder is a pair of uninterpreted functions. Only the consistency "a password matches its own hash" is assumed, and only where a lemma says so.
- Random draws (`Random`, `SecureRandom`) are inputs, reduced modulo their bound as `nextInt` would be.
- UUID generation: new ids are parameters. The preservation lemmas for creation require the id to be fresh.
- Clocks and timestamps (`createdAt`, `updatedAt`, `dateMouvement`): "today" is a parameter, and a sale is dated by its day only.
- Transactions and races. Each call is one atomic step, and a failure returns no state. This covers concurrent invoice numbering, the gap between the stock pre-check and the deduction, and concurrent cancels.
- Bean validation is modelled as predicates on requests. The checks are not enforced on entry except where the service itself tests them. `LivreRequest`'s ISBN pattern is left out.
- `LigneVenteRequest.java` and `TypeReduction.java` are not part of this model as files. Their fields are read from their uses: a line request is a book id and a quantity, and every type other than POURCENTAGE is treated as a fixed amount.
- Codes.Lettres: `toUpperCase` is modelled for ASCII, the Latin-1 letters (with 'ß' becoming "SS") and the other characters whose upper case is longer than one character or lands in A-Z (the dotless i, the long s, the ligatures U+FB00-FB06 and a few letters with combining marks). Other scripts keep their characters, which the A-Z filter drops anyway. The default locale is taken to be a root-like one: under a Turkish, Azeri or Lithuanian default locale Java upper-cases 'i' to U+0130 and would drop it from the letters, which is not modelled. Lengths count code points, not UTF-16 units.
- Codes.Trim: `trim` removes characters up to U+0020, as Java does; other Unicode white space is kept, also as Java does.
- Ventes.AnnulerVente: the RETOUR motif follows the code ("Annulation vente") rather than the English wording used in the project's prose.
- Reductions.CalculerMontantReduction: the percentage is the exact quotient, as `BigDecimal.divide` by 100 always is; the rounding to two decimals that the `scale = 2` columns apply when a line is stored is not modelled.
- Reductions.MontantFixeNonPlafonne: the fixed amount is not clamped, as in the code.
- CommandesService.RecevoirCommande and LivresService.AjusterStock write no ledger row, as in the code. This means the ledger does not explain every stock change.
- Ventes.CreateVente takes the count of the day's VALIDEE sales as an input. `Facturation.Vendre` derives the count from the table instead.
- CommandesService.CreateCommande sees suppliers as a set of ids. Supplier fields play no part in orders.
- ReductionsService.MapToModel, ReductionsService.CreateReduction, ReductionsService.UpdateReduction: these require both dates to be present, because the request declares them `@NotNull` and the entity columns are not nullable.
- Reductions.FindApplicableReductionsOrdered, Reductions.FindBestApplicableReductionForLivre, Ventes.LigneUtiliseLaMeilleureReduction: `ORDER BY rank, valeur DESC` leaves discounts with equal rank and equal valeur in an order the database chooses. The model keeps their table order, so among such ties it picks one particular discount; the contracts promise only what holds for any tie-break (the best ranks no worse, and is at least as large as any candidate of its rank).
- Ventes.AnnulerVente, Ventes.RestaurerLignes: the code reaches each line's book through `ligne.getLivre()`, which cannot be missing while the foreign key holds. The model keeps a NotFound branch for a line whose book is absent; Ventes.AnnulerVenteSousReferences shows that it never fires in a store whose references are valid.
- LivresService.DeleteLivre, Categories.DeleteCategorie, Fournisseurs.DeleteFournisseur, ReductionsService.DeleteReduction: the rows that still point at the entity are a parameter (`enUsage`), and the database's refusal is the ContrainteReferentielle error. A discount's `cible_id` is mapped read-only (`insertable = false, updatable = false`), so it is not treated as a foreign key a delete must respect.
- Ventes.CreateVentePreservesLedger, Ventes.ServableIffTotalWithinStock, Ventes.SortiesCoherentes, Ventes.StockPrisExact: these assume non-negative line quantities and an `int` catalogue. The bounds that `LigneVenteRequest`'s validation may put on the quantity are not visible here, so `Ventes.CreateVente` itself accepts any `Integer` quantity: a negative one raises the stock, wrapping past Integer.MAX_VALUE as `stockAvant - quantite` does (`Ventes.CreateVenteStockInt`).
- Ventes.SortiesForme: a SORTIE row is coherent (after = before + quantity) only when its `int` subtraction does not wrap; Ventes.SortiesCoherentes states coherence for the non-negative quantities of a servable sale.
- Ventes.SortiesSomme: a line asking Integer.MIN_VALUE records `-quantite` as Integer.MIN_VALUE itself, so the per-book sum is stated only for requests without such a line.
- Commandes.Retirer, Commandes.RemoveLigne: order lines carry no id or `createdAt`, which Lombok's `@Data` equality also compares, so among lines with identical fields the model removes the first rather than that very line. Only the order of such identical lines can differ; the multiset of lines and the total are the same.
- Categories.CreateCategorie, Categories.UpdateCategorie: these use the category code generator as written, including its exception. The corrected loop `Categories.GenerateUniqueCodeCorrige` is stated and related to it, but no service calls it.
- LivresService.GenerateUniqueLivreCode: the book code is built from the category's code as stored; the category code's own format is not re-checked there.

## Findings

| source | as written | input that shows it | evidently intended | confidence | as-written member | corrected member |
|---|---|---|---|---|---|---|
| src/main/java/com/hexalib/api/common/util/CodeGenerator.java:23 | the substring bound is `min(4, nom.length())`, the length of the untrimmed, unfiltered name | `generateCategorieCode("A B")`: two letters "AB" survive but the bound is 3, so `substring(0, 3)` throws StringIndexOutOfBoundsException | bound by the filtered letters, so the padding loop completes the prefix ("ABXX") | not executed | Codes.TelQuEcritEchouePourAB | Codes.GenerateCategorieCodeForme |
| src/main/java/com/hexalib/api/common/util/CodeGenerator.java:16-23 | the substring bound is the length of the raw name, but `toUpperCase` can turn one character into several letters | `generateCategorieCode("ß")`: the letters are "SS" and the bound is 1, so the prefix is "SXXX" | keep up to four of the filtered letters ("SSXX") | not executed | Codes.TelQuEcritTronquePourEszett | Codes.GenerateCategorieCodeForme |
| src/main/java/com/hexalib/api/vente/service/VenteService.java:338-342 | the invoice counter is `countByDate` + 1, and `countByDate` (VenteRepository.java:33-35) counts only VALIDEE sales | same day: sale A gets FAC-d-001 and is cancelled; sale B gets FAC-d-002. The next sale counts one VALIDEE sale and gets FAC-d-002 again, which breaks the unique `numero_facture` column (Vente.java:33) | count every sale of the day, so the new number is never held by an existing sale | not executed | Facturation.TelQuEcritReutiliseUnNumero | Facturation.VendrePreserve |
