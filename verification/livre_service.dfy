/** The book service (LivreService): creation and editing with their
    uniqueness checks, the per-category book code, deletion, the status
    toggle and the absolute stock adjustment. */
module LivresService {
  import opened Common
  import opened Digits
  import opened Livres
  import opened Codes
  import opened Categories

  datatype LivreRequest = LivreRequest(
    titre: string,
    description: Option<string>,
    auteur: string,
    maisonEdition: string,
    dateParution: Option<Date>,
    isbn: Option<string>,
    langue: string,
    quantiteStock: Int32,
    seuilMinimal: int,
    prixVente: real,
    prixAchat: Option<real>,
    emplacement: Option<string>,
    categorieId: Id)

  // ---------------------------------------------------------- invariant

  /** No two books share a code (a `unique` column). */
  ghost predicate CodesUniques(livres: Livres)
  {
    forall a, b :: a in livres && b in livres && livres[a].code == livres[b].code ==> a == b
  }

  /** No two books share both title and author. */
  ghost predicate TitreAuteurUniques(livres: Livres)
  {
    forall a, b :: (a in livres && b in livres && livres[a].titre == livres[b].titre
                    && livres[a].auteur == livres[b].auteur) ==> a == b
  }

  /** No two books share a non-empty ISBN. */
  ghost predicate IsbnUniques(livres: Livres)
  {
    forall a, b :: a in livres && b in livres && NonEmpty(livres[a].isbn) && livres[a].isbn == livres[b].isbn ==> a == b
  }

  ghost predicate Invariant(livres: Livres)
  {
    CodesUniques(livres) && TitreAuteurUniques(livres) && IsbnUniques(livres)
  }

  // ------------------------------------------------------------ queries

  /** `existsByTitreAndAuteur` / `existsByTitreAndAuteurAndIdNot`. */
  predicate TitreAuteurPris(livres: Livres, titre: string, auteur: string, sauf: Option<Id>)
  {
    exists a :: a in livres && Some(a) != sauf && livres[a].titre == titre && livres[a].auteur == auteur
  }

  /** `existsByIsbn`. */
  predicate IsbnPris(livres: Livres, isbn: string)
  {
    exists a :: a in livres && livres[a].isbn == Some(isbn)
  }

  function CodesLivres(livres: Livres): set<string>
  {
    set a | a in livres :: livres[a].code
  }

  // ------------------------------------------------------------- code

  /** `generateUniqueLivreCode`: the first of "CAT-001" … "CAT-1000" not in
      use; after 1000 used codes the call fails. */
  function GenerateUniqueLivreCode(codeCategorie: string, pris: set<string>): (r: Result<string>)
    ensures r.Failure? ==> r.error == BadRequest(CodeLivreImpossible)
    ensures r.Success? ==> r.value !in pris
  {
    PremierLibreSpec(Candidats(codeCategorie), pris, 1, 1000);
    match PremierLibre(Candidats(codeCategorie), pris, 1, 1000)
    case None => Failure(BadRequest(CodeLivreImpossible))
    case Some(c) => Success(AvecCompteur(codeCategorie, c))
  }

  /** The code is the category code, a dash and the lowest free counter; the
      call fails exactly when counters 1 to 1000 are all taken. The counter
      1000 prints as four digits. */
  lemma GenerateUniqueLivreCodeSpec(codeCategorie: string, pris: set<string>)
    ensures var r := GenerateUniqueLivreCode(codeCategorie, pris);
      && (r.Success? ==> exists c :: 1 <= c <= 1000 && r.value == AvecCompteur(codeCategorie, c)
                                     && forall k :: 1 <= k < c ==> AvecCompteur(codeCategorie, k) in pris)
      && (r.Failure? <==> forall k :: 1 <= k <= 1000 ==> AvecCompteur(codeCategorie, k) in pris)
  {
    CandidatsAvecCompteur(codeCategorie);
    PremierLibreSpec(Candidats(codeCategorie), pris, 1, 1000);
  }

  /** When counters 1 to 999 are taken the code is "CAT-1000", longer than
      the CAT-XXX format. */
  lemma GenerateUniqueLivreCodeQuatreChiffres(codeCategorie: string, pris: set<string>)
    requires forall k :: 1 <= k <= 999 ==> AvecCompteur(codeCategorie, k) in pris
    requires AvecCompteur(codeCategorie, 1000) !in pris
    ensures GenerateUniqueLivreCode(codeCategorie, pris) == Success(AvecCompteur(codeCategorie, 1000))
    ensures |AvecCompteur(codeCategorie, 1000)| > |codeCategorie| + 4
  {
    var cand := Candidats(codeCategorie);
    PremierLibreSpec(cand, pris, 1, 1000);
    assert cand(1000) !in pris;
    var c := PremierLibre(cand, pris, 1, 1000).value;
    if c < 1000 {
      assert false;
    }
  }

  // ----------------------------------------------------------- creation

  /** The book the request describes. */
  function Depuis(id: Id, code: string, req: LivreRequest, statut: Statut): (l: Livre)
  {
    Livre(id, code, req.titre, req.description, req.auteur, req.maisonEdition, req.dateParution, req.isbn,
          req.langue, req.quantiteStock, req.seuilMinimal, req.prixVente, req.prixAchat, req.emplacement,
          req.categorieId, statut)
  }

  /** `createLivre`: the category must exist, title and author must not both
      be used, a non-empty ISBN must be free, and a code must be found; the
      new book is ACTIF with the requested stock. */
  function CreateLivre(livres: Livres, cats: Categories, req: LivreRequest, id: Id): (r: Result<Livres>)
    ensures req.categorieId !in cats ==> r == Failure(NotFound(CategorieEntity))
    ensures req.categorieId in cats && TitreAuteurPris(livres, req.titre, req.auteur, None) ==>
      r == Failure(BadRequest(TitreAuteurDejaUtilise))
    ensures req.categorieId in cats && !TitreAuteurPris(livres, req.titre, req.auteur, None)
            && NonEmpty(req.isbn) && IsbnPris(livres, req.isbn.value) ==>
      r == Failure(BadRequest(IsbnDejaUtilise))
    ensures r.Success? ==>
      && req.categorieId in cats && id in r.value && r.value == livres[id := r.value[id]]
      && r.value[id] == Depuis(id, r.value[id].code, req, ACTIF)
      && r.value[id].code !in CodesLivres(livres)
  {
    if req.categorieId !in cats then Failure(NotFound(CategorieEntity))
    else if TitreAuteurPris(livres, req.titre, req.auteur, None) then Failure(BadRequest(TitreAuteurDejaUtilise))
    else if NonEmpty(req.isbn) && IsbnPris(livres, req.isbn.value) then Failure(BadRequest(IsbnDejaUtilise))
    else
      match GenerateUniqueLivreCode(cats[req.categorieId].code, CodesLivres(livres))
      case Failure(e) => Failure(e)
      case Success(code) =>
        Success(livres[id := Depuis(id, code, req, ACTIF)])
  }

  /** With a fresh id, creation keeps codes, title/author pairs and ISBNs unique. */
  lemma CreateLivrePreserve(livres: Livres, cats: Categories, req: LivreRequest, id: Id)
    requires Invariant(livres) && id !in livres
    ensures CreateLivre(livres, cats, req, id).Success? ==> Invariant(CreateLivre(livres, cats, req, id).value)
  {
  }

  // ------------------------------------------------------------ editing

  /** `updateLivre`: the book and the category must exist; title and author
      must not both belong to another book; a non-empty ISBN that differs
      from the book's own must be free. A change of category gives a new
      code. Every field, the stock included, is overwritten. */
  function UpdateLivre(livres: Livres, cats: Categories, id: Id, req: LivreRequest): (r: Result<Livres>)
    ensures id !in livres ==> r == Failure(NotFound(LivreEntity))
    ensures id in livres && req.categorieId !in cats ==> r == Failure(NotFound(CategorieEntity))
    ensures id in livres && req.categorieId in cats && TitreAuteurPris(livres, req.titre, req.auteur, Some(id)) ==>
      r == Failure(BadRequest(TitreAuteurDejaUtilise))
    ensures id in livres && req.categorieId in cats && !TitreAuteurPris(livres, req.titre, req.auteur, Some(id))
            && NonEmpty(req.isbn) && req.isbn != livres[id].isbn && IsbnPris(livres, req.isbn.value) ==>
      r == Failure(BadRequest(IsbnDejaUtilise))
    ensures r.Success? ==>
      && id in livres && req.categorieId in cats && id in r.value && r.value == livres[id := r.value[id]]
      && r.value[id] == Depuis(id, r.value[id].code, req, livres[id].statut)
      && (livres[id].categorieId == req.categorieId ==> r.value[id].code == livres[id].code)
      && (livres[id].categorieId != req.categorieId ==> r.value[id].code !in CodesLivres(livres))
  {
    if id !in livres then Failure(NotFound(LivreEntity))
    else if req.categorieId !in cats then Failure(NotFound(CategorieEntity))
    else if TitreAuteurPris(livres, req.titre, req.auteur, Some(id)) then Failure(BadRequest(TitreAuteurDejaUtilise))
    else if NonEmpty(req.isbn) && req.isbn != livres[id].isbn && IsbnPris(livres, req.isbn.value) then
      Failure(BadRequest(IsbnDejaUtilise))
    else
      var l := livres[id];
      if l.categorieId == req.categorieId then Success(livres[id := Depuis(id, l.code, req, l.statut)])
      else
        match GenerateUniqueLivreCode(cats[req.categorieId].code, CodesLivres(livres))
        case Failure(e) => Failure(e)
        case Success(code) => Success(livres[id := Depuis(id, code, req, l.statut)])
  }

  /** Editing keeps codes, title/author pairs and ISBNs unique. */
  lemma UpdateLivrePreserve(livres: Livres, cats: Categories, id: Id, req: LivreRequest)
    requires Invariant(livres)
    ensures UpdateLivre(livres, cats, id, req).Success? ==> Invariant(UpdateLivre(livres, cats, id, req).value)
  {
    var r := UpdateLivre(livres, cats, id, req);
    if r.Success? {
      assert livres[id].code in CodesLivres(livres);
    }
  }

  // ------------------------------------------------- deletion, status, stock

  /** `deleteLivre`: nothing is checked before the delete, so a book that a
      sale line, a ledger row or an order line still points at (`enUsage`,
      the ids the other tables hold as foreign keys) is refused by the
      database. */
  function DeleteLivre(livres: Livres, id: Id, enUsage: set<Id>): (r: Result<Livres>)
    ensures r.Success? <==> id in livres && id !in enUsage
    ensures id !in livres ==> r == Failure(NotFound(LivreEntity))
    ensures id in livres && id in enUsage ==> r == Failure(ContrainteReferentielle)
    ensures r.Success? ==> r.value.Keys == livres.Keys - {id} && forall a :: a in r.value ==> r.value[a] == livres[a]
  {
    if id !in livres then Failure(NotFound(LivreEntity))
    else if id in enUsage then Failure(ContrainteReferentielle)
    else Success(livres - {id})
  }

  /** `toggleStatut`. */
  function ToggleLivre(livres: Livres, id: Id): (r: Result<Livres>)
    ensures r.Success? <==> id in livres
    ensures r.Failure? ==> r.error == NotFound(LivreEntity)
    ensures r.Success? ==>
      && r.value.Keys == livres.Keys
      && r.value[id].statut != livres[id].statut
      && r.value[id].(statut := livres[id].statut) == livres[id]
      && forall a :: a in livres && a != id ==> r.value[a] == livres[a]
  {
    if id !in livres then Failure(NotFound(LivreEntity))
    else Success(livres[id := livres[id].(statut := Toggle(livres[id].statut))])
  }

  /** Toggling twice gives the catalogue back. */
  lemma ToggleLivreDeuxFois(livres: Livres, id: Id)
    requires id in livres
    ensures ToggleLivre(ToggleLivre(livres, id).value, id) == Success(livres)
  {
    ToggleInvolution(livres[id].statut);
    assert ToggleLivre(ToggleLivre(livres, id).value, id).value == livres;
  }

  /** `ajusterStock`: the stock is set to the given count, which must not be
      negative; no movement is recorded. */
  function AjusterStock(livres: Livres, id: Id, quantite: Int32): (r: Result<Livres>)
    ensures id !in livres ==> r == Failure(NotFound(LivreEntity))
    ensures id in livres && quantite < 0 ==> r == Failure(BadRequest(QuantiteNegative))
    ensures r.Success? <==> id in livres && quantite >= 0
    ensures r.Success? ==> id in r.value && r.value[id].quantiteStock == quantite && SameExceptStock(livres, r.value)
    ensures r.Success? ==> forall a :: a in livres && a != id ==> r.value[a] == livres[a]
  {
    if id !in livres then Failure(NotFound(LivreEntity))
    else if quantite < 0 then Failure(BadRequest(QuantiteNegative))
    else Success(livres[id := WithStock(livres[id], quantite)])
  }

  /** The adjustment keeps every stock a non-negative `int`, and adjusting
      to the same count twice is the same as once. */
  lemma AjusterStockProperties(livres: Livres, id: Id, quantite: Int32)
    requires AjusterStock(livres, id, quantite).Success?
    ensures StockNonNegatif(livres) ==> StockNonNegatif(AjusterStock(livres, id, quantite).value)
    ensures StockBorne(livres) ==> StockBorne(AjusterStock(livres, id, quantite).value)
    ensures AjusterStock(AjusterStock(livres, id, quantite).value, id, quantite) == AjusterStock(livres, id, quantite)
  {
    var r := AjusterStock(livres, id, quantite).value;
    assert r[id := WithStock(r[id], quantite)] == r;
  }

  // -------------------------------------------------------- foreign keys

  /** The categories the books point at. */
  function CategoriesDesLivres(livres: Livres): set<Id>
  {
    set b | b in livres :: livres[b].categorieId
  }

  /** Every book's category exists: the NOT NULL foreign key of Livre. */
  ghost predicate CategoriesPresentes(livres: Livres, cats: Categories)
  {
    forall b :: b in livres ==> livres[b].categorieId in cats
  }

  /** Deleting a category is refused while a book points at it, and
      otherwise leaves every book's category in place; `autres` are the ids
      any other referencing table holds. */
  lemma DeleteCategorieGardeLesLivres(livres: Livres, cats: Categories, id: Id, autres: set<Id>)
    requires CategoriesPresentes(livres, cats)
    ensures var r := DeleteCategorie(cats, id, CategoriesDesLivres(livres) + autres);
      && (id in cats && (exists b :: b in livres && livres[b].categorieId == id) ==> r == Failure(ContrainteReferentielle))
      && (r.Success? ==> CategoriesPresentes(livres, r.value))
  {
    var r := DeleteCategorie(cats, id, CategoriesDesLivres(livres) + autres);
    if r.Success? {
      forall b | b in livres ensures livres[b].categorieId in r.value {
        assert livres[b].categorieId in CategoriesDesLivres(livres);
      }
    }
  }

  /** Creating or editing a book only ever points it at an existing category. */
  lemma CreateUpdateGardentLesCategories(livres: Livres, cats: Categories, req: LivreRequest, id: Id, cible: Id)
    requires CategoriesPresentes(livres, cats)
    ensures CreateLivre(livres, cats, req, id).Success? ==> CategoriesPresentes(CreateLivre(livres, cats, req, id).value, cats)
    ensures UpdateLivre(livres, cats, cible, req).Success? ==> CategoriesPresentes(UpdateLivre(livres, cats, cible, req).value, cats)
  {
  }
}
