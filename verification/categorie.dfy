/** Book categories (Categorie and CategorieService): unique names, unique
    generated codes, creation, renaming, deletion and the status toggle. */
module Categories {
  import opened Common
  import opened Codes
  import opened Digits

  datatype Categorie = Categorie(id: Id, nom: string, description: Option<string>, code: string, statut: Statut)

  datatype CategorieRequest = CategorieRequest(nom: string, description: Option<string>)

  type Categories = map<Id, Categorie>

  /** No two categories share a name (the `unique` column the service guards). */
  ghost predicate NomsUniques(cats: Categories)
  {
    forall a, b :: a in cats && b in cats && cats[a].nom == cats[b].nom ==> a == b
  }

  /** No two categories share a code. */
  ghost predicate CodesUniques(cats: Categories)
  {
    forall a, b :: a in cats && b in cats && cats[a].code == cats[b].code ==> a == b
  }

  /** Each category is stored under its own id. */
  ghost predicate ClesCoherentes(cats: Categories)
  {
    forall a :: a in cats ==> cats[a].id == a
  }

  ghost predicate Invariant(cats: Categories)
  {
    NomsUniques(cats) && CodesUniques(cats) && ClesCoherentes(cats)
  }

  /** `existsByNom`. */
  predicate NomPris(cats: Categories, nom: string)
  {
    exists a :: a in cats && cats[a].nom == nom
  }

  /** `existsByNomAndIdNot`. */
  predicate NomPrisParAutre(cats: Categories, nom: string, id: Id)
  {
    exists a :: a in cats && a != id && cats[a].nom == nom
  }

  function CodesCategories(cats: Categories): set<string>
  {
    set a | a in cats :: cats[a].code
  }

  /** The code the `k`-th attempt builds from `prefixe` and draw `tirage(k)`
      of `Random.nextInt(1000)`. */
  function CandidatsCategorie(prefixe: string, tirage: nat -> nat): nat -> string
  {
    (k: nat) => prefixe + Pad3(tirage(k) % 1000)
  }

  /** The do/while loop of `generateUniqueCode` once the prefix is known:
      up to 100 attempts; the first code not already used is kept, and
      after 100 used codes the call fails. The 101st code is drawn but never
      tested. */
  function PremierCodeLibre(prefixe: string, pris: set<string>, tirage: nat -> nat): (r: Result<string>)
    ensures r.Failure? ==> r.error == BadRequest(CodeCategorieImpossible)
    ensures r.Success? ==> r.value !in pris
  {
    PremierLibreSpec(CandidatsCategorie(prefixe, tirage), pris, 1, 100);
    match PremierLibre(CandidatsCategorie(prefixe, tirage), pris, 1, 100)
    case None => Failure(BadRequest(CodeCategorieImpossible))
    case Some(k) => Success(CandidatsCategorie(prefixe, tirage)(k))
  }

  /** `generateUniqueCode` as written: each attempt calls the written
      generator, whose prefix does not depend on the draw, so the first
      attempt throws StringIndexOutOfBoundsException exactly when every
      attempt would, and the exception leaves the loop. */
  function GenerateUniqueCode(nom: string, pris: set<string>, tirage: nat -> nat): (r: Result<string>)
    ensures PrefixeTelQuEcrit(nom).Failure? ==> r == Failure(IndexHorsLimites)
    ensures r.Failure? ==> r.error == IndexHorsLimites || r.error == BadRequest(CodeCategorieImpossible)
    ensures r.Success? ==> r.value !in pris
  {
    match PrefixeTelQuEcrit(nom)
    case Failure(e) => Failure(e)
    case Success(p) => PremierCodeLibre(p, pris, tirage)
  }

  /** The same loop over the corrected generator: it fails only when all
      100 attempts hit used codes. */
  function GenerateUniqueCodeCorrige(nom: string, pris: set<string>, tirage: nat -> nat): (r: Result<string>)
    ensures r.Failure? ==> r.error == BadRequest(CodeCategorieImpossible)
    ensures r.Success? ==> r.value !in pris
  {
    PremierCodeLibre(PrefixeCategorie(nom), pris, tirage)
  }

  /** The written generator yields a code for draw `tirage`, and that code
      is already used. */
  predicate CodePris(nom: string, tirage: nat, pris: set<string>)
    requires tirage < 1000
  {
    match GenerateCategorieCodeTelQuEcrit(nom, tirage)
    case Success(code) => code in pris
    case Failure(_) => false
  }

  /** The code kept is the written generator's code for the name at an
      attempt where every earlier attempt hit a used code; the call throws
      the generator's exception exactly when the first attempt throws, and
      fails for lack of a free code exactly when all 100 codes are used. */
  lemma GenerateUniqueCodeSpec(nom: string, pris: set<string>, tirage: nat -> nat)
    ensures var r := GenerateUniqueCode(nom, pris, tirage);
      && (r.Success? ==> exists k :: 1 <= k <= 100 && GenerateCategorieCodeTelQuEcrit(nom, tirage(k) % 1000) == Success(r.value)
                                     && forall j :: 1 <= j < k ==> CodePris(nom, tirage(j) % 1000, pris))
      && (r == Failure(IndexHorsLimites) <==> GenerateCategorieCodeTelQuEcrit(nom, tirage(1) % 1000).Failure?)
      && (r == Failure(BadRequest(CodeCategorieImpossible)) <==> forall j :: 1 <= j <= 100 ==> CodePris(nom, tirage(j) % 1000, pris))
  {
    if PrefixeTelQuEcrit(nom).Failure? {
      assert GenerateCategorieCodeTelQuEcrit(nom, tirage(1) % 1000).Failure?;
    } else {
      GenerateUniqueCodeSpecSiPrefixe(nom, pris, tirage);
    }
  }

  lemma GenerateUniqueCodeSpecSiPrefixe(nom: string, pris: set<string>, tirage: nat -> nat)
    requires PrefixeTelQuEcrit(nom).Success?
    ensures var r := GenerateUniqueCode(nom, pris, tirage);
      && (r.Success? ==> exists k :: 1 <= k <= 100 && GenerateCategorieCodeTelQuEcrit(nom, tirage(k) % 1000) == Success(r.value)
                                     && forall j :: 1 <= j < k ==> CodePris(nom, tirage(j) % 1000, pris))
      && (r == Failure(IndexHorsLimites) <==> GenerateCategorieCodeTelQuEcrit(nom, tirage(1) % 1000).Failure?)
      && (r == Failure(BadRequest(CodeCategorieImpossible)) <==> forall j :: 1 <= j <= 100 ==> CodePris(nom, tirage(j) % 1000, pris))
  {
    var c := CandidatsCategorie(PrefixeTelQuEcrit(nom).value, tirage);
    GenerateUniqueCodeDePrefixe(nom, pris, tirage);
    PremierLibreSpec(c, pris, 1, 100);
    assert GenerateCategorieCodeTelQuEcrit(nom, tirage(1) % 1000) == Success(c(1));
    var o := PremierLibre(c, pris, 1, 100);
    if o.Some? {
      var k := o.value;
      assert GenerateUniqueCode(nom, pris, tirage) == Success(c(k));
      assert GenerateCategorieCodeTelQuEcrit(nom, tirage(k) % 1000) == Success(c(k));
    } else {
      assert GenerateUniqueCode(nom, pris, tirage) == Failure(BadRequest(CodeCategorieImpossible));
    }
  }

  lemma GenerateUniqueCodeDePrefixe(nom: string, pris: set<string>, tirage: nat -> nat)
    requires PrefixeTelQuEcrit(nom).Success?
    ensures var c := CandidatsCategorie(PrefixeTelQuEcrit(nom).value, tirage);
      && (forall k: nat :: GenerateCategorieCodeTelQuEcrit(nom, tirage(k) % 1000) == Success(c(k)))
      && (forall k: nat :: CodePris(nom, tirage(k) % 1000, pris) <==> c(k) in pris)
      && GenerateUniqueCode(nom, pris, tirage) == PremierCodeLibre(PrefixeTelQuEcrit(nom).value, pris, tirage)
  {
    var c := CandidatsCategorie(PrefixeTelQuEcrit(nom).value, tirage);
    forall k: nat ensures GenerateCategorieCodeTelQuEcrit(nom, tirage(k) % 1000) == Success(c(k)) {
      TelQuEcritDePrefixe(nom, tirage(k) % 1000);
    }
  }

  /** A returned code is what the written generator builds from some draw. */
  lemma GenerateUniqueCodeTire(nom: string, pris: set<string>, tirage: nat -> nat)
    ensures var r := GenerateUniqueCode(nom, pris, tirage);
      r.Success? ==> exists t :: 0 <= t < 1000 && GenerateCategorieCodeTelQuEcrit(nom, t) == Success(r.value)
  {
    GenerateUniqueCodeSpec(nom, pris, tirage);
  }

  lemma TelQuEcritDePrefixe(nom: string, tirage: nat)
    requires tirage < 1000 && PrefixeTelQuEcrit(nom).Success?
    ensures GenerateCategorieCodeTelQuEcrit(nom, tirage) == Success(PrefixeTelQuEcrit(nom).value + Pad3(tirage))
  {
  }

  /** The corrected loop keeps the corrected generator's first free code
      among 100 draws, and fails exactly when all 100 are used. */
  lemma GenerateUniqueCodeCorrigeSpec(nom: string, pris: set<string>, tirage: nat -> nat)
    ensures var r := GenerateUniqueCodeCorrige(nom, pris, tirage);
      && (r.Success? ==> exists k :: 1 <= k <= 100 && r.value == GenerateCategorieCode(nom, tirage(k) % 1000)
                                     && forall j :: 1 <= j < k ==> GenerateCategorieCode(nom, tirage(j) % 1000) in pris)
      && (r.Failure? <==> forall j :: 1 <= j <= 100 ==> GenerateCategorieCode(nom, tirage(j) % 1000) in pris)
  {
    var c := CandidatsCategorie(PrefixeCategorie(nom), tirage);
    assert forall k: nat :: c(k) == GenerateCategorieCode(nom, tirage(k) % 1000);
    PremierLibreSpec(c, pris, 1, 100);
  }

  /** The written loop and the corrected one agree wherever the written
      generator neither throws nor truncates the letters of a short name. */
  lemma GenerateUniqueCodeAccorde(nom: string, pris: set<string>, tirage: nat -> nat)
    requires PrefixeTelQuEcrit(nom).Success?
    requires 4 <= |nom| || |Lettres(Trim(nom))| <= |nom|
    ensures GenerateUniqueCode(nom, pris, tirage) == GenerateUniqueCodeCorrige(nom, pris, tirage)
  {
    TelQuEcritAccordeQuandDefini(nom);
  }

  /** `createCategorie`: a used name is refused; a name the written
      generator cannot take four letters from throws; the new category is
      ACTIF with a fresh code. */
  function CreateCategorie(cats: Categories, req: CategorieRequest, id: Id, tirage: nat -> nat): (r: Result<Categories>)
    ensures NomPris(cats, req.nom) ==> r == Failure(BadRequest(NomDejaUtilise))
    ensures !NomPris(cats, req.nom) && PrefixeTelQuEcrit(req.nom).Failure? ==> r == Failure(IndexHorsLimites)
    ensures r.Success? ==>
      && id in r.value
      && r.value == cats[id := r.value[id]]
      && r.value[id].id == id && r.value[id].nom == req.nom && r.value[id].description == req.description
      && r.value[id].statut == ACTIF
      && r.value[id].code !in CodesCategories(cats)
      && exists t :: 0 <= t < 1000 && GenerateCategorieCodeTelQuEcrit(req.nom, t) == Success(r.value[id].code)
  {
    if NomPris(cats, req.nom) then Failure(BadRequest(NomDejaUtilise))
    else
      GenerateUniqueCodeTire(req.nom, CodesCategories(cats), tirage);
      match GenerateUniqueCode(req.nom, CodesCategories(cats), tirage)
      case Failure(e) => Failure(e)
      case Success(code) => Success(cats[id := Categorie(id, req.nom, req.description, code, ACTIF)])
  }

  /** With a fresh id, creation keeps names and codes unique. */
  lemma CreateCategoriePreserve(cats: Categories, req: CategorieRequest, id: Id, tirage: nat -> nat)
    requires Invariant(cats) && id !in cats
    ensures CreateCategorie(cats, req, id, tirage).Success? ==> Invariant(CreateCategorie(cats, req, id, tirage).value)
  {
    var r := CreateCategorie(cats, req, id, tirage);
    if r.Success? {
      AjoutPreserve(cats, id, r.value[id]);
    }
  }

  /** Storing a category under a fresh id, with its own id, a name no
      category has and a code no category has, keeps the invariant. */
  lemma AjoutPreserve(cats: Categories, id: Id, c: Categorie)
    requires Invariant(cats) && id !in cats && c.id == id
    requires !NomPris(cats, c.nom) && c.code !in CodesCategories(cats)
    ensures Invariant(cats[id := c])
  {
    forall a | a in cats ensures cats[a].code != c.code {
      assert cats[a].code in CodesCategories(cats);
    }
  }

  /** `updateCategorie`: a name held by another category is refused; a new
      name gets a new code; the description is overwritten. */
  function UpdateCategorie(cats: Categories, id: Id, req: CategorieRequest, tirage: nat -> nat): (r: Result<Categories>)
    ensures id !in cats ==> r == Failure(NotFound(CategorieEntity))
    ensures id in cats && cats[id].nom != req.nom && NomPrisParAutre(cats, req.nom, id) ==>
      r == Failure(BadRequest(NomDejaUtilise))
    ensures (id in cats && cats[id].nom != req.nom && !NomPrisParAutre(cats, req.nom, id)
             && PrefixeTelQuEcrit(req.nom).Failure?) ==> r == Failure(IndexHorsLimites)
    ensures r.Success? ==>
      && id in cats && id in r.value
      && r.value == cats[id := r.value[id]]
      && r.value[id] == cats[id].(nom := req.nom, description := req.description, code := r.value[id].code)
      && (cats[id].nom == req.nom <==> r.value[id].code == cats[id].code)
      && (cats[id].nom != req.nom ==> r.value[id].code !in CodesCategories(cats))
    ensures r.Success? && cats[id].nom != req.nom ==>
      exists t :: 0 <= t < 1000 && GenerateCategorieCodeTelQuEcrit(req.nom, t) == Success(r.value[id].code)
  {
    if id !in cats then Failure(NotFound(CategorieEntity))
    else
      var c := cats[id];
      if c.nom != req.nom && NomPrisParAutre(cats, req.nom, id) then Failure(BadRequest(NomDejaUtilise))
      else if c.nom == req.nom then Success(cats[id := c.(description := req.description)])
      else
        GenerateUniqueCodeTire(req.nom, CodesCategories(cats), tirage);
        match GenerateUniqueCode(req.nom, CodesCategories(cats), tirage)
        case Failure(e) => Failure(e)
        case Success(code) =>
          assert c.code in CodesCategories(cats);
          Success(cats[id := c.(nom := req.nom, description := req.description, code := code)])
  }

  /** Renaming keeps names and codes unique. */
  lemma UpdateCategoriePreserve(cats: Categories, id: Id, req: CategorieRequest, tirage: nat -> nat)
    requires Invariant(cats)
    ensures UpdateCategorie(cats, id, req, tirage).Success? ==> Invariant(UpdateCategorie(cats, id, req, tirage).value)
  {
    var r := UpdateCategorie(cats, id, req, tirage);
    if r.Success? {
      RemplacementPreserve(cats, id, r.value[id]);
    }
  }

  /** Rewriting a category under its own id keeps the invariant when the
      name is its old one or held by no other category, and the code is
      its old one or held by no category. */
  lemma RemplacementPreserve(cats: Categories, id: Id, c: Categorie)
    requires Invariant(cats) && id in cats && c.id == id
    requires c.nom == cats[id].nom || !NomPrisParAutre(cats, c.nom, id)
    requires c.code == cats[id].code || c.code !in CodesCategories(cats)
    ensures Invariant(cats[id := c])
  {
    forall a | a in cats && a != id ensures cats[a].code != c.code && cats[a].nom != c.nom {
      assert cats[a].code in CodesCategories(cats);
    }
  }

  /** `deleteCategorie`: nothing is checked before the delete, so a
      category that a book still points at (`enUsage`, the ids the other
      tables hold as foreign keys) is refused by the database. */
  function DeleteCategorie(cats: Categories, id: Id, enUsage: set<Id>): (r: Result<Categories>)
    ensures r.Success? <==> id in cats && id !in enUsage
    ensures id !in cats ==> r == Failure(NotFound(CategorieEntity))
    ensures id in cats && id in enUsage ==> r == Failure(ContrainteReferentielle)
    ensures r.Success? ==> r.value.Keys == cats.Keys - {id} && forall a :: a in r.value ==> r.value[a] == cats[a]
  {
    if id !in cats then Failure(NotFound(CategorieEntity))
    else if id in enUsage then Failure(ContrainteReferentielle)
    else Success(cats - {id})
  }

  /** `toggleStatut`. */
  function ToggleCategorie(cats: Categories, id: Id): (r: Result<Categories>)
    ensures r.Success? <==> id in cats
    ensures r.Failure? ==> r.error == NotFound(CategorieEntity)
    ensures r.Success? ==>
      && r.value.Keys == cats.Keys
      && r.value[id].statut != cats[id].statut
      && r.value[id].(statut := cats[id].statut) == cats[id]
      && forall a :: a in cats && a != id ==> r.value[a] == cats[a]
  {
    if id !in cats then Failure(NotFound(CategorieEntity))
    else Success(cats[id := cats[id].(statut := Toggle(cats[id].statut))])
  }

  /** Toggling twice restores the category set. */
  lemma ToggleCategorieDeuxFois(cats: Categories, id: Id)
    requires id in cats
    ensures ToggleCategorie(ToggleCategorie(cats, id).value, id) == Success(cats)
  {
    ToggleInvolution(cats[id].statut);
    var c2 := ToggleCategorie(ToggleCategorie(cats, id).value, id).value;
    assert c2 == cats;
  }
}
