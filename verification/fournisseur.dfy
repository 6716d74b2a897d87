/** Suppliers (Fournisseur and FournisseurService): unique names, unique
    non-empty e-mail addresses, creation, editing, deletion and the status
    toggle. */
module Fournisseurs {
  import opened Common

  datatype Fournisseur = Fournisseur(
    id: Id,
    nom: string,
    contact: Option<string>,
    telephone: Option<string>,
    email: Option<string>,
    adresse: Option<string>,
    delaiLivraisonJours: Option<int>,
    statut: Statut)

  datatype FournisseurRequest = FournisseurRequest(
    nom: string,
    contact: Option<string>,
    telephone: Option<string>,
    email: Option<string>,
    adresse: Option<string>,
    delaiLivraisonJours: Option<int>)

  type Fournisseurs = map<Id, Fournisseur>

  /** No two suppliers share a name. */
  ghost predicate NomsUniques(fs: Fournisseurs)
  {
    forall a, b :: a in fs && b in fs && fs[a].nom == fs[b].nom ==> a == b
  }

  /** No two suppliers share a non-empty e-mail address; empty or missing
      addresses are not checked. */
  ghost predicate EmailsUniques(fs: Fournisseurs)
  {
    forall a, b :: a in fs && b in fs && NonEmpty(fs[a].email) && fs[a].email == fs[b].email ==> a == b
  }

  ghost predicate Invariant(fs: Fournisseurs)
  {
    NomsUniques(fs) && EmailsUniques(fs)
  }

  /** `existsByNom` / `existsByNomAndIdNot` (with `sauf` the excluded id). */
  predicate NomPris(fs: Fournisseurs, nom: string, sauf: Option<Id>)
  {
    exists a :: a in fs && Some(a) != sauf && fs[a].nom == nom
  }

  /** `existsByEmail` / `existsByEmailAndIdNot`. */
  predicate EmailPris(fs: Fournisseurs, email: string, sauf: Option<Id>)
  {
    exists a :: a in fs && Some(a) != sauf && fs[a].email == Some(email)
  }

  /** The supplier the request describes. */
  function Depuis(id: Id, req: FournisseurRequest, statut: Statut): (f: Fournisseur)
  {
    Fournisseur(id, req.nom, req.contact, req.telephone, req.email, req.adresse, req.delaiLivraisonJours, statut)
  }

  /** `createFournisseur`: the name must be free, then a non-empty e-mail
      must be free; the new supplier is ACTIF. */
  function CreateFournisseur(fs: Fournisseurs, req: FournisseurRequest, id: Id): (r: Result<Fournisseurs>)
    ensures r.Failure? <==> NomPris(fs, req.nom, None) || (NonEmpty(req.email) && EmailPris(fs, req.email.value, None))
    ensures r.Failure? && NomPris(fs, req.nom, None) ==> r.error == BadRequest(NomDejaUtilise)
    ensures r.Failure? && !NomPris(fs, req.nom, None) ==> r.error == BadRequest(EmailDejaUtilise)
    ensures r.Success? ==>
      && id in r.value && r.value == fs[id := r.value[id]]
      && r.value[id].statut == ACTIF
      && r.value[id].(statut := INACTIF) == Depuis(id, req, INACTIF)
  {
    if NomPris(fs, req.nom, None) then Failure(BadRequest(NomDejaUtilise))
    else if NonEmpty(req.email) && EmailPris(fs, req.email.value, None) then Failure(BadRequest(EmailDejaUtilise))
    else Success(fs[id := Depuis(id, req, ACTIF)])
  }

  /** With a fresh id, creation keeps names and e-mail addresses unique. */
  lemma CreateFournisseurPreserve(fs: Fournisseurs, req: FournisseurRequest, id: Id)
    requires Invariant(fs) && id !in fs
    ensures CreateFournisseur(fs, req, id).Success? ==> Invariant(CreateFournisseur(fs, req, id).value)
  {
  }

  /** `updateFournisseur`: a changed name must not belong to another
      supplier; a non-empty e-mail that differs from the current one must not
      belong to another supplier; then every field is overwritten. */
  function UpdateFournisseur(fs: Fournisseurs, id: Id, req: FournisseurRequest): (r: Result<Fournisseurs>)
    ensures id !in fs ==> r == Failure(NotFound(FournisseurEntity))
    ensures id in fs ==>
      (r.Failure? <==>
        (fs[id].nom != req.nom && NomPris(fs, req.nom, Some(id)))
        || (NonEmpty(req.email) && req.email != fs[id].email && EmailPris(fs, req.email.value, Some(id))))
    ensures r.Success? ==>
      && id in fs && r.value == fs[id := Depuis(id, req, fs[id].statut)]
  {
    if id !in fs then Failure(NotFound(FournisseurEntity))
    else
      var f := fs[id];
      if f.nom != req.nom && NomPris(fs, req.nom, Some(id)) then Failure(BadRequest(NomDejaUtilise))
      else if NonEmpty(req.email) && req.email != f.email && EmailPris(fs, req.email.value, Some(id)) then
        Failure(BadRequest(EmailDejaUtilise))
      else Success(fs[id := Depuis(id, req, f.statut)])
  }

  /** Editing keeps names and e-mail addresses unique: keeping one's own
      name or address needs no check because nobody else can hold it. */
  lemma UpdateFournisseurPreserve(fs: Fournisseurs, id: Id, req: FournisseurRequest)
    requires Invariant(fs)
    ensures UpdateFournisseur(fs, id, req).Success? ==> Invariant(UpdateFournisseur(fs, id, req).value)
  {
  }

  /** `deleteFournisseur`: nothing is checked before the delete, so a
      supplier that an order still points at (`enUsage`, the ids the order
      table holds as foreign keys) is refused by the database. */
  function DeleteFournisseur(fs: Fournisseurs, id: Id, enUsage: set<Id>): (r: Result<Fournisseurs>)
    ensures r.Success? <==> id in fs && id !in enUsage
    ensures id !in fs ==> r == Failure(NotFound(FournisseurEntity))
    ensures id in fs && id in enUsage ==> r == Failure(ContrainteReferentielle)
    ensures r.Success? ==> r.value.Keys == fs.Keys - {id} && forall a :: a in r.value ==> r.value[a] == fs[a]
  {
    if id !in fs then Failure(NotFound(FournisseurEntity))
    else if id in enUsage then Failure(ContrainteReferentielle)
    else Success(fs - {id})
  }

  /** `toggleStatut`. */
  function ToggleFournisseur(fs: Fournisseurs, id: Id): (r: Result<Fournisseurs>)
    ensures r.Success? <==> id in fs
    ensures r.Failure? ==> r.error == NotFound(FournisseurEntity)
    ensures r.Success? ==>
      && r.value.Keys == fs.Keys
      && r.value[id].statut != fs[id].statut
      && r.value[id].(statut := fs[id].statut) == fs[id]
      && forall a :: a in fs && a != id ==> r.value[a] == fs[a]
  {
    if id !in fs then Failure(NotFound(FournisseurEntity))
    else Success(fs[id := fs[id].(statut := Toggle(fs[id].statut))])
  }

  /** Toggling twice gives the suppliers back. */
  lemma ToggleFournisseurDeuxFois(fs: Fournisseurs, id: Id)
    requires id in fs
    ensures ToggleFournisseur(ToggleFournisseur(fs, id).value, id) == Success(fs)
  {
    ToggleInvolution(fs[id].statut);
    assert ToggleFournisseur(ToggleFournisseur(fs, id).value, id).value == fs;
  }
}
