/** The discount service (ReductionService): target validation, creation,
    editing, the active toggle and deletion. */
module ReductionsService {
  import opened Common
  import opened Reductions

  type ReductionsMap = map<Id, Reduction>

  /** Every discount that names a book or a category names one that exists:
      what `validateCible` guards at the moment of writing. */
  ghost predicate CiblesExistantes(rs: ReductionsMap, livres: set<Id>, categories: set<Id>)
  {
    forall a :: a in rs ==> CibleExiste(rs[a].cible, rs[a].cibleId, livres, categories)
  }

  /** Each discount is stored under its own id. */
  ghost predicate ClesCoherentes(rs: ReductionsMap)
  {
    forall a :: a in rs ==> rs[a].id == a
  }

  /** The target check on one (scope, id) pair; a missing id passes. */
  predicate CibleExiste(cible: CibleReduction, cibleId: Option<Id>, livres: set<Id>, categories: set<Id>)
  {
    match cible
    case LIVRE => cibleId.Some? ==> cibleId.value in livres
    case CATEGORIE => cibleId.Some? ==> cibleId.value in categories
    case GLOBALE => true
  }

  /** `validateCible`: a book-scoped request with an id must name an existing
      book, a category-scoped one an existing category; anything else passes. */
  function ValidateCible(q: ReductionRequest, livres: set<Id>, categories: set<Id>): (e: Option<Error>)
    ensures e.None? <==> CibleExiste(q.cible, q.cibleId, livres, categories)
    ensures e.Some? && q.cible == LIVRE ==> e.value == BadRequest(LivreCibleInexistant)
    ensures e.Some? && q.cible != LIVRE ==> q.cible == CATEGORIE && e.value == BadRequest(CategorieCibleInexistante)
  {
    if q.cible == LIVRE && q.cibleId.Some? then
      if q.cibleId.value !in livres then Some(BadRequest(LivreCibleInexistant)) else None
    else if q.cible == CATEGORIE && q.cibleId.Some? then
      if q.cibleId.value !in categories then Some(BadRequest(CategorieCibleInexistante)) else None
    else None
  }

  /** `mapTomodel`: the nine request fields copied onto an entity. The two
      dates are required because the entity columns are not nullable and the
      request declares them `@NotNull`. */
  function MapToModel(id: Id, q: ReductionRequest): (r: Reduction)
    requires q.dateDebut.Some? && q.dateFin.Some?
    ensures r.id == id && r.intitule == q.intitule && r.description == q.description
    ensures r.typeReduction == q.typeReduction && r.valeur == q.valeur
    ensures r.cible == q.cible && r.cibleId == q.cibleId
    ensures Some(r.dateDebut) == q.dateDebut && Some(r.dateFin) == q.dateFin
    ensures r.actif == q.actif
  {
    Reduction(id, q.intitule, q.description, q.typeReduction, q.valeur, q.cible, q.cibleId,
              q.dateDebut.value, q.dateFin.value, q.actif)
  }

  /** Two requests give the same entity exactly when they agree on every field. */
  lemma MapToModelInjective(id: Id, q1: ReductionRequest, q2: ReductionRequest)
    requires q1.dateDebut.Some? && q1.dateFin.Some? && q2.dateDebut.Some? && q2.dateFin.Some?
    ensures MapToModel(id, q1) == MapToModel(id, q2) <==> q1 == q2
  {
  }

  /** `create`: validate the target, then store the mapped entity. */
  function CreateReduction(rs: ReductionsMap, q: ReductionRequest, id: Id,
                           livres: set<Id>, categories: set<Id>): (r: Result<ReductionsMap>)
    requires q.dateDebut.Some? && q.dateFin.Some?
    ensures r.Failure? <==> !CibleExiste(q.cible, q.cibleId, livres, categories)
    ensures r.Failure? ==> r.error.BadRequest?
    ensures r.Success? ==>
      && id in r.value && r.value == rs[id := r.value[id]]
      && r.value[id].id == id && r.value[id].cible == q.cible && r.value[id].cibleId == q.cibleId
      && r.value[id].actif == q.actif && r.value[id].valeur == q.valeur
      && r.value[id] == MapToModel(id, q)
  {
    match ValidateCible(q, livres, categories)
    case Some(e) => Failure(e)
    case None => Success(rs[id := MapToModel(id, q)])
  }

  /** With a fresh id, creation keeps every stored target existing and every
      discount under its own id. */
  lemma CreateReductionPreserve(rs: ReductionsMap, q: ReductionRequest, id: Id,
                                livres: set<Id>, categories: set<Id>)
    requires q.dateDebut.Some? && q.dateFin.Some?
    requires CiblesExistantes(rs, livres, categories) && ClesCoherentes(rs) && id !in rs
    ensures var r := CreateReduction(rs, q, id, livres, categories);
      r.Success? ==> CiblesExistantes(r.value, livres, categories) && ClesCoherentes(r.value) && |r.value| == |rs| + 1
  {
  }

  /** `update`: a missing discount is reported before the target is checked;
      then all nine fields are overwritten and the id kept. */
  function UpdateReduction(rs: ReductionsMap, id: Id, q: ReductionRequest,
                           livres: set<Id>, categories: set<Id>): (r: Result<ReductionsMap>)
    requires q.dateDebut.Some? && q.dateFin.Some?
    ensures id !in rs ==> r == Failure(NotFound(ReductionEntity))
    ensures id in rs ==> (r.Failure? <==> !CibleExiste(q.cible, q.cibleId, livres, categories))
    ensures r.Success? ==>
      && id in rs && r.value.Keys == rs.Keys
      && r.value[id] == MapToModel(rs[id].id, q)
      && forall a :: a in rs && a != id ==> r.value[a] == rs[a]
  {
    if id !in rs then Failure(NotFound(ReductionEntity))
    else
      match ValidateCible(q, livres, categories)
      case Some(e) => Failure(e)
      case None => Success(rs[id := MapToModel(rs[id].id, q)])
  }

  /** Editing keeps every stored target existing and every discount under its own id. */
  lemma UpdateReductionPreserve(rs: ReductionsMap, id: Id, q: ReductionRequest,
                                livres: set<Id>, categories: set<Id>)
    requires q.dateDebut.Some? && q.dateFin.Some?
    requires CiblesExistantes(rs, livres, categories) && ClesCoherentes(rs)
    ensures var r := UpdateReduction(rs, id, q, livres, categories);
      r.Success? ==> CiblesExistantes(r.value, livres, categories) && ClesCoherentes(r.value)
  {
  }

  /** Submitting a discount's own fields back changes nothing. */
  lemma UpdateAvecMemesChamps(rs: ReductionsMap, id: Id, livres: set<Id>, categories: set<Id>)
    requires ClesCoherentes(rs) && CiblesExistantes(rs, livres, categories) && id in rs
    ensures var x := rs[id];
      var q := ReductionRequest(x.intitule, x.description, x.typeReduction, x.valeur, x.cible, x.cibleId,
                                Some(x.dateDebut), Some(x.dateFin), x.actif);
      UpdateReduction(rs, id, q, livres, categories) == Success(rs)
  {
    var x := rs[id];
    var q := ReductionRequest(x.intitule, x.description, x.typeReduction, x.valeur, x.cible, x.cibleId,
                              Some(x.dateDebut), Some(x.dateFin), x.actif);
    assert MapToModel(x.id, q) == x;
    assert UpdateReduction(rs, id, q, livres, categories).value == rs;
  }

  /** `toggleActif`: flips the flag and nothing else. */
  function ToggleActif(rs: ReductionsMap, id: Id): (r: Result<ReductionsMap>)
    ensures r.Success? <==> id in rs
    ensures r.Failure? ==> r.error == NotFound(ReductionEntity)
    ensures r.Success? ==>
      && r.value.Keys == rs.Keys
      && r.value[id].actif == !rs[id].actif
      && r.value[id].(actif := rs[id].actif) == rs[id]
      && forall a :: a in rs && a != id ==> r.value[a] == rs[a]
  {
    if id !in rs then Failure(NotFound(ReductionEntity))
    else Success(rs[id := rs[id].(actif := !rs[id].actif)])
  }

  /** Toggling twice gives the discounts back. */
  lemma ToggleActifDeuxFois(rs: ReductionsMap, id: Id)
    requires id in rs
    ensures ToggleActif(ToggleActif(rs, id).value, id) == Success(rs)
  {
    assert ToggleActif(ToggleActif(rs, id).value, id).value == rs;
  }

  /** A toggled discount is valid today exactly when it was not, provided
      today lies within its period. */
  lemma ToggleActifValidite(rs: ReductionsMap, id: Id, today: Date)
    requires id in rs && NotAfter(rs[id].dateDebut, today) && NotAfter(today, rs[id].dateFin)
    ensures EstValide(ToggleActif(rs, id).value[id], today) <==> !EstValide(rs[id], today)
  {
  }

  /** `delete`: nothing is checked before the delete, so a discount that a
      sale line still points at (`enUsage`, the ids the sale lines hold as
      foreign keys) is refused by the database. */
  function DeleteReduction(rs: ReductionsMap, id: Id, enUsage: set<Id>): (r: Result<ReductionsMap>)
    ensures r.Success? <==> id in rs && id !in enUsage
    ensures id !in rs ==> r == Failure(NotFound(ReductionEntity))
    ensures id in rs && id in enUsage ==> r == Failure(ContrainteReferentielle)
    ensures r.Success? ==> r.value.Keys == rs.Keys - {id} && forall a :: a in r.value ==> r.value[a] == rs[a]
  {
    if id !in rs then Failure(NotFound(ReductionEntity))
    else if id in enUsage then Failure(ContrainteReferentielle)
    else Success(rs - {id})
  }
}
