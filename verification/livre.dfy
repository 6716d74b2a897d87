/** The Livre entity: catalogue record of a book with its stock level,
    and the derived stock classification and margin. */
module Livres {
  import opened Common

  datatype Livre = Livre(
    id: Id,
    code: string,
    titre: string,
    description: Option<string>,
    auteur: string,
    maisonEdition: string,
    dateParution: Option<Date>,
    isbn: Option<string>,
    langue: string,
    quantiteStock: int,
    seuilMinimal: int,
    prixVente: real,
    prixAchat: Option<real>,
    emplacement: Option<string>,
    categorieId: Id,
    statut: Statut)

  /** Default stock threshold of a freshly constructed entity. */
  const SeuilMinimalParDefaut: int := 5

  datatype StatutStock = DISPONIBLE | STOCK_CRITIQUE | RUPTURE

  /** `isStockCritique`: at or below the minimum threshold. */
  predicate IsStockCritique(l: Livre)
  {
    l.quantiteStock <= l.seuilMinimal
  }

  /** `isEnRupture`: no copy left. */
  predicate IsEnRupture(l: Livre)
  {
    l.quantiteStock == 0
  }

  /** `getStatutStock`: RUPTURE is tested first, then the threshold. */
  function GetStatutStock(l: Livre): (s: StatutStock)
    ensures s == RUPTURE <==> l.quantiteStock == 0
    ensures s == STOCK_CRITIQUE <==> l.quantiteStock != 0 && l.quantiteStock <= l.seuilMinimal
    ensures s == DISPONIBLE <==> l.quantiteStock != 0 && l.quantiteStock > l.seuilMinimal
  {
    if l.quantiteStock == 0 then RUPTURE
    else if l.quantiteStock <= l.seuilMinimal then STOCK_CRITIQUE
    else DISPONIBLE
  }

  /** The status agrees with the two boolean queries: rupture is exactly the
      RUPTURE status, and every non-DISPONIBLE book with a non-negative
      threshold is critical. */
  lemma StatutStockMatchesQueries(l: Livre)
    ensures IsEnRupture(l) <==> GetStatutStock(l) == RUPTURE
    ensures GetStatutStock(l) == STOCK_CRITIQUE ==> IsStockCritique(l)
    ensures GetStatutStock(l) == DISPONIBLE <==> !IsStockCritique(l) && !IsEnRupture(l)
    ensures l.seuilMinimal >= 0 ==> (IsStockCritique(l) <==> GetStatutStock(l) != DISPONIBLE)
  {
  }

  /** `getMarge`: sale price minus purchase price, null without a purchase price.
      (prixVente is a non-null column, so only prixAchat can be missing.) */
  function GetMarge(l: Livre): (m: Option<real>)
    ensures m.Some? <==> l.prixAchat.Some?
    ensures m.Some? ==> m.value + l.prixAchat.value == l.prixVente
  {
    match l.prixAchat
    case Some(a) => Some(l.prixVente - a)
    case None => None
  }

  /** A book whose stock is set to `q`, everything else kept. */
  function WithStock(l: Livre, q: int): (r: Livre)
    ensures r.quantiteStock == q
    ensures r.(quantiteStock := l.quantiteStock) == l
  {
    l.(quantiteStock := q)
  }

  /** The catalogue of books, keyed by id. */
  type Livres = map<Id, Livre>

  /** Every book's stock is non-negative. */
  ghost predicate StockNonNegatif(livres: Livres)
  {
    forall id :: id in livres ==> livres[id].quantiteStock >= 0
  }

  /** Every book's stock fits the `int` column, as a Java `Integer` does. */
  ghost predicate StockBorne(livres: Livres)
  {
    forall id :: id in livres ==> EstInt(livres[id].quantiteStock)
  }

  /** Two catalogues agree on everything except possibly the stock levels. */
  ghost predicate SameExceptStock(a: Livres, b: Livres)
  {
    a.Keys == b.Keys
    && forall id :: id in a ==> b[id] == a[id].(quantiteStock := b[id].quantiteStock)
  }
}
