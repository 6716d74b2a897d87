/** The stock ledger: append-only movements with before/after snapshots,
    and the manual movement service with its per-type arithmetic table. */
module Stock {
  import opened Common
  import opened Livres

  datatype TypeMouvement = ENTREE | SORTIE | AJUSTEMENT | RETOUR

  datatype Mouvement = Mouvement(
    livreId: Id,
    typeMouvement: TypeMouvement,
    quantite: int,
    stockAvant: int,
    stockApres: int,
    motif: Option<string>,
    reference: Option<string>,
    userId: Option<Id>)

  /** The books together with the movement ledger: the state every
      stock-changing service call transforms. */
  datatype Inventaire = Inventaire(livres: Livres, ledger: seq<Mouvement>)

  /** Every row of the ledger records after = before + signed quantity. */
  ghost predicate LedgerCoherent(ledger: seq<Mouvement>)
  {
    forall i :: 0 <= i < |ledger| ==> ledger[i].stockApres == ledger[i].stockAvant + ledger[i].quantite
  }

  /** The sum of the signed quantities that `ledger` records for one book. */
  function SommeQuantites(ledger: seq<Mouvement>, livreId: Id): int
  {
    if |ledger| == 0 then 0
    else SommeQuantites(ledger[..|ledger| - 1], livreId)
         + (if ledger[|ledger| - 1].livreId == livreId then ledger[|ledger| - 1].quantite else 0)
  }

  lemma {:induction false} SommeQuantitesConcat(a: seq<Mouvement>, b: seq<Mouvement>, livreId: Id)
    ensures SommeQuantites(a + b, livreId) == SommeQuantites(a, livreId) + SommeQuantites(b, livreId)
    decreases |b|
  {
    if |b| == 0 {
      assert a + b == a;
    } else {
      SommeQuantitesConcat(a, b[..|b| - 1], livreId);
      assert (a + b)[..|a + b| - 1] == a + b[..|b| - 1];
      assert (a + b)[|a + b| - 1] == b[|b| - 1];
    }
  }

  /** `calculerNouveauStock`, in Java `int` arithmetic: the exact result
      when it fits, and an overflowing ENTREE, RETOUR or AJUSTEMENT on a
      non-negative stock comes out negative. */
  function CalculerNouveauStock(t: TypeMouvement, stockActuel: int, quantite: int): (s: int)
    ensures EstInt(s)
    ensures t == SORTIE && EstInt(stockActuel - quantite) ==> s == stockActuel - quantite
    ensures t != SORTIE && EstInt(stockActuel + quantite) ==> s == stockActuel + quantite
    ensures t != SORTIE && 0 <= stockActuel <= IntMax && EstInt(quantite) && stockActuel + quantite > IntMax ==> s < 0
  {
    match t
    case ENTREE => Wrap32(stockActuel + quantite)
    case RETOUR => Wrap32(stockActuel + quantite)
    case SORTIE => Wrap32(stockActuel - quantite)
    case AJUSTEMENT => Wrap32(stockActuel + quantite)
  }

  /** `getQuantiteSignee`: `-quantite` is an `int` negation, so only
      Integer.MIN_VALUE keeps its sign. */
  function GetQuantiteSignee(t: TypeMouvement, quantite: Int32): (q: Int32)
    ensures t == SORTIE && quantite != IntMin ==> q == -(quantite as int)
    ensures t == SORTIE && quantite == IntMin ==> q == IntMin
    ensures t != SORTIE ==> q == quantite
  {
    match t
    case SORTIE => Wrap32(0 - quantite as int)
    case _ => quantite
  }

  /** The two tables agree: the new stock is the old one plus the signed
      quantity, both in `int` arithmetic. */
  lemma NouveauStockEstSigne(t: TypeMouvement, stockActuel: int, quantite: Int32)
    ensures CalculerNouveauStock(t, stockActuel, quantite) == Wrap32(stockActuel + GetQuantiteSignee(t, quantite))
  {
    if t == SORTIE {
      Wrap32Add(-(quantite as int), stockActuel);
    }
  }

  datatype MouvementRequest = MouvementRequest(
    livreId: Id,
    typeMouvement: TypeMouvement,
    quantite: Int32,
    motif: Option<string>,
    reference: Option<string>)

  /** `validateMouvement`: a SORTIE may not exceed the stock, an AJUSTEMENT
      may not take it below zero. */
  function ValidateMouvement(q: MouvementRequest, livre: Livre): (e: Option<Error>)
    ensures e.None? <==>
      !(q.typeMouvement == SORTIE && q.quantite > livre.quantiteStock)
      && !(q.typeMouvement == AJUSTEMENT && Wrap32(livre.quantiteStock + q.quantite) < 0)
  {
    if q.typeMouvement == SORTIE && q.quantite > livre.quantiteStock then
      Some(BadRequest(StockInsuffisant(livre.id, livre.quantiteStock, q.quantite)))
    else if q.typeMouvement == AJUSTEMENT && Wrap32(livre.quantiteStock + q.quantite) < 0 then
      Some(BadRequest(AjustementNegatif))
    else None
  }

  /** `create`: look the book up, validate, compute the new stock, reject a
      negative result, then append one movement and store the new stock. */
  function CreateMouvement(inv: Inventaire, q: MouvementRequest, user: Option<Id>): (r: Result<Inventaire>)
    ensures q.livreId !in inv.livres ==> r == Failure(NotFound(LivreEntity))
    ensures (q.livreId in inv.livres && q.typeMouvement == SORTIE
             && q.quantite > inv.livres[q.livreId].quantiteStock) ==> r.Failure?
    ensures r.Success? ==> q.livreId in inv.livres && |r.value.ledger| == |inv.ledger| + 1
    ensures r.Success? ==>
      var avant := inv.livres[q.livreId].quantiteStock;
      var m := r.value.ledger[|inv.ledger|];
      && r.value.ledger == inv.ledger + [m]
      && m.livreId == q.livreId && m.typeMouvement == q.typeMouvement
      && m.stockAvant == avant
      && m.quantite == GetQuantiteSignee(q.typeMouvement, q.quantite)
      && m.stockApres == Wrap32(m.stockAvant + m.quantite)
      && m.stockApres >= 0
      && (0 <= avant <= IntMax ==> m.stockApres == m.stockAvant + m.quantite)
      && m.motif == q.motif && m.reference == q.reference && m.userId == user
      && r.value.livres == inv.livres[q.livreId := inv.livres[q.livreId].(quantiteStock := m.stockApres)]
  {
    if q.livreId !in inv.livres then Failure(NotFound(LivreEntity))
    else
      var livre := inv.livres[q.livreId];
      match ValidateMouvement(q, livre)
      case Some(e) => Failure(e)
      case None =>
        var avant := livre.quantiteStock;
        var apres := CalculerNouveauStock(q.typeMouvement, avant, q.quantite);
        if apres < 0 then Failure(BadRequest(StockNegatif))
        else
          var m := Mouvement(q.livreId, q.typeMouvement, GetQuantiteSignee(q.typeMouvement, q.quantite),
                             avant, apres, q.motif, q.reference, user);
          Success(Inventaire(inv.livres[q.livreId := livre.(quantiteStock := apres)], inv.ledger + [m]))
  }

  /** A movement is accepted exactly when the book exists, validation
      passes and the `int` result is non-negative. On a book whose stock is
      a non-negative `int`, that is: the exact new stock lies between 0 and
      Integer.MAX_VALUE, so an overflowing movement is refused. */
  lemma CreateMouvementSucceedsIff(inv: Inventaire, q: MouvementRequest, user: Option<Id>)
    ensures CreateMouvement(inv, q, user).Success? <==>
      && q.livreId in inv.livres
      && ValidateMouvement(q, inv.livres[q.livreId]).None?
      && CalculerNouveauStock(q.typeMouvement, inv.livres[q.livreId].quantiteStock, q.quantite) >= 0
    ensures q.livreId in inv.livres && 0 <= inv.livres[q.livreId].quantiteStock <= IntMax ==>
      var exact := inv.livres[q.livreId].quantiteStock + (if q.typeMouvement == SORTIE then -(q.quantite as int) else q.quantite as int);
      (CreateMouvement(inv, q, user).Success? <==> 0 <= exact <= IntMax)
  {
  }

  /** The manual movement keeps the ledger coherent, keeps every stock a
      non-negative `int`, and the book's stock moves by exactly what the
      appended row records. */
  lemma CreateMouvementPreservesLedger(inv: Inventaire, q: MouvementRequest, user: Option<Id>)
    requires LedgerCoherent(inv.ledger) && StockNonNegatif(inv.livres) && StockBorne(inv.livres)
    ensures var r := CreateMouvement(inv, q, user);
      r.Success? ==>
        && LedgerCoherent(r.value.ledger)
        && StockNonNegatif(r.value.livres)
        && StockBorne(r.value.livres)
        && r.value.livres.Keys == inv.livres.Keys
        && forall id :: id in inv.livres ==>
             r.value.livres[id].quantiteStock
               == inv.livres[id].quantiteStock + SommeQuantites(r.value.ledger[|inv.ledger|..], id)
  {
    var r := CreateMouvement(inv, q, user);
    if r.Success? {
      var added := r.value.ledger[|inv.ledger|..];
      assert added == [r.value.ledger[|inv.ledger|]];
      assert added[..0] == [];
      forall i | 0 <= i < |r.value.ledger|
        ensures r.value.ledger[i].stockApres == r.value.ledger[i].stockAvant + r.value.ledger[i].quantite
      {
        if i < |inv.ledger| {
          assert r.value.ledger[i] == inv.ledger[i];
        }
      }
    }
  }
}
