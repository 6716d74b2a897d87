/** The sale engine: LigneVente pricing, sale creation (stock pre-check,
    best discount per line, stock deduction with one SORTIE row per line,
    totals) and cancellation (stock restoration with one RETOUR row per line). */
module Ventes {
  import opened Common
  import opened Digits
  import opened Livres
  import opened Reductions
  import opened Stock
  import opened Codes
  import LivresService
  import ReductionsService

  datatype StatutVente = VALIDEE | ANNULEE

  datatype LigneVente = LigneVente(
    livreId: Id,
    titreLivre: string,
    codeLivre: string,
    prixUnitaire: real,
    quantite: int,
    reduction: Option<Reduction>,
    montantReduction: real,
    sousTotal: real)

  datatype Vente = Vente(
    id: Id,
    numeroFacture: string,
    dateVente: CalendarDate,
    vendeurId: Id,
    montantHT: real,
    montantReductions: real,
    montantTTC: real,
    statut: StatutVente,
    motifAnnulation: Option<string>,
    lignes: seq<LigneVente>)

  /** Books, ledger and the sales table. */
  datatype Magasin = Magasin(inv: Inventaire, ventes: map<Id, Vente>)

  /** One requested line; the quantity is a Java `Integer`. */
  datatype LigneVenteRequest = LigneVenteRequest(livreId: Id, quantite: Int32)

  /** What a sale line copies from its book: everything but the stock. */
  datatype Fiche = Fiche(titre: string, code: string, prixVente: real, categorieId: Id)

  function FicheDe(l: Livre): Fiche
  {
    Fiche(l.titre, l.code, l.prixVente, l.categorieId)
  }

  // ------------------------------------------------------------ LigneVente

  /** Price times quantity, before any discount. */
  function Brut(l: LigneVente): real
  {
    l.prixUnitaire * (l.quantite as real)
  }

  /** `calculerSousTotal`: only the subtotal changes; it is the gross amount
      minus the discount, with no clamp at zero. */
  function CalculerSousTotal(l: LigneVente): (r: LigneVente)
    ensures r.sousTotal + l.montantReduction == Brut(l)
    ensures r.(sousTotal := l.sousTotal) == l
  {
    l.(sousTotal := Brut(l) - l.montantReduction)
  }

  /** Idempotence, the default discount of zero, and the bound a
      non-negative discount gives. */
  lemma SousTotalProperties(l: LigneVente)
    ensures CalculerSousTotal(CalculerSousTotal(l)) == CalculerSousTotal(l)
    ensures l.montantReduction == 0.0 ==> CalculerSousTotal(l).sousTotal == Brut(l)
    ensures l.montantReduction >= 0.0 ==> CalculerSousTotal(l).sousTotal <= Brut(l)
  {
  }

  /** A fixed discount larger than the gross amount yields a negative subtotal. */
  lemma SousTotalPeutEtreNegatif()
    ensures CalculerSousTotal(LigneVente("l", "t", "c", 10.0, 1, None, 15.0, 0.0)).sousTotal < 0.0
  {
  }

  // ------------------------------------------------------ stock pre-check

  /** The shortfall line of `validateStock`, when the line's book is short. */
  predicate Court(livres: Livres, q: LigneVenteRequest)
  {
    q.livreId in livres && livres[q.livreId].quantiteStock < q.quantite
  }

  function ManqueDe(livres: Livres, q: LigneVenteRequest): Shortfall
    requires q.livreId in livres
  {
    Shortfall(q.livreId, livres[q.livreId].titre, livres[q.livreId].quantiteStock)
  }

  /** Every short line, in request order. */
  function Manques(livres: Livres, req: seq<LigneVenteRequest>): (s: seq<Shortfall>)
    ensures forall k :: 0 <= k < |req| && Court(livres, req[k]) ==> ManqueDe(livres, req[k]) in s
    ensures forall x :: x in s ==> exists k :: 0 <= k < |req| && Court(livres, req[k]) && x == ManqueDe(livres, req[k])
    ensures |s| == 0 <==> forall k :: 0 <= k < |req| ==> !Court(livres, req[k])
  {
    if |req| == 0 then []
    else
      var init := req[..|req| - 1];
      var last := req[|req| - 1];
      var rest := Manques(livres, init);
      assert forall k :: 0 <= k < |init| ==> init[k] == req[k];
      if Court(livres, last) then rest + [ManqueDe(livres, last)] else rest
  }

  /** `validateStock`: a missing book throws NotFound at once; otherwise all
      shortfalls are aggregated into one BadRequest. */
  function ValidateStock(livres: Livres, req: seq<LigneVenteRequest>): (e: Option<Error>)
    ensures (exists k :: 0 <= k < |req| && req[k].livreId !in livres) ==> e == Some(NotFound(LivreEntity))
    ensures (forall k :: 0 <= k < |req| ==> req[k].livreId in livres) ==>
      (e.None? <==> forall k :: 0 <= k < |req| ==> req[k].quantite <= livres[req[k].livreId].quantiteStock)
    ensures e.Some? && e.value.BadRequest? ==> e.value.reason == StockErrors(Manques(livres, req))
  {
    if exists k :: 0 <= k < |req| && req[k].livreId !in livres then Some(NotFound(LivreEntity))
    else
      var m := Manques(livres, req);
      if |m| > 0 then Some(BadRequest(StockErrors(m))) else None
  }

  // -------------------------------------------------------- line creation

  /** The line `createLigneVente` builds for request line `q` once the stock
      check passed: the book's title, code and sale price, the best
      applicable reduction (`findBestApplicableReductionForLivre` with the
      book and its category) and its amount on the gross price. */
  function NouvelleLigne(q: LigneVenteRequest, f: Fiche, rs: seq<Reduction>, today: Date): LigneVente
  {
    var best := FindBestApplicableReductionForLivre(rs, q.livreId, Some(f.categorieId), today);
    var montant := match best
      case Some(b) => CalculerMontantReduction(b, today, f.prixVente * (q.quantite as real))
      case None => 0.0;
    CalculerSousTotal(LigneVente(q.livreId, f.titre, f.code, f.prixVente, q.quantite, best, montant, 0.0))
  }

  /** A new line is for the requested book and quantity. */
  lemma NouvelleLigneIdentite(q: LigneVenteRequest, f: Fiche, rs: seq<Reduction>, today: Date)
    ensures NouvelleLigne(q, f, rs, today).livreId == q.livreId
    ensures NouvelleLigne(q, f, rs, today).quantite == q.quantite
  {
  }

  /** A new line copies the book's identity and sale price, and its discount
      is the best applicable reduction's amount: its percentage of the gross
      amount or its fixed value, zero when none applies. */
  lemma LigneUtiliseLaMeilleureReduction(q: LigneVenteRequest, f: Fiche, rs: seq<Reduction>, today: Date)
    ensures var l := NouvelleLigne(q, f, rs, today);
      && l.livreId == q.livreId && l.titreLivre == f.titre && l.codeLivre == f.code
      && l.prixUnitaire == f.prixVente && l.quantite == q.quantite
      && l.sousTotal == Brut(l) - l.montantReduction
      && (l.reduction.None? ==> l.montantReduction == 0.0)
      && (l.reduction.None? <==>
            forall r :: r in rs ==> !Applicable(r, q.livreId, Some(f.categorieId), today))
      && (l.reduction.Some? ==>
            (&& l.reduction.value in rs
             && Applicable(l.reduction.value, q.livreId, Some(f.categorieId), today)
             && (forall r :: r in rs && Applicable(r, q.livreId, Some(f.categorieId), today) ==>
                   Rang(l.reduction.value.cible) <= Rang(r.cible)
                   && (Rang(l.reduction.value.cible) == Rang(r.cible) ==> l.reduction.value.valeur >= r.valeur))
             && (l.reduction.value.typeReduction == POURCENTAGE ==>
                   l.montantReduction * 100.0 == Brut(l) * l.reduction.value.valeur)
             && (l.reduction.value.typeReduction != POURCENTAGE ==>
                   l.montantReduction == l.reduction.value.valeur)))
  {
    BestIsMostSpecificThenLargest(rs, q.livreId, Some(f.categorieId), today);
  }

  /** `createLigneVente`: look the book up again and re-check its current stock. */
  function CreerLigne(livres: Livres, q: LigneVenteRequest, rs: seq<Reduction>, today: Date): (r: Result<LigneVente>)
    ensures q.livreId !in livres ==> r == Failure(NotFound(LivreEntity))
    ensures q.livreId in livres ==>
      (r.Success? <==> q.quantite <= livres[q.livreId].quantiteStock)
    ensures r.Success? ==> q.livreId in livres && r.value == NouvelleLigne(q, FicheDe(livres[q.livreId]), rs, today)
  {
    if q.livreId !in livres then Failure(NotFound(LivreEntity))
    else
      var livre := livres[q.livreId];
      if livre.quantiteStock < q.quantite then
        Failure(BadRequest(StockInsuffisant(q.livreId, livre.quantiteStock, q.quantite)))
      else Success(NouvelleLigne(q, FicheDe(livre), rs, today))
  }

  // --------------------------------------------------- stock bookkeeping

  const MotifVente: string := "Vente"
  const MotifAnnulation: string := "Annulation vente"

  /** The SORTIE row `deduireStock` writes; its `-quantite` and
      `stockAvant - quantite` are unchecked `int` operations, so a negative
      quantity on a stock near Integer.MAX_VALUE comes out negative. */
  function MouvementSortie(livreId: Id, quantite: int, avant: int, numero: string, user: Id): (m: Mouvement)
    ensures m.livreId == livreId && m.typeMouvement == SORTIE && m.quantite == Wrap32(-quantite)
    ensures m.stockApres == Wrap32(m.stockAvant - quantite) && m.stockAvant == avant
    ensures EstInt(-quantite) && EstInt(avant - quantite) ==>
              m.quantite == -quantite && m.stockApres == m.stockAvant + m.quantite
    ensures m.motif == Some(MotifVente) && m.reference == Some(numero) && m.userId == Some(user)
  {
    Mouvement(livreId, SORTIE, Wrap32(-quantite), avant, Wrap32(avant - quantite), Some(MotifVente), Some(numero), Some(user))
  }

  /** The RETOUR row `restaurerStock` writes; its `stockAvant + quantite`
      is an unchecked `int` sum, so it turns negative past Integer.MAX_VALUE. */
  function MouvementRetour(livreId: Id, quantite: int, avant: int, numero: string, user: Id): (m: Mouvement)
    ensures m.livreId == livreId && m.typeMouvement == RETOUR && m.quantite == quantite
    ensures m.stockApres == Wrap32(m.stockAvant + m.quantite) && m.stockAvant == avant
    ensures EstInt(avant + quantite) ==> m.stockApres == m.stockAvant + m.quantite
    ensures m.motif == Some(MotifAnnulation) && m.reference == Some(numero) && m.userId == Some(user)
  {
    Mouvement(livreId, RETOUR, quantite, avant, Wrap32(avant + quantite), Some(MotifAnnulation), Some(numero), Some(user))
  }

  /** The total quantity the request lines ask for one book. */
  function QteDemandee(req: seq<LigneVenteRequest>, id: Id): int
  {
    if |req| == 0 then 0
    else QteDemandee(req[..|req| - 1], id) + (if req[|req| - 1].livreId == id then req[|req| - 1].quantite else 0)
  }

  /** The total quantity the sale lines hold for one book. */
  function QteLignes(ls: seq<LigneVente>, id: Id): int
  {
    if |ls| == 0 then 0
    else QteLignes(ls[..|ls| - 1], id) + (if ls[|ls| - 1].livreId == id then ls[|ls| - 1].quantite else 0)
  }

  /** The stock of a book, zero for an unknown id. */
  function StockDe(livres: Livres, id: Id): int
  {
    if id in livres then livres[id].quantiteStock else 0
  }

  /** The stock of book `id` once the request lines are deducted in order,
      each line for it lowering the running stock in `int` arithmetic. */
  function StockPris(stock: int, req: seq<LigneVenteRequest>, id: Id): (s: int)
    ensures EstInt(stock) ==> EstInt(s)
    decreases |req|
  {
    if |req| == 0 then stock
    else
      var avant := StockPris(stock, req[..|req| - 1], id);
      if req[|req| - 1].livreId == id then Wrap32(avant - req[|req| - 1].quantite) else avant
  }

  /** On an `int` stock the step-by-step deduction is the total asked,
      subtracted once and wrapped. */
  lemma {:induction false} StockPrisWrap(stock: int, req: seq<LigneVenteRequest>, id: Id)
    requires EstInt(stock)
    ensures StockPris(stock, req, id) == Wrap32(stock - QteDemandee(req, id))
    decreases |req|
  {
    if |req| > 0 {
      var init := req[..|req| - 1];
      var q := req[|req| - 1];
      StockPrisWrap(stock, init, id);
      if q.livreId == id {
        Wrap32Add(stock - QteDemandee(init, id), -(q.quantite as int));
      }
    }
  }

  /** Each line in turn can be served once the earlier lines have been
      deducted: its book exists and its quantity is within the stock the
      earlier lines left. */
  ghost predicate Servable(livres: Livres, req: seq<LigneVenteRequest>)
    decreases |req|
  {
    || |req| == 0
    || (var q := req[|req| - 1];
        && Servable(livres, req[..|req| - 1])
        && q.livreId in livres
        && q.quantite <= StockPris(livres[q.livreId].quantiteStock, req[..|req| - 1], q.livreId))
  }

  /** `apres` is `avant` with the request lines deducted from every book `id`. */
  ghost predicate Deduit(avant: Livres, apres: Livres, req: seq<LigneVenteRequest>)
  {
    && apres.Keys == avant.Keys
    && forall id :: id in avant ==>
         apres[id] == avant[id].(quantiteStock := StockPris(avant[id].quantiteStock, req, id))
  }

  /** `apres` is `avant` with every book `id` raised by the quantity the
      lines hold, in `int` arithmetic. */
  ghost predicate Restaure(avant: Livres, apres: Livres, ls: seq<LigneVente>)
  {
    && apres.Keys == avant.Keys
    && forall id :: id in avant ==>
         apres[id] == avant[id].(quantiteStock := StockRendu(avant[id].quantiteStock, ls, id))
  }

  /** Some line of `ls` is for book `id`. */
  predicate Mentionne(ls: seq<LigneVente>, id: Id)
  {
    exists k | 0 <= k < |ls| :: ls[k].livreId == id
  }

  /** The stock of book `id` once the lines are given back: untouched when
      no line is for it, otherwise raised by their quantity in `int`
      arithmetic. */
  function StockRendu(stock: int, ls: seq<LigneVente>, id: Id): int
  {
    if Mentionne(ls, id) then Wrap32(stock + QteLignes(ls, id)) else stock
  }

  /** A book no line is for has a total of zero. */
  lemma {:induction false} QteLignesAbsente(ls: seq<LigneVente>, id: Id)
    ensures !Mentionne(ls, id) ==> QteLignes(ls, id) == 0
    decreases |ls|
  {
    if |ls| > 0 && !Mentionne(ls, id) {
      var init := ls[..|ls| - 1];
      assert forall k :: 0 <= k < |init| ==> init[k] == ls[k];
      QteLignesAbsente(init, id);
    }
  }

  /** One more line for `id` raises the partly restored stock in `int`
      arithmetic; a line for another book leaves it alone. */
  lemma StockRenduStep(stock: int, ls: seq<LigneVente>, id: Id)
    requires |ls| > 0
    ensures var l := ls[|ls| - 1];
      var avant := StockRendu(stock, ls[..|ls| - 1], id);
      StockRendu(stock, ls, id) == if l.livreId == id then Wrap32(avant + l.quantite) else avant
  {
    var init := ls[..|ls| - 1];
    var l := ls[|ls| - 1];
    assert forall k :: 0 <= k < |init| ==> init[k] == ls[k];
    assert Mentionne(ls, id) <==> Mentionne(init, id) || l.livreId == id;
    if l.livreId == id {
      if Mentionne(init, id) {
        Wrap32Add(stock + QteLignes(init, id), l.quantite);
      } else {
        QteLignesAbsente(init, id);
      }
    }
  }

  /** The SORTIE rows of a sale: row k takes line k from the stock the
      earlier lines left. */
  function Sorties(livres: Livres, req: seq<LigneVenteRequest>, numero: string, vendeur: Id): (rows: seq<Mouvement>)
    ensures |rows| == |req|
    decreases |req|
  {
    if |req| == 0 then []
    else
      var init := req[..|req| - 1];
      var q := req[|req| - 1];
      Sorties(livres, init, numero, vendeur)
        + [MouvementSortie(q.livreId, q.quantite, StockPris(StockDe(livres, q.livreId), init, q.livreId), numero, vendeur)]
  }

  /** Row k is the SORTIE row `deduireStock` writes for line k, whose
      before-snapshot is the stock of line k's book once the earlier lines
      were deducted. */
  lemma {:induction false} SortiesForme(livres: Livres, req: seq<LigneVenteRequest>, numero: string, vendeur: Id)
    ensures var rows := Sorties(livres, req, numero, vendeur);
      forall k :: 0 <= k < |req| ==>
        rows[k] == MouvementSortie(req[k].livreId, req[k].quantite,
                                   StockPris(StockDe(livres, req[k].livreId), req[..k], req[k].livreId), numero, vendeur)
    decreases |req|
  {
    if |req| > 0 {
      var init := req[..|req| - 1];
      SortiesForme(livres, init, numero, vendeur);
      var avant := Sorties(livres, init, numero, vendeur);
      var rows := Sorties(livres, req, numero, vendeur);
      forall k | 0 <= k < |req|
        ensures rows[k] == MouvementSortie(req[k].livreId, req[k].quantite,
                                           StockPris(StockDe(livres, req[k].livreId), req[..k], req[k].livreId), numero, vendeur)
      {
        if k < |init| {
          assert rows[k] == avant[k];
          assert init[k] == req[k] && init[..k] == req[..k];
        } else {
          assert req[..k] == init;
        }
      }
    }
  }

  /** For a servable request with non-negative quantities on an `int`
      catalogue, every SORTIE row is exact: after = before + (−q). */
  lemma {:induction false} SortiesCoherentes(livres: Livres, req: seq<LigneVenteRequest>, numero: string, vendeur: Id)
    requires StockBorne(livres)
    requires forall k :: 0 <= k < |req| ==> req[k].quantite >= 0
    requires Servable(livres, req)
    ensures LedgerCoherent(Sorties(livres, req, numero, vendeur))
    decreases |req|
  {
    if |req| > 0 {
      var init := req[..|req| - 1];
      var q := req[|req| - 1];
      assert forall k :: 0 <= k < |init| ==> init[k] == req[k];
      SortiesCoherentes(livres, init, numero, vendeur);
      var avant := StockPris(StockDe(livres, q.livreId), init, q.livreId);
      var m := MouvementSortie(q.livreId, q.quantite, avant, numero, vendeur);
      assert 0 <= q.quantite <= avant <= IntMax;
      LedgerConcat(Sorties(livres, init, numero, vendeur), [m]);
    }
  }

  /** The RETOUR rows of a cancellation: row k gives line k back on top of
      the stock the earlier lines restored. */
  function Retours(livres: Livres, ls: seq<LigneVente>, numero: string, user: Id): (rows: seq<Mouvement>)
    ensures |rows| == |ls|
    decreases |ls|
  {
    if |ls| == 0 then []
    else
      var init := ls[..|ls| - 1];
      var l := ls[|ls| - 1];
      Retours(livres, init, numero, user)
        + [MouvementRetour(l.livreId, l.quantite, StockRendu(StockDe(livres, l.livreId), init, l.livreId), numero, user)]
  }

  /** Row k is the RETOUR row `restaurerStock` writes for line k, whose
      before-snapshot is the stock of line k's book once the earlier lines
      were given back. */
  lemma {:induction false} RetoursForme(livres: Livres, ls: seq<LigneVente>, numero: string, user: Id)
    ensures var rows := Retours(livres, ls, numero, user);
      forall k :: 0 <= k < |ls| ==>
        rows[k] == MouvementRetour(ls[k].livreId, ls[k].quantite,
                                   StockRendu(StockDe(livres, ls[k].livreId), ls[..k], ls[k].livreId), numero, user)
    decreases |ls|
  {
    if |ls| > 0 {
      var init := ls[..|ls| - 1];
      RetoursForme(livres, init, numero, user);
      var avant := Retours(livres, init, numero, user);
      var rows := Retours(livres, ls, numero, user);
      forall k | 0 <= k < |ls|
        ensures rows[k] == MouvementRetour(ls[k].livreId, ls[k].quantite,
                                           StockRendu(StockDe(livres, ls[k].livreId), ls[..k], ls[k].livreId), numero, user)
      {
        if k < |init| {
          assert rows[k] == avant[k];
          assert init[k] == ls[k] && init[..k] == ls[..k];
        } else {
          assert ls[..k] == init;
        }
      }
    }
  }

  /** The ledger explains the sale: per book, the SORTIE rows add up to
      minus the quantity sold, unless some line asks Integer.MIN_VALUE,
      whose `int` negation is itself. */
  lemma {:induction false} SortiesSomme(livres: Livres, req: seq<LigneVenteRequest>, numero: string, vendeur: Id, id: Id)
    ensures (forall k :: 0 <= k < |req| ==> req[k].quantite != IntMin) ==>
              SommeQuantites(Sorties(livres, req, numero, vendeur), id) == -QteDemandee(req, id)
    decreases |req|
  {
    if |req| > 0 {
      var init := req[..|req| - 1];
      var rows := Sorties(livres, req, numero, vendeur);
      assert forall k :: 0 <= k < |init| ==> init[k] == req[k];
      SortiesSomme(livres, init, numero, vendeur, id);
      assert rows[..|rows| - 1] == Sorties(livres, init, numero, vendeur);
    }
  }

  /** Per book, the RETOUR rows add up to the quantity given back. */
  lemma {:induction false} RetoursSomme(livres: Livres, ls: seq<LigneVente>, numero: string, user: Id, id: Id)
    ensures SommeQuantites(Retours(livres, ls, numero, user), id) == QteLignes(ls, id)
    decreases |ls|
  {
    if |ls| > 0 {
      var rows := Retours(livres, ls, numero, user);
      RetoursSomme(livres, ls[..|ls| - 1], numero, user, id);
      assert rows[..|rows| - 1] == Retours(livres, ls[..|ls| - 1], numero, user);
    }
  }

  /** `deduireStock` for one line: take the quantity, with no overflow
      check, and append its SORTIE row. */
  function DeduireStock(inv: Inventaire, q: LigneVenteRequest, numero: string, vendeur: Id): (r: Inventaire)
    requires q.livreId in inv.livres
    ensures r.livres.Keys == inv.livres.Keys
    ensures r.livres[q.livreId].quantiteStock == Wrap32(inv.livres[q.livreId].quantiteStock - q.quantite)
    ensures forall id :: id in inv.livres && id != q.livreId ==> r.livres[id] == inv.livres[id]
    ensures |r.ledger| == |inv.ledger| + 1 && r.ledger[..|inv.ledger|] == inv.ledger
  {
    var livre := inv.livres[q.livreId];
    var m := MouvementSortie(q.livreId, q.quantite, livre.quantiteStock, numero, vendeur);
    Inventaire(inv.livres[q.livreId := livre.(quantiteStock := Wrap32(livre.quantiteStock - q.quantite))], inv.ledger + [m])
  }

  /** The loop body of `create`, run over all lines in order: build the line
      against the current stock (which fails on a missing book or a
      shortfall), then deduct it and append its SORTIE row. */
  function TraiterLignes(inv: Inventaire, req: seq<LigneVenteRequest>, rs: seq<Reduction>, today: Date,
                         numero: string, vendeur: Id): (r: Result<(Inventaire, seq<LigneVente>)>)
    ensures r.Success? ==> r.value.0.livres.Keys == inv.livres.Keys && |r.value.1| == |req|
    ensures r.Success? ==> |r.value.0.ledger| == |inv.ledger| + |req|
    ensures r.Success? ==> forall k :: 0 <= k < |req| ==> req[k].livreId in inv.livres
    decreases |req|
  {
    if |req| == 0 then Success((inv, []))
    else
      var init := req[..|req| - 1];
      var q := req[|req| - 1];
      match TraiterLignes(inv, init, rs, today, numero, vendeur)
      case Failure(e) => Failure(e)
      case Success((inv1, ls1)) =>
        match CreerLigne(inv1.livres, q, rs, today)
        case Failure(e) => Failure(e)
        case Success(ligne) => Success((DeduireStock(inv1, q, numero, vendeur), ls1 + [ligne]))
  }

  /** One step of the loop on the stock side: the earlier lines succeeded
      and the last line's book was found and deducted. */
  lemma TraiterLignesDernier(inv: Inventaire, req: seq<LigneVenteRequest>, rs: seq<Reduction>,
                             today: Date, numero: string, vendeur: Id)
    requires |req| > 0
    requires TraiterLignes(inv, req, rs, today, numero, vendeur).Success?
    ensures var prev := TraiterLignes(inv, req[..|req| - 1], rs, today, numero, vendeur);
      var q := req[|req| - 1];
      && prev.Success?
      && q.livreId in prev.value.0.livres
      && TraiterLignes(inv, req, rs, today, numero, vendeur).value.0 == DeduireStock(prev.value.0, q, numero, vendeur)
  {
  }

  /** One step of the loop on the line side. */
  lemma TraiterLignesDerniereLigne(inv: Inventaire, req: seq<LigneVenteRequest>, rs: seq<Reduction>,
                                   today: Date, numero: string, vendeur: Id)
    requires |req| > 0
    requires TraiterLignes(inv, req, rs, today, numero, vendeur).Success?
    ensures var prev := TraiterLignes(inv, req[..|req| - 1], rs, today, numero, vendeur);
      var q := req[|req| - 1];
      && prev.Success?
      && q.livreId in prev.value.0.livres
      && TraiterLignes(inv, req, rs, today, numero, vendeur).value.1
         == prev.value.1 + [NouvelleLigne(q, FicheDe(prev.value.0.livres[q.livreId]), rs, today)]
  {
  }

  /** Processing the lines lowers every book by the quantity asked for it. */
  lemma {:induction false} TraiterLignesDeduit(inv: Inventaire, req: seq<LigneVenteRequest>, rs: seq<Reduction>,
                                               today: Date, numero: string, vendeur: Id)
    requires TraiterLignes(inv, req, rs, today, numero, vendeur).Success?
    ensures Deduit(inv.livres, TraiterLignes(inv, req, rs, today, numero, vendeur).value.0.livres, req)
    decreases |req|
  {
    if |req| > 0 {
      var init := req[..|req| - 1];
      var q := req[|req| - 1];
      TraiterLignesDernier(inv, req, rs, today, numero, vendeur);
      TraiterLignesDeduit(inv, init, rs, today, numero, vendeur);
      var inv1 := TraiterLignes(inv, init, rs, today, numero, vendeur).value.0;
      DeduitStep(inv.livres, inv1, req, numero, vendeur);
    }
  }

  /** The lines are all processed exactly when each is servable from the
      stock the earlier lines left. */
  lemma {:induction false} TraiterLignesSucces(inv: Inventaire, req: seq<LigneVenteRequest>, rs: seq<Reduction>,
                                               today: Date, numero: string, vendeur: Id)
    ensures TraiterLignes(inv, req, rs, today, numero, vendeur).Success? <==> Servable(inv.livres, req)
    decreases |req|
  {
    if |req| > 0 {
      var init := req[..|req| - 1];
      TraiterLignesSucces(inv, init, rs, today, numero, vendeur);
      var prev := TraiterLignes(inv, init, rs, today, numero, vendeur);
      if prev.Success? {
        TraiterLignesDeduit(inv, init, rs, today, numero, vendeur);
        ServableStep(inv.livres, prev.value.0.livres, req);
      }
    }
  }

  /** The last line is servable exactly when the re-check against the stock
      the earlier lines left passes. */
  lemma ServableStep(livres: Livres, livres1: Livres, req: seq<LigneVenteRequest>)
    requires |req| > 0
    requires Deduit(livres, livres1, req[..|req| - 1])
    ensures var q := req[|req| - 1];
      Servable(livres, req) <==>
        && Servable(livres, req[..|req| - 1])
        && q.livreId in livres1
        && q.quantite <= livres1[q.livreId].quantiteStock
  {
  }

  /** Processing the lines appends exactly the SORTIE rows. */
  lemma {:induction false} TraiterLignesLedger(inv: Inventaire, req: seq<LigneVenteRequest>, rs: seq<Reduction>,
                                               today: Date, numero: string, vendeur: Id)
    requires TraiterLignes(inv, req, rs, today, numero, vendeur).Success?
    ensures TraiterLignes(inv, req, rs, today, numero, vendeur).value.0.ledger
            == inv.ledger + Sorties(inv.livres, req, numero, vendeur)
    decreases |req|
  {
    if |req| == 0 {
      assert inv.ledger + [] == inv.ledger;
    } else {
      var init := req[..|req| - 1];
      var q := req[|req| - 1];
      TraiterLignesDernier(inv, req, rs, today, numero, vendeur);
      TraiterLignesLedger(inv, init, rs, today, numero, vendeur);
      TraiterLignesDeduit(inv, init, rs, today, numero, vendeur);
      var inv1 := TraiterLignes(inv, init, rs, today, numero, vendeur).value.0;
      var m := MouvementSortie(q.livreId, q.quantite, inv1.livres[q.livreId].quantiteStock, numero, vendeur);
      SortiesStep(inv.livres, inv1.livres, req, numero, vendeur);
      assert inv1.ledger + [m] == inv.ledger + Sorties(inv.livres, req, numero, vendeur);
    }
  }

  /** The lines a sale of `req` yields, each built from the original copy
      of its book. */
  function LignesAttendues(livres: Livres, req: seq<LigneVenteRequest>, rs: seq<Reduction>, today: Date): (ls: seq<LigneVente>)
    requires forall k :: 0 <= k < |req| ==> req[k].livreId in livres
    ensures |ls| == |req|
    decreases |req|
  {
    if |req| == 0 then []
    else
      var init := req[..|req| - 1];
      var q := req[|req| - 1];
      assert forall k :: 0 <= k < |init| ==> init[k] == req[k];
      LignesAttendues(livres, init, rs, today) + [NouvelleLigne(q, FicheDe(livres[q.livreId]), rs, today)]
  }

  /** Line k of the expected lines is the new line for request line k. */
  lemma {:induction false} LignesAttenduesAt(livres: Livres, req: seq<LigneVenteRequest>, rs: seq<Reduction>, today: Date)
    requires forall k :: 0 <= k < |req| ==> req[k].livreId in livres
    ensures forall k :: 0 <= k < |req| ==>
      LignesAttendues(livres, req, rs, today)[k] == NouvelleLigne(req[k], FicheDe(livres[req[k].livreId]), rs, today)
    decreases |req|
  {
    if |req| > 0 {
      var init := req[..|req| - 1];
      assert forall k :: 0 <= k < |init| ==> init[k] == req[k];
      LignesAttenduesAt(livres, init, rs, today);
    }
  }

  /** Every expected line's subtotal is its gross amount minus its discount. */
  lemma LignesAttenduesSousTotaux(livres: Livres, req: seq<LigneVenteRequest>, rs: seq<Reduction>, today: Date)
    requires forall k :: 0 <= k < |req| ==> req[k].livreId in livres
    ensures var ls := LignesAttendues(livres, req, rs, today);
      forall k :: 0 <= k < |ls| ==> ls[k].sousTotal == Brut(ls[k]) - ls[k].montantReduction
  {
    var ls := LignesAttendues(livres, req, rs, today);
    LignesAttenduesAt(livres, req, rs, today);
    forall k | 0 <= k < |ls| ensures ls[k].sousTotal == Brut(ls[k]) - ls[k].montantReduction {
      LigneUtiliseLaMeilleureReduction(req[k], FicheDe(livres[req[k].livreId]), rs, today);
    }
  }

  /** Processing the lines builds each from the original copy of its book. */
  lemma {:induction false} TraiterLignesLignes(inv: Inventaire, req: seq<LigneVenteRequest>, rs: seq<Reduction>,
                                               today: Date, numero: string, vendeur: Id)
    requires TraiterLignes(inv, req, rs, today, numero, vendeur).Success?
    ensures forall k :: 0 <= k < |req| ==> req[k].livreId in inv.livres
    ensures TraiterLignes(inv, req, rs, today, numero, vendeur).value.1 == LignesAttendues(inv.livres, req, rs, today)
    decreases |req|
  {
    if |req| > 0 {
      var init := req[..|req| - 1];
      var q := req[|req| - 1];
      TraiterLignesDerniereLigne(inv, req, rs, today, numero, vendeur);
      TraiterLignesLignes(inv, init, rs, today, numero, vendeur);
      TraiterLignesDeduit(inv, init, rs, today, numero, vendeur);
      var inv1 := TraiterLignes(inv, init, rs, today, numero, vendeur).value.0;
      assert forall k :: 0 <= k < |init| ==> init[k] == req[k];
      assert FicheDe(inv1.livres[q.livreId]) == FicheDe(inv.livres[q.livreId]);
    }
  }

  /** Deducting one more line extends the deduction to the longer request. */
  lemma DeduitStep(avant: Livres, inv1: Inventaire, req: seq<LigneVenteRequest>, numero: string, vendeur: Id)
    requires |req| > 0
    requires Deduit(avant, inv1.livres, req[..|req| - 1])
    requires req[|req| - 1].livreId in inv1.livres
    ensures Deduit(avant, DeduireStock(inv1, req[|req| - 1], numero, vendeur).livres, req)
  {
  }

  /** The row of the last line records the stock the earlier lines left. */
  lemma SortiesStep(livres: Livres, livres1: Livres, req: seq<LigneVenteRequest>, numero: string, vendeur: Id)
    requires |req| > 0
    requires Deduit(livres, livres1, req[..|req| - 1])
    requires req[|req| - 1].livreId in livres1
    ensures var q := req[|req| - 1];
      Sorties(livres, req, numero, vendeur)
        == Sorties(livres, req[..|req| - 1], numero, vendeur)
           + [MouvementSortie(q.livreId, q.quantite, livres1[q.livreId].quantiteStock, numero, vendeur)]
  {
  }

  // ------------------------------------------------------------ invoices

  /** `generateNumeroFacture`: FAC-yyyyMMdd-NNN where NNN is one more than the
      number of VALIDEE sales dated today (an input of the model). */
  function GenerateNumeroFacture(today: CalendarDate, ventesValideesDuJour: nat): (s: string)
    ensures |s| >= 16
    ensures s[..4] == "FAC-" && s[4..12] == FormatYmd(today) && s[12] == '-'
    ensures AllDigits(s[13..]) && ParseDigits(s[13..]) == ventesValideesDuJour + 1
    ensures ventesValideesDuJour + 1 < 1000 ==> |s| == 16
  {
    FormeFacture(today, ventesValideesDuJour + 1);
    AvecCompteur(BaseDatee("FAC", today), ventesValideesDuJour + 1)
  }

  // ----------------------------------------------------------------- totals

  function SommeBrut(ls: seq<LigneVente>): real
  {
    if |ls| == 0 then 0.0 else SommeBrut(ls[..|ls| - 1]) + Brut(ls[|ls| - 1])
  }

  function SommeReductions(ls: seq<LigneVente>): real
  {
    if |ls| == 0 then 0.0 else SommeReductions(ls[..|ls| - 1]) + ls[|ls| - 1].montantReduction
  }

  function SommeSousTotaux(ls: seq<LigneVente>): real
  {
    if |ls| == 0 then 0.0 else SommeSousTotaux(ls[..|ls| - 1]) + ls[|ls| - 1].sousTotal
  }

  /** When every line's subtotal is gross minus discount, the subtotals add
      up to the HT amount minus the discounts. */
  lemma {:induction false} SommeSousTotauxEstTTC(ls: seq<LigneVente>)
    requires forall k :: 0 <= k < |ls| ==> ls[k].sousTotal == Brut(ls[k]) - ls[k].montantReduction
    ensures SommeSousTotaux(ls) == SommeBrut(ls) - SommeReductions(ls)
    decreases |ls|
  {
    if |ls| > 0 {
      SommeSousTotauxEstTTC(ls[..|ls| - 1]);
    }
  }

  // ------------------------------------------------------------ create

  /** `create`: pre-validate every line, number the invoice, process the
      lines in order, total them, and store the VALIDEE sale. A failure
      returns no state, so nothing is written. */
  function CreateVente(st: Magasin, req: seq<LigneVenteRequest>, rs: seq<Reduction>, venteId: Id,
                       vendeur: Id, today: CalendarDate, ventesValideesDuJour: nat): (r: Result<Magasin>)
    ensures ValidateStock(st.inv.livres, req).Some? ==> r == Failure(ValidateStock(st.inv.livres, req).value)
    ensures r.Success? ==> venteId in r.value.ventes && r.value.inv.livres.Keys == st.inv.livres.Keys
    ensures r.Success? ==> |r.value.inv.ledger| == |st.inv.ledger| + |req|
  {
    match ValidateStock(st.inv.livres, req)
    case Some(e) => Failure(e)
    case None =>
      var numero := GenerateNumeroFacture(today, ventesValideesDuJour);
      match TraiterLignes(st.inv, req, rs, today, numero, vendeur)
      case Failure(e) => Failure(e)
      case Success((inv2, ls)) =>
        var ht := SommeBrut(ls);
        var reds := SommeReductions(ls);
        var v := Vente(venteId, numero, today, vendeur, ht, reds, ht - reds, VALIDEE, None, ls);
        Success(Magasin(inv2, st.ventes[venteId := v]))
  }

  /** A short line makes the whole sale fail with one BadRequest that lists
      every short line, unless a book is missing (NotFound). */
  lemma CreateVenteRejetteLesManques(st: Magasin, req: seq<LigneVenteRequest>, rs: seq<Reduction>, venteId: Id,
                                     vendeur: Id, today: CalendarDate, n: nat)
    requires exists k :: 0 <= k < |req| && Court(st.inv.livres, req[k])
    ensures var r := CreateVente(st, req, rs, venteId, vendeur, today, n);
      && r.Failure?
      && ((forall k :: 0 <= k < |req| ==> req[k].livreId in st.inv.livres) ==>
            r.error == BadRequest(StockErrors(Manques(st.inv.livres, req))))
      && ((exists k :: 0 <= k < |req| && req[k].livreId !in st.inv.livres) ==>
            r.error == NotFound(LivreEntity))
  {
  }

  /** A sale goes through exactly when the pre-check passes and each line is
      servable from the stock the earlier lines left. */
  lemma CreateVenteSucceedsIff(st: Magasin, req: seq<LigneVenteRequest>, rs: seq<Reduction>, venteId: Id,
                               vendeur: Id, today: CalendarDate, n: nat)
    ensures CreateVente(st, req, rs, venteId, vendeur, today, n).Success?
            <==> ValidateStock(st.inv.livres, req).None? && Servable(st.inv.livres, req)
  {
    TraiterLignesSucces(st.inv, req, rs, today, GenerateNumeroFacture(today, n), vendeur);
  }

  /** The stored sale: VALIDEE, numbered, its lines priced from the books,
      HT the sum of the gross amounts, TTC = HT minus the discounts, which is
      also the sum of the line subtotals. */
  lemma CreateVenteEnregistre(st: Magasin, req: seq<LigneVenteRequest>, rs: seq<Reduction>, venteId: Id,
                              vendeur: Id, today: CalendarDate, n: nat)
    requires CreateVente(st, req, rs, venteId, vendeur, today, n).Success?
    ensures forall k :: 0 <= k < |req| ==> req[k].livreId in st.inv.livres
    ensures var st2 := CreateVente(st, req, rs, venteId, vendeur, today, n).value;
      var v := st2.ventes[venteId];
      && st2.ventes == st.ventes[venteId := v]
      && v.id == venteId && v.statut == VALIDEE && v.numeroFacture == GenerateNumeroFacture(today, n)
      && v.vendeurId == vendeur && v.dateVente == today && v.motifAnnulation == None
      && v.lignes == LignesAttendues(st.inv.livres, req, rs, today)
      && v.montantHT == SommeBrut(v.lignes)
      && v.montantReductions == SommeReductions(v.lignes)
      && v.montantTTC == v.montantHT - v.montantReductions
      && v.montantTTC == SommeSousTotaux(v.lignes)
  {
    var numero := GenerateNumeroFacture(today, n);
    TraiterLignesLignes(st.inv, req, rs, today, numero, vendeur);
    LignesAttenduesSousTotaux(st.inv.livres, req, rs, today);
    SommeSousTotauxEstTTC(LignesAttendues(st.inv.livres, req, rs, today));
  }

  /** The stock side of a sale: every book lowered line by line by the
      quantity sold, in `int` arithmetic, and one SORTIE row per line
      appended to the ledger. */
  lemma CreateVenteStock(st: Magasin, req: seq<LigneVenteRequest>, rs: seq<Reduction>, venteId: Id,
                         vendeur: Id, today: CalendarDate, n: nat)
    requires CreateVente(st, req, rs, venteId, vendeur, today, n).Success?
    ensures var st2 := CreateVente(st, req, rs, venteId, vendeur, today, n).value;
      && Deduit(st.inv.livres, st2.inv.livres, req)
      && st2.inv.ledger == st.inv.ledger + Sorties(st.inv.livres, req, GenerateNumeroFacture(today, n), vendeur)
  {
    var numero := GenerateNumeroFacture(today, n);
    TraiterLignesDeduit(st.inv, req, rs, today, numero, vendeur);
    TraiterLignesLedger(st.inv, req, rs, today, numero, vendeur);
  }

  /** On an `int` catalogue a sale leaves each stock at the total asked
      subtracted once and wrapped, so within `int`: exact when the
      difference fits, and negative when a negative quantity pushes it past
      Integer.MAX_VALUE. */
  lemma CreateVenteStockInt(st: Magasin, req: seq<LigneVenteRequest>, rs: seq<Reduction>, venteId: Id,
                            vendeur: Id, today: CalendarDate, n: nat)
    requires StockBorne(st.inv.livres)
    requires CreateVente(st, req, rs, venteId, vendeur, today, n).Success?
    ensures var st2 := CreateVente(st, req, rs, venteId, vendeur, today, n).value;
      StockBorne(st2.inv.livres) && DeduitEnInt(st.inv.livres, st2.inv.livres, req)
  {
    CreateVenteStock(st, req, rs, venteId, vendeur, today, n);
    DeduitFerme(st.inv.livres, CreateVente(st, req, rs, venteId, vendeur, today, n).value.inv.livres, req);
  }

  /** Every book of `avant` is in `apres`, at its stock minus the total
      asked for it, subtracted once and wrapped to `int`. */
  ghost predicate DeduitEnInt(avant: Livres, apres: Livres, req: seq<LigneVenteRequest>)
  {
    forall id :: id in avant ==>
      id in apres && apres[id].quantiteStock == Wrap32(avant[id].quantiteStock - QteDemandee(req, id))
  }

  /** On an `int` catalogue a deduction leaves every stock at the wrapped
      difference, so within `int`. */
  lemma DeduitFerme(avant: Livres, apres: Livres, req: seq<LigneVenteRequest>)
    requires StockBorne(avant) && Deduit(avant, apres, req)
    ensures StockBorne(apres) && DeduitEnInt(avant, apres, req)
  {
    forall id | id in avant
      ensures apres[id].quantiteStock == Wrap32(avant[id].quantiteStock - QteDemandee(req, id))
    {
      StockPrisWrap(avant[id].quantiteStock, req, id);
    }
  }

  /** The running-total check on each line of a request with non-negative
      quantities amounts to: every book exists and the total asked for each
      book is within its stock. So repeated lines for one book whose sum
      exceeds the stock are refused even though each line alone fits. */
  lemma {:induction false} ServableIffTotalWithinStock(livres: Livres, req: seq<LigneVenteRequest>)
    requires StockBorne(livres)
    requires forall k :: 0 <= k < |req| ==> req[k].quantite >= 0
    ensures Servable(livres, req) <==>
      forall k :: 0 <= k < |req| ==>
        req[k].livreId in livres && QteDemandee(req, req[k].livreId) <= livres[req[k].livreId].quantiteStock
    decreases |req|
  {
    if |req| > 0 {
      var init := req[..|req| - 1];
      var q := req[|req| - 1];
      assert forall k :: 0 <= k < |init| ==> init[k] == req[k];
      ServableIffTotalWithinStock(livres, init);
      assert forall id :: QteDemandee(req, id) == QteDemandee(init, id) + (if q.livreId == id then q.quantite else 0);
      if Servable(livres, init) && q.livreId in livres {
        StockPrisExact(livres, init, q.livreId);
      }
      if Servable(livres, req) {
        forall k | 0 <= k < |req|
          ensures req[k].livreId in livres && QteDemandee(req, req[k].livreId) <= livres[req[k].livreId].quantiteStock
        {
          if k < |init| {
            assert init[k] == req[k];
          }
        }
      }
    }
  }

  /** A sale of non-negative quantities keeps every stock a non-negative
      `int` and the ledger coherent, and per book the appended rows add up
      to the change in stock. */
  lemma CreateVentePreservesLedger(st: Magasin, req: seq<LigneVenteRequest>, rs: seq<Reduction>, venteId: Id,
                                   vendeur: Id, today: CalendarDate, n: nat)
    requires StockBorne(st.inv.livres) && StockNonNegatif(st.inv.livres) && LedgerCoherent(st.inv.ledger)
    requires forall k :: 0 <= k < |req| ==> req[k].quantite >= 0
    ensures var r := CreateVente(st, req, rs, venteId, vendeur, today, n);
      r.Success? ==>
        && StockBorne(r.value.inv.livres)
        && StockNonNegatif(r.value.inv.livres)
        && LedgerCoherent(r.value.inv.ledger)
        && forall id :: id in st.inv.livres ==>
             r.value.inv.livres[id].quantiteStock
               == st.inv.livres[id].quantiteStock + SommeQuantites(r.value.inv.ledger[|st.inv.ledger|..], id)
  {
    var r := CreateVente(st, req, rs, venteId, vendeur, today, n);
    if r.Success? {
      CreateVenteStock(st, req, rs, venteId, vendeur, today, n);
      CreateVenteSucceedsIff(st, req, rs, venteId, vendeur, today, n);
      DeductionPreservesLedger(st.inv, r.value.inv, req, GenerateNumeroFacture(today, n), vendeur);
    }
  }

  /** Deducting a servable request of non-negative quantities with its
      SORTIE rows keeps every stock a non-negative `int` and the ledger
      coherent, and the rows explain the stock. */
  lemma DeductionPreservesLedger(inv: Inventaire, inv2: Inventaire, req: seq<LigneVenteRequest>, numero: string, vendeur: Id)
    requires StockBorne(inv.livres) && StockNonNegatif(inv.livres) && LedgerCoherent(inv.ledger)
    requires forall k :: 0 <= k < |req| ==> req[k].quantite >= 0
    requires Servable(inv.livres, req)
    requires Deduit(inv.livres, inv2.livres, req)
    requires inv2.ledger == inv.ledger + Sorties(inv.livres, req, numero, vendeur)
    ensures StockBorne(inv2.livres) && StockNonNegatif(inv2.livres)
    ensures LedgerCoherent(inv2.ledger)
    ensures forall id :: id in inv.livres ==>
      inv2.livres[id].quantiteStock == inv.livres[id].quantiteStock + SommeQuantites(inv2.ledger[|inv.ledger|..], id)
  {
    var rows := Sorties(inv.livres, req, numero, vendeur);
    ServableIffTotalWithinStock(inv.livres, req);
    assert inv2.ledger[|inv.ledger|..] == rows;
    forall id | id in inv.livres
      ensures inv2.livres[id].quantiteStock == inv.livres[id].quantiteStock + SommeQuantites(rows, id)
      ensures 0 <= inv2.livres[id].quantiteStock <= IntMax
    {
      SortiesSomme(inv.livres, req, numero, vendeur, id);
      StockPrisExact(inv.livres, req, id);
    }
    SortiesCoherentes(inv.livres, req, numero, vendeur);
    LedgerConcat(inv.ledger, rows);
  }

  /** Non-negative quantities add up to a non-negative total. */
  lemma {:induction false} QteDemandeePositive(req: seq<LigneVenteRequest>, id: Id)
    requires forall k :: 0 <= k < |req| ==> req[k].quantite >= 0
    ensures QteDemandee(req, id) >= 0
    decreases |req|
  {
    if |req| > 0 {
      var init := req[..|req| - 1];
      assert forall k :: 0 <= k < |init| ==> init[k] == req[k];
      QteDemandeePositive(init, id);
    }
  }

  /** With non-negative quantities whose total for book `id` is within its
      `int` stock (or that never name it), no deduction step wraps: the
      running stock ends at the exact difference. */
  lemma StockPrisExact(livres: Livres, req: seq<LigneVenteRequest>, id: Id)
    requires StockBorne(livres) && id in livres
    requires forall k :: 0 <= k < |req| ==> req[k].quantite >= 0
    requires forall k :: 0 <= k < |req| && req[k].livreId == id ==> QteDemandee(req, id) <= livres[id].quantiteStock
    ensures StockPris(livres[id].quantiteStock, req, id) == livres[id].quantiteStock - QteDemandee(req, id)
    ensures livres[id].quantiteStock >= 0 ==> StockPris(livres[id].quantiteStock, req, id) >= 0
  {
    var s := livres[id].quantiteStock;
    StockPrisWrap(s, req, id);
    QteDemandeePositive(req, id);
    QteDemandeeAbsente(req, id);
  }

  /** A book no line asks for has a total of zero. */
  lemma {:induction false} QteDemandeeAbsente(req: seq<LigneVenteRequest>, id: Id)
    ensures (forall k :: 0 <= k < |req| ==> req[k].livreId != id) ==> QteDemandee(req, id) == 0
    decreases |req|
  {
    if |req| > 0 {
      var init := req[..|req| - 1];
      assert forall k :: 0 <= k < |init| ==> init[k] == req[k];
      QteDemandeeAbsente(init, id);
    }
  }

  /** Appending coherent rows to a coherent ledger keeps it coherent. */
  lemma LedgerConcat(a: seq<Mouvement>, b: seq<Mouvement>)
    requires LedgerCoherent(a) && LedgerCoherent(b)
    ensures LedgerCoherent(a + b)
  {
    forall i | 0 <= i < |a + b| ensures (a + b)[i].stockApres == (a + b)[i].stockAvant + (a + b)[i].quantite {
      if i >= |a| {
        assert (a + b)[i] == b[i - |a|];
      }
    }
  }

  // ------------------------------------------------------------ cancel

  /** `restaurerStock` for one line: give the quantity back, with no
      overflow check, and append its RETOUR row. */
  function RestaurerStock(inv: Inventaire, l: LigneVente, numero: string, user: Id): (r: Inventaire)
    requires l.livreId in inv.livres
    ensures r.livres.Keys == inv.livres.Keys
    ensures r.livres[l.livreId].quantiteStock == Wrap32(inv.livres[l.livreId].quantiteStock + l.quantite)
    ensures forall id :: id in inv.livres && id != l.livreId ==> r.livres[id] == inv.livres[id]
    ensures |r.ledger| == |inv.ledger| + 1 && r.ledger[..|inv.ledger|] == inv.ledger
  {
    var livre := inv.livres[l.livreId];
    var m := MouvementRetour(l.livreId, l.quantite, livre.quantiteStock, numero, user);
    Inventaire(inv.livres[l.livreId := livre.(quantiteStock := Wrap32(livre.quantiteStock + l.quantite))], inv.ledger + [m])
  }

  /** Every line given back in order, one RETOUR row each. A line whose book
      has gone is reported as NotFound. */
  function RestaurerLignes(inv: Inventaire, ls: seq<LigneVente>, numero: string, user: Id): (r: Result<Inventaire>)
    ensures r.Success? <==> forall k :: 0 <= k < |ls| ==> ls[k].livreId in inv.livres
    ensures r.Success? ==> r.value.livres.Keys == inv.livres.Keys
    decreases |ls|
  {
    if |ls| == 0 then Success(inv)
    else
      var init := ls[..|ls| - 1];
      var l := ls[|ls| - 1];
      match RestaurerLignes(inv, init, numero, user)
      case Failure(e) =>
        assert forall k :: 0 <= k < |init| ==> init[k] == ls[k];
        Failure(e)
      case Success(inv1) =>
        if l.livreId !in inv1.livres then Failure(NotFound(LivreEntity))
        else
          assert forall k :: 0 <= k < |init| ==> init[k] == ls[k];
          Success(RestaurerStock(inv1, l, numero, user))
  }

  /** Giving the lines back raises every book by the quantity its lines
      hold and appends exactly the RETOUR rows. */
  lemma {:induction false} RestaurerLignesEffet(inv: Inventaire, ls: seq<LigneVente>, numero: string, user: Id)
    requires RestaurerLignes(inv, ls, numero, user).Success?
    ensures var inv2 := RestaurerLignes(inv, ls, numero, user).value;
      && Restaure(inv.livres, inv2.livres, ls)
      && inv2.ledger == inv.ledger + Retours(inv.livres, ls, numero, user)
    decreases |ls|
  {
    if |ls| > 0 {
      var init := ls[..|ls| - 1];
      assert forall k :: 0 <= k < |init| ==> init[k] == ls[k];
      RestaurerLignesEffet(inv, init, numero, user);
      var inv1 := RestaurerLignes(inv, init, numero, user).value;
      RestaurerLignesStep(inv, inv1, ls, numero, user);
    } else {
      assert inv.ledger + [] == inv.ledger;
    }
  }

  /** One more line given back keeps the restoration and the ledger in step. */
  lemma RestaurerLignesStep(inv: Inventaire, inv1: Inventaire, ls: seq<LigneVente>, numero: string, user: Id)
    requires |ls| > 0
    requires forall k :: 0 <= k < |ls| - 1 ==> ls[k].livreId in inv.livres
    requires Restaure(inv.livres, inv1.livres, ls[..|ls| - 1])
    requires inv1.ledger == inv.ledger + Retours(inv.livres, ls[..|ls| - 1], numero, user)
    requires ls[|ls| - 1].livreId in inv1.livres
    ensures forall k :: 0 <= k < |ls| ==> ls[k].livreId in inv.livres
    ensures var inv2 := RestaurerStock(inv1, ls[|ls| - 1], numero, user);
      && Restaure(inv.livres, inv2.livres, ls)
      && inv2.ledger == inv.ledger + Retours(inv.livres, ls, numero, user)
  {
    var l := ls[|ls| - 1];
    var livre := inv1.livres[l.livreId];
    var m := MouvementRetour(l.livreId, l.quantite, livre.quantiteStock, numero, user);
    RestaureStep(inv.livres, inv1, ls, numero, user);
    RetoursStep(inv.livres, inv1.livres, ls, numero, user);
    assert inv1.ledger + [m] == inv.ledger + Retours(inv.livres, ls, numero, user);
  }

  /** Giving back one more line extends the restoration to the longer list. */
  lemma RestaureStep(avant: Livres, inv1: Inventaire, ls: seq<LigneVente>, numero: string, user: Id)
    requires |ls| > 0
    requires Restaure(avant, inv1.livres, ls[..|ls| - 1])
    requires ls[|ls| - 1].livreId in inv1.livres
    ensures Restaure(avant, RestaurerStock(inv1, ls[|ls| - 1], numero, user).livres, ls)
  {
    var l := ls[|ls| - 1];
    var apres := RestaurerStock(inv1, l, numero, user).livres;
    forall id | id in avant
      ensures apres[id] == avant[id].(quantiteStock := StockRendu(avant[id].quantiteStock, ls, id))
    {
      StockRenduStep(avant[id].quantiteStock, ls, id);
      if id == l.livreId {
        assert apres[id].quantiteStock == Wrap32(inv1.livres[id].quantiteStock + l.quantite);
      } else {
        assert apres[id] == inv1.livres[id];
      }
    }
  }

  /** The row of the last line records the stock the earlier lines restored. */
  lemma RetoursStep(livres: Livres, livres1: Livres, ls: seq<LigneVente>, numero: string, user: Id)
    requires |ls| > 0
    requires Restaure(livres, livres1, ls[..|ls| - 1])
    requires ls[|ls| - 1].livreId in livres1
    ensures var l := ls[|ls| - 1];
      Retours(livres, ls, numero, user)
        == Retours(livres, ls[..|ls| - 1], numero, user)
           + [MouvementRetour(l.livreId, l.quantite, livres1[l.livreId].quantiteStock, numero, user)]
  {
  }

  /** `annuler`: refuse a sale that is already ANNULEE, otherwise give every
      line back and mark the sale ANNULEE with the motif. */
  function AnnulerVente(st: Magasin, venteId: Id, motif: Option<string>, user: Id): (r: Result<Magasin>)
    ensures venteId !in st.ventes ==> r == Failure(NotFound(VenteEntity))
    ensures venteId in st.ventes && st.ventes[venteId].statut == ANNULEE ==> r == Failure(BadRequest(VenteDejaAnnulee))
    ensures r.Success? ==> venteId in st.ventes && st.ventes[venteId].statut == VALIDEE
    ensures r.Success? ==>
      var v := st.ventes[venteId];
      && r.value.ventes == st.ventes[venteId := v.(statut := ANNULEE, motifAnnulation := motif)]
      && Restaure(st.inv.livres, r.value.inv.livres, v.lignes)
      && r.value.inv.ledger == st.inv.ledger + Retours(st.inv.livres, v.lignes, v.numeroFacture, user)
  {
    if venteId !in st.ventes then Failure(NotFound(VenteEntity))
    else
      var v := st.ventes[venteId];
      if v.statut == ANNULEE then Failure(BadRequest(VenteDejaAnnulee))
      else
        assert v.statut == VALIDEE;
        match RestaurerLignes(st.inv, v.lignes, v.numeroFacture, user)
        case Failure(e) => Failure(e)
        case Success(inv2) =>
          RestaurerLignesEffet(st.inv, v.lignes, v.numeroFacture, user);
          Success(Magasin(inv2, st.ventes[venteId := v.(statut := ANNULEE, motifAnnulation := motif)]))
  }

  /** Cancelling twice fails the second time and writes nothing more. */
  lemma AnnulerDeuxFoisEchoue(st: Magasin, venteId: Id, motif: Option<string>, motif2: Option<string>, user: Id)
    requires AnnulerVente(st, venteId, motif, user).Success?
    ensures AnnulerVente(AnnulerVente(st, venteId, motif, user).value, venteId, motif2, user)
            == Failure(BadRequest(VenteDejaAnnulee))
  {
  }

  /** Per book, the expected lines hold exactly the quantity the request asks. */
  lemma {:induction false} LignesAttenduesQte(livres: Livres, req: seq<LigneVenteRequest>, rs: seq<Reduction>,
                                              today: Date, id: Id)
    requires forall k :: 0 <= k < |req| ==> req[k].livreId in livres
    ensures QteLignes(LignesAttendues(livres, req, rs, today), id) == QteDemandee(req, id)
    decreases |req|
  {
    if |req| > 0 {
      var init := req[..|req| - 1];
      var q := req[|req| - 1];
      var ls := LignesAttendues(livres, req, rs, today);
      assert forall k :: 0 <= k < |init| ==> init[k] == req[k];
      LignesAttenduesQte(livres, init, rs, today, id);
      assert ls[..|ls| - 1] == LignesAttendues(livres, init, rs, today);
      assert ls[|ls| - 1] == NouvelleLigne(q, FicheDe(livres[q.livreId]), rs, today);
      NouvelleLigneIdentite(q, FicheDe(livres[q.livreId]), rs, today);
    }
  }

  /** Creating a sale and then cancelling it leaves every book exactly as it
      was, and appends one SORTIE and one RETOUR row per line. */
  lemma CreerPuisAnnulerRestaureLeStock(st: Magasin, req: seq<LigneVenteRequest>, rs: seq<Reduction>, venteId: Id,
                                        vendeur: Id, today: CalendarDate, n: nat, motif: Option<string>, admin: Id)
    requires StockBorne(st.inv.livres)
    requires CreateVente(st, req, rs, venteId, vendeur, today, n).Success?
    ensures var st2 := CreateVente(st, req, rs, venteId, vendeur, today, n).value;
      var r := AnnulerVente(st2, venteId, motif, admin);
      && r.Success?
      && r.value.inv.livres == st.inv.livres
      && |r.value.inv.ledger| == |st.inv.ledger| + 2 * |req|
      && r.value.ventes[venteId].statut == ANNULEE
  {
    var st2 := CreateVente(st, req, rs, venteId, vendeur, today, n).value;
    CreateVenteEnregistre(st, req, rs, venteId, vendeur, today, n);
    CreateVenteStock(st, req, rs, venteId, vendeur, today, n);
    var ls := st2.ventes[venteId].lignes;
    LignesAttenduesIds(st.inv.livres, req, rs, today);
    forall id | id in st.inv.livres ensures QteLignes(ls, id) == QteDemandee(req, id) {
      LignesAttenduesQte(st.inv.livres, req, rs, today, id);
    }
    AnnulerApresDeduction(st.inv.livres, st2, venteId, req, motif, admin);
  }

  /** Cancelling a VALIDEE sale whose lines hold exactly what a deduction
      took from `livres` succeeds and gives `livres` back. */
  lemma AnnulerApresDeduction(livres: Livres, st2: Magasin, venteId: Id, req: seq<LigneVenteRequest>,
                              motif: Option<string>, admin: Id)
    requires StockBorne(livres)
    requires venteId in st2.ventes && st2.ventes[venteId].statut == VALIDEE
    requires Deduit(livres, st2.inv.livres, req)
    requires var ls := st2.ventes[venteId].lignes;
      && |ls| == |req|
      && (forall k :: 0 <= k < |ls| ==> ls[k].livreId == req[k].livreId)
      && (forall k :: 0 <= k < |req| ==> req[k].livreId in livres)
      && (forall id :: id in livres ==> QteLignes(ls, id) == QteDemandee(req, id))
    ensures var r := AnnulerVente(st2, venteId, motif, admin);
      && r.Success?
      && r.value.inv.livres == livres
  {
    var ls := st2.ventes[venteId].lignes;
    forall k | 0 <= k < |ls| ensures ls[k].livreId in st2.inv.livres {
      assert ls[k].livreId == req[k].livreId;
    }
    AnnulerVenteReussit(st2, venteId, motif, admin);
    var r := AnnulerVente(st2, venteId, motif, admin);
    RestaurerApresDeduire(livres, st2.inv.livres, r.value.inv.livres, req, ls);
  }

  /** A VALIDEE sale whose books all still exist can be cancelled. */
  lemma AnnulerVenteReussit(st: Magasin, venteId: Id, motif: Option<string>, admin: Id)
    requires venteId in st.ventes && st.ventes[venteId].statut == VALIDEE
    requires forall k :: 0 <= k < |st.ventes[venteId].lignes| ==> st.ventes[venteId].lignes[k].livreId in st.inv.livres
    ensures AnnulerVente(st, venteId, motif, admin).Success?
  {
    var v := st.ventes[venteId];
    assert RestaurerLignes(st.inv, v.lignes, v.numeroFacture, admin).Success?;
  }

  /** The expected lines are for the requested books. */
  lemma LignesAttenduesIds(livres: Livres, req: seq<LigneVenteRequest>, rs: seq<Reduction>, today: Date)
    requires forall k :: 0 <= k < |req| ==> req[k].livreId in livres
    ensures var ls := LignesAttendues(livres, req, rs, today);
      forall k :: 0 <= k < |ls| ==> ls[k].livreId == req[k].livreId
  {
    LignesAttenduesAt(livres, req, rs, today);
    forall k | 0 <= k < |req|
      ensures LignesAttendues(livres, req, rs, today)[k].livreId == req[k].livreId
    {
      LigneUtiliseLaMeilleureReduction(req[k], FicheDe(livres[req[k].livreId]), rs, today);
    }
  }

  /** Restoring what was deducted gives back the original catalogue. */
  lemma RestaurerApresDeduire(livres: Livres, livres2: Livres, livres3: Livres, req: seq<LigneVenteRequest>,
                              ls: seq<LigneVente>)
    requires StockBorne(livres)
    requires Deduit(livres, livres2, req)
    requires Restaure(livres2, livres3, ls)
    requires forall id :: id in livres ==> QteLignes(ls, id) == QteDemandee(req, id)
    ensures livres3 == livres
  {
    forall id | id in livres ensures livres3[id] == livres[id] {
      var s := livres[id].quantiteStock;
      StockPrisWrap(s, req, id);
      if Mentionne(ls, id) {
        Wrap32Add(s - QteDemandee(req, id), QteDemandee(req, id));
      } else {
        QteLignesAbsente(ls, id);
      }
    }
  }

  // -------------------------------------------------------- foreign keys

  /** The books the sale lines and the ledger rows point at. */
  function LivresReferences(st: Magasin): set<Id>
  {
    (set v, k | v in st.ventes && 0 <= k < |st.ventes[v].lignes| :: st.ventes[v].lignes[k].livreId)
    + (set i | 0 <= i < |st.inv.ledger| :: st.inv.ledger[i].livreId)
  }

  /** Every sale line and every ledger row names an existing book: the
      NOT NULL foreign keys of LigneVente and MouvementStock. */
  ghost predicate ReferencesValides(st: Magasin)
  {
    && (forall v, k :: v in st.ventes && 0 <= k < |st.ventes[v].lignes| ==> st.ventes[v].lignes[k].livreId in st.inv.livres)
    && (forall i :: 0 <= i < |st.inv.ledger| ==> st.inv.ledger[i].livreId in st.inv.livres)
  }

  /** Deleting a book is refused while a sale line or a ledger row points at
      it, and otherwise keeps every reference valid; `autres` are the ids
      any other referencing table holds. */
  lemma DeleteLivreGardeLesVentes(st: Magasin, id: Id, autres: set<Id>)
    requires ReferencesValides(st)
    ensures var r := LivresService.DeleteLivre(st.inv.livres, id, LivresReferences(st) + autres);
      && (id in st.inv.livres && id in LivresReferences(st) ==> r == Failure(ContrainteReferentielle))
      && (r.Success? ==> ReferencesValides(st.(inv := st.inv.(livres := r.value))))
  {
    var r := LivresService.DeleteLivre(st.inv.livres, id, LivresReferences(st) + autres);
    if r.Success? {
      forall v, k | v in st.ventes && 0 <= k < |st.ventes[v].lignes|
        ensures st.ventes[v].lignes[k].livreId in r.value
      {
        assert st.ventes[v].lignes[k].livreId in LivresReferences(st);
      }
      forall i | 0 <= i < |st.inv.ledger| ensures st.inv.ledger[i].livreId in r.value {
        assert st.inv.ledger[i].livreId in LivresReferences(st);
      }
    }
  }

  /** With valid references every VALIDEE sale can be cancelled: the
      NotFound of a vanished book never arises. */
  lemma AnnulerVenteSousReferences(st: Magasin, venteId: Id, motif: Option<string>, admin: Id)
    requires ReferencesValides(st)
    requires venteId in st.ventes && st.ventes[venteId].statut == VALIDEE
    ensures AnnulerVente(st, venteId, motif, admin).Success?
  {
    AnnulerVenteReussit(st, venteId, motif, admin);
  }

  /** Storing one sale and appending rows keeps every reference valid when
      the books keep their ids and the new lines and rows name existing books. */
  lemma ReferencesApresEcriture(st: Magasin, st2: Magasin, venteId: Id, rows: seq<Mouvement>)
    requires ReferencesValides(st)
    requires st2.inv.livres.Keys == st.inv.livres.Keys
    requires venteId in st2.ventes && st2.ventes == st.ventes[venteId := st2.ventes[venteId]]
    requires forall k :: 0 <= k < |st2.ventes[venteId].lignes| ==> st2.ventes[venteId].lignes[k].livreId in st.inv.livres
    requires st2.inv.ledger == st.inv.ledger + rows
    requires forall i :: 0 <= i < |rows| ==> rows[i].livreId in st.inv.livres
    ensures ReferencesValides(st2)
  {
    forall i | 0 <= i < |st2.inv.ledger| ensures st2.inv.ledger[i].livreId in st2.inv.livres {
      if i >= |st.inv.ledger| {
        assert st2.inv.ledger[i] == rows[i - |st.inv.ledger|];
      }
    }
  }

  /** Creating a sale keeps every reference valid: its lines and its SORTIE
      rows name books that exist. */
  lemma CreateVenteGardeLesReferences(st: Magasin, req: seq<LigneVenteRequest>, rs: seq<Reduction>, venteId: Id,
                                      vendeur: Id, today: CalendarDate, n: nat)
    requires ReferencesValides(st)
    ensures var r := CreateVente(st, req, rs, venteId, vendeur, today, n);
      r.Success? ==> ReferencesValides(r.value)
  {
    var r := CreateVente(st, req, rs, venteId, vendeur, today, n);
    if r.Success? {
      var numero := GenerateNumeroFacture(today, n);
      CreateVenteEnregistre(st, req, rs, venteId, vendeur, today, n);
      CreateVenteStock(st, req, rs, venteId, vendeur, today, n);
      LignesAttenduesIds(st.inv.livres, req, rs, today);
      SortiesForme(st.inv.livres, req, numero, vendeur);
      ReferencesApresEcriture(st, r.value, venteId, Sorties(st.inv.livres, req, numero, vendeur));
    }
  }

  /** Cancelling a sale keeps every reference valid: its RETOUR rows name
      the books of its lines. */
  lemma AnnulerVenteGardeLesReferences(st: Magasin, venteId: Id, motif: Option<string>, admin: Id)
    requires ReferencesValides(st)
    ensures var r := AnnulerVente(st, venteId, motif, admin);
      r.Success? ==> ReferencesValides(r.value)
  {
    var r := AnnulerVente(st, venteId, motif, admin);
    if r.Success? {
      var v := st.ventes[venteId];
      RetoursForme(st.inv.livres, v.lignes, v.numeroFacture, admin);
      ReferencesApresEcriture(st, r.value, venteId, Retours(st.inv.livres, v.lignes, v.numeroFacture, admin));
    }
  }

  /** The discounts the sale lines point at. */
  function ReductionsReferencees(ventes: map<Id, Vente>): set<Id>
  {
    set v, k | v in ventes && 0 <= k < |ventes[v].lignes| && ventes[v].lignes[k].reduction.Some?
      :: ventes[v].lignes[k].reduction.value.id
  }

  /** Every discount a sale line carries still exists: the foreign key of
      LigneVente.reduction. */
  ghost predicate ReductionsPresentes(ventes: map<Id, Vente>, rs: ReductionsService.ReductionsMap)
  {
    forall v, k :: v in ventes && 0 <= k < |ventes[v].lignes| && ventes[v].lignes[k].reduction.Some?
      ==> ventes[v].lignes[k].reduction.value.id in rs
  }

  /** Deleting a discount is refused while a sale line carries it, and
      otherwise keeps every carried discount present. */
  lemma DeleteReductionGardeLesVentes(ventes: map<Id, Vente>, rs: ReductionsService.ReductionsMap, id: Id)
    requires ReductionsPresentes(ventes, rs)
    ensures var r := ReductionsService.DeleteReduction(rs, id, ReductionsReferencees(ventes));
      && (id in rs && id in ReductionsReferencees(ventes) ==> r == Failure(ContrainteReferentielle))
      && (r.Success? ==> ReductionsPresentes(ventes, r.value))
  {
    var r := ReductionsService.DeleteReduction(rs, id, ReductionsReferencees(ventes));
    if r.Success? {
      forall v, k | v in ventes && 0 <= k < |ventes[v].lignes| && ventes[v].lignes[k].reduction.Some?
        ensures ventes[v].lignes[k].reduction.value.id in r.value
      {
        assert ventes[v].lignes[k].reduction.value.id in ReductionsReferencees(ventes);
      }
    }
  }
}
