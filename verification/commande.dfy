/** The purchase order entity (CommandeFournisseur) and its lines: the line
    subtotal, the order total as the sum of the subtotals, adding and
    removing a line, and the two status changes. */
module Commandes {
  import opened Common

  datatype StatutCommande = EN_ATTENTE | RECUE | ANNULEE

  /** A LigneCommandeFournisseur. Quantity and unit price are Java boxed
      values and may be null on an entity built in memory; the subtotal is
      null until computed. */
  datatype LigneCommande = LigneCommande(
    livreId: Id,
    quantite: Option<int>,
    prixAchatUnitaire: Option<real>,
    sousTotal: Option<real>)

  /** Unit price times quantity. */
  function Produit(prix: real, quantite: int): real
  {
    prix * (quantite as real)
  }

  /** `calculateSousTotal`: unit price times quantity when both are present,
      otherwise the subtotal is left as it was. */
  function CalculateSousTotal(l: LigneCommande): (r: LigneCommande)
    ensures l.quantite.Some? && l.prixAchatUnitaire.Some? ==>
      r.sousTotal == Some(Produit(l.prixAchatUnitaire.value, l.quantite.value))
    ensures l.quantite.None? || l.prixAchatUnitaire.None? ==> r == l
    ensures r.(sousTotal := l.sousTotal) == l
  {
    if l.quantite.Some? && l.prixAchatUnitaire.Some? then
      l.(sousTotal := Some(Produit(l.prixAchatUnitaire.value, l.quantite.value)))
    else l
  }

  /** Computing the subtotal twice changes nothing. */
  lemma CalculateSousTotalIdempotent(l: LigneCommande)
    ensures CalculateSousTotal(CalculateSousTotal(l)) == CalculateSousTotal(l)
  {
  }

  /** A line of at least one copy at a non-negative price costs at least
      its unit price. */
  lemma CalculateSousTotalAuMoinsPrix(l: LigneCommande)
    requires l.quantite.Some? && l.prixAchatUnitaire.Some?
    requires l.quantite.value >= 1 && l.prixAchatUnitaire.value >= 0.0
    ensures CalculateSousTotal(l).sousTotal.value >= l.prixAchatUnitaire.value
  {
    var p := l.prixAchatUnitaire.value;
    assert p * (l.quantite.value as real) >= p * 1.0;
  }

  datatype Commande = Commande(
    id: Id,
    numeroCommande: string,
    fournisseurId: Id,
    dateCommande: Date,
    dateReceptionPrevue: Option<Date>,
    dateReceptionReelle: Option<Date>,
    montantTotal: real,
    statut: StatutCommande,
    notes: Option<string>,
    createdBy: Option<Id>,
    lignes: seq<LigneCommande>)

  /** A freshly constructed order: EN_ATTENTE, total zero, no line, not received. */
  function NouvelleCommande(id: Id, numero: string, fournisseurId: Id, dateCommande: Date,
                            prevue: Option<Date>, notes: Option<string>, createdBy: Option<Id>): (c: Commande)
    ensures c.statut == EN_ATTENTE && c.montantTotal == 0.0 && c.lignes == []
    ensures c.dateReceptionReelle == None
    ensures c.id == id && c.numeroCommande == numero && c.fournisseurId == fournisseurId
    ensures c.dateCommande == dateCommande && c.dateReceptionPrevue == prevue
    ensures c.notes == notes && c.createdBy == createdBy
  {
    Commande(id, numero, fournisseurId, dateCommande, prevue, None, 0.0, EN_ATTENTE, notes, createdBy, [])
  }

  /** Every line has its subtotal: the stream reduction would throw on a null. */
  predicate Chiffrees(ls: seq<LigneCommande>)
  {
    forall k :: 0 <= k < |ls| ==> ls[k].sousTotal.Some?
  }

  /** The sum of the line subtotals, first line first. */
  function Somme(ls: seq<LigneCommande>): real
    requires Chiffrees(ls)
  {
    if |ls| == 0 then 0.0 else ls[0].sousTotal.value + Somme(ls[1..])
  }

  lemma {:induction false} SommeConcat(a: seq<LigneCommande>, b: seq<LigneCommande>)
    requires Chiffrees(a) && Chiffrees(b)
    ensures Chiffrees(a + b)
    ensures Somme(a + b) == Somme(a) + Somme(b)
    decreases |a|
  {
    if |a| > 0 {
      SommeConcat(a[1..], b);
      assert (a + b)[1..] == a[1..] + b;
    } else {
      assert a + b == b;
    }
  }

  /** `calculateMontantTotal`: the total becomes the sum of the subtotals;
      nothing else changes. */
  function CalculateMontantTotal(c: Commande): (r: Commande)
    requires Chiffrees(c.lignes)
    ensures r.montantTotal == Somme(c.lignes)
    ensures r.(montantTotal := c.montantTotal) == c
  {
    c.(montantTotal := Somme(c.lignes))
  }

  /** `addLigne`: append the line and recompute the total. */
  function AddLigne(c: Commande, l: LigneCommande): (r: Commande)
    requires Chiffrees(c.lignes) && l.sousTotal.Some?
    ensures r.lignes == c.lignes + [l] && Chiffrees(r.lignes)
    ensures r.montantTotal == Somme(c.lignes) + l.sousTotal.value
    ensures r.(lignes := c.lignes, montantTotal := c.montantTotal) == c
  {
    SommeConcat(c.lignes, [l]);
    CalculateMontantTotal(c.(lignes := c.lignes + [l]))
  }

  /** `List.remove(Object)`: drop the first line equal to `x`, if any. */
  function Retirer(ls: seq<LigneCommande>, x: LigneCommande): seq<LigneCommande>
  {
    if |ls| == 0 then []
    else if ls[0] == x then ls[1..]
    else [ls[0]] + Retirer(ls[1..], x)
  }

  /** Removal takes out exactly one copy of `x` when there is one. */
  lemma {:induction false} RetirerMultiset(ls: seq<LigneCommande>, x: LigneCommande)
    ensures multiset(Retirer(ls, x)) == multiset(ls) - multiset{x}
    ensures |Retirer(ls, x)| == if x in ls then |ls| - 1 else |ls|
    decreases |ls|
  {
    if |ls| > 0 {
      assert ls == [ls[0]] + ls[1..];
      if ls[0] != x {
        RetirerMultiset(ls[1..], x);
        assert x in ls <==> x in ls[1..];
      }
    }
  }

  /** Removal keeps every subtotal present and lowers the sum by the
      subtotal of the copy it takes out. */
  lemma {:induction false} RetirerSomme(ls: seq<LigneCommande>, x: LigneCommande)
    requires Chiffrees(ls)
    ensures Chiffrees(Retirer(ls, x))
    ensures Somme(Retirer(ls, x)) == Somme(ls) - (if x in ls then x.sousTotal.value else 0.0)
    decreases |ls|
  {
    if |ls| > 0 && ls[0] != x {
      RetirerSomme(ls[1..], x);
      var t := Retirer(ls[1..], x);
      assert ([ls[0]] + t)[1..] == t;
      assert x in ls <==> x in ls[1..] by {
        assert ls == [ls[0]] + ls[1..];
      }
    }
  }

  /** `removeLigne`: drop the first equal line and recompute the total. */
  function RemoveLigne(c: Commande, l: LigneCommande): (r: Commande)
    requires Chiffrees(c.lignes)
    ensures multiset(r.lignes) == multiset(c.lignes) - multiset{l}
    ensures |r.lignes| == if l in c.lignes then |c.lignes| - 1 else |c.lignes|
    ensures Chiffrees(r.lignes)
    ensures r.montantTotal == Somme(c.lignes) - (if l in c.lignes then l.sousTotal.value else 0.0)
    ensures r.(lignes := c.lignes, montantTotal := c.montantTotal) == c
  {
    RetirerMultiset(c.lignes, l);
    RetirerSomme(c.lignes, l);
    CalculateMontantTotal(c.(lignes := Retirer(c.lignes, l)))
  }

  /** Adding a line and removing it again gives back the lines (up to the
      position of an equal earlier copy) and the total they sum to. */
  lemma AjouterPuisRetirer(c: Commande, l: LigneCommande)
    requires Chiffrees(c.lignes) && l.sousTotal.Some?
    ensures var r := RemoveLigne(AddLigne(c, l), l);
      && multiset(r.lignes) == multiset(c.lignes)
      && r.montantTotal == Somme(c.lignes)
  {
    var a := AddLigne(c, l);
    assert l in a.lignes by {
      assert a.lignes[|c.lignes|] == l;
    }
  }

  /** `marquerCommeRecue`: RECUE with the actual reception date; nothing else. */
  function MarquerCommeRecue(c: Commande, d: Date): (r: Commande)
    ensures r.statut == RECUE && r.dateReceptionReelle == Some(d)
    ensures r.(statut := c.statut, dateReceptionReelle := c.dateReceptionReelle) == c
  {
    c.(statut := RECUE, dateReceptionReelle := Some(d))
  }

  /** `annuler`: ANNULEE; nothing else. */
  function Annuler(c: Commande): (r: Commande)
    ensures r.statut == ANNULEE
    ensures r.(statut := c.statut) == c
  {
    c.(statut := ANNULEE)
  }
}
