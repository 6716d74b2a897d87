/** The purchase order service (CommandeFournisseurService): numbering,
    creation, editing and deletion of pending orders, reception into stock,
    and cancellation with its note. */
module CommandesService {
  import opened Common
  import opened Digits
  import opened Livres
  import opened Stock
  import opened Codes
  import opened Commandes
  import LivresService
  import Fournisseurs

  /** The service's view of the database: the books with the ledger, the
      ids of the existing suppliers, and the orders keyed by id. */
  datatype Achats = Achats(inv: Inventaire, fournisseurs: set<Id>, commandes: map<Id, Commande>)

  /** A LigneCommandeRequest; quantity and price are required by the
      request's bean validation, so they are always present. */
  datatype LigneCommandeRequest = LigneCommandeRequest(livreId: Id, quantite: int, prixAchatUnitaire: real)

  datatype CommandeRequest = CommandeRequest(
    fournisseurId: Id,
    dateCommande: Date,
    dateReceptionPrevue: Option<Date>,
    notes: Option<string>,
    lignes: seq<LigneCommandeRequest>)

  /** The bean-validation bounds of a line request: at least one copy, a
      positive price. */
  predicate LigneRequeteValide(q: LigneCommandeRequest)
  {
    q.quantite >= 1 && q.prixAchatUnitaire > 0.0
  }

  // ------------------------------------------------------------ numbering

  /** The order numbers in use. */
  function NumerosCommandes(cs: map<Id, Commande>): set<string>
  {
    set id | id in cs :: cs[id].numeroCommande
  }

  /** The candidates' base for `today`: "CMD-yyyyMMdd". */
  function BaseCommande(today: CalendarDate): string
  {
    BaseDatee("CMD", today)
  }

  /** `generateNumeroCommande`: the first of CMD-yyyyMMdd-001 … -998 not in
      use. The loop raises its counter before testing it against 999, so the
      candidate -999 is built but never checked: once -001 … -998 are all
      taken the call fails. */
  function GenerateNumeroCommande(today: CalendarDate, pris: set<string>): (r: Result<string>)
    ensures r.Failure? ==> r.error == BadRequest(LimiteCommandesAtteinte)
    ensures r.Success? ==> r.value !in pris
  {
    var base := BaseCommande(today);
    PremierLibreSpec(Candidats(base), pris, 1, 998);
    match PremierLibre(Candidats(base), pris, 1, 998)
    case None => Failure(BadRequest(LimiteCommandesAtteinte))
    case Some(c) => Success(AvecCompteur(base, c))
  }

  /** The number issued is the lowest free counter of the day. */
  lemma GenerateNumeroCommandePremier(today: CalendarDate, pris: set<string>)
    ensures var r := GenerateNumeroCommande(today, pris);
      r.Success? ==> exists c :: 1 <= c <= 998 && r.value == AvecCompteur(BaseCommande(today), c)
                                 && forall k :: 1 <= k < c ==> AvecCompteur(BaseCommande(today), k) in pris
  {
    CandidatsAvecCompteur(BaseCommande(today));
    PremierLibreSpec(Candidats(BaseCommande(today)), pris, 1, 998);
  }

  /** The call fails exactly when counters 1 to 998 are all taken, whether
      or not 999 is free. */
  lemma GenerateNumeroCommandeEchoue(today: CalendarDate, pris: set<string>)
    ensures GenerateNumeroCommande(today, pris).Failure?
            <==> forall k :: 1 <= k <= 998 ==> AvecCompteur(BaseCommande(today), k) in pris
  {
    CandidatsAvecCompteur(BaseCommande(today));
    PremierLibreSpec(Candidats(BaseCommande(today)), pris, 1, 998);
  }

  /** The counter 999 is never issued. */
  lemma GenerateNumeroCommandeJamais999(today: CalendarDate, pris: set<string>)
    ensures var r := GenerateNumeroCommande(today, pris);
      r.Success? ==> r.value != AvecCompteur(BaseCommande(today), 999)
  {
    var base := BaseCommande(today);
    var o := PremierLibre(Candidats(base), pris, 1, 998);
    if o.Some? && AvecCompteur(base, o.value) == AvecCompteur(base, 999) {
      AvecCompteurInjective(base, o.value, 999);
    }
  }

  // --------------------------------------------------------------- lines

  /** A new line from a request: quantity and price copied, subtotal computed. */
  function NouvelleLigneCommande(q: LigneCommandeRequest): (l: LigneCommande)
    ensures l.livreId == q.livreId && l.quantite == Some(q.quantite)
    ensures l.prixAchatUnitaire == Some(q.prixAchatUnitaire)
    ensures l.sousTotal == Some(Produit(q.prixAchatUnitaire, q.quantite))
  {
    CalculateSousTotal(LigneCommande(q.livreId, Some(q.quantite), Some(q.prixAchatUnitaire), None))
  }

  /** The loop over the line requests: each book is looked up, and a
      missing one aborts with NotFound. */
  function ConstruireLignes(livres: Livres, req: seq<LigneCommandeRequest>): (r: Result<seq<LigneCommande>>)
    ensures r.Success? <==> forall k :: 0 <= k < |req| ==> req[k].livreId in livres
    ensures r.Failure? ==> r.error == NotFound(LivreEntity)
    ensures r.Success? ==> |r.value| == |req|
  {
    if |req| == 0 then Success([])
    else
      match ConstruireLignes(livres, req[..|req| - 1])
      case Failure(e) => Failure(e)
      case Success(ls) =>
        var q := req[|req| - 1];
        if q.livreId !in livres then Failure(NotFound(LivreEntity))
        else Success(ls + [NouvelleLigneCommande(q)])
  }

  /** Each built line is the line of the request at the same position. */
  lemma {:induction false} ConstruireLignesAt(livres: Livres, req: seq<LigneCommandeRequest>)
    requires ConstruireLignes(livres, req).Success?
    ensures var ls := ConstruireLignes(livres, req).value;
      forall k :: 0 <= k < |req| ==> ls[k] == NouvelleLigneCommande(req[k])
  {
    if |req| > 0 {
      ConstruireLignesAt(livres, req[..|req| - 1]);
    }
  }

  /** A stored line is complete: its book exists and quantity, price and
      subtotal are all present (foreign key and NOT NULL columns). */
  predicate LigneComplete(livres: Livres, l: LigneCommande)
  {
    l.livreId in livres && l.quantite.Some? && l.prixAchatUnitaire.Some? && l.sousTotal.Some?
  }

  predicate LignesCompletes(livres: Livres, ls: seq<LigneCommande>)
  {
    forall k :: 0 <= k < |ls| ==> LigneComplete(livres, ls[k])
  }

  /** Built lines are complete, and valid requests give positive subtotals. */
  lemma ConstruireLignesCompletes(livres: Livres, req: seq<LigneCommandeRequest>)
    requires ConstruireLignes(livres, req).Success?
    ensures LignesCompletes(livres, ConstruireLignes(livres, req).value)
    ensures Chiffrees(ConstruireLignes(livres, req).value)
    ensures (forall k :: 0 <= k < |req| ==> LigneRequeteValide(req[k])) ==>
      forall k :: 0 <= k < |req| ==> ConstruireLignes(livres, req).value[k].sousTotal.value > 0.0
  {
    ConstruireLignesAt(livres, req);
    var ls := ConstruireLignes(livres, req).value;
    forall k | 0 <= k < |req| && LigneRequeteValide(req[k])
      ensures ls[k].sousTotal.value > 0.0
    {
      var p := req[k].prixAchatUnitaire;
      assert ls[k].sousTotal.value == p * (req[k].quantite as real);
      assert p * (req[k].quantite as real) >= p * 1.0;
    }
  }

  // ------------------------------------------------------------ creation

  /** `createCommande`: the supplier must exist, a number must be free, every
      book must exist; the order is stored EN_ATTENTE with its lines and
      their total. The stock is not touched. */
  function CreateCommande(st: Achats, req: CommandeRequest, commandeId: Id, today: CalendarDate,
                          user: Option<Id>): (r: Result<Achats>)
    ensures req.fournisseurId !in st.fournisseurs ==> r == Failure(NotFound(FournisseurEntity))
    ensures r.Success? ==>
      && commandeId in r.value.commandes
      && r.value.inv == st.inv && r.value.fournisseurs == st.fournisseurs
      && r.value.commandes == st.commandes[commandeId := r.value.commandes[commandeId]]
  {
    if req.fournisseurId !in st.fournisseurs then Failure(NotFound(FournisseurEntity))
    else
      match GenerateNumeroCommande(today, NumerosCommandes(st.commandes))
      case Failure(e) => Failure(e)
      case Success(numero) =>
        match ConstruireLignes(st.inv.livres, req.lignes)
        case Failure(e) => Failure(e)
        case Success(ls) =>
          ConstruireLignesCompletes(st.inv.livres, req.lignes);
          var c := NouvelleCommande(commandeId, numero, req.fournisseurId, req.dateCommande,
                                    req.dateReceptionPrevue, req.notes, user);
          Success(st.(commandes := st.commandes[commandeId := CalculateMontantTotal(c.(lignes := ls))]))
  }

  /** The stored order: EN_ATTENTE, never received, numbered with a number
      no other order holds, its lines those of the request, its total their
      sum. */
  lemma CreateCommandeEnregistre(st: Achats, req: CommandeRequest, commandeId: Id, today: CalendarDate,
                                 user: Option<Id>)
    requires CreateCommande(st, req, commandeId, today, user).Success?
    ensures req.fournisseurId in st.fournisseurs
    ensures forall k :: 0 <= k < |req.lignes| ==> req.lignes[k].livreId in st.inv.livres
    ensures var c := CreateCommande(st, req, commandeId, today, user).value.commandes[commandeId];
      && c.statut == EN_ATTENTE && c.dateReceptionReelle == None
      && c.id == commandeId && c.fournisseurId == req.fournisseurId && c.createdBy == user
      && c.dateCommande == req.dateCommande && c.dateReceptionPrevue == req.dateReceptionPrevue
      && c.notes == req.notes
      && c.numeroCommande !in NumerosCommandes(st.commandes)
      && |c.lignes| == |req.lignes|
      && (forall k :: 0 <= k < |req.lignes| ==> c.lignes[k] == NouvelleLigneCommande(req.lignes[k]))
      && Chiffrees(c.lignes) && c.montantTotal == Somme(c.lignes)
  {
    ConstruireLignesAt(st.inv.livres, req.lignes);
    ConstruireLignesCompletes(st.inv.livres, req.lignes);
  }

  // ------------------------------------------------------------ editing

  /** `updateCommande`: only a pending order may change; the supplier and
      every book must exist; the dates, notes and supplier are overwritten,
      the lines replaced and the total recomputed. */
  function UpdateCommande(st: Achats, id: Id, req: CommandeRequest): (r: Result<Achats>)
    ensures id !in st.commandes ==> r == Failure(NotFound(CommandeEntity))
    ensures id in st.commandes && st.commandes[id].statut != EN_ATTENTE ==>
      r == Failure(BadRequest(CommandeNonEnAttente))
    ensures r.Success? ==>
      && id in st.commandes && id in r.value.commandes
      && r.value.inv == st.inv && r.value.fournisseurs == st.fournisseurs
      && r.value.commandes == st.commandes[id := r.value.commandes[id]]
  {
    if id !in st.commandes then Failure(NotFound(CommandeEntity))
    else
      var c := st.commandes[id];
      if c.statut != EN_ATTENTE then Failure(BadRequest(CommandeNonEnAttente))
      else if req.fournisseurId !in st.fournisseurs then Failure(NotFound(FournisseurEntity))
      else
        match ConstruireLignes(st.inv.livres, req.lignes)
        case Failure(e) => Failure(e)
        case Success(ls) =>
          ConstruireLignesCompletes(st.inv.livres, req.lignes);
          var c2 := c.(fournisseurId := req.fournisseurId, dateCommande := req.dateCommande,
                       dateReceptionPrevue := req.dateReceptionPrevue, notes := req.notes, lignes := ls);
          Success(st.(commandes := st.commandes[id := CalculateMontantTotal(c2)]))
  }

  /** The edited order keeps its identity, number, status, author and
      reception date; everything else comes from the request. */
  lemma UpdateCommandeEnregistre(st: Achats, id: Id, req: CommandeRequest)
    requires UpdateCommande(st, id, req).Success?
    ensures req.fournisseurId in st.fournisseurs
    ensures var c := st.commandes[id];
      var c2 := UpdateCommande(st, id, req).value.commandes[id];
      && c.statut == EN_ATTENTE && c2.statut == EN_ATTENTE
      && c2.id == c.id && c2.numeroCommande == c.numeroCommande && c2.createdBy == c.createdBy
      && c2.dateReceptionReelle == c.dateReceptionReelle
      && c2.fournisseurId == req.fournisseurId && c2.dateCommande == req.dateCommande
      && c2.dateReceptionPrevue == req.dateReceptionPrevue && c2.notes == req.notes
      && |c2.lignes| == |req.lignes|
      && (forall k :: 0 <= k < |req.lignes| ==> c2.lignes[k] == NouvelleLigneCommande(req.lignes[k]))
      && Chiffrees(c2.lignes) && c2.montantTotal == Somme(c2.lignes)
  {
    ConstruireLignesAt(st.inv.livres, req.lignes);
    ConstruireLignesCompletes(st.inv.livres, req.lignes);
  }

  /** `deleteCommande`: only a pending order may be deleted. */
  function DeleteCommande(st: Achats, id: Id): (r: Result<Achats>)
    ensures id !in st.commandes ==> r == Failure(NotFound(CommandeEntity))
    ensures id in st.commandes && st.commandes[id].statut != EN_ATTENTE ==>
      r == Failure(BadRequest(CommandeNonEnAttente))
    ensures r.Success? <==> id in st.commandes && st.commandes[id].statut == EN_ATTENTE
    ensures r.Success? ==>
      && r.value.commandes.Keys == st.commandes.Keys - {id}
      && (forall o :: o in r.value.commandes ==> r.value.commandes[o] == st.commandes[o])
      && r.value.inv == st.inv && r.value.fournisseurs == st.fournisseurs
  {
    if id !in st.commandes then Failure(NotFound(CommandeEntity))
    else if st.commandes[id].statut != EN_ATTENTE then Failure(BadRequest(CommandeNonEnAttente))
    else Success(st.(commandes := st.commandes - {id}))
  }

  // ----------------------------------------------------------- reception

  /** One line received: the book's stock rises by the quantity in
      unchecked `int` arithmetic, and its purchase price becomes the line's
      price when the line has one. */
  function RecevoirLigne(livres: Livres, l: LigneCommande): (r: Livres)
    requires l.livreId in livres && l.quantite.Some?
    ensures r.Keys == livres.Keys
  {
    var b := livres[l.livreId];
    livres[l.livreId := b.(quantiteStock := Wrap32(b.quantiteStock + l.quantite.value),
                           prixAchat := if l.prixAchatUnitaire.Some? then l.prixAchatUnitaire else b.prixAchat)]
  }

  /** Every line names an existing book and carries a quantity. */
  predicate Recevables(livres: Livres, ls: seq<LigneCommande>)
  {
    forall k :: 0 <= k < |ls| ==> ls[k].livreId in livres && ls[k].quantite.Some?
  }

  /** The reception loop over the lines, first line first. */
  function RecevoirLignes(livres: Livres, ls: seq<LigneCommande>): (r: Livres)
    requires Recevables(livres, ls)
    ensures r.Keys == livres.Keys
  {
    if |ls| == 0 then livres
    else RecevoirLigne(RecevoirLignes(livres, ls[..|ls| - 1]), ls[|ls| - 1])
  }

  /** The quantity that lines `ls` order of book `id`. */
  function QteCommandee(ls: seq<LigneCommande>, id: Id): int
    requires forall k :: 0 <= k < |ls| ==> ls[k].quantite.Some?
  {
    if |ls| == 0 then 0
    else QteCommandee(ls[..|ls| - 1], id)
         + (if ls[|ls| - 1].livreId == id then ls[|ls| - 1].quantite.value else 0)
  }

  /** The price of the last line of book `id` that has one, else `defaut`. */
  function DernierPrix(ls: seq<LigneCommande>, id: Id, defaut: Option<real>): Option<real>
  {
    if |ls| == 0 then defaut
    else if ls[|ls| - 1].livreId == id && ls[|ls| - 1].prixAchatUnitaire.Some? then ls[|ls| - 1].prixAchatUnitaire
    else DernierPrix(ls[..|ls| - 1], id, defaut)
  }

  /** Some line of `ls` is for book `id`. */
  predicate Concerne(ls: seq<LigneCommande>, id: Id)
  {
    exists k | 0 <= k < |ls| :: ls[k].livreId == id
  }

  /** The stock of book `id` after reception: untouched when no line is for
      it, otherwise raised by the quantity ordered in `int` arithmetic. */
  function StockRecu(stock: int, ls: seq<LigneCommande>, id: Id): int
    requires forall k :: 0 <= k < |ls| ==> ls[k].quantite.Some?
  {
    if Concerne(ls, id) then Wrap32(stock + QteCommandee(ls, id)) else stock
  }

  /** What reception does to one book: the stock as above, purchase price
      the last one given, nothing else changed. */
  ghost predicate Recu(avant: Livres, apres: Livres, ls: seq<LigneCommande>)
    requires forall k :: 0 <= k < |ls| ==> ls[k].quantite.Some?
  {
    && apres.Keys == avant.Keys
    && forall id :: id in avant ==>
         apres[id] == avant[id].(quantiteStock := StockRecu(avant[id].quantiteStock, ls, id),
                                 prixAchat := DernierPrix(ls, id, avant[id].prixAchat))
  }

  /** A book no line is for has an ordered quantity of zero. */
  lemma {:induction false} QteCommandeeAbsente(ls: seq<LigneCommande>, id: Id)
    requires forall k :: 0 <= k < |ls| ==> ls[k].quantite.Some?
    ensures !Concerne(ls, id) ==> QteCommandee(ls, id) == 0
    decreases |ls|
  {
    if |ls| > 0 && !Concerne(ls, id) {
      var init := ls[..|ls| - 1];
      assert forall k :: 0 <= k < |init| ==> init[k] == ls[k];
      QteCommandeeAbsente(init, id);
    }
  }

  /** One more line for `id` raises the partly received stock in `int`
      arithmetic; a line for another book leaves it alone. */
  lemma StockRecuStep(stock: int, ls: seq<LigneCommande>, id: Id)
    requires |ls| > 0
    requires forall k :: 0 <= k < |ls| ==> ls[k].quantite.Some?
    ensures var l := ls[|ls| - 1];
      var avant := StockRecu(stock, ls[..|ls| - 1], id);
      StockRecu(stock, ls, id) == if l.livreId == id then Wrap32(avant + l.quantite.value) else avant
  {
    var init := ls[..|ls| - 1];
    var l := ls[|ls| - 1];
    assert forall k :: 0 <= k < |init| ==> init[k] == ls[k];
    assert Concerne(ls, id) <==> Concerne(init, id) || l.livreId == id;
    if l.livreId == id {
      if Concerne(init, id) {
        Wrap32Add(stock + QteCommandee(init, id), l.quantite.value);
      } else {
        QteCommandeeAbsente(init, id);
      }
    }
  }

  lemma RecevoirStep(avant: Livres, livres1: Livres, ls: seq<LigneCommande>)
    requires |ls| > 0
    requires forall k :: 0 <= k < |ls| ==> ls[k].quantite.Some?
    requires Recu(avant, livres1, ls[..|ls| - 1])
    requires ls[|ls| - 1].livreId in livres1
    ensures Recu(avant, RecevoirLigne(livres1, ls[|ls| - 1]), ls)
  {
    var l := ls[|ls| - 1];
    var apres := RecevoirLigne(livres1, l);
    forall id | id in avant
      ensures apres[id] == avant[id].(quantiteStock := StockRecu(avant[id].quantiteStock, ls, id),
                                      prixAchat := DernierPrix(ls, id, avant[id].prixAchat))
    {
      StockRecuStep(avant[id].quantiteStock, ls, id);
      if id != l.livreId {
        assert apres[id] == livres1[id];
      }
    }
  }

  /** The reception loop adds each book's ordered quantity to its stock and
      leaves its last given price. */
  lemma {:induction false} RecevoirLignesEffet(livres: Livres, ls: seq<LigneCommande>)
    requires Recevables(livres, ls)
    ensures Recu(livres, RecevoirLignes(livres, ls), ls)
  {
    if |ls| > 0 {
      RecevoirLignesEffet(livres, ls[..|ls| - 1]);
      RecevoirStep(livres, RecevoirLignes(livres, ls[..|ls| - 1]), ls);
    }
  }

  /** `recevoirCommande`: only a pending order may be received. It becomes
      RECUE with the reception date and its lines go into stock. No ledger
      row is written. */
  function RecevoirCommande(st: Achats, id: Id, dateReception: Date): (r: Result<Achats>)
    requires id in st.commandes ==> Recevables(st.inv.livres, st.commandes[id].lignes)
    ensures id !in st.commandes ==> r == Failure(NotFound(CommandeEntity))
    ensures r.Success? <==> id in st.commandes && st.commandes[id].statut == EN_ATTENTE
    ensures r.Failure? && id in st.commandes ==> r.error == BadRequest(CommandeNonEnAttente)
    ensures r.Success? ==>
      && r.value.commandes == st.commandes[id := MarquerCommeRecue(st.commandes[id], dateReception)]
      && r.value.inv.ledger == st.inv.ledger
      && r.value.fournisseurs == st.fournisseurs
  {
    if id !in st.commandes then Failure(NotFound(CommandeEntity))
    else
      var c := st.commandes[id];
      if c.statut != EN_ATTENTE then Failure(BadRequest(CommandeNonEnAttente))
      else
        Success(Achats(Inventaire(RecevoirLignes(st.inv.livres, c.lignes), st.inv.ledger),
                       st.fournisseurs, st.commandes[id := MarquerCommeRecue(c, dateReception)]))
  }

  /** The stock side of a reception. Stocks stay `int` values. With a
      non-negative stock and non-negative quantities, a book ends with its
      exact non-negative total when that fits an `int`, and with a negative
      stock when the total passes Integer.MAX_VALUE (within one wrap), since
      nothing checks the sum. */
  lemma RecevoirCommandeStock(st: Achats, id: Id, dateReception: Date)
    requires id in st.commandes ==> Recevables(st.inv.livres, st.commandes[id].lignes)
    requires RecevoirCommande(st, id, dateReception).Success?
    ensures Recu(st.inv.livres, RecevoirCommande(st, id, dateReception).value.inv.livres, st.commandes[id].lignes)
    ensures StockBorne(st.inv.livres) ==> StockBorne(RecevoirCommande(st, id, dateReception).value.inv.livres)
    ensures var ls := st.commandes[id].lignes;
      var apres := RecevoirCommande(st, id, dateReception).value.inv.livres;
      (forall k :: 0 <= k < |ls| ==> ls[k].quantite.value >= 0) ==>
        forall b :: b in st.inv.livres && 0 <= st.inv.livres[b].quantiteStock <= IntMax ==>
          var total := st.inv.livres[b].quantiteStock + QteCommandee(ls, b);
          && (total <= IntMax ==> apres[b].quantiteStock == total)
          && (IntMax < total < Modulo32 ==> apres[b].quantiteStock < 0)
  {
    var ls := st.commandes[id].lignes;
    RecevoirLignesEffet(st.inv.livres, ls);
    if forall k :: 0 <= k < |ls| ==> ls[k].quantite.value >= 0 {
      forall b | b in st.inv.livres ensures QteCommandee(ls, b) >= 0 {
        QteCommandeePositive(ls, b);
      }
    }
    forall b | b in st.inv.livres ensures !Concerne(ls, b) ==> QteCommandee(ls, b) == 0 {
      QteCommandeeAbsente(ls, b);
    }
  }

  lemma {:induction false} QteCommandeePositive(ls: seq<LigneCommande>, id: Id)
    requires forall k :: 0 <= k < |ls| ==> ls[k].quantite.Some? && ls[k].quantite.value >= 0
    ensures QteCommandee(ls, id) >= 0
  {
    if |ls| > 0 {
      QteCommandeePositive(ls[..|ls| - 1], id);
    }
  }

  // -------------------------------------------------------- cancellation

  /** The note after a cancellation: the reason is appended after a blank
      line, or becomes the note when there was none; without a reason the
      note is kept. */
  function NotesAnnulation(notes: Option<string>, motif: Option<string>): (r: Option<string>)
    ensures !NonEmpty(motif) ==> r == notes
    ensures NonEmpty(motif) ==> r.Some?
    ensures NonEmpty(motif) && notes.None? ==> r.value == "Motif d'annulation: " + motif.value
    ensures NonEmpty(motif) && notes.Some? ==>
      var n := notes.value;
      && |r.value| >= |n|
      && r.value[..|n|] == n
      && r.value[|n|..] == "\n\nMotif d'annulation: " + motif.value
  {
    if NonEmpty(motif) then
      match notes
      case Some(n) =>
        var s := n + "\n\nMotif d'annulation: " + motif.value;
        assert s[..|n|] == n;
        assert s[|n|..] == "\n\nMotif d'annulation: " + motif.value;
        Some(s)
      case None => Some("Motif d'annulation: " + motif.value)
    else notes
  }

  /** `annulerCommande`: only a pending order may be cancelled; it becomes
      ANNULEE and records the reason in its note. */
  function AnnulerCommande(st: Achats, id: Id, motif: Option<string>): (r: Result<Achats>)
    ensures id !in st.commandes ==> r == Failure(NotFound(CommandeEntity))
    ensures r.Success? <==> id in st.commandes && st.commandes[id].statut == EN_ATTENTE
    ensures r.Failure? && id in st.commandes ==> r.error == BadRequest(CommandeNonEnAttente)
    ensures r.Success? ==>
      var c := st.commandes[id];
      && r.value.commandes == st.commandes[id := Annuler(c).(notes := NotesAnnulation(c.notes, motif))]
      && r.value.inv == st.inv && r.value.fournisseurs == st.fournisseurs
  {
    if id !in st.commandes then Failure(NotFound(CommandeEntity))
    else
      var c := st.commandes[id];
      if c.statut != EN_ATTENTE then Failure(BadRequest(CommandeNonEnAttente))
      else Success(st.(commandes := st.commandes[id := Annuler(c).(notes := NotesAnnulation(c.notes, motif))]))
  }

  // ---------------------------------------------------------- lifecycle

  /** RECUE and ANNULEE are final: once an order has left EN_ATTENTE, every
      operation on it fails with the same BadRequest and changes nothing. */
  lemma EtatsFinaux(st: Achats, id: Id, req: CommandeRequest, d: Date, motif: Option<string>)
    requires id in st.commandes && st.commandes[id].statut != EN_ATTENTE
    requires Recevables(st.inv.livres, st.commandes[id].lignes)
    ensures UpdateCommande(st, id, req) == Failure(BadRequest(CommandeNonEnAttente))
    ensures DeleteCommande(st, id) == Failure(BadRequest(CommandeNonEnAttente))
    ensures RecevoirCommande(st, id, d) == Failure(BadRequest(CommandeNonEnAttente))
    ensures AnnulerCommande(st, id, motif) == Failure(BadRequest(CommandeNonEnAttente))
  {
  }

  /** Receiving an order twice fails the second time, as does cancelling a
      received order or receiving a cancelled one. */
  lemma PasDeSecondTraitement(st: Achats, id: Id, d: Date, d2: Date, motif: Option<string>)
    requires id in st.commandes ==> Recevables(st.inv.livres, st.commandes[id].lignes)
    ensures RecevoirCommande(st, id, d).Success? ==>
      var st2 := RecevoirCommande(st, id, d).value;
      && st2.commandes[id].statut == RECUE
      && AnnulerCommande(st2, id, motif) == Failure(BadRequest(CommandeNonEnAttente))
    ensures AnnulerCommande(st, id, motif).Success? ==>
      var st2 := AnnulerCommande(st, id, motif).value;
      && st2.commandes[id].statut == ANNULEE
      && Recevables(st2.inv.livres, st2.commandes[id].lignes)
      && RecevoirCommande(st2, id, d2) == Failure(BadRequest(CommandeNonEnAttente))
  {
  }

  // ---------------------------------------------------------- invariant

  /** Every stored line is complete, and every order's total is the sum of
      its lines. */
  ghost predicate Integre(st: Achats)
  {
    forall id :: id in st.commandes ==>
      && LignesCompletes(st.inv.livres, st.commandes[id].lignes)
      && Chiffrees(st.commandes[id].lignes)
      && st.commandes[id].montantTotal == Somme(st.commandes[id].lignes)
  }

  /** Complete lines stay complete when the catalogue keeps its keys. */
  lemma CompletesMemesCles(a: Livres, b: Livres, ls: seq<LigneCommande>)
    requires a.Keys == b.Keys && LignesCompletes(a, ls)
    ensures LignesCompletes(b, ls)
  {
  }

  /** Creating an order keeps the store consistent. */
  lemma CreateCommandePreserveIntegre(st: Achats, req: CommandeRequest, commandeId: Id,
                                      today: CalendarDate, user: Option<Id>)
    requires Integre(st)
    ensures CreateCommande(st, req, commandeId, today, user).Success? ==>
      Integre(CreateCommande(st, req, commandeId, today, user).value)
  {
    if CreateCommande(st, req, commandeId, today, user).Success? {
      ConstruireLignesCompletes(st.inv.livres, req.lignes);
    }
  }

  /** Editing an order keeps the store consistent. */
  lemma UpdateCommandePreserveIntegre(st: Achats, id: Id, req: CommandeRequest)
    requires Integre(st)
    ensures UpdateCommande(st, id, req).Success? ==> Integre(UpdateCommande(st, id, req).value)
  {
    if UpdateCommande(st, id, req).Success? {
      ConstruireLignesCompletes(st.inv.livres, req.lignes);
    }
  }

  /** Deleting or cancelling an order keeps the store consistent. */
  lemma DeleteAnnulerPreserventIntegre(st: Achats, id: Id, motif: Option<string>)
    requires Integre(st)
    ensures DeleteCommande(st, id).Success? ==> Integre(DeleteCommande(st, id).value)
    ensures AnnulerCommande(st, id, motif).Success? ==> Integre(AnnulerCommande(st, id, motif).value)
  {
  }

  /** Receiving an order keeps the store consistent: the books keep their
      ids, so every line still names one. */
  lemma RecevoirCommandePreserveIntegre(st: Achats, id: Id, d: Date)
    requires Integre(st)
    ensures RecevoirCommande(st, id, d).Success? ==> Integre(RecevoirCommande(st, id, d).value)
  {
    if RecevoirCommande(st, id, d).Success? {
      var st2 := RecevoirCommande(st, id, d).value;
      forall o | o in st2.commandes
        ensures LignesCompletes(st2.inv.livres, st2.commandes[o].lignes)
      {
        CompletesMemesCles(st.inv.livres, st2.inv.livres, st.commandes[o].lignes);
      }
    }
  }

  // -------------------------------------------------------- foreign keys

  /** The books the order lines point at. */
  function LivresCommandes(cs: map<Id, Commande>): set<Id>
  {
    set o, k | o in cs && 0 <= k < |cs[o].lignes| :: cs[o].lignes[k].livreId
  }

  /** Deleting a book is refused while an order line points at it, and
      otherwise keeps the store consistent; `autres` are the ids any other
      referencing table holds. */
  lemma DeleteLivreGardeLesCommandes(st: Achats, id: Id, autres: set<Id>)
    requires Integre(st)
    ensures var r := LivresService.DeleteLivre(st.inv.livres, id, LivresCommandes(st.commandes) + autres);
      && (id in st.inv.livres && id in LivresCommandes(st.commandes) ==> r == Failure(ContrainteReferentielle))
      && (r.Success? ==> Integre(st.(inv := st.inv.(livres := r.value))))
  {
    var r := LivresService.DeleteLivre(st.inv.livres, id, LivresCommandes(st.commandes) + autres);
    if r.Success? {
      forall o, k | o in st.commandes && 0 <= k < |st.commandes[o].lignes|
        ensures LigneComplete(r.value, st.commandes[o].lignes[k])
      {
        assert st.commandes[o].lignes[k].livreId in LivresCommandes(st.commandes);
      }
    }
  }

  /** The suppliers the orders point at. */
  function FournisseursCommandes(cs: map<Id, Commande>): set<Id>
  {
    set o | o in cs :: cs[o].fournisseurId
  }

  /** Every order's supplier exists: the NOT NULL foreign key of CommandeFournisseur. */
  ghost predicate FournisseursPresents(cs: map<Id, Commande>, fs: Fournisseurs.Fournisseurs)
  {
    forall o :: o in cs ==> cs[o].fournisseurId in fs
  }

  /** Deleting a supplier is refused while an order points at it, and
      otherwise keeps every order's supplier present. */
  lemma DeleteFournisseurGardeLesCommandes(cs: map<Id, Commande>, fs: Fournisseurs.Fournisseurs, id: Id)
    requires FournisseursPresents(cs, fs)
    ensures var r := Fournisseurs.DeleteFournisseur(fs, id, FournisseursCommandes(cs));
      && (id in fs && (exists o :: o in cs && cs[o].fournisseurId == id) ==> r == Failure(ContrainteReferentielle))
      && (r.Success? ==> FournisseursPresents(cs, r.value))
  {
    var r := Fournisseurs.DeleteFournisseur(fs, id, FournisseursCommandes(cs));
    if r.Success? {
      forall o | o in cs ensures cs[o].fournisseurId in r.value {
        assert cs[o].fournisseurId in FournisseursCommandes(cs);
      }
    }
  }
}
