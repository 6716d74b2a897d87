/** Invoice numbering across the sales table. The service numbers a new sale
    one past the number of VALIDEE sales of the day; once a sale of the day
    is cancelled that count falls behind the numbers already issued, and the
    next number repeats one in use although the column is unique. The
    corrected numbering counts every sale of the day, and the sale entry
    point `Vendre` uses it. */
module Facturation {
  import opened Common
  import opened Digits
  import opened Reductions
  import opened Ventes

  type Table = map<Id, Vente>

  /** `countByDate` as written: the VALIDEE sales dated `d`. */
  function ValideesDuJour(ventes: Table, d: CalendarDate): nat
  {
    |set a | a in ventes && ventes[a].dateVente == d && ventes[a].statut == VALIDEE|
  }

  /** Every sale dated `d`, whatever its status. */
  function VentesDuJour(ventes: Table, d: CalendarDate): nat
  {
    |set a | a in ventes && ventes[a].dateVente == d|
  }

  /** The counter is never behind the count the service uses. */
  lemma ValideesAuPlusVentes(ventes: Table, d: CalendarDate)
    ensures ValideesDuJour(ventes, d) <= VentesDuJour(ventes, d)
  {
    var v := set a | a in ventes && ventes[a].dateVente == d && ventes[a].statut == VALIDEE;
    var t := set a | a in ventes && ventes[a].dateVente == d;
    assert v <= t;
    SubsetCardinality(v, t);
  }

  lemma SubsetCardinality<T>(a: set<T>, b: set<T>)
    requires a <= b
    ensures |a| <= |b|
  {
    assert b == a + (b - a);
  }

  /** Every stored sale carries the number `GenerateNumeroFacture(d, k)` of
      its own day `d`, with `k` below the number of sales of that day. */
  ghost predicate Numerotation(ventes: Table)
  {
    forall a :: a in ventes ==>
      exists k: nat :: k < VentesDuJour(ventes, ventes[a].dateVente)
                       && ventes[a].numeroFacture == GenerateNumeroFacture(ventes[a].dateVente, k)
  }

  /** The `unique` constraint on `numero_facture`. */
  ghost predicate NumerosUniques(ventes: Table)
  {
    forall a, b :: a in ventes && b in ventes && ventes[a].numeroFacture == ventes[b].numeroFacture ==> a == b
  }

  ghost predicate Invariant(ventes: Table)
  {
    Numerotation(ventes) && NumerosUniques(ventes)
  }

  /** The number `generateNumeroFacture` issues as written. */
  function NumeroTelQuEcrit(ventes: Table, today: CalendarDate): (s: string)
    ensures |s| >= 16 && AllDigits(s[13..]) && ParseDigits(s[13..]) == ValideesDuJour(ventes, today) + 1
  {
    GenerateNumeroFacture(today, ValideesDuJour(ventes, today))
  }

  /** The corrected number: one past every sale of the day. */
  function Numero(ventes: Table, today: CalendarDate): (s: string)
    ensures |s| >= 16 && AllDigits(s[13..]) && ParseDigits(s[13..]) == VentesDuJour(ventes, today) + 1
  {
    GenerateNumeroFacture(today, VentesDuJour(ventes, today))
  }

  /** Numbers of two days, or two counters of one day, never coincide. */
  lemma NumerosDistincts(d: CalendarDate, k: nat, e: CalendarDate, m: nat)
    requires GenerateNumeroFacture(d, k) == GenerateNumeroFacture(e, m)
    ensures d == e && k == m
  {
    var s := GenerateNumeroFacture(d, k);
    assert FormatYmd(d) == s[4..12] == FormatYmd(e);
    FormatYmdInjective(d, e);
  }

  /** Two counters of one day give two numbers. */
  lemma NumerosDifferents(d: CalendarDate, k: nat, m: nat)
    requires k != m
    ensures GenerateNumeroFacture(d, k) != GenerateNumeroFacture(d, m)
  {
    if GenerateNumeroFacture(d, k) == GenerateNumeroFacture(d, m) {
      NumerosDistincts(d, k, d, m);
    }
  }

  /** With a well-numbered table, the corrected number is used by no sale. */
  lemma NumeroLibre(ventes: Table, today: CalendarDate)
    requires Numerotation(ventes)
    ensures forall a :: a in ventes ==> ventes[a].numeroFacture != Numero(ventes, today)
  {
    forall a | a in ventes
      ensures ventes[a].numeroFacture != Numero(ventes, today)
    {
      var d := ventes[a].dateVente;
      var k: nat :| k < VentesDuJour(ventes, d) && ventes[a].numeroFacture == GenerateNumeroFacture(d, k);
      if ventes[a].numeroFacture == Numero(ventes, today) {
        NumerosDistincts(d, k, today, VentesDuJour(ventes, today));
      }
    }
  }

  /** A witness table reached by two sales of day `d` and the cancellation
      of the first: A numbered FAC-d-001 and ANNULEE, B numbered FAC-d-002
      and VALIDEE. */
  function TableTemoin(d: CalendarDate): (t: Table)
    ensures t.Keys == {"a", "b"}
    ensures t["a"].dateVente == d && t["a"].statut == ANNULEE && t["a"].numeroFacture == GenerateNumeroFacture(d, 0)
    ensures t["b"].dateVente == d && t["b"].statut == VALIDEE && t["b"].numeroFacture == GenerateNumeroFacture(d, 1)
  {
    var a := Vente("a", GenerateNumeroFacture(d, 0), d, "u", 0.0, 0.0, 0.0, ANNULEE, None, []);
    var b := Vente("b", GenerateNumeroFacture(d, 1), d, "u", 0.0, 0.0, 0.0, VALIDEE, None, []);
    map["a" := a, "b" := b]
  }

  lemma TemoinComptes(d: CalendarDate)
    ensures ValideesDuJour(TableTemoin(d), d) == 1
    ensures VentesDuJour(TableTemoin(d), d) == 2
  {
    var t := TableTemoin(d);
    assert (set a | a in t && t[a].dateVente == d && t[a].statut == VALIDEE) == {"b"};
    assert (set a | a in t && t[a].dateVente == d) == {"a", "b"};
  }

  lemma TemoinNumerote(d: CalendarDate)
    ensures Numerotation(TableTemoin(d))
  {
    var t := TableTemoin(d);
    TemoinComptes(d);
    forall a | a in t
      ensures exists k: nat :: k < VentesDuJour(t, t[a].dateVente)
                               && t[a].numeroFacture == GenerateNumeroFacture(t[a].dateVente, k)
    {
      if a == "a" {
        assert t[a].numeroFacture == GenerateNumeroFacture(d, 0);
      } else {
        assert t[a].numeroFacture == GenerateNumeroFacture(d, 1);
      }
    }
  }

  lemma TemoinUniques(d: CalendarDate)
    ensures NumerosUniques(TableTemoin(d))
  {
    NumerosDifferents(d, 0, 1);
  }

  /** On any day, the witness table is well numbered with unique numbers,
      yet the number the service issues next is B's, so storing the next
      sale breaks the unique column; the corrected number is fresh. */
  lemma {:induction false} TelQuEcritReutiliseUnNumero(d: CalendarDate)
    ensures Invariant(TableTemoin(d))
    ensures NumeroTelQuEcrit(TableTemoin(d), d) == TableTemoin(d)["b"].numeroFacture
    ensures forall a :: a in TableTemoin(d) ==> TableTemoin(d)[a].numeroFacture != Numero(TableTemoin(d), d)
  {
    TemoinComptes(d);
    TemoinNumerote(d);
    TemoinUniques(d);
    NumeroLibre(TableTemoin(d), d);
  }

  /** Adding a sale under a fresh id adds one to its own day's count only. */
  lemma VentesDuJourAjout(ventes: Table, id: Id, v: Vente, d: CalendarDate)
    requires id !in ventes
    ensures VentesDuJour(ventes[id := v], d) == VentesDuJour(ventes, d) + (if v.dateVente == d then 1 else 0)
  {
    var m := ventes[id := v];
    var avant := set a | a in ventes && ventes[a].dateVente == d;
    var apres := set a | a in m && m[a].dateVente == d;
    if v.dateVente == d {
      assert apres == avant + {id};
    } else {
      assert apres == avant;
    }
  }

  /** Changing a sale's status keeps every day's count. */
  lemma VentesDuJourStatut(ventes: Table, id: Id, v: Vente, d: CalendarDate)
    requires id in ventes && v.dateVente == ventes[id].dateVente
    ensures VentesDuJour(ventes[id := v], d) == VentesDuJour(ventes, d)
  {
    var m := ventes[id := v];
    assert (set a | a in m && m[a].dateVente == d) == (set a | a in ventes && ventes[a].dateVente == d);
  }

  /** A sale stored under a fresh id with a number no sale holds keeps the
      numbers unique. */
  lemma UniquesAjout(ventes: Table, id: Id, v: Vente)
    requires NumerosUniques(ventes) && id !in ventes
    requires forall a :: a in ventes ==> ventes[a].numeroFacture != v.numeroFacture
    ensures NumerosUniques(ventes[id := v])
  {
  }

  /** A sale rewritten with its number kept keeps the numbers unique. */
  lemma UniquesRemplacement(ventes: Table, id: Id, w: Vente)
    requires NumerosUniques(ventes) && id in ventes && w.numeroFacture == ventes[id].numeroFacture
    ensures NumerosUniques(ventes[id := w])
  {
  }

  /** Storing a sale under a fresh id with the corrected number of its day
      keeps every sale numbered within its day's count. */
  lemma {:induction false} NumerotationAjout(ventes: Table, id: Id, v: Vente)
    requires Numerotation(ventes) && id !in ventes
    requires v.numeroFacture == Numero(ventes, v.dateVente)
    ensures Numerotation(ventes[id := v])
  {
    var m := ventes[id := v];
    var n := VentesDuJour(ventes, v.dateVente);
    forall a | a in m
      ensures exists k: nat :: k < VentesDuJour(m, m[a].dateVente)
                               && m[a].numeroFacture == GenerateNumeroFacture(m[a].dateVente, k)
    {
      VentesDuJourAjout(ventes, id, v, m[a].dateVente);
      if a == id {
        assert m[a].numeroFacture == GenerateNumeroFacture(v.dateVente, n);
      } else {
        var d := ventes[a].dateVente;
        var k: nat :| k < VentesDuJour(ventes, d) && ventes[a].numeroFacture == GenerateNumeroFacture(d, k);
        assert m[a].numeroFacture == GenerateNumeroFacture(m[a].dateVente, k);
      }
    }
  }

  /** Rewriting a sale with its day and number kept keeps every sale
      numbered within its day's count. */
  lemma {:induction false} NumerotationRemplacement(ventes: Table, id: Id, w: Vente)
    requires Numerotation(ventes) && id in ventes
    requires w.dateVente == ventes[id].dateVente && w.numeroFacture == ventes[id].numeroFacture
    ensures Numerotation(ventes[id := w])
  {
    var m := ventes[id := w];
    forall a | a in m
      ensures exists k: nat :: k < VentesDuJour(m, m[a].dateVente)
                               && m[a].numeroFacture == GenerateNumeroFacture(m[a].dateVente, k)
    {
      var d := ventes[a].dateVente;
      var k: nat :| k < VentesDuJour(ventes, d) && ventes[a].numeroFacture == GenerateNumeroFacture(d, k);
      NumeroteApresRemplacement(ventes, id, w, a, k);
    }
  }

  lemma NumeroteApresRemplacement(ventes: Table, id: Id, w: Vente, a: Id, k: nat)
    requires id in ventes && a in ventes
    requires w.dateVente == ventes[id].dateVente && w.numeroFacture == ventes[id].numeroFacture
    requires k < VentesDuJour(ventes, ventes[a].dateVente)
    requires ventes[a].numeroFacture == GenerateNumeroFacture(ventes[a].dateVente, k)
    ensures var m := ventes[id := w];
      k < VentesDuJour(m, m[a].dateVente) && m[a].numeroFacture == GenerateNumeroFacture(m[a].dateVente, k)
  {
    var m := ventes[id := w];
    if a == id {
      assert m[a] == w;
    } else {
      assert m[a] == ventes[a];
    }
    VentesDuJourStatut(ventes, id, w, ventes[a].dateVente);
  }

  /** `create` with the corrected numbering. */
  function Vendre(st: Magasin, req: seq<LigneVenteRequest>, rs: seq<Reduction>, venteId: Id,
                  vendeur: Id, today: CalendarDate): (r: Result<Magasin>)
    ensures r.Success? ==> venteId in r.value.ventes
    ensures r.Success? ==> r.value.ventes[venteId].numeroFacture == Numero(st.ventes, today)
  {
    var r := CreateVente(st, req, rs, venteId, vendeur, today, VentesDuJour(st.ventes, today));
    if r.Success? then
      CreateVenteEnregistre(st, req, rs, venteId, vendeur, today, VentesDuJour(st.ventes, today));
      r
    else r
  }

  /** A sale recorded under a fresh id keeps the table well numbered with
      unique numbers. */
  lemma VendrePreserve(st: Magasin, req: seq<LigneVenteRequest>, rs: seq<Reduction>, venteId: Id,
                       vendeur: Id, today: CalendarDate)
    requires Invariant(st.ventes) && venteId !in st.ventes
    ensures var r := Vendre(st, req, rs, venteId, vendeur, today);
      r.Success? ==> Invariant(r.value.ventes)
  {
    var n := VentesDuJour(st.ventes, today);
    var r := Vendre(st, req, rs, venteId, vendeur, today);
    if r.Success? {
      CreateVenteEnregistre(st, req, rs, venteId, vendeur, today, n);
      var v := r.value.ventes[venteId];
      NumeroLibre(st.ventes, today);
      NumerotationAjout(st.ventes, venteId, v);
      UniquesAjout(st.ventes, venteId, v);
    }
  }

  /** Cancelling a sale keeps the table well numbered with unique numbers:
      the cancelled sale still counts for its day. */
  lemma AnnulerPreserve(st: Magasin, venteId: Id, motif: Option<string>, user: Id)
    requires Invariant(st.ventes)
    ensures var r := AnnulerVente(st, venteId, motif, user);
      r.Success? ==> Invariant(r.value.ventes)
  {
    var r := AnnulerVente(st, venteId, motif, user);
    if r.Success? {
      var v := st.ventes[venteId];
      var w := v.(statut := ANNULEE, motifAnnulation := motif);
      NumerotationRemplacement(st.ventes, venteId, w);
      UniquesRemplacement(st.ventes, venteId, w);
    }
  }
}
