/** Discounts: the Reduction entity (validity and amount), the request
    validators, and the repository query that lists the discounts applicable
    to a book ordered by specificity then value, whose head is the best one. */
module Reductions {
  import opened Common

  /** Only POURCENTAGE is named by the code; every other type is a fixed amount. */
  datatype TypeReduction = POURCENTAGE | MONTANT_FIXE

  datatype CibleReduction = LIVRE | CATEGORIE | GLOBALE

  datatype Reduction = Reduction(
    id: Id,
    intitule: string,
    description: Option<string>,
    typeReduction: TypeReduction,
    valeur: real,
    cible: CibleReduction,
    cibleId: Option<Id>,
    dateDebut: Date,
    dateFin: Date,
    actif: bool)

  // ---------------------------------------------------------------- entity

  /** `estValide`: active and `today` within [dateDebut, dateFin], both ends included. */
  predicate EstValide(r: Reduction, today: Date)
  {
    r.actif && NotAfter(r.dateDebut, today) && NotAfter(today, r.dateFin)
  }

  /** `calculerMontantReduction`: zero when not valid, `prix * valeur / 100`
      for a percentage (exact, no rounding), the raw value otherwise (never
      capped at the price). */
  function CalculerMontantReduction(r: Reduction, today: Date, prix: real): (m: real)
    ensures !EstValide(r, today) ==> m == 0.0
    ensures EstValide(r, today) && r.typeReduction == POURCENTAGE ==> m * 100.0 == prix * r.valeur
    ensures EstValide(r, today) && r.typeReduction != POURCENTAGE ==> m == r.valeur
  {
    if !EstValide(r, today) then 0.0
    else if r.typeReduction == POURCENTAGE then prix * r.valeur / 100.0
    else r.valeur
  }

  /** A valid percentage between 0 and 100 of a non-negative price never
      exceeds the price. */
  lemma PourcentageBorne(r: Reduction, today: Date, prix: real)
    requires EstValide(r, today) && r.typeReduction == POURCENTAGE
    requires 0.0 <= r.valeur <= 100.0 && prix >= 0.0
    ensures 0.0 <= CalculerMontantReduction(r, today, prix) <= prix
  {
    var m := CalculerMontantReduction(r, today, prix);
    assert m * 100.0 == prix * r.valeur;
    assert prix * r.valeur <= prix * 100.0;
  }

  /** A fixed amount larger than the price is returned unchanged. */
  lemma MontantFixeNonPlafonne(r: Reduction, today: Date, prix: real)
    requires EstValide(r, today) && r.typeReduction == MONTANT_FIXE && r.valeur > prix
    ensures CalculerMontantReduction(r, today, prix) > prix
  {
  }

  // --------------------------------------------------------------- request

  /** The fields of a ReductionRequest; `actif` is initialised to true. */
  datatype ReductionRequest = ReductionRequest(
    intitule: string,
    description: Option<string>,
    typeReduction: TypeReduction,
    valeur: real,
    cible: CibleReduction,
    cibleId: Option<Id>,
    dateDebut: Option<Date>,
    dateFin: Option<Date>,
    actif: bool)

  /** A request as deserialised when the client omits `actif`. */
  function NouvelleRequete(intitule: string, t: TypeReduction, valeur: real, cible: CibleReduction,
                           cibleId: Option<Id>, debut: Date, fin: Date): (q: ReductionRequest)
    ensures q.actif
    ensures q.description == None
    ensures q.intitule == intitule && q.typeReduction == t && q.valeur == valeur
    ensures q.cible == cible && q.cibleId == cibleId
    ensures q.dateDebut == Some(debut) && q.dateFin == Some(fin)
  {
    ReductionRequest(intitule, None, t, valeur, cible, cibleId, Some(debut), Some(fin), true)
  }

  /** `isDateFinValide`: vacuous when a date is missing, else dateFin not before dateDebut. */
  function IsDateFinValide(q: ReductionRequest): (ok: bool)
    ensures q.dateDebut.None? || q.dateFin.None? ==> ok
    ensures q.dateDebut.Some? && q.dateFin.Some? ==> (ok <==> NotAfter(q.dateDebut.value, q.dateFin.value))
  {
    match (q.dateDebut, q.dateFin)
    case (Some(d), Some(f)) => NotAfter(d, f)
    case _ => true
  }

  /** `isCibleIdValide`: a target id is compulsory unless the scope is GLOBALE. */
  function IsCibleIdValide(q: ReductionRequest): (ok: bool)
    ensures q.cible == GLOBALE ==> ok
    ensures q.cible != GLOBALE ==> (ok <==> q.cibleId.Some?)
  {
    q.cible == GLOBALE || q.cibleId.Some?
  }

  /** The bean bounds on `valeur`: strictly positive, at most 100, whatever the type. */
  predicate ValeurDansBornes(q: ReductionRequest)
  {
    0.0 < q.valeur <= 100.0
  }

  /** The request constraints the model keeps. */
  predicate RequeteValide(q: ReductionRequest)
  {
    ValeurDansBornes(q) && IsDateFinValide(q) && IsCibleIdValide(q)
      && q.dateDebut.Some? && q.dateFin.Some?
  }

  // ------------------------------------------------------------ repository

  /** The target clause of the query: a null category id equals nothing in SQL. */
  predicate CibleCorrespond(r: Reduction, livreId: Id, categorieId: Option<Id>)
  {
    match r.cible
    case LIVRE => r.cibleId == Some(livreId)
    case CATEGORIE => categorieId.Some? && r.cibleId == categorieId
    case GLOBALE => true
  }

  /** The WHERE clause of `findApplicableReductionsOrdered`. */
  predicate Applicable(r: Reduction, livreId: Id, categorieId: Option<Id>, today: Date)
  {
    r.actif && NotAfter(r.dateDebut, today) && NotAfter(today, r.dateFin)
      && CibleCorrespond(r, livreId, categorieId)
  }

  /** The WHERE clause is exactly entity validity plus the target match. */
  lemma ApplicableIsValidAndTargeted(r: Reduction, livreId: Id, categorieId: Option<Id>, today: Date)
    ensures Applicable(r, livreId, categorieId, today)
        <==> EstValide(r, today) && CibleCorrespond(r, livreId, categorieId)
    ensures categorieId.None? && r.cible == CATEGORIE ==> !Applicable(r, livreId, categorieId, today)
  {
  }

  /** The CASE expression of the ORDER BY. */
  function Rang(c: CibleReduction): (n: int)
    ensures 1 <= n <= 3
    ensures c == LIVRE <==> n == 1
    ensures c == CATEGORIE <==> n == 2
  {
    match c
    case LIVRE => 1
    case CATEGORIE => 2
    case GLOBALE => 3
  }

  /** ORDER BY rank ASC, valeur DESC: `a` may come before `b`. */
  predicate AvantOuEgal(a: Reduction, b: Reduction)
  {
    Rang(a.cible) < Rang(b.cible) || (Rang(a.cible) == Rang(b.cible) && a.valeur >= b.valeur)
  }

  /** `a` must come before `b`. */
  predicate StrictementAvant(a: Reduction, b: Reduction)
  {
    Rang(a.cible) < Rang(b.cible) || (Rang(a.cible) == Rang(b.cible) && a.valeur > b.valeur)
  }

  ghost predicate Trie(s: seq<Reduction>)
  {
    forall i, j :: 0 <= i < j < |s| ==> AvantOuEgal(s[i], s[j])
  }

  /** The applicable reductions, in table order. */
  function Filtrer(rs: seq<Reduction>, livreId: Id, categorieId: Option<Id>, today: Date): (c: seq<Reduction>)
    ensures |c| <= |rs|
  {
    if |rs| == 0 then []
    else
      var rest := Filtrer(rs[..|rs| - 1], livreId, categorieId, today);
      var last := rs[|rs| - 1];
      if Applicable(last, livreId, categorieId, today) then rest + [last] else rest
  }

  /** The filter keeps exactly the applicable reductions. */
  lemma {:induction false} FiltrerMembres(rs: seq<Reduction>, livreId: Id, categorieId: Option<Id>, today: Date)
    ensures forall r :: r in Filtrer(rs, livreId, categorieId, today) <==> r in rs && Applicable(r, livreId, categorieId, today)
    decreases |rs|
  {
    if |rs| > 0 {
      FiltrerMembres(rs[..|rs| - 1], livreId, categorieId, today);
      assert rs == rs[..|rs| - 1] + [rs[|rs| - 1]];
    }
  }

  /** Insert `x` after every element it does not strictly precede. */
  function Inserer(x: Reduction, s: seq<Reduction>): seq<Reduction>
  {
    if |s| == 0 then [x]
    else if StrictementAvant(x, s[0]) then [x] + s
    else [s[0]] + Inserer(x, s[1..])
  }

  lemma {:induction false} InsererElements(x: Reduction, s: seq<Reduction>)
    ensures multiset(Inserer(x, s)) == multiset(s) + multiset{x}
    ensures forall y :: y in Inserer(x, s) <==> y == x || y in s
    decreases |s|
  {
    if |s| > 0 && !StrictementAvant(x, s[0]) {
      InsererElements(x, s[1..]);
      assert s == [s[0]] + s[1..];
    }
  }

  lemma {:induction false} InsererPreserve(x: Reduction, s: seq<Reduction>)
    requires Trie(s)
    ensures Trie(Inserer(x, s))
    ensures multiset(Inserer(x, s)) == multiset(s) + multiset{x}
    decreases |s|
  {
    InsererElements(x, s);
    if |s| > 0 && !StrictementAvant(x, s[0]) {
      var t := s[1..];
      assert Trie(t) by {
        forall i, j | 0 <= i < j < |t| ensures AvantOuEgal(t[i], t[j]) {
          assert t[i] == s[i + 1] && t[j] == s[j + 1];
        }
      }
      InsererPreserve(x, t);
      InsererElements(x, t);
      var u := Inserer(x, t);
      assert AvantOuEgal(s[0], x);
      assert forall y :: y in t ==> AvantOuEgal(s[0], y) by {
        forall y | y in t ensures AvantOuEgal(s[0], y) {
          var m :| 0 <= m < |t| && t[m] == y;
          assert s[m + 1] == y;
        }
      }
      assert forall k :: 0 <= k < |u| ==> AvantOuEgal(s[0], u[k]) by {
        forall k | 0 <= k < |u| ensures AvantOuEgal(s[0], u[k]) {
          assert u[k] in u;
        }
      }
    }
  }

  /** Insertion sort; later elements go after earlier equal ones. */
  function Trier(s: seq<Reduction>): seq<Reduction>
  {
    if |s| == 0 then [] else Inserer(s[|s| - 1], Trier(s[..|s| - 1]))
  }

  /** The sort yields a sorted permutation of its input. */
  lemma {:induction false} TrierSpec(s: seq<Reduction>)
    ensures Trie(Trier(s))
    ensures multiset(Trier(s)) == multiset(s)
    decreases |s|
  {
    if |s| > 0 {
      TrierSpec(s[..|s| - 1]);
      InsererPreserve(s[|s| - 1], Trier(s[..|s| - 1]));
      assert s == s[..|s| - 1] + [s[|s| - 1]];
    }
  }

  /** `findApplicableReductionsOrdered`: the applicable reductions, sorted by
      rank ascending then valeur descending. */
  function FindApplicableReductionsOrdered(rs: seq<Reduction>, livreId: Id, categorieId: Option<Id>,
                                            today: Date): seq<Reduction>
  {
    Trier(Filtrer(rs, livreId, categorieId, today))
  }

  /** The ordered list is sorted, is a permutation of the filtered table and
      holds exactly the applicable reductions. */
  lemma FindApplicableReductionsOrderedSpec(rs: seq<Reduction>, livreId: Id, categorieId: Option<Id>, today: Date)
    ensures var o := FindApplicableReductionsOrdered(rs, livreId, categorieId, today);
      && Trie(o)
      && multiset(o) == multiset(Filtrer(rs, livreId, categorieId, today))
      && forall r :: r in o <==> r in rs && Applicable(r, livreId, categorieId, today)
  {
    var c := Filtrer(rs, livreId, categorieId, today);
    var o := Trier(c);
    TrierSpec(c);
    FiltrerMembres(rs, livreId, categorieId, today);
    assert forall r :: r in o <==> r in multiset(o);
    assert forall r :: r in c <==> r in multiset(c);
  }

  /** `findBestApplicableReductionForLivre`: the head of the ordered list. */
  function FindBestApplicableReductionForLivre(rs: seq<Reduction>, livreId: Id, categorieId: Option<Id>,
                                               today: Date): Option<Reduction>
  {
    var o := FindApplicableReductionsOrdered(rs, livreId, categorieId, today);
    if |o| == 0 then None else Some(o[0])
  }

  /** The best reduction exists iff some reduction applies; it applies itself,
      has the smallest rank of all applicable reductions and, among those of
      its rank, the largest valeur. */
  lemma BestIsMostSpecificThenLargest(rs: seq<Reduction>, livreId: Id, categorieId: Option<Id>, today: Date)
    ensures var b := FindBestApplicableReductionForLivre(rs, livreId, categorieId, today);
      && (b.None? <==> forall r :: r in rs ==> !Applicable(r, livreId, categorieId, today))
      && (b.Some? ==> b.value in rs && Applicable(b.value, livreId, categorieId, today))
      && (b.Some? ==> forall r :: r in rs && Applicable(r, livreId, categorieId, today) ==>
            Rang(b.value.cible) <= Rang(r.cible)
            && (Rang(b.value.cible) == Rang(r.cible) ==> b.value.valeur >= r.valeur))
  {
    var o := FindApplicableReductionsOrdered(rs, livreId, categorieId, today);
    FindApplicableReductionsOrderedSpec(rs, livreId, categorieId, today);
    if |o| > 0 {
      assert o[0] in o;
      forall r | r in rs && Applicable(r, livreId, categorieId, today)
        ensures AvantOuEgal(o[0], r)
      {
        assert r in o;
        var k :| 0 <= k < |o| && o[k] == r;
        if k > 0 {
          assert AvantOuEgal(o[0], o[k]);
        }
      }
    } else {
      forall r | r in rs ensures !Applicable(r, livreId, categorieId, today) {
        assert r !in o;
      }
    }
  }

  /** Specificity wins: a book-scoped candidate beats any category or global
      one, and a category-scoped candidate beats any global one. */
  lemma BestPrefersSpecificScope(rs: seq<Reduction>, livreId: Id, categorieId: Option<Id>, today: Date)
    ensures var b := FindBestApplicableReductionForLivre(rs, livreId, categorieId, today);
      && ((exists r :: r in rs && Applicable(r, livreId, categorieId, today) && r.cible == LIVRE)
            ==> b.Some? && b.value.cible == LIVRE)
      && ((exists r :: r in rs && Applicable(r, livreId, categorieId, today) && r.cible == CATEGORIE)
            ==> b.Some? && b.value.cible != GLOBALE)
      && (((forall r :: r in rs && Applicable(r, livreId, categorieId, today) ==> r.cible != LIVRE)
           && (exists r :: r in rs && Applicable(r, livreId, categorieId, today) && r.cible == CATEGORIE))
          ==> b.Some? && b.value.cible == CATEGORIE)
  {
    BestIsMostSpecificThenLargest(rs, livreId, categorieId, today);
  }
}
