/** Shared vocabulary of the back office: identifiers, calendar dates,
    optional values, the error taxonomy of the services, and the
    ACTIF/INACTIF status that books, categories and suppliers carry. */
module Common {

  /** Entity identifiers are opaque UUID strings. */
  type Id = string

  /** A value that may be absent (a Java `null`). */
  datatype Option<+T> = None | Some(value: T)

  /** Which repository lookup failed (ResourceNotFoundException). */
  datatype Entity =
    | LivreEntity
    | CategorieEntity
    | FournisseurEntity
    | CommandeEntity
    | VenteEntity
    | UtilisateurEntity
    | ReductionEntity

  /** One line of a sale whose requested quantity exceeds the book's stock. */
  datatype Shortfall = Shortfall(livreId: Id, titre: string, disponible: int)

  /** The causes of a BadRequestException, one per distinct message. */
  datatype Reason =
    | StockErrors(lines: seq<Shortfall>)
    | StockInsuffisant(livreId: Id, disponible: int, demande: int)
    | StockNegatif
    | AjustementNegatif
    | QuantiteNegative
    | VenteDejaAnnulee
    | CommandeNonEnAttente
    | LimiteCommandesAtteinte
    | CodeLivreImpossible
    | CodeCategorieImpossible
    | NomDejaUtilise
    | EmailDejaUtilise
    | TitreAuteurDejaUtilise
    | IsbnDejaUtilise
    | LivreCibleInexistant
    | CategorieCibleInexistante
    | AncienMotDePasseIncorrect
    | MotDePasseIdentique
    | ConfirmationDifferente

  /** ResourceNotFoundException, BadRequestException, the
      StringIndexOutOfBoundsException an out-of-range `substring` throws, or
      the DataIntegrityViolationException a delete raises when another table
      still holds a foreign key to the row. */
  datatype Error = NotFound(entity: Entity) | BadRequest(reason: Reason) | IndexHorsLimites | ContrainteReferentielle

  /** The outcome of a service call: the new value, or the exception it throws. */
  datatype Result<+T> = Success(value: T) | Failure(error: Error)

  /** The ACTIF/INACTIF status shared by Livre, Categorie and Fournisseur. */
  datatype Statut = ACTIF | INACTIF

  /** The branch every `toggleStatut` service takes. */
  function Toggle(s: Statut): (r: Statut)
    ensures r != s
  {
    if s == ACTIF then INACTIF else ACTIF
  }

  lemma ToggleInvolution(s: Statut)
    ensures Toggle(Toggle(s)) == s
  {
  }

  /** The range of a Java `int`. */
  const IntMin: int := -0x8000_0000
  const IntMax: int := 0x7FFF_FFFF
  const Modulo32: int := 0x1_0000_0000

  predicate EstInt(x: int)
  {
    IntMin <= x <= IntMax
  }

  /** A value held in a Java `int` or `Integer`. */
  type Int32 = x: int | -0x8000_0000 <= x <= 0x7FFF_FFFF

  /** Java `int` arithmetic: the exact result brought back into the `int`
      range modulo 2^32, so that an overflowing sum turns negative. */
  function Wrap32(x: int): (r: int)
    ensures EstInt(r)
    ensures (x - r) % Modulo32 == 0
    ensures EstInt(x) ==> r == x
    ensures IntMax < x <= IntMax + Modulo32 ==> r == x - Modulo32
    ensures IntMin - Modulo32 <= x < IntMin ==> r == x + Modulo32
  {
    (x - IntMin) % Modulo32 + IntMin
  }

  /** Wrapping an intermediate result changes nothing: a sequence of `int`
      additions equals the exact sum wrapped once. */
  lemma Wrap32Add(a: int, b: int)
    ensures Wrap32(Wrap32(a) + b) == Wrap32(a + b)
  {
    var k := (a - IntMin) / Modulo32;
    assert Wrap32(a) == a - Modulo32 * k;
    Wrap32Decale(a + b, k);
  }

  /** Shifting by a multiple of 2^32 does not change the wrapped value. */
  lemma Wrap32Decale(x: int, k: int)
    ensures Wrap32(x - Modulo32 * k) == Wrap32(x)
  {
    var y := x - IntMin;
    var q := y / Modulo32;
    var r := y % Modulo32;
    assert y - Modulo32 * k == Modulo32 * (q - k) + r;
    assert (y - Modulo32 * k) % Modulo32 == r;
  }

  /** A java.time.LocalDate; the year stays within four digits so that the
      yyyyMMdd pattern yields exactly eight digits. */
  datatype Date = Date(year: int, month: int, day: int)

  type CalendarDate = d: Date | 0 <= d.year <= 9999 && 1 <= d.month <= 12 && 1 <= d.day <= 31
    witness Date(2000, 1, 1)

  /** `!a.isAfter(b)`: chronological order is lexicographic on (year, month, day). */
  predicate NotAfter(a: Date, b: Date)
  {
    a.year < b.year
    || (a.year == b.year && a.month < b.month)
    || (a.year == b.year && a.month == b.month && a.day <= b.day)
  }

  lemma NotAfterTotal(a: Date, b: Date)
    ensures NotAfter(a, b) || NotAfter(b, a)
    ensures NotAfter(a, b) && NotAfter(b, a) ==> a == b
  {
  }

  /** `String.isEmpty()` on a possibly-null string, negated: present and non-empty. */
  predicate NonEmpty(s: Option<string>)
  {
    s.Some? && |s.value| > 0
  }
}
