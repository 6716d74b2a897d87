/** The string formats of generated codes and numbers, and the two
    generator strategies the services use: the first free counter value,
    and (for categories) the prefix built from the name. */
module Codes {
  import opened Common
  import opened Digits

  // ------------------------------------------------------ "%s-%03d"

  /** `String.format("%s-%03d", base, n)`. */
  function AvecCompteur(base: string, n: nat): (s: string)
    ensures |s| >= |base| + 4
    ensures s[..|base|] == base && s[|base|] == '-'
    ensures AllDigits(s[|base| + 1..]) && ParseDigits(s[|base| + 1..]) == n
    ensures n < 1000 ==> |s| == |base| + 4
    ensures n >= 1000 ==> |s| >= |base| + 5
  {
    var s := base + "-" + Pad3(n);
    assert s[|base| + 1..] == Pad3(n);
    assert s[..|base|] == base;
    Pad3Longueur(n);
    s
  }

  /** `%03d` has at least three digits, and at least four from 1000 on. */
  lemma Pad3Longueur(n: nat)
    ensures |Pad3(n)| >= 3
    ensures n >= 1000 ==> |Pad3(n)| >= 4
  {
    if n >= 1000 {
      assert Pow10(3) == 1000;
      NatToStringLongueurMin(n, 3);
    }
  }

  /** Distinct counters give distinct candidates for one base. */
  lemma AvecCompteurInjective(base: string, m: nat, n: nat)
    requires AvecCompteur(base, m) == AvecCompteur(base, n)
    ensures m == n
  {
  }

  /** `generateLivreCode`: the category code, a dash, three digits. */
  function GenerateLivreCode(codeCategorie: string, tirage: nat): (s: string)
    requires tirage < 1000
    ensures |s| == |codeCategorie| + 4
    ensures s[..|codeCategorie|] == codeCategorie && s[|codeCategorie|] == '-'
    ensures AllDigits(s[|codeCategorie| + 1..]) && ParseDigits(s[|codeCategorie| + 1..]) == tirage
  {
    AvecCompteur(codeCategorie, tirage)
  }

  /** The base of the dated numbers: "FAC-yyyyMMdd" or "CMD-yyyyMMdd". */
  function BaseDatee(prefixe: string, today: CalendarDate): (b: string)
    ensures |b| == |prefixe| + 9
    ensures b[..|prefixe|] == prefixe && b[|prefixe|] == '-' && b[|prefixe| + 1..] == FormatYmd(today)
  {
    var b := prefixe + "-" + FormatYmd(today);
    assert b[|prefixe| + 1..] == FormatYmd(today);
    b
  }

  /** `CodeGenerator.generateNumeroFacture`: FAC-yyyyMMdd-NNN from a draw below 1000. */
  function GenerateNumeroFactureAleatoire(today: CalendarDate, tirage: nat): (s: string)
    requires tirage < 1000
    ensures |s| == 16
    ensures s[..4] == "FAC-" && s[4..12] == FormatYmd(today) && s[12] == '-'
    ensures AllDigits(s[13..]) && ParseDigits(s[13..]) == tirage
  {
    FormeFacture(today, tirage);
    AvecCompteur(BaseDatee("FAC", today), tirage)
  }

  /** The layout of "FAC-yyyyMMdd-" followed by a counter. */
  lemma FormeFacture(today: CalendarDate, n: nat)
    ensures var s := AvecCompteur(BaseDatee("FAC", today), n);
      && |s| >= 16 && s[..4] == "FAC-" && s[4..12] == FormatYmd(today) && s[12] == '-'
      && AllDigits(s[13..]) && ParseDigits(s[13..]) == n
      && (n < 1000 ==> |s| == 16)
  {
    var b := BaseDatee("FAC", today);
    var s := AvecCompteur(b, n);
    assert s[..4] == b[..4];
    assert s[4..12] == b[4..];
  }

  // ------------------------------------------------ first free counter

  /** The do/while loops of `generateUniqueLivreCode` and
      `generateNumeroCommande`: try the candidates for c = from, from+1, …,
      last and return the first counter whose candidate is not taken. */
  function PremierLibre(candidat: nat -> string, pris: set<string>, from: nat, last: nat): (r: Option<nat>)
    ensures r.Some? ==> from <= r.value <= last
    decreases last + 1 - from
  {
    if from > last then None
    else if candidat(from) !in pris then Some(from)
    else PremierLibre(candidat, pris, from + 1, last)
  }

  /** The counter found is free and every earlier candidate is taken; none
      is found exactly when every candidate in range is taken. */
  lemma {:induction false} PremierLibreSpec(candidat: nat -> string, pris: set<string>, from: nat, last: nat)
    ensures var r := PremierLibre(candidat, pris, from, last);
      && (r.Some? ==> candidat(r.value) !in pris
                      && forall k :: from <= k < r.value ==> candidat(k) in pris)
      && (r.None? <==> forall k :: from <= k <= last ==> candidat(k) in pris)
    decreases last + 1 - from
  {
    if from <= last && candidat(from) in pris {
      PremierLibreSpec(candidat, pris, from + 1, last);
    }
  }

  /** The candidates "base-001", "base-002", … of both loops. */
  function Candidats(base: string): nat -> string
  {
    (n: nat) => AvecCompteur(base, n)
  }

  /** The candidate for counter `n` is the formatted "base-NNN". */
  lemma CandidatsAvecCompteur(base: string)
    ensures forall n: nat :: Candidats(base)(n) == AvecCompteur(base, n)
  {
  }

  // ----------------------------------------------------- category code

  /** The characters `String.trim` strips: every code point up to the space. */
  predicate Blanc(c: char)
  {
    c <= ' '
  }

  function TrimDebut(s: string): (r: string)
    ensures |r| <= |s| && r == s[|s| - |r|..]
    ensures |r| > 0 ==> !Blanc(r[0])
    ensures forall k :: 0 <= k < |s| - |r| ==> Blanc(s[k])
  {
    if |s| > 0 && Blanc(s[0]) then
      var r := TrimDebut(s[1..]);
      assert forall k :: 1 <= k < |s| - |r| ==> s[k] == s[1..][k - 1];
      r
    else s
  }

  function TrimFin(s: string): (r: string)
    ensures |r| <= |s| && r == s[..|r|]
    ensures |r| > 0 ==> !Blanc(r[|r| - 1])
    ensures forall k :: |r| <= k < |s| ==> Blanc(s[k])
  {
    if |s| > 0 && Blanc(s[|s| - 1]) then
      var r := TrimFin(s[..|s| - 1]);
      assert forall k :: |r| <= k < |s| - 1 ==> s[k] == s[..|s| - 1][k];
      r
    else s
  }

  /** `s[i..j]` is what `trim` leaves: only blanks outside it, and it
      neither starts nor ends with a blank. */
  ghost predicate Rogne(s: string, i: int, j: int)
  {
    && 0 <= i <= j <= |s|
    && (forall k :: 0 <= k < i ==> Blanc(s[k]))
    && (forall k :: j <= k < |s| ==> Blanc(s[k]))
    && (i < j ==> !Blanc(s[i]) && !Blanc(s[j - 1]))
  }

  /** `String.trim`: the blanks at both ends are removed, and nothing else. */
  function Trim(s: string): (r: string)
    ensures |r| <= |s|
    ensures |r| > 0 ==> !Blanc(r[0]) && !Blanc(r[|r| - 1])
  {
    TrimFin(TrimDebut(s))
  }

  /** `trim` leaves a slice of the string with only blanks around it and
      no blank at either end. */
  lemma TrimRogne(s: string)
    ensures exists i, j :: Rogne(s, i, j) && Trim(s) == s[i..j]
  {
    var d := TrimDebut(s);
    var r := TrimFin(d);
    var i := |s| - |d|;
    assert r == s[i..i + |r|];
    assert Rogne(s, i, i + |r|);
  }

  /** Only one slice of a string has blanks alone around it and no blank
      at its ends: whatever slice satisfies that is `trim`'s result. */
  lemma TrimUnique(s: string, i: int, j: int)
    requires Rogne(s, i, j)
    ensures Trim(s) == s[i..j]
  {
    TrimRogne(s);
    var i0, j0 :| Rogne(s, i0, j0) && Trim(s) == s[i0..j0];
    RogneUnique(s, i, j, i0, j0);
  }

  lemma RogneUnique(s: string, i: int, j: int, i0: int, j0: int)
    requires Rogne(s, i, j) && Rogne(s, i0, j0)
    ensures s[i..j] == s[i0..j0]
  {
    if i < j {
      assert i0 < j0;
      assert i0 == i && j0 == j;
    } else {
      assert i0 == j0;
    }
  }

  /** Trimming twice changes nothing more. */
  lemma TrimIdempotent(s: string)
    ensures Trim(Trim(s)) == Trim(s)
  {
    var t := Trim(s);
    TrimUnique(t, 0, |t|);
    assert t[0..|t|] == t;
  }

  function Majuscule(c: char): string
  {
    var n := c as int;
    if 'a' <= c <= 'z' then [(n - 32) as char]
    else if 0xE0 <= n <= 0xFE && n != 0xF7 then [(n - 32) as char]
    else if n == 0xDF then "SS"
    else if n == 0x131 then "I"
    else if n == 0x17F then "S"
    else if n == 0x149 then [0x2BC as char, 'N']
    else if n == 0x1F0 then ['J', 0x30C as char]
    else if n == 0x1E96 then ['H', 0x331 as char]
    else if n == 0x1E97 then ['T', 0x308 as char]
    else if n == 0x1E98 then ['W', 0x30A as char]
    else if n == 0x1E99 then ['Y', 0x30A as char]
    else if n == 0x1E9A then ['A', 0x2BE as char]
    else if n == 0xFB00 then "FF"
    else if n == 0xFB01 then "FI"
    else if n == 0xFB02 then "FL"
    else if n == 0xFB03 then "FFI"
    else if n == 0xFB04 then "FFL"
    else if n == 0xFB05 || n == 0xFB06 then "ST"
    else [c]
  }

  /** The five `replaceAll` calls that fold accented capitals to plain vowels. */
  function SansAccent(c: char): char
  {
    var n := c as int;
    if n in {0xC0, 0xC2, 0xC4, 0xC1, 0xC3} then 'A'
    else if n in {0xC8, 0xCA, 0xCB, 0xC9} then 'E'
    else if n in {0xCC, 0xCE, 0xCF, 0xCD} then 'I'
    else if n in {0xD2, 0xD4, 0xD6, 0xD3, 0xD5} then 'O'
    else if n in {0xD9, 0xDB, 0xDC, 0xDA} then 'U'
    else c
  }

  predicate MajusculeAscii(c: char)
  {
    'A' <= c <= 'Z'
  }

  /** Fold the accents of an upper-cased text and keep only A-Z. */
  function Filtre(u: string): (r: string)
    ensures |r| <= |u|
    ensures forall k :: 0 <= k < |r| ==> MajusculeAscii(r[k])
  {
    if |u| == 0 then []
    else
      var c := SansAccent(u[0]);
      (if MajusculeAscii(c) then [c] else []) + Filtre(u[1..])
  }

  /** `f` applied to every character in turn, the results concatenated. */
  function ConcatMap(s: string, f: char -> string): string
  {
    if |s| == 0 then [] else f(s[0]) + ConcatMap(s[1..], f)
  }

  lemma {:induction false} ConcatMapConcat(a: string, b: string, f: char -> string)
    ensures ConcatMap(a + b, f) == ConcatMap(a, f) + ConcatMap(b, f)
  {
    if |a| == 0 {
      assert a + b == b;
    } else {
      ConcatMapConcat(a[1..], b, f);
      calc {
        ConcatMap(a + b, f);
        f((a + b)[0]) + ConcatMap((a + b)[1..], f);
        { assert (a + b)[1..] == a[1..] + b; assert (a + b)[0] == a[0]; }
        f(a[0]) + ConcatMap(a[1..] + b, f);
        f(a[0]) + (ConcatMap(a[1..], f) + ConcatMap(b, f));
        (f(a[0]) + ConcatMap(a[1..], f)) + ConcatMap(b, f);
      }
    }
  }

  /** The letters one character contributes. */
  function LettresDe(c: char): string
  {
    Filtre(Majuscule(c))
  }

  /** Upper-case, fold the accents, then drop everything outside A-Z. The
      upper case of a character may be longer than the character, so the
      letters may outnumber the characters of the name. */
  function Lettres(s: string): (r: string)
    ensures forall k :: 0 <= k < |r| ==> MajusculeAscii(r[k])
  {
    LettresEnMajuscules(s);
    ConcatMap(s, LettresDe)
  }

  lemma {:induction false} LettresEnMajuscules(s: string)
    ensures forall k :: 0 <= k < |ConcatMap(s, LettresDe)| ==> MajusculeAscii(ConcatMap(s, LettresDe)[k])
  {
    if |s| > 0 {
      LettresEnMajuscules(s[1..]);
      var x := LettresDe(s[0]);
      var y := ConcatMap(s[1..], LettresDe);
      assert ConcatMap(s, LettresDe) == x + y;
      forall k | 0 <= k < |x + y| ensures MajusculeAscii((x + y)[k]) {
        if k < |x| { assert (x + y)[k] == x[k]; } else { assert (x + y)[k] == y[k - |x|]; }
      }
    }
  }

  /** A name whose every character upper-cases to one character has no more
      letters than characters. */
  lemma {:induction false} LettresCourtes(s: string)
    requires forall k :: 0 <= k < |s| ==> |Majuscule(s[k])| == 1
    ensures |Lettres(s)| <= |s|
  {
    if |s| > 0 {
      assert forall k :: 0 <= k < |s| - 1 ==> s[1..][k] == s[k + 1];
      LettresCourtes(s[1..]);
      assert |LettresDe(s[0])| <= 1;
    }
  }

  /** The letters of a concatenation are the letters of each part: the
      upper case of a text is the upper case of its characters in turn. */
  lemma LettresConcat(a: string, b: string)
    ensures Lettres(a + b) == Lettres(a) + Lettres(b)
  {
    ConcatMapConcat(a, b, LettresDe);
  }

  /** A name made of capitals A-Z is its own list of letters. */
  lemma {:induction false} LettresDeMajuscules(s: string)
    requires forall k :: 0 <= k < |s| ==> MajusculeAscii(s[k])
    ensures Lettres(s) == s
  {
    if |s| > 0 {
      LettresDeMajuscules(s[1..]);
      LettresDeAscii(s[0]);
    }
  }

  /** The sharp s upper-cases to two letters: "ßa" gives "SSA". */
  lemma LettresEszett()
    ensures Lettres("ßa") == "SSA"
  {
    assert "ßa"[..1] == "ß";
    assert "ß"[..0] == "";
    assert Majuscule('ß') == "SS";
    assert "SS"[..1] == "S";
    assert "S"[..0] == "";
    assert Filtre("SS") == "SS";
    assert Lettres("ß") == "SS";
    assert Filtre("A") == "A" by { assert "A"[..0] == ""; }
  }

  /** The padding loop: append 'X' until four characters are reached. */
  function CompleterX(p: string): (r: string)
    ensures |p| <= 4 ==> |r| == 4 && r[..|p|] == p && forall k :: |p| <= k < 4 ==> r[k] == 'X'
    ensures |p| > 4 ==> r == p
    decreases 4 - |p|
  {
    if |p| >= 4 then p
    else
      var r := CompleterX(p + "X");
      assert r[..|p|] == (p + "X")[..|p|];
      r
  }

  function Min(a: int, b: int): int
  {
    if a <= b then a else b
  }

  /** The four-letter prefix exactly as written: the substring bound is
      taken from the length of the raw name, not of the filtered letters, so
      a name with fewer letters than min(4, length) makes `substring` throw,
      and a short name whose letters outnumber its characters keeps only as
      many letters as it has characters. The prefix does not depend on the
      draw. */
  function PrefixeTelQuEcrit(nom: string): (r: Result<string>)
    ensures r.Failure? <==> |Lettres(Trim(nom))| < Min(4, |nom|)
    ensures r.Failure? ==> r.error == IndexHorsLimites
    ensures r.Success? ==> |r.value| == 4 && forall k :: 0 <= k < 4 ==> MajusculeAscii(r.value[k])
  {
    var lettres := Lettres(Trim(nom));
    var n := Min(4, |nom|);
    if n > |lettres| then Failure(IndexHorsLimites)
    else
      var p := CompleterX(lettres[..n]);
      forall k | 0 <= k < 4 ensures MajusculeAscii(p[k]) {
        if k < n {
          assert p[k] == p[..n][k];
        }
      }
      Success(p)
  }

  /** `generateCategorieCode` exactly as written. */
  function GenerateCategorieCodeTelQuEcrit(nom: string, tirage: nat): (r: Result<string>)
    requires tirage < 1000
    ensures r.Failure? <==> PrefixeTelQuEcrit(nom).Failure?
    ensures r.Failure? ==> r.error == IndexHorsLimites
    ensures r.Success? ==> |r.value| == 7 && r.value[..4] == PrefixeTelQuEcrit(nom).value
                           && AllDigits(r.value[4..]) && ParseDigits(r.value[4..]) == tirage
  {
    match PrefixeTelQuEcrit(nom)
    case Failure(e) => Failure(e)
    case Success(p) =>
      assert (p + Pad3(tirage))[4..] == Pad3(tirage);
      Success(p + Pad3(tirage))
  }

  /** The prefix with the bound the padding loop evidently expects: at most
      four of the filtered letters, padded with 'X'. */
  function PrefixeCategorie(nom: string): (p: string)
    ensures |p| == 4
  {
    var lettres := Lettres(Trim(nom));
    CompleterX(lettres[..Min(4, |lettres|)])
  }

  /** `generateCategorieCode` corrected: the prefix, then the three-digit
      draw. It never fails. */
  function GenerateCategorieCode(nom: string, tirage: nat): (s: string)
    requires tirage < 1000
  {
    PrefixeCategorie(nom) + Pad3(tirage)
  }

  /** The corrected prefix: four capitals, the first four letters of the
      trimmed name, or all of them completed with 'X'. */
  lemma PrefixeCategorieForme(nom: string)
    ensures var p := PrefixeCategorie(nom);
      var lettres := Lettres(Trim(nom));
      && (forall k :: 0 <= k < 4 ==> MajusculeAscii(p[k]))
      && (|lettres| >= 4 ==> p == lettres[..4])
      && (|lettres| < 4 ==> p[..|lettres|] == lettres && forall k :: |lettres| <= k < 4 ==> p[k] == 'X')
  {
    var lettres := Lettres(Trim(nom));
    var n := Min(4, |lettres|);
    var p := CompleterX(lettres[..n]);
    forall k | 0 <= k < n ensures p[k] == lettres[k] {
      assert p[k] == p[..n][k];
    }
  }

  /** The corrected code is seven characters: four capitals taken from the
      name's letters (completed with 'X'), then the draw in three digits. */
  lemma GenerateCategorieCodeForme(nom: string, tirage: nat)
    requires tirage < 1000
    ensures var s := GenerateCategorieCode(nom, tirage);
      var lettres := Lettres(Trim(nom));
      && |s| == 7
      && (forall k :: 0 <= k < 4 ==> MajusculeAscii(s[k]))
      && (|lettres| >= 4 ==> s[..4] == lettres[..4])
      && (|lettres| < 4 ==> s[..|lettres|] == lettres && forall k :: |lettres| <= k < 4 ==> s[k] == 'X')
      && AllDigits(s[4..]) && ParseDigits(s[4..]) == tirage
  {
    var p := PrefixeCategorie(nom);
    var s := p + Pad3(tirage);
    PrefixeCategorieForme(nom);
    assert s[4..] == Pad3(tirage);
    assert s[..4] == p;
    assert forall k :: 0 <= k < 4 ==> s[k] == p[k];
    assert forall k :: 0 <= k < 4 ==> s[..k] == p[..k];
  }

  /** Where the written prefix does not throw, it is the corrected prefix
      unless the name is shorter than four characters and has more letters
      than characters. */
  lemma TelQuEcritAccordeQuandDefini(nom: string)
    ensures var r := PrefixeTelQuEcrit(nom);
      r.Success? && (4 <= |nom| || |Lettres(Trim(nom))| <= |nom|) ==> r.value == PrefixeCategorie(nom)
  {
    var lettres := Lettres(Trim(nom));
    if Min(4, |nom|) <= |lettres| && (4 <= |nom| || |lettres| <= |nom|) {
      assert Min(4, |nom|) == Min(4, |lettres|);
    }
  }

  /** Where the written generator does not throw and the name is not one of
      the short names above, it yields the corrected code. */
  lemma TelQuEcritAccordeCode(nom: string, tirage: nat)
    requires tirage < 1000
    ensures var r := GenerateCategorieCodeTelQuEcrit(nom, tirage);
      r.Success? && (4 <= |nom| || |Lettres(Trim(nom))| <= |nom|) ==> r.value == GenerateCategorieCode(nom, tirage)
  {
    TelQuEcritAccordeQuandDefini(nom);
  }

  /** The name "A B" has two letters but three characters: the written code
      throws where the corrected one gives "ABXX" and the draw. */
  lemma TelQuEcritEchouePourAB()
    ensures GenerateCategorieCodeTelQuEcrit("A B", 7) == Failure(IndexHorsLimites)
    ensures PrefixeCategorie("A B") == "ABXX"
  {
    LettresAB();
    assert |Lettres(Trim("A B"))| == 2;
    assert PrefixeTelQuEcrit("A B").Failure?;
    assert "AB"[..2] == "AB";
    assert CompleterX("AB") == "ABXX";
  }

  lemma LettresAB()
    ensures Lettres(Trim("A B")) == "AB"
  {
    TrimAB();
    LettresDeAscii('A');
    LettresDeAscii('B');
    LettresDeBlanc(' ');
  }

  lemma TrimAB()
    ensures Trim("A B") == "A B"
  {
    assert TrimDebut("A B") == "A B";
    assert TrimFin("A B") == "A B";
  }

  /** A capital A-Z contributes itself. */
  lemma LettresDeAscii(c: char)
    requires MajusculeAscii(c)
    ensures LettresDe(c) == [c]
  {
    assert Majuscule(c) == [c];
    assert [c][1..] == [];
  }

  /** A blank contributes no letter. */
  lemma LettresDeBlanc(c: char)
    requires Blanc(c)
    ensures LettresDe(c) == []
  {
    assert Majuscule(c) == [c];
    assert [c][1..] == [];
  }

  /** The one-character name "ß" has two letters "SS": the written code
      keeps one of them and pads "SXXX", where the corrected one gives
      "SSXX". */
  lemma TelQuEcritTronquePourEszett()
    ensures PrefixeTelQuEcrit("ß") == Success("SXXX")
    ensures PrefixeCategorie("ß") == "SSXX"
  {
    assert TrimDebut("ß") == "ß";
    assert TrimFin("ß") == "ß";
    assert "ß"[..0] == "";
    assert Majuscule('ß') == "SS";
    assert "SS"[..1] == "S";
    assert "S"[..0] == "";
    assert Filtre("SS") == "SS";
    assert Lettres("ß") == "SS";
    assert "SS"[..1] == "S";
    assert CompleterX("S") == "SXXX";
    assert CompleterX("SS") == "SSXX";
  }
}
