/** Users (UserService): the temporary-password generator and its shuffle,
    and the guards of profile editing, password change and password reset.
    The password encoder is a pair of opaque functions; random draws are
    inputs. */
module Utilisateurs {
  import opened Common

  datatype User = User(
    id: Id,
    nomComplet: string,
    email: string,
    motDePasse: string,
    premiereConnexion: bool,
    motDePasseTemporaire: bool)

  type Users = map<Id, User>

  /** The PasswordEncoder: `encode` hashes a raw password, `matches(raw, hash)`
      checks one against a stored hash. */
  datatype Encodeur = Encodeur(encode: string -> string, matches: (string, string) -> bool)

  /** What any sound encoder guarantees: a password matches its own hash. */
  ghost predicate Coherent(enc: Encodeur)
  {
    forall raw :: enc.matches(raw, enc.encode(raw))
  }

  // ------------------------------------------------------------ passwords

  const Majuscules: string := "ABCDEFGHIJKLMNOPQRSTUVWXYZ"
  const Minuscules: string := "abcdefghijklmnopqrstuvwxyz"
  const Chiffres: string := "0123456789"
  const Speciaux: string := "@#$%&*"

  /** The CHARACTERS alphabet: the 26 capitals, the 26 small letters, the
      10 digits and the 6 special characters, in that order (68 in all). */
  const Characters: string := Majuscules + Minuscules + Chiffres + Speciaux

  /** `(char) (n + 'A')`, `(char) (n + 'a')`, `(char) (n + '0')` for a draw
      reduced to its bound. */
  function Decale(base: char, n: nat, borne: nat): (c: char)
    requires 0 < borne <= 26 && (base == 'A' || base == 'a' || base == '0')
    ensures base as int <= c as int < base as int + borne
  {
    (base as int + n % borne) as char
  }

  lemma {:induction false} DecaleDansAlphabet(n: nat)
    ensures Decale('A', n, 26) in Majuscules
    ensures Decale('a', n, 26) in Minuscules
    ensures Decale('0', n, 10) in Chiffres
  {
    var i := n % 26;
    assert Majuscules[i] == Decale('A', n, 26);
    assert Minuscules[i] == Decale('a', n, 26);
    var j := n % 10;
    assert Chiffres[j] == Decale('0', n, 10);
  }

  /** The draws of one `generateSecurePassword` call: one per forced class,
      `autres(k)` for the k-th filler (k = 4..11), `melange(i)` for the swap
      at position i of the shuffle. */
  datatype Tirages = Tirages(maj: nat, min: nat, chiffre: nat, special: nat,
                             autres: nat -> nat, melange: nat -> nat)

  /** The twelve characters before shuffling. */
  function Brut(t: Tirages): (s: string)
    ensures |s| == 12
    ensures s[0] in Majuscules && s[1] in Minuscules && s[2] in Chiffres && s[3] in Speciaux
    ensures forall k :: 0 <= k < 12 ==> s[k] in Characters
  {
    DecaleDansAlphabet(t.maj);
    DecaleDansAlphabet(t.min);
    DecaleDansAlphabet(t.chiffre);
    [Decale('A', t.maj, 26), Decale('a', t.min, 26), Decale('0', t.chiffre, 10), Speciaux[t.special % 6]]
      + seq(8, (k: int) requires 0 <= k < 8 => Characters[t.autres(k + 4) % 68])
  }

  lemma EchangeMultiset(s: string, i: nat, j: nat)
    requires i < |s| && j < |s|
    ensures multiset(s[i := s[j]][j := s[i]]) == multiset(s)
  {
  }

  /** `shuffleString`: Fisher-Yates from the last position down to 1,
      swapping position i with the drawn j in [0, i]. */
  method ShuffleString(s: string, melange: nat -> nat) returns (r: string)
    ensures |r| == |s|
    ensures multiset(r) == multiset(s)
  {
    r := s;
    var i := |s| - 1;
    while i > 0
      invariant |r| == |s|
      invariant multiset(r) == multiset(s)
      invariant i < |s|
    {
      var j := melange(i) % (i + 1);
      EchangeMultiset(r, i, j);
      r := r[i := r[j]][j := r[i]];
      i := i - 1;
    }
  }

  /** `generateSecurePassword`: twelve characters of CHARACTERS including an
      upper-case letter, a lower-case letter, a digit and a special character. */
  method GenerateSecurePassword(t: Tirages) returns (p: string)
    ensures |p| == 12
    ensures forall c :: c in p ==> c in Characters
    ensures exists c :: c in p && c in Majuscules
    ensures exists c :: c in p && c in Minuscules
    ensures exists c :: c in p && c in Chiffres
    ensures exists c :: c in p && c in Speciaux
  {
    var b := Brut(t);
    p := ShuffleString(b, t.melange);
    assert forall c :: c in p <==> c in multiset(b);
    assert b[0] in b && b[1] in b && b[2] in b && b[3] in b;
    forall c | c in p ensures c in Characters {
      var k :| 0 <= k < 12 && b[k] == c;
    }
  }

  // -------------------------------------------------------------- service

  /** `findByEmail(...).isPresent()`. */
  predicate EmailPris(users: Users, email: string)
  {
    exists a :: a in users && users[a].email == email
  }

  ghost predicate EmailsUniques(users: Users)
  {
    forall a, b :: a in users && b in users && users[a].email == users[b].email ==> a == b
  }

  /** `updateProfil` for the acting user `courant`: a changed e-mail already
      held by a user is refused; the name and e-mail are overwritten. */
  function UpdateProfil(users: Users, courant: Id, nomComplet: string, email: string): (r: Result<Users>)
    ensures courant !in users ==> r == Failure(NotFound(UtilisateurEntity))
    ensures courant in users ==>
      (r.Failure? <==> users[courant].email != email && EmailPris(users, email))
    ensures r.Failure? && courant in users ==> r.error == BadRequest(EmailDejaUtilise)
    ensures r.Success? ==>
      && courant in users && courant in r.value && r.value == users[courant := r.value[courant]]
      && r.value[courant] == users[courant].(nomComplet := nomComplet, email := email)
  {
    if courant !in users then Failure(NotFound(UtilisateurEntity))
    else
      var u := users[courant];
      if u.email != email && EmailPris(users, email) then Failure(BadRequest(EmailDejaUtilise))
      else Success(users[courant := u.(nomComplet := nomComplet, email := email)])
  }

  /** Profile editing keeps e-mail addresses unique. */
  lemma UpdateProfilPreserve(users: Users, courant: Id, nomComplet: string, email: string)
    requires EmailsUniques(users)
    ensures var r := UpdateProfil(users, courant, nomComplet, email);
      r.Success? ==> EmailsUniques(r.value)
  {
  }

  /** `changePassword` for the acting user: the old password must match,
      the new one must not match the current hash, and the confirmation must
      equal the new one, checked in that order; on success the hash of the
      new password is stored and both flags are cleared. */
  function ChangePassword(users: Users, courant: Id, enc: Encodeur,
                          ancien: string, nouveau: string, confirmation: string): (r: Result<Users>)
    ensures courant !in users ==> r == Failure(NotFound(UtilisateurEntity))
    ensures courant in users ==>
      var h := users[courant].motDePasse;
      && (!enc.matches(ancien, h) ==> r == Failure(BadRequest(AncienMotDePasseIncorrect)))
      && (enc.matches(ancien, h) && enc.matches(nouveau, h) ==> r == Failure(BadRequest(MotDePasseIdentique)))
      && (enc.matches(ancien, h) && !enc.matches(nouveau, h) && nouveau != confirmation ==>
            r == Failure(BadRequest(ConfirmationDifferente)))
      && (r.Success? <==> enc.matches(ancien, h) && !enc.matches(nouveau, h) && nouveau == confirmation)
    ensures r.Success? ==>
      && courant in users && courant in r.value && r.value == users[courant := r.value[courant]]
      && r.value[courant].motDePasse == enc.encode(nouveau)
      && !r.value[courant].premiereConnexion && !r.value[courant].motDePasseTemporaire
      && r.value[courant].(motDePasse := users[courant].motDePasse,
                           premiereConnexion := users[courant].premiereConnexion,
                           motDePasseTemporaire := users[courant].motDePasseTemporaire) == users[courant]
  {
    if courant !in users then Failure(NotFound(UtilisateurEntity))
    else
      var u := users[courant];
      if !enc.matches(ancien, u.motDePasse) then Failure(BadRequest(AncienMotDePasseIncorrect))
      else if enc.matches(nouveau, u.motDePasse) then Failure(BadRequest(MotDePasseIdentique))
      else if nouveau != confirmation then Failure(BadRequest(ConfirmationDifferente))
      else Success(users[courant := u.(motDePasse := enc.encode(nouveau), premiereConnexion := false,
                                       motDePasseTemporaire := false)])
  }

  /** With a sound encoder the new password then opens the account, and
      sending the same request again is refused: either the old password no
      longer matches or the new one now does. */
  lemma ChangePasswordPuisRepeter(users: Users, courant: Id, enc: Encodeur,
                                  ancien: string, nouveau: string, confirmation: string)
    requires Coherent(enc)
    ensures var r := ChangePassword(users, courant, enc, ancien, nouveau, confirmation);
      r.Success? ==>
        && enc.matches(nouveau, r.value[courant].motDePasse)
        && ChangePassword(r.value, courant, enc, ancien, nouveau, confirmation).Failure?
  {
    var r := ChangePassword(users, courant, enc, ancien, nouveau, confirmation);
    if r.Success? {
      assert enc.matches(nouveau, enc.encode(nouveau));
    }
  }

  /** Changing the password keeps e-mail addresses unique and the set of users. */
  lemma ChangePasswordPreserve(users: Users, courant: Id, enc: Encodeur,
                               ancien: string, nouveau: string, confirmation: string)
    requires EmailsUniques(users)
    ensures var r := ChangePassword(users, courant, enc, ancien, nouveau, confirmation);
      r.Success? ==> EmailsUniques(r.value) && r.value.Keys == users.Keys
  {
  }

  datatype Reinitialisation = Reinitialisation(users: Users, motDePasseTemporaire: string)

  /** `resetPassword`: a fresh generated password is hashed and stored, both
      flags are raised, and the clear password is returned to the caller. */
  method ResetPassword(users: Users, userId: Id, enc: Encodeur, t: Tirages) returns (r: Result<Reinitialisation>)
    ensures userId !in users ==> r == Failure(NotFound(UtilisateurEntity))
    ensures userId in users ==> r.Success?
    ensures r.Success? ==> userId in users && userId in r.value.users
    ensures r.Success? && userId in r.value.users ==>
      var u := r.value.users[userId];
      var p := r.value.motDePasseTemporaire;
      && userId in users && r.value.users == users[userId := u]
      && |p| == 12 && (forall c :: c in p ==> c in Characters)
      && u.motDePasse == enc.encode(p)
      && u.premiereConnexion && u.motDePasseTemporaire
      && u.(motDePasse := users[userId].motDePasse, premiereConnexion := users[userId].premiereConnexion,
            motDePasseTemporaire := users[userId].motDePasseTemporaire) == users[userId]
    ensures Coherent(enc) && r.Success? && userId in r.value.users ==>
      enc.matches(r.value.motDePasseTemporaire, r.value.users[userId].motDePasse)
  {
    if userId !in users {
      return Failure(NotFound(UtilisateurEntity));
    }
    var p := GenerateSecurePassword(t);
    var u := users[userId].(motDePasse := enc.encode(p), premiereConnexion := true, motDePasseTemporaire := true);
    r := Success(Reinitialisation(users[userId := u], p));
  }

  /** With a sound encoder, the temporary password a reset hands out lets
      the user choose a new password: the change is accepted exactly when
      the new password does not match the temporary hash and is confirmed,
      and it lowers both flags. */
  lemma TemporairePuisChanger(users: Users, userId: Id, enc: Encodeur, temporaire: string,
                              nouveau: string, confirmation: string)
    requires Coherent(enc)
    requires userId in users && users[userId].motDePasse == enc.encode(temporaire)
    ensures var r := ChangePassword(users, userId, enc, temporaire, nouveau, confirmation);
      && (r.Success? <==> !enc.matches(nouveau, enc.encode(temporaire)) && nouveau == confirmation)
      && (r.Success? ==> !r.value[userId].premiereConnexion && !r.value[userId].motDePasseTemporaire
                         && enc.matches(nouveau, r.value[userId].motDePasse))
  {
    assert enc.matches(temporaire, enc.encode(temporaire));
    assert enc.matches(nouveau, enc.encode(nouveau));
  }
}
