/**
 * auth.py: looking a user up by name and normalising the role so that the
 * `is_admin` flag and the `rol` text can never disagree in the session.
 */
module Auth {
  import opened Wrappers
  import opened Text

  /** A value of the `is_admin` column as the database driver returns it. */
  datatype Flag = Number(n: int) | Word(w: string)

  /** Python's `str(val)`. */
  function Render(f: Flag): string
  {
    match f
    case Number(n) => IntToString(n)
    case Word(w) => w
  }

  const TrueWords: set<string> := {"1", "true", "t", "yes", "y", "si", "s\U{ED}"}

  /** `_to_bool`: missing is false; otherwise the stripped, lower-cased text is one of the true words. */
  predicate ToBool(v: Option<Flag>)
  {
    v.Some? && Normalize(Render(v.value)) in TrueWords
  }

  /** A number is true exactly when it is 1. */
  lemma ToBoolNumber(n: int)
    ensures ToBool(Some(Number(n))) <==> n == 1
  {
    var s := IntToString(n);
    NumeralNormal(n);
    NumeralChars(n);
    NumeralNotAWord(s);
    NumeralOne(n);
  }

  /** `str(n)` has no spaces or capitals to remove. */
  lemma NumeralNormal(n: int)
    ensures Normalize(IntToString(n)) == IntToString(n)
  {
    NumeralChars(n);
    NormalizeFixed(IntToString(n));
  }

  /** `str(n) == "1"` exactly when `n == 1`. */
  lemma NumeralOne(n: int)
    ensures IntToString(n) == "1" <==> n == 1
  {
    if IntToString(n) == "1" {
      ParseIntToString(n);
      ParseOne();
    }
  }

  /** `str(n)` is a minus sign and digits. */
  lemma NumeralChars(n: int)
    ensures IntToString(n) != []
    ensures forall i :: 0 <= i < |IntToString(n)| ==> IntToString(n)[i] == '-' || '0' <= IntToString(n)[i] <= '9'
  {
    var s := IntToString(n);
    forall i | 0 <= i < |s|
      ensures s[i] == '-' || '0' <= s[i] <= '9'
    {
      if n < 0 && i > 0 {
        assert s[i] == DecimalString(-n)[i - 1];
      }
    }
  }

  /** The only true word that starts like a numeral is "1". */
  lemma NumeralNotAWord(s: string)
    requires s != [] && (s[0] == '-' || '0' <= s[0] <= '9')
    ensures s in TrueWords <==> s == "1"
  {
  }

  lemma ParseOne()
    ensures ParseInt("1") == 1
  {
    assert "1"[..0] == [];
  }

  /** Spacing and capitals around a textual flag do not change it. */
  lemma ToBoolNormalized(w: string)
    ensures ToBool(Some(Word(w))) == ToBool(Some(Word(Normalize(w))))
  {
    NormalizeIdempotent(w);
  }

  /** A row of `usuarios` (the columns `verify_user` selects). */
  datatype UserRow = UserRow(id: int, username: string, password: string, rol: Option<string>, isAdmin: Option<Flag>)

  /** The dictionary `verify_user` returns. */
  datatype Session = Session(id: int, username: string, isAdmin: int, rol: string)

  /** The flag decides, and the role text can only promote: `str(rol or "").strip().lower() == "admin"`. */
  predicate IsAdmin(u: UserRow)
  {
    ToBool(u.isAdmin) || Normalize(if u.rol.Some? then u.rol.value else "") == "admin"
  }

  /** The normalised session of a row. */
  function SessionOf(u: UserRow): (s: Session)
    ensures s.id == u.id && s.username == u.username
    ensures s.isAdmin == 1 <==> IsAdmin(u)
    ensures s.isAdmin == 0 || s.isAdmin == 1
    ensures s.rol == "admin" <==> s.isAdmin == 1
    ensures s.rol == "admin" || s.rol == "jugador"
  {
    var admin := IsAdmin(u);
    Session(u.id, u.username, if admin then 1 else 0, if admin then "admin" else "jugador")
  }

  /** The position of the first row with that user name (`LIMIT 1`). */
  function FindUser(users: seq<UserRow>, name: string): (r: Option<nat>)
    ensures r.None? <==> forall i :: 0 <= i < |users| ==> users[i].username != name
    ensures r.Some? ==> r.value < |users| && users[r.value].username == name
    ensures r.Some? ==> forall j :: 0 <= j < r.value ==> users[j].username != name
  {
    if users == [] then None
    else if users[0].username == name then Some(0)
    else
      match FindUser(users[1..], name)
      case None => None
      case Some(k) => Some(k + 1)
  }

  /** `verify_user`: the session of the first row with that name, or nothing when there is none. */
  function VerifyUser(users: seq<UserRow>, name: string): (r: Option<Session>)
    ensures r.None? <==> forall i :: 0 <= i < |users| ==> users[i].username != name
    ensures r.Some? ==> exists i :: 0 <= i < |users| && users[i].username == name && r.value == SessionOf(users[i])
    ensures r.Some? ==> r.value.username == name
  {
    match FindUser(users, name)
    case None => None
    case Some(i) => Some(SessionOf(users[i]))
  }

  /** A session written back as a row normalises to itself. */
  lemma SessionStable(s: Session, password: string)
    requires s.rol == "admin" <==> s.isAdmin == 1
    requires s.rol == "admin" || s.rol == "jugador"
    requires s.isAdmin == 0 || s.isAdmin == 1
    ensures SessionOf(UserRow(s.id, s.username, password, Some(s.rol), Some(Number(s.isAdmin)))) == s
  {
    ToBoolNumber(s.isAdmin);
    RoleWords();
  }

  /** Without a flag, a role the schema admits is kept as it is. */
  lemma RoleKept(u: UserRow)
    requires u.isAdmin.None?
    requires u.rol == Some("admin") || u.rol == Some("jugador")
    ensures SessionOf(u).rol == u.rol.value
  {
    RoleWords();
  }

  /** The two roles of the schema are already in normal form. */
  lemma RoleWords()
    ensures Normalize("admin") == "admin" && Normalize("jugador") == "jugador"
  {
    NormalizeFixed("admin");
    NormalizeFixed("jugador");
  }
}
