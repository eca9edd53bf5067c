/** `SessionManager`: per-user session dictionaries kept encrypted in a
    session directory, under a key that is read from the directory's key file
    or generated and written there once. Fernet is modelled symbolically: a
    token records the key it was made under and the plaintext, and only that
    key opens it. */
module Sessions {
  import opened Common

  type Key = seq<int>

  /** The JSON values a session dictionary holds, as far as the manager
      looks at them. */
  datatype Value = Num(n: int) | Flag(b: bool) | Text(s: string) | Other

  /** The number Python compares a value as: booleans are 0 and 1; other
      non-numbers make the comparison raise `TypeError`. */
  function NumericOf(v: Value): (r: Option<int>)
    ensures v.Num? ==> r == Some(v.n)
    ensures v.Flag? ==> r == Some(if v.b then 1 else 0)
    ensures r.None? <==> v.Text? || v.Other?
  {
    match v
    case Num(n) => Some(n)
    case Flag(b) => Some(if b then 1 else 0)
    case _ => None
  }

  type SessionData = map<string, Value>

  /** Decrypted bytes: the JSON text of a session dictionary, or bytes that
      `json.loads` (or UTF-8 decoding) rejects. */
  datatype Plain = Json(data: SessionData) | NotJson

  /** A session file's content: a token made under some key, or bytes that
      are no token at all. */
  datatype Blob = Token(key: Key, plain: Plain) | Garbage

  /** The session directory: the key file and one file per user. */
  datatype SessionDir = SessionDir(keyFile: Option<Key>, files: map<string, Blob>)

  /** A constructed manager: the key in use and the directory. */
  datatype Manager = Manager(key: Key, dir: SessionDir)

  /** `cipher_suite.encrypt`: the token opens under the same key. */
  function Encrypt(key: Key, p: Plain): (b: Blob)
    ensures Decrypt(key, b) == Some(p)
  {
    Token(key, p)
  }

  /** `cipher_suite.decrypt`: `None` for a token made under another key and
      for bytes that are no token. */
  function Decrypt(key: Key, b: Blob): (r: Option<Plain>)
    ensures r.Some? <==> b.Token? && b.key == key
    ensures r.Some? ==> b == Token(key, r.value)
  {
    match b
    case Token(k, p) => if k == key then Some(p) else None
    case Garbage => None
  }

  lemma DecryptEncrypt(key: Key, p: Plain)
    ensures Decrypt(key, Encrypt(key, p)) == Some(p)
  {
  }

  /** A token never opens under a different key. */
  lemma DecryptOtherKey(key: Key, other: Key, p: Plain)
    requires other != key
    ensures Decrypt(other, Encrypt(key, p)) == None
  {
  }

  /** The constructor's key setup: an existing key file is read and reused;
      only when there is none is `generated` (the generated key) used and
      written. */
  function Setup(dir: SessionDir, generated: Key): (m: Manager)
    ensures m.dir.keyFile == Some(m.key)
    ensures m.dir.files == dir.files
    ensures dir.keyFile.Some? ==> m.key == dir.keyFile.value && m.dir == dir
    ensures dir.keyFile.None? ==> m.key == generated
  {
    match dir.keyFile
    case Some(k) => Manager(k, dir)
    case None => Manager(generated, dir.(keyFile := Some(generated)))
  }

  /** `save_session`: overwrite the user's file with the encrypted JSON. */
  function SaveSession(m: Manager, user: string, data: SessionData): (r: Manager)
    ensures r.key == m.key && r.dir.keyFile == m.dir.keyFile
    ensures r.dir.files.Keys == m.dir.files.Keys + {user}
    ensures forall u :: u in m.dir.files && u != user ==> r.dir.files[u] == m.dir.files[u]
  {
    m.(dir := m.dir.(files := m.dir.files[user := Encrypt(m.key, Json(data))]))
  }

  /** `load_session`: `None` when the user has no file, and `None` rather
      than garbage when decryption or JSON decoding fails. */
  function LoadSession(m: Manager, user: string): (r: Option<SessionData>)
    ensures user !in m.dir.files ==> r == None
    ensures r.Some? ==> user in m.dir.files && m.dir.files[user] == Encrypt(m.key, Json(r.value))
  {
    if user !in m.dir.files then None
    else
      match Decrypt(m.key, m.dir.files[user])
      case Some(Json(data)) => Some(data)
      case _ => None
  }

  /** `delete_session`: remove the user's file if there is one. */
  function DeleteSession(m: Manager, user: string): (r: Manager)
    ensures r.key == m.key && r.dir.keyFile == m.dir.keyFile
    ensures r.dir.files.Keys == m.dir.files.Keys - {user}
    ensures forall u :: u in r.dir.files ==> r.dir.files[u] == m.dir.files[u]
    ensures user !in m.dir.files ==> r == m
  {
    if user in m.dir.files then m.(dir := m.dir.(files := m.dir.files - {user})) else m
  }

  /** Saving then loading the same user gives back the saved data; other
      users' sessions load as before. */
  lemma SaveThenLoad(m: Manager, user: string, data: SessionData, other: string)
    requires other != user
    ensures LoadSession(SaveSession(m, user, data), user) == Some(data)
    ensures LoadSession(SaveSession(m, user, data), other) == LoadSession(m, other)
  {
  }

  /** After a delete the user has no stored session; the others keep theirs. */
  lemma DeleteThenLoad(m: Manager, user: string, other: string)
    requires other != user
    ensures LoadSession(DeleteSession(m, user), user) == None
    ensures LoadSession(DeleteSession(m, user), other) == LoadSession(m, other)
  {
  }

  /** A restart reads the key file written by the first start, whatever key
      it would generate, so sessions saved before the restart still load. */
  lemma SessionSurvivesRestart(dir: SessionDir, generated1: Key, generated2: Key, user: string, data: SessionData)
    ensures var m := SaveSession(Setup(dir, generated1), user, data);
            var m' := Setup(m.dir, generated2);
            m'.key == m.key && LoadSession(m', user) == Some(data)
  {
  }

  /** The hazard the key file guards against: a manager holding any other
      key reads no session saved under the old one. */
  lemma RegeneratedKeyLosesSessions(m: Manager, user: string, data: SessionData, other: Key)
    requires other != m.key
    ensures LoadSession(Manager(other, SaveSession(m, user, data).dir), user) == None
  {
  }

  const ExpiryKey: string := "expiry"

  /** `is_session_valid` at clock reading `now`: false for no data or no
      `expiry`, false once `now` is past the expiry, and a `TypeError` when
      the expiry is not a number. */
  function IsSessionValid(data: Option<SessionData>, now: int): (r: Outcome<bool>)
    ensures r == Ok(true) <==> data.Some? && ExpiryKey in data.value && NumericOf(data.value[ExpiryKey]).Some?
                                 && now <= NumericOf(data.value[ExpiryKey]).value
    ensures r.Raised? <==> data.Some? && ExpiryKey in data.value && NumericOf(data.value[ExpiryKey]).None?
  {
    match data
    case None => Ok(false)
    case Some(d) =>
      if d == map[] || ExpiryKey !in d then Ok(false)
      else
        match NumericOf(d[ExpiryKey])
        case Some(expiry) => Ok(!(now > expiry))
        case None => Raised
  }

  /** A session is still valid at its expiry instant and invalid one second
      later; validity only ever turns from true to false as time passes. */
  lemma ExpiryBoundary(data: SessionData, expiry: int, now: int, later: int)
    requires ExpiryKey in data && data[ExpiryKey] == Num(expiry)
    requires now <= later
    ensures IsSessionValid(Some(data), expiry) == Ok(true)
    ensures IsSessionValid(Some(data), expiry + 1) == Ok(false)
    ensures IsSessionValid(Some(data), later) == Ok(true) ==> IsSessionValid(Some(data), now) == Ok(true)
  {
  }
}
