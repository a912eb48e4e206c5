/** registerUser of user.controllers.js: validation, the duplicate check and the stored record. */
module Registration {
  import opened Results
  import opened Documents
  import opened Text
  import opened Records
  import opened Rules

  /** The request body fields registration reads. */
  datatype Form = Form(username: string, email: string, fullName: string, password: string)

  predicate ValidForm(f: Form) {
    ValidUsername(f.username) && ValidEmail(f.email) && ValidFullName(f.fullName) && ValidPassword(f.password)
  }

  /** validatedData.data: the values after zod's transforms (trimmed, email lowercased, password untouched). */
  function Normalised(f: Form): (n: Form)
    ensures n.username == Trim(f.username) && n.email == ToLower(Trim(f.email))
    ensures n.fullName == Trim(f.fullName) && n.password == f.password
  {
    Form(Trim(f.username), ToLower(Trim(f.email)), Trim(f.fullName), f.password)
  }

  /** User.findOne({ $or: [{ username }, { email }] }) with the normalised, not lowercased, username. */
  predicate Conflicts(users: seq<Doc<User>>, n: Form) {
    exists k | 0 <= k < |users| :: users[k].body.username == n.username || users[k].body.email == n.email
  }

  /** The record User.create receives: the username lowercased, the cover image URL or "". */
  function NewUser(n: Form, avatar: Asset, cover: Option<Asset>): (u: User)
    ensures u.username == ToLower(n.username) && u.email == n.email && u.fullName == n.fullName
    ensures u.password == n.password && u.avatar == avatar.url && u.refreshToken.None?
    ensures u.coverImage == (if cover.Some? then cover.value.url else "")
  {
    User(ToLower(n.username), n.email, n.fullName, n.password, avatar.url,
         if cover.Some? then cover.value.url else "", None)
  }

  /**
   * registerUser up to the insertion: 400 for an invalid body, 409 for a duplicate, 400 without an
   * avatar file or when its upload yields no URL, else the record to store. A failed cover upload
   * leaves the cover image empty.
   */
  function Register(users: seq<Doc<User>>, f: Form, avatarFile: bool, avatar: Option<Asset>, cover: Option<Asset>)
    : (r: Result<User>)
    ensures r == Err(Conflict) <==> ValidForm(f) && Conflicts(users, Normalised(f))
    ensures r == Err(BadRequest) <==>
      !ValidForm(f) || (!Conflicts(users, Normalised(f)) && !(avatarFile && Uploaded(avatar)))
    ensures r.Ok? ==> ValidForm(f) && !Conflicts(users, Normalised(f)) && avatarFile && Uploaded(avatar)
    ensures r.Ok? ==> r.value == NewUser(Normalised(f), avatar.value, cover)
    ensures r.Ok? ==> ValidUsername(r.value.username) && HasNoUpper(r.value.username)
  {
    if !ValidForm(f) then Err(BadRequest)
    else if Conflicts(users, Normalised(f)) then Err(Conflict)
    else if !avatarFile || !Uploaded(avatar) then Err(BadRequest)
    else
      StoredUsernameValid(f);
      Ok(NewUser(Normalised(f), avatar.value, cover))
  }

  /** Lowercasing a valid username keeps it valid: letters stay letters and the length is unchanged. */
  lemma {:induction false} StoredUsernameValid(f: Form)
    requires ValidUsername(f.username)
    ensures ValidUsername(ToLower(Trim(f.username)))
  {
    var t := Trim(f.username);
    var l := ToLower(t);
    LowerKeepsUsernameChars(t);
    assert IsUsernameChar(l[0]) && IsUsernameChar(l[|l| - 1]);
    TrimKeepsUnpadded(l);
  }

  lemma {:induction false} LowerKeepsUsernameChars(t: string)
    requires forall i | 0 <= i < |t| :: IsUsernameChar(t[i])
    ensures forall i | 0 <= i < |t| :: IsUsernameChar(ToLower(t)[i])
  {
    var l := ToLower(t);
    forall i | 0 <= i < |l| ensures IsUsernameChar(l[i]) {
      assert IsUsernameChar(t[i]);
    }
  }

  /**
   * The duplicate check compares the username as typed while the store holds it lowercased: a
   * username with an upper-case letter never matches a stored one, so only the email can block it.
   */
  lemma UppercaseUsernameNeverMatches(users: seq<Doc<User>>, f: Form)
    requires forall k | 0 <= k < |users| :: HasNoUpper(users[k].body.username)
    requires exists i | 0 <= i < |Trim(f.username)| :: IsUpper(Trim(f.username)[i])
    ensures Conflicts(users, Normalised(f)) <==>
      exists k | 0 <= k < |users| :: users[k].body.email == ToLower(Trim(f.email))
  {
    forall k | 0 <= k < |users| ensures users[k].body.username != Trim(f.username) {
      UpperDistinguishes(Trim(f.username), users[k].body.username);
    }
  }

  /**
   * An account "alice" exists; a valid registration of "Alice" under another email passes the
   * duplicate check and produces a second record whose stored username is again "alice".
   */
  lemma DuplicateUsernameAfterLowercasing(
    id: Id, existing: User, f: Form, avatar: Asset, cover: Option<Asset>)
    requires existing.username == "alice"
    requires f.username == "Alice" && ValidForm(f) && existing.email != ToLower(Trim(f.email))
    requires avatar.url != []
    ensures Register([Doc(id, 0, existing)], f, true, Some(avatar), cover).Ok?
    ensures Register([Doc(id, 0, existing)], f, true, Some(avatar), cover).value.username == existing.username
  {
    AliceNotConflicting(id, existing, f);
    AliceTrimsAndLowers();
    assert Uploaded(Some(avatar));
    assert NewUser(Normalised(f), avatar, cover).username == "alice";
  }

  lemma AliceNotConflicting(id: Id, existing: User, f: Form)
    requires existing.username == "alice"
    requires f.username == "Alice" && existing.email != ToLower(Trim(f.email))
    ensures !Conflicts([Doc(id, 0, existing)], Normalised(f))
  {
    AliceTrimsAndLowers();
    assert Normalised(f).username == "Alice";
    assert existing.username[0] != "Alice"[0];
  }

  lemma AliceTrimsAndLowers()
    ensures Trim("Alice") == "Alice" && ToLower("Alice") == "alice"
  {
    TrimKeepsUnpadded("Alice");
    AliceLowers();
  }

  lemma AliceLowers()
    ensures ToLower("Alice") == "alice"
  {
  }

  /** The registered user as sent back: every stored field except password and refreshToken. */
  datatype PublicUser = PublicUser(
    id: Id, username: string, email: string, fullName: string, avatar: string, coverImage: string, createdAt: nat)

  /** findById(...).select("-password -refreshToken"). */
  function PublicView(d: Doc<User>): (p: PublicUser)
    ensures p.id == d.id && p.createdAt == d.createdAt
    ensures p.username == d.body.username && p.email == d.body.email && p.fullName == d.body.fullName
    ensures p.avatar == d.body.avatar && p.coverImage == d.body.coverImage
  {
    PublicUser(d.id, d.body.username, d.body.email, d.body.fullName, d.body.avatar, d.body.coverImage, d.createdAt)
  }

  /** The response does not depend on the password or the refresh token. */
  lemma PublicViewHidesSecrets(d: Doc<User>, password: string, token: Option<string>)
    ensures PublicView(d.(body := d.body.(password := password, refreshToken := token))) == PublicView(d)
  {
  }
}
