/** The `User` collection: the record shape of the user schema and the
    document-store operations the auth controller performs on it. */
module UserModel {
  import opened Wrappers
  import opened JsStrings
  import opened Jwt
  import opened PasswordHash

  /** The string form of a document's `_id`. */
  type UserId = string

  /** A stored user document. `refreshTokens` holds the refresh tokens of the
      user's live sessions, in the order they were pushed, duplicates included. */
  datatype User = User(
    id: UserId,
    email: string,
    password: Hash,
    username: string,
    profilePicture: Option<string>,
    refreshTokens: seq<Token>)

  /** The collection in natural (insertion) order, which is the order in
      which `findOne` and `findById` meet documents. */
  type Store = seq<User>

  /** What the schema guarantees of every stored document: a non-empty
      lower-case email and a non-empty username. */
  predicate WellFormed(u: User) {
    u.email != "" && IsLower(u.email) && u.username != ""
  }

  /** The collection invariant: every document well formed, and both `_id`
      and the unique-indexed `email` distinct across documents. */
  predicate Valid(st: Store) {
    && (forall i :: 0 <= i < |st| ==> WellFormed(st[i]))
    && (forall i, j :: 0 <= i < j < |st| ==> st[i].id != st[j].id)
    && (forall i, j :: 0 <= i < j < |st| ==> st[i].email != st[j].email)
  }

  /** The index of the first document `matches` accepts. */
  function FindFirst(st: Store, matches: User -> bool): (r: Option<nat>)
    ensures r.Some? ==> r.value < |st| && matches(st[r.value])
    ensures r.Some? ==> forall j :: 0 <= j < r.value ==> !matches(st[j])
    ensures r.None? ==> forall j :: 0 <= j < |st| ==> !matches(st[j])
    decreases |st|
  {
    if |st| == 0 then None
    else if matches(st[0]) then Some(0)
    else
      match FindFirst(st[1..], matches)
      case None => None
      case Some(i) =>
        assert forall j :: 1 <= j < |st| ==> st[j] == st[1..][j - 1];
        Some(i + 1)
  }

  /** `User.findById(id)`. */
  function FindById(st: Store, id: UserId): (r: Option<nat>)
    ensures r.Some? ==> r.value < |st| && st[r.value].id == id
    ensures r.Some? ==> forall j :: 0 <= j < r.value ==> st[j].id != id
    ensures r.None? <==> forall j :: 0 <= j < |st| ==> st[j].id != id
  {
    FindFirst(st, (u: User) => u.id == id)
  }

  /** `User.findOne({ email })`, after the schema's `lowercase` setter has
      been applied to the query value by the caller. */
  function FindByEmail(st: Store, email: string): (r: Option<nat>)
    ensures r.Some? ==> r.value < |st| && st[r.value].email == email
    ensures r.Some? ==> forall j :: 0 <= j < r.value ==> st[j].email != email
    ensures r.None? <==> forall j :: 0 <= j < |st| ==> st[j].email != email
  {
    FindFirst(st, (u: User) => u.email == email)
  }

  /** In a valid store a lookup by a stored document's own `_id` or email
      finds that document. */
  lemma FindFindsOwnDocument(st: Store, i: nat)
    requires Valid(st)
    requires i < |st|
    ensures FindById(st, st[i].id) == Some(i)
    ensures FindByEmail(st, st[i].email) == Some(i)
  {
    var a := FindById(st, st[i].id);
    var b := FindByEmail(st, st[i].email);
    assert a.Some? && b.Some?;
    if a.value < i {
    } else if a.value > i {
    }
    if b.value < i {
    } else if b.value > i {
    }
  }

  /** Why `User.create` can fail. */
  datatype CreateError =
    | ValidationFailed   // a required field is missing or empty
    | DuplicateKey       // the `_id` or the lower-cased email is taken

  /** `User.create({ email, password, username })`. A `required` string
      field must be present and non-empty, which is `Truthy`. The email is lower-cased
      by the schema, `profilePicture` is left unset and `refreshTokens`
      defaults to the empty list; the new document is appended. */
  function Create(st: Store, id: UserId, email: Option<string>, password: Hash, username: Option<string>)
    : (r: Result<Store, CreateError>)
    ensures r.Success? <==>
      && Truthy(email) && Truthy(username)
      && FindById(st, id).None?
      && FindByEmail(st, ToLower(email.value)).None?
    ensures r.Failure? && Truthy(email) && Truthy(username) ==> r.error == DuplicateKey
    ensures r.Success? ==>
      && |r.value| == |st| + 1
      && r.value[..|st|] == st
      && r.value[|st|] == User(id, ToLower(email.value), password, username.value, None, [])
    ensures Valid(st) && r.Success? ==> Valid(r.value)
  {
    if !Truthy(email) || !Truthy(username) then Failure(ValidationFailed)
    else if FindById(st, id).Some? || FindByEmail(st, ToLower(email.value)).Some? then Failure(DuplicateKey)
    else
      var st' := st + [User(id, ToLower(email.value), password, username.value, None, [])];
      assert st'[..|st|] == st;
      Success(st')
  }

  /** Assigning `user.refreshTokens` and saving: document `i` gets `tokens`,
      every other field and every other document is untouched. */
  function SetRefreshTokens(st: Store, i: nat, tokens: seq<Token>): (r: Store)
    requires i < |st|
    ensures |r| == |st|
    ensures r[i].refreshTokens == tokens
    ensures r[i] == st[i].(refreshTokens := r[i].refreshTokens)
    ensures forall j :: 0 <= j < |st| && j != i ==> r[j] == st[j]
    ensures Valid(st) ==> Valid(r)
  {
    st[i := st[i].(refreshTokens := tokens)]
  }

  /** Replacing a user's refresh tokens moves no document: every lookup by
      `_id` or email answers as before. */
  lemma LookupsIgnoreRefreshTokens(st: Store, i: nat, tokens: seq<Token>, id: UserId, email: string)
    requires i < |st|
    ensures FindById(SetRefreshTokens(st, i, tokens), id) == FindById(st, id)
    ensures FindByEmail(SetRefreshTokens(st, i, tokens), email) == FindByEmail(st, email)
  {
    var st' := SetRefreshTokens(st, i, tokens);
    assert forall j :: 0 <= j < |st| ==> st'[j].id == st[j].id && st'[j].email == st[j].email;
  }
}
