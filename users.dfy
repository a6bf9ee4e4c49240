/** The user table of src/providers/users.provider.ts and the field merge of
    `editUser` in src/services/users.service.ts. Optional columns are `Option`s;
    `billingDetails` is kept as its JSON text. Password hashing (bcrypt with a
    random salt) is the function `hash` given by the caller. */
module Users {
  import opened Wrappers
  import opened JsText
  import opened Wallets

  /** `UserRole`: ADMIN, USER, and whatever other roles the schema defines. */
  datatype Role = ADMIN | USER | OtherRole(name: string)

  datatype User = User(
    id: string, email: string, password: string, role: Role,
    firstName: Option<string>, lastName: Option<string>, middleName: Option<string>,
    dob: Option<int>, country: Option<string>, image: Option<string>,
    billingDetails: Option<string>, createdAt: int)

  /** `RegisterInput`. */
  datatype RegisterInput = RegisterInput(
    email: string, password: string, firstName: Option<string>, lastName: Option<string>,
    middleName: Option<string>, dob: Option<int>)

  ghost predicate UniqueIdsAndEmails(users: seq<User>) {
    forall i, j :: 0 <= i < j < |users| ==> users[i].id != users[j].id && users[i].email != users[j].email
  }

  /** The position of the user with id `id`. */
  function IndexOfId(users: seq<User>, id: string): (r: Option<nat>)
    ensures r.Some? ==> r.value < |users| && users[r.value].id == id
    ensures r.Some? ==> forall i :: 0 <= i < r.value ==> users[i].id != id
    ensures r.None? ==> forall i :: 0 <= i < |users| ==> users[i].id != id
  {
    if users == [] then None
    else if users[0].id == id then Some(0)
    else match IndexOfId(users[1..], id)
      case None => None
      case Some(k) => Some(k + 1)
  }

  /** `getById`: the user with that id, or null. */
  function GetById(users: seq<User>, id: string): (r: Option<User>)
    ensures r.Some? ==> r.value in users && r.value.id == id
    ensures r.None? ==> forall i :: 0 <= i < |users| ==> users[i].id != id
  {
    match IndexOfId(users, id)
    case None => None
    case Some(k) => Some(users[k])
  }

  /** `getByEmail`: the user with that email, or null. */
  function GetByEmail(users: seq<User>, email: string): (r: Option<User>)
    ensures r.Some? ==> r.value in users && r.value.email == email
    ensures r.None? ==> forall i :: 0 <= i < |users| ==> users[i].email != email
  {
    if users == [] then None
    else if users[0].email == email then Some(users[0])
    else GetByEmail(users[1..], email)
  }

  /** All user ids written one after the other. */
  function ConcatUserIds(users: seq<User>): (s: string)
    ensures forall i :: 0 <= i < |users| ==> |users[i].id| <= |s|
  {
    if users == [] then "" else
      var rest := ConcatUserIds(users[1..]);
      assert forall i :: 1 <= i < |users| ==> users[i] == users[1..][i - 1];
      users[0].id + rest
  }

  /** An id that no user has, standing for the one the database generates. */
  function FreshUserId(users: seq<User>): (id: string)
    ensures forall i :: 0 <= i < |users| ==> users[i].id != id
  {
    ConcatUserIds(users) + "u"
  }

  /** The user built by `createUser`: email and names trimmed, the password
      hashed without trimming, everything else at its default. */
  function NewUser(id: string, input: RegisterInput, hash: string -> string, now: int): (u: User)
    ensures u.email == Trim(input.email) && u.password == hash(input.password)
    ensures u.firstName == TrimOpt(input.firstName) && u.lastName == TrimOpt(input.lastName)
    ensures u.middleName == TrimOpt(input.middleName) && u.dob == input.dob
    ensures u.billingDetails.None? && u.createdAt == now
  {
    User(id, Trim(input.email), hash(input.password), USER,
         TrimOpt(input.firstName), TrimOpt(input.lastName), TrimOpt(input.middleName),
         input.dob, None, None, None, now)
  }

  /** The columns `updateUser` writes: the names, dob and country, and `image`
      taken from `input.country` as written. */
  function UpdatedAsWritten(old_: User, input: User): (r: User)
    ensures r.firstName == input.firstName && r.lastName == input.lastName && r.middleName == input.middleName
    ensures r.dob == input.dob && r.country == input.country && r.image == input.country
    ensures r.id == old_.id && r.email == old_.email && r.password == old_.password
    ensures r.role == old_.role && r.billingDetails == old_.billingDetails && r.createdAt == old_.createdAt
  {
    old_.(firstName := input.firstName, lastName := input.lastName, middleName := input.middleName,
          dob := input.dob, country := input.country, image := input.country)
  }

  /** The columns `updateUser` evidently means to write: `image` from `input.image`. */
  function UpdatedIntended(old_: User, input: User): (r: User)
    ensures r.firstName == input.firstName && r.lastName == input.lastName && r.middleName == input.middleName
    ensures r.dob == input.dob && r.country == input.country && r.image == input.image
    ensures r.id == old_.id && r.email == old_.email && r.password == old_.password
    ensures r.role == old_.role && r.billingDetails == old_.billingDetails && r.createdAt == old_.createdAt
  {
    old_.(firstName := input.firstName, lastName := input.lastName, middleName := input.middleName,
          dob := input.dob, country := input.country, image := input.image)
  }

  /** A JavaScript string is truthy when it is defined and not empty. */
  predicate Truthy(s: Option<string>) {
    s.Some? && s.value != ""
  }

  /** The merge of `editUser` as written: each field is copied from the input
      when the input's value is truthy (a `Date` is truthy whenever present),
      and `middleName` takes `input.lastName`. */
  function MergeAsWritten(user: User, input: User): (r: User)
    ensures r.dob == if input.dob.Some? then input.dob else user.dob
    ensures r.country == if Truthy(input.country) then input.country else user.country
    ensures r.image == if Truthy(input.image) then input.image else user.image
    ensures r.firstName == if Truthy(input.firstName) then input.firstName else user.firstName
    ensures r.lastName == if Truthy(input.lastName) then input.lastName else user.lastName
    ensures r.middleName == if Truthy(input.middleName) then input.lastName else user.middleName
    ensures r.id == user.id && r.email == user.email && r.password == user.password
    ensures r.role == user.role && r.billingDetails == user.billingDetails && r.createdAt == user.createdAt
  {
    user.(
      dob := if input.dob.Some? then input.dob else user.dob,
      country := if Truthy(input.country) then input.country else user.country,
      image := if Truthy(input.image) then input.image else user.image,
      firstName := if Truthy(input.firstName) then input.firstName else user.firstName,
      lastName := if Truthy(input.lastName) then input.lastName else user.lastName,
      middleName := if Truthy(input.middleName) then input.lastName else user.middleName)
  }

  /** The merge `editUser` evidently intends: `middleName` from `input.middleName`. */
  function MergeIntended(user: User, input: User): (r: User)
    ensures r.dob == if input.dob.Some? then input.dob else user.dob
    ensures r.country == if Truthy(input.country) then input.country else user.country
    ensures r.image == if Truthy(input.image) then input.image else user.image
    ensures r.firstName == if Truthy(input.firstName) then input.firstName else user.firstName
    ensures r.lastName == if Truthy(input.lastName) then input.lastName else user.lastName
    ensures r.middleName == if Truthy(input.middleName) then input.middleName else user.middleName
    ensures r.id == user.id && r.email == user.email && r.password == user.password
    ensures r.role == user.role && r.billingDetails == user.billingDetails && r.createdAt == user.createdAt
  {
    user.(
      dob := if input.dob.Some? then input.dob else user.dob,
      country := if Truthy(input.country) then input.country else user.country,
      image := if Truthy(input.image) then input.image else user.image,
      firstName := if Truthy(input.firstName) then input.firstName else user.firstName,
      lastName := if Truthy(input.lastName) then input.lastName else user.lastName,
      middleName := if Truthy(input.middleName) then input.middleName else user.middleName)
  }

  /** An input with no truthy field leaves the user unchanged, under either merge. */
  lemma MergeOfEmptyInput(user: User, input: User)
    requires input.dob.None? && !Truthy(input.country) && !Truthy(input.image)
    requires !Truthy(input.firstName) && !Truthy(input.lastName) && !Truthy(input.middleName)
    ensures MergeAsWritten(user, input) == user
    ensures MergeIntended(user, input) == user
  {
  }

  /** Merging the same input twice is merging it once. */
  lemma MergeIntendedIdempotent(user: User, input: User)
    ensures MergeIntended(MergeIntended(user, input), input) == MergeIntended(user, input)
  {
  }

  /** As written, a new middle name is dropped: the stored middle name becomes
      the input's last name. */
  lemma MergeAsWrittenMiddleName(user: User)
    ensures var input := user.(middleName := Some("Q"), lastName := Some("R"));
      MergeAsWritten(user, input).middleName == Some("R")
      && MergeIntended(user, input).middleName == Some("Q")
  {
  }

  /** As written, the stored image is the country: an edit that only sets a new
      image stores the old country as the image. */
  lemma UpdateAsWrittenImage(user: User)
    requires user.country == None
    ensures var input := user.(image := Some("pic.png"), dob := None, firstName := None,
                               lastName := None, middleName := None);
      UpdatedAsWritten(user, MergeAsWritten(user, input)).image == None
      && UpdatedIntended(user, MergeIntended(user, input)).image == Some("pic.png")
  {
  }

  /** The user table; a user's wallet lives in a `WalletTable` beside it. */
  class UserTable {
    var users: seq<User>

    ghost predicate Valid()
      reads this
    {
      UniqueIdsAndEmails(users)
    }

    /** Every wallet belongs to a stored user. */
    ghost predicate WalletsOwned(wt: WalletTable)
      reads this, wt
    {
      forall u :: u in wt.wallets ==> GetById(users, u).Some?
    }

    constructor()
      ensures Valid() && users == []
    {
      users := [];
    }

    /** `createUser`: insert the trimmed, hashed user, then create a wallet for
        its id. A taken email violates the unique key and changes nothing. */
    method CreateUser(wt: WalletTable, input: RegisterInput, hash: string -> string, now: int)
      returns (r: Result<User>)
      requires Valid() && wt.Valid() && WalletsOwned(wt)
      modifies this, wt
      ensures Valid() && wt.Valid() && WalletsOwned(wt)
      ensures GetByEmail(old(users), Trim(input.email)).Some? ==>
        r.Err? && users == old(users) && wt.wallets == old(wt.wallets)
      ensures GetByEmail(old(users), Trim(input.email)).None? ==>
        && r.Ok? && r.value == NewUser(r.value.id, input, hash, now)
        && GetById(old(users), r.value.id).None?
        && users == old(users) + [r.value]
        && wt.wallets == old(wt.wallets)[r.value.id := Wallet(r.value.id, 0, 0, 0, 0, 0)]
    {
      if GetByEmail(users, Trim(input.email)).Some? {
        return Err("Unique constraint failed on the fields: (`email`)");
      }
      var id := FreshUserId(users);
      var u := NewUser(id, input, hash, now);
      var oldUsers := users;
      users := users + [u];
      forall i, j | 0 <= i < j < |users|
        ensures users[i].id != users[j].id && users[i].email != users[j].email
      {
        if j == |users| - 1 {
          assert users[i] == oldUsers[i];
        }
      }
      assert id !in wt.wallets;
      var w := wt.CreateWallet(id);
      forall v | v in wt.wallets
        ensures GetById(users, v).Some?
      {
        if v != id {
          var k := IndexOfId(oldUsers, v).value;
          assert users[k].id == v;
        } else {
          assert users[|users| - 1].id == v;
        }
      }
      r := Ok(u);
    }

    /** `updateUser` as written, by id; a missing id changes nothing. */
    method UpdateUser(id: string, input: User) returns (r: Result<User>)
      requires Valid()
      modifies this
      ensures Valid()
      ensures IndexOfId(old(users), id).None? ==> r.Err? && users == old(users)
      ensures IndexOfId(old(users), id).Some? ==>
        var k := IndexOfId(old(users), id).value;
        r == Ok(UpdatedAsWritten(old(users)[k], input)) && users == old(users)[k := r.value]
    {
      var found := IndexOfId(users, id);
      if found.None? {
        return Err("Record to update not found.");
      }
      var k := found.value;
      var u := UpdatedAsWritten(users[k], input);
      users := users[k := u];
      r := Ok(u);
    }

    /** `updatedUserBillingDetails`: only `billingDetails` changes. */
    method UpdateBillingDetails(id: string, billingDetails: Option<string>) returns (r: Result<User>)
      requires Valid()
      modifies this
      ensures Valid()
      ensures IndexOfId(old(users), id).None? ==> r.Err? && users == old(users)
      ensures IndexOfId(old(users), id).Some? ==>
        var k := IndexOfId(old(users), id).value;
        r == Ok(old(users)[k].(billingDetails := billingDetails)) && users == old(users)[k := r.value]
    {
      var found := IndexOfId(users, id);
      if found.None? {
        return Err("Record to update not found.");
      }
      var k := found.value;
      var u := users[k].(billingDetails := billingDetails);
      users := users[k := u];
      r := Ok(u);
    }

    /** `editUser`: assign the truthy input fields onto `user` one by one, then
        persist the result under the user's own id with `updateUser`. */
    method EditUser(user: User, input: User) returns (r: Result<User>)
      requires Valid()
      modifies this
      ensures Valid()
      ensures IndexOfId(old(users), user.id).None? ==> r.Err? && users == old(users)
      ensures IndexOfId(old(users), user.id).Some? ==>
        var k := IndexOfId(old(users), user.id).value;
        r == Ok(UpdatedAsWritten(old(users)[k], MergeAsWritten(user, input)))
        && users == old(users)[k := r.value]
    {
      var u := user;
      if input.dob.Some? { u := u.(dob := input.dob); }
      if Truthy(input.country) { u := u.(country := input.country); }
      if Truthy(input.image) { u := u.(image := input.image); }
      if Truthy(input.firstName) { u := u.(firstName := input.firstName); }
      if Truthy(input.lastName) { u := u.(lastName := input.lastName); }
      if Truthy(input.middleName) { u := u.(middleName := input.lastName); }
      assert u == MergeAsWritten(user, input);
      r := UpdateUser(u.id, u);
    }
  }
}
