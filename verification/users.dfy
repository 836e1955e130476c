/** The user record with its role flags, the seller / escrow-agent capability
    lifecycle (apply, approve, reject), profile updates and the admin's user
    queries. */
module Users {
  import opened Common

  datatype Address = Address(
    addressLabel: Option<string>, street: Option<string>, city: Option<string>,
    state: Option<string>, country: Option<string>, zip: Option<string>)

  /** A review the user has written; the schema bounds `rating` to 0..5. */
  datatype AuthoredReview = AuthoredReview(
    productId: Id, rating: int, reviewText: string, createdAt: Time)

  /** The persisted user. The password hash and e-mail OTP fields belong to
      authentication and are not part of this model. */
  datatype User = User(
    firstName: string,
    lastName: string,
    email: string,
    username: string,
    phone: Option<string>,
    avatar: Option<Url>,
    addresses: map<string, Address>,
    seller: bool,
    sellerApproved: bool,
    sellerApplicationDate: Option<Time>,
    escrowAgent: bool,
    escrowApproved: bool,
    escrowApplicationDate: Option<Time>,
    isAdmin: bool,
    reviews: seq<AuthoredReview>,
    blacklist: Option<bool>,
    online: bool,
    lastSeen: Time,
    isEmailVerified: bool)

  type UserStore = map<Id, User>

  /** A freshly inserted user: the schema's defaults for every optional field. */
  function NewUser(firstName: string, lastName: string, email: string, username: string, now: Time): (u: User)
  {
    User(firstName, lastName, email, username, None, None, map[],
         false, false, None, false, false, None, false, [], Some(false), false, now, false)
  }

  /** Schema constraints a saved user satisfies: required strings present and
      every authored rating within 0..5. */
  predicate ValidUser(u: User)
  {
    && u.firstName != "" && u.lastName != "" && u.email != "" && u.username != ""
    && forall i :: 0 <= i < |u.reviews| ==> 0 <= u.reviews[i].rating <= 5
  }

  /** The unique indexes on `email` and `username`. */
  ghost predicate UniqueIdentities(users: UserStore)
  {
    forall a, b :: a in users && b in users && a != b ==>
      users[a].email != users[b].email && users[a].username != users[b].username
  }

  // ---------------------------------------------------------------------------
  // Role capabilities

  /** The two roles a user applies for and an admin approves. */
  datatype Role = SellerRole | EscrowRole

  /** Where a user stands for one role: never applied (or rejected),
      applied and awaiting review, or approved. */
  datatype Capability = NoRole | Pending | Approved

  /** The role's "applied" flag (`seller` / `escrowAgent`). */
  function Applied(u: User, role: Role): bool
  {
    match role
    case SellerRole => u.seller
    case EscrowRole => u.escrowAgent
  }

  /** The role's "approved" flag (`sellerApproved` / `escrowApproved`). */
  function ApprovedFlag(u: User, role: Role): bool
  {
    match role
    case SellerRole => u.sellerApproved
    case EscrowRole => u.escrowApproved
  }

  function ApplicationDate(u: User, role: Role): Option<Time>
  {
    match role
    case SellerRole => u.sellerApplicationDate
    case EscrowRole => u.escrowApplicationDate
  }

  /** Overwrites the three fields of one role and nothing else. */
  function SetRole(u: User, role: Role, applied: bool, approved: bool, date: Option<Time>): (v: User)
    ensures Applied(v, role) == applied && ApprovedFlag(v, role) == approved
    ensures ApplicationDate(v, role) == date
    ensures v.email == u.email && v.username == u.username
    ensures v.isAdmin == u.isAdmin && v.isEmailVerified == u.isEmailVerified
  {
    match role
    case SellerRole => u.(seller := applied, sellerApproved := approved, sellerApplicationDate := date)
    case EscrowRole => u.(escrowAgent := applied, escrowApproved := approved, escrowApplicationDate := date)
  }

  /** `v` differs from `u` at most in the three fields of `role`. */
  predicate SameExceptRole(u: User, v: User, role: Role)
  {
    SetRole(v, role, Applied(u, role), ApprovedFlag(u, role), ApplicationDate(u, role)) == u
  }

  /** The capability the two flags encode; an approval flag without the
      applied flag grants nothing, as every role check requires both. */
  function CapabilityOf(u: User, role: Role): Capability
  {
    if !Applied(u, role) then NoRole
    else if ApprovedFlag(u, role) then Approved
    else Pending
  }

  /** No approval is recorded for a role the user has not applied for. */
  predicate RoleConsistent(u: User)
  {
    (u.sellerApproved ==> u.seller) && (u.escrowApproved ==> u.escrowAgent)
  }

  ghost predicate AllRolesConsistent(users: UserStore)
  {
    forall k :: k in users ==> RoleConsistent(users[k])
  }

  lemma NewUserHasNoRole(firstName: string, lastName: string, email: string, username: string, now: Time, role: Role)
    ensures CapabilityOf(NewUser(firstName, lastName, email, username, now), role) == NoRole
    ensures RoleConsistent(NewUser(firstName, lastName, email, username, now))
    ensures !NewUser(firstName, lastName, email, username, now).isAdmin
    ensures !NewUser(firstName, lastName, email, username, now).isEmailVerified
  {
  }

  /** `users` with the record of `id` replaced, all other records kept. */
  ghost predicate OnlyChanged(users: UserStore, users': UserStore, id: Id)
  {
    && users'.Keys == users.Keys
    && forall k :: k in users && k != id ==> users'[k] == users[k]
  }

  /** `applyForSeller` / `applyForEscrow`: the caller's own application. The
      only obstacle is the applied flag itself, so a pending or an approved
      user is refused and a rejected one may apply again. The approval flag
      is left as it was. */
  function Apply(users: UserStore, caller: Id, role: Role, now: Time): (r: Result<UserStore>)
    ensures caller !in users ==> r == Err(NotFound)
    ensures caller in users && Applied(users[caller], role) ==> r == Err(BadRequest)
    ensures r.Ok? <==> caller in users && !Applied(users[caller], role)
    ensures r.Ok? ==> OnlyChanged(users, r.value, caller)
    ensures r.Ok? ==>
      && Applied(r.value[caller], role)
      && ApprovedFlag(r.value[caller], role) == ApprovedFlag(users[caller], role)
      && ApplicationDate(r.value[caller], role) == Some(now)
      && SameExceptRole(users[caller], r.value[caller], role)
  {
    if caller !in users then Err(NotFound)
    else
      var u := users[caller];
      if Applied(u, role) then Err(BadRequest)
      else Ok(users[caller := SetRole(u, role, true, ApprovedFlag(u, role), Some(now))])
  }

  /** `approveSeller` / `approveEscrowAgent`: only an application on file can
      be approved; the approval flag is the only field written. */
  function Approve(users: UserStore, id: Id, role: Role): (r: Result<UserStore>)
    ensures r.Err? <==> id !in users || !Applied(users[id], role)
    ensures r.Err? ==> r.error == NotFound
    ensures r.Ok? ==> OnlyChanged(users, r.value, id)
    ensures r.Ok? ==>
      && ApprovedFlag(r.value[id], role)
      && Applied(r.value[id], role)
      && ApplicationDate(r.value[id], role) == ApplicationDate(users[id], role)
      && SameExceptRole(users[id], r.value[id], role)
  {
    if id !in users || !Applied(users[id], role) then Err(NotFound)
    else
      var u := users[id];
      Ok(users[id := SetRole(u, role, true, true, ApplicationDate(u, role))])
  }

  /** `rejectSeller` / `rejectEscrowAgent`: clears the application, pending or
      approved, back to the never-applied state. */
  function Reject(users: UserStore, id: Id, role: Role): (r: Result<UserStore>)
    ensures r.Err? <==> id !in users || !Applied(users[id], role)
    ensures r.Err? ==> r.error == NotFound
    ensures r.Ok? ==> OnlyChanged(users, r.value, id)
    ensures r.Ok? ==>
      && !Applied(r.value[id], role)
      && !ApprovedFlag(r.value[id], role)
      && ApplicationDate(r.value[id], role) == None
      && SameExceptRole(users[id], r.value[id], role)
  {
    if id !in users || !Applied(users[id], role) then Err(NotFound)
    else Ok(users[id := SetRole(users[id], role, false, false, None)])
  }

  /** Applying moves a consistent user from no role to pending. */
  lemma ApplyStartsPending(users: UserStore, caller: Id, role: Role, now: Time)
    requires caller in users && RoleConsistent(users[caller])
    requires CapabilityOf(users[caller], role) == NoRole
    ensures Apply(users, caller, role, now).Ok?
    ensures CapabilityOf(Apply(users, caller, role, now).value[caller], role) == Pending
  {
  }

  /** The lifecycle in one statement: from no role, apply, approve gives an
      approved role, and a reject from there returns to no role, after which
      applying succeeds again. */
  lemma {:induction false} CapabilityCycle(users: UserStore, caller: Id, role: Role, t1: Time, t2: Time)
    requires caller in users && RoleConsistent(users[caller])
    requires CapabilityOf(users[caller], role) == NoRole
    ensures
      var s1 := Apply(users, caller, role, t1);
      && s1.Ok? && CapabilityOf(s1.value[caller], role) == Pending
      && var s2 := Approve(s1.value, caller, role);
      && s2.Ok? && CapabilityOf(s2.value[caller], role) == Approved
      && Apply(s2.value, caller, role, t2) == Err(BadRequest)
      && var s3 := Reject(s2.value, caller, role);
      && s3.Ok? && CapabilityOf(s3.value[caller], role) == NoRole
      && Apply(s3.value, caller, role, t2).Ok?
  {
    ApplyStartsPending(users, caller, role, t1);
  }

  /** A pending application can also be rejected directly, and approving an
      approved role changes nothing. */
  lemma {:induction false} RejectPendingAndReapprove(users: UserStore, id: Id, role: Role)
    requires id in users
    ensures CapabilityOf(users[id], role) == Pending ==>
      Reject(users, id, role).Ok? && CapabilityOf(Reject(users, id, role).value[id], role) == NoRole
    ensures CapabilityOf(users[id], role) == Approved ==> Approve(users, id, role) == Ok(users)
    ensures CapabilityOf(users[id], role) == NoRole ==>
      Approve(users, id, role) == Err(NotFound) && Reject(users, id, role) == Err(NotFound)
  {
    if CapabilityOf(users[id], role) == Approved {
      var u := users[id];
      assert SetRole(u, role, true, true, ApplicationDate(u, role)) == u by {
        match role
        case SellerRole =>
        case EscrowRole =>
      }
      assert users[id := u] == users;
    }
  }

  /** The flag-pairing invariant survives every role operation. */
  lemma RoleOperationsKeepConsistency(users: UserStore, id: Id, role: Role, now: Time)
    requires AllRolesConsistent(users)
    ensures Apply(users, id, role, now).Ok? ==> AllRolesConsistent(Apply(users, id, role, now).value)
    ensures Approve(users, id, role).Ok? ==> AllRolesConsistent(Approve(users, id, role).value)
    ensures Reject(users, id, role).Ok? ==> AllRolesConsistent(Reject(users, id, role).value)
  {
  }

  /** Without the invariant, applying would not yield a pending state: a
      stale approval flag left by some other path turns an application
      straight into an approved role, which is why `Apply` leaving the flag
      untouched matters. */
  lemma StaleApprovalSkipsReview(u: User, caller: Id, role: Role, now: Time)
    requires !Applied(u, role) && ApprovedFlag(u, role)
    ensures Apply(map[caller := u], caller, role, now).Ok?
    ensures CapabilityOf(Apply(map[caller := u], caller, role, now).value[caller], role) == Approved
  {
  }

  /** Role operations never touch e-mail or username, so the unique indexes
      cannot be violated by them. */
  lemma RoleOperationsKeepIdentities(users: UserStore, id: Id, role: Role, now: Time)
    requires UniqueIdentities(users)
    ensures Apply(users, id, role, now).Ok? ==> UniqueIdentities(Apply(users, id, role, now).value)
    ensures Approve(users, id, role).Ok? ==> UniqueIdentities(Approve(users, id, role).value)
    ensures Reject(users, id, role).Ok? ==> UniqueIdentities(Reject(users, id, role).value)
  {
    if id in users {
      var u := users[id];
      ReplaceKeepsIdentities(users, id, SetRole(u, role, true, ApprovedFlag(u, role), Some(now)));
      ReplaceKeepsIdentities(users, id, SetRole(u, role, true, true, ApplicationDate(u, role)));
      ReplaceKeepsIdentities(users, id, SetRole(u, role, false, false, None));
    }
  }

  /** Replacing one record by one with the same e-mail and username keeps
      both indexes unique. */
  lemma ReplaceKeepsIdentities(users: UserStore, id: Id, v: User)
    requires UniqueIdentities(users)
    requires id in users && v.email == users[id].email && v.username == users[id].username
    ensures UniqueIdentities(users[id := v])
  {
    var users' := users[id := v];
    forall a, b | a in users' && b in users' && a != b
      ensures users'[a].email != users'[b].email && users'[a].username != users'[b].username
    {
      assert users'[a].email == users[a].email && users'[a].username == users[a].username;
      assert users'[b].email == users[b].email && users'[b].username == users[b].username;
    }
  }

  /** `getPendingSellers` / `getPendingEscrowAgents`: applied but not approved. */
  function PendingApplicants(users: UserStore, role: Role): (r: set<Id>)
    ensures forall k :: k in r <==> k in users && CapabilityOf(users[k], role) == Pending
  {
    set k | k in users && Applied(users[k], role) && !ApprovedFlag(users[k], role)
  }

  // ---------------------------------------------------------------------------
  // Profile and admin user status

  /** The fields `updateProfile` writes: names are overwritten only by
      non-empty values; a `phone` that is present (even null) is written,
      empty meaning null; `addresses` replaces the map when given; an
      uploaded avatar replaces the old URL. Every other field is kept. The
      server stores the phone number encrypted; the model keeps it in clear. */
  function EditProfile(
    u: User, firstName: Option<string>, lastName: Option<string>,
    phone: Option<Option<string>>, addresses: Option<map<string, Address>>,
    avatar: Option<Url>): (v: User)
    ensures v.(firstName := u.firstName, lastName := u.lastName, phone := u.phone,
               addresses := u.addresses, avatar := u.avatar) == u
  {
    u.(firstName := NameOr(firstName, u.firstName),
       lastName := NameOr(lastName, u.lastName),
       phone := if phone.Some? then OrNull(phone.value) else u.phone,
       addresses := GetOr(addresses, u.addresses),
       avatar := if avatar.Some? then avatar else u.avatar)
  }

  /** Absent or falsy inputs leave their field as it was. */
  lemma EditProfileKeepsAbsentFields(
    u: User, firstName: Option<string>, lastName: Option<string>,
    phone: Option<Option<string>>, addresses: Option<map<string, Address>>, avatar: Option<Url>)
    ensures var v := EditProfile(u, firstName, lastName, phone, addresses, avatar);
      && (!Truthy(firstName) ==> v.firstName == u.firstName)
      && (!Truthy(lastName) ==> v.lastName == u.lastName)
      && (phone.None? ==> v.phone == u.phone)
      && (addresses.None? ==> v.addresses == u.addresses)
      && (avatar.None? ==> v.avatar == u.avatar)
  {
  }

  /** Present values are written: non-empty names, the phone (an empty one
      clearing it to null), the address map and the uploaded avatar. */
  lemma EditProfileWritesGivenFields(
    u: User, firstName: Option<string>, lastName: Option<string>,
    phone: Option<Option<string>>, addresses: Option<map<string, Address>>, avatar: Option<Url>)
    ensures var v := EditProfile(u, firstName, lastName, phone, addresses, avatar);
      && (Truthy(firstName) ==> v.firstName == firstName.value)
      && (Truthy(lastName) ==> v.lastName == lastName.value)
      && (phone.Some? && !Truthy(phone.value) ==> v.phone.None?)
      && (phone.Some? && Truthy(phone.value) ==> v.phone == phone.value)
      && (addresses.Some? ==> v.addresses == addresses.value)
      && (avatar.Some? ==> v.avatar == avatar)
  {
  }

  /** A name field overwritten only by a non-empty value. */
  function NameOr(given: Option<string>, current: string): string
  {
    if Truthy(given) then given.value else current
  }

  /** `updateProfile` on the caller's own record. */
  function UpdateProfile(
    users: UserStore, caller: Id,
    firstName: Option<string>, lastName: Option<string>,
    phone: Option<Option<string>>, addresses: Option<map<string, Address>>,
    avatar: Option<Url>): (r: Result<UserStore>)
    ensures r.Err? <==> caller !in users
    ensures r.Err? ==> r.error == NotFound
    ensures r.Ok? ==> OnlyChanged(users, r.value, caller)
    ensures r.Ok? ==> r.value[caller] == EditProfile(users[caller], firstName, lastName, phone, addresses, avatar)
  {
    if caller !in users then Err(NotFound)
    else Ok(users[caller := EditProfile(users[caller], firstName, lastName, phone, addresses, avatar)])
  }

  /** A profile update keeps the user valid and never changes role flags. */
  lemma UpdateProfileKeepsValidity(
    users: UserStore, caller: Id,
    firstName: Option<string>, lastName: Option<string>,
    phone: Option<Option<string>>, addresses: Option<map<string, Address>>, avatar: Option<Url>)
    requires caller in users && ValidUser(users[caller])
    ensures
      var r := UpdateProfile(users, caller, firstName, lastName, phone, addresses, avatar);
      && ValidUser(r.value[caller])
      && forall role :: CapabilityOf(r.value[caller], role) == CapabilityOf(users[caller], role)
  {
  }

  /** The `blacklist` member of a request body as the schema's Boolean cast
      sees it: missing (`undefined`), a JSON `null`, a value the cast turns
      into a boolean (`true`/`false`, `1`/`0`, `"true"`/`"false"`,
      `"1"`/`"0"`, `"yes"`/`"no"`), or anything else. */
  datatype FlagBody = Absent | Null | Flag(b: bool) | Uncastable

  /** `updateUserStatus`: the flag is assigned whenever the body carries the
      member at all. A `null` is stored as null; a value the cast rejects
      fails validation on save, which the handler answers with a 500. */
  function UpdateUserStatus(users: UserStore, id: Id, blacklist: FlagBody): (r: Result<UserStore>)
    ensures r.Err? <==> id !in users || blacklist.Uncastable?
    ensures r.Err? ==> r.error == (if id !in users then NotFound else ServerError)
    ensures r.Ok? ==> OnlyChanged(users, r.value, id)
    ensures r.Ok? && blacklist.Absent? ==> r.value == users
    ensures r.Ok? && !blacklist.Absent? ==> r.value[id].(blacklist := users[id].blacklist) == users[id]
    ensures r.Ok? && blacklist.Null? ==> r.value[id].blacklist.None?
    ensures r.Ok? && blacklist.Flag? ==> r.value[id].blacklist == Some(blacklist.b)
  {
    if id !in users then Err(NotFound)
    else match blacklist
      case Absent => Ok(users)
      case Null => Ok(users[id := users[id].(blacklist := None)])
      case Flag(b) => Ok(users[id := users[id].(blacklist := Some(b))])
      case Uncastable => Err(ServerError)
  }

  /** Sending the same body twice leaves the store as sending it once. */
  lemma UpdateUserStatusIdempotent(users: UserStore, id: Id, blacklist: FlagBody)
    requires UpdateUserStatus(users, id, blacklist).Ok?
    ensures UpdateUserStatus(UpdateUserStatus(users, id, blacklist).value, id, blacklist)
         == UpdateUserStatus(users, id, blacklist)
  {
    var once := UpdateUserStatus(users, id, blacklist).value;
    match blacklist
    case Absent =>
    case Null =>
      var u := users[id].(blacklist := None);
      assert once == users[id := u];
      assert u.(blacklist := None) == u;
      assert once[id := u] == once;
    case Flag(b) =>
      var u := users[id].(blacklist := Some(b));
      assert once == users[id := u];
      assert u.(blacklist := Some(b)) == u;
      assert once[id := u] == once;
    case Uncastable =>
  }

  /** The blacklist flag is the only thing the status update writes, and it
      takes part in no invariant: role consistency, the unique identities,
      every capability and the record's validity all stay as they were.
      Nothing else in the server reads the flag. */
  lemma UpdateUserStatusKeepsInvariants(users: UserStore, id: Id, blacklist: FlagBody, role: Role)
    requires UpdateUserStatus(users, id, blacklist).Ok?
    ensures var users' := UpdateUserStatus(users, id, blacklist).value;
      && (AllRolesConsistent(users) ==> AllRolesConsistent(users'))
      && (UniqueIdentities(users) ==> UniqueIdentities(users'))
      && CapabilityOf(users'[id], role) == CapabilityOf(users[id], role)
      && (ValidUser(users[id]) ==> ValidUser(users'[id]))
  {
    var users' := UpdateUserStatus(users, id, blacklist).value;
    if UniqueIdentities(users) {
      ReplaceKeepsIdentities(users, id, users'[id]);
    }
  }
}
