/** The browser side's two routing decisions: the guard wrapped around
    protected pages, and the dashboard dispatcher that sends a signed-in user
    to the dashboard of their most privileged role. Both read the role flags
    of the user record the auth store holds. */
module Client {
  import opened Common
  import opened Users
  import Access

  /** What a guarded page renders. */
  datatype Screen = Spinner | Redirect(path: string) | Show

  /** The three optional requirements of a guarded page. */
  datatype Requirements = Requirements(admin: bool, seller: bool, escrow: bool)

  /** The guard's tests, taken in order: still loading, no user, email not
      verified, then admin, seller and escrow agent when required. A missing
      seller approval goes to the seller application page; the other two
      missing roles go home. */
  function Protect(req: Requirements, user: Option<User>, loading: bool): (r: Screen)
  {
    if loading then Spinner
    else if user.None? then Redirect("/login")
    else if !user.value.isEmailVerified then Redirect("/verify-email")
    else if req.admin && !user.value.isAdmin then Redirect("/")
    else if req.seller && (!user.value.seller || !user.value.sellerApproved) then Redirect("/become-seller")
    else if req.escrow && (!user.value.escrowAgent || !user.value.escrowApproved) then Redirect("/")
    else Show
  }

  /** The user meets every requirement of the page. */
  predicate Meets(req: Requirements, u: User)
  {
    && (req.admin ==> Access.Holds(Access.AdminCheck, u))
    && (req.seller ==> Access.Holds(Access.SellerCheck, u))
    && (req.escrow ==> Access.Holds(Access.EscrowAgentCheck, u))
  }

  /** The page shows exactly for a loaded, signed-in, verified user who
      meets its requirements. */
  lemma ShowsExactlyQualifiedUsers(req: Requirements, user: Option<User>, loading: bool)
    ensures Protect(req, user, loading) == Show <==>
              !loading && user.Some? && user.value.isEmailVerified && Meets(req, user.value)
  {
  }

  /** The order of the tests: loading hides everything, then the missing
      user, then the unverified email, whatever the roles; an admin
      requirement is reported before a seller one. */
  lemma RedirectPrecedence(req: Requirements, u: User)
    ensures Protect(req, Some(u), true) == Spinner && Protect(req, None, true) == Spinner
    ensures Protect(req, None, false) == Redirect("/login")
    ensures !u.isEmailVerified ==> Protect(req, Some(u), false) == Redirect("/verify-email")
    ensures u.isEmailVerified && req.admin && !u.isAdmin ==> Protect(req, Some(u), false) == Redirect("/")
    ensures u.isEmailVerified && !req.admin && req.seller && !(u.seller && u.sellerApproved) ==>
              Protect(req, Some(u), false) == Redirect("/become-seller")
  {
  }

  /** A page guarded for one role agrees with the server: it shows for a
      verified user exactly when the server's email check and the matching
      role check both pass for that user. */
  lemma GuardAgreesWithServer(users: UserStore, id: Id, check: Access.RoleCheck)
    requires id in users
    requires check != Access.SellerOrAdminCheck
    ensures var req := Requirements(check == Access.AdminCheck, check == Access.SellerCheck,
                                    check == Access.EscrowAgentCheck);
      Protect(req, Some(users[id]), false) == Show <==>
        Access.RequireEmailVerification(Some(id), users) == Pass
        && Access.RequireRole(check, Some(id), users) == Pass
  {
  }

  /** Where the dashboard dispatcher sends a user. */
  datatype Destination = ToLogin | AdminDashboard | SellerDashboard | EscrowDashboard | UserDashboard

  /** Admin first, then approved seller, then approved escrow agent; anyone
      else gets the plain user dashboard. */
  function DashboardFor(user: Option<User>): (d: Destination)
  {
    if user.None? then ToLogin
    else if user.value.isAdmin then AdminDashboard
    else if user.value.seller && user.value.sellerApproved then SellerDashboard
    else if user.value.escrowAgent && user.value.escrowApproved then EscrowDashboard
    else UserDashboard
  }

  /** The role a dashboard stands for, if any. */
  function RoleOf(d: Destination): Option<Access.RoleCheck>
  {
    match d
    case AdminDashboard => Some(Access.AdminCheck)
    case SellerDashboard => Some(Access.SellerCheck)
    case EscrowDashboard => Some(Access.EscrowAgentCheck)
    case _ => None
  }

  /** The order of roles the dispatcher tries. */
  const Priority: seq<Access.RoleCheck> := [Access.AdminCheck, Access.SellerCheck, Access.EscrowAgentCheck]

  /** A signed-in user lands on the dashboard of the first role in priority
      order they hold, or on the user dashboard when they hold none. */
  lemma DashboardPicksFirstHeldRole(u: User)
    ensures var d := DashboardFor(Some(u));
      && (d == UserDashboard <==> forall i :: 0 <= i < |Priority| ==> !Access.Holds(Priority[i], u))
      && (RoleOf(d).Some? ==>
            && Access.Holds(RoleOf(d).value, u)
            && exists i :: 0 <= i < |Priority| && Priority[i] == RoleOf(d).value
                 && forall j :: 0 <= j < i ==> !Access.Holds(Priority[j], u))
  {
    var d := DashboardFor(Some(u));
    if d == AdminDashboard {
      assert Priority[0] == Access.AdminCheck;
    } else if d == SellerDashboard {
      assert Priority[1] == Access.SellerCheck && !Access.Holds(Priority[0], u);
    } else if d == EscrowDashboard {
      assert Priority[2] == Access.EscrowAgentCheck;
      assert !Access.Holds(Priority[0], u) && !Access.Holds(Priority[1], u);
    } else if d == UserDashboard {
      assert !Access.Holds(Priority[0], u) && !Access.Holds(Priority[1], u) && !Access.Holds(Priority[2], u);
    }
  }

  /** The dispatcher only signs users in: it does not look at email
      verification, so an unverified user still reaches a dashboard, while
      the page guard would send them to verify first. */
  lemma DashboardIgnoresVerification(u: User)
    requires !u.isEmailVerified
    ensures DashboardFor(Some(u)) != ToLogin
    ensures Protect(Requirements(false, false, false), Some(u), false) == Redirect("/verify-email")
  {
  }
}
