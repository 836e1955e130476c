/** Request guards: the authentication step, the email-verification step,
    the four role checks of the role middleware, the upload steps, and the
    guard chain each route runs before its controller. */
module Access {
  import opened Common
  import opened Users
  import Uploads

  /** The decoded token the authentication step attaches to the request. Only
      the caller id and the admin claim are read by the model. */
  datatype Claims = Claims(id: Id, isAdmin: bool)

  /** What the guards see of a request: the verified token, if any, and the
      multipart files it carries. */
  datatype Request = Request(token: Option<Claims>, files: seq<Uploads.File>)

  function CallerOf(req: Request): Option<Id>
  {
    if req.token.Some? then Some(req.token.value.id) else None
  }

  // ---------------------------------------------------------------------------
  // Role checks

  datatype RoleCheck = AdminCheck | SellerCheck | EscrowAgentCheck | SellerOrAdminCheck

  /** The flag test each role check applies to the caller's stored record. */
  predicate Holds(check: RoleCheck, u: User)
  {
    match check
    case AdminCheck => u.isAdmin
    case SellerCheck => u.seller && u.sellerApproved
    case EscrowAgentCheck => u.escrowAgent && u.escrowApproved
    case SellerOrAdminCheck => u.isAdmin || (u.seller && u.sellerApproved)
  }

  /** A role check: no caller id is unauthenticated, before any lookup; a
      missing user or a failed flag test is forbidden. */
  function RequireRole(check: RoleCheck, caller: Option<Id>, users: UserStore): (o: Outcome)
    ensures caller.None? ==> o == Fail(Unauthenticated)
    ensures caller.Some? ==> (o == Pass <==> caller.value in users && Holds(check, users[caller.value]))
    ensures caller.Some? && o.Fail? ==> o.error == Forbidden
  {
    if caller.None? then Fail(Unauthenticated)
    else if caller.value !in users || !Holds(check, users[caller.value]) then Fail(Forbidden)
    else Pass
  }

  /** The seller and escrow-agent checks admit exactly the users whose
      capability has reached Approved, and the admin check ignores both. */
  lemma RoleChecksMatchCapabilities(u: User)
    ensures Holds(SellerCheck, u) <==> CapabilityOf(u, SellerRole) == Approved
    ensures Holds(EscrowAgentCheck, u) <==> CapabilityOf(u, EscrowRole) == Approved
    ensures Holds(SellerOrAdminCheck, u) <==> Holds(AdminCheck, u) || Holds(SellerCheck, u)
  {
  }

  /** A pending applicant is refused by the role check of the role applied
      for, and a rejection takes the capability away again. */
  lemma PendingAndRejectedAreRefused(users: UserStore, id: Id, now: Time)
    requires id in users && !users[id].seller && !users[id].sellerApproved
    ensures Apply(users, id, SellerRole, now).Ok?
    ensures RequireRole(SellerCheck, Some(id), Apply(users, id, SellerRole, now).value) == Fail(Forbidden)
    ensures Reject(Apply(users, id, SellerRole, now).value, id, SellerRole).Ok?
    ensures RequireRole(SellerCheck, Some(id), Reject(Apply(users, id, SellerRole, now).value, id, SellerRole).value) == Fail(Forbidden)
  {
    var u1 := Apply(users, id, SellerRole, now).value;
    assert u1[id].seller && !u1[id].sellerApproved;
    var u2 := Reject(u1, id, SellerRole).value;
    assert !u2[id].seller;
  }

  /** The email-verification step. Its definition is not part of the source;
      it is taken to pass exactly the callers whose stored record has a
      verified email. */
  function RequireEmailVerification(caller: Option<Id>, users: UserStore): (o: Outcome)
    ensures caller.None? ==> o == Fail(Unauthenticated)
    ensures caller.Some? ==> (o == Pass <==> caller.value in users && users[caller.value].isEmailVerified)
    ensures caller.Some? && o.Fail? ==> o.error == EmailNotVerified
  {
    if caller.None? then Fail(Unauthenticated)
    else if caller.value !in users || !users[caller.value].isEmailVerified then Fail(EmailNotVerified)
    else Pass
  }

  // ---------------------------------------------------------------------------
  // Guard chains

  datatype Guard =
    | Authenticate
    | VerifiedEmail
    | Role(check: RoleCheck)
    | UploadImages   // uploadMultiple: up to ten files in field "images"
    | UploadAvatar   // uploadSingle: one file in field "image"

  /** One middleware step on a request. An upload step that multer rejects
      ends in the server's 500 handler. */
  function Step(g: Guard, req: Request, users: UserStore): Outcome
  {
    match g
    case Authenticate => if req.token.None? then Fail(Unauthenticated) else Pass
    case VerifiedEmail => RequireEmailVerification(CallerOf(req), users)
    case Role(check) => RequireRole(check, CallerOf(req), users)
    case UploadImages => if Uploads.UploadMultiple(req.files).Ok? then Pass else Fail(ServerError)
    case UploadAvatar => if Uploads.UploadSingle(req.files).Ok? then Pass else Fail(ServerError)
  }

  /** Express runs the steps in order and the first one that answers ends the
      request: the chain passes iff every step passes, and otherwise fails
      with the error of its first failing step. */
  function RunChain(chain: seq<Guard>, req: Request, users: UserStore): (o: Outcome)
    ensures o == Pass <==> forall i :: 0 <= i < |chain| ==> Step(chain[i], req, users) == Pass
    ensures o.Fail? ==> exists i :: 0 <= i < |chain| && Step(chain[i], req, users) == o
                          && forall j :: 0 <= j < i ==> Step(chain[j], req, users) == Pass
    decreases |chain|
  {
    if |chain| == 0 then Pass
    else
      var first := Step(chain[0], req, users);
      if first.Fail? then first
      else
        var rest := RunChain(chain[1..], req, users);
        assert forall i :: 1 <= i < |chain| ==> chain[i] == chain[1..][i - 1];
        if rest.Fail? then
          assert exists i :: 0 <= i < |chain[1..]| && Step(chain[1..][i], req, users) == rest
                   && forall j :: 0 <= j < i ==> Step(chain[1..][j], req, users) == Pass;
          var i :| 0 <= i < |chain[1..]| && Step(chain[1..][i], req, users) == rest
                   && forall j :: 0 <= j < i ==> Step(chain[1..][j], req, users) == Pass;
          assert Step(chain[i + 1], req, users) == rest;
          assert forall j :: 0 <= j < i + 1 ==> Step(chain[j], req, users) == Pass by {
            forall j | 0 <= j < i + 1
              ensures Step(chain[j], req, users) == Pass
            {
              if j > 0 {
                assert chain[j] == chain[1..][j - 1];
              }
            }
          }
          rest
        else
          rest
  }

  // ---------------------------------------------------------------------------
  // Routes

  datatype Endpoint =
    // users
    | GetProfile | UpdateProfileRoute | ApplySeller | ApplyEscrow | SellerProfile | SellerReviews
    // administration
    | PendingSellers | ApproveSeller | RejectSeller | PendingEscrowAgents | ApproveEscrowAgent
    | RejectEscrowAgent | PendingProducts | ModerateProduct | Analytics | AllUsers | UpdateUserStatusRoute
    // products
    | ListProducts | SearchProducts | SellerProducts | GetProduct | CreateProduct | UpdateProduct | DeleteProduct
    // categories
    | ListCategories | GetCategory | CreateCategory | UpdateCategory | DeleteCategory
    // chats
    | ListChats | GetChat | GetChatMessages | CreateChat | MarkRead
    // transactions
    | ListTransactions | GetTransaction | CreateTransaction | UpdateTransaction | RequestEscrow
    | AcceptEscrow | DeclineEscrow | AssignEscrowAgent | SetStatus | UploadProof | ConfirmShipping
    | ConfirmDelivery | CreateDispute | Resolve

  const Verified: seq<Guard> := [Authenticate, VerifiedEmail]
  const AdminOnly: seq<Guard> := [Authenticate, Role(AdminCheck)]

  /** The middleware each route registers before its controller. */
  function Chain(e: Endpoint): seq<Guard>
  {
    match e
    case GetProfile => Verified
    case UpdateProfileRoute => Verified + [UploadAvatar]
    case ApplySeller => Verified
    case ApplyEscrow => Verified
    case SellerProfile => []
    case SellerReviews => []
    case PendingSellers => AdminOnly
    case ApproveSeller => AdminOnly
    case RejectSeller => AdminOnly
    case PendingEscrowAgents => AdminOnly
    case ApproveEscrowAgent => AdminOnly
    case RejectEscrowAgent => AdminOnly
    case PendingProducts => AdminOnly
    case ModerateProduct => AdminOnly
    case Analytics => AdminOnly
    case AllUsers => AdminOnly
    case UpdateUserStatusRoute => AdminOnly
    case ListProducts => []
    case SearchProducts => []
    case SellerProducts => []
    case GetProduct => []
    case CreateProduct => Verified + [Role(SellerOrAdminCheck), UploadImages]
    case UpdateProduct => Verified + [Role(SellerOrAdminCheck), UploadImages]
    case DeleteProduct => Verified + [Role(SellerOrAdminCheck)]
    case ListCategories => []
    case GetCategory => []
    case CreateCategory => AdminOnly
    case UpdateCategory => AdminOnly
    case DeleteCategory => AdminOnly
    case ListChats => Verified
    case GetChat => Verified
    case GetChatMessages => Verified
    case CreateChat => Verified
    case MarkRead => Verified
    case ListTransactions => Verified
    case GetTransaction => Verified
    case CreateTransaction => Verified
    case UpdateTransaction => Verified
    case RequestEscrow => Verified
    case AcceptEscrow => Verified
    case DeclineEscrow => Verified
    case AssignEscrowAgent => AdminOnly
    case SetStatus => Verified
    case UploadProof => Verified + [UploadImages]
    case ConfirmShipping => Verified
    case ConfirmDelivery => Verified
    case CreateDispute => Verified
    case Resolve => [Authenticate, Role(EscrowAgentCheck)]
  }

  predicate Public(e: Endpoint)
  {
    e in {SellerProfile, SellerReviews, ListProducts, SearchProducts, SellerProducts, GetProduct,
          ListCategories, GetCategory}
  }

  predicate AdminRoute(e: Endpoint)
  {
    e in {PendingSellers, ApproveSeller, RejectSeller, PendingEscrowAgents, ApproveEscrowAgent,
          RejectEscrowAgent, PendingProducts, ModerateProduct, Analytics, AllUsers,
          UpdateUserStatusRoute, CreateCategory, UpdateCategory, DeleteCategory, AssignEscrowAgent}
  }

  /** Routes guarded by authentication and a verified email alone. */
  predicate VerifiedRoute(e: Endpoint)
  {
    e in {GetProfile, ApplySeller, ApplyEscrow, ListChats, GetChat, GetChatMessages, CreateChat,
          MarkRead, ListTransactions, GetTransaction, CreateTransaction, UpdateTransaction,
          RequestEscrow, AcceptEscrow, DeclineEscrow, SetStatus, ConfirmShipping,
          ConfirmDelivery, CreateDispute}
  }

  /** The caller is authenticated and has a verified email on record. */
  predicate VerifiedCaller(req: Request, users: UserStore)
  {
    req.token.Some? && req.token.value.id in users && users[req.token.value.id].isEmailVerified
  }

  /** The caller is authenticated and passes `check` on their stored record. */
  predicate CallerHolds(check: RoleCheck, req: Request, users: UserStore)
  {
    req.token.Some? && req.token.value.id in users && Holds(check, users[req.token.value.id])
  }

  /** Public reads admit every request, signed in or not. */
  lemma PublicRoutesAdmitAll(e: Endpoint, req: Request, users: UserStore)
    requires Public(e)
    ensures RunChain(Chain(e), req, users) == Pass
  {
  }

  /** Every other route authenticates first, so a request without a token is
      answered 401 whatever else it carries. */
  lemma GuardedRoutesAuthenticateFirst(e: Endpoint, req: Request, users: UserStore)
    requires !Public(e)
    requires req.token.None?
    ensures RunChain(Chain(e), req, users) == Fail(Unauthenticated)
  {
    assert Chain(e)[0] == Authenticate;
  }

  /** The admin routes, the category writes and agent assignment admit
      exactly the signed-in admins; email verification plays no part. */
  lemma AdminRoutesAdmitExactlyAdmins(e: Endpoint, req: Request, users: UserStore)
    requires AdminRoute(e)
    ensures RunChain(Chain(e), req, users) == Pass <==> CallerHolds(AdminCheck, req, users)
    ensures req.token.Some? && !CallerHolds(AdminCheck, req, users) ==>
              RunChain(Chain(e), req, users) == Fail(Forbidden)
  {
    assert Chain(e) == AdminOnly;
    if req.token.Some? && !CallerHolds(AdminCheck, req, users) {
      assert Step(AdminOnly[1], req, users) == Fail(Forbidden);
    }
  }

  /** Profile reads, role applications, chats and the negotiation-side
      transaction routes admit exactly the signed-in callers with a verified
      email, whatever their roles. */
  lemma VerifiedRoutesAdmitVerifiedCallers(e: Endpoint, req: Request, users: UserStore)
    requires VerifiedRoute(e)
    ensures RunChain(Chain(e), req, users) == Pass <==> VerifiedCaller(req, users)
    ensures req.token.Some? && !VerifiedCaller(req, users) ==>
              RunChain(Chain(e), req, users) == Fail(EmailNotVerified)
  {
    assert Chain(e) == Verified;
    if req.token.Some? && !VerifiedCaller(req, users) {
      assert Step(Verified[1], req, users) == Fail(EmailNotVerified);
    }
  }

  /** Resolving a transaction admits exactly the approved escrow agents; an
      unverified email does not stop them. */
  lemma ResolveAdmitsApprovedAgents(req: Request, users: UserStore)
    ensures RunChain(Chain(Resolve), req, users) == Pass <==> CallerHolds(EscrowAgentCheck, req, users)
  {
    assert Chain(Resolve) == [Authenticate, Role(EscrowAgentCheck)];
    RunTwo(Authenticate, Role(EscrowAgentCheck), req, users);
  }

  /** Proof upload needs a verified caller and a file set the upload step
      accepts. */
  lemma ProofUploadRunsUploadStep(req: Request, users: UserStore)
    ensures RunChain(Chain(UploadProof), req, users) == Pass <==>
              VerifiedCaller(req, users) && Uploads.UploadMultiple(req.files).Ok?
  {
    assert Chain(UploadProof) == [Authenticate, VerifiedEmail, UploadImages];
    RunThree(Authenticate, VerifiedEmail, UploadImages, req, users);
  }

  /** Profile update needs a verified caller and at most one acceptable
      avatar file. */
  lemma ProfileUpdateRunsAvatarStep(req: Request, users: UserStore)
    ensures RunChain(Chain(UpdateProfileRoute), req, users) == Pass <==>
              VerifiedCaller(req, users) && Uploads.UploadSingle(req.files).Ok?
  {
    assert Chain(UpdateProfileRoute) == [Authenticate, VerifiedEmail, UploadAvatar];
    RunThree(Authenticate, VerifiedEmail, UploadAvatar, req, users);
  }

  /** Creating and updating a product need a verified caller who is an admin
      or an approved seller, and a file set the image upload accepts. */
  lemma ProductUploadsNeedSellerOrAdmin(e: Endpoint, req: Request, users: UserStore)
    requires e == CreateProduct || e == UpdateProduct
    ensures RunChain(Chain(e), req, users) == Pass <==>
              VerifiedCaller(req, users) && CallerHolds(SellerOrAdminCheck, req, users)
              && Uploads.UploadMultiple(req.files).Ok?
  {
    assert Chain(e) == [Authenticate, VerifiedEmail, Role(SellerOrAdminCheck), UploadImages];
    RunFour(Authenticate, VerifiedEmail, Role(SellerOrAdminCheck), UploadImages, req, users);
  }

  /** Deleting a product needs a verified caller who is an admin or an
      approved seller; no upload step runs. */
  lemma ProductDeleteNeedsSellerOrAdmin(req: Request, users: UserStore)
    ensures RunChain(Chain(DeleteProduct), req, users) == Pass <==>
              VerifiedCaller(req, users) && CallerHolds(SellerOrAdminCheck, req, users)
  {
    assert Chain(DeleteProduct) == [Authenticate, VerifiedEmail, Role(SellerOrAdminCheck)];
    RunThree(Authenticate, VerifiedEmail, Role(SellerOrAdminCheck), req, users);
  }

  /** On the product writes the email is checked before the role, so a
      signed-in caller with an unverified email hears about the email even
      when they are not a seller either. */
  lemma ProductWritesCheckEmailFirst(e: Endpoint, req: Request, users: UserStore)
    requires e == CreateProduct || e == UpdateProduct || e == DeleteProduct
    requires req.token.Some? && !VerifiedCaller(req, users)
    ensures RunChain(Chain(e), req, users) == Fail(EmailNotVerified)
  {
    var r := Chain(e)[2..];
    assert Chain(e) == [Authenticate] + ([VerifiedEmail] + r);
    RunChainCons(Authenticate, [VerifiedEmail] + r, req, users);
    RunChainCons(VerifiedEmail, r, req, users);
  }

  /** Running a chain is running its first step, then the rest. */
  lemma RunChainCons(g: Guard, rest: seq<Guard>, req: Request, users: UserStore)
    ensures RunChain([g] + rest, req, users) ==
              if Step(g, req, users).Fail? then Step(g, req, users) else RunChain(rest, req, users)
  {
    assert ([g] + rest)[0] == g;
    assert ([g] + rest)[1..] == rest;
  }

  /** A chain of one step answers as that step does. */
  lemma RunOne(a: Guard, req: Request, users: UserStore)
    ensures RunChain([a], req, users) == Step(a, req, users)
  {
    assert [a] == [a] + [];
    RunChainCons(a, [], req, users);
  }

  /** A chain of two steps passes exactly when both pass. */
  lemma RunTwo(a: Guard, b: Guard, req: Request, users: UserStore)
    ensures RunChain([a, b], req, users) == Pass <==> Step(a, req, users) == Pass && Step(b, req, users) == Pass
  {
    assert [a, b] == [a] + [b];
    RunChainCons(a, [b], req, users);
    RunOne(b, req, users);
  }

  /** A chain of three steps passes exactly when all three pass. */
  lemma RunThree(a: Guard, b: Guard, c: Guard, req: Request, users: UserStore)
    ensures RunChain([a, b, c], req, users) == Pass <==>
              Step(a, req, users) == Pass && Step(b, req, users) == Pass && Step(c, req, users) == Pass
  {
    assert [a, b, c] == [a] + [b, c];
    RunChainCons(a, [b, c], req, users);
    RunTwo(b, c, req, users);
  }

  /** A chain of four steps passes exactly when all four pass. */
  lemma RunFour(a: Guard, b: Guard, c: Guard, d: Guard, req: Request, users: UserStore)
    ensures RunChain([a, b, c, d], req, users) == Pass <==>
              Step(a, req, users) == Pass && Step(b, req, users) == Pass
              && Step(c, req, users) == Pass && Step(d, req, users) == Pass
  {
    assert [a, b, c, d] == [a] + [b, c, d];
    RunChainCons(a, [b, c, d], req, users);
    RunThree(b, c, d, req, users);
  }

  /** The blacklist flag the admin sets is read by no guard: after a
      successful status update every step answers as before. */
  lemma BlacklistChangesNoStep(users: UserStore, id: Id, blacklist: FlagBody, g: Guard, req: Request)
    requires UpdateUserStatus(users, id, blacklist).Ok?
    ensures Step(g, req, UpdateUserStatus(users, id, blacklist).value) == Step(g, req, users)
  {
    var users' := UpdateUserStatus(users, id, blacklist).value;
    assert forall k :: k in users' <==> k in users;
    forall check: RoleCheck, k | k in users
      ensures Holds(check, users'[k]) == Holds(check, users[k])
      ensures users'[k].isEmailVerified == users[k].isEmailVerified
    {
    }
  }

  /** Hence a blacklisted user keeps every route they could reach: no chain
      answers differently. */
  lemma {:induction false} BlacklistChangesNoChain(
    users: UserStore, id: Id, blacklist: FlagBody, chain: seq<Guard>, req: Request)
    requires UpdateUserStatus(users, id, blacklist).Ok?
    ensures RunChain(chain, req, UpdateUserStatus(users, id, blacklist).value) == RunChain(chain, req, users)
    decreases |chain|
  {
    if |chain| > 0 {
      BlacklistChangesNoStep(users, id, blacklist, chain[0], req);
      BlacklistChangesNoChain(users, id, blacklist, chain[1..], req);
    }
  }

  // ---------------------------------------------------------------------------
  // Route precedence among the product reads

  datatype Segment = Lit(text: string) | Param

  /** One pattern segment against one path segment. The router is built
      with its defaults, so a literal matches regardless of case (the
      regular expression's case folding pairs ASCII letters only with ASCII
      letters, and every literal here is ASCII), and a parameter matches
      any segment of at least one character. */
  predicate SegmentMatches(seg: Segment, text: string)
  {
    match seg
    case Lit(t) => ToLower(t) == ToLower(text)
    case Param => text != ""
  }

  /** Segment by segment, without the trailing-slash allowance. */
  predicate MatchesExactly(pattern: seq<Segment>, path: seq<string>)
  {
    |pattern| == |path| && forall i :: 0 <= i < |path| ==> SegmentMatches(pattern[i], path[i])
  }

  /** A path is its segments after the router's mount point; "/x/" gives
      ["x", ""]. The router is not strict, so one trailing slash, an empty
      last segment, may be dropped before matching. */
  predicate Matches(pattern: seq<Segment>, path: seq<string>)
  {
    || MatchesExactly(pattern, path)
    || (|path| > 0 && path[|path| - 1] == "" && MatchesExactly(pattern, path[..|path| - 1]))
  }

  /** The GET routes of the product router in registration order. */
  const ProductReads: seq<(seq<Segment>, Endpoint)> := [
    ([], ListProducts),
    ([Lit("search")], SearchProducts),
    ([Lit("seller"), Param], SellerProducts),
    ([Param], GetProduct)
  ]

  /** The first registered route whose pattern matches, as Express picks. */
  function FirstMatch(routes: seq<(seq<Segment>, Endpoint)>, path: seq<string>): (r: Option<Endpoint>)
    ensures r.Some? <==> exists i :: 0 <= i < |routes| && Matches(routes[i].0, path)
    ensures r.Some? ==> exists i :: 0 <= i < |routes| && Matches(routes[i].0, path) && routes[i].1 == r.value
                          && forall j :: 0 <= j < i ==> !Matches(routes[j].0, path)
    decreases |routes|
  {
    if |routes| == 0 then None
    else if Matches(routes[0].0, path) then Some(routes[0].1)
    else
      var r := FirstMatch(routes[1..], path);
      assert forall i :: 1 <= i < |routes| ==> routes[i] == routes[1..][i - 1];
      if r.Some? then
        var i :| 0 <= i < |routes[1..]| && Matches(routes[1..][i].0, path) && routes[1..][i].1 == r.value
                 && forall j :: 0 <= j < i ==> !Matches(routes[1..][j].0, path);
        assert Matches(routes[i + 1].0, path) && routes[i + 1].1 == r.value;
        assert forall j :: 0 <= j < i + 1 ==> !Matches(routes[j].0, path) by {
          forall j | 0 <= j < i + 1
            ensures !Matches(routes[j].0, path)
          {
            if j > 0 {
              assert routes[j] == routes[1..][j - 1];
            }
          }
        }
        r
      else
        r
  }

  /** "/search" is served by the search handler in any letter case even
      though "/:id" also matches it, "/seller/<id>" by the seller listing
      when the id is not empty, and any other non-empty single segment is a
      product id. */
  lemma ProductReadPrecedence(x: string, y: string)
    ensures ToLower(x) == "search" ==> FirstMatch(ProductReads, [x]) == Some(SearchProducts)
    ensures Matches(ProductReads[3].0, ["search"])
    ensures y != "" ==> FirstMatch(ProductReads, ["seller", y]) == Some(SellerProducts)
    ensures x != "" && ToLower(x) != "search" ==> FirstMatch(ProductReads, [x]) == Some(GetProduct)
    ensures FirstMatch(ProductReads, []) == Some(ListProducts)
  {
    ToLowerFixes("search");
    ToLowerFixes("seller");
    assert ProductReads[1].0 == [Lit("search")] && ProductReads[2].0 == [Lit("seller"), Param];
    if ToLower(x) == "search" {
      assert !Matches(ProductReads[0].0, [x]);
      assert MatchesExactly(ProductReads[1].0, [x]);
    }
    if y != "" {
      assert !Matches(ProductReads[0].0, ["seller", y]);
      assert !Matches(ProductReads[1].0, ["seller", y]);
      assert MatchesExactly(ProductReads[2].0, ["seller", y]);
    }
    if x != "" && ToLower(x) != "search" {
      assert [x][..0] == [];
      assert !Matches(ProductReads[0].0, [x]);
      assert !Matches(ProductReads[1].0, [x]);
      assert !Matches(ProductReads[2].0, [x]);
      assert MatchesExactly(ProductReads[3].0, [x]);
    }
  }

  /** Routes that agree on whether they match two paths pick the same
      handler for both. */
  lemma {:induction false} FirstMatchAgrees(routes: seq<(seq<Segment>, Endpoint)>, p: seq<string>, q: seq<string>)
    requires forall i :: 0 <= i < |routes| ==> (Matches(routes[i].0, p) <==> Matches(routes[i].0, q))
    ensures FirstMatch(routes, p) == FirstMatch(routes, q)
    decreases |routes|
  {
    if |routes| > 0 && !Matches(routes[0].0, p) {
      assert forall i :: 0 <= i < |routes[1..]| ==> routes[1..][i] == routes[i + 1];
      FirstMatchAgrees(routes[1..], p, q);
    }
  }

  /** No literal of the pattern is empty. */
  predicate NoEmptyLiteral(pattern: seq<Segment>)
  {
    forall i :: 0 <= i < |pattern| ==> pattern[i].Lit? ==> pattern[i].text != ""
  }

  /** For a pattern without empty literals, adding a trailing slash to a
      path that has none changes nothing. */
  lemma SlashMatches(pattern: seq<Segment>, path: seq<string>)
    requires NoEmptyLiteral(pattern)
    requires |path| == 0 || path[|path| - 1] != ""
    ensures Matches(pattern, path + [""]) <==> Matches(pattern, path)
  {
    var p := path + [""];
    assert p[..|p| - 1] == path;
    if |pattern| == |p| {
      assert !SegmentMatches(pattern[|p| - 1], p[|p| - 1]);
    }
  }

  /** A trailing slash changes nothing among the product reads. */
  lemma TrailingSlashIgnored(path: seq<string>)
    requires |path| == 0 || path[|path| - 1] != ""
    ensures FirstMatch(ProductReads, path + [""]) == FirstMatch(ProductReads, path)
  {
    forall i | 0 <= i < |ProductReads|
      ensures Matches(ProductReads[i].0, path + [""]) <==> Matches(ProductReads[i].0, path)
    {
      assert NoEmptyLiteral(ProductReads[i].0);
      SlashMatches(ProductReads[i].0, path);
    }
    FirstMatchAgrees(ProductReads, path + [""], path);
  }

  /** "/x/" for a single non-empty segment other than "search" is the
      product whose id is x; in particular "/seller/", whose seller id is
      empty, is the product "seller". */
  lemma OneSegmentWithSlashIsProduct(x: string)
    requires x != "" && ToLower(x) != "search"
    ensures FirstMatch(ProductReads, [x, ""]) == Some(GetProduct)
  {
    assert [x, ""] == [x] + [""];
    TrailingSlashIgnored([x]);
    ProductReadPrecedence(x, "");
  }

  /** "/seller/" carries an empty seller id, so the router serves the
      product whose id is "seller". */
  lemma SellerWithoutIdIsProduct()
    ensures FirstMatch(ProductReads, ["seller", ""]) == Some(GetProduct)
  {
    ToLowerFixes("seller");
    assert "seller"[5] != "search"[5];
    OneSegmentWithSlashIsProduct("seller");
  }
}
