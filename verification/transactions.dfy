/** The escrow transaction state machine: creation with its duplicate check,
    the negotiation and escrow transitions, the generic status setter, proof
    upload, shipping, delivery, dispute and resolution, and who may see which
    transactions. Every transition loads one record, runs its checks in
    order and either fails with nothing written or replaces that record. */
module Transactions {
  import opened Common
  import Users
  import Products
  import Sorting

  datatype Status =
    | Negotiating | EscrowRequested | EscrowDeclined | EscrowAssigned | PaymentInitiated
    | ProofUploaded | ShippingConfirmed | DeliveryConfirmed | Dispute | Completed | Cancelled

  function StatusName(s: Status): string
  {
    match s
    case Negotiating => "negotiating"
    case EscrowRequested => "escrow_requested"
    case EscrowDeclined => "escrow_declined"
    case EscrowAssigned => "escrow_assigned"
    case PaymentInitiated => "payment_initiated"
    case ProofUploaded => "proof_uploaded"
    case ShippingConfirmed => "shipping_confirmed"
    case DeliveryConfirmed => "delivery_confirmed"
    case Dispute => "dispute"
    case Completed => "completed"
    case Cancelled => "cancelled"
  }

  /** The schema's enum: a string names a status iff it is one of the eleven
      names. */
  function ParseStatus(s: string): (r: Option<Status>)
    ensures r.Some? ==> StatusName(r.value) == s
  {
    if s == "negotiating" then Some(Negotiating)
    else if s == "escrow_requested" then Some(EscrowRequested)
    else if s == "escrow_declined" then Some(EscrowDeclined)
    else if s == "escrow_assigned" then Some(EscrowAssigned)
    else if s == "payment_initiated" then Some(PaymentInitiated)
    else if s == "proof_uploaded" then Some(ProofUploaded)
    else if s == "shipping_confirmed" then Some(ShippingConfirmed)
    else if s == "delivery_confirmed" then Some(DeliveryConfirmed)
    else if s == "dispute" then Some(Dispute)
    else if s == "completed" then Some(Completed)
    else if s == "cancelled" then Some(Cancelled)
    else None
  }

  lemma StatusRoundTrip(s: Status)
    ensures ParseStatus(StatusName(s)) == Some(s)
  {
  }

  /** The eleven statuses, each named once. */
  const AllStatuses: seq<Status> := [
    Negotiating, EscrowRequested, EscrowDeclined, EscrowAssigned, PaymentInitiated,
    ProofUploaded, ShippingConfirmed, DeliveryConfirmed, Dispute, Completed, Cancelled]

  lemma AllStatusesEnumerates(s: Status)
    ensures |AllStatuses| == 11
    ensures s in AllStatuses
    ensures forall i, j :: 0 <= i < j < |AllStatuses| ==> StatusName(AllStatuses[i]) != StatusName(AllStatuses[j])
  {
  }

  /** The statuses `createTransaction` treats as an open deal for the same
      product and buyer. */
  const Blocking: set<Status> := {Negotiating, EscrowRequested, EscrowAssigned, PaymentInitiated}

  /** The statuses the admin analytics count as active. */
  const AnalyticsActive: set<Status> := {
    Negotiating, EscrowRequested, EscrowAssigned, PaymentInitiated,
    ProofUploaded, ShippingConfirmed, DeliveryConfirmed}

  /** The four targets the generic status setter accepts. */
  const Settable: set<Status> := {PaymentInitiated, ProofUploaded, ShippingConfirmed, DeliveryConfirmed}

  /** Analytics count seven statuses as active, leaving out exactly the
      dispute, the declined escrow and the two terminal statuses; the
      duplicate check blocks only on four of those seven. */
  lemma StatusSets(s: Status)
    ensures s in AnalyticsActive <==> s !in {Dispute, EscrowDeclined, Completed, Cancelled}
    ensures Blocking < AnalyticsActive
    ensures s in AnalyticsActive - Blocking <==> s in {ProofUploaded, ShippingConfirmed, DeliveryConfirmed}
    ensures |AnalyticsActive| == 7 && |Blocking| == 4
  {
    assert ProofUploaded in AnalyticsActive - Blocking;
  }

  datatype Transaction = Transaction(
    product: Id,
    buyer: Id,
    seller: Id,
    escrowAgent: Option<Id>,
    status: Status,
    price: int,
    escrowRequested: bool,
    escrowRequestedBy: Option<Id>,
    escrowAccepted: bool,
    proofImages: seq<Url>,
    shippingTracking: Option<string>,
    shippingConfirmed: bool,
    deliveryConfirmed: bool,
    disputeReason: Option<string>,
    resolutionNotes: Option<string>,
    completedAt: Option<Time>,
    createdAt: Time)

  type TxStore = map<Id, Transaction>

  /** The schema defaults every optional field of a new transaction takes:
      no agent, no escrow request, nothing confirmed, no proof, no dispute,
      no resolution. */
  predicate Pristine(t: Transaction)
  {
    && t.escrowAgent.None? && !t.escrowRequested && t.escrowRequestedBy.None? && !t.escrowAccepted
    && t.proofImages == [] && t.shippingTracking.None? && !t.shippingConfirmed && !t.deliveryConfirmed
    && t.disputeReason.None? && t.resolutionNotes.None? && t.completedAt.None?
  }

  function NewTransaction(product: Id, buyer: Id, seller: Id, price: int, now: Time): (t: Transaction)
    ensures Pristine(t) && t.status == Negotiating
    ensures t.product == product && t.buyer == buyer && t.seller == seller && t.price == price
  {
    Transaction(product, buyer, seller, None, Negotiating, price, false, None, false, [],
                None, false, false, None, None, None, now)
  }

  // ---------------------------------------------------------------------------
  // Creation

  /** A transaction of `buyer` on `product` that still blocks a new one. */
  predicate HasOpenDeal(txs: TxStore, product: Id, buyer: Id)
  {
    exists k :: k in txs && txs[k].product == product && txs[k].buyer == buyer && txs[k].status in Blocking
  }

  /** `price || product.price`, and `if (price) … = Number(price)`: a truthy
      offer is taken as the number it reads as, text "0" included; an absent
      offer, empty text or a JSON 0 takes the fallback price. */
  function OfferOr(price: Option<BodyNumber>, fallback: int): (r: int)
    ensures NumberTruthy(price) ==> r == NumberOf(price.value)
    ensures !NumberTruthy(price) ==> r == fallback
  {
    if NumberTruthy(price) then NumberOf(price.value) else fallback
  }

  /** `createTransaction`: unknown product, own product, product not active,
      open deal on the same product, in that order; otherwise a new
      negotiation at the offered or listed price. */
  function CreateTransaction(
    txs: TxStore, products: Products.ProductStore, buyer: Id, productId: Option<Id>,
    price: Option<BodyNumber>, now: Time): (r: Result<(TxStore, Id)>)
    ensures productId.None? || productId.value !in products ==> r == Err(NotFound)
    ensures productId.Some? && productId.value in products ==>
      var p := products[productId.value];
      && (p.seller == buyer ==> r == Err(BadRequest))
      && (p.seller != buyer && p.status != Products.Active ==> r == Err(BadRequest))
      && ((p.seller != buyer && p.status == Products.Active && HasOpenDeal(txs, productId.value, buyer))
            ==> r == Err(BadRequest))
      && (r.Ok? <==> p.seller != buyer && p.status == Products.Active && !HasOpenDeal(txs, productId.value, buyer))
    ensures r.Ok? ==>
      var (txs', id) := r.value;
      && id !in txs
      && txs'.Keys == txs.Keys + {id}
      && (forall k :: k in txs ==> txs'[k] == txs[k])
      && Pristine(txs'[id]) && txs'[id].status == Negotiating
      && txs'[id].product == productId.value && txs'[id].buyer == buyer
      && txs'[id].seller == products[productId.value].seller
      && txs'[id].price == OfferOr(price, products[productId.value].price)
      && txs'[id].createdAt == now
  {
    if productId.None? || productId.value !in products then Err(NotFound)
    else
      var p := products[productId.value];
      if p.seller == buyer then Err(BadRequest)
      else if p.status != Products.Active then Err(BadRequest)
      else if HasOpenDeal(txs, productId.value, buyer) then Err(BadRequest)
      else
        var id := Fresh(txs.Keys);
        Ok((txs[id := NewTransaction(productId.value, buyer, p.seller, OfferOr(price, p.price), now)], id))
  }

  /** The duplicate check looks only at the four early statuses: a buyer
      whose earlier deal on the same product has reached proof upload,
      shipping or delivery may open a second one. */
  lemma DuplicateCheckOnlyEarly(
    txs: TxStore, products: Products.ProductStore, buyer: Id, productId: Id, price: Option<BodyNumber>,
    now: Time, k: Id)
    requires productId in products && products[productId].seller != buyer
    requires products[productId].status == Products.Active
    requires k in txs && txs[k].product == productId && txs[k].buyer == buyer
    requires txs[k].status in {ProofUploaded, ShippingConfirmed, DeliveryConfirmed}
    requires forall j :: j in txs && j != k ==> txs[j].product != productId
    ensures CreateTransaction(txs, products, buyer, Some(productId), price, now).Ok?
  {
  }

  /** At most one transaction per (product, buyer) is in a blocking status. */
  ghost predicate OneOpenDealPerPair(txs: TxStore)
  {
    forall a, b :: a in txs && b in txs && a != b
      && txs[a].product == txs[b].product && txs[a].buyer == txs[b].buyer
      ==> txs[a].status !in Blocking || txs[b].status !in Blocking
  }

  /** Creation alone keeps at most one open deal per product and buyer. */
  lemma CreateKeepsOneOpenDeal(
    txs: TxStore, products: Products.ProductStore, buyer: Id, productId: Option<Id>,
    price: Option<BodyNumber>, now: Time)
    requires OneOpenDealPerPair(txs)
    requires CreateTransaction(txs, products, buyer, productId, price, now).Ok?
    ensures OneOpenDealPerPair(CreateTransaction(txs, products, buyer, productId, price, now).value.0)
  {
    var (txs', id) := CreateTransaction(txs, products, buyer, productId, price, now).value;
    forall a, b | a in txs' && b in txs' && a != b
      && txs'[a].product == txs'[b].product && txs'[a].buyer == txs'[b].buyer
      ensures txs'[a].status !in Blocking || txs'[b].status !in Blocking
    {
      if a == id {
        assert b in txs && txs[b].product == productId.value && txs[b].buyer == buyer;
      } else if b == id {
        assert a in txs && txs[a].product == productId.value && txs[a].buyer == buyer;
      }
    }
  }

  // ---------------------------------------------------------------------------
  // Transitions on one record

  /** `updateTransaction`: buyer or seller, at any status; a falsy price
      leaves the price alone. */
  function UpdatePrice(t: Transaction, caller: Id, price: Option<BodyNumber>): (r: Result<Transaction>)
    ensures r.Err? <==> caller != t.buyer && caller != t.seller
    ensures r.Err? ==> r.error == Forbidden
    ensures r.Ok? ==> r.value.price == OfferOr(price, t.price) && r.value.(price := t.price) == t
  {
    if caller != t.buyer && caller != t.seller then Err(Forbidden)
    else Ok(t.(price := OfferOr(price, t.price)))
  }

  /** A price of 0 depends on how it is sent: as a JSON number it is falsy,
      so a new deal takes the listed price and an update keeps the old one;
      as the text "0" it is truthy and 0 is stored in both. */
  lemma ZeroOfferDependsOnEncoding(t: Transaction, listed: int)
    requires t.buyer != t.seller
    ensures OfferOr(Some(Json(0)), listed) == listed
    ensures OfferOr(Some(Text(0)), listed) == 0
    ensures UpdatePrice(t, t.buyer, Some(Json(0))) == Ok(t)
    ensures UpdatePrice(t, t.buyer, Some(Text(0))) == Ok(t.(price := 0))
  {
  }

  /** `requestEscrow`: from negotiation only, by anyone who passed the
      route's guards; the caller is recorded as the requester. */
  function RequestEscrow(t: Transaction, caller: Id): (r: Result<Transaction>)
    ensures r.Err? <==> t.status != Negotiating
    ensures r.Err? ==> r.error == BadRequest
    ensures r.Ok? ==>
      && r.value.status == EscrowRequested && r.value.escrowRequested
      && r.value.escrowRequestedBy == Some(caller)
      && r.value.(status := t.status, escrowRequested := t.escrowRequested,
                  escrowRequestedBy := t.escrowRequestedBy) == t
  {
    if t.status != Negotiating then Err(BadRequest)
    else Ok(t.(escrowRequested := true, escrowRequestedBy := Some(caller), status := EscrowRequested))
  }

  /** `acceptEscrow`: the seller only, checked before the status. */
  function AcceptEscrow(t: Transaction, caller: Id): (r: Result<Transaction>)
    ensures caller != t.seller ==> r == Err(Forbidden)
    ensures caller == t.seller && t.status != EscrowRequested ==> r == Err(BadRequest)
    ensures r.Ok? <==> caller == t.seller && t.status == EscrowRequested
    ensures r.Ok? ==>
      && r.value.status == EscrowAssigned && r.value.escrowAccepted
      && r.value.(status := t.status, escrowAccepted := t.escrowAccepted) == t
  {
    if caller != t.seller then Err(Forbidden)
    else if t.status != EscrowRequested then Err(BadRequest)
    else Ok(t.(escrowAccepted := true, status := EscrowAssigned))
  }

  /** `declineEscrow`: the seller only, checked before the status; the
      request is withdrawn and negotiation resumes. */
  function DeclineEscrow(t: Transaction, caller: Id): (r: Result<Transaction>)
    ensures caller != t.seller ==> r == Err(Forbidden)
    ensures caller == t.seller && t.status != EscrowRequested ==> r == Err(BadRequest)
    ensures r.Ok? <==> caller == t.seller && t.status == EscrowRequested
    ensures r.Ok? ==>
      && r.value.status == Negotiating && !r.value.escrowRequested && r.value.escrowRequestedBy.None?
      && r.value.(status := t.status, escrowRequested := t.escrowRequested,
                  escrowRequestedBy := t.escrowRequestedBy) == t
  {
    if caller != t.seller then Err(Forbidden)
    else if t.status != EscrowRequested then Err(BadRequest)
    else Ok(t.(escrowRequested := false, escrowRequestedBy := None, status := Negotiating))
  }

  /** A decline exactly undoes a request made on a transaction that had no
      request on file. */
  lemma DeclineUndoesRequest(t: Transaction, requester: Id)
    requires t.status == Negotiating && !t.escrowRequested && t.escrowRequestedBy.None?
    ensures RequestEscrow(t, requester).Ok?
    ensures DeclineEscrow(RequestEscrow(t, requester).value, t.seller) == Ok(t)
  {
  }

  /** Anyone may request escrow, not only the two parties. */
  lemma RequestEscrowHasNoActorCheck(t: Transaction, stranger: Id)
    requires t.status == Negotiating && stranger != t.buyer && stranger != t.seller
    ensures RequestEscrow(t, stranger).Ok?
    ensures RequestEscrow(t, stranger).value.escrowRequestedBy == Some(stranger)
  {
  }

  /** `assignEscrowAgent`: only after the seller accepted, and only an
      approved escrow agent; the agent is the only field written and the
      status stays where it was. */
  function AssignAgent(t: Transaction, users: Users.UserStore, agent: Option<Id>): (r: Result<Transaction>)
    ensures r.Err? <==> t.status != EscrowAssigned || !ApprovedAgent(users, agent)
    ensures r.Err? ==> r.error == BadRequest
    ensures r.Ok? ==> r.value.escrowAgent == agent && r.value.(escrowAgent := t.escrowAgent) == t
    ensures r.Ok? ==> r.value.status == EscrowAssigned
  {
    if t.status != EscrowAssigned then Err(BadRequest)
    else if !ApprovedAgent(users, agent) then Err(BadRequest)
    else Ok(t.(escrowAgent := agent))
  }

  predicate ApprovedAgent(users: Users.UserStore, agent: Option<Id>)
  {
    agent.Some? && agent.value in users && users[agent.value].escrowAgent && users[agent.value].escrowApproved
  }

  /** `updateTransactionStatus`. The target must be one of the four settable
      names; then payment needs the buyer and proof the seller, and shipping
      (delivery) needs the seller (buyer) or any user carrying the escrow
      agent flag. The caller's record is read only for that last test; a
      missing record there throws, a 500. The current status is never
      consulted. */
  function SetStatus(t: Transaction, caller: Id, callerUser: Option<Users.User>, status: Option<string>)
    : (r: Result<Transaction>)
    ensures r.Ok? ==> r.value.status in Settable
    ensures r.Ok? ==> r.value.buyer == t.buyer && r.value.seller == t.seller && r.value.product == t.product
    ensures r.Err? ==> r.error in {BadRequest, Forbidden, ServerError}
  {
    var target := if status.Some? then ParseStatus(status.value) else None;
    if target.None? || target.value !in Settable then Err(BadRequest)
    else if target.value == PaymentInitiated && t.buyer != caller then Err(Forbidden)
    else if target.value == ProofUploaded && t.seller != caller then Err(Forbidden)
    else if target.value == ShippingConfirmed && t.seller != caller && callerUser.None? then Err(ServerError)
    else if target.value == ShippingConfirmed && t.seller != caller && !callerUser.value.escrowAgent then Err(Forbidden)
    else if target.value == DeliveryConfirmed && t.buyer != caller && callerUser.None? then Err(ServerError)
    else if target.value == DeliveryConfirmed && t.buyer != caller && !callerUser.value.escrowAgent then Err(Forbidden)
    else
      Ok(t.(status := target.value,
            shippingConfirmed := target.value == ShippingConfirmed || t.shippingConfirmed,
            deliveryConfirmed := target.value == DeliveryConfirmed || t.deliveryConfirmed))
  }

  /** May `caller` move the transaction to `target` through the setter? */
  predicate MaySet(t: Transaction, caller: Id, callerUser: Option<Users.User>, target: Status)
  {
    match target
    case PaymentInitiated => caller == t.buyer
    case ProofUploaded => caller == t.seller
    case ShippingConfirmed => caller == t.seller || (callerUser.Some? && callerUser.value.escrowAgent)
    case DeliveryConfirmed => caller == t.buyer || (callerUser.Some? && callerUser.value.escrowAgent)
    case _ => false
  }

  /** The setter succeeds exactly for a settable target and an allowed
      actor, whatever the current status, and then writes the target and
      the matching confirmation flag and nothing else. */
  lemma SetStatusMeaning(t: Transaction, caller: Id, callerUser: Option<Users.User>, target: Status)
    ensures var r := SetStatus(t, caller, callerUser, Some(StatusName(target)));
      && (r.Ok? <==> target in Settable && MaySet(t, caller, callerUser, target))
      && (target !in Settable ==> r == Err(BadRequest))
      && (r.Ok? ==>
            && r.value.status == target
            && r.value.shippingConfirmed == (target == ShippingConfirmed || t.shippingConfirmed)
            && r.value.deliveryConfirmed == (target == DeliveryConfirmed || t.deliveryConfirmed)
            && r.value.(status := t.status, shippingConfirmed := t.shippingConfirmed,
                        deliveryConfirmed := t.deliveryConfirmed) == t)
  {
    StatusRoundTrip(target);
  }

  /** The status a body names, if any. */
  function TargetOf(status: Option<string>): Option<Status>
  {
    if status.Some? then ParseStatus(status.value) else None
  }

  /** The actor test for `target` reads the caller's stored record: shipping
      by someone other than the seller, or delivery by someone other than
      the buyer. */
  predicate ReadsRecord(t: Transaction, caller: Id, target: Status)
  {
    (target == ShippingConfirmed && caller != t.seller) || (target == DeliveryConfirmed && caller != t.buyer)
  }

  /** Which refusal the setter gives: 400 for a target outside the four
      settable names; a 500 when the actor test needs the caller's record
      and there is none; otherwise 403 exactly when the caller may not set
      the target. */
  lemma SetStatusErrorKinds(t: Transaction, caller: Id, callerUser: Option<Users.User>, status: Option<string>)
    ensures var r := SetStatus(t, caller, callerUser, status);
      var target := TargetOf(status);
      && (r == Err(BadRequest) <==> target.None? || target.value !in Settable)
      && (r == Err(ServerError) <==>
            target.Some? && target.value in Settable && ReadsRecord(t, caller, target.value) && callerUser.None?)
      && (r == Err(Forbidden) <==>
            && target.Some? && target.value in Settable && !MaySet(t, caller, callerUser, target.value)
            && !(ReadsRecord(t, caller, target.value) && callerUser.None?))
  {
  }

  /** A body without a status, or naming something other than a status, is
      refused before any actor check. */
  lemma SetStatusRejectsUnknownNames(t: Transaction, caller: Id, callerUser: Option<Users.User>, s: string)
    requires ParseStatus(s).None?
    ensures SetStatus(t, caller, callerUser, Some(s)) == Err(BadRequest)
    ensures SetStatus(t, caller, callerUser, None) == Err(BadRequest)
  {
  }

  /** The setter ignores the current status: two transactions that differ
      only in status get the same answer, so, for instance, a completed sale
      can be moved back to payment. */
  lemma SetStatusIgnoresCurrentStatus(t: Transaction, caller: Id, callerUser: Option<Users.User>, status: Option<string>, s: Status)
    ensures SetStatus(t.(status := s), caller, callerUser, status).Ok? <==> SetStatus(t, caller, callerUser, status).Ok?
    ensures SetStatus(t.(status := s), caller, callerUser, status).Err? ==>
              SetStatus(t.(status := s), caller, callerUser, status) == SetStatus(t, caller, callerUser, status)
    ensures SetStatus(t.(status := s), caller, callerUser, status).Ok? ==>
              SetStatus(t.(status := s), caller, callerUser, status).value.status ==
              SetStatus(t, caller, callerUser, status).value.status
  {
  }

  /** Any holder of the escrow-agent flag, approved or not and assigned or
      not, may mark any transaction shipped or delivered. */
  lemma AnyAgentFlagMayConfirm(t: Transaction, caller: Id, u: Users.User)
    requires u.escrowAgent && t.escrowAgent != Some(caller)
    ensures SetStatus(t, caller, Some(u), Some(StatusName(ShippingConfirmed))).Ok?
    ensures SetStatus(t, caller, Some(u), Some(StatusName(DeliveryConfirmed))).Ok?
  {
    StatusRoundTrip(ShippingConfirmed);
    StatusRoundTrip(DeliveryConfirmed);
  }

  /** `uploadProof`: the seller only, with at least one file; the new proof
      URLs are appended in upload order and the status is forced. */
  function UploadProof(t: Transaction, caller: Id, uploaded: seq<Url>): (r: Result<Transaction>)
    ensures caller != t.seller ==> r == Err(Forbidden)
    ensures caller == t.seller && |uploaded| == 0 ==> r == Err(BadRequest)
    ensures r.Ok? <==> caller == t.seller && |uploaded| > 0
    ensures r.Ok? ==>
      && r.value.proofImages == t.proofImages + uploaded
      && r.value.proofImages[..|t.proofImages|] == t.proofImages
      && r.value.status == ProofUploaded
      && r.value.(proofImages := t.proofImages, status := t.status) == t
  {
    if caller != t.seller then Err(Forbidden)
    else if |uploaded| == 0 then Err(BadRequest)
    else Ok(t.(proofImages := t.proofImages + uploaded, status := ProofUploaded))
  }

  /** Two uploads append both batches in order. */
  lemma ProofUploadsAccumulate(t: Transaction, a: seq<Url>, b: seq<Url>)
    requires |a| > 0 && |b| > 0
    ensures UploadProof(t, t.seller, a).Ok?
    ensures UploadProof(UploadProof(t, t.seller, a).value, t.seller, b).Ok?
    ensures UploadProof(UploadProof(t, t.seller, a).value, t.seller, b).value.proofImages == t.proofImages + a + b
  {
  }

  /** `confirmShipping`: the seller only, from any status; an empty or
      absent tracking number is stored as null. */
  function ConfirmShipping(t: Transaction, caller: Id, tracking: Option<string>): (r: Result<Transaction>)
    ensures r.Err? <==> caller != t.seller
    ensures r.Err? ==> r.error == Forbidden
    ensures r.Ok? ==>
      && r.value.status == ShippingConfirmed && r.value.shippingConfirmed
      && r.value.shippingTracking == OrNull(tracking)
      && r.value.(status := t.status, shippingConfirmed := t.shippingConfirmed,
                  shippingTracking := t.shippingTracking) == t
  {
    if caller != t.seller then Err(Forbidden)
    else Ok(t.(shippingTracking := OrNull(tracking), shippingConfirmed := true, status := ShippingConfirmed))
  }

  /** `confirmDelivery`: the buyer only, from any status. */
  function ConfirmDelivery(t: Transaction, caller: Id): (r: Result<Transaction>)
    ensures r.Err? <==> caller != t.buyer
    ensures r.Err? ==> r.error == Forbidden
    ensures r.Ok? ==>
      && r.value.status == DeliveryConfirmed && r.value.deliveryConfirmed
      && r.value.(status := t.status, deliveryConfirmed := t.deliveryConfirmed) == t
  {
    if caller != t.buyer then Err(Forbidden)
    else Ok(t.(deliveryConfirmed := true, status := DeliveryConfirmed))
  }

  /** `createDispute`: buyer or seller, from any status; the reason is
      stored as given. */
  function CreateDispute(t: Transaction, caller: Id, reason: Option<string>): (r: Result<Transaction>)
    ensures r.Err? <==> caller != t.buyer && caller != t.seller
    ensures r.Err? ==> r.error == Forbidden
    ensures r.Ok? ==>
      && r.value.status == Dispute && r.value.disputeReason == reason
      && r.value.(status := t.status, disputeReason := t.disputeReason) == t
  {
    if caller != t.buyer && caller != t.seller then Err(Forbidden)
    else Ok(t.(disputeReason := reason, status := Dispute))
  }

  /** A completed sale can still be disputed; it keeps its completion date
      while in dispute. */
  lemma DisputeAfterCompletion(t: Transaction, reason: Option<string>)
    requires t.status == Completed && t.completedAt.Some?
    ensures CreateDispute(t, t.buyer, reason).Ok?
    ensures CreateDispute(t, t.buyer, reason).value.status == Dispute
    ensures CreateDispute(t, t.buyer, reason).value.completedAt == t.completedAt
  {
  }

  /** `resolveTransaction`: only the assigned agent, from any status; the
      sale completes now, with the notes or null. */
  function Resolve(t: Transaction, caller: Id, notes: Option<string>, now: Time): (r: Result<Transaction>)
    ensures r.Err? <==> t.escrowAgent != Some(caller)
    ensures r.Err? ==> r.error == Forbidden
    ensures r.Ok? ==>
      && r.value.status == Completed && r.value.completedAt == Some(now)
      && r.value.resolutionNotes == OrNull(notes)
      && r.value.(status := t.status, completedAt := t.completedAt, resolutionNotes := t.resolutionNotes) == t
  {
    if t.escrowAgent.None? || t.escrowAgent.value != caller then Err(Forbidden)
    else Ok(t.(resolutionNotes := OrNull(notes), status := Completed, completedAt := Some(now)))
  }

  // ---------------------------------------------------------------------------
  // Transitions on the store

  datatype Op =
    | UpdatePriceOp(price: Option<BodyNumber>)
    | RequestEscrowOp
    | AcceptEscrowOp
    | DeclineEscrowOp
    | AssignAgentOp(agent: Option<Id>)
    | SetStatusOp(status: Option<string>)
    | UploadProofOp(uploaded: seq<Url>)
    | ConfirmShippingOp(tracking: Option<string>)
    | ConfirmDeliveryOp
    | CreateDisputeOp(reason: Option<string>)
    | ResolveOp(notes: Option<string>)

  /** The record-level effect of one operation by `caller`. */
  function Transition(t: Transaction, op: Op, caller: Id, users: Users.UserStore, now: Time): Result<Transaction>
  {
    match op
    case UpdatePriceOp(price) => UpdatePrice(t, caller, price)
    case RequestEscrowOp => RequestEscrow(t, caller)
    case AcceptEscrowOp => AcceptEscrow(t, caller)
    case DeclineEscrowOp => DeclineEscrow(t, caller)
    case AssignAgentOp(agent) => AssignAgent(t, users, agent)
    case SetStatusOp(status) => SetStatus(t, caller, if caller in users then Some(users[caller]) else None, status)
    case UploadProofOp(uploaded) => UploadProof(t, caller, uploaded)
    case ConfirmShippingOp(tracking) => ConfirmShipping(t, caller, tracking)
    case ConfirmDeliveryOp => ConfirmDelivery(t, caller)
    case CreateDisputeOp(reason) => CreateDispute(t, caller, reason)
    case ResolveOp(notes) => Resolve(t, caller, notes, now)
  }

  /** One request against the store: an unknown id is not found; otherwise
      the transition either fails and nothing is written, or its result
      replaces that one record. */
  function Perform(txs: TxStore, id: Id, op: Op, caller: Id, users: Users.UserStore, now: Time)
    : (r: Result<TxStore>)
    ensures id !in txs ==> r == Err(NotFound)
    ensures id in txs ==> (r.Ok? <==> Transition(txs[id], op, caller, users, now).Ok?)
    ensures id in txs && r.Err? ==> r.error == Transition(txs[id], op, caller, users, now).error
    ensures r.Ok? ==>
      && r.value.Keys == txs.Keys
      && r.value[id] == Transition(txs[id], op, caller, users, now).value
      && forall k :: k in txs && k != id ==> r.value[k] == txs[k]
  {
    if id !in txs then Err(NotFound)
    else
      var t := Transition(txs[id], op, caller, users, now);
      if t.Err? then Err(t.error) else Ok(txs[id := t.value])
  }

  /** No operation ever writes `escrow_declined`: a record shows it only if
      it already did. */
  lemma EscrowDeclinedNeverWritten(t: Transaction, op: Op, caller: Id, users: Users.UserStore, now: Time)
    requires Transition(t, op, caller, users, now).Ok?
    requires Transition(t, op, caller, users, now).value.status == EscrowDeclined
    ensures t.status == EscrowDeclined
  {
  }

  /** The parties and the product of a transaction never change. */
  lemma TransitionsKeepParties(t: Transaction, op: Op, caller: Id, users: Users.UserStore, now: Time)
    requires Transition(t, op, caller, users, now).Ok?
    ensures var t' := Transition(t, op, caller, users, now).value;
      t'.buyer == t.buyer && t'.seller == t.seller && t'.product == t.product && t'.createdAt == t.createdAt
  {
    match op {
      case SetStatusOp(status) =>
        var u := if caller in users then Some(users[caller]) else None;
        var target := if status.Some? then ParseStatus(status.value) else None;
        if target.Some? && target.value in Settable {
          StatusRoundTrip(target.value);
          SetStatusMeaning(t, caller, u, target.value);
        }
      case _ =>
    }
  }

  /** The generic setter can reopen a deal, so the whole system does not keep
      one open deal per product and buyer: an old deal moved back to payment
      sits beside a newer one still negotiating. */
  lemma SetterReopensDeal(t1: Transaction, t2: Transaction, users: Users.UserStore, now: Time)
    requires t1.product == t2.product && t1.buyer == t2.buyer
    requires t1.status == DeliveryConfirmed && t2.status == Negotiating
    ensures var txs := map[0 := t1, 1 := t2];
      && OneOpenDealPerPair(txs)
      && Perform(txs, 0, SetStatusOp(Some(StatusName(PaymentInitiated))), t1.buyer, users, now).Ok?
      && !OneOpenDealPerPair(Perform(txs, 0, SetStatusOp(Some(StatusName(PaymentInitiated))), t1.buyer, users, now).value)
  {
    var txs := map[0 := t1, 1 := t2];
    var callerUser := if t1.buyer in users then Some(users[t1.buyer]) else None;
    SetStatusMeaning(t1, t1.buyer, callerUser, PaymentInitiated);
    var txs' := Perform(txs, 0, SetStatusOp(Some(StatusName(PaymentInitiated))), t1.buyer, users, now).value;
    assert txs'[0].status == PaymentInitiated && txs'[1] == t2;
  }

  // ---------------------------------------------------------------------------
  // Visibility

  /** `getTransaction`'s test: an admin, a party, or a holder of the escrow
      agent flag who is the assigned agent. */
  predicate CanView(t: Transaction, caller: Id, u: Users.User)
  {
    u.isAdmin || t.buyer == caller || t.seller == caller || (u.escrowAgent && t.escrowAgent == Some(caller))
  }

  /** `getTransaction`. The caller's record is read after the lookup; a
      missing one throws, a 500. */
  function GetTransaction(txs: TxStore, users: Users.UserStore, id: Id, caller: Id): (r: Result<Transaction>)
    ensures id !in txs ==> r == Err(NotFound)
    ensures id in txs && caller !in users ==> r == Err(ServerError)
    ensures r.Ok? <==> id in txs && caller in users && CanView(txs[id], caller, users[caller])
    ensures r.Ok? ==> r.value == txs[id]
    ensures id in txs && caller in users && r.Err? ==> r.error == Forbidden
  {
    if id !in txs then Err(NotFound)
    else if caller !in users then Err(ServerError)
    else if !CanView(txs[id], caller, users[caller]) then Err(Forbidden)
    else Ok(txs[id])
  }

  /** `getTransactions`' query: an admin sees everything, an approved agent
      the transactions assigned to them, anyone else the ones they are a
      party to; a non-empty status narrows by name. */
  predicate Listed(t: Transaction, caller: Id, u: Users.User, status: Option<string>)
  {
    && (if u.isAdmin then true
        else if u.escrowAgent && u.escrowApproved then t.escrowAgent == Some(caller)
        else t.buyer == caller || t.seller == caller)
    && (Truthy(status) ==> StatusName(t.status) == status.value)
  }

  function ListedIds(txs: TxStore, users: Users.UserStore, caller: Id, status: Option<string>): (r: Result<set<Id>>)
    ensures r.Err? <==> caller !in users
    ensures r.Err? ==> r.error == ServerError
    ensures r.Ok? ==> forall k :: k in r.value <==> k in txs && Listed(txs[k], caller, users[caller], status)
  {
    if caller !in users then Err(ServerError)
    else Ok(set k | k in txs && Listed(txs[k], caller, users[caller], status))
  }

  /** `getTransactions`: the listed transactions, newest first. */
  method ListTransactions(txs: TxStore, users: Users.UserStore, caller: Id, status: Option<string>)
    returns (r: Result<seq<Id>>)
    ensures r.Err? <==> caller !in users
    ensures r.Ok? ==> Sorting.Enumerates(r.value, ListedIds(txs, users, caller, status).value)
    ensures r.Ok? ==> forall i, j :: 0 <= i < j < |r.value| ==> txs[r.value[i]].createdAt >= txs[r.value[j]].createdAt
  {
    var ids := ListedIds(txs, users, caller, status);
    if ids.Err? {
      return Err(ids.error);
    }
    var created := map k | k in txs :: txs[k].createdAt;
    var sorted := Sorting.SortDesc(ids.value, created);
    return Ok(sorted);
  }

  /** Whatever the list shows, the caller may also open. */
  lemma ListedIsViewable(t: Transaction, caller: Id, u: Users.User, status: Option<string>)
    requires Listed(t, caller, u, status)
    ensures CanView(t, caller, u)
  {
  }

  /** The converse fails: an approved agent who buys something can open
      that transaction but does not find it in their list. */
  lemma AgentListOmitsOwnPurchases(t: Transaction, caller: Id, u: Users.User)
    requires !u.isAdmin && u.escrowAgent && u.escrowApproved
    requires t.buyer == caller && t.escrowAgent != Some(caller)
    ensures CanView(t, caller, u)
    ensures !Listed(t, caller, u, None)
  {
  }

  // ---------------------------------------------------------------------------
  // The happy path

  /** The full escrow flow from negotiation to completion, each step by the
      party the code expects. */
  lemma EscrowHappyPath(
    txs: TxStore, products: Products.ProductStore, users: Users.UserStore,
    buyer: Id, seller: Id, agent: Id, productId: Id, proofs: seq<Url>, tracking: string,
    notes: string, now: Time)
    requires productId in products && products[productId].seller == seller && seller != buyer
    requires products[productId].status == Products.Active && products[productId].price == 100
    requires !HasOpenDeal(txs, productId, buyer)
    requires agent in users && users[agent].escrowAgent && users[agent].escrowApproved
    requires |proofs| > 0 && |tracking| > 0 && |notes| > 0
    ensures CreateTransaction(txs, products, buyer, Some(productId), None, now).Ok?
    ensures
      var (s0, id) := CreateTransaction(txs, products, buyer, Some(productId), None, now).value;
      var t0 := s0[id];
      && t0.status == Negotiating && t0.price == 100
      && var t1 := RequestEscrow(t0, buyer);
      && t1.Ok? && t1.value.status == EscrowRequested && t1.value.escrowRequestedBy == Some(buyer)
      && var t2 := AcceptEscrow(t1.value, seller);
      && t2.Ok? && t2.value.status == EscrowAssigned
      && var t3 := AssignAgent(t2.value, users, Some(agent));
      && t3.Ok? && t3.value.escrowAgent == Some(agent)
      && var t4 := SetStatus(t3.value, buyer, if buyer in users then Some(users[buyer]) else None,
                             Some(StatusName(PaymentInitiated)));
      && t4.Ok? && t4.value.status == PaymentInitiated
      && var t5 := UploadProof(t4.value, seller, proofs);
      && t5.Ok? && t5.value.status == ProofUploaded && |t5.value.proofImages| == |proofs|
      && var t6 := ConfirmShipping(t5.value, seller, Some(tracking));
      && t6.Ok? && t6.value.status == ShippingConfirmed && t6.value.shippingTracking == Some(tracking)
      && var t7 := ConfirmDelivery(t6.value, buyer);
      && t7.Ok? && t7.value.status == DeliveryConfirmed
      && var t8 := Resolve(t7.value, agent, Some(notes), now);
      && t8.Ok? && t8.value.status == Completed && t8.value.completedAt == Some(now)
      && t8.value.resolutionNotes == Some(notes)
  {
    var (s0, id) := CreateTransaction(txs, products, buyer, Some(productId), None, now).value;
    var t0 := s0[id];
    var t1 := RequestEscrow(t0, buyer).value;
    var t2 := AcceptEscrow(t1, seller).value;
    var t3 := AssignAgent(t2, users, Some(agent)).value;
    var callerUser := if buyer in users then Some(users[buyer]) else None;
    SetStatusMeaning(t3, buyer, callerUser, PaymentInitiated);
  }
}
