/** The listing lifecycle: creation in pending moderation, owner and admin
    edits, admin moderation, soft delete, the view counter, the public
    catalogue filter with its pagination, and the seller-profile counts. */
module Products {
  import opened Common
  import Users

  datatype ProductStatus = Active | Sold | PendingModeration | Rejected | Inactive

  function ProductStatusName(s: ProductStatus): string
  {
    match s
    case Active => "active"
    case Sold => "sold"
    case PendingModeration => "pending_moderation"
    case Rejected => "rejected"
    case Inactive => "inactive"
  }

  /** The schema's enum check on `status`: exactly the five names. */
  function ParseProductStatus(s: string): (r: Option<ProductStatus>)
    ensures r.Some? ==> ProductStatusName(r.value) == s
  {
    if s == "active" then Some(Active)
    else if s == "sold" then Some(Sold)
    else if s == "pending_moderation" then Some(PendingModeration)
    else if s == "rejected" then Some(Rejected)
    else if s == "inactive" then Some(Inactive)
    else None
  }

  lemma ProductStatusRoundTrip(s: ProductStatus)
    ensures ParseProductStatus(ProductStatusName(s)) == Some(s)
  {
  }

  datatype Condition = New | Mint | SlightlyUsed | UsedWithWear | DamagedButUsable | Custom

  function ConditionName(c: Condition): string
  {
    match c
    case New => "New"
    case Mint => "Mint"
    case SlightlyUsed => "Slightly Used"
    case UsedWithWear => "Used With Wear"
    case DamagedButUsable => "Damaged but Usable"
    case Custom => "Custom"
  }

  /** The schema's enum check on `condition`: exactly the six names. */
  function ParseCondition(s: string): (r: Option<Condition>)
    ensures r.Some? ==> ConditionName(r.value) == s
  {
    if s == "New" then Some(New)
    else if s == "Mint" then Some(Mint)
    else if s == "Slightly Used" then Some(SlightlyUsed)
    else if s == "Used With Wear" then Some(UsedWithWear)
    else if s == "Damaged but Usable" then Some(DamagedButUsable)
    else if s == "Custom" then Some(Custom)
    else None
  }

  lemma ConditionRoundTrip(c: Condition)
    ensures ParseCondition(ConditionName(c)) == Some(c)
  {
  }

  /** The default condition of the schema and of `createProduct`. */
  const DefaultCondition: Condition := UsedWithWear

  /** The persisted listing. The favourites list is never written by the
      operations modelled here and is left out. */
  datatype Product = Product(
    title: string,
    description: string,
    images: seq<Url>,
    price: int,
    seller: Id,
    category: Id,
    subcategory: Option<Id>,
    condition: Condition,
    customCondition: Option<string>,
    stock: int,
    status: ProductStatus,
    adminModerated: bool,
    moderationNotes: Option<string>,
    views: nat,
    createdAt: Time)

  type ProductStore = map<Id, Product>

  /** The schema bounds a saved product satisfies: `price >= 0`,
      `stock >= 0` and the required strings present. */
  predicate ValidProduct(p: Product)
  {
    p.price >= 0 && p.stock >= 0 && p.title != "" && p.description != ""
  }

  // ---------------------------------------------------------------------------
  // Creation

  /** The body of a create or update request. */
  datatype ProductInput = ProductInput(
    title: Option<string>,
    description: Option<string>,
    price: Option<BodyNumber>,
    category: Option<Id>,
    subcategory: Option<Id>,
    condition: Option<string>,
    customCondition: Option<string>,
    stock: Option<BodyNumber>)

  /** `Number(stock) || 1`: a missing stock and a stock that reads as 0 both
      become 1. */
  function InitialStock(stock: Option<BodyNumber>): (n: int)
    ensures stock.None? ==> n == 1
    ensures stock.Some? && NumberOf(stock.value) != 0 ==> n == NumberOf(stock.value)
    ensures stock.Some? && NumberOf(stock.value) == 0 ==> n == 1
  {
    if stock.Some? && NumberOf(stock.value) != 0 then NumberOf(stock.value) else 1
  }

  /** The condition named by the body, the default when it is falsy; `None`
      when the name is not one of the enum's (a validation error at save). */
  function ConditionOr(given: Option<string>, current: Condition): (r: Option<Condition>)
    ensures !Truthy(given) ==> r == Some(current)
    ensures Truthy(given) ==> r == ParseCondition(given.value)
  {
    if Truthy(given) then ParseCondition(given.value) else Some(current)
  }

  /** `createProduct` for the record alone: the missing-field check, then
      the image check, then the schema's validation at save time. */
  function NewProduct(input: ProductInput, images: seq<Url>, seller: Id, now: Time): (r: Result<Product>)
    ensures (!Truthy(input.title) || !Truthy(input.description) || !NumberTruthy(input.price) || input.category.None?)
              ==> r == Err(BadRequest)
    ensures (Truthy(input.title) && Truthy(input.description) && NumberTruthy(input.price) && input.category.Some?
              && |images| == 0) ==> r == Err(BadRequest)
    ensures r.Ok? ==>
      && r.value.status == PendingModeration
      && !r.value.adminModerated && r.value.views == 0 && r.value.moderationNotes.None?
      && r.value.seller == seller && r.value.images == images && |images| > 0
      && r.value.title == input.title.value && r.value.description == input.description.value
      && r.value.price == NumberOf(input.price.value) && r.value.category == input.category.value
      && r.value.subcategory == input.subcategory
      && Some(r.value.condition) == ConditionOr(input.condition, DefaultCondition)
      && (r.value.customCondition.Some? ==> r.value.condition == Custom)
      && r.value.stock == InitialStock(input.stock)
      && r.value.createdAt == now
      && ValidProduct(r.value)
    ensures r.Err? && r.error != BadRequest ==> r.error == ServerError
  {
    if !Truthy(input.title) || !Truthy(input.description) || !NumberTruthy(input.price) || input.category.None? then
      Err(BadRequest)
    else if |images| == 0 then Err(BadRequest)
    else
      var condition := ConditionOr(input.condition, DefaultCondition);
      var stock := InitialStock(input.stock);
      var price := NumberOf(input.price.value);
      if condition.None? || price < 0 || stock < 0 then Err(ServerError)
      else
        var custom := if condition.value == Custom then input.customCondition else None;
        Ok(Product(input.title.value, input.description.value, images, price, seller,
                   input.category.value, input.subcategory, condition.value, custom, stock,
                   PendingModeration, false, None, 0, now))
  }

  /** A well-formed request creates a listing: with every required field,
      at least one image, a known or absent condition and non-negative
      numbers, creation succeeds, and otherwise it fails. */
  lemma NewProductSucceedsIffWellFormed(input: ProductInput, images: seq<Url>, seller: Id, now: Time)
    ensures NewProduct(input, images, seller, now).Ok? <==>
      && Truthy(input.title) && Truthy(input.description) && NumberTruthy(input.price) && input.category.Some?
      && |images| > 0
      && ConditionOr(input.condition, DefaultCondition).Some?
      && NumberOf(input.price.value) >= 0 && InitialStock(input.stock) >= 0
  {
  }

  /** The custom-condition text survives only under condition "Custom"; a
      listing without a condition gets "Used With Wear". */
  lemma NewProductCondition(input: ProductInput, images: seq<Url>, seller: Id, now: Time)
    requires NewProduct(input, images, seller, now).Ok?
    ensures var p := NewProduct(input, images, seller, now).value;
      && (!Truthy(input.condition) ==> p.condition == UsedWithWear && p.customCondition.None?)
      && (p.condition == Custom ==> p.customCondition == input.customCondition)
  {
  }

  /** `createProduct`: the new listing is stored under an unused id. */
  function CreateProduct(store: ProductStore, input: ProductInput, images: seq<Url>, seller: Id, now: Time)
    : (r: Result<(ProductStore, Id)>)
    ensures r.Err? <==> NewProduct(input, images, seller, now).Err?
    ensures r.Err? ==> r.error == NewProduct(input, images, seller, now).error
    ensures r.Ok? ==>
      && r.value.1 !in store
      && r.value.0.Keys == store.Keys + {r.value.1}
      && r.value.0[r.value.1] == NewProduct(input, images, seller, now).value
      && forall k :: k in store ==> r.value.0[k] == store[k]
  {
    var p := NewProduct(input, images, seller, now);
    if p.Err? then Err(p.error)
    else
      var id := Fresh(store.Keys);
      Ok((store[id := p.value], id))
  }

  // ---------------------------------------------------------------------------
  // Update

  /** `images.filter(img => !toRemove.includes(img))`. */
  function RemoveAll(images: seq<Url>, toRemove: seq<Url>): (r: seq<Url>)
    ensures forall x :: x in r <==> x in images && x !in toRemove
    ensures |r| <= |images|
  {
    if |images| == 0 then []
    else if images[0] in toRemove then RemoveAll(images[1..], toRemove)
    else [images[0]] + RemoveAll(images[1..], toRemove)
  }

  /** Filtering a concatenation filters each part in place, so the
      surviving old images come first, in order, then the surviving new
      ones. */
  lemma {:induction false} RemoveAllAppend(a: seq<Url>, b: seq<Url>, toRemove: seq<Url>)
    ensures RemoveAll(a + b, toRemove) == RemoveAll(a, toRemove) + RemoveAll(b, toRemove)
    decreases |a|
  {
    if |a| == 0 {
      assert a + b == b;
    } else {
      assert (a + b)[0] == a[0];
      assert (a + b)[1..] == a[1..] + b;
      RemoveAllAppend(a[1..], b, toRemove);
    }
  }

  /** The caller as the token presents them: the product routes read the
      admin claim from the token, not from the stored user. */
  datatype Caller = Caller(id: Id, isAdmin: bool)

  /** The owner or a token admin may edit or delete a listing. */
  predicate MayEdit(p: Product, caller: Caller)
  {
    p.seller == caller.id || caller.isAdmin
  }

  /** The listing's status after an edit: an admin sets it only when the
      body names one, anyone else sends the listing back to moderation. An
      unknown name is a validation error, `None`. */
  function EditedStatus(current: ProductStatus, caller: Caller, status: Option<string>): (r: Option<ProductStatus>)
    ensures !caller.isAdmin ==> r == Some(PendingModeration)
    ensures caller.isAdmin && !Truthy(status) ==> r == Some(current)
    ensures caller.isAdmin && Truthy(status) ==> r == ParseProductStatus(status.value)
  {
    if caller.isAdmin && Truthy(status) then ParseProductStatus(status.value)
    else if !caller.isAdmin then Some(PendingModeration)
    else Some(current)
  }

  /** The edited listing or, when a written value fails the schema, `None`:
      truthy text fields, a truthy price and a present category overwrite; a
      present subcategory (even null) is written; a truthy condition
      rewrites the custom text; a present stock is written even when it
      reads as 0; uploaded images are appended before `removeImages` is
      applied. */
  function EditProduct(
    p: Product, input: ProductInput, subcategory: Option<Option<Id>>, uploaded: seq<Url>,
    removeImages: seq<Url>, caller: Caller, status: Option<string>): (r: Option<Product>)
    ensures r.Some? ==>
      && r.value.seller == p.seller && r.value.views == p.views && r.value.createdAt == p.createdAt
      && r.value.adminModerated == p.adminModerated && r.value.moderationNotes == p.moderationNotes
      && r.value.images == RemoveAll(p.images + uploaded, removeImages)
      && Some(r.value.status) == EditedStatus(p.status, caller, status)
    ensures r.Some? && ValidProduct(p) ==> ValidProduct(r.value)
  {
    var condition := ConditionOr(input.condition, p.condition);
    var newStatus := EditedStatus(p.status, caller, status);
    var price := if NumberTruthy(input.price) then NumberOf(input.price.value) else p.price;
    var stock := if input.stock.Some? then NumberOf(input.stock.value) else p.stock;
    if condition.None? || newStatus.None? || price < 0 || stock < 0 then None
    else
      Some(p.(
        title := if Truthy(input.title) then input.title.value else p.title,
        description := if Truthy(input.description) then input.description.value else p.description,
        price := price,
        category := GetOr(input.category, p.category),
        subcategory := GetOr(subcategory, p.subcategory),
        condition := condition.value,
        customCondition := if Truthy(input.condition) then (if condition.value == Custom then input.customCondition else None)
                           else p.customCondition,
        stock := stock,
        images := RemoveAll(p.images + uploaded, removeImages),
        status := newStatus.value))
  }

  /** Fields the body leaves out keep their values. */
  lemma EditKeepsAbsentFields(
    p: Product, input: ProductInput, subcategory: Option<Option<Id>>, uploaded: seq<Url>,
    removeImages: seq<Url>, caller: Caller, status: Option<string>)
    requires EditProduct(p, input, subcategory, uploaded, removeImages, caller, status).Some?
    ensures var q := EditProduct(p, input, subcategory, uploaded, removeImages, caller, status).value;
      && (!Truthy(input.title) ==> q.title == p.title)
      && (!Truthy(input.description) ==> q.description == p.description)
      && (!NumberTruthy(input.price) ==> q.price == p.price)
      && (input.category.None? ==> q.category == p.category)
      && (subcategory.None? ==> q.subcategory == p.subcategory)
      && (!Truthy(input.condition) ==> q.condition == p.condition && q.customCondition == p.customCondition)
      && (input.stock.None? ==> q.stock == p.stock)
      && (|uploaded| == 0 && |removeImages| == 0 ==> q.images == p.images)
  {
    if |uploaded| == 0 && |removeImages| == 0 {
      RemoveNothing(p.images);
      assert p.images + uploaded == p.images;
    }
  }

  /** The converse: every field the body gives is written as given. */
  lemma EditWritesGivenFields(
    p: Product, input: ProductInput, subcategory: Option<Option<Id>>, uploaded: seq<Url>,
    removeImages: seq<Url>, caller: Caller, status: Option<string>)
    requires EditProduct(p, input, subcategory, uploaded, removeImages, caller, status).Some?
    ensures var q := EditProduct(p, input, subcategory, uploaded, removeImages, caller, status).value;
      && (Truthy(input.title) ==> q.title == input.title.value)
      && (Truthy(input.description) ==> q.description == input.description.value)
      && (NumberTruthy(input.price) ==> q.price == NumberOf(input.price.value))
      && (input.category.Some? ==> q.category == input.category.value)
      && (subcategory.Some? ==> q.subcategory == subcategory.value)
      && (Truthy(input.condition) ==>
            && ConditionName(q.condition) == input.condition.value
            && q.customCondition == (if q.condition == Custom then input.customCondition else None))
      && (input.stock.Some? ==> q.stock == NumberOf(input.stock.value))
  {
  }

  /** On a valid listing an edit fails exactly when it would save a value
      the schema refuses: an unknown condition, an unknown status from an
      admin, or a negative price or stock. */
  lemma EditFailsOnSchemaErrors(
    p: Product, input: ProductInput, subcategory: Option<Option<Id>>, uploaded: seq<Url>,
    removeImages: seq<Url>, caller: Caller, status: Option<string>)
    requires ValidProduct(p)
    ensures EditProduct(p, input, subcategory, uploaded, removeImages, caller, status).None? <==>
      || (Truthy(input.condition) && ParseCondition(input.condition.value).None?)
      || (caller.isAdmin && Truthy(status) && ParseProductStatus(status.value).None?)
      || (NumberTruthy(input.price) && NumberOf(input.price.value) < 0)
      || (input.stock.Some? && NumberOf(input.stock.value) < 0)
  {
  }

  /** A JSON price of 0 is falsy and leaves the price alone, while the same
      0 sent as form text is written. */
  lemma ZeroPriceDependsOnEncoding(p: Product, caller: Caller)
    requires ValidProduct(p) && !caller.isAdmin
    ensures var none := ProductInput(None, None, None, None, None, None, None, None);
      && EditProduct(p, none.(price := Some(Json(0))), None, [], [], caller, None).value.price == p.price
      && EditProduct(p, none.(price := Some(Text(0))), None, [], [], caller, None).value.price == 0
  {
  }

  lemma {:induction false} RemoveNothing(images: seq<Url>)
    ensures RemoveAll(images, []) == images
    decreases |images|
  {
    if |images| != 0 {
      RemoveNothing(images[1..]);
      assert images == [images[0]] + images[1..];
    }
  }

  /** An image is on the edited listing iff it was there or was uploaded,
      and was not asked to be removed; the kept old images precede the
      kept new ones. */
  lemma EditImages(p: Product, uploaded: seq<Url>, removeImages: seq<Url>, x: Url)
    ensures x in RemoveAll(p.images + uploaded, removeImages) <==>
              (x in p.images || x in uploaded) && x !in removeImages
    ensures RemoveAll(p.images + uploaded, removeImages)
         == RemoveAll(p.images, removeImages) + RemoveAll(uploaded, removeImages)
  {
    RemoveAllAppend(p.images, uploaded, removeImages);
  }

  /** `updateProduct`: not found, then not the owner nor an admin, then the
      edit; a value the schema refuses is a 500 and nothing is saved. */
  function UpdateProduct(
    store: ProductStore, id: Id, caller: Caller, input: ProductInput,
    subcategory: Option<Option<Id>>, uploaded: seq<Url>, removeImages: seq<Url>,
    status: Option<string>): (r: Result<ProductStore>)
    ensures id !in store ==> r == Err(NotFound)
    ensures id in store && !MayEdit(store[id], caller) ==> r == Err(Forbidden)
    ensures r.Ok? <==> id in store && MayEdit(store[id], caller)
                        && EditProduct(store[id], input, subcategory, uploaded, removeImages, caller, status).Some?
    ensures r.Ok? ==>
      && r.value.Keys == store.Keys
      && r.value[id] == EditProduct(store[id], input, subcategory, uploaded, removeImages, caller, status).value
      && forall k :: k in store && k != id ==> r.value[k] == store[k]
  {
    if id !in store then Err(NotFound)
    else if !MayEdit(store[id], caller) then Err(Forbidden)
    else
      var q := EditProduct(store[id], input, subcategory, uploaded, removeImages, caller, status);
      if q.None? then Err(ServerError) else Ok(store[id := q.value])
  }

  /** An owner who is not an admin cannot keep a listing live by editing it:
      any successful edit sends it back to moderation, out of the catalogue. */
  lemma OwnerEditForcesModeration(
    store: ProductStore, id: Id, caller: Caller, input: ProductInput,
    subcategory: Option<Option<Id>>, uploaded: seq<Url>, removeImages: seq<Url>,
    status: Option<string>, q: CatalogueQuery)
    requires !caller.isAdmin
    requires UpdateProduct(store, id, caller, input, subcategory, uploaded, removeImages, status).Ok?
    ensures var s := UpdateProduct(store, id, caller, input, subcategory, uploaded, removeImages, status).value;
      s[id].status == PendingModeration && id !in Catalogue(s, q)
  {
  }

  // ---------------------------------------------------------------------------
  // Soft delete, moderation and views

  /** `deleteProduct`: the record stays, marked inactive. */
  function DeleteProduct(store: ProductStore, id: Id, caller: Caller): (r: Result<ProductStore>)
    ensures id !in store ==> r == Err(NotFound)
    ensures r.Ok? <==> id in store && MayEdit(store[id], caller)
    ensures r.Err? && id in store ==> r.error == Forbidden
    ensures r.Ok? ==>
      && r.value.Keys == store.Keys
      && r.value[id].status == Inactive
      && r.value[id].(status := store[id].status) == store[id]
      && forall k :: k in store && k != id ==> r.value[k] == store[k]
  {
    if id !in store then Err(NotFound)
    else if !MayEdit(store[id], caller) then Err(Forbidden)
    else Ok(store[id := store[id].(status := Inactive)])
  }

  /** A deleted listing leaves the catalogue and a second delete changes
      nothing more. */
  lemma DeleteHidesAndIsIdempotent(store: ProductStore, id: Id, caller: Caller, q: CatalogueQuery)
    requires DeleteProduct(store, id, caller).Ok?
    ensures var s := DeleteProduct(store, id, caller).value;
      && id !in Catalogue(s, q)
      && DeleteProduct(s, id, caller) == Ok(s)
  {
    var s := DeleteProduct(store, id, caller).value;
    assert s[id := s[id].(status := Inactive)] == s;
  }

  /** `moderateProduct`: "approve" publishes and "reject" rejects, both
      marking the listing moderated; any other action is refused. Notes
      overwrite the old ones only when non-empty. */
  function ModerateProduct(store: ProductStore, id: Id, action: string, notes: Option<string>): (r: Result<ProductStore>)
    ensures id !in store ==> r == Err(NotFound)
    ensures id in store && action != "approve" && action != "reject" ==> r == Err(BadRequest)
    ensures r.Ok? <==> id in store && (action == "approve" || action == "reject")
    ensures r.Ok? ==>
      && r.value.Keys == store.Keys
      && r.value[id].status == (if action == "approve" then Active else Rejected)
      && r.value[id].adminModerated
      && r.value[id].moderationNotes == (if Truthy(notes) then notes else store[id].moderationNotes)
      && r.value[id].(status := store[id].status, adminModerated := store[id].adminModerated,
                      moderationNotes := store[id].moderationNotes) == store[id]
      && forall k :: k in store && k != id ==> r.value[k] == store[k]
  {
    if id !in store then Err(NotFound)
    else if action != "approve" && action != "reject" then Err(BadRequest)
    else
      var p := store[id];
      var status := if action == "approve" then Active else Rejected;
      Ok(store[id := p.(status := status, adminModerated := true,
                        moderationNotes := if Truthy(notes) then notes else p.moderationNotes)])
  }

  /** The listing lifecycle: a created listing waits for moderation outside
      the catalogue; approval publishes it; an owner edit withdraws it
      again. */
  lemma ListingLifecycle(
    store: ProductStore, input: ProductInput, images: seq<Url>, seller: Id, now: Time,
    notes: Option<string>, edit: ProductInput)
    requires CreateProduct(store, input, images, seller, now).Ok?
    requires edit == ProductInput(None, None, None, None, None, None, None, None)
    ensures
      var (s1, id) := CreateProduct(store, input, images, seller, now).value;
      && id !in Catalogue(s1, NoFilter)
      && ModerateProduct(s1, id, "approve", notes).Ok?
      && var s2 := ModerateProduct(s1, id, "approve", notes).value;
      && id in Catalogue(s2, NoFilter)
      && UpdateProduct(s2, id, Caller(seller, false), edit, None, [], [], None).Ok?
      && var s3 := UpdateProduct(s2, id, Caller(seller, false), edit, None, [], [], None).value;
      && id !in Catalogue(s3, NoFilter)
  {
    var (s1, id) := CreateProduct(store, input, images, seller, now).value;
    var s2 := ModerateProduct(s1, id, "approve", notes).value;
    assert s2[id].price == s1[id].price && s2[id].stock == s1[id].stock;
    RemoveNothing(s2[id].images);
    assert s2[id].images + [] == s2[id].images;
  }

  /** `getProduct`: counts one view and changes nothing else. */
  function ViewProduct(store: ProductStore, id: Id): (r: Result<(ProductStore, Product)>)
    ensures r.Err? <==> id !in store
    ensures r.Err? ==> r.error == NotFound
    ensures r.Ok? ==>
      && r.value.0.Keys == store.Keys
      && r.value.1 == r.value.0[id]
      && r.value.1.views == store[id].views + 1
      && r.value.1.(views := store[id].views) == store[id]
      && forall k :: k in store && k != id ==> r.value.0[k] == store[k]
  {
    if id !in store then Err(NotFound)
    else
      var p := store[id].(views := store[id].views + 1);
      Ok((store[id := p], p))
  }

  // ---------------------------------------------------------------------------
  // Catalogue

  /** The optional filters of `getProducts`. A condition is compared by
      name, so an unknown name matches nothing. */
  datatype CatalogueQuery = CatalogueQuery(
    category: Option<Id>, subcategory: Option<Id>, seller: Option<Id>,
    condition: Option<string>, minPrice: Option<int>, maxPrice: Option<int>)

  const NoFilter: CatalogueQuery := CatalogueQuery(None, None, None, None, None, None)

  /** A listing the catalogue query selects: active, and within every filter
      given, both price bounds inclusive. */
  predicate Selected(p: Product, q: CatalogueQuery)
  {
    && p.status == Active
    && (q.category.Some? ==> p.category == q.category.value)
    && (q.subcategory.Some? ==> p.subcategory == q.subcategory)
    && (q.seller.Some? ==> p.seller == q.seller.value)
    && (Truthy(q.condition) ==> ConditionName(p.condition) == q.condition.value)
    && (q.minPrice.Some? ==> p.price >= q.minPrice.value)
    && (q.maxPrice.Some? ==> p.price <= q.maxPrice.value)
  }

  function Catalogue(store: ProductStore, q: CatalogueQuery): (r: set<Id>)
    ensures forall k :: k in r ==> k in store && store[k].status == Active
    ensures forall k :: k in r <==> k in store && Selected(store[k], q)
  {
    set k | k in store && Selected(store[k], q)
  }

  /** The price bounds are inclusive: a listing priced exactly at either
      bound is shown, one outside is not. */
  lemma PriceBoundsInclusive(store: ProductStore, k: Id, lo: int, hi: int)
    requires k in store && store[k].status == Active
    ensures var q := CatalogueQuery(None, None, None, None, Some(lo), Some(hi));
      k in Catalogue(store, q) <==> lo <= store[k].price <= hi
  {
  }

  /** Narrowing a query never adds listings. */
  lemma FiltersOnlyNarrow(store: ProductStore, q: CatalogueQuery)
    ensures Catalogue(store, q) <= Catalogue(store, NoFilter)
  {
  }

  // ---------------------------------------------------------------------------
  // Pagination

  /** One page of results and the page count, for `limit >= 1`. */
  datatype Page = Page(items: seq<Id>, totalPages: nat, total: nat)

  /** `.skip((page - 1) * limit).limit(limit)` and `Math.ceil(total / limit)`.
      A page below 1 asks the database for a negative skip, which it
      refuses. */
  function Paginate(results: seq<Id>, page: int, limit: nat): (r: Result<Page>)
    requires limit >= 1
    ensures r.Err? <==> page < 1
    ensures r.Err? ==> r.error == ServerError
    ensures r.Ok? ==>
      && r.value.total == |results|
      && r.value.totalPages * limit >= |results| > (r.value.totalPages - 1) * limit
      && |r.value.items| <= limit
      && (forall i :: 0 <= i < |r.value.items| ==>
            (page - 1) * limit + i < |results| && r.value.items[i] == results[(page - 1) * limit + i])
      && (page <= r.value.totalPages ==> |r.value.items| > 0)
      && (page > r.value.totalPages ==> |r.value.items| == 0)
  {
    if page < 1 then Err(ServerError)
    else
      var skip := (page - 1) * limit;
      var start := if skip <= |results| then skip else |results|;
      var end := if start + limit <= |results| then start + limit else |results|;
      var totalPages := Ceil(|results|, limit);
      PageBounds(|results|, limit, page);
      Ok(Page(results[start..end], totalPages, |results|))
  }

  /** `Math.ceil(n / limit)` for a positive limit. */
  function Ceil(n: nat, limit: nat): (c: nat)
    requires limit >= 1
    ensures c * limit >= n > (c - 1) * limit
  {
    var c := (n + limit - 1) / limit;
    CeilBounds(n, limit);
    c
  }

  lemma CeilBounds(n: nat, limit: nat)
    requires limit >= 1
    ensures ((n + limit - 1) / limit) * limit >= n > ((n + limit - 1) / limit - 1) * limit
  {
    var q := (n + limit - 1) / limit;
    var m := (n + limit - 1) % limit;
    assert q * limit + m == n + limit - 1;
    assert 0 <= m < limit;
  }

  /** A page starts inside the results exactly when its number is at most
      the page count. */
  lemma PageBounds(n: nat, limit: nat, page: int)
    requires limit >= 1 && page >= 1
    ensures page <= Ceil(n, limit) ==> (page - 1) * limit < n
    ensures page > Ceil(n, limit) ==> (page - 1) * limit >= n
  {
    var c := Ceil(n, limit);
    if page <= c {
      MulMono(page - 1, c - 1, limit);
    } else {
      MulMono(c, page - 1, limit);
    }
  }

  lemma MulMono(a: int, b: int, k: nat)
    requires a <= b
    ensures a * k <= b * k
  {
  }

  /** Every result appears on exactly the page its position says: result
      `i` is item `i % limit` of page `i / limit + 1`. */
  lemma PagesCoverResults(results: seq<Id>, limit: nat, i: nat)
    requires limit >= 1 && i < |results|
    ensures var r := Paginate(results, i / limit + 1, limit);
      r.Ok? && i % limit < |r.value.items| && r.value.items[i % limit] == results[i]
  {
    var page := i / limit + 1;
    assert (page - 1) * limit + i % limit == i;
    var r := Paginate(results, page, limit);
    assert (page - 1) * limit <= i;
    var start := (page - 1) * limit;
    var end := if start + limit <= |results| then start + limit else |results|;
    assert r.value.items == results[start..end];
    assert i < end;
  }

  // ---------------------------------------------------------------------------
  // Seller profile

  /** The listing and review counts a seller profile shows: the active
      listings of the seller and the seller's reviews, each list cut to
      twenty entries. */
  datatype ProfileStats = ProfileStats(totalProducts: nat, totalReviews: nat)

  /** The cap `getSellerProfile` puts on both lists. */
  const ProfileListLimit: nat := 20

  function SellerListings(store: ProductStore, seller: Id): (r: set<Id>)
    ensures forall k :: k in r <==> k in store && store[k].seller == seller && store[k].status == Active
  {
    set k | k in store && store[k].seller == seller && store[k].status == Active
  }

  function Capped(n: nat): (m: nat)
    ensures m <= ProfileListLimit && m <= n
    ensures m == n || m == ProfileListLimit
  {
    if n <= ProfileListLimit then n else ProfileListLimit
  }

  /** `getSellerProfile`'s stats; the reviews live in their own collection
      and only their number is an input. */
  function SellerProfileStats(users: Users.UserStore, store: ProductStore, seller: Id, reviewCount: nat)
    : (r: Result<ProfileStats>)
    ensures r.Err? <==> seller !in users
    ensures r.Err? ==> r.error == NotFound
    ensures r.Ok? ==> r.value.totalProducts == Capped(|SellerListings(store, seller)|)
    ensures r.Ok? ==> r.value.totalReviews == Capped(reviewCount)
  {
    if seller !in users then Err(NotFound)
    else Ok(ProfileStats(Capped(|SellerListings(store, seller)|), Capped(reviewCount)))
  }

  /** A seller with no more than twenty live listings sees them all
      counted; beyond that the count stays at twenty. */
  lemma ProfileCountsCapped(users: Users.UserStore, store: ProductStore, seller: Id, reviewCount: nat)
    requires seller in users
    ensures var r := SellerProfileStats(users, store, seller, reviewCount).value;
      && (|SellerListings(store, seller)| <= 20 ==> r.totalProducts == |SellerListings(store, seller)|)
      && (|SellerListings(store, seller)| > 20 ==> r.totalProducts == 20)
      && (reviewCount > 20 ==> r.totalReviews == 20)
  {
  }

  /** `getPendingProducts`: exactly the listings awaiting moderation. */
  function PendingProducts(store: ProductStore): (r: set<Id>)
    ensures forall k :: k in r <==> k in store && store[k].status == PendingModeration
  {
    set k | k in store && store[k].status == PendingModeration
  }

  /** Counting a view moves no listing between lists: the catalogue under
      any query, each seller's live listings and the moderation queue stay
      the same. The read does not look at the status either, so a listing
      that is pending, rejected or deleted is still shown by id. */
  lemma ViewKeepsListings(store: ProductStore, id: Id, q: CatalogueQuery, seller: Id)
    requires id in store
    ensures ViewProduct(store, id).Ok?
    ensures var s := ViewProduct(store, id).value.0;
      && Catalogue(s, q) == Catalogue(store, q)
      && SellerListings(s, seller) == SellerListings(store, seller)
      && PendingProducts(s) == PendingProducts(store)
  {
    var s := ViewProduct(store, id).value.0;
    assert forall k :: k in s ==> s[k].(views := store[k].views) == store[k];
    assert forall k :: k in s ==> Selected(s[k], q) == Selected(store[k], q);
  }
}
