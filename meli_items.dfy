/** How the multi-tenant marketplace service reads, imports, creates and updates items
    (backend/src/meli/meli.service.ts). Every upstream call is an input: the token
    ensureAccessToken produced (or the error it raised), the answers of the read
    endpoints (a `Marketplace`), and the answers of the write endpoints. An operation
    returns the payload it hands to the publications upsert, and the writes it sent. */
module MeliItems {
  import opened Common
  import opened MeliTypes
  import opened PublicationModel
  import MeliIds

  /** fetchItem: the item, or the exception its status classification raises. A missing
      status counts as 500; a policy refusal is Forbidden; on 401/403 the item is read
      again without the token. */
  function FetchItem(l: ItemLookup): (r: Result<MeliItem>)
    ensures r.Err? ==> r.error in {Forbidden, Unauthorized, NotFound, InternalServerError}
    ensures r.Ok? <==>
      || l.withToken.Answered?
      || (&& l.withToken.Failed?
          && StatusOr500(l.withToken.status) in {401, 403}
          && !BlockedByPolicy(StatusOr500(l.withToken.status), l.withToken.body)
          && l.withoutToken.Answered?)
    ensures r == Err(NotFound) <==>
      && l.withToken.Failed?
      && (|| StatusOr500(l.withToken.status) == 404
          || (&& StatusOr500(l.withToken.status) in {401, 403}
              && !BlockedByPolicy(StatusOr500(l.withToken.status), l.withToken.body)
              && l.withoutToken.Failed? && l.withoutToken.status == Some(404)))
    ensures r == Err(Unauthorized) ==> l.withToken.status == Some(401)
  {
    match l.withToken
    case Answered(item) => Ok(item)
    case Failed(status, body) =>
      var code := StatusOr500(status);
      if BlockedByPolicy(code, body) then Err(Forbidden)
      else if code == 401 || code == 403 then
        match l.withoutToken
        case Answered(item) => Ok(item)
        case Failed(publicStatus, _) =>
          if publicStatus == Some(404) then Err(NotFound)
          else if code == 403 then Err(Forbidden)
          else Err(Unauthorized)
      else if code == 404 then Err(NotFound)
      else Err(InternalServerError)
  }

  /** fetchItemsFromProduct: the product's items, read with the token and then without
      it; when both fail, a 401/403 of the first read is Unauthorized, anything else 500. */
  function FetchItemsFromProduct(l: ProductLookup): (r: Result<seq<MeliItem>>)
    ensures r.Ok? <==> l.withToken.Answered? || l.withoutToken.Answered?
    ensures r.Err? ==> r.error in {Unauthorized, InternalServerError}
    ensures r == Err(Unauthorized) <==>
      l.withToken.Failed? && l.withoutToken.Failed? && l.withToken.status in {Some(401), Some(403)}
  {
    match l.withToken
    case Answered(items) => Ok(items)
    case Failed(status, _) =>
      match l.withoutToken
      case Answered(items) => Ok(items)
      case Failed(_, _) =>
        if status == Some(401) || status == Some(403) then Err(Unauthorized)
        else Err(InternalServerError)
  }

  /** fetchItemDescription: read with the token, then without it; nothing when both fail. */
  function FetchItemDescription(l: DescriptionLookup): (r: Option<MeliItemDescription>)
    ensures r.None? <==> l.withToken.Failed? && l.withoutToken.Failed?
    ensures l.withToken.Answered? ==> r == Some(l.withToken.data)
  {
    match l.withToken
    case Answered(d) => Some(d)
    case Failed(_, _) =>
      match l.withoutToken
      case Answered(d) => Some(d)
      case Failed(_, _) => None
  }

  /** The outer catch of importItem: NotFound and 500 pass; everything else is a 500. */
  function ImportFailure(e: Error): (r: Error)
    ensures r in {NotFound, InternalServerError}
    ensures e in {NotFound, InternalServerError} ==> r == e
  {
    if e == NotFound then NotFound else InternalServerError
  }

  /** `description || fallback`: the marketplace's text when there is one. */
  function OrElse(text: Option<string>, fallback: Option<string>): Option<string>
  {
    if text.Some? then text else fallback
  }

  /** The payload upsertFromMeli receives for an item read back from the marketplace. */
  function PayloadFor(item: MeliItem, d: Option<MeliItemDescription>, fallback: Option<string>, owner: Option<string>): (p: MeliPublicationPayload)
    ensures p.meliItemId == item.id && p.permalink == item.permalink && p.ownerUserId == owner
    ensures p.title == item.title && p.price == item.price && p.status == item.status
    ensures p.availableQuantity == item.availableQuantity && p.soldQuantity == item.soldQuantity
    ensures p.categoryId == item.categoryId
    ensures p.metadata == Some(ItemMetadata(item, d))
    ensures DescriptionText(d).Some? ==> p.description == DescriptionText(d)
    ensures DescriptionText(d).None? ==> p.description == fallback
  {
    MeliPublicationPayload(item.id, item.permalink, item.title, item.price, item.status,
                           item.availableQuantity, item.soldQuantity, item.categoryId,
                           OrElse(DescriptionText(d), fallback), Some(ItemMetadata(item, d)), owner)
  }

  /** importItem: parse the id, try it as an item, fall back to it as a product whose
      first item is imported, and build the upsert payload. `token` is what
      ensureAccessToken produced for the owner. */
  method ImportItem(raw: string, owner: string, token: Result<string>, market: Marketplace)
    returns (r: Result<MeliPublicationPayload>)
    requires '%' !in raw
    ensures r.Err? ==> r.error in {NotFound, InternalServerError}
    ensures MeliIds.ExtractItemOrProductId(raw).Err? ==> r == Err(InternalServerError)
    ensures MeliIds.ExtractItemOrProductId(raw).Ok? && token.Err? ==> r == Err(ImportFailure(token.error))
    ensures MeliIds.ExtractItemOrProductId(raw).Ok? && token.Ok? ==>
      var id := MeliIds.ExtractItemOrProductId(raw).value;
      var direct := FetchItem(market.item(id));
      && (direct.Ok? ==>
            r == Ok(PayloadFor(direct.value, FetchItemDescription(market.description(id)), None, Some(owner))))
      && (direct.Err? && direct.error != NotFound ==> r == Err(InternalServerError))
      && (direct == Err(NotFound) ==>
            var products := FetchItemsFromProduct(market.product(id));
            if products.Err? || |products.value| == 0 then r == Err(NotFound)
            else
              var actual := products.value[0].id;
              var second := FetchItem(market.item(actual));
              r == if second.Err? then Err(NotFound)
                   else Ok(PayloadFor(second.value, FetchItemDescription(market.description(actual)), None, Some(owner))))
    ensures r.Ok? ==> r.value.ownerUserId == Some(owner) && r.value.permalink == r.value.metadata.value.rawItem.permalink
  {
    var parsed := MeliIds.ExtractItemOrProductId(raw);
    if parsed.Err? {
      return Err(ImportFailure(parsed.error));
    }
    if token.Err? {
      return Err(ImportFailure(token.error));
    }
    var actualItemId := parsed.value;
    var item: MeliItem;
    var fetched := FetchItem(market.item(actualItemId));
    if fetched.Ok? {
      item := fetched.value;
    } else if fetched.error == NotFound {
      var items := FetchItemsFromProduct(market.product(parsed.value));
      if items.Err? || |items.value| == 0 {
        return Err(NotFound);
      }
      actualItemId := items.value[0].id;
      fetched := FetchItem(market.item(actualItemId));
      if fetched.Err? {
        return Err(NotFound);
      }
      item := fetched.value;
    } else {
      return Err(ImportFailure(fetched.error));
    }
    var description := FetchItemDescription(market.description(actualItemId));
    return Ok(PayloadFor(item, description, None, Some(owner)));
  }

  /** One item attribute sent on creation. */
  datatype Attribute = Attribute(id: string, valueName: string)

  /** The body of `POST /items`. */
  datatype ItemBody = ItemBody(
    title: string,
    categoryId: string,
    price: real,
    currencyId: string,
    availableQuantity: int,
    buyingMode: string,
    condition: string,
    listingTypeId: string,
    shippingMode: string,
    attributes: seq<Attribute>,
    pictures: seq<string>)

  /** The body of `PUT /items/{id}`: only the fields present are sent. */
  datatype UpdateBody = UpdateBody(title: Option<string>, price: Option<real>, availableQuantity: Option<int>, status: Option<string>)
  {
    predicate IsEmpty() { title.None? && price.None? && availableQuantity.None? && status.None? }
  }

  /** A write sent to the marketplace. */
  datatype MeliWrite =
    | PostItem(body: ItemBody)
    | PostDescription(itemId: string, plainText: string)
    | PutItem(itemId: string, update: UpdateBody)

  /** The category that requires extra attributes (mobile phones). */
  const PhonesCategory := "MLA1055"

  /** The attributes every created item carries. */
  const GenericAttributes := [Attribute("BRAND", "Genérico"), Attribute("MODEL", "Modelo genérico")]

  /** The attributes added for the phones category. */
  const PhoneAttributes := [Attribute("COLOR", "Negro"), Attribute("IS_DUAL_SIM", "Sí"), Attribute("CARRIER", "Liberado")]

  /** The picture sent when the caller supplies none. */
  const DefaultPicture := "https://http2.mlstatic.com/storage/developers-site-cms-admin/openapi/319968618063-test_image.jpg"

  datatype CreateItemRequest = CreateItemRequest(
    title: string,
    price: real,
    availableQuantity: int,
    categoryId: string,
    description: Option<string>,
    pictures: Option<seq<string>>)

  /** The body of `POST /items`: the request's fields, the fixed listing terms, BRAND and
      MODEL plus the three phone attributes exactly for the phones category, and the
      request's pictures or the default one. */
  function CreateBody(req: CreateItemRequest): (body: ItemBody)
    ensures body.title == req.title && body.categoryId == req.categoryId && body.price == req.price
    ensures body.availableQuantity == req.availableQuantity
    ensures body.attributes == GenericAttributes + (if req.categoryId == PhonesCategory then PhoneAttributes else [])
    ensures body.currencyId == "ARS" && body.buyingMode == "buy_it_now" && body.condition == "new"
    ensures body.listingTypeId == "gold_special" && body.shippingMode == "not_specified"
    ensures req.pictures.None? || req.pictures.value == [] ==> body.pictures == [DefaultPicture]
    ensures req.pictures.Some? && req.pictures.value != [] ==> body.pictures == req.pictures.value
  {
    ItemBody(req.title, req.categoryId, req.price, "ARS", req.availableQuantity, "buy_it_now",
             "new", "gold_special", "not_specified",
             GenericAttributes + (if req.categoryId == PhonesCategory then PhoneAttributes else []),
             if req.pictures.Some? && |req.pictures.value| > 0 then req.pictures.value else [DefaultPicture])
  }

  /** createItemFromApp ends with a payload exactly when the item post, the description
      post (when there is a description) and the read-back all succeed. */
  predicate CreateSucceeds(req: CreateItemRequest, posted: Reply<string>, descriptionPosted: Reply<()>, market: Marketplace)
  {
    && posted.Answered?
    && (Truthy(req.description) ==> descriptionPosted.Answered?)
    && FetchItem(market.item(posted.data)).Ok?
  }

  /** createItemFromApp. `category` is the answer of `GET /categories/{id}` (its child
      categories), `posted` that of `POST /items` (the new item's id), `descriptionPosted`
      that of the description post. */
  method CreateItemFromApp(req: CreateItemRequest, owner: string, token: Result<string>,
                           category: Reply<seq<string>>, posted: Reply<string>,
                           descriptionPosted: Reply<()>, market: Marketplace)
    returns (r: Result<MeliPublicationPayload>, writes: seq<MeliWrite>)
    ensures token.Err? ==> r == Err(token.error) && writes == []
    ensures token.Ok? && category.Failed? ==> r == Err(Unhandled) && writes == []
    ensures token.Ok? && category.Answered? && |category.data| > 0 ==> r == Err(BadRequest) && writes == []
    ensures token.Ok? && category.Answered? && |category.data| == 0 ==>
      && writes == [PostItem(CreateBody(req))] +
                   (if posted.Answered? && Truthy(req.description)
                    then [PostDescription(posted.data, req.description.value)] else [])
      && (r.Ok? <==> CreateSucceeds(req, posted, descriptionPosted, market))
      && (r.Err? ==>
            r.error == (if posted.Failed? && posted.status in {Some(401), Some(403)} then Unauthorized else InternalServerError))
    ensures r.Ok? ==>
      && posted.Answered? && FetchItem(market.item(posted.data)).Ok?
      && r.value == PayloadFor(FetchItem(market.item(posted.data)).value,
                               FetchItemDescription(market.description(posted.data)), req.description, Some(owner))
  {
    writes := [];
    if token.Err? {
      return Err(token.error), writes;
    }
    if category.Failed? {
      return Err(Unhandled), writes;
    }
    if |category.data| > 0 {
      return Err(BadRequest), writes;
    }
    var attributes := GenericAttributes;
    if req.categoryId == PhonesCategory {
      attributes := attributes + PhoneAttributes;
    }
    var pictures := if req.pictures.Some? && |req.pictures.value| > 0 then req.pictures.value else [DefaultPicture];
    var body := ItemBody(req.title, req.categoryId, req.price, "ARS", req.availableQuantity, "buy_it_now",
                         "new", "gold_special", "not_specified", attributes, pictures);
    assert body == CreateBody(req);
    writes := writes + [PostItem(body)];
    // From here on every failure reaches the catch that looks at the HTTP status of the
    // error; the service's own exceptions carry none, so they end as 500.
    if posted.Failed? {
      if posted.status == Some(401) || posted.status == Some(403) {
        return Err(Unauthorized), writes;
      }
      return Err(InternalServerError), writes;
    }
    var newId := posted.data;
    if Truthy(req.description) {
      writes := writes + [PostDescription(newId, req.description.value)];
      if descriptionPosted.Failed? {
        return Err(InternalServerError), writes;
      }
    }
    var created := FetchItem(market.item(newId));
    if created.Err? {
      return Err(InternalServerError), writes;
    }
    var description := FetchItemDescription(market.description(newId));
    r := Ok(PayloadFor(created.value, description, req.description, Some(owner)));
  }

  datatype UpdateItemRequest = UpdateItemRequest(
    meliItemId: string,
    title: Option<string>,
    price: Option<real>,
    availableQuantity: Option<int>,
    status: Option<string>,
    description: Option<string>)

  /** The PUT body would carry at least one field. */
  predicate HasChanges(req: UpdateItemRequest)
  {
    Truthy(req.title) || req.price.Some? || req.availableQuantity.Some? || Truthy(req.status)
  }

  /** updateItemFromApp ends with a payload exactly when every call it makes succeeds. */
  predicate UpdateSucceeds(req: UpdateItemRequest, token: Result<string>, put: Reply<()>, descriptionPosted: Reply<()>, market: Marketplace)
  {
    && token.Ok?
    && (HasChanges(req) ==> put.Answered?)
    && (req.description.Some? ==> descriptionPosted.Answered?)
    && FetchItem(market.item(req.meliItemId)).Ok?
  }

  /** The PUT body: title and status only when non-empty, price and quantity whenever
      given; it is empty exactly when the request changes nothing. */
  function PutBody(req: UpdateItemRequest): (b: UpdateBody)
    ensures b.title == (if Truthy(req.title) then req.title else None)
    ensures b.status == (if Truthy(req.status) then req.status else None)
    ensures b.price == req.price && b.availableQuantity == req.availableQuantity
    ensures b.IsEmpty() <==> !HasChanges(req)
  {
    UpdateBody(if Truthy(req.title) then req.title else None, req.price, req.availableQuantity,
               if Truthy(req.status) then req.status else None)
  }

  /** The writes updateItemFromApp sends: the PUT when the request changes something,
      then the description when one is given and the PUT, if sent, succeeded. */
  function UpdateWrites(req: UpdateItemRequest, put: Reply<()>): (w: seq<MeliWrite>)
    ensures PutItem(req.meliItemId, PutBody(req)) in w <==> HasChanges(req)
    ensures forall x :: x in w ==>
      x == PutItem(req.meliItemId, PutBody(req))
      || (req.description.Some? && x == PostDescription(req.meliItemId, req.description.value))
    ensures req.description.Some? && (HasChanges(req) ==> put.Answered?) <==>
      req.description.Some? && PostDescription(req.meliItemId, req.description.value) in w
    ensures |w| <= 2 && (|w| == 2 ==> w[0].PutItem? && w[1].PostDescription?)
  {
    var putWrite := if HasChanges(req) then [PutItem(req.meliItemId, PutBody(req))] else [];
    if req.description.Some? && (HasChanges(req) ==> put.Answered?) then
      putWrite + [PostDescription(req.meliItemId, req.description.value)]
    else putWrite
  }

  /** updateItemFromApp. `put` and `descriptionPosted` are the answers of the two writes. */
  method UpdateItemFromApp(req: UpdateItemRequest, owner: string, token: Result<string>,
                           put: Reply<()>, descriptionPosted: Reply<()>, market: Marketplace)
    returns (r: Result<MeliPublicationPayload>, writes: seq<MeliWrite>)
    ensures token.Err? ==> r == Err(token.error) && writes == []
    ensures token.Ok? ==> r.Err? ==> r.error == InternalServerError
    ensures r.Ok? <==> UpdateSucceeds(req, token, put, descriptionPosted, market)
    ensures token.Ok? ==> writes == UpdateWrites(req, put)
    ensures r.Ok? ==>
      && FetchItem(market.item(req.meliItemId)).Ok?
      && r.value == PayloadFor(FetchItem(market.item(req.meliItemId)).value,
                               FetchItemDescription(market.description(req.meliItemId)), req.description, Some(owner))
  {
    writes := [];
    if token.Err? {
      return Err(token.error), writes;
    }
    var body := UpdateBody(None, None, None, None);
    if Truthy(req.title) {
      body := body.(title := req.title);
    }
    if req.price.Some? {
      body := body.(price := req.price);
    }
    if req.availableQuantity.Some? {
      body := body.(availableQuantity := req.availableQuantity);
    }
    if Truthy(req.status) {
      body := body.(status := req.status);
    }
    assert body == PutBody(req);
    if !body.IsEmpty() {
      writes := writes + [PutItem(req.meliItemId, body)];
      if put.Failed? {
        return Err(InternalServerError), writes;
      }
    }
    if req.description.Some? {
      writes := writes + [PostDescription(req.meliItemId, req.description.value)];
      if descriptionPosted.Failed? {
        return Err(InternalServerError), writes;
      }
    }
    var updated := FetchItem(market.item(req.meliItemId));
    if updated.Err? {
      return Err(InternalServerError), writes;
    }
    var description := FetchItemDescription(market.description(req.meliItemId));
    r := Ok(PayloadFor(updated.value, description, req.description, Some(owner)));
  }
}
