/** Item reads and import of the older single-tenant service
    (Backend/src/meli/meli.service.ts). Every read carries the access token and there is
    no public fallback; only the `withToken` answers of a `Marketplace` are consulted.
    The payload goes to an `upsertFromMeli` the older publications service does not
    define, so the import ends with the payload it would hand over. */
module LegacyMeliItems {
  import opened Common
  import opened MeliTypes
  import opened PublicationModel
  import MeliItems

  /** fetchItem: 404 is NotFound; every other failure, a missing status included, is 500. */
  function FetchItem(reply: Reply<MeliItem>): (r: Result<MeliItem>)
    ensures r.Ok? <==> reply.Answered?
    ensures r.Ok? ==> r.value == reply.data
    ensures r.Err? ==> (r.error == NotFound <==> reply.status == Some(404))
    ensures r.Err? ==> r.error in {NotFound, InternalServerError}
  {
    match reply
    case Answered(item) => Ok(item)
    case Failed(status, _) => if StatusOr500(status) == 404 then Err(NotFound) else Err(InternalServerError)
  }

  /** fetchItemsFromProduct: the product's items; any failure is 500. */
  function FetchItemsFromProduct(reply: Reply<seq<MeliItem>>): (r: Result<seq<MeliItem>>)
    ensures r.Ok? <==> reply.Answered?
    ensures r.Ok? ==> r.value == reply.data
    ensures r.Err? ==> r.error == InternalServerError
  {
    match reply
    case Answered(items) => Ok(items)
    case Failed(_, _) => Err(InternalServerError)
  }

  /** fetchItemDescription: one attempt; a failure reads as no description. */
  function FetchItemDescription(reply: Reply<MeliItemDescription>): (r: Option<MeliItemDescription>)
    ensures r.Some? <==> reply.Answered?
    ensures r.Some? ==> r.value == reply.data
  {
    match reply
    case Answered(d) => Some(d)
    case Failed(_, _) => None
  }

  /** The payload this revision builds: no permalink and no owner. */
  function LegacyPayload(item: MeliItem, d: Option<MeliItemDescription>): (p: MeliPublicationPayload)
    ensures p.meliItemId == item.id && p.title == item.title && p.price == item.price
    ensures p.status == item.status && p.availableQuantity == item.availableQuantity
    ensures p.soldQuantity == item.soldQuantity && p.categoryId == item.categoryId
    ensures p.permalink.None? && p.ownerUserId.None?
    ensures p.description == DescriptionText(d)
    ensures p.metadata == Some(ItemMetadata(item, d))
  {
    MeliPublicationPayload(item.id, None, item.title, item.price, item.status, item.availableQuantity,
                           item.soldQuantity, item.categoryId, DescriptionText(d), Some(ItemMetadata(item, d)), None)
  }

  /** importItem: the id is used as given; a NotFound item is retried as a product whose
      first item is imported, and every failure of that branch is NotFound. */
  method ImportItem(itemId: string, token: Result<string>, market: Marketplace)
    returns (r: Result<MeliPublicationPayload>)
    ensures r.Err? ==> r.error in {NotFound, InternalServerError}
    ensures token.Err? ==> r == Err(if token.error == NotFound then NotFound else InternalServerError)
    ensures token.Ok? ==>
      var direct := FetchItem(market.item(itemId).withToken);
      && (direct.Ok? ==> r == Ok(LegacyPayload(direct.value, FetchItemDescription(market.description(itemId).withToken))))
      && (direct == Err(InternalServerError) ==> r == Err(InternalServerError))
      && (direct == Err(NotFound) ==>
            var products := market.product(itemId).withToken;
            if products.Failed? || |products.data| == 0 then r == Err(NotFound)
            else
              var actual := products.data[0].id;
              var second := FetchItem(market.item(actual).withToken);
              r == if second.Err? then Err(NotFound)
                   else Ok(LegacyPayload(second.value, FetchItemDescription(market.description(actual).withToken))))
    ensures r.Ok? ==> r.value.permalink.None? && r.value.ownerUserId.None?
  {
    if token.Err? {
      return Err(if token.error == NotFound then NotFound else InternalServerError);
    }
    var actualItemId := itemId;
    var item: MeliItem;
    var fetched := FetchItem(market.item(itemId).withToken);
    if fetched.Ok? {
      item := fetched.value;
    } else if fetched.error == NotFound {
      var items := FetchItemsFromProduct(market.product(itemId).withToken);
      if items.Err? || |items.value| == 0 {
        return Err(NotFound);
      }
      actualItemId := items.value[0].id;
      fetched := FetchItem(market.item(actualItemId).withToken);
      if fetched.Err? {
        return Err(NotFound);
      }
      item := fetched.value;
    } else {
      return Err(fetched.error);
    }
    var description := FetchItemDescription(market.description(actualItemId).withToken);
    return Ok(LegacyPayload(item, description));
  }

  /** The two revisions agree on an item the token can read: same item, and the same
      description text when the authenticated description read succeeds. */
  lemma FetchItemAgreesWhenAnswered(l: ItemLookup, d: DescriptionLookup)
    requires l.withToken.Answered?
    ensures FetchItem(l.withToken) == MeliItems.FetchItem(l)
    ensures d.withToken.Answered? ==> FetchItemDescription(d.withToken) == MeliItems.FetchItemDescription(d)
  {
  }

  /** Where the revisions differ: a 401 whose public read succeeds is an item in the newer
      one and a 500 in the older one. */
  lemma UnauthorizedReadDiffers(l: ItemLookup)
    requires l.withToken.Failed? && l.withToken.status == Some(401) && l.withoutToken.Answered?
    ensures FetchItem(l.withToken) == Err(InternalServerError)
    ensures MeliItems.FetchItem(l) == Ok(l.withoutToken.data)
  {
  }
}
