/** The marketplace's item resources as the services read them
    (Backend/src/meli/interfaces/meli-item.interface.ts; the newer revision also reads
    `permalink`), and the answers of the read endpoints the services call. */
module MeliTypes {
  import opened Common

  datatype MeliItem = MeliItem(
    id: string,
    title: string,
    price: real,
    status: string,
    availableQuantity: int,
    soldQuantity: int,
    categoryId: string,
    permalink: Option<string>)

  datatype MeliItemDescription = MeliItemDescription(plainText: Option<string>, text: Option<string>)

  /** What `GET /items/{id}` answers with the access token and without it. */
  datatype ItemLookup = ItemLookup(withToken: Reply<MeliItem>, withoutToken: Reply<MeliItem>)

  /** What `GET /products/{id}` answers with and without the token; a body without an
      `items` list reads as the empty list. */
  datatype ProductLookup = ProductLookup(withToken: Reply<seq<MeliItem>>, withoutToken: Reply<seq<MeliItem>>)

  /** What `GET /items/{id}/description` answers with and without the token. */
  datatype DescriptionLookup = DescriptionLookup(withToken: Reply<MeliItemDescription>, withoutToken: Reply<MeliItemDescription>)

  /** The marketplace's read endpoints, as answers keyed by the id asked for. */
  datatype Marketplace = Marketplace(
    item: string -> ItemLookup,
    product: string -> ProductLookup,
    description: string -> DescriptionLookup)

  /** `description?.plain_text || description?.text`: the first non-empty text, if any. */
  function DescriptionText(d: Option<MeliItemDescription>): (r: Option<string>)
    ensures r.Some? ==> r.value != "" && d.Some?
    ensures r.Some? ==> r == d.value.plainText || r == d.value.text
    ensures d.Some? && Truthy(d.value.plainText) ==> r == d.value.plainText
    ensures r.None? <==> d.None? || (!Truthy(d.value.plainText) && !Truthy(d.value.text))
  {
    if d.None? then None
    else if Truthy(d.value.plainText) then d.value.plainText
    else if Truthy(d.value.text) then d.value.text
    else None
  }
}
