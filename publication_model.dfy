/** The local publication records (backend/src/publications/entities/publication.entity.ts,
    with the `is_paused_locally` column of the 1735266000000 migration), the payload the
    marketplace service hands to the upsert
    (backend/src/publications/interfaces/publication.interface.ts:13-25), and the pure
    parts of the publications service: the DTO mapping with its derived permalink, the
    owner-visibility rules and the translation of database errors. */
module PublicationModel {
  import opened Common
  import opened MeliTypes
  import MeliIds

  /** The `metadata` the marketplace service stores beside an imported description. */
  datatype Metadata = ItemMetadata(rawItem: MeliItem, rawDescription: Option<MeliItemDescription>)

  datatype PublicationDescription = PublicationDescription(
    id: string,
    description: string,
    metadata: Option<Metadata>,
    createdAt: int)

  /** A row of `publications` with its loaded `descriptions` relation. */
  datatype Publication = Publication(
    id: string,
    meliItemId: string,
    permalink: Option<string>,
    title: string,
    price: real,
    status: string,
    availableQuantity: int,
    soldQuantity: int,
    categoryId: string,
    ownerUserId: Option<string>,
    isPausedLocally: bool,
    createdAt: int,
    descriptions: seq<PublicationDescription>)

  datatype MeliPublicationPayload = MeliPublicationPayload(
    meliItemId: string,
    permalink: Option<string>,
    title: string,
    price: real,
    status: string,
    availableQuantity: int,
    soldQuantity: int,
    categoryId: string,
    description: Option<string>,
    metadata: Option<Metadata>,
    ownerUserId: Option<string>)

  /** What the publications endpoints answer for one row. */
  datatype PublicationDto = PublicationDto(
    id: string,
    meliItemId: string,
    permalink: Option<string>,
    title: string,
    price: real,
    status: string,
    availableQuantity: int,
    soldQuantity: int,
    categoryId: string,
    isPausedLocally: bool,
    ownerUserId: Option<string>,
    createdAt: int,
    descriptions: seq<PublicationDescription>)

  function CreatedAt(p: Publication): int { p.createdAt }

  const PermalinkBase := "https://articulo.mercadolibre.com.ar/MLA-"

  /** `^MLA\d+$`, case-insensitively. */
  predicate IsMlaNumericId(id: string)
  {
    && |id| >= 4
    && (id[0] == 'M' || id[0] == 'm') && (id[1] == 'L' || id[1] == 'l') && (id[2] == 'A' || id[2] == 'a')
    && forall j :: 3 <= j < |id| ==> MeliIds.IsDigit(id[j])
  }

  /** The permalink mapToDto reports: a non-empty stored one, else one built from an
      `MLA<digits>` item id, else the stored value as it is. */
  function DerivedPermalink(stored: Option<string>, meliItemId: string): (r: Option<string>)
    ensures Truthy(stored) ==> r == stored
    ensures !Truthy(stored) && IsMlaNumericId(meliItemId) ==> r == Some(PermalinkBase + meliItemId[3..])
    ensures !Truthy(stored) && !IsMlaNumericId(meliItemId) ==> r == stored
  {
    if Truthy(stored) then stored
    else if IsMlaNumericId(meliItemId) then Some(PermalinkBase + meliItemId[3..])
    else stored
  }

  /** mapToDto: every field copied, the permalink derived. */
  function MapToDto(p: Publication): (d: PublicationDto)
    ensures d.id == p.id && d.meliItemId == p.meliItemId && d.descriptions == p.descriptions
    ensures d.permalink == DerivedPermalink(p.permalink, p.meliItemId)
    ensures d.title == p.title && d.price == p.price && d.status == p.status
    ensures d.availableQuantity == p.availableQuantity && d.soldQuantity == p.soldQuantity
    ensures d.categoryId == p.categoryId && d.isPausedLocally == p.isPausedLocally
    ensures d.ownerUserId == p.ownerUserId && d.createdAt == p.createdAt
  {
    PublicationDto(p.id, p.meliItemId, DerivedPermalink(p.permalink, p.meliItemId), p.title, p.price,
                   p.status, p.availableQuantity, p.soldQuantity, p.categoryId, p.isPausedLocally,
                   p.ownerUserId, p.createdAt, p.descriptions)
  }

  /** The ownership test of findOne, findByMeliItemId, pause and activate: a row is hidden
      from a caller only when both have an owner and the owners differ. */
  predicate Visible(p: Publication, caller: Option<string>)
  {
    !(Truthy(caller) && Truthy(p.ownerUserId) && p.ownerUserId != caller)
  }

  /** The filter of findAll: with a caller, only the caller's rows; without one, all. */
  predicate ListedFor(p: Publication, caller: Option<string>)
  {
    !Truthy(caller) || p.ownerUserId == caller
  }

  /** Ownerless rows are visible to everyone, and every row a caller's list shows is one
      that caller can open; the converse fails for ownerless rows. */
  lemma ListedRowsAreVisible(p: Publication, caller: Option<string>)
    ensures !Truthy(p.ownerUserId) ==> Visible(p, caller)
    ensures ListedFor(p, caller) ==> Visible(p, caller)
    ensures Truthy(caller) && !Truthy(p.ownerUserId) ==> !ListedFor(p, caller)
  {
  }

  /** The database errors the services distinguish. */
  datatype DbError = QueryFailed(code: string) | OtherDbError

  /** handleQueryError: a unique violation (Postgres code 23505) is a Conflict; any other
      error is rethrown unchanged. */
  function HandleQueryError(e: DbError): (r: Error)
    ensures r == Conflict <==> e == QueryFailed("23505")
    ensures r != Conflict ==> r == Unhandled
  {
    if e.QueryFailed? && e.code == "23505" then Conflict else Unhandled
  }
}
