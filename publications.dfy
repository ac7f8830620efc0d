/** The `publications` table of the multi-tenant service
    (backend/src/publications/publications.service.ts): rows keyed by id, each
    marketplace item id held by at most one row, with their descriptions loaded. The
    database's fresh ids and clock are parameters. */
module Publications {
  import opened Common
  import opened MeliTypes
  import opened PublicationModel
  import Newest
  import MeliItems

  /** Every row is stored under its own id and no two rows share a marketplace item id
      (the unique `meli_item_id` column). */
  ghost predicate ValidRows(rows: map<string, Publication>)
  {
    && (forall id :: id in rows ==> rows[id].id == id)
    && (forall a, b :: a in rows && b in rows && rows[a].meliItemId == rows[b].meliItemId ==> a == b)
  }

  /** The id of the row holding marketplace item `m`, if any. */
  ghost function ItemRow(rows: map<string, Publication>, m: string): (r: Option<string>)
    ensures r.Some? ==> r.value in rows && rows[r.value].meliItemId == m
    ensures r.None? ==> forall id :: id in rows ==> rows[id].meliItemId != m
  {
    if exists id :: id in rows && rows[id].meliItemId == m then
      Some(var id :| id in rows && rows[id].meliItemId == m; id)
    else None
  }

  /** In a valid table the row holding an item id is the only one. */
  lemma ItemRowIsUnique(rows: map<string, Publication>, id: string)
    requires ValidRows(rows) && id in rows
    ensures ItemRow(rows, rows[id].meliItemId) == Some(id)
  {
  }

  /** The descriptions after an upsert: a non-empty payload description overwrites the
      first one's text and metadata, or becomes the only one. */
  function UpsertedDescriptions(ds: seq<PublicationDescription>, p: MeliPublicationPayload, newDescId: string, now: int): (r: seq<PublicationDescription>)
    ensures !Truthy(p.description) ==> r == ds
    ensures |r| == if Truthy(p.description) && |ds| == 0 then 1 else |ds|
    ensures Truthy(p.description) ==> r[0].description == p.description.value && r[0].metadata == p.metadata
    ensures forall i :: 1 <= i < |ds| ==> r[i] == ds[i]
    ensures |ds| > 0 ==> r[0].id == ds[0].id && r[0].createdAt == ds[0].createdAt
  {
    if !Truthy(p.description) then ds
    else if |ds| > 0 then ds[0 := ds[0].(description := p.description.value, metadata := p.metadata)]
    else [PublicationDescription(newDescId, p.description.value, p.metadata, now)]
  }

  /** The existing row an upsert overwrites: marketplace fields replaced, the permalink
      kept when the payload has none, the owner replaced only by a non-empty one. */
  function UpsertedRow(row: Publication, p: MeliPublicationPayload, newDescId: string, now: int): Publication
  {
    row.(title := p.title, price := p.price, status := p.status, availableQuantity := p.availableQuantity,
         soldQuantity := p.soldQuantity, categoryId := p.categoryId,
         permalink := if p.permalink.Some? then p.permalink else row.permalink,
         ownerUserId := if Truthy(p.ownerUserId) then p.ownerUserId else row.ownerUserId,
         descriptions := UpsertedDescriptions(row.descriptions, p, newDescId, now))
  }

  /** The row an upsert creates when no row holds the item. */
  function NewRow(p: MeliPublicationPayload, newId: string, newDescId: string, now: int): Publication
  {
    Publication(newId, p.meliItemId, p.permalink, p.title, p.price, p.status, p.availableQuantity,
                p.soldQuantity, p.categoryId, p.ownerUserId, false, now,
                UpsertedDescriptions([], p, newDescId, now))
  }

  /** The table after upsertFromMeli. */
  ghost function Upsert(rows: map<string, Publication>, p: MeliPublicationPayload, newId: string, newDescId: string, now: int): (r: map<string, Publication>)
    ensures ItemRow(rows, p.meliItemId).Some? ==>
      var id := ItemRow(rows, p.meliItemId).value;
      && r.Keys == rows.Keys && HoldsPayload(r[id], p) && r[id].id == rows[id].id
      && r[id].permalink == (if p.permalink.Some? then p.permalink else rows[id].permalink)
      && r[id].ownerUserId == (if Truthy(p.ownerUserId) then p.ownerUserId else rows[id].ownerUserId)
      && r[id].descriptions == UpsertedDescriptions(rows[id].descriptions, p, newDescId, now)
    ensures ItemRow(rows, p.meliItemId).None? ==>
      && r.Keys == rows.Keys + {newId} && HoldsPayload(r[newId], p) && r[newId].id == newId && !r[newId].isPausedLocally
      && r[newId].permalink == p.permalink && r[newId].ownerUserId == p.ownerUserId
      && r[newId].descriptions == UpsertedDescriptions([], p, newDescId, now)
  {
    match ItemRow(rows, p.meliItemId)
    case Some(id) => rows[id := UpsertedRow(rows[id], p, newDescId, now)]
    case None => rows[newId := NewRow(p, newId, newDescId, now)]
  }

  /** The marketplace fields of `row` are those of the payload. */
  predicate HoldsPayload(row: Publication, p: MeliPublicationPayload)
  {
    && row.meliItemId == p.meliItemId && row.title == p.title && row.price == p.price
    && row.status == p.status && row.availableQuantity == p.availableQuantity
    && row.soldQuantity == p.soldQuantity && row.categoryId == p.categoryId
  }

  /** An upsert keeps the table valid, leaves exactly one row holding the payload, adds
      at most the one new row, and touches no other row. Of the row it updates it keeps
      the id, creation time and local pause flag, and at most one description is added. */
  lemma UpsertKeepsTable(rows: map<string, Publication>, p: MeliPublicationPayload, newId: string, newDescId: string, now: int)
    requires ValidRows(rows) && newId !in rows
    ensures var after := Upsert(rows, p, newId, newDescId, now);
      && ValidRows(after)
      && ItemRow(after, p.meliItemId).Some?
      && HoldsPayload(after[ItemRow(after, p.meliItemId).value], p)
      && after.Keys == rows.Keys + {ItemRow(after, p.meliItemId).value}
      && (forall id :: id in rows && rows[id].meliItemId != p.meliItemId ==> after[id] == rows[id])
      && (forall id :: id in rows ==>
            && after[id].isPausedLocally == rows[id].isPausedLocally
            && after[id].createdAt == rows[id].createdAt
            && |rows[id].descriptions| <= |after[id].descriptions| <= |rows[id].descriptions| + 1)
  {
    var after := Upsert(rows, p, newId, newDescId, now);
    match ItemRow(rows, p.meliItemId)
    case Some(id) =>
      assert after == rows[id := UpsertedRow(rows[id], p, newDescId, now)];
      ItemRowIsUnique(after, id);
    case None =>
      assert after == rows[newId := NewRow(p, newId, newDescId, now)];
      ItemRowIsUnique(after, newId);
  }

  /** Upserting the same item twice leaves one row for it, holding the second payload,
      and no more rows than the first upsert left. */
  lemma {:induction false} UpsertTwiceKeepsOneRow(rows: map<string, Publication>, p1: MeliPublicationPayload, p2: MeliPublicationPayload,
                                                  id1: string, id2: string, d1: string, d2: string, t1: int, t2: int)
    requires ValidRows(rows) && id1 !in rows
    requires p1.meliItemId == p2.meliItemId
    ensures var once := Upsert(rows, p1, id1, d1, t1);
      var twice := Upsert(once, p2, id2, d2, t2);
      && ItemRow(once, p1.meliItemId).Some?
      && twice.Keys == once.Keys
      && (forall id :: id in twice && twice[id].meliItemId == p2.meliItemId ==> id == ItemRow(once, p1.meliItemId).value)
      && HoldsPayload(twice[ItemRow(once, p1.meliItemId).value], p2)
  {
    var once := Upsert(rows, p1, id1, d1, t1);
    UpsertKeepsTable(rows, p1, id1, d1, t1);
    var id := ItemRow(once, p1.meliItemId).value;
    ItemRowIsUnique(once, id);
    assert Upsert(once, p2, id2, d2, t2) == once[id := UpsertedRow(once[id], p2, d2, t2)];
  }

  /** The outcome of pausing (`paused`) or activating a row: NotFound for an unknown id,
      Conflict for another owner's row, otherwise the table with the row's flag set. */
  function SetPaused(rows: map<string, Publication>, id: string, caller: Option<string>, paused: bool): (r: Result<map<string, Publication>>)
    ensures r == Err(NotFound) <==> id !in rows
    ensures r == Err(Conflict) <==> id in rows && !Visible(rows[id], caller)
    ensures r.Ok? ==> r.value.Keys == rows.Keys && r.value[id].isPausedLocally == paused
    ensures r.Ok? ==> forall k :: k in rows && k != id ==> r.value[k] == rows[k]
    ensures r.Ok? ==> r.value[id] == rows[id].(isPausedLocally := paused)
  {
    if id !in rows then Err(NotFound)
    else if !Visible(rows[id], caller) then Err(Conflict)
    else Ok(rows[id := rows[id].(isPausedLocally := paused)])
  }

  /** Pausing then activating a row leaves it as it was, with the flag cleared; and the
      flag's changes keep the table valid. */
  lemma PauseThenActivate(rows: map<string, Publication>, id: string, caller: Option<string>)
    requires ValidRows(rows)
    requires SetPaused(rows, id, caller, true).Ok?
    ensures ValidRows(SetPaused(rows, id, caller, true).value)
    ensures SetPaused(SetPaused(rows, id, caller, true).value, id, caller, false)
         == Ok(rows[id := rows[id].(isPausedLocally := false)])
  {
    var paused := SetPaused(rows, id, caller, true).value;
    assert paused[id := paused[id].(isPausedLocally := false)] == rows[id := rows[id].(isPausedLocally := false)];
  }

  /** The partial update the publications endpoint accepts. */
  datatype UpdatePublication = UpdatePublication(
    meliItemId: Option<string>,
    title: Option<string>,
    price: Option<real>,
    status: Option<string>,
    availableQuantity: Option<int>,
    soldQuantity: Option<int>,
    categoryId: Option<string>,
    description: Option<string>)

  function OrElse<T>(o: Option<T>, d: T): T { if o.Some? then o.value else d }

  /** The request update sends to the marketplace: each field given, or the stored one;
      the description given, or the first stored one, or empty. */
  function RemoteRequest(row: Publication, dto: UpdatePublication): (req: MeliItems.UpdateItemRequest)
    ensures req.meliItemId == row.meliItemId
    ensures req.title == Some(if dto.title.Some? then dto.title.value else row.title)
    ensures req.price == Some(if dto.price.Some? then dto.price.value else row.price)
    ensures req.availableQuantity == Some(if dto.availableQuantity.Some? then dto.availableQuantity.value else row.availableQuantity)
    ensures req.status == Some(if dto.status.Some? then dto.status.value else row.status)
    ensures req.description.Some?
    ensures req.description.value == if dto.description.Some? then dto.description.value
                                     else if |row.descriptions| > 0 then row.descriptions[0].description else ""
  {
    MeliItems.UpdateItemRequest(
      row.meliItemId,
      Some(OrElse(dto.title, row.title)),
      Some(OrElse(dto.price, row.price)),
      Some(OrElse(dto.availableQuantity, row.availableQuantity)),
      Some(OrElse(dto.status, row.status)),
      Some(if dto.description.Some? then dto.description.value
           else if |row.descriptions| > 0 then row.descriptions[0].description else ""))
  }

  /** update takes the marketplace path for a row with an item id and a signed-in caller. */
  predicate UpdatesRemotely(row: Publication, caller: Option<string>)
  {
    row.meliItemId != "" && Truthy(caller)
  }

  /** The row after a local update: the given fields copied over, the caller made owner,
      a given description written into the first description or added as a new one. */
  function LocallyUpdated(row: Publication, dto: UpdatePublication, caller: Option<string>, newDescId: string, now: int): (r: Publication)
    ensures r.id == row.id && r.createdAt == row.createdAt && r.isPausedLocally == row.isPausedLocally
    ensures r.permalink == row.permalink
    ensures r.meliItemId == (if dto.meliItemId.Some? then dto.meliItemId.value else row.meliItemId)
    ensures r.title == (if dto.title.Some? then dto.title.value else row.title)
    ensures r.price == (if dto.price.Some? then dto.price.value else row.price)
    ensures r.status == (if dto.status.Some? then dto.status.value else row.status)
    ensures r.availableQuantity == (if dto.availableQuantity.Some? then dto.availableQuantity.value else row.availableQuantity)
    ensures r.soldQuantity == (if dto.soldQuantity.Some? then dto.soldQuantity.value else row.soldQuantity)
    ensures r.categoryId == (if dto.categoryId.Some? then dto.categoryId.value else row.categoryId)
    ensures Truthy(caller) ==> r.ownerUserId == caller
    ensures !Truthy(caller) ==> r.ownerUserId == row.ownerUserId
    ensures dto.description.None? ==> r.descriptions == row.descriptions
    ensures dto.description.Some? ==> |r.descriptions| > 0 && r.descriptions[0].description == dto.description.value
    ensures dto.description.Some? && |row.descriptions| > 0 ==>
      r.descriptions == row.descriptions[0 := row.descriptions[0].(description := dto.description.value)]
  {
    row.(meliItemId := OrElse(dto.meliItemId, row.meliItemId),
         title := OrElse(dto.title, row.title),
         price := OrElse(dto.price, row.price),
         status := OrElse(dto.status, row.status),
         availableQuantity := OrElse(dto.availableQuantity, row.availableQuantity),
         soldQuantity := OrElse(dto.soldQuantity, row.soldQuantity),
         categoryId := OrElse(dto.categoryId, row.categoryId),
         ownerUserId := if Truthy(caller) then caller else row.ownerUserId,
         descriptions :=
           if dto.description.None? then row.descriptions
           else if |row.descriptions| > 0 then row.descriptions[0 := row.descriptions[0].(description := dto.description.value)]
           else [PublicationDescription(newDescId, dto.description.value, None, now)])
  }

  /** Another row already holds the item id a local update would give `id`. */
  predicate ItemIdTaken(rows: map<string, Publication>, id: string, dto: UpdatePublication)
  {
    dto.meliItemId.Some? && exists other :: other in rows && other != id && rows[other].meliItemId == dto.meliItemId.value
  }

  /** A local update keeps the table valid when it does not clash with another row. */
  lemma LocalUpdateKeepsTable(rows: map<string, Publication>, id: string, dto: UpdatePublication, caller: Option<string>, newDescId: string, now: int)
    requires ValidRows(rows) && id in rows && !ItemIdTaken(rows, id, dto)
    ensures ValidRows(rows[id := LocallyUpdated(rows[id], dto, caller, newDescId, now)])
    ensures Visible(LocallyUpdated(rows[id], dto, caller, newDescId, now), caller)
  {
    var after := rows[id := LocallyUpdated(rows[id], dto, caller, newDescId, now)];
    forall a, b | a in after && b in after && after[a].meliItemId == after[b].meliItemId
      ensures a == b
    {
      if a != id && b != id {
        assert after[a] == rows[a] && after[b] == rows[b];
      }
    }
  }

  class PublicationTable {
    var rows: map<string, Publication>

    ghost predicate Valid()
      reads this
    {
      ValidRows(rows)
    }

    constructor(initial: map<string, Publication>)
      requires ValidRows(initial)
      ensures rows == initial && Valid()
    {
      rows := initial;
    }

    /** findOne: the row as a DTO, or NotFound when it is missing or another owner's. */
    method FindOne(id: string, caller: Option<string>) returns (r: Result<PublicationDto>)
      ensures r.Ok? <==> id in rows && Visible(rows[id], caller)
      ensures r.Ok? ==> r.value == MapToDto(rows[id])
      ensures r.Err? ==> r.error == NotFound
    {
      if id !in rows || !Visible(rows[id], caller) {
        return Err(NotFound);
      }
      return Ok(MapToDto(rows[id]));
    }

    /** findByMeliItemId: the row holding the item, unless it is another owner's. */
    method FindByMeliItemId(m: string, caller: Option<string>) returns (r: Option<PublicationDto>)
      requires Valid()
      ensures r.Some? <==> ItemRow(rows, m).Some? && Visible(rows[ItemRow(rows, m).value], caller)
      ensures r.Some? ==> r.value == MapToDto(rows[ItemRow(rows, m).value])
    {
      if !exists id :: id in rows && rows[id].meliItemId == m {
        return None;
      }
      var id :| id in rows && rows[id].meliItemId == m;
      ItemRowIsUnique(rows, id);
      if !Visible(rows[id], caller) {
        return None;
      }
      return Some(MapToDto(rows[id]));
    }

    /** findAll: the caller's rows (every row without a caller), newest first, the page
      `offset`/`limit` cuts out, 50 rows from the first by default. */
    method FindAll(limit: Option<int>, offset: Option<int>, caller: Option<string>) returns (r: seq<PublicationDto>)
      requires Valid()
      requires limit.Some? ==> limit.value >= 1
      requires offset.Some? ==> offset.value >= 0
      ensures exists s ::
        && Newest.IsListing(rows, Listed(caller), CreatedAt, s)
        && r == ToDtos(rows, Newest.Page(s, OrElse(offset, 0), OrElse(limit, 50)))
      ensures |r| <= OrElse(limit, 50)
      ensures forall d :: d in r ==> d.id in rows && ListedFor(rows[d.id], caller) && Visible(rows[d.id], caller) && d == MapToDto(rows[d.id])
    {
      var s := Newest.CollectNewestFirst(rows, Listed(caller), CreatedAt);
      var take: nat := OrElse(limit, 50);
      var skip: nat := OrElse(offset, 0);
      PageIsListed(rows, caller, s, skip, take);
      r := ToDtos(rows, Newest.Page(s, skip, take));
      DtosAreListed(rows, caller, Newest.Page(s, skip, take));
    }

    /** upsertFromMeli: overwrite the row holding the payload's item, or create one, and
        answer that row as a DTO. */
    method UpsertFromMeli(p: MeliPublicationPayload, newId: string, newDescId: string, now: int) returns (r: PublicationDto)
      requires Valid() && newId !in rows
      modifies this
      ensures Valid()
      ensures rows == Upsert(old(rows), p, newId, newDescId, now)
      ensures r.id in rows && r == MapToDto(rows[r.id]) && rows[r.id].meliItemId == p.meliItemId
    {
      UpsertKeepsTable(rows, p, newId, newDescId, now);
      var id: string;
      if exists k :: k in rows && rows[k].meliItemId == p.meliItemId {
        id :| id in rows && rows[id].meliItemId == p.meliItemId;
        ItemRowIsUnique(rows, id);
        var row := rows[id];
        row := row.(title := p.title, price := p.price, status := p.status);
        row := row.(availableQuantity := p.availableQuantity, soldQuantity := p.soldQuantity, categoryId := p.categoryId);
        row := row.(permalink := if p.permalink.Some? then p.permalink else row.permalink);
        if Truthy(p.ownerUserId) {
          row := row.(ownerUserId := p.ownerUserId);
        }
        if Truthy(p.description) {
          if |row.descriptions| > 0 {
            var first := row.descriptions[0].(description := p.description.value, metadata := p.metadata);
            row := row.(descriptions := row.descriptions[0 := first]);
          } else {
            row := row.(descriptions := [PublicationDescription(newDescId, p.description.value, p.metadata, now)]);
          }
        }
        rows := rows[id := row];
      } else {
        id := newId;
        var row := Publication(newId, p.meliItemId, p.permalink, p.title, p.price, p.status, p.availableQuantity,
                               p.soldQuantity, p.categoryId, p.ownerUserId, false, now, []);
        if Truthy(p.description) {
          row := row.(descriptions := [PublicationDescription(newDescId, p.description.value, p.metadata, now)]);
        }
        rows := rows[id := row];
      }
      r := MapToDto(rows[id]);
    }

    /** pausePublication: marks the row paused locally whatever the marketplace answers;
        `remotePaused` is whether pausing the item there succeeds, asked only for a row
        with an item id and a signed-in caller. */
    method PausePublication(id: string, caller: Option<string>, remotePaused: bool) returns (r: Result<bool>)
      requires Valid()
      modifies this
      ensures Valid()
      ensures SetPaused(old(rows), id, caller, true).Err? ==>
        r == Err(SetPaused(old(rows), id, caller, true).error) && rows == old(rows)
      ensures SetPaused(old(rows), id, caller, true).Ok? ==>
        && rows == SetPaused(old(rows), id, caller, true).value
        && r == Ok(rows[id].meliItemId != "" && Truthy(caller) && remotePaused)
    {
      if id !in rows {
        return Err(NotFound);
      }
      if !Visible(rows[id], caller) {
        return Err(Conflict);
      }
      var pausedInMeli := false;
      if rows[id].meliItemId != "" && Truthy(caller) {
        pausedInMeli := remotePaused;
      }
      rows := rows[id := rows[id].(isPausedLocally := true)];
      return Ok(pausedInMeli);
    }

    /** activatePublication: clears the local pause flag and answers the row. */
    method ActivatePublication(id: string, caller: Option<string>) returns (r: Result<PublicationDto>)
      requires Valid()
      modifies this
      ensures Valid()
      ensures SetPaused(old(rows), id, caller, false).Err? ==>
        r == Err(SetPaused(old(rows), id, caller, false).error) && rows == old(rows)
      ensures SetPaused(old(rows), id, caller, false).Ok? ==>
        rows == SetPaused(old(rows), id, caller, false).value && r == Ok(MapToDto(rows[id]))
    {
      if id !in rows {
        return Err(NotFound);
      }
      if !Visible(rows[id], caller) {
        return Err(Conflict);
      }
      rows := rows[id := rows[id].(isPausedLocally := false)];
      r := FindOne(id, caller);
    }

    /** update: for a row with an item id and a signed-in caller, the marketplace item is
        updated and read back into the table (any failure is BadRequest); otherwise the
        given fields are merged into the row locally, a clash on the item id being a
        Conflict. No ownership check is made. `token`, `put`, `descriptionPosted` and
        `market` are what the marketplace answers on the first path. */
    method Update(id: string, dto: UpdatePublication, caller: Option<string>,
                  token: Result<string>, put: Reply<()>, descriptionPosted: Reply<()>, market: Marketplace,
                  newId: string, newDescId: string, now: int)
      returns (r: Result<PublicationDto>)
      requires Valid() && newId !in rows
      modifies this
      ensures Valid()
      ensures id !in old(rows) ==> r == Err(NotFound) && rows == old(rows)
      ensures id in old(rows) && UpdatesRemotely(old(rows)[id], caller) ==>
        var req := RemoteRequest(old(rows)[id], dto);
        && (r.Ok? <==> MeliItems.UpdateSucceeds(req, token, put, descriptionPosted, market))
        && (r.Err? ==> r.error == BadRequest && rows == old(rows))
        && (r.Ok? ==>
              var item := MeliItems.FetchItem(market.item(req.meliItemId)).value;
              var payload := MeliItems.PayloadFor(item, MeliItems.FetchItemDescription(market.description(req.meliItemId)),
                                                  req.description, caller);
              && rows == Upsert(old(rows), payload, newId, newDescId, now)
              && r.value.id in rows && r.value == MapToDto(rows[r.value.id]))
      ensures id in old(rows) && !UpdatesRemotely(old(rows)[id], caller) ==>
        && (r == Err(Conflict) <==> ItemIdTaken(old(rows), id, dto))
        && (r.Err? ==> r.error == Conflict && rows == old(rows))
        && (r.Ok? ==>
              && rows == old(rows)[id := LocallyUpdated(old(rows)[id], dto, caller, newDescId, now)]
              && r.value == MapToDto(rows[id]))
    {
      if id !in rows {
        return Err(NotFound);
      }
      if UpdatesRemotely(rows[id], caller) {
        r := UpdateRemotely(id, dto, caller, token, put, descriptionPosted, market, newId, newDescId, now);
      } else {
        r := UpdateLocally(id, dto, caller, newDescId, now);
      }
    }

    /** The marketplace path of update: the item is updated there and read back through
        upsertFromMeli. */
    method UpdateRemotely(id: string, dto: UpdatePublication, caller: Option<string>,
                          token: Result<string>, put: Reply<()>, descriptionPosted: Reply<()>, market: Marketplace,
                          newId: string, newDescId: string, now: int)
      returns (r: Result<PublicationDto>)
      requires Valid() && newId !in rows && id in rows && UpdatesRemotely(rows[id], caller)
      modifies this
      ensures Valid()
      ensures var req := RemoteRequest(old(rows)[id], dto);
        && (r.Ok? <==> MeliItems.UpdateSucceeds(req, token, put, descriptionPosted, market))
        && (r.Err? ==> r.error == BadRequest && rows == old(rows))
        && (r.Ok? ==>
              var item := MeliItems.FetchItem(market.item(req.meliItemId)).value;
              var payload := MeliItems.PayloadFor(item, MeliItems.FetchItemDescription(market.description(req.meliItemId)),
                                                  req.description, caller);
              && rows == Upsert(old(rows), payload, newId, newDescId, now)
              && r.value.id in rows && r.value == MapToDto(rows[r.value.id]))
    {
      var req := RemoteRequest(rows[id], dto);
      var updated, _ := MeliItems.UpdateItemFromApp(req, caller.value, token, put, descriptionPosted, market);
      if updated.Err? {
        return Err(BadRequest);
      }
      var dtoOut := UpsertFromMeli(updated.value, newId, newDescId, now);
      return Ok(dtoOut);
    }

    /** The local path of update: `Object.assign` of the given fields, the caller made
        owner, and the description written; a clash on the item id is a Conflict. */
    method UpdateLocally(id: string, dto: UpdatePublication, caller: Option<string>, newDescId: string, now: int)
      returns (r: Result<PublicationDto>)
      requires Valid() && id in rows
      modifies this
      ensures Valid()
      ensures r == Err(Conflict) <==> ItemIdTaken(old(rows), id, dto)
      ensures r.Err? ==> r.error == Conflict && rows == old(rows)
      ensures r.Ok? ==>
        && rows == old(rows)[id := LocallyUpdated(old(rows)[id], dto, caller, newDescId, now)]
        && r.value == MapToDto(rows[id])
    {
      if dto.meliItemId.Some? && exists other :: other in rows && other != id && rows[other].meliItemId == dto.meliItemId.value {
        return Err(HandleQueryError(QueryFailed("23505")));
      }
      LocalUpdateKeepsTable(rows, id, dto, caller, newDescId, now);
      var row := rows[id];
      row := row.(meliItemId := OrElse(dto.meliItemId, row.meliItemId), title := OrElse(dto.title, row.title));
      row := row.(price := OrElse(dto.price, row.price), status := OrElse(dto.status, row.status));
      row := row.(availableQuantity := OrElse(dto.availableQuantity, row.availableQuantity));
      row := row.(soldQuantity := OrElse(dto.soldQuantity, row.soldQuantity), categoryId := OrElse(dto.categoryId, row.categoryId));
      if Truthy(caller) {
        row := row.(ownerUserId := caller);
      }
      if dto.description.Some? {
        if |row.descriptions| > 0 {
          row := row.(descriptions := row.descriptions[0 := row.descriptions[0].(description := dto.description.value)]);
        } else {
          row := row.(descriptions := [PublicationDescription(newDescId, dto.description.value, None, now)]);
        }
      }
      assert row == LocallyUpdated(old(rows)[id], dto, caller, newDescId, now);
      rows := rows[id := row];
      r := FindOne(id, caller);
    }
  }

  /** The filter of findAll as a function value. */
  function Listed(caller: Option<string>): Publication -> bool
  {
    p => ListedFor(p, caller)
  }

  /** Every row on a page of the listing belongs to the caller's list and is one the
      caller may open. */
  lemma PageIsListed(rows: map<string, Publication>, caller: Option<string>, s: seq<string>, skip: nat, take: nat)
    requires Newest.IsListing(rows, Listed(caller), CreatedAt, s)
    ensures forall k :: k in Newest.Page(s, skip, take) ==> k in rows && ListedFor(rows[k], caller) && Visible(rows[k], caller)
  {
    var page := Newest.Page(s, skip, take);
    forall k | k in page ensures k in rows && ListedFor(rows[k], caller) && Visible(rows[k], caller) {
      var i :| 0 <= i < |page| && page[i] == k;
      assert page[i] == s[skip + i];
      ListedRowsAreVisible(rows[k], caller);
    }
  }

  /** The DTOs of listed rows are those of rows the caller may open, found by their ids. */
  lemma DtosAreListed(rows: map<string, Publication>, caller: Option<string>, ids: seq<string>)
    requires ValidRows(rows)
    requires forall k :: k in ids ==> k in rows && ListedFor(rows[k], caller) && Visible(rows[k], caller)
    ensures forall d :: d in ToDtos(rows, ids) ==>
      d.id in rows && ListedFor(rows[d.id], caller) && Visible(rows[d.id], caller) && d == MapToDto(rows[d.id])
  {
    var r := ToDtos(rows, ids);
    forall d | d in r
      ensures d.id in rows && ListedFor(rows[d.id], caller) && Visible(rows[d.id], caller) && d == MapToDto(rows[d.id])
    {
      var i :| 0 <= i < |r| && r[i] == d;
      assert ids[i] in ids && d.id == rows[ids[i]].id;
    }
  }

  /** The DTOs of the rows stored under `ids`. */
  function ToDtos(rows: map<string, Publication>, ids: seq<string>): (r: seq<PublicationDto>)
    requires forall k :: k in ids ==> k in rows
    ensures |r| == |ids|
    ensures forall i :: 0 <= i < |ids| ==> r[i] == MapToDto(rows[ids[i]])
  {
    seq(|ids|, i requires 0 <= i < |ids| => MapToDto(rows[ids[i]]))
  }
}
