/** The `publications` table of the older single-tenant service
    (Backend/src/publications/publications.service.ts): plain create, read, update and
    delete, with no owners, no permalink and no pause flag. */
module LegacyPublications {
  import opened Common
  import PublicationModel
  import Newest

  datatype LegacyPublication = LegacyPublication(
    id: string,
    meliItemId: string,
    title: string,
    price: real,
    status: string,
    availableQuantity: int,
    soldQuantity: int,
    categoryId: string,
    createdAt: int,
    descriptions: seq<PublicationModel.PublicationDescription>)

  /** What this revision's endpoints answer for a row: the fields copied as stored. */
  datatype LegacyDto = LegacyDto(
    id: string,
    meliItemId: string,
    title: string,
    price: real,
    status: string,
    availableQuantity: int,
    soldQuantity: int,
    categoryId: string,
    createdAt: int,
    descriptions: seq<PublicationModel.PublicationDescription>)

  function CreatedAt(p: LegacyPublication): int { p.createdAt }

  function All(p: LegacyPublication): bool { true }

  /** mapToDto: a field-for-field copy of the row. */
  function MapToDto(p: LegacyPublication): (d: LegacyDto)
    ensures d.id == p.id && d.meliItemId == p.meliItemId && d.title == p.title && d.price == p.price
    ensures d.status == p.status && d.availableQuantity == p.availableQuantity
    ensures d.soldQuantity == p.soldQuantity && d.categoryId == p.categoryId
    ensures d.createdAt == p.createdAt && d.descriptions == p.descriptions
  {
    LegacyDto(p.id, p.meliItemId, p.title, p.price, p.status, p.availableQuantity, p.soldQuantity,
              p.categoryId, p.createdAt, p.descriptions)
  }

  /** The copy loses nothing: two rows with the same DTO are the same row. */
  lemma MapToDtoIsLossless(p: LegacyPublication, q: LegacyPublication)
    requires MapToDto(p) == MapToDto(q)
    ensures p == q
  {
  }

  /** The body of `POST /publications`. */
  datatype CreatePublication = CreatePublication(
    meliItemId: string,
    title: string,
    price: real,
    status: string,
    availableQuantity: int,
    soldQuantity: int,
    categoryId: string,
    description: Option<string>)

  /** The row create stores: the given fields, and one description only when the text is
      non-empty. */
  function NewRow(dto: CreatePublication, newId: string, newDescId: string, now: int): (r: LegacyPublication)
    ensures r.id == newId && r.meliItemId == dto.meliItemId && r.createdAt == now
    ensures r.title == dto.title && r.price == dto.price && r.status == dto.status
    ensures r.availableQuantity == dto.availableQuantity && r.soldQuantity == dto.soldQuantity
    ensures r.categoryId == dto.categoryId
    ensures |r.descriptions| == if Truthy(dto.description) then 1 else 0
    ensures Truthy(dto.description) ==> r.descriptions[0].description == dto.description.value
  {
    LegacyPublication(newId, dto.meliItemId, dto.title, dto.price, dto.status, dto.availableQuantity,
                      dto.soldQuantity, dto.categoryId, now,
                      if Truthy(dto.description) then [PublicationModel.PublicationDescription(newDescId, dto.description.value, None, now)] else [])
  }

  /** Its partial form, accepted by update; a `description` is not a column and is lost. */
  datatype PartialPublication = PartialPublication(
    meliItemId: Option<string>,
    title: Option<string>,
    price: Option<real>,
    status: Option<string>,
    availableQuantity: Option<int>,
    soldQuantity: Option<int>,
    categoryId: Option<string>,
    description: Option<string>)

  function OrElse<T>(o: Option<T>, d: T): T { if o.Some? then o.value else d }

  /** `Object.assign(row, dto)`: each given field overwrites the stored one. */
  function Assigned(p: LegacyPublication, u: PartialPublication): (r: LegacyPublication)
    ensures r.id == p.id && r.createdAt == p.createdAt && r.descriptions == p.descriptions
    ensures r.meliItemId == (if u.meliItemId.Some? then u.meliItemId.value else p.meliItemId)
    ensures r.title == (if u.title.Some? then u.title.value else p.title)
    ensures r.price == (if u.price.Some? then u.price.value else p.price)
    ensures r.status == (if u.status.Some? then u.status.value else p.status)
    ensures r.availableQuantity == (if u.availableQuantity.Some? then u.availableQuantity.value else p.availableQuantity)
    ensures r.soldQuantity == (if u.soldQuantity.Some? then u.soldQuantity.value else p.soldQuantity)
    ensures r.categoryId == (if u.categoryId.Some? then u.categoryId.value else p.categoryId)
  {
    p.(meliItemId := OrElse(u.meliItemId, p.meliItemId), title := OrElse(u.title, p.title),
       price := OrElse(u.price, p.price), status := OrElse(u.status, p.status),
       availableQuantity := OrElse(u.availableQuantity, p.availableQuantity),
       soldQuantity := OrElse(u.soldQuantity, p.soldQuantity), categoryId := OrElse(u.categoryId, p.categoryId))
  }

  /** An update that gives no field leaves the row as it is. */
  lemma EmptyUpdateChangesNothing(p: LegacyPublication, u: PartialPublication)
    requires u.meliItemId.None? && u.title.None? && u.price.None? && u.status.None?
    requires u.availableQuantity.None? && u.soldQuantity.None? && u.categoryId.None?
    ensures Assigned(p, u) == p
  {
  }

  /** Assigning the same fields twice is assigning them once. */
  lemma AssignIsIdempotent(p: LegacyPublication, u: PartialPublication)
    ensures Assigned(Assigned(p, u), u) == Assigned(p, u)
  {
  }

  /** Rows are stored under their ids and item ids are unique. The older entity is not
      part of this model; the unique `meli_item_id` column is assumed as in the newer one. */
  ghost predicate ValidRows(rows: map<string, LegacyPublication>)
  {
    && (forall id :: id in rows ==> rows[id].id == id)
    && (forall a, b :: a in rows && b in rows && rows[a].meliItemId == rows[b].meliItemId ==> a == b)
  }

  class LegacyPublicationTable {
    var rows: map<string, LegacyPublication>

    ghost predicate Valid()
      reads this
    {
      ValidRows(rows)
    }

    constructor(initial: map<string, LegacyPublication>)
      requires ValidRows(initial)
      ensures rows == initial && Valid()
    {
      rows := initial;
    }

    /** create: one new row, with one description only when the text is non-empty. A
        clash on the item id is the database's error, passed on as it is. */
    method Create(dto: CreatePublication, newId: string, newDescId: string, now: int) returns (r: Result<LegacyDto>)
      requires Valid() && newId !in rows
      modifies this
      ensures Valid()
      ensures r.Err? <==> exists k :: k in old(rows) && old(rows)[k].meliItemId == dto.meliItemId
      ensures r.Err? ==> r.error == Unhandled && rows == old(rows)
      ensures r.Ok? ==>
        && rows == old(rows)[newId := NewRow(dto, newId, newDescId, now)]
        && r.value == MapToDto(rows[newId])
    {
      if exists k :: k in rows && rows[k].meliItemId == dto.meliItemId {
        return Err(Unhandled);
      }
      var row := LegacyPublication(newId, dto.meliItemId, dto.title, dto.price, dto.status,
                                   dto.availableQuantity, dto.soldQuantity, dto.categoryId, now, []);
      rows := rows[newId := row];
      if Truthy(dto.description) {
        row := row.(descriptions := [PublicationModel.PublicationDescription(newDescId, dto.description.value, None, now)]);
        rows := rows[newId := row];
      }
      r := FindOne(newId);
    }

    /** findOne: the row, or NotFound. */
    method FindOne(id: string) returns (r: Result<LegacyDto>)
      ensures r.Ok? <==> id in rows
      ensures r.Ok? ==> r.value == MapToDto(rows[id])
      ensures r.Err? ==> r.error == NotFound
    {
      if id !in rows {
        return Err(NotFound);
      }
      return Ok(MapToDto(rows[id]));
    }

    /** findByMeliItemId: the row holding the item, or nothing. */
    method FindByMeliItemId(m: string) returns (r: Option<LegacyDto>)
      ensures r.None? <==> forall k :: k in rows ==> rows[k].meliItemId != m
      ensures r.Some? ==> exists k :: k in rows && rows[k].meliItemId == m && r.value == MapToDto(rows[k])
    {
      if !exists k :: k in rows && rows[k].meliItemId == m {
        return None;
      }
      var k :| k in rows && rows[k].meliItemId == m;
      return Some(MapToDto(rows[k]));
    }

    /** findAll: every row, newest first. */
    method FindAll() returns (r: seq<LegacyDto>)
      ensures exists s :: Newest.IsListing(rows, All, CreatedAt, s) && r == ToDtos(rows, s)
      ensures |r| == |rows|
    {
      var s := Newest.CollectNewestFirst(rows, All, CreatedAt);
      ListingCoversTable(rows, s);
      r := ToDtos(rows, s);
    }

    /** update: the given fields overwrite the row's, the others stay; a clash on the
        item id is the database's error. */
    method Update(id: string, u: PartialPublication) returns (r: Result<LegacyDto>)
      requires Valid()
      modifies this
      ensures Valid()
      ensures id !in old(rows) ==> r == Err(NotFound) && rows == old(rows)
      ensures id in old(rows) ==>
        && (r.Err? <==> u.meliItemId.Some? && exists k :: k in old(rows) && k != id && old(rows)[k].meliItemId == u.meliItemId.value)
        && (r.Err? ==> r.error == Unhandled && rows == old(rows))
        && (r.Ok? ==> rows == old(rows)[id := Assigned(old(rows)[id], u)] && r.value == MapToDto(rows[id]))
    {
      if id !in rows {
        return Err(NotFound);
      }
      if u.meliItemId.Some? && exists k :: k in rows && k != id && rows[k].meliItemId == u.meliItemId.value {
        return Err(Unhandled);
      }
      var row := rows[id];
      row := row.(meliItemId := OrElse(u.meliItemId, row.meliItemId), title := OrElse(u.title, row.title));
      row := row.(price := OrElse(u.price, row.price), status := OrElse(u.status, row.status));
      row := row.(availableQuantity := OrElse(u.availableQuantity, row.availableQuantity));
      row := row.(soldQuantity := OrElse(u.soldQuantity, row.soldQuantity), categoryId := OrElse(u.categoryId, row.categoryId));
      rows := rows[id := row];
      r := FindOne(id);
    }

    /** remove: the row is gone and every other row is untouched. */
    method Remove(id: string) returns (r: Result<()>)
      requires Valid()
      modifies this
      ensures Valid()
      ensures r.Ok? <==> id in old(rows)
      ensures r.Err? ==> r.error == NotFound && rows == old(rows)
      ensures r.Ok? ==> rows == old(rows) - {id}
    {
      if id !in rows {
        return Err(NotFound);
      }
      rows := rows - {id};
      return Ok(());
    }
  }

  /** A listing of every row holds each key once, so it is as long as the table. */
  lemma ListingCoversTable(rows: map<string, LegacyPublication>, s: seq<string>)
    requires Newest.IsListing(rows, All, CreatedAt, s)
    ensures |s| == |rows|
  {
    DistinctSize(s);
    assert (set k | k in s) == rows.Keys;
  }

  /** A sequence without repeats has as many elements as its set. */
  lemma {:induction false} DistinctSize<K>(s: seq<K>)
    requires forall i, j :: 0 <= i < j < |s| ==> s[i] != s[j]
    ensures |set k | k in s| == |s|
  {
    if |s| > 0 {
      DistinctSize(s[1..]);
      assert (set k | k in s) == (set k | k in s[1..]) + {s[0]};
      assert s[0] !in s[1..];
    }
  }

  function ToDtos(rows: map<string, LegacyPublication>, ids: seq<string>): (r: seq<LegacyDto>)
    requires forall k :: k in ids ==> k in rows
    ensures |r| == |ids|
    ensures forall i :: 0 <= i < |ids| ==> r[i] == MapToDto(rows[ids[i]])
  {
    seq(|ids|, i requires 0 <= i < |ids| => MapToDto(rows[ids[i]]))
  }
}
