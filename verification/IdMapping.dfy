/**
 The table that maps public ids to entities of a backend, with its two unique keys:
 the public id, and the triple of domain, local id and entity type.
 */
module IdMapping {
  import opened Model

  datatype EntityType = USER | GROUP

  datatype Entity = Entity(domainId: string, localId: string, entityType: EntityType)

  datatype Row = Row(publicId: string, entity: Entity)

  /** The groups of Keystone's SQL backend, by name and domain. */
  type Groups = map<(string, string), string>

  datatype Filter = Filter(
    domainId: Option<string>,
    publicId: Option<string>,
    localId: Option<string>,
    entityType: Option<EntityType>)

  predicate Meets<T(==)>(wanted: Option<T>, value: T) {
    wanted.Some? ==> wanted.value == value
  }

  predicate Matches(row: Row, filter: Filter) {
    && Meets(filter.domainId, row.entity.domainId)
    && Meets(filter.publicId, row.publicId)
    && Meets(filter.localId, row.entity.localId)
    && Meets(filter.entityType, row.entity.entityType)
  }

  // ----- What the table means -----

  /** Both unique constraints: the rows are a partial bijection. */
  ghost predicate Unique(rows: seq<Row>) {
    && (forall i, j :: 0 <= i < j < |rows| ==> rows[i].publicId != rows[j].publicId)
    && (forall i, j :: 0 <= i < j < |rows| ==> rows[i].entity != rows[j].entity)
  }

  /** The public id of an entity, by the mapping rows alone. */
  ghost function PublicId(rows: seq<Row>, entity: Entity): (id: Option<string>)
    ensures id.Some? ==> Row(id.value, entity) in rows
    ensures id.None? ==> forall row :: row in rows ==> row.entity != entity
  {
    if exists row :: row in rows && row.entity == entity then
      var row :| row in rows && row.entity == entity;
      Some(row.publicId)
    else None
  }

  ghost function EntityOf(rows: seq<Row>, publicId: string): (entity: Option<Entity>)
    ensures entity.Some? ==> Row(publicId, entity.value) in rows
    ensures entity.None? ==> forall row :: row in rows ==> row.publicId != publicId
  {
    if exists row :: row in rows && row.publicId == publicId then
      var row :| row in rows && row.publicId == publicId;
      Some(row.entity)
    else None
  }

  /** An SQL group of this name and domain answers for the entity. */
  predicate Shadowed(groups: Groups, entity: Entity) {
    entity.entityType == GROUP && (entity.localId, entity.domainId) in groups
  }

  /** What `get_public_id` answers: a group is looked for among the SQL groups first. */
  ghost function PublicIdWithGroups(groups: Groups, rows: seq<Row>, entity: Entity): Option<string> {
    if Shadowed(groups, entity) then
      Some(groups[(entity.localId, entity.domainId)])
    else
      PublicId(rows, entity)
  }

  /** The two lookups are inverse to each other. */
  lemma LookupsAreInverse(rows: seq<Row>, entity: Entity, publicId: string)
    requires Unique(rows)
    ensures PublicId(rows, entity) == Some(publicId) <==> EntityOf(rows, publicId) == Some(entity)
    ensures PublicId(rows, entity) == Some(publicId) <==> Row(publicId, entity) in rows
  {
  }

  function Filtered(rows: seq<Row>, filter: Filter): (kept: seq<Row>)
    ensures forall row :: row in kept <==> row in rows && !Matches(row, filter)
  {
    if rows == [] then []
    else
      var kept := Filtered(rows[..|rows| - 1], filter);
      var last := rows[|rows| - 1];
      assert rows == rows[..|rows| - 1] + [last];
      if Matches(last, filter) then kept else kept + [last]
  }

  lemma {:induction false} FilteredIsUnique(rows: seq<Row>, filter: Filter)
    requires Unique(rows)
    ensures Unique(Filtered(rows, filter))
  {
    if rows != [] {
      var init, last := rows[..|rows| - 1], rows[|rows| - 1];
      FilteredIsUnique(init, filter);
      var kept := Filtered(init, filter);
      forall i | 0 <= i < |kept|
        ensures kept[i].publicId != last.publicId && kept[i].entity != last.entity
      {
        assert kept[i] in init;
      }
    }
  }

  /** A purge removes exactly the matching rows; every other entity and public id
      keeps its lookup. */
  lemma PurgeIsExact(rows: seq<Row>, filter: Filter, entity: Entity, publicId: string)
    requires Unique(rows)
    ensures PublicId(Filtered(rows, filter), entity)
            == match PublicId(rows, entity)
               case None => None
               case Some(id) => if Matches(Row(id, entity), filter) then None else Some(id)
    ensures EntityOf(Filtered(rows, filter), publicId)
            == match EntityOf(rows, publicId)
               case None => None
               case Some(e) => if Matches(Row(publicId, e), filter) then None else Some(e)
  {
  }

  // The filters that give one field only; a delete is the one by public id.

  function ById(publicId: string): Filter {
    Filter(None, Some(publicId), None, None)
  }

  function ByDomain(domainId: string): Filter {
    Filter(Some(domainId), None, None, None)
  }

  function ByLocalId(localId: string): Filter {
    Filter(None, None, Some(localId), None)
  }

  function ByType(entityType: EntityType): Filter {
    Filter(None, None, None, Some(entityType))
  }

  lemma PurgeByDomain(rows: seq<Row>, entity: Entity, domainId: string)
    requires Unique(rows)
    ensures PublicId(Filtered(rows, ByDomain(domainId)), entity)
            == if entity.domainId == domainId then None else PublicId(rows, entity)
  {
    PurgeIsExact(rows, ByDomain(domainId), entity, "");
  }

  lemma PurgeByLocalId(rows: seq<Row>, entity: Entity, localId: string)
    requires Unique(rows)
    ensures PublicId(Filtered(rows, ByLocalId(localId)), entity)
            == if entity.localId == localId then None else PublicId(rows, entity)
  {
    PurgeIsExact(rows, ByLocalId(localId), entity, "");
  }

  lemma PurgeByType(rows: seq<Row>, entity: Entity, entityType: EntityType)
    requires Unique(rows)
    ensures PublicId(Filtered(rows, ByType(entityType)), entity)
            == if entity.entityType == entityType then None else PublicId(rows, entity)
  {
    PurgeIsExact(rows, ByType(entityType), entity, "");
  }

  lemma PurgeByPublicId(rows: seq<Row>, entity: Entity, publicId: string)
    requires Unique(rows)
    ensures PublicId(Filtered(rows, ById(publicId)), entity)
            == if PublicId(rows, entity) == Some(publicId) then None else PublicId(rows, entity)
  {
    PurgeIsExact(rows, ById(publicId), entity, "");
  }

  /** A purge by one field takes the ids from the entities with that field, or the one
      id, and leaves every other lookup. */
  lemma PurgeByField(rows: seq<Row>, entity: Entity, domainId: string, localId: string, entityType: EntityType,
                     publicId: string)
    requires Unique(rows)
    ensures PublicId(Filtered(rows, ByDomain(domainId)), entity)
            == if entity.domainId == domainId then None else PublicId(rows, entity)
    ensures PublicId(Filtered(rows, ByLocalId(localId)), entity)
            == if entity.localId == localId then None else PublicId(rows, entity)
    ensures PublicId(Filtered(rows, ByType(entityType)), entity)
            == if entity.entityType == entityType then None else PublicId(rows, entity)
    ensures PublicId(Filtered(rows, ById(publicId)), entity)
            == if PublicId(rows, entity) == Some(publicId) then None else PublicId(rows, entity)
  {
    PurgeByDomain(rows, entity, domainId);
    PurgeByLocalId(rows, entity, localId);
    PurgeByType(rows, entity, entityType);
    PurgeByPublicId(rows, entity, publicId);
  }

  ghost predicate Removes(rows: seq<Row>, filter: Filter, row: Row) {
    row in rows && row !in Filtered(rows, filter)
  }

  /** A purge with several fields removes exactly the rows that the purge by each of
      its fields would remove; one without a field removes all. */
  lemma PurgeByFields(rows: seq<Row>, filter: Filter, row: Row)
    requires row in rows
    ensures Removes(rows, filter, row) <==>
              && (filter.domainId.Some? ==> Removes(rows, ByDomain(filter.domainId.value), row))
              && (filter.publicId.Some? ==> Removes(rows, ById(filter.publicId.value), row))
              && (filter.localId.Some? ==> Removes(rows, ByLocalId(filter.localId.value), row))
              && (filter.entityType.Some? ==> Removes(rows, ByType(filter.entityType.value), row))
  {
  }

  /** The table and the answer of `create_id_mapping` for the public id it was given
      or generated. */
  ghost function Created(groups: Groups, rows: seq<Row>, entity: Entity, publicId: string): (seq<Row>, Option<string>) {
    if EntityOf(rows, publicId).None? && PublicId(rows, entity).None? then
      (rows + [Row(publicId, entity)], Some(publicId))
    else (rows, PublicIdWithGroups(groups, rows, entity))
  }

  lemma CreateKeepsUnique(groups: Groups, rows: seq<Row>, entity: Entity, publicId: string)
    requires Unique(rows)
    ensures Unique(Created(groups, rows, entity, publicId).0)
  {
  }

  /** With both keys free a create maps the entity, user or group, to the id in both
      lookups and answers it; with a key taken it changes nothing. Every other entity
      and every other id keep their lookups. */
  lemma CreateMaps(groups: Groups, rows: seq<Row>, entity: Entity, publicId: string, other: Entity, id: string)
    requires Unique(rows)
    ensures var (rows', answer) := Created(groups, rows, entity, publicId);
            && (PublicId(rows, entity).None? && EntityOf(rows, publicId).None? ==>
                  && answer == Some(publicId)
                  && PublicId(rows', entity) == Some(publicId) && EntityOf(rows', publicId) == Some(entity))
            && (PublicId(rows, entity).Some? || EntityOf(rows, publicId).Some? ==>
                  rows' == rows && answer == PublicIdWithGroups(groups, rows, entity))
            && (other != entity ==> PublicId(rows', other) == PublicId(rows, other))
            && (id != publicId ==> EntityOf(rows', id) == EntityOf(rows, id))
  {
  }

  /** Whatever id a create for a user returns, an immediate lookup returns it and a
      second create returns it again without changing the table; no id is returned
      exactly when the public id belongs to another entity and this one has none. */
  lemma CreateAgreesWithLookup(groups: Groups, rows: seq<Row>, entity: Entity, publicId: string, again: string)
    requires Unique(rows) && entity.entityType == USER
    ensures var (rows', answer) := Created(groups, rows, entity, publicId);
            && PublicIdWithGroups(groups, rows', entity) == answer
            && (answer.Some? ==> Created(groups, rows', entity, again) == (rows', answer))
            && (answer.None? <==>
                  PublicId(rows, entity).None? && EntityOf(rows, publicId).Some?
                  && EntityOf(rows, publicId).value != entity)
  {
  }

  /** For a group the lookup after a create agrees with its answer exactly when the
      create did not insert a row beside an SQL group of another id. */
  lemma GroupAgreement(groups: Groups, rows: seq<Row>, entity: Entity, publicId: string)
    requires Unique(rows) && entity.entityType == GROUP
    ensures var (rows', answer) := Created(groups, rows, entity, publicId);
            PublicIdWithGroups(groups, rows', entity) == answer <==>
              (EntityOf(rows, publicId).None? && PublicId(rows, entity).None?
               && Shadowed(groups, entity) ==>
                 groups[(entity.localId, entity.domainId)] == publicId)
  {
  }

  // ----- Runs -----

  datatype Op = Create(entity: Entity, publicId: string) | Delete(publicId: string) | Purge(filter: Filter)

  ghost function Apply(groups: Groups, rows: seq<Row>, op: Op): seq<Row> {
    match op
    case Create(entity, publicId) => Created(groups, rows, entity, publicId).0
    case Delete(publicId) => Filtered(rows, ById(publicId))
    case Purge(filter) => Filtered(rows, filter)
  }

  ghost function Reach(groups: Groups, ops: seq<Op>, k: nat): seq<Row>
    requires k <= |ops|
  {
    if k == 0 then [] else Apply(groups, Reach(groups, ops, k - 1), ops[k - 1])
  }

  /** Every table that creates, deletes and purges can reach is a partial bijection. */
  lemma {:induction false} ReachableIsUnique(groups: Groups, ops: seq<Op>, k: nat)
    requires k <= |ops|
    ensures Unique(Reach(groups, ops, k))
  {
    if k > 0 {
      ReachableIsUnique(groups, ops, k - 1);
      var rows := Reach(groups, ops, k - 1);
      match ops[k - 1]
      case Create(entity, publicId) => CreateKeepsUnique(groups, rows, entity, publicId);
      case Delete(publicId) => FilteredIsUnique(rows, ById(publicId));
      case Purge(filter) => FilteredIsUnique(rows, filter);
    }
  }

  ghost predicate Spares(op: Op, row: Row) {
    (op.Delete? ==> op.publicId != row.publicId) && (op.Purge? ==> !Matches(row, op.filter))
  }

  /** The create grants the mapping: it answers the id, or, where an SQL group answers
      instead, it is given the id while neither key is taken. */
  ghost predicate Grants(groups: Groups, rows: seq<Row>, op: Op, row: Row) {
    && op.Create? && op.entity == row.entity
    && if Shadowed(groups, row.entity) then
         && op.publicId == row.publicId
         && EntityOf(rows, row.publicId).None? && PublicId(rows, row.entity).None?
       else
         Created(groups, rows, op.entity, op.publicId).1 == Some(row.publicId)
  }

  lemma SparedRowStep(groups: Groups, rows: seq<Row>, op: Op, row: Row)
    requires row in rows
    ensures row in Apply(groups, rows, op) <==> Spares(op, row)
  {
  }

  lemma NewRowStep(groups: Groups, rows: seq<Row>, op: Op, row: Row)
    requires Unique(rows)
    ensures row !in rows && row in Apply(groups, rows, op) ==> Grants(groups, rows, op, row)
    ensures Grants(groups, rows, op, row) ==> row in Apply(groups, rows, op)
  {
    LookupsAreInverse(rows, row.entity, row.publicId);
  }

  ghost predicate GrantsAt(groups: Groups, ops: seq<Op>, i: nat, row: Row)
    requires i < |ops|
  {
    Grants(groups, Reach(groups, ops, i), ops[i], row)
  }

  /** Operation i granted the mapping, and no delete or purge since hit it. */
  ghost predicate Granted(groups: Groups, ops: seq<Op>, i: nat, k: nat, row: Row)
    requires k <= |ops|
  {
    i < k && GrantsAt(groups, ops, i, row) && forall m :: i < m < k ==> Spares(ops[m], row)
  }

  lemma {:induction false} RowHasGrant(groups: Groups, ops: seq<Op>, k: nat, row: Row) returns (i: nat)
    requires k <= |ops| && row in Reach(groups, ops, k)
    ensures Granted(groups, ops, i, k, row)
  {
    var before := Reach(groups, ops, k - 1);
    if row in before {
      SparedRowStep(groups, before, ops[k - 1], row);
      i := RowHasGrant(groups, ops, k - 1, row);
      StillGranted(groups, ops, i, k, row);
    } else {
      ReachableIsUnique(groups, ops, k - 1);
      NewRowStep(groups, before, ops[k - 1], row);
      i := k - 1;
    }
  }

  lemma StillGranted(groups: Groups, ops: seq<Op>, i: nat, k: nat, row: Row)
    requires 0 < k <= |ops| && Granted(groups, ops, i, k - 1, row) && Spares(ops[k - 1], row)
    ensures Granted(groups, ops, i, k, row)
  {
  }

  lemma GrantedRowIsThere(groups: Groups, ops: seq<Op>, i: nat, row: Row)
    requires i < |ops| && GrantsAt(groups, ops, i, row)
    ensures row in Reach(groups, ops, i + 1)
  {
    ReachableIsUnique(groups, ops, i);
    NewRowStep(groups, Reach(groups, ops, i), ops[i], row);
  }

  lemma {:induction false} SparedRowStays(groups: Groups, ops: seq<Op>, i: nat, k: nat, row: Row)
    requires i <= k <= |ops| && row in Reach(groups, ops, i)
    requires forall m :: i <= m < k ==> Spares(ops[m], row)
    ensures row in Reach(groups, ops, k)
  {
    if i < k {
      SparedRowStays(groups, ops, i, k - 1, row);
      SparedRowStep(groups, Reach(groups, ops, k - 1), ops[k - 1], row);
    }
  }

  lemma GrantedRowStays(groups: Groups, ops: seq<Op>, i: nat, k: nat, row: Row)
    requires k <= |ops| && Granted(groups, ops, i, k, row)
    ensures row in Reach(groups, ops, k)
  {
    GrantedRowIsThere(groups, ops, i, row);
    SparedRowStays(groups, ops, i + 1, k, row);
  }

  ghost predicate Mapped(groups: Groups, ops: seq<Op>, k: nat, row: Row)
    requires k <= |ops|
  {
    exists i: nat :: Granted(groups, ops, i, k, row)
  }

  lemma RowIffGranted(groups: Groups, ops: seq<Op>, k: nat, row: Row)
    requires k <= |ops|
    ensures row in Reach(groups, ops, k) <==> Mapped(groups, ops, k, row)
  {
    if row in Reach(groups, ops, k) {
      var i := RowHasGrant(groups, ops, k, row);
    }
    if Mapped(groups, ops, k, row) {
      var i: nat :| Granted(groups, ops, i, k, row);
      GrantedRowStays(groups, ops, i, k, row);
    }
  }

  /** After any run of creates, deletes and purges, an entity and a public id are mapped
      to each other, in both lookups, exactly when a create granted the mapping and no
      delete or purge since matched it. */
  lemma MappingIsHistory(groups: Groups, ops: seq<Op>, k: nat, entity: Entity, id: string)
    requires k <= |ops|
    ensures PublicId(Reach(groups, ops, k), entity) == Some(id) <==> Mapped(groups, ops, k, Row(id, entity))
    ensures EntityOf(Reach(groups, ops, k), id) == Some(entity) <==> Mapped(groups, ops, k, Row(id, entity))
  {
    ReachableIsUnique(groups, ops, k);
    LookupsAreInverse(Reach(groups, ops, k), entity, id);
    RowIffGranted(groups, ops, k, Row(id, entity));
  }

  /** So `get_public_id` answers the SQL group where there is one, and otherwise the id
      of the mapping the history left. */
  lemma PublicIdIsHistory(groups: Groups, ops: seq<Op>, k: nat, entity: Entity, id: string)
    requires k <= |ops|
    ensures PublicIdWithGroups(groups, Reach(groups, ops, k), entity) == Some(id) <==>
              if entity.entityType == GROUP && (entity.localId, entity.domainId) in groups then
                groups[(entity.localId, entity.domainId)] == id
              else Mapped(groups, ops, k, Row(id, entity))
  {
    MappingIsHistory(groups, ops, k, entity, id);
  }

  // ----- The driver -----

  class Mapping {
    var rows: seq<Row>
    const groups: Groups

    constructor (groups: Groups)
      ensures Valid() && rows == [] && this.groups == groups
    {
      this.rows, this.groups := [], groups;
    }

    ghost predicate Valid()
      reads this
    {
      Unique(rows)
    }

    /** The query by domain, local id and type. */
    method FindEntity(entity: Entity) returns (id: Option<string>)
      requires Valid()
      ensures id == PublicId(rows, entity)
    {
      for i := 0 to |rows|
        invariant forall j :: 0 <= j < i ==> rows[j].entity != entity
      {
        if rows[i].entity == entity {
          assert rows[i] == Row(rows[i].publicId, entity);
          LookupsAreInverse(rows, entity, rows[i].publicId);
          return Some(rows[i].publicId);
        }
      }
      return None;
    }

    method GetPublicId(entity: Entity) returns (id: Option<string>)
      requires Valid()
      ensures id == PublicIdWithGroups(groups, rows, entity)
    {
      if Shadowed(groups, entity) {
        return Some(groups[(entity.localId, entity.domainId)]);
      }
      id := FindEntity(entity);
    }

    method GetIdMapping(publicId: string) returns (entity: Option<Entity>)
      requires Valid()
      ensures entity == EntityOf(rows, publicId)
    {
      for i := 0 to |rows|
        invariant forall j :: 0 <= j < i ==> rows[j].publicId != publicId
      {
        if rows[i].publicId == publicId {
          assert rows[i] == Row(publicId, rows[i].entity);
          LookupsAreInverse(rows, rows[i].entity, publicId);
          return Some(rows[i].entity);
        }
      }
      return None;
    }

    /** `generated` is what the id generator would answer. */
    method CreateIdMapping(entity: Entity, publicId: Option<string>, generated: string) returns (id: Option<string>)
      requires Valid()
      modifies this
      ensures Valid()
      ensures var given := if publicId.Some? then publicId.value else generated;
              (rows, id) == Created(groups, old(rows), entity, given)
    {
      var given := if publicId.Some? then publicId.value else generated;
      CreateKeepsUnique(groups, rows, entity, given);
      var sameId := GetIdMapping(given);
      var sameEntity := FindEntity(entity);
      if sameId.None? && sameEntity.None? {
        rows := rows + [Row(given, entity)];
        return Some(given);
      }
      id := GetPublicId(entity);
    }

    method DeleteIdMapping(publicId: string)
      requires Valid()
      modifies this
      ensures Valid() && rows == Apply(groups, old(rows), Delete(publicId))
    {
      PurgeMappings(ById(publicId));
    }

    method PurgeMappings(filter: Filter)
      requires Valid()
      modifies this
      ensures Valid() && rows == Apply(groups, old(rows), Purge(filter))
    {
      FilteredIsUnique(rows, filter);
      var kept := [];
      for i := 0 to |rows|
        invariant kept == Filtered(rows[..i], filter)
      {
        assert rows[..i + 1] == rows[..i] + [rows[i]];
        assert rows[..i + 1][..i] == rows[..i];
        if !Matches(rows[i], filter) {
          kept := kept + [rows[i]];
        }
      }
      assert rows[..|rows|] == rows;
      rows := kept;
    }
  }
}
