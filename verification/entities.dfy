/**
 * The records the inventory service works with: identifiers, timestamps,
 * catalog items fetched from the remote catalog, stored inventory records and
 * the shapes of the two requests' payloads.
 */
module Entities {

  /** A 128-bit globally unique identifier. */
  datatype Guid = Guid(bits: bv128)

  /** `Guid.Empty`, the all-zero identifier a missing query-string value binds to. */
  const EmptyGuid: Guid := Guid(0)

  /** A `DateTimeOffset`, reduced to its UTC tick count. */
  datatype Instant = Instant(utcTicks: int)

  /** An item of the remote catalog: identifier, name and description. */
  datatype CatalogItem = CatalogItem(id: Guid, name: string, description: string)

  /** A stored inventory record: how many units of one catalog item one user owns. */
  datatype InventoryItem = InventoryItem(
    userId: Guid,
    catalogItemId: Guid,
    quantity: int,
    acquiredDate: Instant)

  /** The identity of an inventory record: the (user, catalog item) pair. */
  datatype Key = Key(userId: Guid, catalogItemId: Guid)

  function KeyOf(item: InventoryItem): Key {
    Key(item.userId, item.catalogItemId)
  }

  /** The body of a grant request. */
  datatype GrantItems = GrantItems(userId: Guid, catalogItemId: Guid, quantity: int)

  function GrantKey(grant: GrantItems): Key {
    Key(grant.userId, grant.catalogItemId)
  }

  /**
   * One entry of a query answer: a record joined with its catalog description.
   * The field layout is assumed; the service's own type is not part of this model.
   */
  datatype InventoryItemDto = InventoryItemDto(
    catalogItemId: Guid,
    name: string,
    description: string,
    quantity: int,
    acquiredDate: Instant)

  /** Projects a stored record and the catalog's name and description onto a query entry. */
  function AsDto(item: InventoryItem, name: string, description: string): InventoryItemDto {
    InventoryItemDto(item.catalogItemId, name, description, item.quantity, item.acquiredDate)
  }
}
