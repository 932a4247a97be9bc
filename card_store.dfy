/** `CardRepository`: the mutable store the service is wired to, holding the
    card table as a map from `cardId` to entity and the id generator's next
    value. Each operation updates the state as its `CardTable` function says. */
module CardStore {
  import opened Wrappers
  import opened CardEntityModel
  import CardTable

  class CardRepository {
    var rows: map<int, CardEntity>
    var nextId: int

    /** The store's current contents as a table value. */
    function Snapshot(): CardTable.Table
      reads this
    {
      CardTable.Table(rows, nextId)
    }

    ghost predicate Valid()
      reads this
    {
      CardTable.WellFormed(Snapshot())
    }

    /** An empty table whose generator starts at 1. */
    constructor ()
      ensures Valid() && rows == map[] && nextId == 1
    {
      rows := map[];
      nextId := 1;
    }

    method FindByMobileNumber(mobileNumber: string) returns (r: Result<Option<CardEntity>, CardTable.DataAccessError>)
      ensures r == CardTable.FindByMobileNumber(rows, mobileNumber)
    {
      r := CardTable.FindByMobileNumber(rows, mobileNumber);
    }

    method Save(entity: CardEntity) returns (saved: CardEntity)
      requires Valid()
      modifies this
      ensures Valid()
      ensures Snapshot() == CardTable.Save(old(Snapshot()), entity).table
      ensures saved == CardTable.Save(old(Snapshot()), entity).entity
    {
      if entity.cardId != 0 && entity.cardId in rows {
        rows := rows[entity.cardId := entity];
        saved := entity;
      } else {
        saved := entity.(cardId := nextId);
        rows := rows[nextId := saved];
        nextId := nextId + 1;
      }
    }

    method DeleteById(id: int)
      requires Valid()
      modifies this
      ensures Valid()
      ensures Snapshot() == CardTable.DeleteById(old(Snapshot()), id)
    {
      rows := rows - {id};
    }
  }
}
