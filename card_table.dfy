/** The card table behind `CardRepository`, as a value: rows keyed by
    `cardId` and the next identifier the store's generator hands out.
    `FindByMobileNumber`, `Save` and `DeleteById` give the meaning of the
    three repository operations the service calls. */
module CardTable {
  import opened Wrappers
  import opened CardEntityModel

  datatype Table = Table(rows: map<int, CardEntity>, nextId: int)

  /** Every stored row sits under its own positive `cardId`, and the
      generator has not yet handed out any identifier at or above `nextId`. */
  ghost predicate WellFormed(t: Table) {
    t.nextId >= 1
    && forall id :: id in t.rows ==> 1 <= id < t.nextId && t.rows[id].cardId == id
  }

  /** The identifiers of the rows holding mobile number `m`. */
  function Matching(rows: map<int, CardEntity>, m: string): set<int> {
    set id | id in rows && rows[id].mobileNumber == m
  }

  ghost predicate HasCard(rows: map<int, CardEntity>, m: string) {
    exists id :: id in rows && rows[id].mobileNumber == m
  }

  /** At most one row per mobile number. */
  ghost predicate OneCardPerMobile(rows: map<int, CardEntity>) {
    forall i, j :: i in rows && j in rows && rows[i].mobileNumber == rows[j].mobileNumber ==> i == j
  }

  /** A single-result query that matched more than one row. */
  datatype DataAccessError = IncorrectResultSize(expectedSize: nat, actualSize: nat)

  lemma HasElement(s: set<int>)
    requires |s| > 0
    ensures exists x :: x in s
  {
    if forall x :: x !in s {
      assert false;
    }
  }

  lemma SingletonHasElement(s: set<int>)
    requires |s| == 1
    ensures exists x :: s == {x}
  {
    HasElement(s);
    var x :| x in s;
    assert |s - {x}| == 0;
    if exists y :: y in s && y != x {
      assert false;
    }
    assert s == {x};
  }

  /** A derived query returning `Optional`: empty when no row matches, the
      row when exactly one does, and an `IncorrectResultSize` failure when
      several do. */
  function FindByMobileNumber(rows: map<int, CardEntity>, m: string): (r: Result<Option<CardEntity>, DataAccessError>)
    ensures r == Success(None) <==> !HasCard(rows, m)
    ensures r.Success? && r.value.Some? ==>
      exists id :: id in rows && Matching(rows, m) == {id} && r.value.value == rows[id]
    ensures r.Failure? <==> |Matching(rows, m)| > 1
    ensures r.Failure? ==> r.error == IncorrectResultSize(1, |Matching(rows, m)|)
  {
    var ids := Matching(rows, m);
    assert HasCard(rows, m) <==> |ids| > 0 by {
      if HasCard(rows, m) {
        var id :| id in rows && rows[id].mobileNumber == m;
        assert id in ids;
      }
      if |ids| > 0 {
        HasElement(ids);
        var id :| id in ids;
        assert id in rows && rows[id].mobileNumber == m;
      }
    }
    if |ids| == 0 then Success(None)
    else if |ids| == 1 then
      SingletonHasElement(ids);
      var id :| ids == {id};
      assert id in ids;
      Success(Some(rows[id]))
    else Failure(IncorrectResultSize(1, |ids|))
  }

  lemma {:induction false} OneCardPerMobileMatchesAtMostOne(rows: map<int, CardEntity>, m: string)
    requires OneCardPerMobile(rows)
    ensures |Matching(rows, m)| <= 1
  {
    var ids := Matching(rows, m);
    if |ids| > 1 {
      HasElement(ids);
      var i :| i in ids;
      HasElement(ids - {i});
      assert false;
    }
  }

  /** While the table holds at most one row per mobile number, the query
      never fails, and it finds the row stored under its own identifier. */
  lemma FindByMobileNumberUnique(t: Table, m: string)
    requires WellFormed(t) && OneCardPerMobile(t.rows)
    ensures FindByMobileNumber(t.rows, m).Success?
    ensures HasCard(t.rows, m) ==>
      var e := FindByMobileNumber(t.rows, m).value;
      e.Some? && e.value.mobileNumber == m && e.value.cardId in t.rows && t.rows[e.value.cardId] == e.value
  {
    OneCardPerMobileMatchesAtMostOne(t.rows, m);
  }

  /** The result of `save`: the table afterwards and the entity it returns. */
  datatype Saved = Saved(table: Table, entity: CardEntity)

  /** The entity is already stored: `save` merges it into its row. */
  predicate IsStored(t: Table, e: CardEntity) {
    e.cardId != 0 && e.cardId in t.rows
  }

  /** `save`: an entity whose `cardId` is not stored (in particular the
      default 0) is inserted under a freshly generated identifier; a stored
      one replaces its row. The audit listener is not modelled, so the audit
      fields are stored as given. */
  function Save(t: Table, e: CardEntity): (r: Saved)
    ensures r.table.rows.Keys == t.rows.Keys + {r.entity.cardId}
    ensures r.entity.cardId in r.table.rows && r.table.rows[r.entity.cardId] == r.entity
    ensures forall id :: id in t.rows && id != r.entity.cardId ==> r.table.rows[id] == t.rows[id]
    ensures SameBusinessFields(r.entity, e)
    ensures IsStored(t, e) ==> r.entity == e && r.table.nextId == t.nextId
    ensures !IsStored(t, e) ==> r.entity == e.(cardId := t.nextId) && r.table.nextId == t.nextId + 1
    ensures WellFormed(t) && !IsStored(t, e) ==> r.entity.cardId !in t.rows
    ensures WellFormed(t) ==> WellFormed(r.table)
  {
    if IsStored(t, e) then
      Saved(Table(t.rows[e.cardId := e], t.nextId), e)
    else
      var inserted := e.(cardId := t.nextId);
      Saved(Table(t.rows[t.nextId := inserted], t.nextId + 1), inserted)
  }

  /** `deleteById`: removes the row with that identifier; an absent
      identifier is ignored. */
  function DeleteById(t: Table, id: int): (r: Table)
    ensures r.rows.Keys == t.rows.Keys - {id}
    ensures forall k :: k in r.rows ==> r.rows[k] == t.rows[k]
    ensures r.nextId == t.nextId
    ensures WellFormed(t) ==> WellFormed(r)
    ensures OneCardPerMobile(t.rows) ==> OneCardPerMobile(r.rows)
  {
    Table(t.rows - {id}, t.nextId)
  }
}
