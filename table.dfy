/** The employee table: an in-memory stand-in for the key-value store the handler writes to and reads from. */
module Table {
  import opened Wrappers
  import opened JsonValues
  import opened Employees

  /** A table keyed by the value of each record's Emp_Id field. */
  class EmployeeTable {
    var items: Store

    /** Every record is stored under its own Emp_Id and has exactly the required fields. */
    ghost predicate Valid()
      reads this
    {
      WellFormedStore(items)
    }

    constructor ()
      ensures items == map[] && Valid()
    {
      items := map[];
    }

    /** put_item: an unconditional upsert keyed by the record's Emp_Id. */
    method PutItem(item: Item)
      requires "Emp_Id" in item
      modifies this
      ensures items == old(items)[item["Emp_Id"] := item]
    {
      items := items[item["Emp_Id"] := item];
    }

    /** get_item: a point lookup that finds the stored record or nothing. */
    method GetItem(key: Json) returns (found: Option<Item>)
      ensures found.Some? <==> key in items
      ensures found.Some? ==> found.value == items[key]
    {
      if key in items {
        found := Some(items[key]);
      } else {
        found := None;
      }
    }
  }
}
