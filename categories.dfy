/** CategoriesService: create with a name-uniqueness check, paginated getAll, getOne, edit and delete
    over the categories table. Failures are RETURNED as HttpException values (the promise resolves
    with them), never thrown. */
module Categories {

  import opened Outcomes
  import opened Pagination
  import opened Tables

  datatype Category = Category(id: nat, name: string)

  const CategoryExists: string := "Bunaqa nomli kategoriya allaqachon bor"
  const CategoryNotFound: string := "Kategoriya topilmadi"

  /** Some row of the table carries this name: `findOne({where: {name}})` finds a row. */
  predicate HasName(rows: map<nat, Category>, name: string) {
    exists id :: id in rows && rows[id].name == name
  }

  /** No two rows of the table share a name. */
  predicate NamesUnique(rows: map<nat, Category>) {
    forall a, b :: a in rows && b in rows && rows[a].name == rows[b].name ==> a == b
  }

  /** A category row's primary key. */
  function IdOf(c: Category): nat {
    c.id
  }

  /** Renaming one row of a table with unique names keeps the names unique exactly when no other
      row already has the new name. */
  lemma RenameKeepsNamesUnique(rows: map<nat, Category>, id: nat, name: string)
    requires id in rows && NamesUnique(rows)
    ensures NamesUnique(rows[id := Category(id, name)])
        <==> forall other :: other in rows && other != id ==> rows[other].name != name
  {
    var after := rows[id := Category(id, name)];
    if other :| other in rows && other != id && rows[other].name == name {
      assert after[other].name == after[id].name;
    } else {
      forall a, b | a in after && b in after && after[a].name == after[b].name
        ensures a == b
      {
        if a != id && b != id {
          assert rows[a].name == rows[b].name;
        }
      }
    }
  }

  class CategoriesService {
    /** The categories table, keyed by primary key. */
    var rows: map<nat, Category>
    /** The table's auto-increment sequence: the id the next inserted row receives. */
    var nextId: nat

    ghost predicate Valid()
      reads this
    {
      KeyedBy(rows, IdOf) && forall id :: id in rows ==> id < nextId
    }

    constructor ()
      ensures Valid() && rows == map[] && nextId == 0
    {
      rows := map[];
      nextId := 0;
    }

    /** create: reject a name that is already taken, otherwise insert one new row. */
    method Create(name: string) returns (r: Reply<Category>)
      requires Valid()
      modifies this
      ensures Valid()
      ensures HasName(old(rows), name) ==>
                r == ErrorValue(Http(BadRequest, CategoryExists)) && rows == old(rows) && nextId == old(nextId)
      ensures !HasName(old(rows), name) ==>
                var c := Category(old(nextId), name);
                r == Value(c) && c.id !in old(rows) && rows == old(rows)[c.id := c] && nextId == old(nextId) + 1
      ensures NamesUnique(old(rows)) ==> NamesUnique(rows)
    {
      var isExist := exists id :: id in rows && rows[id].name == name;
      if isExist {
        return ErrorValue(Http(BadRequest, CategoryExists));
      }
      var category := Category(nextId, name);
      rows := rows[category.id := category];
      nextId := nextId + 1;
      r := Value(category);
    }

    /** getAll: one page of rows and the number of all rows. */
    method GetAll(q: PageQuery) returns (r: Result<Page<Category>>)
      requires Valid()
      ensures r.Thrown? <==> PageOptions(q).limit < 0 || PageOptions(q).offset < 0
      ensures r.Ok? ==> r.value.count == |rows|
      ensures r.Ok? ==> |r.value.items| <= PageOptions(q).limit
      ensures r.Ok? ==> forall k :: 0 <= k < |r.value.items| ==>
                          var c := r.value.items[k]; c.id in rows && rows[c.id] == c
      ensures r.Ok? ==> forall a, b :: 0 <= a < b < |r.value.items| ==> r.value.items[a].id != r.value.items[b].id
      ensures r.Ok? ==> var o := PageOptions(q);
                o.limit >= 0 && o.offset >= 0 &&
                exists ids :: Lists(ids, rows.Keys) && r.value.items == Window(RowsAt(rows, ids), o.limit, o.offset)
    {
      r := FindPage(rows, q);
      if r.Ok? {
        var o := PageOptions(q);
        ghost var ids :| Lists(ids, rows.Keys) && r.value.items == Window(RowsAt(rows, ids), o.limit, o.offset);
        PageRowsAreStored(rows, IdOf, ids, o.limit, o.offset);
        assert Lists(ids, rows.Keys) && r.value.items == Window(RowsAt(rows, ids), o.limit, o.offset);
      }
    }

    /** getOne: the stored row, or a returned not-found error. */
    method GetOne(id: nat) returns (r: Reply<Category>)
      ensures r.Value? <==> id in rows
      ensures r.Value? ==> r.value == rows[id]
      ensures r.ErrorValue? ==> r.error == Http(BadRequest, CategoryNotFound)
    {
      if id !in rows {
        return ErrorValue(Http(BadRequest, CategoryNotFound));
      }
      r := Value(rows[id]);
    }

    /** edit: rename an existing row; an absent id is a returned error and changes nothing. The new
        name is not checked against the other rows. */
    method Edit(id: nat, name: string) returns (r: Reply<Category>)
      requires Valid()
      modifies this
      ensures Valid() && nextId == old(nextId)
      ensures id !in old(rows) ==> r == ErrorValue(Http(BadRequest, CategoryNotFound)) && rows == old(rows)
      ensures id in old(rows) ==>
                r == Value(Category(id, name)) && rows == old(rows)[id := Category(id, name)]
      ensures id in old(rows) && NamesUnique(old(rows)) ==>
                (NamesUnique(rows) <==> forall other :: other in old(rows) && other != id ==> old(rows)[other].name != name)
    {
      if id !in rows {
        return ErrorValue(Http(BadRequest, CategoryNotFound));
      }
      var newCategory := Category(id, name);
      if NamesUnique(rows) {
        RenameKeepsNamesUnique(rows, id, name);
      }
      rows := rows[id := newCategory];
      r := Value(newCategory);
    }

    /** delete: destroy by primary key with no existence check; returns the number of rows removed. */
    method Delete(id: nat) returns (deleted: nat)
      requires Valid()
      modifies this
      ensures Valid() && nextId == old(nextId)
      ensures rows == old(rows) - {id}
      ensures deleted == |old(rows)| - |rows|
      ensures deleted == if id in old(rows) then 1 else 0
    {
      deleted := if id in rows then 1 else 0;
      rows := rows - {id};
    }
  }
}
