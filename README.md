# Pharmacy server services — order pricing, baskets, pagination and category table

A Dafny model of the two NestJS/Sequelize services of the pharmacy backend:

- **OrdersService** (`src/orders/orders.service.ts`). `getTotalPrice` and `getBasketsArray` are nested
  loops over the resolved medicines and the requested order lines. They price, and emit a basket for,
  every (medicine, line) pair with equal ids, medicine-major. `create` wires them together. The
  service also has a paginated `getAll` and `getOne`/`delete` by primary key.
- **CategoriesService** (`src/categories/categories.service.ts`). It has `create` with a name
  uniqueness check, paginated `getAll` with a row count, `getOne`, `edit` and `delete`.

Layout, one module per file:

| file | module | what it holds |
|---|---|---|
| `outcomes.dfy` | `Outcomes` | `Option`; `Failure`; `Result` (thrown errors); `Reply` (returned error objects) |
| `pricing.dfy` | `Pricing` | the two join loops as methods; their reference definitions over the cross product; the lemmas |
| `pagination.dfy` | `Pagination` | the limit/offset rule that both `getAll`s compute |
| `tables.dfy` | `Tables` | a table as `map<nat, Row>`; listing its rows in an unspecified order; LIMIT/OFFSET windows |
| `categories.dfy` | `Categories` | `CategoriesService` as a class over its table |
| `orders.dfy` | `Orders` | `OrdersService` as a class over the orders table and the basket table |

How failures are modelled, as the code does it:

- `CategoriesService` *returns* `new HttpException(...)` as the resolved value. This is `Reply.ErrorValue`.
- `OrdersService.getOne` and `OrdersService.delete` *throw*. This is `Result.Thrown(Http(...))`.
- `OrdersService.create` catches everything and rethrows `new Error(e)`. This is `Result.Thrown(Wrapped(...))`.
- Status 400 (`HttpStatus.BAD_REQUEST`) and the services' messages are kept as constants.

Where the code's behaviour differs from what its messages and structure suggest, the model follows the code:

- The message "Dorilar topilmadi" (medicines not found) suggests that finding no medicines fails order creation. The code only tests
  `!medicines`, and an empty array is truthy in JavaScript. So the model fails only when the lookup
  result is falsy (`None`). An empty list goes on and stores an order with total 0 and no baskets.
- The re-summation after `bulkCreate` looks as if it doubles `totalPrice`. In the code, that loop
  only adds to a local variable that is never read again. The order was already stored with the
  single total. `Orders.OrdersService.Create` proves the stored and returned total equals the sum of
  the basket prices. Its body shows that the local ends at twice that total.
- Category `edit` rejects a missing id, but category `delete` has no existence check: it returns 0.

## Model

| member | source | states |
|---|---|---|
| `Pricing.GetTotalPrice` | src/orders/orders.service.ts:139-151 | the nested loop returns exactly the sum of `price * count` over all matching (medicine, line) pairs (`JoinTotal`) |
| `Pricing.GetBasketsArray` | src/orders/orders.service.ts:153-173 | the nested loop returns exactly the medicine-major list of basket records for the matching pairs (`JoinBaskets`) |
| `Pricing.BasketPricesSumToTotal` | src/orders/orders.service.ts:139-173 | the `price` fields of the built baskets add up to the computed order total |
| `Pricing.BasketsAreMatchingPairs` | src/orders/orders.service.ts:157-171 | there is one basket per matching index pair, in pair order; each carries the line's `medicineId` and `count`, the price `medicine.price * line.count`, and the order id |
| `Pricing.MatchingPairsExact` | src/orders/orders.service.ts:157-159 | a (medicine, line) index pair is visited exactly when the ids are equal; pairs are strictly ordered medicine-major, then by line, so each appears once |
| `Pricing.UnmatchedLineIgnored` | src/orders/orders.service.ts:139-173 | a line whose `medicineId` matches no medicine, wherever it stands, leaves both the total and the basket list unchanged |
| `Pricing.NoMatchGivesNothing` | src/orders/orders.service.ts:139-173 | with no matching pair at all, the total is 0 and no basket is built |
| `Pricing.DuplicateLinesCountTwice` | src/orders/orders.service.ts:139-173 | a line given twice adds its total twice and its baskets twice; nothing is deduplicated |
| `Pricing.JoinTotalAppendLines` | src/orders/orders.service.ts:142-148 | the total is additive over the requested lines |
| `Pricing.BasketCountAppendLines` | src/orders/orders.service.ts:157-171 | the number of baskets is additive over the requested lines |
| `Pricing.SingleLineJoin` | src/orders/orders.service.ts:139-173 | when medicine ids are distinct, a single matched line is priced at its own medicine's price times its count and yields exactly one basket |
| `Pricing.JoinTotalIsLineMajor` | src/orders/orders.service.ts:139-151 | when medicine ids are distinct, the medicine-major total equals the line-major total: each line priced at its medicine's price, unmatched lines at 0 |
| `Pricing.TotalNonNegative` | src/orders/orders.service.ts:139-151 | with non-negative prices and counts, the total is non-negative |
| `Pricing.TwoUnitsOfOneMedicine` | src/orders/orders.service.ts:139-173 | two units of medicine 5 at price 100 give total 200 and one basket priced 200 |
| `Pagination.PageOptions` | src/orders/orders.service.ts:68-80 | a falsy `rowsPerPage` (absent or 0) gives limit 10 and offset 0; otherwise the limit is `rowsPerPage` |
| `Pagination.OffsetSkipsEarlierPages` | src/categories/categories.service.ts:25-37 | for page p >= 1 the offset is the number of rows on pages 1..p-1, and page p+1 starts right after page p ends |
| `Pagination.PageZeroIsPageOne` | src/orders/orders.service.ts:72 | page 0 gives offset 0, the same options as page 1 |
| `Pagination.NoPageSizeIgnoresPage` | src/categories/categories.service.ts:33-37 | without a page size, every page number gives limit 10 and offset 0 |
| `Pagination.NegativePageNegativeOffset` | src/categories/categories.service.ts:29 | a negative page with a positive page size gives a negative offset |
| `Tables.RowOnItsPage` | src/categories/categories.service.ts:25-39 | with page size n > 0, row r of the listing appears on page r/n + 1 at position r mod n |
| `Tables.ListingLength` | src/categories/categories.service.ts:40-44 | a listing of all rows has as many entries as the table has rows, so `count` is the number of rows |
| `Tables.FindPage` | src/categories/categories.service.ts:39-45 | it fails exactly when the limit or offset is negative; otherwise `count` is the number of rows, whatever the page, and `items` is the LIMIT/OFFSET window of some listing of all rows |
| `Categories.RenameKeepsNamesUnique` | src/categories/categories.service.ts:58-73 | renaming a row keeps names unique exactly when no other row already has the new name |
| `Tables.PageRowsAreStored` | src/categories/categories.service.ts:39-45 | in a table whose rows are stored under their own keys, a page holds at most `limit` rows, each a stored row, with no row twice |
| `Categories.CategoriesService.Create` | src/categories/categories.service.ts:13-21 | a taken name returns an error value and leaves the table unchanged; otherwise exactly one row with that name is added under a fresh id, and existing rows are untouched; unique names stay unique |
| `Categories.CategoriesService.GetAll` | src/categories/categories.service.ts:23-47 | an error is thrown exactly for a negative limit or offset; otherwise `count` is the number of rows, and `items` is the LIMIT/OFFSET window at `PageOptions(q)` of some listing of all rows, so they are distinct stored rows, at most `limit` of them |
| `Categories.CategoriesService.GetOne` | src/categories/categories.service.ts:49-56 | the stored row if the id is present, else a returned (not thrown) not-found error |
| `Categories.CategoriesService.Edit` | src/categories/categories.service.ts:58-74 | an absent id returns an error value and changes nothing; a present id changes only that row's name |
| `Categories.CategoriesService.Delete` | src/categories/categories.service.ts:76-79 | with no existence check, the id's row is removed if present; the result is the number of rows removed, 1 or 0 |
| `Orders.OrdersService.Create` | src/orders/orders.service.ts:21-65 | a falsy lookup throws a wrapped 400 and changes nothing; otherwise one order is stored under a fresh id with status 'active' and total `JoinTotal`, and the `JoinBaskets` records for that id are appended to the basket table and returned; the order's total equals the sum of its basket prices |
| `Orders.OrdersService.GetAll` | src/orders/orders.service.ts:67-90 | `count` is the number of orders and the message is 'Success'; `items` are stored orders, at most `limit` of them; an error is thrown exactly for a negative limit or offset |
| `Orders.OrdersService.GetOne` | src/orders/orders.service.ts:92-103 | the stored order with 'Success' if present, else a thrown 400 not-found error |
| `Orders.OrdersService.Delete` | src/orders/orders.service.ts:123-137 | an absent id throws a 400 and changes nothing; otherwise only that order is removed and it is returned with the deletion message |

## Left out

- Dependency injection, decorators, async/await, `console.log` and the `getResponse` envelope of
  `create` (`src/utils/response-util` is not part of this model). `Orders.OrdersService.Create`
  returns the `{order, baskets}` payload itself.
- The medicine lookup (`MedicinesService.getByQuery` and its `Op.and` filter) is not part of this
  model. Its result is an input: `None` for a falsy result, `Some(list)` otherwise.
- Sequelize internals are not modelled: `include: {all: true}`, `subQuery`, `returning: true`, and
  the `$set('baskets', ...)` association. Database-assigned basket ids and any cascade from deleting
  an order to its baskets are not modelled either. The basket table is a sequence that `bulkCreate` appends to.
- Persistence failures other than a negative LIMIT/OFFSET are not modelled. The model treats a
  negative LIMIT/OFFSET as rejected by the database (PostgreSQL refuses them).
- `OrdersService.update` is not modelled. Its result comes from spreading a Sequelize model instance,
  whose fields are defined by the library.
- Query parsing: `page` and `rowsPerPage` are taken as parsed integers. So a `rowsPerPage` of `"0"`,
  which is a truthy string in JavaScript, is read as 0. An absent `page` (NaN offset) is not modelled.
- JavaScript number semantics: prices and counts are unbounded integers, not floating point.
  Decimal columns read back as strings, which would concatenate in `totalPrice += item.price`, are
  not modelled.
- The check-then-insert race in category `create` is not modelled; each operation runs alone.
- A possible unique constraint on the category name column: the model declares none (it sits in
  `categories.model`, not part of this model). `edit` therefore may give two rows the same name.
- The order of rows returned by `findAll` without ORDER BY is left open. `Tables.FindPage` admits
  every order of the table's keys.
- Orders.OrdersService.GetAll: its contract only bounds the page (at most `limit` items, each a
  stored order) and does not say which window it is. The query uses `include: {all: true}` with
  `subQuery: false` (src/orders/orders.service.ts:73, 82), so LIMIT and OFFSET cut the rows of the
  order-by-basket join, not the orders. Which orders appear then depends on how many baskets each
  has and on how the ORM groups the rows. The body takes an order-level window, which is a
  simplification of that.
