/** OrdersService: order creation (pricing, persisting the order, building and bulk-inserting its
    baskets), paginated getAll, and getOne/delete by primary key. getOne and delete THROW when the id
    is absent; create catches every exception and rethrows it wrapped in a plain Error. */
module Orders {

  import opened Outcomes
  import opened Pagination
  import opened Tables
  import opened Pricing

  /** A row of the orders table. */
  datatype Order = Order(id: nat, userId: int, status: string, totalPrice: int)

  /** The `{order, baskets}` payload of create; `order.baskets` is set to the same baskets. */
  datatype Created = Created(order: Order, baskets: seq<BasketLine>)

  /** The `{items, message}` object of getOne and delete. */
  datatype Found = Found(items: Order, message: string)

  /** The `{items, count, message}` object of getAll. */
  datatype OrdersPage = OrdersPage(items: seq<Order>, count: nat, message: string)

  const Active: string := "active"
  const Success: string := "Success"
  const MedicinesNotFound: string := "Dorilar topilmadi"
  const OrderNotFound: string := "Ushbu id li buyurtma topilmadi!"
  const OrderDeleted: string := "Buyurtma muvaffaqqiyatli o'chirildi"

  /** An order row's primary key. */
  function IdOf(o: Order): nat {
    o.id
  }

  class OrdersService {
    /** The orders table, keyed by primary key. */
    var orders: map<nat, Order>
    /** The orders table's auto-increment sequence. */
    var nextOrderId: nat
    /** The basket table, in insertion order. */
    var baskets: seq<BasketLine>

    ghost predicate Valid()
      reads this
    {
      KeyedBy(orders, IdOf) && forall id :: id in orders ==> id < nextOrderId
    }

    constructor ()
      ensures Valid() && orders == map[] && nextOrderId == 0 && baskets == []
    {
      orders := map[];
      nextOrderId := 0;
      baskets := [];
    }

    /** create. `medicines` is what the medicine lookup resolved for the requested ids; None stands
        for a falsy lookup result, the only case in which `!medicines` holds (an empty array is
        truthy). The order is stored with the total computed once; the later re-summation only
        grows a local variable. */
    method Create(dto: seq<OrderLine>, userId: int, medicines: Option<seq<Medicine>>) returns (r: Result<Created>)
      requires Valid()
      modifies this
      ensures Valid()
      ensures medicines.None? ==>
                r == Thrown(Wrapped(Http(BadRequest, MedicinesNotFound))) &&
                orders == old(orders) && nextOrderId == old(nextOrderId) && baskets == old(baskets)
      ensures medicines.Some? ==>
                var id := old(nextOrderId);
                var order := Order(id, userId, Active, JoinTotal(medicines.value, dto));
                var built := JoinBaskets(medicines.value, dto, id);
                r == Ok(Created(order, built)) &&
                id !in old(orders) && orders == old(orders)[id := order] && nextOrderId == id + 1 &&
                baskets == old(baskets) + built
      ensures r.Ok? ==> r.value.order.status == Active
      ensures r.Ok? ==> r.value.order.totalPrice == PriceSum(r.value.baskets)
      ensures r.Ok? ==> forall b :: b in r.value.baskets ==> b.orderId == r.value.order.id
    {
      if medicines.None? {
        // the HttpException is caught by the surrounding catch and rethrown as new Error(e)
        return Thrown(Wrapped(Http(BadRequest, MedicinesNotFound)));
      }
      var meds := medicines.value;
      var totalPrice := GetTotalPrice(meds, dto);

      // ordersRepository.create({userId, status: 'active', totalPrice})
      var order := Order(nextOrderId, userId, Active, totalPrice);
      orders := orders[order.id := order];
      nextOrderId := nextOrderId + 1;

      var basketsArray := GetBasketsArray(meds, dto, order.id);
      // basketRepository.bulkCreate(basketsArray)
      baskets := baskets + basketsArray;
      var created := basketsArray;

      // baskets.forEach(item => totalPrice += item.price): only the local variable changes
      for k := 0 to |created|
        invariant totalPrice == order.totalPrice + PriceSum(created[..k])
      {
        totalPrice := totalPrice + created[k].price;
        assert created[..k + 1][..k] == created[..k];
      }
      assert created[..|created|] == created;
      BasketPricesSumToTotal(meds, dto, order.id);
      // the local ends at twice the stored total; the stored order keeps the single total
      assert totalPrice == 2 * order.totalPrice;

      BasketsAreMatchingPairs(meds, dto, order.id);
      r := Ok(Created(order, created));
    }

    /** getAll: one page of orders, the number of all orders, and the message 'Success'. */
    method GetAll(q: PageQuery) returns (r: Result<OrdersPage>)
      requires Valid()
      ensures r.Thrown? <==> PageOptions(q).limit < 0 || PageOptions(q).offset < 0
      ensures r.Ok? ==> r.value.count == |orders| && r.value.message == Success
      ensures r.Ok? ==> |r.value.items| <= PageOptions(q).limit
      ensures r.Ok? ==> forall k :: 0 <= k < |r.value.items| ==>
                          var o := r.value.items[k]; o.id in orders && orders[o.id] == o
    {
      var page := FindPage(orders, q);
      if page.Thrown? {
        return Thrown(page.failure);
      }
      var o := PageOptions(q);
      ghost var ids :| Lists(ids, orders.Keys) && page.value.items == Window(RowsAt(orders, ids), o.limit, o.offset);
      PageRowsAreStored(orders, IdOf, ids, o.limit, o.offset);
      r := Ok(OrdersPage(page.value.items, page.value.count, Success));
    }

    /** getOne: the stored order, or a thrown not-found error. */
    method GetOne(id: nat) returns (r: Result<Found>)
      ensures r.Ok? <==> id in orders
      ensures r.Ok? ==> r.value == Found(orders[id], Success)
      ensures r.Thrown? ==> r.failure == Http(BadRequest, OrderNotFound)
    {
      if id !in orders {
        return Thrown(Http(BadRequest, OrderNotFound));
      }
      r := Ok(Found(orders[id], Success));
    }

    /** delete: a thrown not-found error for an absent id; otherwise the row is destroyed and
        returned. */
    method Delete(id: nat) returns (r: Result<Found>)
      requires Valid()
      modifies this
      ensures Valid() && nextOrderId == old(nextOrderId) && baskets == old(baskets)
      ensures id !in old(orders) ==> r == Thrown(Http(BadRequest, OrderNotFound)) && orders == old(orders)
      ensures id in old(orders) ==>
                r == Ok(Found(old(orders)[id], OrderDeleted)) && orders == old(orders) - {id}
    {
      if id !in orders {
        return Thrown(Http(BadRequest, OrderNotFound));
      }
      var order := orders[id];
      orders := orders - {id};
      r := Ok(Found(order, OrderDeleted));
    }
  }
}
