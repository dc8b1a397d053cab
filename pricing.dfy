/** Order pricing and basket building (OrdersService.getTotalPrice and getBasketsArray).

    Both routines walk the cross product of the resolved medicines and the requested lines,
    medicine-major, and act on every pair whose ids are equal. The specification functions below
    (JoinTotal, JoinBaskets, MatchingPairs) describe that cross product directly; the two methods are
    the loops of the source, proved equal to them. Prices and counts are integers. */
module Pricing {

  import opened Outcomes

  /** A medicine as the medicine lookup returns it; pricing reads only `id` and `price`. */
  datatype Medicine = Medicine(id: int, price: int)

  /** One requested line of an order (a CreateOrdersDto). */
  datatype OrderLine = OrderLine(medicineId: int, count: int)

  /** A basket record as built for bulk insertion, before the database gives it an id. */
  datatype BasketLine = BasketLine(medicineId: int, count: int, price: int, orderId: int)

  /** The join condition `item.medicineId === medicine.id`. */
  predicate Matches(m: Medicine, line: OrderLine) {
    line.medicineId == m.id
  }

  /** The basket record emitted for one matching (medicine, line) pair. */
  function BasketFor(m: Medicine, line: OrderLine, orderId: int): BasketLine {
    BasketLine(line.medicineId, line.count, m.price * line.count, orderId)
  }

  // ---------------------------------------------------------------------------------------------
  // Reference definitions. Each peels off the LAST element, which is the order the loops grow in.

  /** Sum of `m.price * line.count` over the lines that match `m`. */
  function MedicineTotal(m: Medicine, lines: seq<OrderLine>): int
  {
    if lines == [] then 0
    else
      var line := lines[|lines| - 1];
      MedicineTotal(m, lines[..|lines| - 1]) + (if Matches(m, line) then m.price * line.count else 0)
  }

  /** Sum of `price * count` over every matching (medicine, line) pair. */
  function JoinTotal(meds: seq<Medicine>, lines: seq<OrderLine>): int
  {
    if meds == [] then 0
    else JoinTotal(meds[..|meds| - 1], lines) + MedicineTotal(meds[|meds| - 1], lines)
  }

  /** The baskets for one medicine, one per matching line, in line order. */
  function MedicineBaskets(m: Medicine, lines: seq<OrderLine>, orderId: int): seq<BasketLine>
  {
    if lines == [] then []
    else
      var line := lines[|lines| - 1];
      MedicineBaskets(m, lines[..|lines| - 1], orderId)
        + (if Matches(m, line) then [BasketFor(m, line, orderId)] else [])
  }

  /** All baskets, medicine-major. */
  function JoinBaskets(meds: seq<Medicine>, lines: seq<OrderLine>, orderId: int): seq<BasketLine>
  {
    if meds == [] then []
    else JoinBaskets(meds[..|meds| - 1], lines, orderId) + MedicineBaskets(meds[|meds| - 1], lines, orderId)
  }

  /** Sum of the `price` fields of a list of baskets. */
  function PriceSum(baskets: seq<BasketLine>): int
  {
    if baskets == [] then 0
    else PriceSum(baskets[..|baskets| - 1]) + baskets[|baskets| - 1].price
  }

  /** Indices (i, j) with j < n of the lines that match medicine i, in line order. */
  function LinePairs(meds: seq<Medicine>, lines: seq<OrderLine>, i: nat, n: nat): (r: seq<(nat, nat)>)
    requires i < |meds| && n <= |lines|
    ensures forall t :: 0 <= t < |r| ==> r[t].0 == i && r[t].1 < n
  {
    if n == 0 then []
    else LinePairs(meds, lines, i, n - 1) + (if Matches(meds[i], lines[n - 1]) then [(i, n - 1)] else [])
  }

  /** Indices of the matching pairs among the first k medicines, medicine-major. */
  function PairsUpTo(meds: seq<Medicine>, lines: seq<OrderLine>, k: nat): (r: seq<(nat, nat)>)
    requires k <= |meds|
    ensures forall t :: 0 <= t < |r| ==> r[t].0 < k && r[t].1 < |lines|
  {
    if k == 0 then [] else PairsUpTo(meds, lines, k - 1) + LinePairs(meds, lines, k - 1, |lines|)
  }

  /** The (medicine index, line index) pairs the join acts on, in the order it visits them. */
  function MatchingPairs(meds: seq<Medicine>, lines: seq<OrderLine>): (r: seq<(nat, nat)>)
    ensures forall t :: 0 <= t < |r| ==> r[t].0 < |meds| && r[t].1 < |lines|
  {
    PairsUpTo(meds, lines, |meds|)
  }

  /** Medicine-major (lexicographic) order on index pairs. */
  predicate Before(p: (nat, nat), q: (nat, nat)) {
    p.0 < q.0 || (p.0 == q.0 && p.1 < q.1)
  }

  /** No two resolved medicines share an id (true of a lookup by primary key). */
  predicate DistinctIds(meds: seq<Medicine>) {
    forall i, j :: 0 <= i < j < |meds| ==> meds[i].id != meds[j].id
  }

  /** The price of the first medicine with the given id, if any. */
  function PriceOf(meds: seq<Medicine>, id: int): Option<int>
  {
    if meds == [] then None
    else if meds[0].id == id then Some(meds[0].price)
    else PriceOf(meds[1..], id)
  }

  /** Line-major reference total: each line priced at its medicine's price, unmatched lines at 0. */
  function LineMajorTotal(meds: seq<Medicine>, lines: seq<OrderLine>): int
  {
    if lines == [] then 0
    else
      var line := lines[|lines| - 1];
      LineMajorTotal(meds, lines[..|lines| - 1])
        + (match PriceOf(meds, line.medicineId)
           case Some(p) => p * line.count
           case None => 0)
  }

  // ---------------------------------------------------------------------------------------------
  // The source's loops.

  /** getTotalPrice: nested forEach over medicines then lines, accumulating into totalPrice. */
  method GetTotalPrice(medicines: seq<Medicine>, dto: seq<OrderLine>) returns (totalPrice: int)
    ensures totalPrice == JoinTotal(medicines, dto)
  {
    totalPrice := 0;
    for i := 0 to |medicines|
      invariant totalPrice == JoinTotal(medicines[..i], dto)
    {
      var medicine := medicines[i];
      for j := 0 to |dto|
        invariant totalPrice == JoinTotal(medicines[..i], dto) + MedicineTotal(medicine, dto[..j])
      {
        var item := dto[j];
        if item.medicineId == medicine.id {
          totalPrice := totalPrice + medicine.price * item.count;
        }
        assert dto[..j + 1][..j] == dto[..j];
      }
      assert dto[..|dto|] == dto;
      assert medicines[..i + 1][..i] == medicines[..i];
    }
    assert medicines[..|medicines|] == medicines;
  }

  /** getBasketsArray: the same walk, pushing one record per matching pair. */
  method GetBasketsArray(medicines: seq<Medicine>, dto: seq<OrderLine>, orderId: int)
    returns (basketsArray: seq<BasketLine>)
    ensures basketsArray == JoinBaskets(medicines, dto, orderId)
  {
    basketsArray := [];
    for i := 0 to |medicines|
      invariant basketsArray == JoinBaskets(medicines[..i], dto, orderId)
    {
      var medicine := medicines[i];
      for j := 0 to |dto|
        invariant basketsArray
          == JoinBaskets(medicines[..i], dto, orderId) + MedicineBaskets(medicine, dto[..j], orderId)
      {
        var item := dto[j];
        if item.medicineId == medicine.id {
          var obj := BasketLine(item.medicineId, item.count, medicine.price * item.count, orderId);
          basketsArray := basketsArray + [obj];
        }
        assert dto[..j + 1][..j] == dto[..j];
      }
      assert dto[..|dto|] == dto;
      assert medicines[..i + 1][..i] == medicines[..i];
    }
    assert medicines[..|medicines|] == medicines;
  }

  // ---------------------------------------------------------------------------------------------
  // Basket prices and the total agree.

  lemma {:induction false} PriceSumAppend(a: seq<BasketLine>, b: seq<BasketLine>)
    ensures PriceSum(a + b) == PriceSum(a) + PriceSum(b)
    decreases |b|
  {
    if b != [] {
      assert (a + b)[..|a + b| - 1] == a + b[..|b| - 1];
      PriceSumAppend(a, b[..|b| - 1]);
    } else {
      assert a + b == a;
    }
  }

  lemma {:induction false} MedicineBasketsPriceSum(m: Medicine, lines: seq<OrderLine>, orderId: int)
    ensures PriceSum(MedicineBaskets(m, lines, orderId)) == MedicineTotal(m, lines)
    decreases |lines|
  {
    if lines != [] {
      var line := lines[|lines| - 1];
      MedicineBasketsPriceSum(m, lines[..|lines| - 1], orderId);
      PriceSumAppend(MedicineBaskets(m, lines[..|lines| - 1], orderId),
                     if Matches(m, line) then [BasketFor(m, line, orderId)] else []);
      assert PriceSum([BasketFor(m, line, orderId)]) == m.price * line.count;
    }
  }

  /** The prices of the emitted baskets add up to the computed order total. */
  lemma {:induction false} BasketPricesSumToTotal(meds: seq<Medicine>, lines: seq<OrderLine>, orderId: int)
    ensures PriceSum(JoinBaskets(meds, lines, orderId)) == JoinTotal(meds, lines)
    decreases |meds|
  {
    if meds != [] {
      var init := meds[..|meds| - 1];
      BasketPricesSumToTotal(init, lines, orderId);
      MedicineBasketsPriceSum(meds[|meds| - 1], lines, orderId);
      PriceSumAppend(JoinBaskets(init, lines, orderId), MedicineBaskets(meds[|meds| - 1], lines, orderId));
    }
  }

  // ---------------------------------------------------------------------------------------------
  // How the requested lines contribute.

  lemma {:induction false} MedicineTotalAppend(m: Medicine, a: seq<OrderLine>, b: seq<OrderLine>)
    ensures MedicineTotal(m, a + b) == MedicineTotal(m, a) + MedicineTotal(m, b)
    decreases |b|
  {
    if b != [] {
      assert (a + b)[..|a + b| - 1] == a + b[..|b| - 1];
      MedicineTotalAppend(m, a, b[..|b| - 1]);
    } else {
      assert a + b == a;
    }
  }

  lemma {:induction false} MedicineBasketsAppend(m: Medicine, a: seq<OrderLine>, b: seq<OrderLine>, orderId: int)
    ensures MedicineBaskets(m, a + b, orderId) == MedicineBaskets(m, a, orderId) + MedicineBaskets(m, b, orderId)
    decreases |b|
  {
    if b != [] {
      assert (a + b)[..|a + b| - 1] == a + b[..|b| - 1];
      MedicineBasketsAppend(m, a, b[..|b| - 1], orderId);
    } else {
      assert a + b == a;
    }
  }

  /** The total is additive over the requested lines. */
  lemma {:induction false} JoinTotalAppendLines(meds: seq<Medicine>, a: seq<OrderLine>, b: seq<OrderLine>)
    ensures JoinTotal(meds, a + b) == JoinTotal(meds, a) + JoinTotal(meds, b)
    decreases |meds|
  {
    if meds != [] {
      JoinTotalAppendLines(meds[..|meds| - 1], a, b);
      MedicineTotalAppend(meds[|meds| - 1], a, b);
    }
  }

  /** The number of baskets is additive over the requested lines (the list itself is not: it is medicine-major). */
  lemma {:induction false} BasketCountAppendLines(meds: seq<Medicine>, a: seq<OrderLine>, b: seq<OrderLine>, orderId: int)
    ensures |JoinBaskets(meds, a + b, orderId)| == |JoinBaskets(meds, a, orderId)| + |JoinBaskets(meds, b, orderId)|
    decreases |meds|
  {
    if meds != [] {
      BasketCountAppendLines(meds[..|meds| - 1], a, b, orderId);
      MedicineBasketsAppend(meds[|meds| - 1], a, b, orderId);
    }
  }

  /** For one medicine: a line that does not match it changes neither its total nor its baskets. */
  lemma MedicineSkipsUnmatched(m: Medicine, a: seq<OrderLine>, line: OrderLine, b: seq<OrderLine>, orderId: int)
    requires !Matches(m, line)
    ensures MedicineTotal(m, a + [line] + b) == MedicineTotal(m, a + b)
    ensures MedicineBaskets(m, a + [line] + b, orderId) == MedicineBaskets(m, a + b, orderId)
  {
    assert [line][..0] == [];
    assert MedicineTotal(m, [line]) == 0;
    assert MedicineBaskets(m, [line], orderId) == [];
    MedicineTotalAppend(m, a + [line], b);
    MedicineTotalAppend(m, a, [line]);
    MedicineTotalAppend(m, a, b);
    MedicineBasketsAppend(m, a + [line], b, orderId);
    MedicineBasketsAppend(m, a, [line], orderId);
    MedicineBasketsAppend(m, a, b, orderId);
  }

  /** A line whose medicineId matches no resolved medicine adds nothing and emits no basket,
      wherever it stands among the requested lines. */
  lemma {:induction false} UnmatchedLineIgnored(
    meds: seq<Medicine>, a: seq<OrderLine>, line: OrderLine, b: seq<OrderLine>, orderId: int)
    requires forall i :: 0 <= i < |meds| ==> meds[i].id != line.medicineId
    ensures JoinTotal(meds, a + [line] + b) == JoinTotal(meds, a + b)
    ensures JoinBaskets(meds, a + [line] + b, orderId) == JoinBaskets(meds, a + b, orderId)
    decreases |meds|
  {
    if meds != [] {
      var init, m := meds[..|meds| - 1], meds[|meds| - 1];
      UnmatchedLineIgnored(init, a, line, b, orderId);
      MedicineSkipsUnmatched(m, a, line, b, orderId);
    }
  }

  /** With no matching pair at all, the total is 0 and no basket is built. */
  lemma {:induction false} NoMatchGivesNothing(meds: seq<Medicine>, lines: seq<OrderLine>, orderId: int)
    requires forall i, j :: 0 <= i < |meds| && 0 <= j < |lines| ==> lines[j].medicineId != meds[i].id
    ensures JoinTotal(meds, lines) == 0
    ensures JoinBaskets(meds, lines, orderId) == []
    decreases |meds| + |lines|
  {
    if lines != [] && meds != [] {
      var init := lines[..|lines| - 1];
      var line := lines[|lines| - 1];
      NoMatchGivesNothing(meds, init, orderId);
      assert init + [line] + [] == lines;
      UnmatchedLineIgnored(meds, init, line, [], orderId);
      assert init + [] == init;
    } else if meds == [] {
    } else {
      NoMatchGivesNothing(meds[..|meds| - 1], lines, orderId);
    }
  }

  /** A join over a single medicine is that medicine's own total and baskets. */
  lemma SingleMedicineJoin(m: Medicine, lines: seq<OrderLine>, orderId: int)
    ensures JoinTotal([m], lines) == MedicineTotal(m, lines)
    ensures JoinBaskets([m], lines, orderId) == MedicineBaskets(m, lines, orderId)
  {
    assert [m][..0] == [];
  }

  /** No medicine of the list has this id. */
  predicate NoMedicineHas(ms: seq<Medicine>, id: int) {
    forall i :: 0 <= i < |ms| ==> ms[i].id != id
  }

  /** With distinct ids, no medicine before or after medicine k has its id. */
  lemma OthersDoNotMatch(meds: seq<Medicine>, k: nat)
    requires DistinctIds(meds) && k < |meds|
    ensures NoMedicineHas(meds[..k], meds[k].id) && NoMedicineHas(meds[k + 1..], meds[k].id)
  {
    var before, after := meds[..k], meds[k + 1..];
    forall i | 0 <= i < |before|
      ensures before[i].id != meds[k].id
    {
      assert before[i] == meds[i];
    }
    forall i | 0 <= i < |after|
      ensures after[i].id != meds[k].id
    {
      assert after[i] == meds[k + 1 + i];
    }
  }

  lemma OnlyMiddleMatches(before: seq<Medicine>, m: Medicine, after: seq<Medicine>, line: OrderLine, orderId: int)
    requires NoMedicineHas(before, line.medicineId) && NoMedicineHas(after, line.medicineId)
    requires m.id == line.medicineId
    ensures JoinTotal(before + [m] + after, [line]) == m.price * line.count
    ensures JoinBaskets(before + [m] + after, [line], orderId) == [BasketFor(m, line, orderId)]
  {
    NoMatchGivesNothing(before, [line], orderId);
    NoMatchGivesNothing(after, [line], orderId);
    assert [line][..0] == [];
    SingleMedicineJoin(m, [line], orderId);
    JoinAppendMedicines(before, [m], [line], orderId);
    JoinAppendMedicines(before + [m], after, [line], orderId);
  }

  /** One line, with distinct medicine ids: priced at its own medicine's price, exactly one basket. */
  lemma SingleLineJoin(meds: seq<Medicine>, k: nat, line: OrderLine, orderId: int)
    requires DistinctIds(meds)
    requires k < |meds| && meds[k].id == line.medicineId
    ensures JoinTotal(meds, [line]) == meds[k].price * line.count
    ensures JoinBaskets(meds, [line], orderId) == [BasketFor(meds[k], line, orderId)]
  {
    OthersDoNotMatch(meds, k);
    OnlyMiddleMatches(meds[..k], meds[k], meds[k + 1..], line, orderId);
    assert meds[..k] + [meds[k]] + meds[k + 1..] == meds;
  }

  /** Both joins are additive over the medicines, in medicine order. */
  lemma {:induction false} JoinAppendMedicines(m1: seq<Medicine>, m2: seq<Medicine>, lines: seq<OrderLine>, orderId: int)
    ensures JoinTotal(m1 + m2, lines) == JoinTotal(m1, lines) + JoinTotal(m2, lines)
    ensures JoinBaskets(m1 + m2, lines, orderId) == JoinBaskets(m1, lines, orderId) + JoinBaskets(m2, lines, orderId)
    decreases |m2|
  {
    if m2 != [] {
      assert (m1 + m2)[..|m1 + m2| - 1] == m1 + m2[..|m2| - 1];
      JoinAppendMedicines(m1, m2[..|m2| - 1], lines, orderId);
    } else {
      assert m1 + m2 == m1;
    }
  }

  /** Duplicate lines are not merged: a line given twice is priced, and emitted, twice. */
  lemma {:induction false} DuplicateLinesCountTwice(meds: seq<Medicine>, a: seq<OrderLine>, line: OrderLine, orderId: int)
    ensures JoinTotal(meds, a + [line, line]) == JoinTotal(meds, a) + 2 * JoinTotal(meds, [line])
    ensures |JoinBaskets(meds, a + [line, line], orderId)|
         == |JoinBaskets(meds, a, orderId)| + 2 * |JoinBaskets(meds, [line], orderId)|
  {
    assert [line, line] == [line] + [line];
    JoinTotalAppendLines(meds, a, [line, line]);
    JoinTotalAppendLines(meds, [line], [line]);
    BasketCountAppendLines(meds, a, [line, line], orderId);
    BasketCountAppendLines(meds, [line], [line], orderId);
  }

  lemma {:induction false} PriceOfFinds(meds: seq<Medicine>, k: nat)
    requires DistinctIds(meds) && k < |meds|
    ensures PriceOf(meds, meds[k].id) == Some(meds[k].price)
  {
    if k > 0 {
      assert meds[0].id != meds[k].id;
      assert DistinctIds(meds[1..]) by {
        forall i, j | 0 <= i < j < |meds[1..]| ensures meds[1..][i].id != meds[1..][j].id {
          assert meds[1..][i] == meds[i + 1] && meds[1..][j] == meds[j + 1];
        }
      }
      PriceOfFinds(meds[1..], k - 1);
    }
  }

  lemma {:induction false} PriceOfMisses(meds: seq<Medicine>, id: int)
    requires forall i :: 0 <= i < |meds| ==> meds[i].id != id
    ensures PriceOf(meds, id) == None
  {
    if meds != [] {
      assert forall i :: 0 <= i < |meds[1..]| ==> meds[1..][i] == meds[i + 1];
      PriceOfMisses(meds[1..], id);
    }
  }

  /** Swapping the loops: with distinct medicine ids, the medicine-major join total equals pricing
      each requested line at its medicine's price (and unmatched lines at 0). */
  lemma {:induction false} JoinTotalIsLineMajor(meds: seq<Medicine>, lines: seq<OrderLine>)
    requires DistinctIds(meds)
    ensures JoinTotal(meds, lines) == LineMajorTotal(meds, lines)
    decreases |lines|
  {
    if lines != [] {
      var init, line := lines[..|lines| - 1], lines[|lines| - 1];
      JoinTotalIsLineMajor(meds, init);
      assert init + [line] == lines;
      JoinTotalAppendLines(meds, init, [line]);
      assert LineMajorTotal(meds, lines) == LineMajorTotal(meds, init) + LineMajorTotal(meds, [line]) by {
        assert [line][..0] == [];
      }
      if k :| 0 <= k < |meds| && meds[k].id == line.medicineId {
        SingleLineJoin(meds, k, line, 0);
        PriceOfFinds(meds, k);
        assert LineMajorTotal(meds, [line]) == meds[k].price * line.count by {
          assert [line][..0] == [];
        }
      } else {
        PriceOfMisses(meds, line.medicineId);
        var none: seq<OrderLine> := [];
        assert none + [line] + none == [line] && none + none == none;
        UnmatchedLineIgnored(meds, none, line, none, 0);
        NoMatchGivesNothing(meds, none, 0);
        assert LineMajorTotal(meds, [line]) == 0 by {
          assert [line][..0] == [];
        }
      }
    } else {
      NoMatchGivesNothing(meds, lines, 0);
    }
  }

  // ---------------------------------------------------------------------------------------------
  // One basket per matching pair, in medicine-major order.

  lemma {:induction false} LinePairsSound(meds: seq<Medicine>, lines: seq<OrderLine>, i: nat, n: nat)
    requires i < |meds| && n <= |lines|
    ensures forall t :: 0 <= t < |LinePairs(meds, lines, i, n)| ==>
              Matches(meds[LinePairs(meds, lines, i, n)[t].0], lines[LinePairs(meds, lines, i, n)[t].1])
    decreases n
  {
    if n > 0 {
      LinePairsSound(meds, lines, i, n - 1);
    }
  }

  lemma {:induction false} LinePairsComplete(meds: seq<Medicine>, lines: seq<OrderLine>, i: nat, n: nat)
    requires i < |meds| && n <= |lines|
    ensures forall j :: 0 <= j < n && Matches(meds[i], lines[j]) ==> (i, j) in LinePairs(meds, lines, i, n)
    decreases n
  {
    if n > 0 {
      LinePairsComplete(meds, lines, i, n - 1);
    }
  }

  lemma {:induction false} LinePairsOrdered(meds: seq<Medicine>, lines: seq<OrderLine>, i: nat, n: nat)
    requires i < |meds| && n <= |lines|
    ensures forall a, b :: 0 <= a < b < |LinePairs(meds, lines, i, n)| ==>
              LinePairs(meds, lines, i, n)[a].1 < LinePairs(meds, lines, i, n)[b].1
    decreases n
  {
    if n > 0 {
      LinePairsOrdered(meds, lines, i, n - 1);
      var front := LinePairs(meds, lines, i, n - 1);
      var back: seq<(nat, nat)> := if Matches(meds[i], lines[n - 1]) then [(i, n - 1)] else [];
      forall a, b | 0 <= a < b < |front + back|
        ensures (front + back)[a].1 < (front + back)[b].1
      {
        if b < |front| {
          assert (front + back)[a] == front[a] && (front + back)[b] == front[b];
        } else {
          assert (front + back)[a] == front[a] && (front + back)[b] == (i, n - 1);
          assert front[a] in front;
        }
      }
    }
  }

  lemma {:induction false} PairsUpToSound(meds: seq<Medicine>, lines: seq<OrderLine>, k: nat)
    requires k <= |meds|
    ensures forall t :: 0 <= t < |PairsUpTo(meds, lines, k)| ==>
              Matches(meds[PairsUpTo(meds, lines, k)[t].0], lines[PairsUpTo(meds, lines, k)[t].1])
    decreases k
  {
    if k > 0 {
      PairsUpToSound(meds, lines, k - 1);
      LinePairsSound(meds, lines, k - 1, |lines|);
      var front, back := PairsUpTo(meds, lines, k - 1), LinePairs(meds, lines, k - 1, |lines|);
      var all: seq<(nat, nat)> := front + back;
      assert PairsUpTo(meds, lines, k) == all;
      forall t | 0 <= t < |all|
        ensures Matches(meds[all[t].0], lines[all[t].1])
      {
        if t < |front| {
          assert all[t] == front[t];
        } else {
          assert all[t] == back[t - |front|];
        }
      }
    }
  }

  lemma {:induction false} PairsUpToComplete(meds: seq<Medicine>, lines: seq<OrderLine>, k: nat)
    requires k <= |meds|
    ensures forall i, j :: 0 <= i < k && 0 <= j < |lines| && Matches(meds[i], lines[j]) ==>
              (i, j) in PairsUpTo(meds, lines, k)
    decreases k
  {
    if k > 0 {
      PairsUpToComplete(meds, lines, k - 1);
      LinePairsComplete(meds, lines, k - 1, |lines|);
      var front, back := PairsUpTo(meds, lines, k - 1), LinePairs(meds, lines, k - 1, |lines|);
      forall i, j | 0 <= i < k && 0 <= j < |lines| && Matches(meds[i], lines[j])
        ensures (i, j) in front + back
      {
        if i < k - 1 {
          assert (i, j) in front;
        } else {
          assert (i, j) in back;
        }
      }
    }
  }

  lemma {:induction false} PairsUpToOrdered(meds: seq<Medicine>, lines: seq<OrderLine>, k: nat)
    requires k <= |meds|
    ensures forall a, b :: 0 <= a < b < |PairsUpTo(meds, lines, k)| ==>
              Before(PairsUpTo(meds, lines, k)[a], PairsUpTo(meds, lines, k)[b])
    decreases k
  {
    if k > 0 {
      PairsUpToOrdered(meds, lines, k - 1);
      LinePairsOrdered(meds, lines, k - 1, |lines|);
      var front, back := PairsUpTo(meds, lines, k - 1), LinePairs(meds, lines, k - 1, |lines|);
      forall a, b | 0 <= a < b < |front + back|
        ensures Before((front + back)[a], (front + back)[b])
      {
        if b < |front| {
          assert (front + back)[a] == front[a] && (front + back)[b] == front[b];
        } else if a < |front| {
          assert (front + back)[a] == front[a] && (front + back)[b] == back[b - |front|];
          assert front[a] in front && back[b - |front|] in back;
        } else {
          assert (front + back)[a] == back[a - |front|] && (front + back)[b] == back[b - |front|];
          assert back[a - |front|].1 < back[b - |front|].1;
        }
      }
    }
  }

  /** MatchingPairs holds exactly the matching (medicine, line) index pairs, each once, ordered
      medicine-major and, within one medicine, by line. */
  lemma MatchingPairsExact(meds: seq<Medicine>, lines: seq<OrderLine>)
    ensures forall i, j :: 0 <= i < |meds| && 0 <= j < |lines| ==>
              ((i, j) in MatchingPairs(meds, lines) <==> Matches(meds[i], lines[j]))
    ensures forall a, b :: 0 <= a < b < |MatchingPairs(meds, lines)| ==>
              Before(MatchingPairs(meds, lines)[a], MatchingPairs(meds, lines)[b])
  {
    PairsUpToSound(meds, lines, |meds|);
    PairsUpToComplete(meds, lines, |meds|);
    PairsUpToOrdered(meds, lines, |meds|);
  }

  lemma {:induction false} MedicineBasketsFollowPairs(meds: seq<Medicine>, lines: seq<OrderLine>, i: nat, n: nat, orderId: int)
    requires i < |meds| && n <= |lines|
    ensures |MedicineBaskets(meds[i], lines[..n], orderId)| == |LinePairs(meds, lines, i, n)|
    ensures forall t :: 0 <= t < |LinePairs(meds, lines, i, n)| ==>
              MedicineBaskets(meds[i], lines[..n], orderId)[t]
                == BasketFor(meds[LinePairs(meds, lines, i, n)[t].0], lines[LinePairs(meds, lines, i, n)[t].1], orderId)
    decreases n
  {
    if n > 0 {
      assert lines[..n][..n - 1] == lines[..n - 1];
      MedicineBasketsFollowPairs(meds, lines, i, n - 1, orderId);
    }
  }

  lemma {:induction false} JoinBasketsFollowPairs(meds: seq<Medicine>, lines: seq<OrderLine>, k: nat, orderId: int)
    requires k <= |meds|
    ensures |JoinBaskets(meds[..k], lines, orderId)| == |PairsUpTo(meds, lines, k)|
    ensures forall t :: 0 <= t < |PairsUpTo(meds, lines, k)| ==>
              JoinBaskets(meds[..k], lines, orderId)[t]
                == BasketFor(meds[PairsUpTo(meds, lines, k)[t].0], lines[PairsUpTo(meds, lines, k)[t].1], orderId)
    decreases k
  {
    if k > 0 {
      assert meds[..k][..k - 1] == meds[..k - 1];
      JoinBasketsFollowPairs(meds, lines, k - 1, orderId);
      MedicineBasketsFollowPairs(meds, lines, k - 1, |lines|, orderId);
      assert lines[..|lines|] == lines;
    }
  }

  /** getBasketsArray emits exactly one basket per matching pair, in MatchingPairs order, carrying the
      line's medicineId and count, the price medicine.price * line.count and the given order id. */
  lemma BasketsAreMatchingPairs(meds: seq<Medicine>, lines: seq<OrderLine>, orderId: int)
    ensures |JoinBaskets(meds, lines, orderId)| == |MatchingPairs(meds, lines)|
    ensures forall t :: 0 <= t < |MatchingPairs(meds, lines)| ==>
              var p := MatchingPairs(meds, lines)[t];
              JoinBaskets(meds, lines, orderId)[t] == BasketLine(lines[p.1].medicineId, lines[p.1].count,
                                                                 meds[p.0].price * lines[p.1].count, orderId)
  {
    JoinBasketsFollowPairs(meds, lines, |meds|, orderId);
    assert meds[..|meds|] == meds;
  }

  // ---------------------------------------------------------------------------------------------
  // Sign and a worked example.

  lemma {:induction false} MedicineTotalNonNegative(m: Medicine, lines: seq<OrderLine>)
    requires m.price >= 0
    requires forall j :: 0 <= j < |lines| ==> lines[j].count >= 0
    ensures MedicineTotal(m, lines) >= 0
    decreases |lines|
  {
    if lines != [] {
      var line := lines[|lines| - 1];
      assert line.count >= 0;
      MedicineTotalNonNegative(m, lines[..|lines| - 1]);
    }
  }

  /** Nothing in the join produces a negative total when prices and counts are non-negative; the
      source does not itself reject a negative count. */
  lemma {:induction false} TotalNonNegative(meds: seq<Medicine>, lines: seq<OrderLine>)
    requires forall i :: 0 <= i < |meds| ==> meds[i].price >= 0
    requires forall j :: 0 <= j < |lines| ==> lines[j].count >= 0
    ensures JoinTotal(meds, lines) >= 0
    decreases |meds|
  {
    if meds != [] {
      TotalNonNegative(meds[..|meds| - 1], lines);
      MedicineTotalNonNegative(meds[|meds| - 1], lines);
    }
  }

  /** Two units of medicine 5 at price 100: total 200, one basket of price 200. */
  lemma TwoUnitsOfOneMedicine(orderId: int)
    ensures JoinTotal([Medicine(5, 100)], [OrderLine(5, 2)]) == 200
    ensures JoinBaskets([Medicine(5, 100)], [OrderLine(5, 2)], orderId) == [BasketLine(5, 2, 200, orderId)]
  {
    SingleLineJoin([Medicine(5, 100)], 0, OrderLine(5, 2), orderId);
  }
}
