/** Order books as the market API reports them, the fingerprints that identify their
    orders (`_detect_new_orders`), and the filter test of a subscription. */
module Orders {
  import opened Wrappers
  import Digits

  datatype SellOrder = SellOrder(price: int, ql: int, count: int, seller: string)

  datatype BuyOrder = BuyOrder(price: int, minQl: int, maxQl: int, count: int, buyer: string)

  datatype Book = Book(sells: seq<SellOrder>, buys: seq<BuyOrder>)

  datatype Side = Sell | Buy

  datatype NewOrder = NewOrder(side: Side, price: int, minQl: int, maxQl: int)

  /** A subscription's filter; None leaves that side open. */
  datatype Filter = Filter(minPrice: Option<int>, maxPrice: Option<int>, minQl: Option<int>, maxQl: Option<int>)

  const OPEN: Filter := Filter(None, None, None, None)

  // ---- fingerprints ----

  function Field(n: int, rest: string): string {
    Digits.Decimal(n) + "|" + rest
  }

  function SellFingerprint(o: SellOrder): string {
    "sell|" + Field(o.price, Field(o.ql, Field(o.count, o.seller)))
  }

  function BuyFingerprint(o: BuyOrder): string {
    "buy|" + Field(o.price, Field(o.minQl, Field(o.maxQl, Field(o.count, o.buyer))))
  }

  lemma FingerprintText(s: SellOrder, b: BuyOrder)
    ensures SellFingerprint(s) ==
      "sell|" + Digits.Decimal(s.price) + "|" + Digits.Decimal(s.ql) + "|" + Digits.Decimal(s.count) + "|" + s.seller
    ensures BuyFingerprint(b) ==
      "buy|" + Digits.Decimal(b.price) + "|" + Digits.Decimal(b.minQl) + "|" + Digits.Decimal(b.maxQl) + "|" +
      Digits.Decimal(b.count) + "|" + b.buyer
  {
    hide Digits.Decimal;
  }

  function OfSell(o: SellOrder): NewOrder {
    NewOrder(Sell, o.price, o.ql, o.ql)
  }

  function OfBuy(o: BuyOrder): NewOrder {
    NewOrder(Buy, o.price, o.minQl, o.maxQl)
  }

  lemma FirstBar(a: string, b: string, x: string, y: string)
    requires a + "|" + x == b + "|" + y && '|' !in a && '|' !in b
    ensures a == b && x == y
  {
    var s, t := a + "|" + x, b + "|" + y;
    assert s[|a|] == '|' && t[|b|] == '|';
    assert forall i | 0 <= i < |a| :: s[i] == a[i];
    assert forall i | 0 <= i < |b| :: t[i] == b[i];
    assert |a| == |b|;
    assert a == s[..|a|] == b;
    assert x == s[|a| + 1..] == y;
  }

  lemma FieldInjective(m: int, n: int, x: string, y: string)
    requires Field(m, x) == Field(n, y)
    ensures m == n && x == y
  {
    FirstBar(Digits.Decimal(m), Digits.Decimal(n), x, y);
    Digits.DecimalInjective(m, n);
  }

  lemma PrefixInjective(p: string, x: string, y: string)
    requires p + x == p + y
    ensures x == y
  {
    assert x == (p + x)[|p|..];
    assert y == (p + y)[|p|..];
  }

  /** Two sell orders get the same string exactly when they agree on every field, even
      where a name contains the separator. */
  lemma SellFingerprintInjective(a: SellOrder, b: SellOrder)
    ensures SellFingerprint(a) == SellFingerprint(b) <==> a == b
  {
    if SellFingerprint(a) == SellFingerprint(b) {
      hide Field;
      var a3, b3 := Field(a.count, a.seller), Field(b.count, b.seller);
      var a2, b2 := Field(a.ql, a3), Field(b.ql, b3);
      PrefixInjective("sell|", Field(a.price, a2), Field(b.price, b2));
      FieldInjective(a.price, b.price, a2, b2);
      FieldInjective(a.ql, b.ql, a3, b3);
      FieldInjective(a.count, b.count, a.seller, b.seller);
    }
  }

  lemma BuyFingerprintInjective(a: BuyOrder, b: BuyOrder)
    ensures BuyFingerprint(a) == BuyFingerprint(b) <==> a == b
  {
    if BuyFingerprint(a) == BuyFingerprint(b) {
      hide Field;
      var a4, b4 := Field(a.count, a.buyer), Field(b.count, b.buyer);
      var a3, b3 := Field(a.maxQl, a4), Field(b.maxQl, b4);
      var a2, b2 := Field(a.minQl, a3), Field(b.minQl, b3);
      PrefixInjective("buy|", Field(a.price, a2), Field(b.price, b2));
      FieldInjective(a.price, b.price, a2, b2);
      FieldInjective(a.minQl, b.minQl, a3, b3);
      FieldInjective(a.maxQl, b.maxQl, a4, b4);
      FieldInjective(a.count, b.count, a.buyer, b.buyer);
    }
  }

  lemma SidesDiffer(a: SellOrder, b: BuyOrder)
    ensures SellFingerprint(a) != BuyFingerprint(b)
  {
    assert SellFingerprint(a)[0] == 's' && BuyFingerprint(b)[0] == 'b';
  }

  /** The fingerprints of a book, as a set: order and duplicates leave no trace. */
  function Fingerprints(book: Book): set<string> {
    (set o | o in book.sells :: SellFingerprint(o)) + (set o | o in book.buys :: BuyFingerprint(o))
  }

  /** m is the `fingerprint_map` of a book: every order under its own fingerprint. */
  ghost predicate IsFingerprintMap(m: map<string, NewOrder>, book: Book) {
    && m.Keys == Fingerprints(book)
    && (forall o | o in book.sells :: SellFingerprint(o) in m && m[SellFingerprint(o)] == OfSell(o))
    && (forall o | o in book.buys :: BuyFingerprint(o) in m && m[BuyFingerprint(o)] == OfBuy(o))
  }

  /** Only one map fits, and it depends on the sets of orders alone. */
  lemma FingerprintMapUnique(m: map<string, NewOrder>, n: map<string, NewOrder>, book: Book, other: Book)
    requires IsFingerprintMap(m, book) && IsFingerprintMap(n, other)
    requires (forall o :: o in book.sells <==> o in other.sells) && (forall o :: o in book.buys <==> o in other.buys)
    ensures m == n
  {
    hide SellFingerprint, BuyFingerprint, OfSell, OfBuy;
    assert Fingerprints(book) == Fingerprints(other);
    forall fp | fp in m
      ensures m[fp] == n[fp]
    {
      if o :| o in book.sells && fp == SellFingerprint(o) {
      } else {
        var o :| o in book.buys && fp == BuyFingerprint(o);
      }
    }
  }

  /** The map as a function of the book, one assignment an order as in the source. */
  function FingerprintMap(book: Book): map<string, NewOrder> {
    AddBuys(AddSells(map[], book.sells), book.buys)
  }

  function AddSells(m: map<string, NewOrder>, sells: seq<SellOrder>): map<string, NewOrder> {
    if sells == [] then m else
      var n := |sells| - 1;
      AddSells(m, sells[..n])[SellFingerprint(sells[n]) := OfSell(sells[n])]
  }

  function AddBuys(m: map<string, NewOrder>, buys: seq<BuyOrder>): map<string, NewOrder> {
    if buys == [] then m else
      var n := |buys| - 1;
      AddBuys(m, buys[..n])[BuyFingerprint(buys[n]) := OfBuy(buys[n])]
  }

  lemma {:induction false} AddSellsHolds(sells: seq<SellOrder>)
    ensures IsFingerprintMap(AddSells(map[], sells), Book(sells, []))
  {
    hide SellFingerprint, BuyFingerprint, OfSell;
    var m := AddSells(map[], sells);
    if sells != [] {
      var front, last := sells[..|sells| - 1], sells[|sells| - 1];
      AddSellsHolds(front);
      forall o | o in sells
        ensures SellFingerprint(o) in m && m[SellFingerprint(o)] == OfSell(o)
      {
        assert o in front || o == last;
        SellFingerprintInjective(o, last);
      }
      assert m.Keys == Fingerprints(Book(sells, [])) by {
        assert forall o :: o in sells <==> o in front || o == last;
      }
    }
  }

  lemma {:induction false} AddBuysHolds(sells: seq<SellOrder>, buys: seq<BuyOrder>)
    ensures IsFingerprintMap(AddBuys(AddSells(map[], sells), buys), Book(sells, buys))
  {
    hide SellFingerprint, BuyFingerprint, OfSell, OfBuy, AddSells;
    var m := AddBuys(AddSells(map[], sells), buys);
    if buys == [] {
      AddSellsHolds(sells);
    } else {
      var front, last := buys[..|buys| - 1], buys[|buys| - 1];
      AddBuysHolds(sells, front);
      forall o | o in buys
        ensures BuyFingerprint(o) in m && m[BuyFingerprint(o)] == OfBuy(o)
      {
        assert o in front || o == last;
        BuyFingerprintInjective(o, last);
      }
      forall o | o in sells
        ensures SellFingerprint(o) in m && m[SellFingerprint(o)] == OfSell(o)
      {
        SidesDiffer(o, last);
      }
      assert m.Keys == Fingerprints(Book(sells, buys)) by {
        assert forall o :: o in buys <==> o in front || o == last;
      }
    }
  }

  lemma FingerprintMapHolds(book: Book)
    ensures IsFingerprintMap(FingerprintMap(book), book)
  {
    AddBuysHolds(book.sells, book.buys);
  }

  /** The two loops of `_detect_new_orders`. */
  method BuildFingerprintMap(book: Book) returns (m: map<string, NewOrder>)
    ensures m == FingerprintMap(book) && IsFingerprintMap(m, book)
    ensures forall o | o in book.sells :: SellFingerprint(o) in m &&
              m[SellFingerprint(o)] == NewOrder(Sell, o.price, o.ql, o.ql)
    ensures forall o | o in book.buys :: BuyFingerprint(o) in m &&
              m[BuyFingerprint(o)] == NewOrder(Buy, o.price, o.minQl, o.maxQl)
  {
    hide SellFingerprint, BuyFingerprint;
    m := map[];
    for i := 0 to |book.sells|
      invariant m == AddSells(map[], book.sells[..i])
    {
      var sell := book.sells[i];
      assert book.sells[..i + 1][..i] == book.sells[..i];
      m := m[SellFingerprint(sell) := NewOrder(Sell, sell.price, sell.ql, sell.ql)];
    }
    assert book.sells[..|book.sells|] == book.sells;
    for i := 0 to |book.buys|
      invariant m == AddBuys(AddSells(map[], book.sells), book.buys[..i])
    {
      var buy := book.buys[i];
      assert book.buys[..i + 1][..i] == book.buys[..i];
      m := m[BuyFingerprint(buy) := NewOrder(Buy, buy.price, buy.minQl, buy.maxQl)];
    }
    assert book.buys[..|book.buys|] == book.buys;
    FingerprintMapHolds(book);
    assert m == FingerprintMap(book);
  }

  // ---- filters ----

  /** `order_matches_filter`, one test after the other. */
  function Matches(o: NewOrder, f: Filter): (r: bool)
    ensures r <==>
      && (f.minPrice.Some? ==> f.minPrice.value <= o.price)
      && (f.maxPrice.Some? ==> o.price <= f.maxPrice.value)
      && (f.minQl.Some? ==> f.minQl.value <= o.minQl)
      && (f.maxQl.Some? ==> o.maxQl <= f.maxQl.value)
  {
    if f.minPrice.Some? && o.price < f.minPrice.value then false
    else if f.maxPrice.Some? && o.price > f.maxPrice.value then false
    else if f.minQl.Some? && o.minQl < f.minQl.value then false
    else if f.maxQl.Some? && o.maxQl > f.maxQl.value then false
    else true
  }

  /** The orders of a batch that a filter lets through. */
  function Matching(orders: map<string, NewOrder>, f: Filter): map<string, NewOrder> {
    map fp | fp in orders && Matches(orders[fp], f) :: orders[fp]
  }

  /** An order comes through exactly when it is in the batch and within every bound set,
      and then unchanged. */
  lemma MatchingExact(orders: map<string, NewOrder>, f: Filter, fp: string)
    ensures fp in Matching(orders, f) <==>
      && fp in orders
      && (f.minPrice.Some? ==> f.minPrice.value <= orders[fp].price)
      && (f.maxPrice.Some? ==> orders[fp].price <= f.maxPrice.value)
      && (f.minQl.Some? ==> f.minQl.value <= orders[fp].minQl)
      && (f.maxQl.Some? ==> orders[fp].maxQl <= f.maxQl.value)
    ensures fp in Matching(orders, f) ==> Matching(orders, f)[fp] == orders[fp]
  {}

  /** Something comes through exactly when some order of the batch does. */
  lemma SomethingMatches(orders: map<string, NewOrder>, f: Filter)
    ensures Matching(orders, f) != map[] <==> exists fp :: fp in orders && Matches(orders[fp], f)
  {
    var matching := Matching(orders, f);
    if fp :| fp in orders && Matches(orders[fp], f) {
      assert fp in matching;
    } else {
      assert matching.Keys == {};
    }
  }
}
