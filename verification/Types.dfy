/** Prices, orders and constants of the matching engine (types.hpp, order.hpp). */
module Types {

  const MIN_TICK: int := -0x8000_0000_0000_0000
  const MAX_TICK: int := 0x7FFF_FFFF_FFFF_FFFF

  /** A price in integer ticks: a 64-bit signed integer. */
  type Tick = t: int | MIN_TICK <= t <= MAX_TICK

  /** The value a cached best price takes when its side is empty. It is itself a Tick. */
  const INVALID_PRICE: Tick := MIN_TICK

  type OrderId = nat

  datatype Side = Bid | Ask {
    function Opposite(): Side {
      if Bid? then Ask else Bid
    }
  }

  datatype Kind = Limit | Market | Iceberg

  datatype Order = Order(
    id: OrderId,
    side: Side,
    kind: Kind,
    price: Tick,
    qty: int,
    filled: int,
    ts: nat,
    display: int,
    hidden: int)
  {
    function Remaining(): int {
      qty - filled
    }

    predicate IsFilled() {
      filled >= qty
    }

    predicate HasHidden() {
      kind.Iceberg? && hidden > 0
    }

    /** What one match cycle may take from this order: everything, or one display slice. */
    function Available(): int {
      if kind.Iceberg? && display > 0 then Min(Remaining(), display) else Remaining()
    }

    /** May this order, as a taker, trade at price p? Market orders accept any price. */
    predicate Accepts(p: Tick) {
      kind.Market? || if side.Bid? then price >= p else price <= p
    }
  }

  function Min(x: int, y: int): int {
    if x < y then x else y
  }

  function Max(x: int, y: int): int {
    if x > y then x else y
  }

  /** A resting order at p on side s has strictly better price priority than one at q. */
  predicate Better(s: Side, p: Tick, q: Tick) {
    if s.Bid? then p > q else p < q
  }

  /** One trade between a resting maker and an incoming taker, at the maker's price. */
  datatype Fill = Fill(maker: OrderId, taker: OrderId, price: Tick, qty: int)

  /** The order in which a hash map hands out its keys: each key exactly once. */
  ghost predicate IsOrder(xs: seq<Tick>, keys: set<Tick>) {
    && (forall i :: 0 <= i < |xs| ==> xs[i] in keys)
    && (forall k :: k in keys ==> k in xs)
    && (forall i, j :: 0 <= i < j < |xs| ==> xs[i] != xs[j])
  }

  /** Hash-map iteration order: h(n, keys) is the order met by the n-th scan of the book.
      It may depend on the whole history, which is why n is an argument. */
  type HashOrder = h: (nat, set<Tick>) -> seq<Tick> | forall n, keys :: IsOrder(h(n, keys), keys)
    ghost witness (n: nat, keys: set<Tick>) => SomeOrder(keys)

  ghost function SomeOrder(keys: set<Tick>): (xs: seq<Tick>)
    ensures IsOrder(xs, keys)
  {
    if keys == {} then [] else
    var k :| k in keys;
    var rest := SomeOrder(keys - {k});
    [k] + rest
  }
}
