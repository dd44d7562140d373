/** order_book.cpp over the heap: pool slots, level objects, the id map and the cached best prices,
    kept in step with the book they stand for. */
module OrderBooks {
  import opened Types
  import opened Queues
  import opened LimitOrderBook
  import opened ObjectPool
  import opened PriceLevels
  import opened BookRep
  import opened BookSteps
  import opened Depth

  ghost function RepsOf(levels: map<Tick, PriceLevel>): map<Tick, LevelRep>
    reads levels.Values
  {
    map p | p in levels :: levels[p].Rep()
  }

  /** Every level object is the one made for its side and price, so none is shared. */
  ghost predicate Apart(bids: map<Tick, PriceLevel>, asks: map<Tick, PriceLevel>) {
    && (forall p :: p in bids ==> bids[p].side == Bid && bids[p].price == p)
    && (forall p :: p in asks ==> asks[p].side == Ask && asks[p].price == p)
  }

  const BLANK: Node := Node(NO_ORDER, NULL, NULL)

  class OrderBook {
    const pool: Pool<Node>
    const hash: HashOrder
    var bids: map<Tick, PriceLevel>
    var asks: map<Tick, PriceLevel>
    var index: map<OrderId, int>
    var bestBid: Tick
    var bestAsk: Tick
    var scans: nat

    function LevelsOn(s: Side): map<Tick, PriceLevel>
      reads this
    {
      if s.Bid? then bids else asks
    }

    function BestOn(s: Side): Tick
      reads this
    {
      if s.Bid? then bestBid else bestAsk
    }

    ghost function Repr(): set<object>
      reads this
    {
      {this, pool, pool.storage} + bids.Values + asks.Values
    }

    ghost function Mem(): Memory
      reads this, pool, pool.storage
    {
      pool.storage[..]
    }

    ghost function Contents(): Raw
      reads this, pool, pool.storage, bids.Values, asks.Values
    {
      Raw(pool.storage[..], RepsOf(bids), RepsOf(asks), index, bestBid, bestAsk, scans)
    }

    ghost predicate Valid()
      reads this, pool, pool.storage, bids.Values, asks.Values
    {
      && pool.Valid()
      && pool.blank == BLANK
      && pool.inUse == |index|
      && Apart(bids, asks)
      && RawOK(Contents())
    }

    ghost function Model(): Book
      reads this, pool, pool.storage, bids.Values, asks.Values
    {
      ModelOf(Contents())
    }

    constructor (capacity: nat, hash: HashOrder)
      requires capacity > 0
      ensures Valid() && fresh(Repr()) && this.hash == hash
      ensures Model() == EmptyBook(capacity)
    {
      var p := new Pool<Node>(capacity, BLANK);
      pool := p;
      this.hash := hash;
      bids, asks, index := map[], map[], map[];
      bestBid, bestAsk, scans := INVALID_PRICE, INVALID_PRICE, 0;
      new;
      assert forall k :: !LiveAt(pool.storage[..], k);
      assert Apart(bids, asks) && |index| == 0 && RepsOf(bids) == map[] && RepsOf(asks) == map[];
      assert bids.Values == {} && asks.Values == {};
      assert Repr() == {this, pool, pool.storage};
      NothingStored(Contents());
      hide RawOK, ModelOf, FreeList, Apart, RepsOf;
    }

    /** The id map and the slots agree with the book: the slot of an id holds that id's order. */
    lemma Lookup(id: OrderId)
      requires Valid() && (id in index || id in Model().orders)
      ensures id in index && id in Model().orders && Model().orders[id].id == id
      ensures Holds(Mem(), index[id], Model().orders[id])
    {
      ModelSize(Contents());
      IndexEntry(Contents(), id);
    }

    /** Distinct ids have distinct slots. */
    lemma LookupDistinct(id: OrderId, id': OrderId)
      requires Valid() && id in index && id' in index && id != id'
      ensures index[id] != index[id']
    {
      IndexEntry(Contents(), id);
      IndexEntry(Contents(), id');
    }

    // -------------------------------------------------------------- cached best prices

    /** Finds the highest bid by visiting every level, in whatever order the map hands them out. */
    method UpdateBestBid()
      requires forall p :: p in bids ==> !bids[p].Empty()
      modifies this`bestBid, this`scans
      ensures bestBid == Scan(Bid, hash(old(scans), bids.Keys)) && scans == old(scans) + 1
    {
      var keys := hash(scans, bids.Keys);
      assert IsOrder(keys, bids.Keys);
      scans := scans + 1;
      bestBid := INVALID_PRICE;
      for i := 0 to |keys|
        invariant bestBid == Scan(Bid, keys[..i]) && scans == old(scans) + 1
      {
        assert keys[i] in bids.Keys && keys[..i + 1][..i] == keys[..i];
        if !bids[keys[i]].Empty() && (bestBid == INVALID_PRICE || keys[i] > bestBid) {
          bestBid := keys[i];
        }
      }
      assert keys[..|keys|] == keys;
    }

    /** Finds the lowest ask the same way. */
    method UpdateBestAsk()
      requires forall p :: p in asks ==> !asks[p].Empty()
      modifies this`bestAsk, this`scans
      ensures bestAsk == Scan(Ask, hash(old(scans), asks.Keys)) && scans == old(scans) + 1
    {
      var keys := hash(scans, asks.Keys);
      assert IsOrder(keys, asks.Keys);
      scans := scans + 1;
      bestAsk := INVALID_PRICE;
      for i := 0 to |keys|
        invariant bestAsk == Scan(Ask, keys[..i]) && scans == old(scans) + 1
      {
        assert keys[i] in asks.Keys && keys[..i + 1][..i] == keys[..i];
        if !asks[keys[i]].Empty() && (bestAsk == INVALID_PRICE || keys[i] < bestAsk) {
          bestAsk := keys[i];
        }
      }
      assert keys[..|keys|] == keys;
    }

    // -------------------------------------------------------------- adding

    /** Takes a free slot and writes the order into it, counting only the shown quantity for now. */
    method TakeSlot(o: Order, shown: int) returns (p: int)
      requires pool.Valid() && o.filled == 0
      modifies pool, pool.storage
      ensures pool.Valid()
      ensures p == NULL <==> old(pool.inUse) == pool.storage.Length
      ensures p == NULL ==> Contents() == old(Contents()) && pool.inUse == old(pool.inUse)
      ensures p != NULL ==>
        && 0 <= p < pool.storage.Length && !LiveAt(old(Mem()), p)
        && Contents() == old(Contents()).(mem := old(Mem())[p := Live(Node(o.(qty := shown), NULL, NULL))])
        && pool.inUse == old(pool.inUse) + 1
    {
      p := pool.Allocate();
      if p != NULL {
        ghost var head, free := pool.head, pool.free;
        StillFreeList(pool.storage[..], head, free, p, Node(o.(qty := shown), NULL, NULL));
        pool.storage[p] := Live(Node(o.(qty := shown), NULL, NULL));
        assert pool.storage[..] == old(pool.storage[..])[p := pool.storage[p]];
      }
    }

    /** Makes sure there is a level at (s, at), empty if it is new. */
    method EnsureLevel(s: Side, at: Tick)
      requires Apart(bids, asks)
      modifies this`bids, this`asks
      ensures Apart(bids, asks) && at in LevelsOn(s)
      ensures fresh(Repr() - old(Repr()))
      ensures at in old(LevelsOn(s)) ==> LevelsOn(s) == old(LevelsOn(s)) && Contents() == old(Contents())
      ensures at !in old(LevelsOn(s)) ==> fresh(LevelsOn(s)[at])
      ensures at !in old(LevelsOn(s)) ==>
        Contents() == old(Contents()).WithSide(s, old(Contents()).On(s)[at := NO_LEVEL])
    {
      if at !in LevelsOn(s) {
        var lvl := new PriceLevel(s, at);
        AddLevel(s, at, lvl);
      }
    }

    method AddLevel(s: Side, at: Tick, lvl: PriceLevel)
      requires Apart(bids, asks) && lvl.Rep() == NO_LEVEL && lvl.side == s && lvl.price == at
      modifies this`bids, this`asks
      ensures Apart(bids, asks) && LevelsOn(s) == old(LevelsOn(s))[at := lvl] && Repr() <= old(Repr()) + {lvl}
      ensures Contents() == old(Contents()).WithSide(s, old(Contents()).On(s)[at := NO_LEVEL])
    {
      if s.Bid? {
        bids := bids[at := lvl];
        assert RepsOf(bids) == old(RepsOf(bids))[at := NO_LEVEL];
        assert RepsOf(asks) == old(RepsOf(asks));
      } else {
        asks := asks[at := lvl];
        assert RepsOf(asks) == old(RepsOf(asks))[at := NO_LEVEL];
        assert RepsOf(bids) == old(RepsOf(bids));
      }
    }

    /** Appends slot p, holding o, to the existing level at (s, at). */
    method PushAt(s: Side, at: Tick, p: int, ghost o: Order)
      requires Apart(bids, asks) && at in LevelsOn(s)
      requires RepValid(Mem(), LevelsOn(s)[at].Rep()) && p !in LevelsOn(s)[at].nodes
      requires LiveAt(Mem(), p) && Mem()[p].obj == Node(o, NULL, NULL) && pool.Valid()
      modifies LevelsOn(s)[at], pool.storage
      ensures pool.Valid()
      ensures var rep := LevelsOn(s)[at].Rep();
        && RepValid(Mem(), rep) && Relinked(old(Mem()), Mem(), rep.nodes)
        && rep.nodes == old(LevelsOn(s)[at].nodes) + [p]
        && rep.total == old(LevelsOn(s)[at].total) + o.Remaining()
        && Contents() == old(Contents()).(mem := Mem()).WithSide(s, old(Contents()).On(s)[at := rep])
    {
      hide RepValid, Relinked, FreeList;
      var lvl := LevelsOn(s)[at];
      lvl.PushBack(pool.storage, p);
      RelinkedFreeList(old(Mem()), Mem(), lvl.nodes, pool.head, pool.free);
      if s.Bid? {
        assert RepsOf(bids) == old(RepsOf(bids))[at := lvl.Rep()];
        assert RepsOf(asks) == old(RepsOf(asks));
      } else {
        assert RepsOf(asks) == old(RepsOf(asks))[at := lvl.Rep()];
        assert RepsOf(bids) == old(RepsOf(bids));
      }
    }

    /** Appends slot p, holding o, to the level at (s, at), creating that level if there is none. */
    method Append(s: Side, at: Tick, p: int, ghost o: Order) returns (ghost rep: LevelRep)
      requires Apart(bids, asks) && pool.Valid()
      requires RepValid(Mem(), RepOrNew(Contents(), s, at)) && p !in RepOrNew(Contents(), s, at).nodes
      requires LiveAt(Mem(), p) && Mem()[p].obj == Node(o, NULL, NULL)
      modifies this`bids, this`asks, LevelsOn(s).Values, pool.storage
      ensures Apart(bids, asks) && pool.Valid() && fresh(Repr() - old(Repr()))
      ensures var r, r0 := old(Contents()), old(RepOrNew(Contents(), s, at));
        && RepValid(Mem(), rep) && Relinked(r.mem, Mem(), rep.nodes)
        && rep.nodes == r0.nodes + [p] && rep.total == r0.total + o.Remaining()
        && Contents() == r.(mem := Mem()).WithSide(s, r.On(s)[at := rep])
    {
      hide Apart, FreeList, RepValid, Relinked, LiveAt;
      EnsureLevel(s, at);
      assert Contents().On(s)[at] == LevelsOn(s)[at].Rep();
      PushAt(s, at, p, o);
      rep := LevelsOn(s)[at].Rep();
      PutTwice(old(Contents()).On(s), at, NO_LEVEL, rep);
    }

    /** Rewrites the order in slot p, leaving its links. */
    method WriteOrder(p: int, o: Order)
      requires LiveAt(Mem(), p) && pool.Valid()
      modifies pool.storage
      ensures pool.Valid()
      ensures var r := old(Contents()); Contents() == r.(mem := r.mem[p := Live(r.mem[p].obj.(o := o))])
    {
      RewrittenFreeList(Mem(), pool.head, pool.free, p, Mem()[p].obj.(o := o));
      hide FreeList;
      pool.storage[p] := Live(pool.storage[p].obj.(o := o));
      assert Mem() == old(Mem())[p := Live(old(Mem())[p].obj.(o := o))];
    }

    /** Price at has appeared on side s. */
    method RaiseBest(s: Side, at: Tick)
      modifies this`bestBid, this`bestAsk
      ensures Contents() == old(Contents()).WithBest(s, Improve(s, old(Contents()).Best(s), at))
    {
      if s.Bid? {
        if bestBid == INVALID_PRICE || at > bestBid {
          bestBid := at;
        }
      } else {
        if bestAsk == INVALID_PRICE || at < bestAsk {
          bestAsk := at;
        }
      }
    }

    /** Completes the order in slot p, enters it in the id map and improves the cached best. */
    method Register(p: int, o: Order)
      requires LiveAt(Mem(), p) && pool.Valid()
      modifies this`index, this`bestBid, this`bestAsk, pool.storage
      ensures pool.Valid()
      ensures Contents() == Registered(old(Contents()), p, o)
    {
      hide FreeList, Improve;
      WriteOrder(p, o);
      Name(p, o.id);
      RaiseBest(o.side, o.price);
    }

    method Name(p: int, id: OrderId)
      modifies this`index
      ensures Contents() == old(Contents()).(index := old(index)[id := p])
    {
      index := index[id := p];
    }

    /** The list half of putting slot p in its place. */
    method LinkList(p: int, o: Order, ghost shown: int, ghost r: Raw) returns (ghost rep: LevelRep)
      requires RawOK(r) && 0 <= p < |r.mem| && !LiveAt(r.mem, p) && o.filled == 0
      requires Apart(bids, asks) && pool.Valid()
      requires Contents() == r.(mem := r.mem[p := Live(Node(o.(qty := shown), NULL, NULL))])
      modifies this`bids, this`asks, LevelsOn(o.side).Values, pool.storage
      ensures Apart(bids, asks) && pool.Valid() && fresh(Repr() - old(Repr()))
      ensures ToRegister(r, Contents(), p, o, rep, shown)
    {
      ghost var mem1 := Mem();
      NewSlotKeepsLevel(r, mem1, o.side, o.price, p);
      hide RawOK, Apart, FreeList, RepValid, Relinked, Linked;
      rep := Append(o.side, o.price, p, o.(qty := shown));
      LinkEnlists(r, mem1, Mem(), p, o, shown, rep);
    }

    /** Puts slot p, already holding o with only the shown part of its quantity, in its place: at the
        back of its level, with its whole quantity, in the id map, and in the cached best price. */
    method Link(p: int, o: Order, ghost shown: int, ghost r: Raw) returns (ghost rep: LevelRep)
      requires RawOK(r) && 0 <= p < |r.mem| && !LiveAt(r.mem, p) && o.filled == 0
      requires Apart(bids, asks) && pool.Valid()
      requires Contents() == r.(mem := r.mem[p := Live(Node(o.(qty := shown), NULL, NULL))])
      modifies Repr()
      ensures Apart(bids, asks) && pool.Valid() && pool.inUse == old(pool.inUse)
      ensures fresh(Repr() - old(Repr()))
      ensures Enlisted(r, Contents(), p, o, rep, shown)
    {
      hide RawOK, Apart, FreeList, Enlisted, Registered;
      rep := LinkList(p, o, shown, r);
      hide LiveAt;
      Register(p, o);
    }

    method EnlistAt(p: int, o: Order, ghost shown: int, ghost r: Raw)
      requires RawOK(r) && 0 <= p < |r.mem| && !LiveAt(r.mem, p) && o.filled == 0 && o.id !in r.index
      requires Apart(bids, asks) && pool.Valid() && pool.inUse == |r.index| + 1 && pool.blank == BLANK
      requires Contents() == r.(mem := r.mem[p := Live(Node(o.(qty := shown), NULL, NULL))])
      modifies Repr()
      ensures Valid() && fresh(Repr() - old(Repr()))
      ensures Holds(Mem(), p, o) && index == r.index[o.id := p] && Model() == Insert(ModelOf(r), o, shown)
    {
      hide RawOK, Apart, FreeList, Insert, ModelOf, LiveAt;
      ghost var rep := Link(p, o, shown, r);
      EnlistedModel(r, Contents(), p, o, rep, shown);
      EnlistedIs(r, Contents(), p, o, rep, shown);
    }

    /** Refuses a known id or a full pool; otherwise inserts the order. */
    method Enlist(o: Order, shown: int) returns (p: int)
      requires Valid() && o.filled == 0
      modifies Repr()
      ensures Valid() && fresh(Repr() - old(Repr()))
      ensures p != NULL <==> Admits(old(Model()), o.id)
      ensures p == NULL ==> Model() == old(Model())
      ensures p != NULL ==>
        && Holds(Mem(), p, o) && index == old(index)[o.id := p]
        && Model() == Insert(old(Model()), o, shown)
    {
      ghost var r := Contents();
      ModelSize(r);
      assert pool in Repr() && pool.storage in Repr();
      hide RawOK, Apart, FreeList, Insert, ModelOf, Repr, Holds;
      if o.id in index {
        return NULL;
      }
      p := TakeSlot(o, shown);
      if p != NULL {
        assert Repr() == old(Repr());
        label Taken:
        EnlistAt(p, o, shown, r);
        forall x | x in Repr() && x !in old(Repr())
          ensures fresh(x)
        {
          assert fresh@Taken(x);
        }
      }
    }

    method AddOrder(id: OrderId, side: Side, price: Tick, qty: int, ts: nat) returns (p: int)
      requires Valid()
      modifies Repr()
      ensures Valid() && fresh(Repr() - old(Repr()))
      ensures p != NULL <==> Admits(old(Model()), id)
      ensures p != NULL ==> Holds(Mem(), p, LimitOrder(id, side, price, qty, ts)) && index == old(index)[id := p]
      ensures Model() == LimitOrderBook.AddOrder(old(Model()), id, side, price, qty, ts)
    {
      p := Enlist(LimitOrder(id, side, price, qty, ts), qty);
    }

    /** Only the display slice is counted in the level. */
    method AddIcebergOrder(id: OrderId, side: Side, price: Tick, qty: int, display: int, ts: nat) returns (p: int)
      requires Valid()
      modifies Repr()
      ensures Valid() && fresh(Repr() - old(Repr()))
      ensures p != NULL <==> Admits(old(Model()), id)
      ensures p != NULL ==>
        && Holds(Mem(), p, IcebergOrder(id, side, price, qty, display, ts))
        && index == old(index)[id := p]
      ensures Model() == AddIceberg(old(Model()), id, side, price, qty, display, ts)
    {
      p := Enlist(IcebergOrder(id, side, price, qty, display, ts), display);
    }

    // -------------------------------------------------------------- removing

    /** Unlinks slot p from its level. */
    method UnlinkAt(s: Side, at: Tick, p: int) returns (ghost rep: LevelRep)
      requires Apart(bids, asks) && at in LevelsOn(s)
      requires RepValid(Mem(), Contents().On(s)[at]) && p in Contents().On(s)[at].nodes
      modifies LevelsOn(s)[at], pool.storage
      ensures var r := old(Contents());
        UnlinkedTo(r, Mem(), s, at, p, rep) && Contents() == r.(mem := Mem()).WithSide(s, r.On(s)[at := rep])
    {
      hide RepValid, Relinked, Without;
      var lvl := LevelsOn(s)[at];
      lvl.Remove(pool.storage, p);
      rep := lvl.Rep();
      if s.Bid? {
        assert RepsOf(bids) == old(RepsOf(bids))[at := lvl.Rep()];
        assert RepsOf(asks) == old(RepsOf(asks));
      } else {
        assert RepsOf(asks) == old(RepsOf(asks))[at := lvl.Rep()];
        assert RepsOf(bids) == old(RepsOf(bids));
      }
    }

    method EraseLevel(s: Side, at: Tick)
      requires Apart(bids, asks)
      modifies this`bids, this`asks
      ensures Apart(bids, asks) && LevelsOn(s) == old(LevelsOn(s)) - {at}
          && LevelsOn(s.Opposite()) == old(LevelsOn(s.Opposite()))
      ensures Contents() == old(Contents()).WithSide(s, old(Contents()).On(s) - {at})
    {
      if s.Bid? {
        bids := bids - {at};
        assert RepsOf(bids) == old(RepsOf(bids)) - {at};
      } else {
        asks := asks - {at};
        assert RepsOf(asks) == old(RepsOf(asks)) - {at};
      }
    }

    method UpdateBest(s: Side)
      requires forall lvl :: lvl in LevelsOn(s).Values ==> !lvl.Empty()
      modifies this`bestBid, this`bestAsk, this`scans
      ensures var r := old(Contents());
        Contents() == r.WithBest(s, Scan(s, hash(r.scans, r.On(s).Keys))).(scans := scans) && scans == r.scans + 1
    {
      hide Scan;
      if s.Bid? {
        assert bids.Keys == RepsOf(bids).Keys;
        UpdateBestBid();
      } else {
        assert asks.Keys == RepsOf(asks).Keys;
        UpdateBestAsk();
      }
    }

    /** Drops the level at (s, at) once its list is empty, and rescans if it was the best. */
    method DropIfEmpty(s: Side, at: Tick, ghost rep: LevelRep)
      requires Apart(bids, asks) && CanDrop(Contents(), s, at, rep)
      modifies this`bids, this`asks, this`bestBid, this`bestAsk, this`scans
      ensures Apart(bids, asks) && Repr() <= old(Repr())
      ensures Contents() == Dropped(hash, old(Contents()), s, at, rep.nodes == [])
    {
      hide Scan, Apart;
      assert LevelsOn(s)[at].Rep() == rep;
      if LevelsOn(s)[at].Empty() {
        EraseLevel(s, at);
        if at == BestOn(s) {
          assert forall q :: q in LevelsOn(s) ==> LevelsOn(s)[q].Rep() == Contents().On(s)[q];
          UpdateBest(s);
        }
      }
    }

    /** Takes queued slot p out of its level, and the level out of the book if that emptied it. */
    method DetachAt(p: int, s: Side, at: Tick) returns (ghost rep: LevelRep)
      requires Apart(bids, asks) && RawOK(Contents()) && p in NodesAt(Contents(), s, at)
      modifies this`bids, this`asks, this`bestBid, this`bestAsk, this`scans, pool.storage, LevelsOn(s).Values
      ensures Apart(bids, asks) && Repr() <= old(Repr())
      ensures DetachSteps(hash, old(Contents()), Contents(), s, at, p, rep)
    {
      ghost var r := Contents();
      LevelIsValid(r, s, at);
      hide RawOK, Apart, RepValid, Dropped, UnlinkedTo, CanDrop;
      rep := UnlinkAt(s, at, p);
      NotEmptyElsewhere(r, Mem(), s, at, p, rep);
      DropIfEmpty(s, at, rep);
    }

    /** Takes the order in slot p out of its level. A level that is not there is not an error. */
    method RemoveOrderFromLevel(p: int, ghost o: Order)
      requires Valid() && Holds(Mem(), p, o)
      requires o.price in Contents().On(o.side) ==> p in NodesAt(Contents(), o.side, o.price)
      modifies Repr()
      ensures Valid() && Repr() <= old(Repr())
      ensures Holds(Mem(), p, o) && index == old(index) && Model() == DetachedBook(hash, old(Model()), o.id)
    {
      var side, price := pool.storage[p].obj.o.side, pool.storage[p].obj.o.price;
      if price !in LevelsOn(side) {
        NothingToDetach(hash, Contents(), p);
      } else {
        hide Valid, Model, Repr, NodesAt, DetachedBook;
        DetachQueued(p, o);
      }
    }

    method DetachQueued(p: int, ghost o: Order)
      requires Valid() && Holds(Mem(), p, o) && p in NodesAt(Contents(), o.side, o.price)
      modifies Repr()
      ensures Valid() && Repr() <= old(Repr())
      ensures Holds(Mem(), p, o) && index == old(index) && Model() == DetachedBook(hash, old(Model()), o.id)
    {
      ghost var r := Contents();
      hide RawOK, Apart, FreeList, ModelOf, DetachSteps, NodesAt, DetachedBook;
      ghost var rep := DetachAt(p, pool.storage[p].obj.o.side, pool.storage[p].obj.o.price);
      DetachStepsModel(hash, r, Contents(), p, rep);
      DetachStepsFreeList(hash, r, Contents(), o.side, o.price, p, rep, pool.head, pool.free);
    }

    method FreeSlot(p: int)
      requires pool.Valid() && LiveAt(Mem(), p)
      modifies pool, pool.storage
      ensures pool.Valid() && pool.inUse == old(pool.inUse) - 1 && !LiveAt(Mem(), p) && 0 <= p < |Mem()|
      ensures Contents() == old(Contents()).(mem := old(Mem())[p := Mem()[p]])
    {
      hide FreeList;
      pool.Deallocate(p);
    }

    method Forget(id: OrderId)
      requires id in index
      modifies this`index
      ensures |index| == old(|index|) - 1
      ensures Contents() == old(Contents()).(index := old(index) - {id})
    {
      IndexSize(index, id);
      index := index - {id};
    }

    /** Gives slot p back and forgets its id. The order must be out of its level. */
    method ReleaseOrder(p: int, ghost o: Order)
      requires Valid() && Holds(Mem(), p, o) && p !in NodesAt(Contents(), o.side, o.price)
      modifies this`index, pool, pool.storage
      ensures Valid() && !LiveAt(Mem(), p) && index == old(index) - {o.id}
      ensures Model() == old(Model()).(orders := old(Model()).orders - {o.id})
    {
      ghost var r := Contents();
      IndexLookup(r, p);
      hide RawOK, Apart, ModelOf, FreeList, NodesAt;
      Forget(pool.storage[p].obj.o.id);
      FreeSlot(p);
      ReleasedHere(r, Contents(), p, o);
    }

    /** remove_order_from_level followed by release_order, as every caller does. */
    method TakeOut(p: int, ghost o: Order)
      requires Valid() && Holds(Mem(), p, o) && WF(Model())
      modifies Repr()
      ensures Valid() && Repr() <= old(Repr()) && index == old(index) - {o.id}
      ensures Model() == Cancel(hash, old(Model()), o.id)
    {
      ghost var b := Model();
      hide RawOK, Apart, ModelOf, FreeList, NodesAt, WF, Holds, DetachedBook, Cancel;
      HeldIsQueued(Contents(), p, o);
      RemoveOrderFromLevel(p, o);
      DetachedNotQueued(hash, b, o, Contents(), p);
      ReleaseOrder(p, o);
      DetachThenForget(hash, b, o.id);
    }

    /** Cancels by id. */
    method CancelOrder(id: OrderId) returns (ok: bool)
      requires Valid() && WF(Model())
      modifies Repr()
      ensures Valid() && Repr() <= old(Repr())
      ensures ok == (id in old(Model()).orders)
      ensures Model() == Cancel(hash, old(Model()), id)
    {
      ModelSize(Contents());
      if id !in index {
        return false;
      }
      IndexEntry(Contents(), id);
      hide RawOK, Apart, ModelOf, FreeList, WF, Remove;
      TakeOut(index[id], OrderAt(Mem(), index[id]));
      return true;
    }

    /** The front of the queue at the cached best price of side s, or NULL. */
    function BestOrder(s: Side): int
      reads this, LevelsOn(s).Values
    {
      if BestOn(s) == INVALID_PRICE || BestOn(s) !in LevelsOn(s) then NULL
      else LevelsOn(s)[BestOn(s)].head
    }

    /** It is the slot of the order that has been queued longest at the cached best price. */
    lemma BestOrderIsFront(s: Side)
      requires Valid()
      ensures BestOrder(s) == NULL <==> !HasBest(Model().On(s))
      ensures BestOrder(s) != NULL ==>
        && LiveAt(Mem(), BestOrder(s))
        && OrderAt(Mem(), BestOrder(s)).id == BestId(Model().On(s))
    {
      BestInLevels(Contents(), s);
      hide RawOK, ModelOf, HasBest, BestId;
    }

    // -------------------------------------------------------------- depth

    /** Visits all levels of a side, in whatever order the map hands them out. */
    method CollectLevels(s: Side, keys: seq<Tick>) returns (d: seq<DepthLevel>)
      requires Valid() && forall i :: 0 <= i < |keys| ==> keys[i] in LevelsOn(s)
      ensures d == Collected(Model().On(s).levels, keys)
    {
      ghost var r := Contents();
      ghost var levels := Model().On(s).levels;
      hide RawOK, ModelOf, FreeList, Apart, Collected;
      d := [];
      NoneCollected(levels, keys);
      for i := 0 to |keys|
        invariant d == Collected(levels, keys[..i])
      {
        var lvl := LevelsOn(s)[keys[i]];
        assert lvl.Rep() == r.On(s)[keys[i]];
        DepthLevelRead(r, s, keys[i]);
        CollectedNext(levels, keys, i, i + 1);
        if !lvl.Empty() {
          d := d + [DepthLevel(keys[i], lvl.total)];
        }
      }
      assert keys[..|keys|] == keys;
    }

    lemma VisitedKeys(s: Side, keys: seq<Tick>)
      requires Valid() && keys == hash(scans, LevelsOn(s).Keys)
      ensures IsOrder(keys, Model().On(s).levels.Keys)
      ensures forall i :: 0 <= i < |keys| ==> keys[i] in LevelsOn(s)
    {
      assert Model().On(s).levels.Keys == LevelsOn(s).Keys;
      assert IsOrder(keys, LevelsOn(s).Keys);
      VisitsKeys(keys, LevelsOn(s).Keys);
    }

    /** The top levels of a side: collect in map order, sort, cut. */
    method GetDepth(s: Side, n: nat) returns (d: seq<DepthLevel>)
      requires Valid()
      ensures d == TopLevels(s, Model().On(s).levels, n)
    {
      ghost var levels := Model().On(s).levels;
      hide Valid, Model, SortedLevels, Collected, IsOrder, TopLevels;
      var keys := hash(scans, LevelsOn(s).Keys);
      VisitedKeys(s, keys);
      d := CollectLevels(s, keys);
      CollectSortCut(s, levels, keys, n);
      d := SortedLevels(s, d);
      if |d| > n {
        d := d[..n];
      }
    }

    // -------------------------------------------------------------- changing in place

    /** Rewrites the quantities or kind of the order in slot p. */
    method Rewrite(p: int, ghost o: Order, o': Order)
      requires Valid() && Holds(Mem(), p, o) && o'.id == o.id && o'.side == o.side && o'.price == o.price
      modifies pool.storage
      ensures Valid() && Holds(Mem(), p, o')
      ensures forall q, x :: q != p && Holds(old(Mem()), q, x) ==> Holds(Mem(), q, x)
      ensures Model() == old(Model()).(orders := old(Model()).orders[o.id := o'])
    {
      ghost var r := Contents();
      WriteOrder(p, o');
      hide RawOK, Apart, ModelOf, FreeList;
      RewrittenModel(r, Contents(), p, o');
    }

    /** Takes q off the total of the level at (s, at), if there is one. */
    method ReduceLevel(s: Side, at: Tick, q: int)
      requires Valid()
      modifies LevelsOn(s).Values
      ensures Valid()
      ensures Contents() == old(Contents()).WithSide(s, RetotalledAt(old(Contents()).On(s), at, q))
      ensures Model() == old(Model()).With(s, Reduced(old(Model()).On(s), at, q))
    {
      ghost var r := Contents();
      RetotalledHere(r, s, at, q);
      hide RawOK, ModelOf, FreeList, Apart, Retotalled, RetotalledAt, Reduced;
      if at in LevelsOn(s) {
        ReduceAt(s, at, q);
      } else {
        NoLevelReduced(r, s, at, q);
      }
      RetotalledModel(r, Contents(), s, at, q);
    }

    method ReduceAt(s: Side, at: Tick, q: int)
      requires Apart(bids, asks) && at in LevelsOn(s)
      modifies LevelsOn(s)[at]
      ensures Contents() == old(Contents()).WithSide(s, RetotalledAt(old(Contents()).On(s), at, q))
    {
      ghost var r := Contents();
      var lvl := LevelsOn(s)[at];
      lvl.ReduceQuantity(q);
      if s.Bid? {
        assert RepsOf(bids) == r.bids[at := lvl.Rep()];
        assert RepsOf(asks) == r.asks;
      } else {
        assert RepsOf(asks) == r.asks[at := lvl.Rep()];
        assert RepsOf(bids) == r.bids;
      }
    }

    /** In-place modification: the level shrinks the order where it stands. */
    method ShrinkAt(p: int, ghost o: Order, s: Side, at: Tick, qty: int) returns (delta: int)
      requires Apart(bids, asks) && Holds(Mem(), p, o) && at in LevelsOn(s) && RepValid(Mem(), Contents().On(s)[at])
      modifies LevelsOn(s)[at], pool.storage
      ensures delta == o.Remaining() - qty
      ensures var r := old(Contents());
        Contents() == r.(mem := Shrunk(r.mem, p, o, qty)).WithSide(s, RetotalledAt(r.On(s), at, delta))
    {
      ghost var r := Contents();
      hide RepValid;
      var lvl := LevelsOn(s)[at];
      delta := lvl.ModifyQtyDown(pool.storage, p, qty);
      assert Mem() == Shrunk(r.mem, p, o, qty);
      if s.Bid? {
        assert RepsOf(bids) == r.bids[at := lvl.Rep()] && RepsOf(asks) == r.asks;
      } else {
        assert RepsOf(asks) == r.asks[at := lvl.Rep()] && RepsOf(bids) == r.bids;
      }
    }

    method ModifyInPlace(p: int, o: Order, qty: int)
      requires Valid() && Holds(Mem(), p, o) && WF(Model())
      modifies Repr()
      ensures Valid() && Repr() == old(Repr())
      ensures Model() == DownTo(old(Model()), o.id, qty)
    {
      ghost var r := Contents();
      hide RawOK, Apart, ModelOf, FreeList, WF, Holds, RetotalledAt, DownTo, RepValid, Shrunk;
      CanShrink(r, p, o);
      ShrunkFreeList(r.mem, p, o, qty, pool.head, pool.free);
      var delta := ShrinkAt(p, o, o.side, o.price, qty);
      ShrunkModel(r, p, o, qty, delta);
    }

    /** Modifies by id: refuses unknown ids and anything but a reduction; same price in place;
        otherwise takes the order out and adds it again at the back of the new level. */
    method ModifyOrder(id: OrderId, price: Tick, qty: int) returns (ok: bool)
      requires Valid() && WF(Model())
      modifies Repr()
      ensures Valid() && fresh(Repr() - old(Repr()))
      ensures ok == ModifyAllowed(old(Model()), id, qty)
      ensures Model() == Modify(hash, old(Model()), id, price, qty)
    {
      ghost var b := Model();
      ModelSize(Contents());
      if id !in index {
        return false;
      }
      IndexEntry(Contents(), id);
      var p := index[id];
      var o := pool.storage[p].obj.o;
      hide RawOK, Apart, ModelOf, FreeList, WF;
      if qty <= 0 {
        return false;
      }
      if qty > o.Remaining() {
        return false;
      }
      if price == o.price {
        if qty < o.Remaining() {
          ModifyInPlace(p, o, qty);
        }
        return true;
      }
      Reprice(p, o, price, qty);
      return true;
    }

    method Reprice(p: int, o: Order, price: Tick, qty: int)
      requires Valid() && Holds(Mem(), p, o) && WF(Model())
      modifies Repr()
      ensures Valid() && fresh(Repr() - old(Repr()))
      ensures Model() == ReAdded(Cancel(hash, old(Model()), o.id), o, price, qty)
    {
      hide Valid, Model, Repr, WF, Holds, Cancel, AddIceberg, LimitOrderBook.AddOrder;
      TakeOut(p, o);
      assert Repr() <= old(Repr());
      label Taken:
      if o.kind.Iceberg? {
        var q := AddIcebergOrder(o.id, o.side, price, qty, o.display, o.ts);
      } else {
        var q := AddOrder(o.id, o.side, price, qty, o.ts);
      }
      forall x | x in Repr() && x !in old(Repr())
        ensures fresh(x)
      {
        assert fresh@Taken(x);
      }
    }
  }

  function ReAdded(b: Book, o: Order, price: Tick, qty: int): Book {
    if o.kind.Iceberg? then AddIceberg(b, o.id, o.side, price, qty, o.display, o.ts)
    else AddOrder(b, o.id, o.side, price, qty, o.ts)
  }

  lemma NothingStored(r: Raw)
    requires r.bids == map[] && r.asks == map[] && r.index == map[] && forall k :: !LiveAt(r.mem, k)
    requires r.bestBid == INVALID_PRICE && r.bestAsk == INVALID_PRICE && r.scans == 0
    ensures RawOK(r) && ModelOf(r) == EmptyBook(|r.mem|)
  {
  }

  ghost function Shrunk(mem: Memory, p: int, o: Order, qty: int): Memory
    requires LiveAt(mem, p)
  {
    mem[p := Live(mem[p].obj.(o := o.(qty := o.filled + qty)))]
  }

  ghost function DownTo(b: Book, id: OrderId, qty: int): Book {
    if id in b.orders then ModifyDown(b, id, qty) else b
  }

  lemma CanShrink(r: Raw, p: int, o: Order)
    requires RawOK(r) && Holds(r.mem, p, o) && WF(ModelOf(r))
    ensures LiveAt(r.mem, p) && o.price in r.On(o.side) && o.id in ModelOf(r).orders
    ensures RepValid(r.mem, r.On(o.side)[o.price])
  {
    assert LiveAt(r.mem, p);
    hide RawOK, WF, RepValid, Holds, ModelOf;
    HeldIsQueued(r, p, o);
    LevelIsValid(r, o.side, o.price);
  }

  lemma ShrunkFreeList(mem: Memory, p: int, o: Order, qty: int, head: int, free: seq<int>)
    requires Holds(mem, p, o) && FreeList(mem, head, free)
    ensures LiveAt(mem, p) && FreeList(Shrunk(mem, p, o, qty), head, free) && |Shrunk(mem, p, o, qty)| == |mem|
  {
    RewrittenFreeList(mem, head, free, p, mem[p].obj.(o := o.(qty := o.filled + qty)));
  }

  lemma NoLevelReduced(r: Raw, s: Side, at: Tick, q: int)
    requires at !in r.On(s)
    ensures r.WithSide(s, RetotalledAt(r.On(s), at, q)) == r
  {
  }

  lemma RetotalledHere(r: Raw, s: Side, at: Tick, q: int)
    ensures Retotalled(r, r.WithSide(s, RetotalledAt(r.On(s), at, q)), s, at, q)
  {
  }

  lemma ShrunkModel(r: Raw, p: int, o: Order, qty: int, delta: int)
    requires RawOK(r) && Holds(r.mem, p, o) && o.id in ModelOf(r).orders && delta == o.Remaining() - qty
    ensures var r' := r.(mem := Shrunk(r.mem, p, o, qty)).WithSide(o.side, RetotalledAt(r.On(o.side), o.price, delta));
      RawOK(r') && ModelOf(r') == DownTo(ModelOf(r), o.id, qty)
  {
    var o' := o.(qty := o.filled + qty);
    var r1 := r.(mem := Shrunk(r.mem, p, o, qty));
    var r2 := r1.WithSide(o.side, RetotalledAt(r.On(o.side), o.price, delta));
    IndexLookup(r, p);
    assert Rewritten(r, r1, p, o');
    assert r1.On(o.side) == r.On(o.side);
    hide RawOK, ModelOf, Rewritten, Retotalled, RetotalledAt;
    RetotalledHere(r1, o.side, o.price, delta);
    RewrittenModel(r, r1, p, o');
    RetotalledModel(r1, r2, o.side, o.price, delta);
    ModifyDownParts(ModelOf(r), o, qty, delta);
  }

  lemma ModifyDownParts(b: Book, o: Order, qty: int, delta: int)
    requires o.id in b.orders && b.orders[o.id] == o && delta == o.Remaining() - qty
    ensures var b1 := b.(orders := b.orders[o.id := o.(qty := o.filled + qty)]);
      ModifyDown(b, o.id, qty) == b1.With(o.side, Reduced(b1.On(o.side), o.price, delta))
  {
  }

  ghost predicate HasBest(l: Ladder) {
    l.best != INVALID_PRICE && l.best in l.levels && l.levels[l.best].queue != []
  }

  ghost function BestId(l: Ladder): OrderId {
    if HasBest(l) then l.levels[l.best].queue[0] else 0
  }

  lemma BestInLevels(r: Raw, s: Side)
    requires RawOK(r)
    ensures var l, at := ModelOf(r).On(s), r.Best(s);
      && (HasBest(l) <==> at != INVALID_PRICE && at in r.On(s))
      && (HasBest(l) ==>
           && r.On(s)[at].head != NULL && LiveAt(r.mem, r.On(s)[at].head)
           && OrderAt(r.mem, r.On(s)[at].head).id == BestId(l))
  {
    var at := r.Best(s);
    LevelsLookup(r, s, at);
    if at in r.On(s) {
      var rep := r.On(s)[at];
      assert RepOK(r.mem, s, at, rep);
      NodesAreLive(r.mem, s, at, rep, 0);
      assert Ids(r.mem, rep.nodes)[0] == OrderAt(r.mem, rep.nodes[0]).id;
    }
  }

  lemma VisitsKeys(xs: seq<Tick>, keys: set<Tick>)
    requires IsOrder(xs, keys)
    ensures forall i :: 0 <= i < |xs| ==> xs[i] in keys
  {
  }

  lemma NoneCollected(levels: map<Tick, Level>, keys: seq<Tick>)
    ensures Collected(levels, keys[..0]) == []
  {
  }

  lemma CollectedNext(levels: map<Tick, Level>, keys: seq<Tick>, i: nat, j: nat)
    requires i < |keys| && j == i + 1
    ensures Collected(levels, keys[..j]) == Collected(levels, keys[..i])
        + [DepthLevel(keys[i], LevelTotal(levels, keys[i]))]
  {
  }

  lemma DepthLevelRead(r: Raw, s: Side, p: Tick)
    requires RawOK(r) && p in r.On(s)
    ensures r.On(s)[p].head != NULL && LevelTotal(ModelOf(r).On(s).levels, p) == r.On(s)[p].total
  {
    HeadsExist(r, s);
  }

  function RetotalledAt(reps: map<Tick, LevelRep>, at: Tick, q: int): map<Tick, LevelRep> {
    if at in reps then reps[at := reps[at].(total := reps[at].total - q)] else reps
  }

  /** Unlinking p and dropping its level if that emptied it. */
  ghost predicate DetachSteps(h: HashOrder, r: Raw, r': Raw, s: Side, at: Tick, p: int, rep: LevelRep) {
    && UnlinkedTo(r, r'.mem, s, at, p, rep)
    && r' == Dropped(h, r.(mem := r'.mem).WithSide(s, r.On(s)[at := rep]), s, at, rep.nodes == [])
  }

  lemma DetachStepsFreeList(h: HashOrder, r: Raw, r': Raw, s: Side, at: Tick, p: int, rep: LevelRep, head: int,
      free: seq<int>)
    requires DetachSteps(h, r, r', s, at, p, rep) && FreeList(r.mem, head, free)
    ensures FreeList(r'.mem, head, free) && |r'.mem| == |r.mem|
  {
    RelinkedFreeList(r.mem, r'.mem, NodesAt(r, s, at), head, free);
  }

  /** Slot p is live and holds o. */
  ghost predicate Holds(mem: Memory, p: int, o: Order) {
    LiveAt(mem, p) && OrderAt(mem, p) == o
  }

  ghost function DetachedBook(h: HashOrder, b: Book, id: OrderId): Book {
    if id in b.orders then Detach(h, b, id) else b
  }

  lemma DetachThenForget(h: HashOrder, b: Book, id: OrderId)
    ensures id in b.orders ==>
      Cancel(h, b, id) == DetachedBook(h, b, id).(orders := DetachedBook(h, b, id).orders - {id})
  {
  }

  lemma DetachStepsModel(h: HashOrder, r: Raw, r': Raw, p: int, rep: LevelRep)
    requires RawOK(r) && LiveAt(r.mem, p)
    requires DetachSteps(h, r, r', OrderAt(r.mem, p).side, OrderAt(r.mem, p).price, p, rep)
    ensures RawOK(r') && LiveAt(r'.mem, p) && OrderAt(r'.mem, p) == OrderAt(r.mem, p) && r'.index == r.index
    ensures ModelOf(r') == DetachedBook(h, ModelOf(r), OrderAt(r.mem, p).id)
  {
    hide RawOK, Detached, ModelOf, UnlinkedTo, Dropped;
    DropIsDetached(h, r, r', p, rep);
    DetachedModel(h, r, r', p, rep);
    DetachedIs(h, r, r', p, rep);
  }

  lemma IndexSize(index: map<OrderId, int>, id: OrderId)
    requires id in index
    ensures |index - {id}| == |index| - 1
  {
    assert index.Keys == (index - {id}).Keys + {id};
  }

  lemma IndexEntry(r: Raw, id: OrderId)
    requires RawOK(r) && id in r.index
    ensures LiveAt(r.mem, r.index[id]) && OrderAt(r.mem, r.index[id]).id == id
    ensures id in ModelOf(r).orders && ModelOf(r).orders[id] == OrderAt(r.mem, r.index[id])
  {
  }

  lemma ReleasedHere(r: Raw, r': Raw, p: int, o: Order)
    requires RawOK(r) && Holds(r.mem, p, o) && p !in NodesAt(r, o.side, o.price)
    requires !LiveAt(r'.mem, p) && 0 <= p < |r'.mem|
        && r' == r.(mem := r.mem[p := r'.mem[p]], index := r.index - {o.id})
    ensures RawOK(r') && ModelOf(r') == ModelOf(r).(orders := ModelOf(r).orders - {o.id})
  {
    hide RawOK, ModelOf;
    ReleasedModel(r, r', p);
  }

  /** A slot is in the list of its level exactly when its id is in that level's queue. */
  lemma QueuedIff(r: Raw, p: int, s: Side, at: Tick)
    requires RawOK(r) && LiveAt(r.mem, p)
    ensures p in NodesAt(r, s, at) <==> OrderAt(r.mem, p).id in LevelAt(ModelOf(r).On(s), at).queue
  {
    var nodes := NodesAt(r, s, at);
    LevelAtRaw(r, s, at);
    var ids := Ids(r.mem, nodes);
    if p in nodes {
      var i :| 0 <= i < |nodes| && nodes[i] == p;
      assert ids[i] == OrderAt(r.mem, p).id;
    }
    if OrderAt(r.mem, p).id in ids {
      var i :| 0 <= i < |ids| && ids[i] == OrderAt(r.mem, p).id;
      assert nodes[i] in nodes;
      NodesAtOK(r, s, at, nodes[i]);
      IndexLookup(r, nodes[i]);
      IndexLookup(r, p);
    }
  }

  lemma QueuedSlot(r: Raw, p: int)
    requires RawOK(r) && LiveAt(r.mem, p) && WF(ModelOf(r))
    ensures var o := OrderAt(r.mem, p); p in NodesAt(r, o.side, o.price)
  {
    var o := OrderAt(r.mem, p);
    IndexLookup(r, p);
    QueuedIff(r, p, o.side, o.price);
    assert Queued(ModelOf(r).On(o.side), o.price, o.id);
  }

  lemma HeldIsQueued(r: Raw, p: int, o: Order)
    requires RawOK(r) && Holds(r.mem, p, o) && WF(ModelOf(r))
    ensures p in NodesAt(r, o.side, o.price) && o.id in ModelOf(r).orders && ModelOf(r).orders[o.id] == o
  {
    hide RawOK, ModelOf, WF, NodesAt;
    QueuedSlot(r, p);
    IndexLookup(r, p);
  }

  lemma DetachedNotQueued(h: HashOrder, b: Book, o: Order, r: Raw, p: int)
    requires WF(b) && o.id in b.orders && b.orders[o.id] == o
    requires RawOK(r) && ModelOf(r) == DetachedBook(h, b, o.id) && Holds(r.mem, p, o)
    ensures p !in NodesAt(r, o.side, o.price)
  {
    QueuedIff(r, p, o.side, o.price);
    assert SideOK(o.side, b.On(o.side), b.orders);
    if o.price in b.On(o.side).levels {
      assert LevelOK(o.side, o.price, b.On(o.side).levels[o.price].queue, b.orders);
      NoDupWithout(b.On(o.side).levels[o.price].queue, o.id);
    }
  }

  /** A state after one of its levels may have been dropped. */
  ghost function Dropped(h: HashOrder, r: Raw, s: Side, at: Tick, emptied: bool): Raw {
    if !emptied then r else
    var left := r.On(s) - {at};
    if at == r.Best(s) then r.WithSide(s, left).WithBest(s, Scan(s, h(r.scans, left.Keys))).(scans := r.scans + 1)
    else r.WithSide(s, left)
  }

  lemma NothingToDetach(h: HashOrder, r: Raw, p: int)
    requires RawOK(r) && LiveAt(r.mem, p) && OrderAt(r.mem, p).price !in r.On(OrderAt(r.mem, p).side)
    ensures DetachedBook(h, ModelOf(r), OrderAt(r.mem, p).id) == ModelOf(r)
  {
    IndexLookup(r, p);
    LevelsLookup(r, OrderAt(r.mem, p).side, OrderAt(r.mem, p).price);
  }

  lemma LevelIsValid(r: Raw, s: Side, at: Tick)
    requires RawOK(r) && at in r.On(s)
    ensures RepValid(r.mem, r.On(s)[at])
  {
    assert RepOK(r.mem, s, at, r.On(s)[at]);
  }

  lemma HeadIsNode(mem: Memory, rep: LevelRep)
    requires RepValid(mem, rep)
    ensures rep.head == NULL <==> rep.nodes == []
  {
    if rep.nodes != [] {
      assert LiveAt(mem, rep.nodes[0]);
    }
  }

  /** Slot p is out of the list at (s, at), which now is rep. */
  ghost predicate UnlinkedTo(r: Raw, mem': Memory, s: Side, at: Tick, p: int, rep: LevelRep) {
    && p in NodesAt(r, s, at)
    && Relinked(r.mem, mem', NodesAt(r, s, at))
    && RepValid(mem', rep)
    && rep.nodes == Without(NodesAt(r, s, at), p)
    && rep.total == TotalAt(r, s, at) - OrderAt(r.mem, p).Remaining()
  }

  /** Only the level at (s, at), which is rep, can be empty. */
  ghost predicate CanDrop(r: Raw, s: Side, at: Tick, rep: LevelRep) {
    && at in r.On(s) && r.On(s)[at] == rep
    && (rep.head == NULL <==> rep.nodes == [])
    && (forall q :: q in r.On(s) && q != at ==> r.On(s)[q].head != NULL)
  }

  lemma HeadsExist(r: Raw, s: Side)
    requires RawOK(r)
    ensures forall q :: q in r.On(s) ==> r.On(s)[q].head != NULL
  {
    forall q | q in r.On(s)
      ensures r.On(s)[q].head != NULL
    {
      assert RepOK(r.mem, s, q, r.On(s)[q]);
      HeadIsNode(r.mem, r.On(s)[q]);
    }
  }

  lemma NotEmptyElsewhere(r: Raw, mem': Memory, s: Side, at: Tick, p: int, rep: LevelRep)
    requires RawOK(r) && UnlinkedTo(r, mem', s, at, p, rep)
    ensures CanDrop(r.(mem := mem').WithSide(s, r.On(s)[at := rep]), s, at, rep)
  {
    hide RawOK, RepValid, Relinked, Without;
    HeadIsNode(mem', rep);
    HeadsExist(r, s);
  }

  lemma DetachedIs(h: HashOrder, r: Raw, r': Raw, p: int, rep: LevelRep)
    requires Detached(h, r, r', p, rep)
    ensures LiveAt(r'.mem, p) && OrderAt(r'.mem, p) == OrderAt(r.mem, p) && r'.index == r.index
  {
    RelinkedSameObjects(r.mem, r'.mem, NodesAt(r, OrderAt(r.mem, p).side, OrderAt(r.mem, p).price), p);
  }

  lemma DropSides(h: HashOrder, r: Raw, mem': Memory, s: Side, at: Tick, rep: LevelRep, r': Raw)
    requires r' == Dropped(h, r.(mem := mem').WithSide(s, r.On(s)[at := rep]), s, at, rep.nodes == [])
    ensures r'.mem == mem' && r'.index == r.index && OtherSideSame(r, r', s)
    ensures r'.On(s) == (if rep.nodes == [] then r.On(s) - {at} else r.On(s)[at := rep])
    ensures BestAfterDetach(h, r, r', s, at, rep.nodes == [])
  {
    assert r.On(s)[at := rep] - {at} == r.On(s) - {at};
    hide Scan;
  }

  lemma DropIsDetached(h: HashOrder, r: Raw, r': Raw, p: int, rep: LevelRep)
    requires LiveAt(r.mem, p)
    requires var o := OrderAt(r.mem, p);
      && UnlinkedTo(r, r'.mem, o.side, o.price, p, rep)
      && r' == Dropped(h, r.(mem := r'.mem).WithSide(o.side, r.On(o.side)[o.price := rep]), o.side, o.price,
          rep.nodes == [])
    ensures Detached(h, r, r', p, rep)
  {
    var o := OrderAt(r.mem, p);
    hide RepValid, Relinked, Without, Dropped, BestAfterDetach, OtherSideSame, OrderAt, NodesAt, TotalAt;
    DropSides(h, r, r'.mem, o.side, o.price, rep, r');
  }

  const NO_LEVEL: LevelRep := LevelRep(NULL, NULL, 0, 0, [])

  lemma StillFreeList<T>(mem: seq<Slot<T>>, head: int, free: seq<int>, p: int, obj: T)
    requires FreeList(mem, head, free) && 0 <= p < |mem| && mem[p].Live?
    ensures FreeList(mem[p := Live(obj)], head, free)
  {
    assert forall i :: 0 <= i < |free| ==> FreeAt(mem, free[i]);
    forall i | 0 <= i < |free|
      ensures FreeAt(mem[p := Live(obj)], free[i]) && mem[p := Live(obj)][free[i]].next == NextOf(free, i)
    {
      assert FreeAt(mem, free[i]);
    }
  }

  ghost function RepOrNew(r: Raw, s: Side, at: Tick): LevelRep {
    if at in r.On(s) then r.On(s)[at] else NO_LEVEL
  }

  /** The id map, the book's orders and the slots in use all have the same size. */
  lemma ModelSize(r: Raw)
    ensures ModelOf(r).orders.Keys == r.index.Keys && |ModelOf(r).orders| == |r.index|
    ensures ModelOf(r).capacity == |r.mem|
  {
    assert OrdersOf(r.mem, r.index).Keys == r.index.Keys;
  }

  lemma EnlistedIs(r: Raw, r': Raw, p: int, o: Order, rep: LevelRep, shown: int)
    requires Enlisted(r, r', p, o, rep, shown)
    ensures LiveAt(r'.mem, p) && OrderAt(r'.mem, p) == o && r'.index == r.index[o.id := p]
  {
  }

  lemma PutTwice<K, V>(m: map<K, V>, k: K, v: V, w: V)
    ensures m[k := v][k := w] == m[k := w]
  {
  }

  lemma NewSlotKeepsLevel(r: Raw, mem: Memory, s: Side, at: Tick, p: int)
    requires RawOK(r) && 0 <= p < |r.mem| && !LiveAt(r.mem, p) && |mem| == |r.mem| && mem == r.mem[p := mem[p]]
    ensures RepValid(mem, RepOrNew(r, s, at)) && p !in RepOrNew(r, s, at).nodes
  {
    FreeIsNowhere(r, s, at, p);
    if at in r.On(s) {
      assert RepOK(r.mem, s, at, r.On(s)[at]);
      LinkedFrame(r.mem, mem, r.On(s)[at].nodes);
    }
  }

  /** The three writes of an insertion, seen from before the first one. */
  lemma PushedSlot(r: Raw, mem1: Memory, mem2: Memory, p: int, o: Order, shown: int, rep: LevelRep)
    requires 0 <= p < |r.mem| && !LiveAt(r.mem, p) && mem1 == r.mem[p := Live(Node(o.(qty := shown), NULL, NULL))]
    requires rep.nodes == NodesAt(r, o.side, o.price) + [p] && Relinked(mem1, mem2, rep.nodes) && RepValid(mem2, rep)
    ensures LiveAt(mem2, p)
    ensures var mem3 := mem2[p := Live(mem2[p].obj.(o := o))];
      && Confined(r, mem3, o.side, o.price, p)
      && LiveAt(mem3, p) && OrderAt(mem3, p) == o
      && RepValid(mem3, rep)
  {
    assert rep.nodes[|rep.nodes| - 1] == p;
    assert LiveAt(mem1, p);
    LinkedUpdate(mem2, rep.nodes, p, o);
  }

  /** The contents after the order in slot p is completed, named and counted in the cached best. */
  ghost function Registered(r: Raw, p: int, o: Order): Raw {
    if LiveAt(r.mem, p) then
      r.(mem := r.mem[p := Live(r.mem[p].obj.(o := o))], index := r.index[o.id := p])
       .WithBest(o.side, Improve(o.side, r.Best(o.side), o.price))
    else r
  }

  /** The whole insertion as one relation, when all that is left to do to r1 is to register the order. */
  ghost predicate ToRegister(r: Raw, r1: Raw, p: int, o: Order, rep: LevelRep, shown: int) {
    LiveAt(r1.mem, p) && Enlisted(r, Registered(r1, p, o), p, o, rep, shown)
  }

  lemma LinkEnlists(r: Raw, mem1: Memory, mem2: Memory, p: int, o: Order, shown: int, rep: LevelRep)
    requires 0 <= p < |r.mem| && !LiveAt(r.mem, p) && mem1 == r.mem[p := Live(Node(o.(qty := shown), NULL, NULL))]
    requires var r0 := RepOrNew(r, o.side, o.price);
      rep.nodes == r0.nodes + [p] && rep.total == r0.total + o.(qty := shown).Remaining() && o.filled == 0
    requires Relinked(mem1, mem2, rep.nodes) && RepValid(mem2, rep)
    ensures ToRegister(r, r.(mem := mem2).WithSide(o.side, r.On(o.side)[o.price := rep]), p, o, rep, shown)
  {
    PushedSlot(r, mem1, mem2, p, o, shown, rep);
    hide RepValid, Relinked, Confined, Improve;
  }

  lemma RelinkedFreeList(mem: Memory, mem': Memory, nodes: seq<int>, head: int, free: seq<int>)
    requires Relinked(mem, mem', nodes) && FreeList(mem, head, free)
    ensures FreeList(mem', head, free)
  {
    forall i | 0 <= i < |free|
      ensures FreeAt(mem', free[i]) && mem'[free[i]].next == NextOf(free, i)
    {
      assert FreeAt(mem, free[i]);
    }
  }

  lemma RewrittenFreeList(mem: Memory, head: int, free: seq<int>, p: int, obj: Node)
    requires FreeList(mem, head, free) && LiveAt(mem, p)
    ensures FreeList(mem[p := Live(obj)], head, free)
  {
    StillFreeList(mem, head, free, p, obj);
  }
}
