/**
 Intrusive doubly linked price levels over a memory of order cells. A pointer is the index
 of a cell in that memory, as in the pool's `ptr - pool`; NULL is no cell.
 */
module LinkedLevels {
  import opened Orders

  const NULL: int := -1

  datatype Cell = Cell(id: nat, trader: UInt32, price: nat, quantity: UInt32, side: UInt8, prev: int, next: int)

  /** A value-initialised order. */
  const ZERO_CELL: Cell := Cell(0, 0, 0, 0, 0, NULL, NULL)

  function Says(c: Cell): Quote {
    Quote(c.id, c.trader, c.side, c.price, c.quantity)
  }

  /** The ids of all cells; no operation of the book changes them. */
  ghost function Ids(mem: seq<Cell>): (r: seq<nat>)
    ensures |r| == |mem| && forall s :: 0 <= s < |mem| ==> r[s] == mem[s].id
  {
    seq(|mem|, s requires 0 <= s < |mem| => mem[s].id)
  }

  datatype PriceLevel = PriceLevel(head: int, tail: int, volume: UInt32)

  /** Cell `q[i]` points back and forth to its neighbours in `q`. */
  ghost predicate Linked(mem: seq<Cell>, q: seq<nat>, i: nat)
    requires i < |q| && q[i] < |mem|
  {
    && mem[q[i]].prev == (if i == 0 then NULL else q[i - 1])
    && mem[q[i]].next == (if i == |q| - 1 then NULL else q[i + 1])
  }

  /** `q` lists the cells of a doubly linked list without sharing, from `head` to `tail`. */
  ghost predicate Chain(mem: seq<Cell>, q: seq<nat>, head: int, tail: int) {
    && (forall i :: 0 <= i < |q| ==> q[i] < |mem|)
    && (if q == [] then head == NULL && tail == NULL else head == q[0] && tail == q[|q| - 1])
    && (forall i, j :: 0 <= i < j < |q| ==> q[i] != q[j])
    && (forall i :: 0 <= i < |q| ==> Linked(mem, q, i))
  }

  /** The cells `q` say what `level` says, all at price `p`. */
  ghost predicate Shows(mem: seq<Cell>, q: seq<nat>, level: seq<Quote>, p: nat) {
    |q| == |level| && forall i :: 0 <= i < |q| ==> q[i] < |mem| && Says(mem[q[i]]) == level[i] && level[i].price == p
  }

  /** List head `pl` of price `p` links exactly the cells `q`, which say `level`. */
  ghost predicate LevelOk(mem: seq<Cell>, pl: PriceLevel, q: seq<nat>, level: seq<Quote>, p: nat) {
    && Chain(mem, q, pl.head, pl.tail)
    && Shows(mem, q, level, p)
    && pl.volume == Weigh(OPEN_QUANTITY, level) % 0x1_0000_0000
  }

  /** For every price the linked cells and what they say; and all linked cells together. */
  datatype Links = Links(queues: seq<seq<nat>>, levels: seq<seq<Quote>>, linked: set<nat>)

  /** Level `p` is linked as the links say. */
  ghost predicate LevelAgrees(mem: seq<Cell>, heads: seq<PriceLevel>, l: Links, p: nat)
    requires p < |heads| && p < |l.queues| && p < |l.levels|
  {
    && LevelOk(mem, heads[p], l.queues[p], l.levels[p], p)
    && forall i :: 0 <= i < |l.queues[p]| ==> l.queues[p][i] in l.linked
  }

  /** Cell `s` is linked at the price it says. */
  ghost predicate Placed(mem: seq<Cell>, l: Links, s: nat) {
    s < |mem| && mem[s].price < |l.queues| && s in l.queues[mem[s].price]
  }

  /** Memory, list heads and links agree. */
  ghost predicate Agrees(mem: seq<Cell>, heads: seq<PriceLevel>, l: Links) {
    && |heads| == |l.queues| == |l.levels| == MAX_PRICE_TICKS + 1
    && (forall p {:trigger LevelAgrees(mem, heads, l, p)} :: 0 <= p < |heads| ==> LevelAgrees(mem, heads, l, p))
    && (forall s {:trigger Placed(mem, l, s)} :: s in l.linked ==> Placed(mem, l, s))
  }

  /** A level does not depend on cells outside it. */
  lemma LevelFrame(mem: seq<Cell>, mem': seq<Cell>, pl: PriceLevel, q: seq<nat>, level: seq<Quote>, p: nat)
    requires LevelOk(mem, pl, q, level, p)
    requires |mem'| == |mem| && forall i :: 0 <= i < |q| ==> mem'[q[i]] == mem[q[i]]
    ensures LevelOk(mem', pl, q, level, p)
  {
    forall i | 0 <= i < |q|
      ensures Linked(mem', q, i)
    {
      assert Linked(mem, q, i);
    }
  }

  /** Changing cells of one level only leaves the other levels linked as they were. */
  lemma OtherLevelOk(mem: seq<Cell>, mem': seq<Cell>, heads: seq<PriceLevel>, l: Links, price: nat, touched: set<nat>, p: nat)
    requires Agrees(mem, heads, l) && price < |heads| && p < |heads| && p != price
    requires |mem'| == |mem| && forall s :: 0 <= s < |mem| && s !in touched ==> mem'[s] == mem[s]
    requires forall s :: s in touched ==> s in l.queues[price] || s !in l.linked
    ensures LevelOk(mem', heads[p], l.queues[p], l.levels[p], p)
  {
    var q := l.queues[p];
    assert LevelAgrees(mem, heads, l, p);
    forall i | 0 <= i < |q|
      ensures mem'[q[i]] == mem[q[i]]
    {
      AtOwnPrice(mem, heads, l, p, i);
    }
    LevelFrame(mem, mem', heads[p], q, l.levels[p], p);
  }

  /** A cell linked at price `p` says `p`, so it is linked at no other price. */
  lemma AtOwnPrice(mem: seq<Cell>, heads: seq<PriceLevel>, l: Links, p: nat, i: nat)
    requires Agrees(mem, heads, l) && p < |heads| && i < |l.queues[p]|
    ensures l.queues[p][i] < |mem| && l.queues[p][i] in l.linked && mem[l.queues[p][i]].price == p
    ensures forall r :: 0 <= r < |heads| && r != p ==> l.queues[p][i] !in l.queues[r]
  {
    var s := l.queues[p][i];
    assert LevelAgrees(mem, heads, l, p);
    assert Says(mem[s]) == l.levels[p][i];
    forall r | 0 <= r < |heads| && s in l.queues[r]
      ensures r == p
    {
      assert LevelAgrees(mem, heads, l, r);
      var j :| 0 <= j < |l.queues[r]| && l.queues[r][j] == s;
      assert Says(mem[l.queues[r][j]]) == l.levels[r][j];
    }
  }

  // ---------- linking a cell at the back of its level ----------

  function LinkCell(mem: seq<Cell>, pl: PriceLevel, o: nat): (r: seq<Cell>)
    requires o < |mem| && (pl.head != NULL ==> 0 <= pl.tail < |mem|)
    ensures |r| == |mem|
  {
    if pl.head == NULL then mem[o := mem[o].(prev := NULL, next := NULL)]
    else
      var m := mem[pl.tail := mem[pl.tail].(next := o)];
      m[o := m[o].(prev := pl.tail, next := NULL)]
  }

  function LinkHead(pl: PriceLevel, o: nat, quantity: UInt32): PriceLevel {
    PriceLevel(if pl.head == NULL then o else pl.head, o, (pl.volume + quantity) % UINT32_MODULUS)
  }

  lemma LinkKeepsIds(mem: seq<Cell>, pl: PriceLevel, o: nat)
    requires o < |mem| && (pl.head != NULL ==> 0 <= pl.tail < |mem|)
    ensures Ids(LinkCell(mem, pl, o)) == Ids(mem)
  {
  }

  /** Linking changes only pointers, and only of the new cell and of the old tail. */
  lemma LinkCellAt(mem: seq<Cell>, pl: PriceLevel, q: seq<nat>, o: nat, i: nat)
    requires Chain(mem, q, pl.head, pl.tail) && o < |mem| && o !in q && i < |q|
    ensures LinkCell(mem, pl, o)[q[i]] == if i == |q| - 1 then mem[q[i]].(next := o) else mem[q[i]]
  {
  }

  lemma LinkedChain(mem: seq<Cell>, pl: PriceLevel, q: seq<nat>, o: nat)
    requires Chain(mem, q, pl.head, pl.tail) && o < |mem| && o !in q
    ensures var h := LinkHead(pl, o, mem[o].quantity);
            Chain(LinkCell(mem, pl, o), q + [o], h.head, h.tail)
  {
    var m, r := LinkCell(mem, pl, o), q + [o];
    forall i | 0 <= i < |r|
      ensures r[i] < |m| && Linked(m, r, i)
    {
      if i < |q| {
        assert Linked(mem, q, i);
        LinkCellAt(mem, pl, q, o, i);
      }
    }
  }

  lemma LinkedLevelOk(mem: seq<Cell>, pl: PriceLevel, q: seq<nat>, level: seq<Quote>, p: nat, o: nat)
    requires LevelOk(mem, pl, q, level, p) && o < |mem| && o !in q && mem[o].price == p
    ensures LevelOk(LinkCell(mem, pl, o), LinkHead(pl, o, mem[o].quantity), q + [o], level + [Says(mem[o])], p)
  {
    LinkedChain(mem, pl, q, o);
    assert Shows(LinkCell(mem, pl, o), q + [o], level + [Says(mem[o])], p) by {
      forall i | 0 <= i < |q|
        ensures Says(LinkCell(mem, pl, o)[q[i]]) == level[i]
      {
        LinkCellAt(mem, pl, q, o, i);
      }
    }
    assert Weigh(OPEN_QUANTITY, level + [Says(mem[o])]) == Weigh(OPEN_QUANTITY, level) + mem[o].quantity by {
      WeighAppend(OPEN_QUANTITY, level, [Says(mem[o])]);
    }
    VolumeAdds(Weigh(OPEN_QUANTITY, level), mem[o].quantity);
  }

  lemma VolumeAdds(total: nat, quantity: nat)
    ensures (total % UINT32_MODULUS + quantity) % UINT32_MODULUS == (total + quantity) % UINT32_MODULUS
  {
  }

  /** A level replaced by an agreeing one, whose cells are the old ones plus or minus one cell. */
  lemma ReplaceLevel(mem: seq<Cell>, mem': seq<Cell>, heads: seq<PriceLevel>, l: Links, l': Links,
                     price: nat, pl: PriceLevel, q: seq<nat>, level: seq<Quote>, touched: set<nat>)
    requires Agrees(mem, heads, l) && price < |heads|
    requires |mem'| == |mem| && forall s :: 0 <= s < |mem| && s !in touched ==> mem'[s] == mem[s]
    requires forall s :: s in touched ==> s in l.queues[price] || s !in l.linked
    requires LevelOk(mem', pl, q, level, price)
    requires l' == Links(l.queues[price := q], l.levels[price := level], l'.linked)
    requires forall s :: s in l'.linked <==> (s in l.linked && s !in l.queues[price]) || s in q
    ensures Agrees(mem', heads[price := pl], l')
  {
    var heads' := heads[price := pl];
    forall p | 0 <= p < |heads|
      ensures LevelAgrees(mem', heads', l', p)
    {
      if p != price {
        OtherLevelOk(mem, mem', heads, l, price, touched, p);
        forall i | 0 <= i < |l.queues[p]|
          ensures l'.queues[p][i] in l'.linked
        {
          AtOwnPrice(mem, heads, l, p, i);
        }
      }
    }
    forall s | s in l'.linked
      ensures Placed(mem', l', s)
    {
      if s in q {
        var i :| 0 <= i < |q| && q[i] == s;
        assert Says(mem'[q[i]]) == level[i];
      } else {
        assert Placed(mem, l, s);
        assert s !in touched;
      }
    }
  }

  ghost function AddLink(l: Links, o: nat, quote: Quote): Links
    requires quote.price < |l.queues| == |l.levels|
  {
    var p := quote.price;
    Links(l.queues[p := l.queues[p] + [o]], l.levels[p := l.levels[p] + [quote]], l.linked + {o})
  }

  /** Linking a free cell at its price keeps memory, list heads and links in agreement. */
  lemma InsertAgrees(mem: seq<Cell>, heads: seq<PriceLevel>, l: Links, o: nat)
    requires Agrees(mem, heads, l) && o < |mem| && o !in l.linked && mem[o].price < |heads|
    ensures var pl := heads[mem[o].price];
            && (pl.head != NULL ==> 0 <= pl.tail < |mem| && pl.tail != o)
            && Agrees(LinkCell(mem, pl, o), heads[mem[o].price := LinkHead(pl, o, mem[o].quantity)],
                      AddLink(l, o, Says(mem[o])))
            && Says(LinkCell(mem, pl, o)[o]) == Says(mem[o])
  {
    var p := mem[o].price;
    assert LevelAgrees(mem, heads, l, p);
    var q, level := l.queues[p] + [o], l.levels[p] + [Says(mem[o])];
    LinkedLevelOk(mem, heads[p], l.queues[p], l.levels[p], p, o);
    ReplaceLevel(mem, LinkCell(mem, heads[p], o), heads, l, AddLink(l, o, Says(mem[o])), p,
                 LinkHead(heads[p], o, mem[o].quantity), q, level,
                 {o, if heads[p].head == NULL then o else heads[p].tail});
  }

  // ---------- unlinking a cell from its level ----------

  function UnlinkCell(mem: seq<Cell>, o: nat): (r: seq<Cell>)
    requires o < |mem| && mem[o].prev < |mem| && mem[o].next < |mem|
    ensures |r| == |mem|
  {
    var m := if mem[o].prev < 0 then mem else mem[mem[o].prev := mem[mem[o].prev].(next := mem[o].next)];
    if mem[o].next < 0 then m else m[mem[o].next := m[mem[o].next].(prev := mem[o].prev)]
  }

  lemma UnlinkKeepsIds(mem: seq<Cell>, o: nat)
    requires o < |mem| && mem[o].prev < |mem| && mem[o].next < |mem|
    ensures Ids(UnlinkCell(mem, o)) == Ids(mem)
  {
  }

  function UnlinkHead(mem: seq<Cell>, pl: PriceLevel, o: nat): PriceLevel
    requires o < |mem|
  {
    PriceLevel(if mem[o].prev < 0 then mem[o].next else pl.head,
               if mem[o].next < 0 then mem[o].prev else pl.tail,
               (pl.volume - mem[o].quantity) % UINT32_MODULUS)
  }

  function Without<T>(s: seq<T>, k: nat): seq<T>
    requires k < |s|
  {
    s[..k] + s[k + 1..]
  }

  /** Unlinking changes only pointers, and only of the two neighbours. */
  lemma UnlinkCellAt(mem: seq<Cell>, q: seq<nat>, head: int, tail: int, k: nat, i: nat)
    requires Chain(mem, q, head, tail) && k < |q| && i < |q| && i != k
    requires Linked(mem, q, k)
    ensures UnlinkCell(mem, q[k])[q[i]] ==
            (if i == k - 1 then mem[q[i]].(next := if k == |q| - 1 then NULL else q[k + 1])
             else if i == k + 1 then mem[q[i]].(prev := if k == 0 then NULL else q[k - 1])
             else mem[q[i]])
  {
  }

  lemma WithoutAt<T>(s: seq<T>, k: nat, i: nat)
    requires k < |s| && i < |s| - 1
    ensures Without(s, k)[i] == s[if i < k then i else i + 1]
  {
  }

  lemma UnlinkedAt(mem: seq<Cell>, pl: PriceLevel, q: seq<nat>, k: nat, i: nat)
    requires Chain(mem, q, pl.head, pl.tail) && k < |q| && Linked(mem, q, k) && i < |q| - 1
    ensures Without(q, k)[i] < |mem| && Linked(UnlinkCell(mem, q[k]), Without(q, k), i)
  {
    var j := if i < k then i else i + 1;
    WithoutAt(q, k, i);
    if i > 0 { WithoutAt(q, k, i - 1); }
    if i < |q| - 2 { WithoutAt(q, k, i + 1); }
    assert Linked(mem, q, j);
    UnlinkCellAt(mem, q, pl.head, pl.tail, k, j);
  }

  lemma UnlinkedChain(mem: seq<Cell>, pl: PriceLevel, q: seq<nat>, k: nat)
    requires Chain(mem, q, pl.head, pl.tail) && k < |q| && Linked(mem, q, k)
    ensures var h := UnlinkHead(mem, pl, q[k]);
            Chain(UnlinkCell(mem, q[k]), Without(q, k), h.head, h.tail)
  {
    var m, r := UnlinkCell(mem, q[k]), Without(q, k);
    forall i | 0 <= i < |r|
      ensures r[i] < |m| && Linked(m, r, i)
    {
      UnlinkedAt(mem, pl, q, k, i);
    }
    forall i, j | 0 <= i < j < |r|
      ensures r[i] != r[j]
    {
      WithoutAt(q, k, i);
      WithoutAt(q, k, j);
    }
    if r != [] {
      WithoutAt(q, k, 0);
      WithoutAt(q, k, |r| - 1);
    }
  }

  lemma UnlinkedShows(mem: seq<Cell>, pl: PriceLevel, q: seq<nat>, level: seq<Quote>, p: nat, k: nat)
    requires Chain(mem, q, pl.head, pl.tail) && Shows(mem, q, level, p) && k < |q| && Linked(mem, q, k)
    ensures Shows(UnlinkCell(mem, q[k]), Without(q, k), Without(level, k), p)
  {
    var m, r := UnlinkCell(mem, q[k]), Without(q, k);
    forall i | 0 <= i < |r|
      ensures r[i] < |m| && Says(m[r[i]]) == Without(level, k)[i] && Without(level, k)[i].price == p
    {
      var j := if i < k then i else i + 1;
      UnlinkCellAt(mem, q, pl.head, pl.tail, k, j);
      assert Says(mem[q[j]]) == level[j];
    }
  }

  lemma UnlinkedLevelOk(mem: seq<Cell>, pl: PriceLevel, q: seq<nat>, level: seq<Quote>, p: nat, k: nat)
    requires LevelOk(mem, pl, q, level, p) && k < |q| && Linked(mem, q, k)
    ensures LevelOk(UnlinkCell(mem, q[k]), UnlinkHead(mem, pl, q[k]), Without(q, k), Without(level, k), p)
  {
    UnlinkedChain(mem, pl, q, k);
    UnlinkedShows(mem, pl, q, level, p, k);
    WeighWithout(level, k);
    VolumeSubtracts(Weigh(OPEN_QUANTITY, level), Weigh(OPEN_QUANTITY, Without(level, k)), level[k].quantity);
    assert Says(mem[q[k]]) == level[k];
  }

  lemma WeighWithout(level: seq<Quote>, k: nat)
    requires k < |level|
    ensures Weigh(OPEN_QUANTITY, level) == Weigh(OPEN_QUANTITY, Without(level, k)) + level[k].quantity
  {
    assert level == level[..k] + ([level[k]] + level[k + 1..]);
    WeighAppend(OPEN_QUANTITY, level[..k], [level[k]] + level[k + 1..]);
    WeighAppend(OPEN_QUANTITY, [level[k]], level[k + 1..]);
    WeighAppend(OPEN_QUANTITY, level[..k], level[k + 1..]);
    assert Weigh(OPEN_QUANTITY, [level[k]]) == level[k].quantity;
  }

  lemma VolumeSubtracts(total: nat, rest: nat, quantity: nat)
    requires total == rest + quantity
    ensures (total % UINT32_MODULUS - quantity) % UINT32_MODULUS == rest % UINT32_MODULUS
  {
  }

  lemma WithoutMembers(q: seq<nat>, k: nat)
    requires k < |q| && forall i, j :: 0 <= i < j < |q| ==> q[i] != q[j]
    ensures forall s :: s in Without(q, k) <==> s in q && s != q[k]
  {
    forall s
      ensures s in Without(q, k) <==> s in q && s != q[k]
    {
      if s in q && s != q[k] {
        var i :| 0 <= i < |q| && q[i] == s;
        assert Without(q, k)[if i < k then i else i - 1] == s;
      }
    }
  }

  /** The cell and its neighbours, which are all that unlinking touches. */
  ghost function Neighbourhood(q: seq<nat>, k: nat): set<nat>
    requires k < |q|
  {
    {q[k], if k == 0 then q[k] else q[k - 1], if k == |q| - 1 then q[k] else q[k + 1]}
  }

  lemma UnlinkTouches(mem: seq<Cell>, q: seq<nat>, k: nat)
    requires k < |q| && (forall i :: 0 <= i < |q| ==> q[i] < |mem|) && Linked(mem, q, k)
    ensures forall s :: 0 <= s < |mem| && s !in Neighbourhood(q, k) ==> UnlinkCell(mem, q[k])[s] == mem[s]
    ensures forall s :: s in Neighbourhood(q, k) ==> s in q
  {
  }

  ghost function DropLink(l: Links, p: nat, k: nat): Links
    requires p < |l.queues| && p < |l.levels| && k < |l.queues[p]| && k < |l.levels[p]|
  {
    Links(l.queues[p := Without(l.queues[p], k)], l.levels[p := Without(l.levels[p], k)], l.linked - {l.queues[p][k]})
  }

  /** What is known of the cell at place `k` of level `p`. */
  lemma LinkedCell(mem: seq<Cell>, heads: seq<PriceLevel>, l: Links, p: nat, k: nat)
    requires Agrees(mem, heads, l) && p < |heads| && k < |l.queues[p]|
    ensures LevelOk(mem, heads[p], l.queues[p], l.levels[p], p) && |l.levels[p]| == |l.queues[p]|
    ensures var o := l.queues[p][k];
            && o < |mem| && o in l.linked && Says(mem[o]) == l.levels[p][k] && mem[o].price == p
            && Linked(mem, l.queues[p], k)
            && NULL <= mem[o].prev < |mem| && NULL <= mem[o].next < |mem| && mem[o].prev != o && mem[o].next != o
            && (k == 0 ==> heads[p].head == o)
  {
    assert LevelAgrees(mem, heads, l, p);
    var q := l.queues[p];
    assert Linked(mem, q, k);
    assert Says(mem[q[k]]) == l.levels[p][k];
  }

  /** The cells linked after cell `k` of level `p` is dropped. */
  lemma DropMembers(mem: seq<Cell>, heads: seq<PriceLevel>, l: Links, p: nat, k: nat)
    requires Agrees(mem, heads, l) && p < |heads| && k < |l.queues[p]|
    requires forall i, j :: 0 <= i < j < |l.queues[p]| ==> l.queues[p][i] != l.queues[p][j]
    ensures var q := l.queues[p];
            && (forall s :: s in q ==> s in l.linked)
            && (forall s :: s in l.linked - {q[k]} <==> (s in l.linked && s !in q) || s in Without(q, k))
  {
    var q := l.queues[p];
    WithoutMembers(q, k);
    forall s | s in q
      ensures s in l.linked
    {
      var i :| 0 <= i < |q| && q[i] == s;
      AtOwnPrice(mem, heads, l, p, i);
    }
  }

  /** Unlinking a cell keeps memory, list heads and links in agreement. */
  lemma RemoveAgrees(mem: seq<Cell>, heads: seq<PriceLevel>, l: Links, p: nat, k: nat)
    requires Agrees(mem, heads, l) && p < |heads| && k < |l.queues[p]| == |l.levels[p]|
    requires l.queues[p][k] < |mem|
    requires NULL <= mem[l.queues[p][k]].prev < |mem| && NULL <= mem[l.queues[p][k]].next < |mem|
    ensures var o := l.queues[p][k];
            && Agrees(UnlinkCell(mem, o), heads[p := UnlinkHead(mem, heads[p], o)], DropLink(l, p, k))
            && forall s :: 0 <= s < |mem| && s !in l.linked ==> UnlinkCell(mem, o)[s] == mem[s]
  {
    LinkedCell(mem, heads, l, p, k);
    var q := l.queues[p];
    var o := q[k];
    UnlinkedLevelOk(mem, heads[p], q, l.levels[p], p, k);
    UnlinkTouches(mem, q, k);
    DropMembers(mem, heads, l, p, k);
    ReplaceLevel(mem, UnlinkCell(mem, o), heads, l, DropLink(l, p, k),
                 p, UnlinkHead(mem, heads[p], o), Without(q, k), Without(l.levels[p], k), Neighbourhood(q, k));
  }

  // ---------- trading with the first cell of a level ----------

  function ReduceCell(c: Cell, t: nat): Cell
    requires t <= c.quantity
  {
    c.(quantity := c.quantity - t)
  }

  lemma ReduceKeepsIds(mem: seq<Cell>, o: nat, t: nat)
    requires o < |mem| && t <= mem[o].quantity
    ensures Ids(mem[o := ReduceCell(mem[o], t)]) == Ids(mem)
  {
  }

  function ReduceHead(pl: PriceLevel, t: nat): PriceLevel {
    pl.(volume := (pl.volume - t) % UINT32_MODULUS)
  }

  ghost function ReduceLink(l: Links, p: nat, t: nat): Links
    requires p < |l.levels| && l.levels[p] != [] && t <= l.levels[p][0].quantity
  {
    l.(levels := l.levels[p := l.levels[p][0 := l.levels[p][0].(quantity := l.levels[p][0].quantity - t)]])
  }

  lemma ReducedLevelOk(mem: seq<Cell>, pl: PriceLevel, q: seq<nat>, level: seq<Quote>, p: nat, t: nat)
    requires LevelOk(mem, pl, q, level, p) && q != [] && t <= mem[q[0]].quantity
    ensures var c := ReduceCell(mem[q[0]], t);
            LevelOk(mem[q[0] := c], ReduceHead(pl, t), q, level[0 := Says(c)], p)
  {
    var c := ReduceCell(mem[q[0]], t);
    var m := mem[q[0] := c];
    forall i | 0 <= i < |q|
      ensures Linked(m, q, i)
    {
      assert Linked(mem, q, i);
    }
    assert Says(mem[q[0]]) == level[0];
    assert level[0 := Says(c)][1..] == level[1..];
    VolumeSubtracts(Weigh(OPEN_QUANTITY, level), Weigh(OPEN_QUANTITY, level[0 := Says(c)]), t);
  }

  /** A trade of `t` units with the head of level `p` keeps memory, list heads and links in agreement. */
  lemma ReduceAgrees(mem: seq<Cell>, heads: seq<PriceLevel>, l: Links, p: nat, t: nat)
    requires Agrees(mem, heads, l) && p < |heads| && l.queues[p] != [] && l.levels[p] != []
    requires t <= l.levels[p][0].quantity
    requires l.queues[p][0] < |mem| && mem[l.queues[p][0]].quantity == l.levels[p][0].quantity
    ensures var o := l.queues[p][0];
            Agrees(mem[o := ReduceCell(mem[o], t)], heads[p := ReduceHead(heads[p], t)], ReduceLink(l, p, t))
  {
    LinkedCell(mem, heads, l, p, 0);
    assert LevelAgrees(mem, heads, l, p);
    var q, level := l.queues[p], l.levels[p];
    var c := ReduceCell(mem[q[0]], t);
    ReducedLevelOk(mem, heads[p], q, level, p, t);
    ReplaceLevel(mem, mem[q[0] := c], heads, l, ReduceLink(l, p, t), p, ReduceHead(heads[p], t), q,
                 level[0 := Says(c)], {q[0]});
  }

  /** A cell that is not linked may change freely. */
  lemma FreeCellAgrees(mem: seq<Cell>, heads: seq<PriceLevel>, l: Links, o: nat, c: Cell)
    requires Agrees(mem, heads, l) && o < |mem| && o !in l.linked
    ensures Agrees(mem[o := c], heads, l)
  {
    var mem' := mem[o := c];
    forall p | 0 <= p < |heads|
      ensures LevelAgrees(mem', heads, l, p)
    {
      assert LevelAgrees(mem, heads, l, p);
      LevelFrame(mem, mem', heads[p], l.queues[p], l.levels[p], p);
    }
    forall s | s in l.linked
      ensures Placed(mem', l, s)
    {
      assert Placed(mem, l, s);
    }
  }
}
