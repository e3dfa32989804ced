/**
 The batch allocator (json_lib/json_batchallocator.h): blocks of `perAllocation` objects are carved out
 of linked batches, and released blocks form a list linked through their own memory.
 */
module BatchAllocator {
  import opened Bytes

  /**
   A batch: objects from 0 up to `used` are handed out, and it counts as full when that is `end`. Memory
   is reserved for `reserved` objects. The linked list goes on at `next`.
   */
  class Batch {
    var used: nat
    const end: nat
    const reserved: nat
    var next: Batch?

    constructor (objectsPerPage: nat, perAllocation: nat)
      ensures used == 0 && end == objectsPerPage && reserved == perAllocation * objectsPerPage && next == null
    {
      used, end, reserved, next := 0, objectsPerPage, perAllocation * objectsPerPage, null;
    }
  }

  /** A block is known by its batch and the number of its first object there. */
  datatype Block = Block(batch: Batch, offset: nat)

  /** The blocks share an object. */
  predicate Overlap(a: Block, b: Block, perAllocation: nat) {
    a.batch == b.batch && a.offset < b.offset + perAllocation && b.offset < a.offset + perAllocation
  }

  // --------------------------------------------------------------------------- Multiples

  predicate IsMultiple(n: nat, k: nat)
    requires k > 0
  {
    n == 0 || (n >= k && IsMultiple(n - k, k))
  }

  lemma {:induction false} MultiplesApart(a: nat, b: nat, k: nat)
    requires k > 0 && IsMultiple(a, k) && IsMultiple(b, k) && a < b
    ensures a + k <= b && IsMultiple(a + k, k)
  {
    if a >= k {
      MultiplesApart(a - k, b - k, k);
    }
  }

  lemma NextMultiple(n: nat, k: nat)
    requires k > 0 && IsMultiple(n, k)
    ensures IsMultiple(n + k, k)
  {
  }

  /** A set of all blocks of a batch below some offset has one element for each. */
  lemma {:induction false} BlocksBelow(s: set<Block>, batch: Batch, u: nat, k: nat)
    requires k > 0 && IsMultiple(u, k)
    requires forall b :: b in s <==> b.batch == batch && IsMultiple(b.offset, k) && b.offset < u
    ensures |s| * k == u
  {
    if u == 0 {
      assert s == {};
    } else {
      var last := Block(batch, u - k);
      forall b | b in s && b != last ensures b.offset < u - k {
        if b.offset > u - k {
          MultiplesApart(u - k, b.offset, k);
        }
      }
      BlocksBelow(s - {last}, batch, u - k, k);
    }
  }

  // --------------------------------------------------------------------------- The free list

  /** From `head` the links run through the blocks of `free` and then end. */
  predicate Chain(head: Option<Block>, links: map<Block, Option<Block>>, free: seq<Block>)
    decreases |free|
  {
    if free == [] then head == None
    else head == Some(free[0]) && free[0] in links && Chain(links[free[0]], links, free[1..])
  }

  lemma {:induction false} ChainAfterWrite(head: Option<Block>, links: map<Block, Option<Block>>, free: seq<Block>,
                                           b: Block, x: Option<Block>)
    requires Chain(head, links, free) && b !in free
    ensures Chain(head, links[b := x], free)
    decreases |free|
  {
    if free != [] {
      ChainAfterWrite(links[free[0]], links, free[1..], b, x);
    }
  }

  predicate Distinct<T(==)>(s: seq<T>) {
    forall i, j :: 0 <= i < j < |s| ==> s[i] != s[j]
  }

  function SetOf<T>(s: seq<T>): set<T> {
    set x | x in s
  }

  lemma {:induction false} TailOfDistinct<T>(s: seq<T>)
    requires Distinct(s) && s != []
    ensures Distinct(s[1..]) && SetOf(s[1..]) == SetOf(s) - {s[0]} && s[0] in SetOf(s)
  {
    assert s == [s[0]] + s[1..];
  }

  lemma FrontedDistinct<T>(x: T, s: seq<T>)
    requires Distinct(s) && x !in s
    ensures Distinct([x] + s) && SetOf([x] + s) == SetOf(s) + {x} && ([x] + s)[1..] == s
  {
  }

  // --------------------------------------------------------------------------- The allocator

  class Allocator {
    const perAllocation: nat
    const perPage: nat
    var batches: Batch
    var currentBatch: Batch
    var freeHead: Option<Block>
    var links: map<Block, Option<Block>>  // what released blocks hold in their memory

    ghost var list: seq<Batch>      // the batches as they are linked
    ghost var carved: set<Block>    // all blocks ever carved out
    ghost var live: set<Block>      // handed out and not released
    ghost var free: seq<Block>      // released, in the order of the free list

    /** The batches are linked as `list` says, and the first one is the current one. */
    ghost predicate Linked()
      reads this`list, this`batches, this`currentBatch, list
    {
      && list != [] && list[0] == batches == currentBatch && Distinct(list)
      && (forall i :: 0 <= i < |list| - 1 ==> list[i].next == list[i + 1])
      && list[|list| - 1].next == null
    }

    /**
     Whole blocks have been carved out, and all batches but the first are full; the last one is the dummy.
     When blocks divide a page, no batch is used past its end.
     */
    ghost predicate Filled()
      reads this`list, list
    {
      && perAllocation > 0 && perPage > 0
      && (forall i :: 0 <= i < |list| ==>
            && IsMultiple(list[i].used, perAllocation) && list[i].reserved == perAllocation * list[i].end
            && list[i].end == (if i == |list| - 1 then 0 else perPage)
            && (IsMultiple(perPage, perAllocation) ==> list[i].used <= list[i].end))
      && (forall i :: 0 < i < |list| ==> list[i].used == list[i].end)
      && (|list| == 1 ==> list[0].used == 0)
    }

    /** The block lies where its batch has been used. */
    ghost predicate Inside(b: Block)
      reads this`list, list
    {
      b.batch in list && perAllocation > 0 && IsMultiple(b.offset, perAllocation) && b.offset < b.batch.used
    }

    ghost predicate Carvings()
      reads this`list, this`carved, list
    {
      && (forall b :: b in carved ==> Inside(b))
      && (forall i, o: nat :: 0 <= i < |list| && Inside(Block(list[i], o)) ==> Block(list[i], o) in carved)
    }

    /** Every carved block is live or free, none is both, and the free list runs once through the free ones. */
    ghost predicate Accounted()
      reads this`carved, this`live, this`free, this`links, this`freeHead
    {
      carved == live + SetOf(free) && live !! SetOf(free) && Distinct(free) && Chain(freeHead, links, free)
    }

    ghost predicate Valid()
      reads this, list
    {
      Linked() && Filled() && Carvings() && Accounted()
    }

    /** An empty dummy batch stands at first. */
    constructor (perAllocation: nat, perPage: nat)
      requires perAllocation > 0 && perPage >= 16
      ensures Valid() && fresh(list) && live == {} && free == []
      ensures this.perAllocation == perAllocation && this.perPage == perPage
    {
      this.perAllocation, this.perPage := perAllocation, perPage;
      var dummy := new Batch(0, perAllocation);
      batches, currentBatch, freeHead, links := dummy, dummy, None, map[];
      list, carved, live, free := [dummy], {}, {}, [];
    }

    /** Live blocks lie in the used parts of their batches and never overlap one another or a free block. */
    lemma {:induction false} LiveBlocksDisjoint(a: Block, b: Block)
      requires Valid() && a in live && (b in live || b in free) && a != b
      ensures a.batch in list && a.offset + perAllocation <= a.batch.used
      ensures !Overlap(a, b, perAllocation)
    {
      assert Inside(a) && Inside(b);
      var i :| 0 <= i < |list| && list[i] == a.batch;
      MultiplesApart(a.offset, list[i].used, perAllocation);
      if a.batch == b.batch {
        if a.offset < b.offset {
          MultiplesApart(a.offset, b.offset, perAllocation);
        } else {
          MultiplesApart(b.offset, a.offset, perAllocation);
        }
      }
    }

    /** The block lies in the memory reserved for its batch. */
    predicate InReserved(b: Block) {
      b.offset + perAllocation <= b.batch.reserved
    }

    ghost function CarvedFrom(batch: Batch): set<Block>
      reads this`carved
    {
      set b | b in carved && b.batch == batch
    }

    lemma {:induction false} CarvedCount(batch: Batch)
      requires Valid() && batch in list
      ensures perAllocation > 0 && |CarvedFrom(batch)| * perAllocation == batch.used
      ensures batch.reserved <= perPage * perAllocation &&
              (batch.used > 0 ==> batch.reserved == perPage * perAllocation)
      ensures IsMultiple(batch.used, perAllocation) && (IsMultiple(perPage, perAllocation) ==> batch.used <= perPage)
      ensures forall b :: b in CarvedFrom(batch) <==>
              b.batch == batch && IsMultiple(b.offset, perAllocation) &&
              b.offset < batch.used
    {
      hide Accounted;
      var i :| 0 <= i < |list| && list[i] == batch;
      forall b ensures b in CarvedFrom(batch) <==>
          b.batch == batch && IsMultiple(b.offset, perAllocation) &&
          b.offset < batch.used {
        if b.batch == batch && IsMultiple(b.offset, perAllocation) && b.offset < batch.used {
          assert Inside(Block(list[i], b.offset));
        }
      }
      BlocksBelow(CarvedFrom(batch), batch, batch.used, perAllocation);
    }

    /** A batch holds its blocks in the memory reserved exactly when they are at most as many as objects fit a page. */
    lemma {:induction false} BatchInReserved(batch: Batch)
      requires Valid() && batch in list
      ensures (forall b :: b in CarvedFrom(batch) ==> InReserved(b)) <==> |CarvedFrom(batch)| <= perPage
    {
      hide Valid;
      CarvedCount(batch);
      var n, k := |CarvedFrom(batch)|, perAllocation;
      MoreThanReserved(n, k, perPage);
      if n <= perPage {
        forall b | b in CarvedFrom(batch) ensures InReserved(b) {
          MultiplesApart(b.offset, batch.used, k);
        }
      } else {
        LastMultiple(batch.used, k);
        assert Block(batch, batch.used - k) in CarvedFrom(batch);
      }
    }

    /**
     All blocks ever carved out lie in reserved memory exactly when blocks divide a page, or no more
     blocks have been carved out of any page than it counts objects. Otherwise a page never looks full,
     and carving runs on behind its memory.
     */
    lemma {:induction false} InReservedIff()
      requires Valid()
      ensures (forall b :: b in carved ==> InReserved(b)) <==>
              IsMultiple(perPage, perAllocation) || forall batch :: batch in list ==> |CarvedFrom(batch)| <= perPage
    {
      forall batch | batch in list
        ensures (forall b :: b in CarvedFrom(batch) ==> InReserved(b)) <==> |CarvedFrom(batch)| <= perPage
        ensures IsMultiple(perPage, perAllocation) ==> |CarvedFrom(batch)| <= perPage
      {
        BatchInReserved(batch);
        CarvedCount(batch);
        if IsMultiple(perPage, perAllocation) {
          AtMost(|CarvedFrom(batch)|, perAllocation, perPage);
        }
      }
      if forall batch :: batch in list ==> |CarvedFrom(batch)| <= perPage {
        forall b | b in carved ensures InReserved(b) {
          assert Inside(b) && b in CarvedFrom(b.batch);
        }
      }
    }

    /** When blocks do not divide a page, there is only one page. */
    lemma {:induction false} OnePage()
      requires Valid() && !IsMultiple(perPage, perAllocation)
      ensures |list| <= 2 && forall b :: b in carved ==> b.batch == list[0]
    {
      var second := if |list| > 1 then 1 else 0;
      assert IsMultiple(list[second].used, perAllocation);
      forall b | b in carved ensures b.batch == list[0] {
        assert Inside(b);
      }
    }

    lemma {:induction false} Overruns()
      requires Valid() && !IsMultiple(perPage, perAllocation) && |carved| > perPage
      ensures exists b :: b in carved && !InReserved(b)
      ensures free == [] ==> carved == live
    {
      OnePage();
      InReservedIff();
      assert CarvedFrom(list[0]) == carved && list[0] in list;
    }

    /** The head of the free list if there is one, otherwise a new block: never a live one. */
    method Allocate() returns (b: Block)
      requires Valid()
      modifies this, list
      ensures Valid() && b !in old(live) && live == old(live) + {b}
      ensures old(free) != [] ==>
              b == old(free)[0] && free == old(free)[1..] && list == old(list) &&
              carved == old(carved)
      ensures old(free) == [] ==> free == [] && b !in old(carved) && carved == old(carved) + {b}
      ensures list == old(list) || (list != [] && fresh(list[0]) && list[1..] == old(list))
    {
      if freeHead.Some? {
        b := TakeFree();
        return;
      }
      if currentBatch.used == currentBatch.end {
        var batch := FindBatch();
        assert batch == null;
        AddPage();
      }
      b := Carve();
    }

    method TakeFree() returns (b: Block)
      requires Valid() && freeHead.Some?
      modifies this`freeHead, this`free, this`live
      ensures Valid() && b !in old(live) && live == old(live) + {b}
      ensures old(free) != [] && b == old(free)[0] && free == old(free)[1..]
    {
      hide Linked, Filled, Carvings;
      b := freeHead.value;
      TailOfDistinct(free);
      freeHead := links[b];
      free := free[1..];
      live := live + {b};
    }

    /** The search for a batch with room: there is none. */
    method FindBatch() returns (batch: Batch?)
      requires Linked() && Filled()
      ensures batch == null
    {
      hide IsMultiple;
      batch := currentBatch.next;
      ghost var i := 1;
      while batch != null && batch.used == batch.end
        invariant 1 <= i <= |list| && batch == if i < |list| then list[i] else null
        decreases |list| - i
      {
        batch := batch.next;
        i := i + 1;
      }
    }

    /** A new page goes to the head of the list. */
    method AddPage()
      requires Valid() && currentBatch.used == currentBatch.end
      modifies this`batches, this`currentBatch, this`list
      ensures Valid() && currentBatch.used != currentBatch.end
      ensures fresh(currentBatch) && list == [currentBatch] + old(list)
    {
      hide Linked, Filled, Carvings, Accounted;
      var page := new Batch(perPage, perAllocation);
      page.next := batches;
      Prepend(page);
    }

    method Prepend(page: Batch)
      requires Valid() && currentBatch.used == currentBatch.end && page !in list
      requires page.used == 0 && page.end == perPage && page.reserved == perAllocation * perPage && page.next == batches
      modifies this`batches, this`currentBatch, this`list
      ensures Valid() && currentBatch == page && list == [page] + old(list) && page.used != page.end
    {
      assert IsMultiple(0, perAllocation);
      hide Accounted, IsMultiple;
      batches := page;
      currentBatch := page;
      list := [page] + list;
      assert Linked() by {
        hide Filled, Carvings;
      }
      assert Filled() by {
        hide Carvings;
      }
      hide Linked, Filled;
    }

    /** The next block of the current batch. */
    method Carve() returns (b: Block)
      requires Valid() && currentBatch.used != currentBatch.end
      modifies this`carved, this`live, currentBatch
      ensures Valid() && b !in old(carved) && carved == old(carved) + {b} && live == old(live) + {b}
    {
      hide Chain, Linked, Filled, Inside;
      b := Block(currentBatch, currentBatch.used);
      Advance();
      carved, live := carved + {b}, live + {b};
    }

    /** Using up one block more puts just this block inside the batches. */
    method Advance()
      requires Linked() && Filled() && Carvings() && currentBatch.used != currentBatch.end
      modifies currentBatch
      ensures Linked() && Filled()
      ensures var b := Block(currentBatch, old(currentBatch.used));
              b !in carved && forall x :: Inside(x) <==> x in carved || x == b
    {
      hide IsMultiple;
      var used := currentBatch.used;
      NextMultiple(used, perAllocation);
      if IsMultiple(perPage, perAllocation) {
        MultiplesApart(used, currentBatch.end, perAllocation);
      }
      assert !Inside(Block(currentBatch, used));
      currentBatch.used := used + perAllocation;
      assert Linked() && Filled() by {
        hide Carvings, Inside;
      }
      hide Filled;
      forall x | Inside(x) && x != Block(currentBatch, used) ensures x in carved {
        var i :| 0 <= i < |list| && list[i] == x.batch;
        if i == 0 && used < x.offset {
          MultiplesApart(used, x.offset, perAllocation);
        }
        assert x == Block(list[i], x.offset);
      }
    }

    /** Puts a live block at the head of the free list. */
    method Release(b: Block)
      requires Valid() && b in live
      modifies this`links, this`freeHead, this`free, this`live
      ensures Valid() && live == old(live) - {b} && free == [b] + old(free)
    {
      hide Linked, Filled, Carvings;
      ChainAfterWrite(freeHead, links, free, b, freeHead);
      FrontedDistinct(b, free);
      links := links[b := freeHead];
      freeHead := Some(b);
      free := [b] + free;
      live := live - {b};
    }
  }

  lemma {:induction false} MoreThanReserved(n: nat, k: nat, perPage: nat)
    requires k > 0
    ensures n <= perPage <==> n * k <= perPage * k
    ensures n > perPage ==> n * k >= perPage * k + k
  {
    if n > perPage {
      assert n * k == (n - perPage - 1) * k + (perPage + 1) * k;
    } else {
      assert perPage * k == (perPage - n) * k + n * k;
    }
  }

  lemma LastMultiple(n: nat, k: nat)
    requires k > 0 && IsMultiple(n, k) && n > 0
    ensures n >= k && IsMultiple(n - k, k)
  {
  }

  lemma AtMost(n: nat, k: nat, perPage: nat)
    requires k > 0 && n * k <= perPage
    ensures n <= perPage
  {
  }

  /** When blocks do not divide a page, one allocation more than it counts objects leads out of its memory. */
  method Overrun(perAllocation: nat, perPage: nat) returns (a: Allocator)
    requires perAllocation > 0 && perPage >= 16 && !IsMultiple(perPage, perAllocation)
    ensures fresh(a) && a.Valid() && a.perAllocation == perAllocation && a.perPage == perPage
    ensures |a.carved| == perPage + 1 && exists b :: b in a.live && !a.InReserved(b)
  {
    a := new Allocator(perAllocation, perPage);
    for i := 0 to perPage + 1
      invariant a.Valid() && fresh(a) && fresh(a.list) && a.free == [] && |a.carved| == i
    {
      var _ := a.Allocate();
    }
    a.Overruns();
  }

  /** The page allocator for array values is of this kind: blocks of 8 objects, 255 objects in a page. */
  lemma {:induction false} ArrayPagesOverrun()
    ensures !IsMultiple(255, 8)
  {
    var n := 0;
    while n < 31
      invariant 0 <= n <= 31 && IsMultiple(8 * n, 8)
    {
      n := n + 1;
    }
    if IsMultiple(255, 8) {
      MultiplesApart(248, 255, 8);
    }
  }
}
