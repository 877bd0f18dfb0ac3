/** The size-bucketed memory pool (src/common/memory_pool.cpp). Time is a number of clock ticks; the
    addresses malloc returns are parameters. */
module MemoryPool {

  const THRESHOLD: int := 180_000_000_000   // three minutes in nanoseconds

  datatype Block = Block(memory: nat, size: nat, lastFreeTime: int)

  predicate Sorted(list: seq<Block>)
  {
    forall i, j :: 0 <= i < j < |list| ==> list[i].lastFreeTime <= list[j].lastFreeTime
  }

  /** The blocks that are not older than the cutoff, wherever they are in the list. */
  function Kept(list: seq<Block>, cutoff: int): (r: seq<Block>)
    ensures forall b :: b in r <==> b in list && b.lastFreeTime >= cutoff
  {
    if list == [] then []
    else (if list[0].lastFreeTime >= cutoff then [list[0]] else []) + Kept(list[1..], cutoff)
  }

  /** What an erase loop that stops at the first young block leaves. */
  function LeftByScan(list: seq<Block>, cutoff: int): seq<Block>
  {
    if list == [] || list[0].lastFreeTime >= cutoff then list else LeftByScan(list[1..], cutoff)
  }

  lemma {:induction false} AllYoungKept(list: seq<Block>, cutoff: int)
    requires forall b :: b in list ==> b.lastFreeTime >= cutoff
    ensures Kept(list, cutoff) == list
  {
    if list != [] {
      assert list == [list[0]] + list[1..];
      AllYoungKept(list[1..], cutoff);
    }
  }

  predicate OldFirst(list: seq<Block>, cutoff: int)
  {
    forall i, j :: 0 <= i < j < |list| && list[j].lastFreeTime < cutoff ==> list[i].lastFreeTime < cutoff
  }

  lemma OldFirstTail(list: seq<Block>, cutoff: int)
    requires list != [] && list[0].lastFreeTime < cutoff
    ensures OldFirst(list, cutoff) <==> OldFirst(list[1..], cutoff)
  {
    var tail := list[1..];
    if OldFirst(tail, cutoff) {
      forall i, j | 0 <= i < j < |list| && list[j].lastFreeTime < cutoff ensures list[i].lastFreeTime < cutoff {
        if i > 0 {
          assert tail[i - 1] == list[i] && tail[j - 1] == list[j];
        }
      }
    }
  }

  /** Stopping early loses nothing exactly when no old block stands behind a young one. */
  lemma {:induction false} EarlyBreakExact(list: seq<Block>, cutoff: int)
    ensures LeftByScan(list, cutoff) == Kept(list, cutoff) <==> OldFirst(list, cutoff)
  {
    if list == [] {
    } else if list[0].lastFreeTime < cutoff {
      OldFirstTail(list, cutoff);
      EarlyBreakExact(list[1..], cutoff);
    } else if exists j :: 0 < j < |list| && list[j].lastFreeTime < cutoff {
      var j :| 0 < j < |list| && list[j].lastFreeTime < cutoff;
      assert list[j] in list && list[j] !in Kept(list, cutoff);
    } else {
      AllYoungKept(list, cutoff);
    }
  }

  lemma SortedScan(list: seq<Block>, cutoff: int)
    requires Sorted(list)
    ensures LeftByScan(list, cutoff) == Kept(list, cutoff)
  {
    EarlyBreakExact(list, cutoff);
  }

  function Addresses(list: seq<Block>): set<nat>
  {
    set i | 0 <= i < |list| :: list[i].memory
  }

  predicate NoDuplicate(list: seq<Block>)
  {
    forall i, j :: 0 <= i < j < |list| ==> list[i].memory != list[j].memory
  }

  /** A free list of one size: nonempty, sorted by free time, no later than the clock, no address twice. */
  ghost predicate ListOk(list: seq<Block>, size: nat, clock: int)
  {
    && list != [] && Sorted(list) && NoDuplicate(list)
    && forall i :: 0 <= i < |list| ==> list[i].size == size && list[i].lastFreeTime <= clock
  }

  lemma PopOk(list: seq<Block>, size: nat, clock: int)
    requires ListOk(list, size, clock)
    ensures var n := |list| - 1;
      Addresses(list[..n]) == Addresses(list) - {list[n].memory} && (n > 0 ==> ListOk(list[..n], size, clock))
  {
    var n := |list| - 1;
    assert forall p :: p in Addresses(list[..n]) ==> p in Addresses(list);
    forall p | p in Addresses(list) - {list[n].memory} ensures p in Addresses(list[..n]) {
      var i :| 0 <= i < |list| && list[i].memory == p;
      assert list[..n][i].memory == p;
    }
  }

  lemma PushOk(list: seq<Block>, block: Block, clock: int)
    requires list == [] || ListOk(list, block.size, clock)
    requires block.memory !in Addresses(list) && clock <= block.lastFreeTime
    ensures ListOk(list + [block], block.size, block.lastFreeTime)
    ensures Addresses(list + [block]) == Addresses(list) + {block.memory}
  {
    var longer := list + [block];
    assert longer[|list|] == block;
    assert forall i :: 0 <= i < |list| ==> longer[i] == list[i];
  }

  lemma {:induction false} KeptSorted(list: seq<Block>, cutoff: int)
    requires Sorted(list)
    ensures Sorted(Kept(list, cutoff))
  {
    if list != [] {
      KeptSorted(list[1..], cutoff);
      assert forall b :: b in list[1..] ==> list[0].lastFreeTime <= b.lastFreeTime;
    }
  }

  lemma {:induction false} KeptNoDuplicate(list: seq<Block>, cutoff: int)
    requires NoDuplicate(list)
    ensures NoDuplicate(Kept(list, cutoff))
  {
    if list != [] {
      KeptNoDuplicate(list[1..], cutoff);
      assert forall b :: b in list[1..] ==> list[0].memory != b.memory;
    }
  }

  function Old(list: seq<Block>, cutoff: int): set<nat>
  {
    set i | 0 <= i < |list| && list[i].lastFreeTime < cutoff :: list[i].memory
  }

  lemma KeptOk(list: seq<Block>, size: nat, clock: int, cutoff: int)
    requires ListOk(list, size, clock)
    ensures var kept := Kept(list, cutoff);
      Addresses(kept) == Addresses(list) - Old(list, cutoff) && (kept != [] ==> ListOk(kept, size, clock))
  {
    var kept := Kept(list, cutoff);
    KeptSorted(list, cutoff);
    KeptNoDuplicate(list, cutoff);
    forall i | 0 <= i < |kept| ensures kept[i] in list && kept[i].lastFreeTime >= cutoff {
      assert kept[i] in kept;
    }
    forall p | p in Addresses(list) - Old(list, cutoff) ensures p in Addresses(kept) {
      var i :| 0 <= i < |list| && list[i].memory == p;
      assert list[i] in kept;
    }
  }

  type FreeMap = map<nat, seq<Block>>

  /** Each free address lies in the list of its size, and only there. */
  ghost predicate Filed(free: FreeMap, home: map<nat, nat>, clock: int)
  {
    && (forall p :: p in home ==> home[p] in free)
    && forall size :: size in free ==>
         ListOk(free[size], size, clock) && Addresses(free[size]) == set p | p in home && home[p] == size
  }

  /** The free map without the blocks older than the cutoff and without the lists that become empty. */
  function Purged(free: FreeMap, cutoff: int): FreeMap
  {
    map size | size in free && Kept(free[size], cutoff) != [] :: Kept(free[size], cutoff)
  }

  /** Cleanup at time `now`, block by block: exactly those freed less than or just three minutes ago stay, each
      in its list, and no empty list is left. */
  lemma PurgedMeans(free: FreeMap, now: int, size: nat, b: Block)
    ensures var after := Purged(free, now - THRESHOLD);
      && (size in after && b in after[size] <==> size in free && b in free[size] && now - b.lastFreeTime <= 180_000_000_000)
      && (size in after ==> after[size] != [])
  {
    if size in free {
      assert b in Kept(free[size], now - THRESHOLD) <==> b in free[size] && b.lastFreeTime >= now - THRESHOLD;
    }
  }

  /** A free map partway through Cleanup: the lists in `todo` are still as they were. */
  function PartlyPurged(free: FreeMap, cutoff: int, todo: set<nat>): FreeMap
  {
    map size | size in free && (size in todo || Kept(free[size], cutoff) != []) ::
      if size in todo then free[size] else Kept(free[size], cutoff)
  }

  /** The addresses of the old blocks in the lists of the given sizes. */
  function OldIn(free: FreeMap, sizes: set<nat>, cutoff: int): set<nat>
  {
    set size, p | size in sizes && size in free && p in Old(free[size], cutoff) :: p
  }

  lemma PurgedEnds(free: FreeMap, cutoff: int)
    ensures PartlyPurged(free, cutoff, free.Keys) == free && OldIn(free, free.Keys - free.Keys, cutoff) == {}
    ensures PartlyPurged(free, cutoff, {}) == Purged(free, cutoff) && free.Keys - {} == free.Keys
  {
  }

  lemma PurgedStep(free: FreeMap, cutoff: int, todo: set<nat>, size: nat)
    requires size in todo && todo <= free.Keys
    ensures PartlyPurged(free, cutoff, todo - {size}) ==
      SetList(PartlyPurged(free, cutoff, todo), size, Kept(free[size], cutoff))
    ensures OldIn(free, free.Keys - (todo - {size}), cutoff) ==
      OldIn(free, free.Keys - todo, cutoff) + Old(free[size], cutoff)
  {
    assert free.Keys - (todo - {size}) == free.Keys - todo + {size};
  }

  function SetList(free: FreeMap, size: nat, list: seq<Block>): FreeMap
  {
    if list == [] then free - {size} else free[size := list]
  }

  /** A block that goes from the used ones to a free list is live as before. */
  lemma Moved(used: map<nat, Block>, home: map<nat, nat>, ptr: nat, size: nat)
    requires ptr in used && used.Keys !! home.Keys
    ensures (used - {ptr}).Keys !! home[ptr := size].Keys
    ensures (used - {ptr}).Keys + home[ptr := size].Keys == used.Keys + home.Keys
  {
  }

  /** Filing survives the change of one list, when the addresses it gains or loses do. */
  lemma Refiled(free: FreeMap, home: map<nat, nat>, clock: int, size: nat, list: seq<Block>,
                home': map<nat, nat>, clock': int)
    requires Filed(free, home, clock) && clock <= clock'
    requires list != [] ==> ListOk(list, size, clock')
    requires Addresses(list) == set p | p in home' && home'[p] == size
    requires forall p :: p in home' && home'[p] != size ==> p in home && home[p] == home'[p]
    requires forall p :: p in home && home[p] != size ==> p in home' && home'[p] == home[p]
    ensures Filed(SetList(free, size, list), home', clock')
  {
    var after := SetList(free, size, list);
    forall p | p in home' ensures home'[p] in after {
      if home'[p] == size {
        assert p in Addresses(list);
      }
    }
    forall s | s in after && s != size
      ensures ListOk(after[s], s, clock') && Addresses(after[s]) == set p | p in home' && home'[p] == s
    {
      assert (set p | p in home' && home'[p] == s) == (set p | p in home && home[p] == s);
    }
  }

  class Pool {
    var freeMemory: FreeMap
    var usedMemory: map<nat, Block>
    var live: set<nat>              // the heap: what malloc returned and free has not taken back
    ghost var home: map<nat, nat>   // the size under which each free address is filed
    ghost var clock: int            // the latest time read so far

    /** Used and free blocks partition the live ones; free lists are sorted by free time. */
    ghost predicate Valid()
      reads this
    {
      && Filed(freeMemory, home, clock)
      && (forall p :: p in usedMemory ==> usedMemory[p].memory == p && usedMemory[p].size > 0)
      && usedMemory.Keys !! home.Keys
      && live == usedMemory.Keys + home.Keys
      && 0 !in live
    }

    constructor ()
      ensures Valid() && freeMemory == map[] && usedMemory == map[] && live == {}
    {
      freeMemory, usedMemory, live, home, clock := map[], map[], {}, map[], 0;
    }

    /** The reuse branch: the youngest block of that size moves to the used map. */
    method Reuse(size: nat) returns (ret: nat)
      requires Valid() && size in freeMemory && size > 0
      modifies this`freeMemory, this`usedMemory, this`home
      ensures Valid()
      ensures var list := old(freeMemory)[size]; var n := |list| - 1;
        && n >= 0 && ret == list[n].memory && ret in old(live) && ret !in old(usedMemory)
        && usedMemory == old(usedMemory)[ret := list[n]] && usedMemory[ret].size == size
        && freeMemory == SetList(old(freeMemory), size, list[..n])
    {
      var list := freeMemory[size];
      var n := |list| - 1;
      var block := list[n];
      ret := block.memory;
      assert ret in Addresses(list);
      PopOk(list, size, clock);
      Refiled(freeMemory, home, clock, size, list[..n], home - {ret}, clock);
      usedMemory := usedMemory[ret := block];
      home := home - {ret};
      freeMemory := if n == 0 then freeMemory - {size} else freeMemory[size := list[..n]];
    }

    /** `mem` is what malloc returns: 0 when it fails, else an address not in use. */
    method Allocate(size: nat, mem: nat, now: int) returns (ret: nat)
      requires Valid() && mem !in live
      modifies this
      ensures Valid()
      ensures size == 0 ==> ret == 0
      ensures ret == 0 ==>
        freeMemory == old(freeMemory) && usedMemory == old(usedMemory) && live == old(live)
      ensures ret != 0 ==> ret !in old(usedMemory) && ret in usedMemory && usedMemory[ret].size == size
      ensures ret != 0 ==> usedMemory == old(usedMemory)[ret := usedMemory[ret]]
      ensures size > 0 && size in old(freeMemory) ==>
        var list := old(freeMemory)[size]; var n := |list| - 1;
        && n >= 0 && ret == list[n].memory != 0 && live == old(live)
        && freeMemory == SetList(old(freeMemory), size, list[..n])
      ensures size > 0 && size !in old(freeMemory) ==>
        ret == mem && freeMemory == old(freeMemory) && live == if mem == 0 then old(live) else old(live) + {mem}
    {
      if size == 0 {
        return 0;
      }
      if size in freeMemory {
        ret := Reuse(size);
        return;
      }
      if mem == 0 {
        return 0;
      }
      usedMemory := usedMemory[mem := Block(mem, size, now)];
      live := live + {mem};
      ret := mem;
    }

    /** An address that is not in use is ignored; otherwise its block goes to the end of its list. */
    method Deallocate(ptr: nat, now: int)
      requires Valid() && now >= clock
      modifies this
      ensures Valid() && live == old(live)
      ensures ptr !in old(usedMemory) ==> freeMemory == old(freeMemory) && usedMemory == old(usedMemory)
      ensures ptr in old(usedMemory) ==>
        var size := old(usedMemory)[ptr].size;
        && usedMemory == old(usedMemory) - {ptr}
        && freeMemory == old(freeMemory)[size :=
             (if size in old(freeMemory) then old(freeMemory)[size] else []) + [Block(ptr, size, now)]]
    {
      if ptr !in usedMemory {
        return;
      }
      var block := usedMemory[ptr].(lastFreeTime := now);
      usedMemory := usedMemory - {ptr};
      var list := if block.size in freeMemory then freeMemory[block.size] else [];
      assert ptr !in Addresses(list);
      PushOk(list, block, clock);
      Moved(old(usedMemory), home, ptr, block.size);
      Refiled(freeMemory, home, clock, block.size, list + [block], home[ptr := block.size], now);
      freeMemory := freeMemory[block.size := list + [block]];
      home := home[ptr := block.size];
      clock := now;
    }

    /** The inner erase loop, on one free list. */
    method PurgeList(list: seq<Block>, cutoff: int) returns (rest: seq<Block>, freed: set<nat>)
      requires Sorted(list)
      ensures rest == Kept(list, cutoff) && freed == Old(list, cutoff)
    {
      rest, freed := list, {};
      ghost var k := 0;
      while rest != [] && rest[0].lastFreeTime < cutoff
        invariant k <= |list| && rest == list[k..]
        invariant LeftByScan(list, cutoff) == LeftByScan(rest, cutoff)
        invariant forall i :: 0 <= i < k ==> list[i].lastFreeTime < cutoff
        invariant freed == set i | 0 <= i < k :: list[i].memory
        decreases |rest|
      {
        freed := freed + {rest[0].memory};
        rest := rest[1..];
        k := k + 1;
      }
      SortedScan(list, cutoff);
    }

    /** One turn of the outer loop. */
    method PurgeSize(size: nat, cutoff: int)
      requires Valid() && size in freeMemory
      modifies this`freeMemory, this`live, this`home
      ensures Valid()
      ensures freeMemory == SetList(old(freeMemory), size, Kept(old(freeMemory)[size], cutoff))
      ensures live == old(live) - Old(old(freeMemory)[size], cutoff)
    {
      var list := freeMemory[size];
      KeptOk(list, size, clock, cutoff);
      var rest, freed := PurgeList(list, cutoff);
      assert freed <= Addresses(list);
      Refiled(freeMemory, home, clock, size, rest, home - freed, clock);
      live := live - freed;
      home := home - freed;
      freeMemory := if rest == [] then freeMemory - {size} else freeMemory[size := rest];
    }

    /** Exactly the blocks older than the cutoff go back to the heap: the early break of the inner
        loop misses none, because every list is sorted. */
    method Cleanup(now: int)
      requires Valid()
      modifies this`freeMemory, this`live, this`home
      ensures Valid()
      ensures freeMemory == Purged(old(freeMemory), now - THRESHOLD)
      ensures live == old(live) - OldIn(old(freeMemory), old(freeMemory).Keys, now - THRESHOLD)
    {
      var cutoff := now - THRESHOLD;
      var todo := freeMemory.Keys;
      PurgedEnds(freeMemory, cutoff);
      while todo != {}
        invariant Valid() && todo <= old(freeMemory).Keys
        invariant freeMemory == PartlyPurged(old(freeMemory), cutoff, todo)
        invariant live == old(live) - OldIn(old(freeMemory), old(freeMemory).Keys - todo, cutoff)
        decreases todo
      {
        var size :| size in todo;
        PurgedStep(old(freeMemory), cutoff, todo, size);
        PurgeSize(size, cutoff);
        todo := todo - {size};
      }
    }
  }
}
