/** The transfer buffers (src/common/circle_buffer.cpp). The ordered map from addresses to buffers is
    the sequence of its values in ascending order of address; time is in nanoseconds. */
module CircleBuffer {
  import opened Bytes

  const DECREASE_TIME: int := 5
  const SECOND: int := 1_000_000_000

  datatype Data = Data(address: nat, bytes: seq<byte>, used: bool, begin: int)

  predicate Ordered(bs: seq<Data>)
  {
    forall i, j :: 0 <= i < j < |bs| ==> bs[i].address < bs[j].address
  }

  ghost predicate Sound(bs: seq<Data>, size: nat)
  {
    Ordered(bs) && forall i :: 0 <= i < |bs| ==> |bs[i].bytes| == size && bs[i].address > 0
  }

  function InUse(bs: seq<Data>): set<nat>
  {
    set i | 0 <= i < |bs| && bs[i].used :: bs[i].address
  }

  /** Idle for more than five whole seconds. */
  predicate Expired(d: Data, now: int)
  {
    !d.used && (now - d.begin) / SECOND > DECREASE_TIME
  }

  function Retained(bs: seq<Data>, now: int): (r: seq<Data>)
    ensures forall d :: d in r <==> d in bs && !Expired(d, now)
  {
    if bs == [] then []
    else (if Expired(bs[0], now) then [] else [bs[0]]) + Retained(bs[1..], now)
  }

  /** Reclaiming at time `now`, buffer by buffer: one stays exactly if it is in use or has been idle for less
      than six seconds. */
  lemma RetainedIff(bs: seq<Data>, now: int, d: Data)
    ensures d in Retained(bs, now) <==> d in bs && (d.used || now - d.begin < 6_000_000_000)
  {
    assert (now - d.begin) / SECOND > 5 <==> now - d.begin >= 6_000_000_000;
  }

  /** The erase loop has kept `seen` and has `rest` before it. */
  ghost predicate Erasing(all: seq<Data>, seen: seq<Data>, rest: seq<Data>, now: int)
  {
    seen + Retained(rest, now) == Retained(all, now)
  }

  lemma ErasingStep(all: seq<Data>, seen: seq<Data>, rest: seq<Data>, now: int)
    requires rest != [] && Erasing(all, seen, rest, now)
    ensures Erasing(all, if Expired(rest[0], now) then seen else seen + [rest[0]], rest[1..], now)
  {
    if Expired(rest[0], now) {
      assert Retained(rest, now) == Retained(rest[1..], now);
    } else {
      assert seen + ([rest[0]] + Retained(rest[1..], now)) == seen + [rest[0]] + Retained(rest[1..], now);
    }
  }

  lemma ErasingEnds(all: seq<Data>, seen: seq<Data>, now: int)
    requires Erasing(all, seen, [], now)
    ensures seen == Retained(all, now)
  {
    assert seen + [] == seen;
  }

  lemma {:induction false} RetainedOrdered(bs: seq<Data>, now: int)
    requires Ordered(bs)
    ensures Ordered(Retained(bs, now))
  {
    if bs != [] {
      RetainedOrdered(bs[1..], now);
      assert forall d :: d in bs[1..] ==> bs[0].address < d.address;
    }
  }

  lemma RetainedSound(bs: seq<Data>, now: int, size: nat)
    requires Sound(bs, size)
    ensures Sound(Retained(bs, now), size)
  {
    RetainedOrdered(bs, now);
    var r := Retained(bs, now);
    forall i | 0 <= i < |r| ensures |r[i].bytes| == size && r[i].address > 0 {
      assert r[i] in r;
    }
  }

  /** Reclaiming never touches a buffer in use. */
  lemma RetainedKeepsUse(bs: seq<Data>, now: int)
    ensures InUse(Retained(bs, now)) == InUse(bs)
  {
    var r := Retained(bs, now);
    forall a | a in InUse(bs) ensures a in InUse(r) {
      var i :| 0 <= i < |bs| && bs[i].used && bs[i].address == a;
      assert bs[i] in r;
    }
    forall a | a in InUse(r) ensures a in InUse(bs) {
      var i :| 0 <= i < |r| && r[i].used && r[i].address == a;
      assert r[i] in r;
    }
  }

  lemma UseOne(bs: seq<Data>, k: nat, bytes: seq<byte>, now: int)
    requires Ordered(bs) && k < |bs| && !bs[k].used
    ensures InUse(bs[k := Data(bs[k].address, bytes, true, now)]) == InUse(bs) + {bs[k].address}
    ensures bs[k].address !in InUse(bs)
    ensures forall d: Data :: d.address != bs[k].address ==> (d in bs[k := Data(bs[k].address, bytes, true, now)] <==> d in bs)
  {
    var after := bs[k := Data(bs[k].address, bytes, true, now)];
    forall d: Data | d.address != bs[k].address ensures d in after <==> d in bs {
      if d in bs {
        var i :| 0 <= i < |bs| && bs[i] == d;
        assert after[i] == d;
      }
    }
    forall a | a in InUse(bs) ensures a in InUse(after) {
      var i :| 0 <= i < |bs| && bs[i].used && bs[i].address == a;
      assert after[i] == bs[i];
    }
    assert after[k].used;
  }

  lemma ReleaseOne(bs: seq<Data>, k: nat, now: int)
    requires Ordered(bs) && k < |bs|
    ensures InUse(bs[k := bs[k].(used := false, begin := now)]) == InUse(bs) - {bs[k].address}
  {
    var after := bs[k := bs[k].(used := false, begin := now)];
    forall a | a in InUse(bs) - {bs[k].address} ensures a in InUse(after) {
      var i :| 0 <= i < |bs| && bs[i].used && bs[i].address == a;
      assert after[i] == bs[i];
    }
  }

  lemma InsertOne(bs: seq<Data>, k: nat, d: Data)
    requires k <= |bs| && d.used
    ensures InUse(bs[..k] + [d] + bs[k..]) == InUse(bs) + {d.address}
  {
    var after := bs[..k] + [d] + bs[k..];
    assert after[k] == d;
    forall a | a in InUse(bs) ensures a in InUse(after) {
      var i :| 0 <= i < |bs| && bs[i].used && bs[i].address == a;
      assert after[if i < k then i else i + 1] == bs[i];
    }
  }

  class Buffers {
    const size: nat           // GetUsbffsBulkSize()
    var buffers: seq<Data>

    ghost predicate Valid()
      reads this
    {
      Sound(buffers, size)
    }

    constructor (bulkSize: nat)
      ensures Valid() && buffers == [] && size == bulkSize
    {
      size, buffers := bulkSize, [];
    }

    /** The first idle buffer, else a new one; always zeroed, never one in use. `address` is what the
        allocator returns for a new one, 0 when it fails. */
    method Malloc(address: nat, now: int) returns (buf: nat)
      requires Valid() && forall i :: 0 <= i < |buffers| ==> buffers[i].address != address
      modifies this`buffers
      ensures Valid()
      ensures buf == 0 ==> buffers == old(buffers) && address == 0
      ensures buf != 0 ==>
        && buf !in old(InUse(buffers)) && InUse(buffers) == old(InUse(buffers)) + {buf}
        && Data(buf, Zeros(size), true, now) in buffers
        && forall d: Data :: d.address != buf ==> (d in buffers <==> d in old(buffers))
      ensures (exists d :: d in old(buffers) && !d.used) ==>
        && buf != 0 && |buffers| == |old(buffers)|
        && forall d :: d in old(buffers) && !d.used ==> buf <= d.address
      ensures (forall d :: d in old(buffers) ==> d.used) ==> buf == address
    {
      var i := 0;
      while i < |buffers| && buffers[i].used
        invariant i <= |buffers| && forall j :: 0 <= j < i ==> buffers[j].used
      {
        i := i + 1;
      }
      if i < |buffers| {
        UseOne(buffers, i, Zeros(size), now);
        buf := buffers[i].address;
        assert buffers[i] in buffers;
        buffers := buffers[i := Data(buf, Zeros(size), true, now)];
        assert buffers[i] in buffers;
        return;
      }
      if address == 0 {
        return 0;
      }
      buf := Insert(address, now);
    }

    method Insert(address: nat, now: int) returns (buf: nat)
      requires Valid() && address > 0 && forall i :: 0 <= i < |buffers| ==> buffers[i].address != address
      modifies this`buffers
      ensures Valid() && buf == address
      ensures InUse(buffers) == old(InUse(buffers)) + {buf}
      ensures forall d :: d in buffers <==> d in old(buffers) || d == Data(buf, Zeros(size), true, now)
    {
      var k := 0;
      while k < |buffers| && buffers[k].address < address
        invariant k <= |buffers| && forall j :: 0 <= j < k ==> buffers[j].address < address
      {
        k := k + 1;
      }
      var d := Data(address, Zeros(size), true, now);
      InsertOne(buffers, k, d);
      buffers := buffers[..k] + [d] + buffers[k..];
      buf := address;
    }

    /** The memory of a buffer, for its user to work on. */
    method Load(buf: nat) returns (memory: array<byte>)
      requires Valid() && exists d :: d in buffers && d.address == buf
      ensures fresh(memory) && memory.Length == size
      ensures forall d :: d in buffers && d.address == buf ==> memory[..] == d.bytes
    {
      var k := 0;
      while buffers[k].address != buf
        invariant k < |buffers| && forall j :: 0 <= j < k ==> buffers[j].address != buf
        decreases |buffers| - k
      {
        k := k + 1;
      }
      var bytes := buffers[k].bytes;
      memory := new byte[size](i requires 0 <= i < size => bytes[i]);
    }

    /** What the user leaves in that memory. */
    method Store(buf: nat, bytes: seq<byte>)
      requires Valid() && |bytes| == size
      modifies this`buffers
      ensures Valid() && InUse(buffers) == old(InUse(buffers)) && |buffers| == |old(buffers)|
      ensures forall i :: 0 <= i < |buffers| ==>
        buffers[i] == if old(buffers)[i].address == buf then old(buffers)[i].(bytes := bytes) else old(buffers)[i]
    {
      var k := 0;
      while k < |buffers| && buffers[k].address != buf
        invariant k <= |buffers| && forall j :: 0 <= j < k ==> buffers[j].address != buf
      {
        k := k + 1;
      }
      if k < |buffers| {
        buffers := buffers[k := buffers[k].(bytes := bytes)];
        assert forall i :: 0 <= i < |buffers| ==>
          buffers[i].used == old(buffers)[i].used && buffers[i].address == old(buffers)[i].address;
      }
    }

    /** An unknown address is ignored. */
    method Free(buf: nat, now: int)
      requires Valid()
      modifies this`buffers
      ensures Valid() && InUse(buffers) == old(InUse(buffers)) - {buf}
      ensures |buffers| == |old(buffers)|
      ensures forall i :: 0 <= i < |buffers| ==>
        buffers[i] == if old(buffers)[i].address == buf then old(buffers)[i].(used := false, begin := now) else old(buffers)[i]
    {
      var k := 0;
      while k < |buffers| && buffers[k].address != buf
        invariant k <= |buffers| && forall j :: 0 <= j < k ==> buffers[j].address != buf
      {
        k := k + 1;
      }
      if k < |buffers| {
        ReleaseOne(buffers, k, now);
        buffers := buffers[k := buffers[k].(used := false, begin := now)];
      }
    }

    /** Exactly the buffers idle for more than five whole seconds go. */
    method FreeMemory(now: int)
      requires Valid()
      modifies this`buffers
      ensures Valid() && buffers == Retained(old(buffers), now) && InUse(buffers) == old(InUse(buffers))
    {
      RetainedSound(buffers, now, size);
      RetainedKeepsUse(buffers, now);
      buffers := Erase(buffers, now);
    }
  }

  /** The erase loop. */
  method Erase(all: seq<Data>, now: int) returns (left: seq<Data>)
    ensures left == Retained(all, now)
  {
    var seen, rest := [], all;
    left := all;
    while rest != []
      invariant left == seen + rest && Erasing(all, seen, rest, now)
      decreases |rest|
    {
      ErasingStep(all, seen, rest, now);
      seen, rest := EraseOne(seen, rest, now);
      left := seen + rest;
    }
    ErasingEnds(all, seen, now);
    assert seen + [] == seen;
  }

  /** One turn of the erase loop. */
  method EraseOne(seen: seq<Data>, rest: seq<Data>, now: int) returns (seen': seq<Data>, rest': seq<Data>)
    requires rest != []
    ensures rest' == rest[1..] && seen' == if Expired(rest[0], now) then seen else seen + [rest[0]]
  {
    var data := rest[0];
    var remove := false;
    if !data.used {
      remove := (now - data.begin) / SECOND > DECREASE_TIME;
    }
    rest' := rest[1..];
    seen' := if remove then seen else seen + [data];
  }
}
