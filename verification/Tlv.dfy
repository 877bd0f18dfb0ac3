/** The binary tag-length-value buffer (src/common/tlv.cpp). The ordered map from tags to values is the
    sequence of its entries in ascending order of tag; numbers are in host order, little-endian. */
module Tlv {
  import opened Bytes

  const HEAD_SIZE: nat := 8
  const VALUE_MAX_LEN: nat := 16777216

  datatype Tlv = Tlv(tag: nat, val: seq<byte>)

  predicate Good(t: Tlv)
  {
    t.tag < TWO32 && 0 < |t.val| <= VALUE_MAX_LEN
  }

  predicate AllGood(ts: seq<Tlv>)
  {
    forall i :: 0 <= i < |ts| ==> Good(ts[i])
  }

  predicate DistinctTags(ts: seq<Tlv>)
  {
    forall i, j :: 0 <= i < j < |ts| ==> ts[i].tag != ts[j].tag
  }

  predicate Ascending(ts: seq<Tlv>)
  {
    forall i, j :: 0 <= i < j < |ts| ==> ts[i].tag < ts[j].tag
  }

  function EncodeOne(t: Tlv): seq<byte>
    requires Good(t)
  {
    Le32(t.tag) + Le32(|t.val|) + t.val
  }

  function Encode(ts: seq<Tlv>): seq<byte>
    requires AllGood(ts)
  {
    if ts == [] then [] else EncodeOne(ts[0]) + Encode(ts[1..])
  }

  /** The items of a buffer in the order they stand, None for a malformed one. */
  function Items(s: seq<byte>): (r: Option<seq<Tlv>>)
    ensures r.Some? ==> AllGood(r.value)
    decreases |s|
  {
    if s == [] then Some([])
    else if |s| < HEAD_SIZE then None
    else
      var tag, len := FromLe32(s[..4]), FromLe32(s[4..8]);
      if len == 0 || len > |s| - HEAD_SIZE || len > VALUE_MAX_LEN then None
      else
        var rest := Items(s[HEAD_SIZE + len..]);
        if rest.None? then None else Some([Tlv(tag, s[HEAD_SIZE..HEAD_SIZE + len])] + rest.value)
  }

  /** An entry in the buffer: tag and length, least significant byte first, then the value. */
  lemma EntryBytes(t: Tlv)
    requires Good(t)
    ensures var s := EncodeOne(t);
      && |s| == 8 + |t.val| && s[8..] == t.val
      && (s[0] as int) + 256 * (s[1] as int) + 65536 * (s[2] as int) + 16777216 * (s[3] as int) == t.tag
      && (s[4] as int) + 256 * (s[5] as int) + 65536 * (s[6] as int) + 16777216 * (s[7] as int) == |t.val|
  {
    var s := EncodeOne(t);
    assert s[..4] == Le32(t.tag) && s[4..8] == Le32(|t.val|);
    Le32Bytes(t.tag);
    Le32Bytes(|t.val|);
    assert s[4] == s[4..8][0] && s[5] == s[4..8][1] && s[6] == s[4..8][2] && s[7] == s[4..8][3];
  }

  /** What is read from any nonempty buffer, by the numbers in its first eight bytes. */
  lemma ItemRead(s: seq<byte>, tag: nat, len: nat)
    requires s != []
    requires |s| >= 8 ==> tag == (s[0] as int) + 256 * (s[1] as int) + 65536 * (s[2] as int) + 16777216 * (s[3] as int)
    requires |s| >= 8 ==> len == (s[4] as int) + 256 * (s[5] as int) + 65536 * (s[6] as int) + 16777216 * (s[7] as int)
    ensures
      if |s| < 8 || len == 0 || 8 + len > |s| || len > 16777216 || Items(s[8 + len..]) == None then Items(s) == None
      else Items(s) == Some([Tlv(tag, s[8..8 + len])] + Items(s[8 + len..]).value)
  {
    if |s| >= 8 {
      HeadNumbers(s);
      ItemStep(s, tag, len);
    }
  }

  lemma HeadNumbers(s: seq<byte>)
    requires |s| >= 8
    ensures FromLe32(s[..4]) == (s[0] as int) + 256 * (s[1] as int) + 65536 * (s[2] as int) + 16777216 * (s[3] as int)
    ensures FromLe32(s[4..8]) == (s[4] as int) + 256 * (s[5] as int) + 65536 * (s[6] as int) + 16777216 * (s[7] as int)
  {
    FromLe32Bytes(s[..4]);
    FromLe32Bytes(s[4..8]);
  }

  lemma ItemStep(s: seq<byte>, tag: nat, len: nat)
    requires |s| >= 8 && tag == FromLe32(s[..4]) && len == FromLe32(s[4..8])
    ensures
      if len == 0 || 8 + len > |s| || len > 16777216 || Items(s[8 + len..]) == None then Items(s) == None
      else Items(s) == Some([Tlv(tag, s[8..8 + len])] + Items(s[8 + len..]).value)
  {
  }

  /** The buffers the parsing constructor takes: well-formed, with no tag twice. */
  predicate Accepted(s: seq<byte>)
  {
    Items(s).Some? && DistinctTags(Items(s).value)
  }

  lemma ItemsOfEncoded(t: Tlv, rest: seq<byte>)
    requires Good(t)
    ensures Items(EncodeOne(t) + rest) == if Items(rest).None? then None else Some([t] + Items(rest).value)
  {
    var s := EncodeOne(t) + rest;
    assert s[..4] == Le32(t.tag) && s[4..8] == Le32(|t.val|);
    Le32RoundTrip(t.tag);
    Le32RoundTrip(|t.val|);
    assert s[HEAD_SIZE..HEAD_SIZE + |t.val|] == t.val && s[HEAD_SIZE + |t.val|..] == rest;
  }

  lemma {:induction false} ItemsEncode(ts: seq<Tlv>)
    requires AllGood(ts)
    ensures Items(Encode(ts)) == Some(ts)
    decreases |ts|
  {
    if ts != [] {
      var t, rest := ts[0], ts[1..];
      ItemsEncode(rest);
      ItemsOfEncoded(t, Encode(rest));
      assert Encode(ts) == EncodeOne(t) + Encode(rest);
      assert ts == [t] + rest;
    }
  }

  /** A well-formed buffer is exactly the encoding of its items. */
  lemma {:induction false} EncodeItems(s: seq<byte>)
    requires Items(s).Some?
    ensures Encode(Items(s).value) == s
    decreases |s|
  {
    if s != [] {
      var len := FromLe32(s[4..8]);
      var t := Tlv(FromLe32(s[..4]), s[HEAD_SIZE..HEAD_SIZE + len]);
      var rest := s[HEAD_SIZE + len..];
      EncodeItems(rest);
      assert Items(s).value[1..] == Items(rest).value;
      EncodeHead(s, t, rest);
    }
  }

  lemma EncodeHead(s: seq<byte>, t: Tlv, rest: seq<byte>)
    requires Good(t) && |s| >= HEAD_SIZE && t.tag == FromLe32(s[..4]) && |t.val| == FromLe32(s[4..8])
    requires HEAD_SIZE + |t.val| <= |s| && t.val == s[HEAD_SIZE..HEAD_SIZE + |t.val|] && rest == s[HEAD_SIZE + |t.val|..]
    ensures EncodeOne(t) + rest == s
  {
    FromLe32RoundTrip(s[..4]);
    FromLe32RoundTrip(s[4..8]);
  }

  // ------------------------------------------------------------ the map

  function Insert(ts: seq<Tlv>, t: Tlv): seq<Tlv>
  {
    if ts == [] || t.tag < ts[0].tag then [t] + ts else [ts[0]] + Insert(ts[1..], t)
  }

  /** The entries in order of tag. */
  function Sort(ts: seq<Tlv>): seq<Tlv>
  {
    if ts == [] then [] else Insert(Sort(ts[..|ts| - 1]), ts[|ts| - 1])
  }

  lemma {:induction false} InsertContents(ts: seq<Tlv>, t: Tlv)
    ensures multiset(Insert(ts, t)) == multiset(ts) + multiset{t}
  {
    if ts == [] || t.tag < ts[0].tag {
    } else {
      InsertContents(ts[1..], t);
      assert ts == [ts[0]] + ts[1..];
    }
  }

  lemma {:induction false} SortContents(ts: seq<Tlv>)
    ensures multiset(Sort(ts)) == multiset(ts)
    decreases |ts|
  {
    if ts != [] {
      var n := |ts| - 1;
      SortContents(ts[..n]);
      InsertContents(Sort(ts[..n]), ts[n]);
      assert ts == ts[..n] + [ts[n]];
    }
  }

  lemma {:induction false} InsertAscending(ts: seq<Tlv>, t: Tlv)
    requires Ascending(ts) && forall i :: 0 <= i < |ts| ==> ts[i].tag != t.tag
    ensures Ascending(Insert(ts, t))
  {
    if ts == [] || t.tag < ts[0].tag {
    } else {
      InsertAscending(ts[1..], t);
      InsertContents(ts[1..], t);
      var r := Insert(ts[1..], t);
      forall j | 0 <= j < |r| ensures ts[0].tag < r[j].tag {
        assert r[j] in multiset(r);
        assert r[j] in multiset(ts[1..]) || r[j] == t;
      }
    }
  }

  lemma {:induction false} SortAscending(ts: seq<Tlv>)
    requires DistinctTags(ts)
    ensures Ascending(Sort(ts))
    decreases |ts|
  {
    if ts != [] {
      var n := |ts| - 1;
      SortAscending(ts[..n]);
      SortContents(ts[..n]);
      var r := Sort(ts[..n]);
      forall i | 0 <= i < |r| ensures r[i].tag != ts[n].tag {
        assert r[i] in multiset(r);
        assert r[i] in multiset(ts[..n]);
      }
      InsertAscending(r, ts[n]);
    }
  }

  lemma {:induction false} InsertLast(ts: seq<Tlv>, t: Tlv)
    requires forall i :: 0 <= i < |ts| ==> ts[i].tag < t.tag
    ensures Insert(ts, t) == ts + [t]
  {
    if ts != [] {
      InsertLast(ts[1..], t);
    }
  }

  lemma {:induction false} SortOfAscending(ts: seq<Tlv>)
    requires Ascending(ts)
    ensures Sort(ts) == ts
    decreases |ts|
  {
    if ts != [] {
      var n := |ts| - 1;
      SortOfAscending(ts[..n]);
      InsertLast(ts[..n], ts[n]);
      assert ts == ts[..n] + [ts[n]];
    }
  }

  lemma SortGood(ts: seq<Tlv>)
    requires AllGood(ts)
    ensures AllGood(Sort(ts))
  {
    SortContents(ts);
    forall i | 0 <= i < |Sort(ts)| ensures Good(Sort(ts)[i]) {
      assert Sort(ts)[i] in multiset(Sort(ts));
      assert Sort(ts)[i] in multiset(ts);
    }
  }

  /** What the parsing constructor builds: nothing from a buffer it does not take. */
  function Parse(s: seq<byte>): seq<Tlv>
  {
    if Accepted(s) then Sort(Items(s).value) else []
  }

  ghost predicate ValidMap(ts: seq<Tlv>)
  {
    AllGood(ts) && Ascending(ts)
  }

  lemma ParseValid(s: seq<byte>)
    ensures ValidMap(Parse(s))
  {
    if Accepted(s) {
      SortAscending(Items(s).value);
      SortGood(Items(s).value);
    }
  }

  /** Copying a map out and parsing it gives the map back. */
  lemma ParseCopied(ts: seq<Tlv>)
    requires ValidMap(ts)
    ensures Accepted(Encode(ts)) && Parse(Encode(ts)) == ts
  {
    ItemsEncode(ts);
    SortOfAscending(ts);
  }

  function BufSize(ts: seq<Tlv>): nat
  {
    if ts == [] then 0 else HEAD_SIZE + |ts[0].val| + BufSize(ts[1..])
  }

  lemma {:induction false} EncodeSize(ts: seq<Tlv>)
    requires AllGood(ts)
    ensures |Encode(ts)| == BufSize(ts)
  {
    if ts != [] {
      EncodeSize(ts[1..]);
    }
  }

  lemma {:induction false} InsertSize(ts: seq<Tlv>, t: Tlv)
    ensures BufSize(Insert(ts, t)) == BufSize(ts) + HEAD_SIZE + |t.val|
  {
    if ts == [] || t.tag < ts[0].tag {
      assert ([t] + ts)[1..] == ts;
    } else {
      InsertSize(ts[1..], t);
      assert ([ts[0]] + Insert(ts[1..], t))[1..] == Insert(ts[1..], t);
    }
  }

  lemma {:induction false} SnocSize(ts: seq<Tlv>, t: Tlv)
    ensures BufSize(ts + [t]) == BufSize(ts) + HEAD_SIZE + |t.val|
  {
    if ts == [] {
      assert ([] + [t])[1..] == [];
    } else {
      assert (ts + [t])[1..] == ts[1..] + [t];
      SnocSize(ts[1..], t);
    }
  }

  lemma {:induction false} SortSize(ts: seq<Tlv>)
    ensures BufSize(Sort(ts)) == BufSize(ts)
    decreases |ts|
  {
    if ts != [] {
      var n := |ts| - 1;
      SortSize(ts[..n]);
      InsertSize(Sort(ts[..n]), ts[n]);
      SnocSize(ts[..n], ts[n]);
      assert ts == ts[..n] + [ts[n]];
    }
  }

  /** Every accepted buffer has the size GetBufSize reports for the result; copying the result out gives
      the items sorted by tag, and the buffer itself exactly when its tags ascend. */
  lemma CopyParsed(s: seq<byte>)
    requires Accepted(s)
    ensures ValidMap(Parse(s)) && BufSize(Parse(s)) == |s|
    ensures Encode(Parse(s)) == Encode(Sort(Items(s).value)) && multiset(Parse(s)) == multiset(Items(s).value)
    ensures Encode(Parse(s)) == s <==> Ascending(Items(s).value)
  {
    var ts := Items(s).value;
    ParseValid(s);
    EncodeItems(s);
    EncodeSize(ts);
    SortSize(ts);
    SortContents(ts);
    if Ascending(ts) {
      SortOfAscending(ts);
    }
    if Encode(Parse(s)) == s {
      ItemsEncode(Parse(s));
    }
  }

  // ------------------------------------------------------------ the object

  class TlvBuf {
    var mTlvMap: seq<Tlv>

    ghost predicate Valid()
      reads this
    {
      ValidMap(mTlvMap)
    }

    constructor ()
      ensures Valid() && mTlvMap == []
    {
      mTlvMap := [];
    }

    /** A value of a wrong length and a tag that is already there are refused. */
    method Append(tag: nat, val: seq<byte>) returns (ok: bool)
      requires Valid() && tag < TWO32
      modifies this
      ensures Valid()
      ensures ok == (0 < |val| <= VALUE_MAX_LEN && forall i :: 0 <= i < |old(mTlvMap)| ==> old(mTlvMap)[i].tag != tag)
      ensures mTlvMap == if ok then Insert(old(mTlvMap), Tlv(tag, val)) else old(mTlvMap)
    {
      if |val| == 0 || |val| > VALUE_MAX_LEN {
        return false;
      }
      var k := 0;
      while k < |mTlvMap| && mTlvMap[k].tag < tag
        invariant k <= |mTlvMap| && forall i :: 0 <= i < k ==> mTlvMap[i].tag < tag
      {
        k := k + 1;
      }
      if k < |mTlvMap| && mTlvMap[k].tag == tag {
        return false;
      }
      var t := Tlv(tag, val);
      InsertAt(mTlvMap, t, k);
      InsertAscending(mTlvMap, t);
      mTlvMap := mTlvMap[..k] + [t] + mTlvMap[k..];
      ok := true;
    }

    /** The map holds the items read so far, and the rest of the buffer continues them. */
    ghost predicate Loading(tlvs: seq<byte>, seen: seq<Tlv>, rest: seq<byte>)
      reads this
    {
      && Valid() && AllGood(seen) && DistinctTags(seen) && mTlvMap == Sort(seen)
      && Items(tlvs) == Joined(seen, Items(rest))
    }

    /** One item of the buffer; false if it ends the parse with an error. */
    method LoadOne(tlvs: seq<byte>, rest: seq<byte>, ghost seen: seq<Tlv>) returns (ok: bool, next: seq<byte>, ghost t: Tlv)
      requires Loading(tlvs, seen, rest) && rest != []
      modifies this
      ensures !ok ==> !Accepted(tlvs)
      ensures ok ==> |next| < |rest| && Loading(tlvs, seen + [t], next)
    {
      next, t := rest, Tlv(0, []);
      if |rest| < HEAD_SIZE {
        return false, next, t;
      }
      var tag, len := FromLe32(rest[..4]), FromLe32(rest[4..8]);
      if len == 0 || len > |rest| - HEAD_SIZE {
        return false, next, t;
      }
      var val := rest[HEAD_SIZE..HEAD_SIZE + len];
      t := Tlv(tag, val);
      next := rest[HEAD_SIZE + len..];
      SameTags(seen, tag);
      SortSnoc(seen, t);
      JoinedStep(seen, t, Items(next));
      ok := Append(tag, val);
      if ok {
        OneMore(seen, t);
      } else if len <= VALUE_MAX_LEN && Items(next).Some? {
        RepeatedTag(seen, t, Items(next).value);
      }
    }

    /** The parsing constructor: an error anywhere leaves the map empty. */
    method Load(tlvs: seq<byte>)
      requires mTlvMap == []
      modifies this
      ensures Valid() && mTlvMap == Parse(tlvs)
    {
      var rest, ok := tlvs, true;
      ghost var seen: seq<Tlv> := [];
      JoinedEnds(Items(tlvs));
      while ok && rest != []
        invariant ok ==> Loading(tlvs, seen, rest)
        invariant !ok ==> !Accepted(tlvs)
        decreases ok, |rest|
      {
        ghost var t;
        ok, rest, t := LoadOne(tlvs, rest, seen);
        seen := seen + [t];
      }
      if !ok {
        mTlvMap := [];
      } else {
        assert seen + [] == seen;
      }
    }

    /** The sum in 32 bits: the size of the encoding exactly when that is below 4 GiB. */
    method GetBufSize() returns (size: nat)
      ensures size == BufSize(mTlvMap) % TWO32
      ensures size == BufSize(mTlvMap) <==> BufSize(mTlvMap) < TWO32
    {
      size := 0;
      var i := 0;
      while i < |mTlvMap|
        invariant i <= |mTlvMap| && 0 <= size < TWO32
        invariant (size + BufSize(mTlvMap[i..])) % TWO32 == BufSize(mTlvMap) % TWO32
      {
        assert mTlvMap[i..][1..] == mTlvMap[i + 1..];
        WrappedSum(size, HEAD_SIZE, |mTlvMap[i].val| + BufSize(mTlvMap[i + 1..]));
        size := (size + HEAD_SIZE) % TWO32;
        WrappedSum(size, |mTlvMap[i].val|, BufSize(mTlvMap[i + 1..]));
        size := (size + |mTlvMap[i].val|) % TWO32;
        i := i + 1;
      }
    }

    /** The front of the destination becomes the encoding of the map; a short one is left alone. */
    method CopyToBuf(dst: array<byte>) returns (ok: bool)
      requires Valid() && BufSize(mTlvMap) < TWO32
      modifies dst
      ensures ok == (dst.Length >= BufSize(mTlvMap))
      ensures ok ==> dst[..BufSize(mTlvMap)] == Encode(mTlvMap)
      ensures forall i :: (if ok then BufSize(mTlvMap) else 0) <= i < dst.Length ==> dst[i] == old(dst[i])
    {
      var mysize := GetBufSize();
      if dst.Length < mysize {
        return false;
      }
      var pos, rest := 0, mTlvMap;
      while rest != []
        invariant 0 <= pos <= mysize <= dst.Length && Copied(mTlvMap, dst[..pos], rest)
        invariant forall k :: mysize <= k < dst.Length ==> dst[k] == old(dst[k])
        decreases |rest|
      {
        pos := CopyOne(dst, pos, rest, mTlvMap);
        rest := rest[1..];
      }
      CopiedAll(mTlvMap, dst[..pos]);
      ok := true;
    }
  }

  lemma WrappedSum(size: nat, n: nat, rest: nat)
    ensures ((size + n) % TWO32 + rest) % TWO32 == (size + n + rest) % TWO32
  {
    var q := (size + n) / TWO32;
    assert size + n + rest == TWO32 * q + ((size + n) % TWO32 + rest);
    Wrap(q, (size + n) % TWO32 + rest);
  }

  lemma Wrap(q: nat, n: nat)
    ensures (TWO32 * q + n) % TWO32 == n % TWO32
  {
    assert TWO32 * q + n == TWO32 * (q + n / TWO32) + n % TWO32;
  }

  /** `done` and the encoding of `rest` make up that of the map. */
  ghost predicate Copied(ts: seq<Tlv>, done: seq<byte>, rest: seq<Tlv>)
    requires AllGood(ts)
  {
    AllGood(rest) && |done| + BufSize(rest) == BufSize(ts) && done + Encode(rest) == Encode(ts)
  }

  lemma CopiedNext(ts: seq<Tlv>, done: seq<byte>, rest: seq<Tlv>)
    requires AllGood(ts) && Copied(ts, done, rest) && rest != []
    ensures Copied(ts, done + EncodeOne(rest[0]), rest[1..])
    ensures |done| + |EncodeOne(rest[0])| <= BufSize(ts)
  {
    EncodeStep(done, rest);
  }

  lemma CopiedAll(ts: seq<Tlv>, done: seq<byte>)
    requires AllGood(ts) && Copied(ts, done, [])
    ensures done == Encode(ts) && |done| == BufSize(ts)
  {
    assert done + [] == done;
  }

  lemma EncodeStep(before: seq<byte>, ts: seq<Tlv>)
    requires AllGood(ts) && ts != []
    ensures before + Encode(ts) == before + EncodeOne(ts[0]) + Encode(ts[1..])
    ensures BufSize(ts) == |EncodeOne(ts[0])| + BufSize(ts[1..])
  {
    Associative(before, EncodeOne(ts[0]), Encode(ts[1..]));
  }

  method CopyOne(dst: array<byte>, pos: nat, rest: seq<Tlv>, ghost ts: seq<Tlv>) returns (pos': nat)
    requires AllGood(ts) && pos <= BufSize(ts) <= dst.Length && Copied(ts, dst[..pos], rest) && rest != []
    modifies dst
    ensures pos' <= BufSize(ts) && Copied(ts, dst[..pos'], rest[1..])
    ensures forall k :: BufSize(ts) <= k < dst.Length ==> dst[k] == old(dst[k])
  {
    ghost var done := dst[..pos];
    CopiedNext(ts, done, rest);
    var bytes := EncodeOne(rest[0]);
    Put(dst, pos, bytes);
    pos' := pos + |bytes|;
    assert dst[..pos'] == done + bytes;
  }

  method Put(dst: array<byte>, pos: nat, bytes: seq<byte>)
    requires pos + |bytes| <= dst.Length
    modifies dst
    ensures dst[..pos + |bytes|] == old(dst[..pos]) + bytes
    ensures forall k :: pos + |bytes| <= k < dst.Length ==> dst[k] == old(dst[k])
  {
    forall k | 0 <= k < |bytes| {
      dst[pos + k] := bytes[k];
    }
  }

  function Joined(before: seq<Tlv>, r: Option<seq<Tlv>>): Option<seq<Tlv>>
  {
    if r.None? then None else Some(before + r.value)
  }

  lemma JoinedEnds(r: Option<seq<Tlv>>)
    ensures Joined([], r) == r
  {
    if r.Some? {
      assert [] + r.value == r.value;
    }
  }

  lemma SortSnoc(ts: seq<Tlv>, t: Tlv)
    ensures Sort(ts + [t]) == Insert(Sort(ts), t)
  {
    assert (ts + [t])[..|ts|] == ts;
  }

  lemma JoinedStep(before: seq<Tlv>, t: Tlv, r: Option<seq<Tlv>>)
    ensures Joined(before, if r.None? then None else Some([t] + r.value)) == Joined(before + [t], r)
  {
    if r.Some? {
      assert before + ([t] + r.value) == before + [t] + r.value;
    }
  }

  lemma {:induction false} InsertAt(ts: seq<Tlv>, t: Tlv, k: nat)
    requires k <= |ts| && (forall i :: 0 <= i < k ==> ts[i].tag < t.tag) && (k < |ts| ==> t.tag < ts[k].tag)
    ensures Insert(ts, t) == ts[..k] + [t] + ts[k..]
  {
    if k > 0 {
      InsertAt(ts[1..], t, k - 1);
      assert ts[1..][..k - 1] == ts[1..k] && ts[1..][k - 1..] == ts[k..];
      assert ts[..k] == [ts[0]] + ts[1..k];
    }
  }

  /** The sorted entries have the same tags as the entries read. */
  lemma SameTags(seen: seq<Tlv>, tag: nat)
    ensures (forall i :: 0 <= i < |Sort(seen)| ==> Sort(seen)[i].tag != tag) <==>
      (forall i :: 0 <= i < |seen| ==> seen[i].tag != tag)
  {
    SortContents(seen);
    forall i | 0 <= i < |seen| ensures seen[i] in multiset(Sort(seen)) {
      assert seen[i] in multiset(seen);
    }
    forall i | 0 <= i < |Sort(seen)| ensures Sort(seen)[i] in multiset(seen) {
      assert Sort(seen)[i] in multiset(Sort(seen));
    }
  }

  lemma OneMore(seen: seq<Tlv>, t: Tlv)
    requires AllGood(seen) && DistinctTags(seen) && Good(t) && forall i :: 0 <= i < |seen| ==> seen[i].tag != t.tag
    ensures AllGood(seen + [t]) && DistinctTags(seen + [t])
  {
  }

  lemma RepeatedTag(seen: seq<Tlv>, t: Tlv, rest: seq<Tlv>)
    requires exists i :: 0 <= i < |seen| && seen[i].tag == t.tag
    ensures !DistinctTags(seen + ([t] + rest))
  {
    var i :| 0 <= i < |seen| && seen[i].tag == t.tag;
    var all := seen + ([t] + rest);
    assert all[i] == seen[i] && all[|seen|] == t;
  }
}
