/**
 The cached EDID of the sink and the walks over the data blocks of its extensions (section 7.5 of CEA-861-D): a
 header byte holds the tag in its three high bits and the number of payload bytes in its five low bits.
 */
module Edid {
  import opened Bits

  const BLOCK: nat := 0x80
  const EXTENSION_NUMBER_POS: nat := 0x7E
  const DETAILED_TIMING_OFFSET_POS: nat := 2
  const DATA_BLOCK_START_POS: nat := 4
  const BLOCK_MAP_TAG: Byte := 0xF0
  const VIDEO_TAG: nat := 0x40
  const VSDB_TAG: nat := 0x60
  const VSDB_MIN_LENGTH: nat := 5
  const SAVED_VICS: nat := 16

  function Tag(b: Byte): nat {
    And(b, 0xE0)
  }

  function BlockLen(b: Byte): (n: nat)
    ensures n == b % 32 + 1
  {
    Five(b);
    And(b, 0x1F) + 1
  }

  function Vic(b: Byte): (v: Byte)
    ensures v == b % 128
  {
    Seven(b);
    And(b, 0x7F)
  }

  lemma TagOf(b: Byte)
    ensures Tag(b) == b / 32 * 32
  {
    hide And, Shr;
    assert Shl(7, 4) == 112 && Shl(7, 5) == 224 by { Shl4(7); }
    AndField(b, 7, 5);
    Five(b);
    Three(b / 32);
    Shl4(b / 32 % 8);
    assert Shl(b / 32 % 8, 5) == 2 * Shl(b / 32 % 8, 4);
  }

  // Reading.

  function Sum(s: seq<Byte>): nat {
    if s == [] then 0 else Sum(s[..|s| - 1]) + s[|s| - 1]
  }

  predicate ChecksumOk(s: seq<Byte>) {
    Sum(s) % 256 == 0
  }

  /** A block is right with exactly one last byte. */
  lemma ChecksumCompletes(s: seq<Byte>, last: Byte)
    ensures ChecksumOk(s + [last]) <==> last == (256 - Sum(s) % 256) % 256
  {
    hide Sum;
    SumOfMore(s, last);
    Completes(Sum(s), last);
  }

  lemma SumOfMore(s: seq<Byte>, last: Byte)
    ensures Sum(s + [last]) == Sum(s) + last
  {
    assert (s + [last])[..|s|] == s;
  }

  lemma Completes(sum: nat, last: Byte)
    ensures (sum + last) % 256 == 0 <==> last == (256 - sum % 256) % 256
  {
  }

  /** Sum and index are kept in unsigned bytes; the index passes the end of a block, which has 128 bytes. */
  method CalcChecksum(buffer: seq<Byte>) returns (ok: bool)
    requires |buffer| < 256
    ensures ok <==> ChecksumOk(buffer)
  {
    var sum: Byte := 0;
    for i := 0 to |buffer|
      invariant sum == Sum(buffer[..i]) % 256
    {
      assert buffer[..i + 1][..i] == buffer[..i];
      sum := (sum + buffer[i]) % 256;
    }
    assert buffer[..|buffer|] == buffer;
    ok := sum == 0;
  }

  /** The sink behind the DDC bus; a read may fail unless the bus is healthy. */
  class Ddc {
    const blocks: seq<seq<Byte>>
    const healthy: bool

    ghost predicate Valid() {
      |blocks| > 0 && forall b <- blocks :: |b| == BLOCK
    }

    constructor (blocks: seq<seq<Byte>>, healthy: bool)
      requires |blocks| > 0 && forall b <- blocks :: |b| == BLOCK
      ensures Valid() && this.blocks == blocks && this.healthy == healthy
    {
      this.blocks, this.healthy := blocks, healthy;
    }

    method ReadEdidBlock(blockNum: nat) returns (ok: bool, out: seq<Byte>)
      requires Valid()
      ensures ok ==> blockNum < |blocks| && out == blocks[blockNum] && ChecksumOk(out)
      ensures healthy && blockNum < |blocks| && ChecksumOk(blocks[blockNum]) ==> ok
    {
      var lucky: bool := *;
      if blockNum >= |blocks| || !(healthy || lucky) {
        return false, [];
      }
      out := blocks[blockNum];
      ok := CalcChecksum(out);
    }
  }

  function Concat(blocks: seq<seq<Byte>>): seq<Byte> {
    if blocks == [] then [] else Concat(blocks[..|blocks| - 1]) + blocks[|blocks| - 1]
  }

  /** The number of extensions that the first block announces. */
  function Announced(blocks: seq<seq<Byte>>): nat
    requires |blocks| > 0 && |blocks[0]| == BLOCK
  {
    blocks[0][EXTENSION_NUMBER_POS]
  }

  /** The sink's EDID is one that the library accepts. */
  predicate Acceptable(blocks: seq<seq<Byte>>)
    requires |blocks| > 0 && forall b <- blocks :: |b| == BLOCK
  {
    var n := Announced(blocks);
    && n < |blocks| && (forall k | 0 <= k <= n :: ChecksumOk(blocks[k]))
    && (n > 1 ==> blocks[1][0] == BLOCK_MAP_TAG)
  }

  /** Without extensions, or with one, right checksums will do; with more, the first one has to be the block map. */
  lemma AcceptableExactly(blocks: seq<seq<Byte>>)
    requires |blocks| > 0 && forall b <- blocks :: |b| == BLOCK
    requires |blocks| == Announced(blocks) + 1 && forall b <- blocks :: Sum(b) % 256 == 0
    ensures Acceptable(blocks) <==> |blocks| <= 2 || blocks[1][0] == 0xF0
  {
    hide Sum;
  }

  lemma {:induction false} ConcatSize(blocks: seq<seq<Byte>>, k: nat)
    requires forall b <- blocks :: |b| == BLOCK
    requires k < |blocks|
    ensures |Concat(blocks)| == BLOCK * |blocks|
    ensures Concat(blocks)[BLOCK * k..BLOCK * k + BLOCK] == blocks[k]
    decreases |blocks|
  {
    var rest := blocks[..|blocks| - 1];
    if k < |rest| {
      ConcatSize(rest, k);
    } else if rest != [] {
      ConcatSize(rest, 0);
    }
  }

  // The data blocks of an extension.

  /** The walk from `pos` to `end` stays below `limit`. */
  predicate Fits(d: seq<Byte>, pos: nat, end: nat, limit: nat)
    requires limit <= |d|
    decreases limit - pos
  {
    pos >= end || (pos < limit && pos + BlockLen(d[pos]) <= limit && Fits(d, pos + BlockLen(d[pos]), end, limit))
  }

  /** The data blocks that the walk visits, with their headers. */
  function Blocks(d: seq<Byte>, pos: nat, end: nat, limit: nat): (bs: seq<seq<Byte>>)
    requires limit <= |d| && Fits(d, pos, end, limit)
    decreases limit - pos
  {
    if pos >= end then []
    else [d[pos..pos + BlockLen(d[pos])]] + Blocks(d, pos + BlockLen(d[pos]), end, limit)
  }

  function Vics(bytes: seq<Byte>): (vs: seq<Byte>) {
    seq(|bytes|, i requires 0 <= i < |bytes| => Vic(bytes[i]))
  }

  /** The video codes that a data block lists. */
  function VicsOfBlock(b: seq<Byte>): (vs: seq<Byte>) {
    if b != [] && Tag(b[0]) == VIDEO_TAG then Vics(b[1..]) else []
  }

  function VicsOf(bs: seq<seq<Byte>>): (vs: seq<Byte>) {
    if bs == [] then [] else VicsOfBlock(bs[0]) + VicsOf(bs[1..])
  }

  /** The part of the data that the extension `e` occupies; the walk starts after its header. */
  predicate Walkable(d: seq<Byte>, e: nat) {
    var start := e * BLOCK;
    start + BLOCK <= |d| &&
    Fits(d, start + DATA_BLOCK_START_POS, start + d[start + DETAILED_TIMING_OFFSET_POS], start + BLOCK)
  }

  function BlocksOf(d: seq<Byte>, e: nat): (bs: seq<seq<Byte>>)
    requires Walkable(d, e)
  {
    var start := e * BLOCK;
    Blocks(d, start + DATA_BLOCK_START_POS, start + d[start + DETAILED_TIMING_OFFSET_POS], start + BLOCK)
  }

  predicate AllWalkable(d: seq<Byte>, e: nat, last: nat) {
    forall k | e <= k <= last :: Walkable(d, k)
  }

  /** The video codes of the extensions from `e` to `last`, in order. */
  function AllVics(d: seq<Byte>, e: nat, last: nat): (vs: seq<Byte>)
    requires AllWalkable(d, e, last)
    decreases last + 1 - e
  {
    if e > last then [] else VicsOf(BlocksOf(d, e)) + AllVics(d, e + 1, last)
  }

  /** The extensions from `e` on can be walked, up to the one in which the sixteenth code is found. */
  predicate Visitable(d: seq<Byte>, e: nat, last: nat, count: nat)
    decreases last + 1 - e
  {
    e > last || count >= SAVED_VICS ||
    (Walkable(d, e) && Visitable(d, e + 1, last, count + |VicsOf(BlocksOf(d, e))|))
  }

  /** The video codes of those extensions, with `count` codes before. */
  function VicsFrom(d: seq<Byte>, e: nat, last: nat, count: nat): (vs: seq<Byte>)
    requires Visitable(d, e, last, count)
    decreases last + 1 - e
  {
    if e > last || count >= SAVED_VICS then []
    else
      var vs := VicsOf(BlocksOf(d, e));
      vs + VicsFrom(d, e + 1, last, count + |vs|)
  }

  function Min(a: nat, b: nat): nat {
    if a < b then a else b
  }

  /** The HDMI vendor block: its tag, the identifier 0x000C03 and enough payload. */
  predicate IsVsdb(d: seq<Byte>, p: nat)
    requires p + 3 < |d|
  {
    Tag(d[p]) == VSDB_TAG && d[p + 1] == 0x03 && d[p + 2] == 0x0C && d[p + 3] == 0 && BlockLen(d[p]) > VSDB_MIN_LENGTH
  }

  /** Where the blocks that the walk visits start. */
  function Starts(d: seq<Byte>, pos: nat, end: nat, limit: nat): (ps: seq<nat>)
    requires limit <= |d| && Fits(d, pos, end, limit)
    ensures forall p <- ps :: pos <= p < end && p < limit
    decreases limit - pos
  {
    if pos >= end then [] else [pos] + Starts(d, pos + BlockLen(d[pos]), end, limit)
  }

  function StartsOf(d: seq<Byte>, e: nat): (ps: seq<nat>)
    requires Walkable(d, e)
    ensures forall p <- ps :: e * BLOCK + DATA_BLOCK_START_POS <= p < (e + 1) * BLOCK
  {
    var start := e * BLOCK;
    Starts(d, start + DATA_BLOCK_START_POS, start + d[start + DETAILED_TIMING_OFFSET_POS], start + BLOCK)
  }

  // The library.

  /** `ret` is the first vendor block of the extension, or 0 if there is none. */
  predicate FirstVsdb(d: seq<Byte>, e: nat, ret: nat)
    requires Walkable(d, e) && forall p <- StartsOf(d, e) :: p + 3 < |d|
  {
    && (ret != 0 ==> ret in StartsOf(d, e) && IsVsdb(d, ret))
    && forall p <- StartsOf(d, e) :: (ret == 0 || p < ret) ==> !IsVsdb(d, p)
  }

  class EdidCache {
    var data: array?<Byte>
    var gExtensions: nat
    const aVic: array<Byte>

    ghost predicate Valid()
      reads this, data
    {
      aVic.Length == SAVED_VICS && (data != null ==> data.Length == (gExtensions + 1) * BLOCK && data != aVic)
    }

    constructor ()
      ensures data == null && fresh(aVic) && Valid()
    {
      data, gExtensions := null, 0;
      aVic := new Byte[SAVED_VICS](i => 0);
    }

    method EdidReset()
      modifies this`data
      ensures data == null
    {
      data := null;
    }

    /** Fills the cache with the announced blocks of the sink, or leaves it empty; a filled cache stays as it is. */
    method EdidRead(ddc: Ddc) returns (ok: bool)
      requires Valid() && ddc.Valid()
      modifies this`data, this`gExtensions
      ensures Valid() && (ok <==> data != null)
      ensures old(data) != null ==> data == old(data) && gExtensions == old(gExtensions)
      ensures old(data) == null && ok ==>
                fresh(data) && Acceptable(ddc.blocks) && gExtensions == Announced(ddc.blocks) &&
                data[..] == Concat(ddc.blocks[..gExtensions + 1])
      ensures old(data) == null && ddc.healthy && Acceptable(ddc.blocks) ==> ok
    {
      if data != null {
        return true;
      }
      var temp;
      ok, temp := ddc.ReadEdidBlock(0);
      if !ok {
        return;
      }
      gExtensions := temp[EXTENSION_NUMBER_POS];
      var buffer := new Byte[(gExtensions + 1) * BLOCK];
      data := buffer;
      CopyBlock(buffer, 0, temp);
      ok := ReadExtensions(buffer, ddc, gExtensions);
      if !ok {
        EdidReset();
        return;
      }
      if gExtensions > 1 {
        SecondBlock(buffer[..], ddc.blocks[..gExtensions + 1]);
        if buffer[BLOCK] != BLOCK_MAP_TAG {
          EdidReset();
          return false;
        }
      }
      return true;
    }

    // The walks.

    /** The extension is there. */
    predicate Cached(extension: nat)
      reads this
    {
      data != null && extension <= gExtensions
    }

    /** Whether the extension lists the video code. The caller has filled the cache. */
    method IsContainVic(extension: nat, vic: int) returns (ret: int)
      requires Valid() && data != null && (Cached(extension) ==> Walkable(data[..], extension))
      ensures Cached(extension) ==> ret == if vic in VicsOf(BlocksOf(data[..], extension)) then 1 else 0
      ensures !Cached(extension) ==> ret == 0
    {
      if extension > gExtensions {
        return 0;
      }
      ret := WalkForVic(extension, vic);
    }

    method WalkForVic(extension: nat, vic: int) returns (ret: int)
      requires Valid() && data != null && extension <= gExtensions && Walkable(data[..], extension)
      ensures ret == if vic in VicsOf(BlocksOf(data[..], extension)) then 1 else 0
    {
      hide *;
      ghost var d := data[..];
      WalkBegins(d, extension);
      var startAddr := extension * BLOCK;
      var extAddr := startAddr + DATA_BLOCK_START_POS;
      var endAddr := startAddr + data[startAddr + DETAILED_TIMING_OFFSET_POS];
      ghost var limit := startAddr + BLOCK;
      ghost var listed := VicsOf(BlocksOf(d, extension));
      while extAddr < endAddr
        invariant Fits(d, extAddr, endAddr, limit)
        invariant vic in listed <==> vic in VicsOf(Blocks(d, extAddr, endAddr, limit))
        decreases limit - extAddr
      {
        WalkStep(d, extAddr, endAddr, limit, vic);
        var tag := Tag(data[extAddr]);
        var blockLen := BlockLen(data[extAddr]);
        if tag == VIDEO_TAG {
          for i := 1 to blockLen
            invariant forall q | extAddr < q < extAddr + i :: Vic(d[q]) != vic
          {
            if vic == Vic(data[extAddr + i]) {
              VicListed(d, extAddr, blockLen, i);
              return 1;
            }
          }
        }
        VicNotListed(d, extAddr, blockLen, vic);
        extAddr := extAddr + blockLen;
      }
      WalkEnds(d, extAddr, endAddr, limit);
      return 0;
    }

    /** The address of the first vendor block of the extension, or 0. */
    method GetVsdbOffset(extension: nat) returns (ret: nat)
      requires Valid()
      requires Cached(extension) ==>
                 Walkable(data[..], extension) && forall p <- StartsOf(data[..], extension) :: p + 3 < data.Length
      ensures !Cached(extension) ==> ret == 0
      ensures Cached(extension) ==> FirstVsdb(data[..], extension, ret)
    {
      if data == null || extension > gExtensions {
        return 0;
      }
      hide Tag;
      var blockOffset := extension * BLOCK;
      var offset := blockOffset + DATA_BLOCK_START_POS;
      var dtdOffset := data[blockOffset + DETAILED_TIMING_OFFSET_POS];
      ghost var d, limit, end := data[..], blockOffset + BLOCK, blockOffset + dtdOffset;
      ghost var all := StartsOf(d, extension);
      while offset < blockOffset + dtdOffset
        invariant blockOffset + DATA_BLOCK_START_POS <= offset && Fits(d, offset, end, limit)
        invariant forall p <- Starts(d, offset, end, limit) :: p in all
        invariant forall p <- all :: (p < offset && !IsVsdb(d, p)) || p in Starts(d, offset, end, limit)
        decreases limit - offset
      {
        StartsStep(d, offset, end, limit);
        assert offset in Starts(d, offset, end, limit);
        var tag := Tag(data[offset]);
        var blockLen := BlockLen(data[offset]);
        if tag == VSDB_TAG && data[offset + 1] == 0x03 && data[offset + 2] == 0x0C && data[offset + 3] == 0x0 &&
           blockLen > VSDB_MIN_LENGTH {
          return offset;
        }
        offset := offset + blockLen;
      }
      return 0;
    }

    /** Saves the first sixteen video codes of the extensions; the entries behind them keep their values. */
    method SaveVic()
      requires Valid() && data != null
      requires Visitable(data[..], 1, gExtensions, 0)
      modifies aVic
      ensures Saved(aVic[..], old(aVic[..]), VicsFrom(data[..], 1, gExtensions, 0))
    {
      hide *;
      SeparateArrays(this);
      ghost var d, before := data[..], aVic[..];
      ghost var done: seq<Byte> := [];
      NothingSaved(d, before, gExtensions);
      var vicCount: nat := 0;
      var extension := 1;
      while extension <= gExtensions && vicCount < SAVED_VICS
        invariant 1 <= extension <= gExtensions + 1 && data[..] == d
        invariant SavedSoFar(d, aVic[..], before, done, extension, gExtensions) && vicCount == Min(SAVED_VICS, |done|)
      {
        vicCount, done := SaveExtension(extension, vicCount, before, done, gExtensions);
        extension := extension + 1;
      }
      AllSaved(d, aVic[..], before, done, extension, gExtensions, vicCount);
    }

    /** Saves the codes of one extension, behind the codes `done`. */
    method SaveExtension(extension: nat, count: nat, ghost before: seq<Byte>, ghost done: seq<Byte>, ghost last: nat)
      returns (vicCount: nat, ghost now: seq<Byte>)
      requires data != null && data != aVic && aVic.Length == SAVED_VICS && extension <= last
      requires SavedSoFar(data[..], aVic[..], before, done, extension, last)
      requires count == Min(SAVED_VICS, |done|) < SAVED_VICS
      modifies aVic
      ensures data[..] == old(data[..])
      ensures SavedSoFar(data[..], aVic[..], before, now, extension + 1, last) && vicCount == Min(SAVED_VICS, |now|)
    {
      hide *;
      ghost var d := data[..];
      FewerDone(done);
      NextExtension(d, aVic[..], before, done, extension, last);
      WalkBegins(d, extension);
      var startAddr := extension * BLOCK;
      var extAddr := startAddr + DATA_BLOCK_START_POS;
      var endAddr := startAddr + data[startAddr + DETAILED_TIMING_OFFSET_POS];
      ghost var limit := startAddr + BLOCK;
      ghost var all := done + VicsOf(BlocksOf(d, extension));
      now := done;
      vicCount := count;
      while extAddr < endAddr
        invariant Fits(d, extAddr, endAddr, limit) && data[..] == d
        invariant now + VicsOf(Blocks(d, extAddr, endAddr, limit)) == all
        invariant vicCount == Min(SAVED_VICS, |now|) && Saved(aVic[..], before, now)
        decreases limit - extAddr
      {
        NextBlock(d, extAddr, endAddr, limit, now);
        var tag := Tag(data[extAddr]);
        var blockLen := BlockLen(data[extAddr]);
        if tag == VIDEO_TAG {
          vicCount := SaveBlock(extAddr, blockLen, vicCount, before, now);
          now := now + Vics(d[extAddr + 1..extAddr + blockLen]);
        }
        extAddr := extAddr + blockLen;
      }
      WalkEnds(d, extAddr, endAddr, limit);
      assert now + [] == now;
    }

    /** Saves the codes of one video block. */
    method SaveBlock(extAddr: nat, blockLen: nat, count: nat, ghost before: seq<Byte>,
                     ghost done: seq<Byte>) returns (vicCount: nat)
      requires data != null && data != aVic && aVic.Length == SAVED_VICS && blockLen > 0 &&
               extAddr + blockLen <= data.Length
      requires count == Min(SAVED_VICS, |done|) && Saved(aVic[..], before, done)
      modifies aVic
      ensures data[..] == old(data[..])
      ensures var now := done + Vics(data[extAddr + 1..extAddr + blockLen]);
              vicCount == Min(SAVED_VICS, |now|) && Saved(aVic[..], before, now)
    {
      hide Vic;
      ghost var d := data[..];
      vicCount := count;
      var i := 1;
      while i < blockLen && vicCount < SAVED_VICS
        invariant 1 <= i <= blockLen && data[..] == d
        invariant vicCount == Min(SAVED_VICS, |done| + i - 1)
        invariant Saved(aVic[..], before, done + Vics(d[extAddr + 1..extAddr + i]))
      {
        ghost var was := aVic[..];
        aVic[vicCount] := Vic(data[extAddr + i]);
        OneSaved(aVic[..], was, before, done + Vics(d[extAddr + 1..extAddr + i]), Vic(d[extAddr + i]));
        VicsGrow(done, d, extAddr, i);
        vicCount := vicCount + 1;
        i := i + 1;
      }
      if i < blockLen {
        MoreVics(done, d, extAddr, i, blockLen);
        SavedIsFull(aVic[..], before, done + Vics(d[extAddr + 1..extAddr + i]),
            Vics(d[extAddr + i..extAddr + blockLen]));
      }
    }
  }

  lemma SeparateArrays(cache: EdidCache)
    requires cache.Valid() && cache.data != null
    ensures cache.data != cache.aVic && cache.aVic.Length == SAVED_VICS
  {
  }

  /** The array holds the first sixteen of `vs`, and behind them what it held before. */
  predicate Saved(a: seq<Byte>, before: seq<Byte>, vs: seq<Byte>) {
    var n := Min(SAVED_VICS, |vs|);
    |before| == SAVED_VICS && a == vs[..n] + before[n..]
  }

  lemma SixteenFit(a: seq<Byte>, before: seq<Byte>, vs: seq<Byte>)
    requires Saved(a, before, vs) && |vs| == 16
    ensures a == vs
  {
  }

  lemma OneSaved(now: seq<Byte>, was: seq<Byte>, before: seq<Byte>, vs: seq<Byte>, v: Byte)
    requires Saved(was, before, vs) && |vs| < SAVED_VICS && now == was[|vs| := v]
    ensures Saved(now, before, vs + [v])
  {
  }

  lemma SavedIsFull(a: seq<Byte>, before: seq<Byte>, vs: seq<Byte>, more: seq<Byte>)
    requires Saved(a, before, vs) && Min(SAVED_VICS, |vs|) >= SAVED_VICS
    ensures Saved(a, before, vs + more) && Min(SAVED_VICS, |vs + more|) == SAVED_VICS
  {
    assert vs[..SAVED_VICS] == (vs + more)[..SAVED_VICS];
  }

  lemma VicsGrow(s: seq<Byte>, d: seq<Byte>, p: nat, i: nat)
    requires 1 <= i && p + i < |d|
    ensures s + Vics(d[p + 1..p + i + 1]) == s + Vics(d[p + 1..p + i]) + [Vic(d[p + i])]
  {
    hide Vic;
    assert Vics(d[p + 1..p + i + 1]) == Vics(d[p + 1..p + i]) + [Vic(d[p + i])];
  }

  lemma MoreVics(s: seq<Byte>, d: seq<Byte>, p: nat, i: nat, n: nat)
    requires 1 <= i <= n && p + n <= |d|
    ensures s + Vics(d[p + 1..p + n]) == s + Vics(d[p + 1..p + i]) + Vics(d[p + i..p + n])
  {
    hide Vic;
    assert Vics(d[p + 1..p + n]) == Vics(d[p + 1..p + i]) + Vics(d[p + i..p + n]);
  }

  lemma BlockStep(d: seq<Byte>, pos: nat, end: nat, limit: nat)
    requires limit <= |d| && pos < end && Fits(d, pos, end, limit)
    ensures pos + BlockLen(d[pos]) <= limit
    ensures var next := pos + BlockLen(d[pos]);
            && Fits(d, next, end, limit)
            && VicsOf(Blocks(d, pos, end, limit)) == VicsOfBlock(d[pos..next]) + VicsOf(Blocks(d, next, end, limit))
            && VicsOfBlock(d[pos..next]) == if Tag(d[pos]) == VIDEO_TAG then Vics(d[pos + 1..next]) else []
  {
    var next := pos + BlockLen(d[pos]);
    assert d[pos..next][0] == d[pos] && d[pos..next][1..] == d[pos + 1..next];
    var bs := Blocks(d, pos, end, limit);
    assert bs[0] == d[pos..next] && bs[1..] == Blocks(d, next, end, limit);
  }

  lemma WalkBegins(d: seq<Byte>, e: nat)
    requires Walkable(d, e)
    ensures 0 <= e * BLOCK <= e * BLOCK + DATA_BLOCK_START_POS && e * BLOCK + BLOCK <= |d|
    ensures 0 <= e * BLOCK + DETAILED_TIMING_OFFSET_POS < |d|
    ensures var pos, end := e * BLOCK + DATA_BLOCK_START_POS, e * BLOCK + d[e * BLOCK + DETAILED_TIMING_OFFSET_POS];
            Fits(d, pos, end, e * BLOCK + BLOCK) && BlocksOf(d, e) == Blocks(d, pos, end, e * BLOCK + BLOCK)
  {
  }

  lemma WalkEnds(d: seq<Byte>, pos: nat, end: nat, limit: nat)
    requires limit <= |d| && pos >= end && Fits(d, pos, end, limit)
    ensures VicsOf(Blocks(d, pos, end, limit)) == []
  {
  }

  lemma NextBlock(d: seq<Byte>, pos: nat, end: nat, limit: nat, now: seq<Byte>)
    requires limit <= |d| && pos < end && Fits(d, pos, end, limit)
    ensures pos + BlockLen(d[pos]) <= limit
    ensures var next := pos + BlockLen(d[pos]);
            && Fits(d, next, end, limit)
            && now + VicsOf(Blocks(d, pos, end, limit)) ==
               (if Tag(d[pos]) == VIDEO_TAG then now + Vics(d[pos + 1..next]) else now) +
               VicsOf(Blocks(d, next, end, limit))
  {
    hide Vics, Tag, VicsOf, Blocks, Fits;
    BlockStep(d, pos, end, limit);
    assert VicsOf(Blocks(d, pos, end, limit)) ==
           (if Tag(d[pos]) == VIDEO_TAG then Vics(d[pos + 1..pos + BlockLen(d[pos])]) else []) +
           VicsOf(Blocks(d, pos + BlockLen(d[pos]), end, limit));
  }

  /** The codes `done` of the extensions before `e` are saved. */
  ghost predicate SavedSoFar(d: seq<Byte>, a: seq<Byte>, before: seq<Byte>, done: seq<Byte>, e: nat, last: nat) {
    && Visitable(d, 1, last, 0) && 1 <= e && Visitable(d, e, last, |done|)
    && done + VicsFrom(d, e, last, |done|) == VicsFrom(d, 1, last, 0)
    && Saved(a, before, done)
  }

  lemma NothingSaved(d: seq<Byte>, a: seq<Byte>, last: nat)
    requires |a| == SAVED_VICS && Visitable(d, 1, last, 0)
    ensures SavedSoFar(d, a, a, [], 1, last) && Min(SAVED_VICS, 0) == 0
  {
    hide VicsFrom, Visitable;
    assert [] + VicsFrom(d, 1, last, 0) == VicsFrom(d, 1, last, 0);
  }

  lemma FewerDone(done: seq<Byte>)
    requires Min(SAVED_VICS, |done|) < SAVED_VICS
    ensures |done| < SAVED_VICS
  {
  }

  lemma NextExtension(d: seq<Byte>, a: seq<Byte>, before: seq<Byte>, done: seq<Byte>, e: nat, last: nat)
    requires SavedSoFar(d, a, before, done, e, last) && e <= last && |done| < SAVED_VICS
    ensures Walkable(d, e) && Saved(a, before, done)
    ensures var now := done + VicsOf(BlocksOf(d, e));
            forall a' | Saved(a', before, now) :: SavedSoFar(d, a', before, now, e + 1, last)
  {
    hide Walkable, VicsFrom, Saved, BlocksOf, VicsOf;
    VicsFromStep(d, e, last, done);
  }

  lemma AllSaved(d: seq<Byte>, a: seq<Byte>, before: seq<Byte>, done: seq<Byte>, e: nat, last: nat, count: nat)
    requires SavedSoFar(d, a, before, done, e, last) && count == Min(SAVED_VICS, |done|) &&
             (e > last || count >= SAVED_VICS)
    ensures Visitable(d, 1, last, 0) && Saved(a, before, VicsFrom(d, 1, last, 0))
  {
    hide Walkable, Saved;
    assert done + [] == done;
  }

  lemma VicsFromStep(d: seq<Byte>, e: nat, last: nat, done: seq<Byte>)
    requires e <= last && |done| < SAVED_VICS && Visitable(d, e, last, |done|)
    ensures Walkable(d, e)
    ensures var now := done + VicsOf(BlocksOf(d, e));
            Visitable(d, e + 1, last, |now|) &&
            done + VicsFrom(d, e, last, |done|) == now + VicsFrom(d, e + 1, last, |now|)
  {
    hide Walkable, BlocksOf, VicsOf;
    var vs := VicsOf(BlocksOf(d, e));
    assert |done + vs| == |done| + |vs|;
    assert done + (vs + VicsFrom(d, e + 1, last, |done| + |vs|)) == done + vs + VicsFrom(d, e + 1, last, |done| + |vs|);
  }

  lemma {:induction false} VisitedAreFirst(d: seq<Byte>, e: nat, last: nat, count: nat)
    requires AllWalkable(d, e, last)
    ensures Visitable(d, e, last, count)
    ensures VicsFrom(d, e, last, count) <= AllVics(d, e, last)
    ensures VicsFrom(d, e, last, count) == AllVics(d, e, last) || count + |VicsFrom(d, e, last, count)| >= SAVED_VICS
    decreases last + 1 - e
  {
    hide Walkable, BlocksOf, VicsOf;
    if e <= last && count < SAVED_VICS {
      var vs := VicsOf(BlocksOf(d, e));
      VisitedAreFirst(d, e + 1, last, count + |vs|);
    }
  }

  /** If all extensions can be walked, the codes saved are the first sixteen of all of them. */
  lemma SavedAreFirst(d: seq<Byte>, last: nat, a: seq<Byte>, before: seq<Byte>)
    requires AllWalkable(d, 1, last)
    ensures Visitable(d, 1, last, 0)
    ensures Saved(a, before, VicsFrom(d, 1, last, 0)) <==> Saved(a, before, AllVics(d, 1, last))
  {
    VisitedAreFirst(d, 1, last, 0);
    hide Walkable, VicsFrom, AllVics, AllWalkable, Visitable;
    var vs, all := VicsFrom(d, 1, last, 0), AllVics(d, 1, last);
    if vs != all {
      assert all[..SAVED_VICS] == vs[..SAVED_VICS];
    }
  }

  lemma WalkStep(d: seq<Byte>, pos: nat, end: nat, limit: nat, vic: int)
    requires limit <= |d| && pos < end && Fits(d, pos, end, limit)
    ensures pos + BlockLen(d[pos]) <= limit
    ensures var next := pos + BlockLen(d[pos]);
            && Fits(d, next, end, limit)
            && (vic in VicsOf(Blocks(d, pos, end, limit)) <==>
                vic in VicsOfBlock(d[pos..next]) || vic in VicsOf(Blocks(d, next, end, limit)))
  {
    hide Vic, Tag;
    BlockStep(d, pos, end, limit);
  }

  lemma VicListed(d: seq<Byte>, pos: nat, n: nat, i: nat)
    requires pos + n <= |d| && 1 <= i < n && Tag(d[pos]) == VIDEO_TAG
    ensures Vic(d[pos + i]) in VicsOfBlock(d[pos..pos + n])
  {
    hide Vic, Tag;
    assert Vics(d[pos..pos + n][1..])[i - 1] == Vic(d[pos + i]);
  }

  lemma VicNotListed(d: seq<Byte>, pos: nat, n: nat, vic: int)
    requires 0 < n && pos + n <= |d|
    requires Tag(d[pos]) == VIDEO_TAG ==> forall q | pos < q < pos + n :: Vic(d[q]) != vic
    ensures vic !in VicsOfBlock(d[pos..pos + n])
  {
    hide Vic, Tag;
    var bytes := d[pos..pos + n][1..];
    if Tag(d[pos]) == VIDEO_TAG {
      forall k | 0 <= k < |bytes|
        ensures Vics(bytes)[k] != vic
      {
        assert bytes[k] == d[pos + 1 + k];
      }
    }
  }

  lemma StartsStep(d: seq<Byte>, pos: nat, end: nat, limit: nat)
    requires limit <= |d| && pos < end && Fits(d, pos, end, limit)
    ensures Starts(d, pos, end, limit) == [pos] + Starts(d, pos + BlockLen(d[pos]), end, limit)
  {
  }

  // Writing an extension and walking it.

  datatype DataBlock = DataBlock(tag: nat, payload: seq<Byte>) {
    predicate Ok() {
      tag < 8 && |payload| < 32
    }

    function Bytes(): (bytes: seq<Byte>)
      requires Ok()
    {
      [32 * tag + |payload|] + payload
    }
  }

  function Encode(bs: seq<DataBlock>): (bytes: seq<Byte>)
    requires forall b <- bs :: b.Ok()
  {
    if bs == [] then [] else bs[0].Bytes() + Encode(bs[1..])
  }

  function BytesOf(bs: seq<DataBlock>): (r: seq<seq<Byte>>)
    requires forall b <- bs :: b.Ok()
  {
    seq(|bs|, i requires 0 <= i < |bs| => bs[i].Bytes())
  }

  /** The video codes of a list of blocks. */
  function CodesOf(bs: seq<DataBlock>): (vs: seq<Byte>) {
    if bs == [] then [] else (if bs[0].tag == 2 then Vics(bs[0].payload) else []) + CodesOf(bs[1..])
  }

  lemma HeaderReads(b: DataBlock)
    requires b.Ok()
    ensures BlockLen(b.Bytes()[0]) == |b.Bytes()| && (Tag(b.Bytes()[0]) == VIDEO_TAG <==> b.tag == 2)
  {
    hide Tag;
    TagOf(b.Bytes()[0]);
  }

  /** Walking the encoding of a list of blocks, wherever it lies, gives the list back. */
  lemma {:induction false} WalkOfEncoded(before: seq<Byte>, bs: seq<DataBlock>, after: seq<Byte>, limit: nat)
    requires forall b <- bs :: b.Ok()
    requires |before| + |Encode(bs)| <= limit <= |before + Encode(bs) + after|
    ensures var d, end := before + Encode(bs) + after, |before| + |Encode(bs)|;
            && Fits(d, |before|, end, limit)
            && Blocks(d, |before|, end, limit) == BytesOf(bs)
            && VicsOf(Blocks(d, |before|, end, limit)) == CodesOf(bs)
    decreases |bs|
  {
    hide *;
    if bs == [] {
      WalkOfNothing(before, after, limit);
    } else {
      var b, rest := bs[0], Encode(bs[1..]);
      EncodeStep(bs);
      HeaderReads(b);
      WalkOfEncoded(before + b.Bytes(), bs[1..], after, limit) by { Assoc(before, b.Bytes(), rest, after); }
      Assoc(before, b.Bytes(), rest, after);
      WalkOneMore(before + Encode(bs) + after, |before|, |before| + |Encode(bs)|, limit, b, bs);
    }
  }

  lemma Assoc(a: seq<Byte>, b: seq<Byte>, c: seq<Byte>, d: seq<Byte>)
    ensures a + (b + c) + d == (a + b) + c + d
    ensures b != [] ==> (a + (b + c) + d)[|a|] == b[0]
    ensures (a + (b + c) + d)[|a|..|a| + |b|] == b
  {
  }

  lemma EncodeStep(bs: seq<DataBlock>)
    requires bs != [] && forall b <- bs :: b.Ok()
    ensures Encode(bs) == bs[0].Bytes() + Encode(bs[1..]) && bs[0].Bytes() != [] && bs[0].Ok()
  {
  }

  lemma WalkOfNothing(before: seq<Byte>, after: seq<Byte>, limit: nat)
    requires |before| + |Encode([])| <= limit <= |before + Encode([]) + after|
    ensures var d, end := before + Encode([]) + after, |before| + |Encode([])|;
            && Fits(d, |before|, end, limit)
            && Blocks(d, |before|, end, limit) == BytesOf([])
            && VicsOf(Blocks(d, |before|, end, limit)) == CodesOf([])
  {
  }

  lemma WalkOneMore(d: seq<Byte>, pos: nat, end: nat, limit: nat, b: DataBlock, bs: seq<DataBlock>)
    requires bs != [] && b == bs[0] && forall b <- bs :: b.Ok()
    requires pos + |b.Bytes()| <= end <= limit <= |d| && d[pos..pos + |b.Bytes()|] == b.Bytes() &&
             d[pos] == b.Bytes()[0]
    requires BlockLen(d[pos]) == |b.Bytes()| && (Tag(d[pos]) == VIDEO_TAG <==> b.tag == 2)
    requires var next := pos + |b.Bytes()|;
             && Fits(d, next, end, limit) && Blocks(d, next, end, limit) == BytesOf(bs[1..])
             && VicsOf(Blocks(d, next, end, limit)) == CodesOf(bs[1..])
    ensures Fits(d, pos, end, limit) && Blocks(d, pos, end, limit) == BytesOf(bs)
    ensures VicsOf(Blocks(d, pos, end, limit)) == CodesOf(bs)
  {
    hide Tag, Vics, Encode, VicsOf;
    var next := pos + |b.Bytes()|;
    assert pos < end;
    assert Fits(d, pos, end, limit);
    BlockStep(d, pos, end, limit);
    assert Blocks(d, pos, end, limit) == [b.Bytes()] + Blocks(d, next, end, limit);
    assert BytesOf(bs) == [b.Bytes()] + BytesOf(bs[1..]);
    assert d[pos + 1..next] == d[pos..next][1..] == b.payload;
  }

  /** An extension with the given data blocks, padded to the size of a block. */
  function Extension(revision: Byte, bs: seq<DataBlock>, padding: seq<Byte>): (ext: seq<Byte>)
    requires (forall b <- bs :: b.Ok()) && |Encode(bs)| + |padding| == BLOCK - DATA_BLOCK_START_POS
    ensures |ext| == BLOCK
  {
    [2, revision, DATA_BLOCK_START_POS + |Encode(bs)|, 0] + Encode(bs) + padding
  }

  /** The walk over the extension `e` of an EDID gives back the blocks that were written into it. */
  lemma ExtensionRoundTrip(before: seq<Byte>, e: nat, revision: Byte, bs: seq<DataBlock>, padding: seq<Byte>,
                           after: seq<Byte>)
    requires |before| == e * BLOCK && (forall b <- bs :: b.Ok())
    requires |Encode(bs)| + |padding| == BLOCK - DATA_BLOCK_START_POS
    ensures var d := before + Extension(revision, bs, padding) + after;
            Walkable(d, e) && BlocksOf(d, e) == BytesOf(bs) && VicsOf(BlocksOf(d, e)) == CodesOf(bs)
  {
    hide Encode, Fits, Blocks, VicsOf, CodesOf, BytesOf;
    var header: seq<Byte> := [2, revision, DATA_BLOCK_START_POS + |Encode(bs)|, 0];
    var d := before + Extension(revision, bs, padding) + after;
    var start := e * BLOCK;
    LayOut(before, header, Encode(bs), padding, after);
    WalkOfEncoded(before + header, bs, padding + after, start + BLOCK);
  }

  /** The HDMI vendor block: tag 3, and at least five bytes that start with the identifier 03 0C 00. */
  predicate IsVendor(b: DataBlock) {
    b.tag == 3 && |b.payload| >= 5 && b.payload[0] == 0x03 && b.payload[1] == 0x0C && b.payload[2] == 0x00
  }

  /** Where the blocks lie, one behind the other. */
  function Positions(pos: nat, bs: seq<DataBlock>): (ps: seq<nat>)
    requires forall b <- bs :: b.Ok()
    ensures |ps| == |bs|
    decreases |bs|
  {
    if bs == [] then [] else [pos] + Positions(pos + |bs[0].Bytes()|, bs[1..])
  }

  lemma VendorHeader(b: DataBlock)
    requires b.Ok()
    ensures Tag(b.Bytes()[0]) == VSDB_TAG <==> b.tag == 3
    ensures BlockLen(b.Bytes()[0]) == |b.payload| + 1
  {
    hide Tag;
    TagOf(b.Bytes()[0]);
  }

  /** A block in the data is taken for a vendor block exactly if it was written as one. */
  lemma VendorReads(d: seq<Byte>, p: nat, b: DataBlock)
    requires LiesAt(d, p, b) && p + 3 < |d|
    ensures IsVsdb(d, p) <==> IsVendor(b)
  {
    hide Tag;
    VendorHeader(b);
    assert d[p] == b.Bytes()[0];
    if |b.payload| >= 5 {
      assert d[p + 1] == d[p..p + |b.Bytes()|][1] && d[p + 2] == d[p..p + |b.Bytes()|][2];
      assert d[p + 3] == d[p..p + |b.Bytes()|][3];
    }
  }

  predicate LiesAt(d: seq<Byte>, p: nat, b: DataBlock) {
    b.Ok() && p + |b.Bytes()| <= |d| && d[p..p + |b.Bytes()|] == b.Bytes()
  }

  lemma FoundThere(before: seq<Byte>, b: DataBlock, rest: seq<Byte>, after: seq<Byte>)
    requires b.Ok()
    ensures LiesAt(before + (b.Bytes() + rest) + after, |before|, b)
  {
    Assoc(before, b.Bytes(), rest, after);
  }

  /** The blocks lie at their positions. */
  lemma {:induction false} LiesEncoded(before: seq<Byte>, bs: seq<DataBlock>, after: seq<Byte>, j: nat)
    requires (forall b <- bs :: b.Ok()) && j < |bs|
    ensures LiesAt(before + Encode(bs) + after, Positions(|before|, bs)[j], bs[j])
    decreases |bs|
  {
    hide LiesAt, Encode;
    var b, rest := bs[0], Encode(bs[1..]);
    EncodeStep(bs);
    if j == 0 {
      FoundThere(before, b, rest, after);
    } else {
      Assoc(before, b.Bytes(), rest, after);
      LiesEncoded(before + b.Bytes(), bs[1..], after, j - 1);
      assert Positions(|before|, bs)[j] == Positions(|before| + |b.Bytes()|, bs[1..])[j - 1];
    }
  }

  /** The walk visits exactly these positions. */
  lemma {:induction false} StartsOfEncoded(before: seq<Byte>, bs: seq<DataBlock>, after: seq<Byte>, limit: nat)
    requires forall b <- bs :: b.Ok()
    requires |before| + |Encode(bs)| <= limit <= |before + Encode(bs) + after|
    ensures var d, end := before + Encode(bs) + after, |before| + |Encode(bs)|;
            Fits(d, |before|, end, limit) && Starts(d, |before|, end, limit) == Positions(|before|, bs)
    decreases |bs|
  {
    hide *;
    WalkOfEncoded(before, bs, after, limit);
    if bs == [] {
      NoStarts(before, after, limit);
    } else {
      var b, rest := bs[0], Encode(bs[1..]);
      EncodeStep(bs);
      HeaderReads(b);
      Assoc(before, b.Bytes(), rest, after);
      StartsOfEncoded(before + b.Bytes(), bs[1..], after, limit);
      var d, end := before + Encode(bs) + after, |before| + |Encode(bs)|;
      StartsStep(d, |before|, end, limit);
      PositionsStep(|before|, bs);
    }
  }

  lemma PositionsStep(pos: nat, bs: seq<DataBlock>)
    requires bs != [] && forall b <- bs :: b.Ok()
    ensures Positions(pos, bs) == [pos] + Positions(pos + |bs[0].Bytes()|, bs[1..])
  {
  }

  lemma NoStarts(before: seq<Byte>, after: seq<Byte>, limit: nat)
    requires |before| + |Encode([])| <= limit <= |before + Encode([]) + after|
    ensures var d, end := before + Encode([]) + after, |before| + |Encode([])|;
            Fits(d, |before|, end, limit) && Starts(d, |before|, end, limit) == Positions(|before|, [])
  {
  }

  /** `ret` is the position of the first vendor block, or 0 if there is none. */
  ghost predicate FirstVendor(ps: seq<nat>, bs: seq<DataBlock>, ret: nat)
    requires |ps| == |bs|
  {
    && (ret == 0 <==> forall j | 0 <= j < |bs| :: !IsVendor(bs[j]))
    && (ret != 0 ==> exists j :: 0 <= j < |bs| && ret == ps[j] && IsVendor(bs[j]) &&
                                 forall i | 0 <= i < |bs| && IsVendor(bs[i]) :: ps[j] <= ps[i])
  }

  lemma FirstFound(d: seq<Byte>, e: nat, ps: seq<nat>, bs: seq<DataBlock>, ret: nat)
    requires |ps| == |bs| && Walkable(d, e) && StartsOf(d, e) == ps && forall p <- ps :: p + 3 < |d|
    requires FirstVsdb(d, e, ret)
    requires forall j | 0 <= j < |bs| :: ps[j] + 3 < |d| && (IsVsdb(d, ps[j]) <==> IsVendor(bs[j]))
    ensures FirstVendor(ps, bs, ret)
  {
    hide IsVsdb, IsVendor, Walkable, StartsOf;
    if ret == 0 {
      forall j | 0 <= j < |bs|
        ensures !IsVendor(bs[j])
      {
        assert ps[j] in ps;
      }
    } else {
      var j :| 0 <= j < |ps| && ps[j] == ret;
      assert IsVendor(bs[j]);
      forall i | 0 <= i < |bs| && IsVendor(bs[i])
        ensures ps[j] <= ps[i]
      {
        assert ps[i] in ps;
      }
    }
  }

  /** In a written extension, what is found is the address of the first vendor block, or 0 if there is none. */
  lemma VendorRoundTrip(before: seq<Byte>, e: nat, revision: Byte, bs: seq<DataBlock>, padding: seq<Byte>,
                        after: seq<Byte>, ret: nat)
    requires |before| == e * BLOCK && (forall b <- bs :: b.Ok())
    requires |Encode(bs)| + |padding| == BLOCK - DATA_BLOCK_START_POS
    requires var d := before + Extension(revision, bs, padding) + after;
             Walkable(d, e) && (forall p <- StartsOf(d, e) :: p + 3 < |d|) && FirstVsdb(d, e, ret)
    ensures FirstVendor(Positions(e * BLOCK + DATA_BLOCK_START_POS, bs), bs, ret)
  {
    hide IsVsdb, IsVendor, LiesAt, FirstVsdb, FirstVendor, Positions;
    var header: seq<Byte> := [2, revision, DATA_BLOCK_START_POS + |Encode(bs)|, 0];
    var d := before + Extension(revision, bs, padding) + after;
    var start := e * BLOCK;
    var ps := Positions(start + DATA_BLOCK_START_POS, bs);
    WrittenStarts(before, e, revision, bs, padding, after);
    hide StartsOf, Walkable, Extension, Encode;
    forall j | 0 <= j < |bs|
      ensures ps[j] + 3 < |d| && (IsVsdb(d, ps[j]) <==> IsVendor(bs[j]))
    {
      assert ps[j] in StartsOf(d, e);
      VendorReads(d, ps[j], bs[j]);
    }
    FirstFound(d, e, ps, bs, ret);
  }

  lemma WrittenStarts(before: seq<Byte>, e: nat, revision: Byte, bs: seq<DataBlock>, padding: seq<Byte>,
                      after: seq<Byte>)
    requires |before| == e * BLOCK && (forall b <- bs :: b.Ok())
    requires |Encode(bs)| + |padding| == BLOCK - DATA_BLOCK_START_POS
    ensures var d, ps := before + Extension(revision, bs, padding) + after,
                         Positions(e * BLOCK + DATA_BLOCK_START_POS, bs);
            Walkable(d, e) && StartsOf(d, e) == ps && forall j | 0 <= j < |bs| :: LiesAt(d, ps[j], bs[j])
  {
    hide Encode, Fits, LiesAt, Positions, Starts;
    var header: seq<Byte> := [2, revision, DATA_BLOCK_START_POS + |Encode(bs)|, 0];
    var d := before + Extension(revision, bs, padding) + after;
    LayOut(before, header, Encode(bs), padding, after);
    StartsOfEncoded(before + header, bs, padding + after, e * BLOCK + BLOCK);
    forall j | 0 <= j < |bs|
      ensures LiesAt(d, Positions(e * BLOCK + DATA_BLOCK_START_POS, bs)[j], bs[j])
    {
      LiesEncoded(before + header, bs, padding + after, j);
    }
  }

  lemma LayOut(a: seq<Byte>, header: seq<Byte>, body: seq<Byte>, padding: seq<Byte>, after: seq<Byte>)
    requires |header| == DATA_BLOCK_START_POS
    ensures a + (header + body + padding) + after == (a + header) + body + (padding + after)
    ensures (a + (header + body + padding) + after)[|a| + DETAILED_TIMING_OFFSET_POS] == header[2]
  {
  }

  lemma SecondBlock(d: seq<Byte>, blocks: seq<seq<Byte>>)
    requires d == Concat(blocks) && |blocks| > 1 && forall b <- blocks :: |b| == BLOCK
    ensures |d| > BLOCK && d[BLOCK] == blocks[1][0]
  {
    ConcatSize(blocks, 1);
    assert d[BLOCK..BLOCK + BLOCK][0] == d[BLOCK];
  }

  /** Reads the extensions 1 to `last` behind the first block. */
  method ReadExtensions(buffer: array<Byte>, ddc: Ddc, last: nat) returns (ok: bool)
    requires ddc.Valid() && buffer.Length == (last + 1) * BLOCK
    requires buffer[..BLOCK] == ddc.blocks[0] && ChecksumOk(ddc.blocks[0])
    modifies buffer
    ensures ok ==> last < |ddc.blocks| && (forall k | 0 <= k <= last :: ChecksumOk(ddc.blocks[k]))
    ensures ok ==> buffer[..] == Concat(ddc.blocks[..last + 1])
    ensures ddc.healthy && last < |ddc.blocks| && (forall k | 0 <= k <= last :: ChecksumOk(ddc.blocks[k])) ==> ok
  {
    hide ChecksumOk;
    ghost var blocks := ddc.blocks;
    assert blocks[..1] == [blocks[0]] && Concat([blocks[0]]) == blocks[0];
    var block := 1;
    while block <= last
      invariant 1 <= block <= last + 1 && block <= |blocks|
      invariant forall k | 0 <= k < block :: ChecksumOk(blocks[k])
      invariant buffer[..block * BLOCK] == Concat(blocks[..block])
    {
      var temp;
      ok, temp := ddc.ReadEdidBlock(block);
      if !ok {
        return;
      }
      CopyBlock(buffer, block, temp);
      assert blocks[..block + 1][..block] == blocks[..block];
      block := block + 1;
    }
    assert buffer[..] == buffer[..block * BLOCK];
    ok := true;
  }

  method CopyBlock(buffer: array<Byte>, block: nat, bytes: seq<Byte>)
    requires |bytes| == BLOCK && (block + 1) * BLOCK <= buffer.Length
    modifies buffer
    ensures buffer[..(block + 1) * BLOCK] == old(buffer[..block * BLOCK]) + bytes
  {
    forall k | 0 <= k < BLOCK {
      buffer[block * BLOCK + k] := bytes[k];
    }
  }
}
