/** Backing stores: eight areas of a disk, in which a page takes eight consecutive blocks. */
module BackingStore {
  import opened LfsFormat
  import opened LfsDisk

  const MAX_BS := 8
  const MAX_PAGES_PER_BS := 200

  type Page = b: seq<Byte> | |b| == 4096 witness seq(4096, i => 0)

  /** struct bs_entry. */
  datatype Bs = Bs(isopen: bool, isallocated: bool, usecount: int, npages: int)

  /** The blocks that the largest stores take up. */
  ghost predicate Roomy(disk: Disk) { |disk| >= (7 * 205 + 200) * 8 }

  predicate InStore(bs: int, page: int) { 0 <= bs < MAX_BS && 0 <= page < MAX_PAGES_PER_BS }

  /** The first block of a page; the stores lie 205 pages apart. */
  function RdBlk(bs: int, page: int): int { (bs * 205 + page) * 8 }

  /** Different pages, of the same store or of two, share no block. */
  lemma BlocksDisjoint(bs: int, page: int, bs': int, page': int, i: int, i': int)
    requires InStore(bs, page) && InStore(bs', page') && 0 <= i < 8 && 0 <= i' < 8
    ensures RdBlk(bs, page) + i == RdBlk(bs', page') + i' ==> bs == bs' && page == page' && i == i'
    ensures 0 <= RdBlk(bs, page) && RdBlk(bs, page) + 8 <= (7 * 205 + 200) * 8
  {
  }

  function PageByte(disk: Disk, bs: int, page: int, i: int): Byte
    requires Roomy(disk) && InStore(bs, page) && 0 <= i < 4096
  {
    disk[RdBlk(bs, page) + i / 512][i % 512]
  }

  function StoredPage(disk: Disk, bs: int, page: int): Page
    requires Roomy(disk) && InStore(bs, page)
  {
    seq(4096, i requires 0 <= i < 4096 => PageByte(disk, bs, page, i))
  }

  function Piece(pg: Page, i: int): Sector
    requires 0 <= i < 8
  {
    pg[512 * i..512 * i + 512]
  }

  function BlockAfter(disk: Disk, rdBlk: int, pg: Page, n: nat, b: int): Sector
    requires 0 <= b < |disk| && n <= 8
  {
    if rdBlk <= b < rdBlk + n then Piece(pg, b - rdBlk) else disk[b]
  }

  /** The disk with the first n blocks of a page written. */
  function Written(disk: Disk, bs: int, page: int, pg: Page, n: nat): Disk
    requires Roomy(disk) && InStore(bs, page) && n <= 8
  {
    seq(|disk|, b requires 0 <= b < |disk| => BlockAfter(disk, RdBlk(bs, page), pg, n, b))
  }

  /** What is written can be read back, and no other page changes. */
  lemma ReadBack(disk: Disk, bs: int, page: int, pg: Page, bs': int, page': int)
    requires Roomy(disk) && InStore(bs, page) && InStore(bs', page')
    ensures Roomy(Written(disk, bs, page, pg, 8))
    ensures StoredPage(Written(disk, bs, page, pg, 8), bs', page') ==
            if bs == bs' && page == page' then pg else StoredPage(disk, bs', page')
  {
    var disk' := Written(disk, bs, page, pg, 8);
    forall i | 0 <= i < 4096
      ensures PageByte(disk', bs', page', i) == if bs == bs' && page == page' then pg[i] else PageByte(disk, bs', page', i)
    {
      Split(i);
      BlocksDisjoint(bs', page', bs, page, i / 512, i / 512);
      if RdBlk(bs, page) <= RdBlk(bs', page') + i / 512 < RdBlk(bs, page) + 8 {
        BlocksDisjoint(bs', page', bs, page, i / 512, RdBlk(bs', page') + i / 512 - RdBlk(bs, page));
      }
    }
    if bs == bs' && page == page' {
      assert StoredPage(disk', bs', page') == pg;
    } else {
      assert StoredPage(disk', bs', page') == StoredPage(disk, bs', page');
    }
  }

  lemma Split(i: int)
    requires 0 <= i < 4096
    ensures 0 <= i / 512 < 8 && 512 * (i / 512) + i % 512 == i
  {
  }

  /** The store is open and has the page. */
  predicate Served(bstab: seq<Bs>, bs: int, page: int) {
    0 <= bs < MAX_BS == |bstab| && bstab[bs].isopen && 0 <= page < bstab[bs].npages
  }

  /** The write loop of write_bs, past its checks. */
  method WriteBlocks(disk: Disk, bs: int, page: int, pg: Page) returns (disk': Disk)
    requires Roomy(disk) && InStore(bs, page)
    ensures disk' == Written(disk, bs, page, pg, 8)
  {
    var rdBlk := RdBlk(bs, page);
    BlocksDisjoint(bs, page, bs, page, 0, 0);
    disk' := disk;
    var i := 0;
    while i < 8
      invariant 0 <= i <= 8 && disk' == Written(disk, bs, page, pg, i)
    {
      var buf: Sector := pg[i * 512..i * 512 + 512];
      ghost var before := disk';
      disk' := disk'[rdBlk + i := buf];
      forall b | 0 <= b < |disk|
        ensures disk'[b] == Written(disk, bs, page, pg, i + 1)[b]
      {
        assert before[b] == Written(disk, bs, page, pg, i)[b];
      }
      i := i + 1;
    }
  }

  /** The read loop of read_bs, past its checks. */
  method ReadBlocks(disk: Disk, bs: int, page: int) returns (pg: Page)
    requires Roomy(disk) && InStore(bs, page)
    ensures pg == StoredPage(disk, bs, page)
  {
    var rdBlk := RdBlk(bs, page);
    BlocksDisjoint(bs, page, bs, page, 0, 0);
    var dst: seq<Byte> := [];
    var i := 0;
    while i < 8
      invariant 0 <= i <= 8 && |dst| == 512 * i
      invariant forall k :: 0 <= k < 512 * i ==> dst[k] == disk[rdBlk + k / 512][k % 512]
    {
      var buf := disk[rdBlk + i];
      forall k | 0 <= k < 512 * i + 512
        ensures (dst + buf)[k] == disk[rdBlk + k / 512][k % 512]
      {
        if k >= 512 * i {
          InPiece(i, k);
        }
      }
      dst := dst + buf;
      i := i + 1;
    }
    pg := dst;
  }

  lemma InPiece(i: int, k: int)
    requires 512 * i <= k < 512 * i + 512
    ensures k / 512 == i && k % 512 == k - 512 * i
  {
  }
}
