/** Demand paging as the kernel does it: frame table, resident list, directories and tables in
    frames, backing stores on disk. */
module Paging {
  import opened DistinctLists
  import opened LfsDisk
  import opened BackingStore
  import opened Links
  import opened VmSpec
  import opened VmSteps
  import opened VmFaults
  import opened VmProcesses
  import opened PagingTables

  /** How a call ends: normally, in panic, or by following a link that leads to no page. */
  datatype Outcome = Fine | Panicked | Astray

  class PagingSystem {
    /** The frames, and behind them the dummy entries at the head and the tail of the list. */
    const ivptab: array<Ivent>
    const links: array<Link>
    const mem: array<Content>
    const bsmap: array<Bsent>
    const bstab: array<Bs>
    var disk: Disk
    /** The frame of each process's page directory. */
    var pdbr: map<int, int>
    var fifoHand: int
    var currpolicy: int
    ghost var st: Vm

    ghost predicate Shaped(skip: int)
      reads this, ivptab, links, mem, bsmap, bstab
    {
      Agrees(-1, skip)
    }

    /** The tables show st, while kill takes process `dying` apart and frame skip is between uses. */
    ghost predicate Agrees(dying: int, skip: int)
      reads this, ivptab, links, mem, bsmap, bstab
    {
      && VmInv(st, dying) && Shows(ivptab[..], links[..], mem[..], st, dying, skip)
      && disk == st.disk && bsmap[..] == st.bsmap && bstab[..] == st.bstab && fifoHand == st.hand
      && forall p {:trigger p in st.dir} :: p in st.dir ==> p in pdbr && pdbr[p] == st.dir[p]
    }

    ghost predicate Valid()
      reads this, ivptab, links, mem, bsmap, bstab
    {
      Shaped(-1) && Quiet(st)
    }

    /** What the frame table says about a frame. */
    lemma FrameKind(f: int)
      requires Shaped(-1) && 0 <= f < mem.Length
      ensures ivptab.Length == links.Length == mem.Length + 2 && mem.Length == |st.own| == |st.data|
      ensures ivptab[f].valid == Kind(st.own[f]) && (ivptab[f].valid == NULL_PAGE <==> st.own[f] == NoOne) && ivptab[f].frame_number == f
      ensures st.own[f] == NoOne ==> ivptab[f].ref_count == 0 && f !in st.res
    {
      assert ShowsSpelledOut(st) && VmInvSpelledOut(st);
      assert FrameShows(ivptab[..][f], mem[..][f], st, f, -1) && Owned(st, f);
    }

    lemma TablesSized()
      requires Shaped(-1)
      ensures ivptab.Length == links.Length == mem.Length + 2 && mem.Length == |st.own| == |st.data| && fifoHand == st.hand && VmInv(st, -1)
    {
    }

    /** get_store_offset, for a page that some store has. */
    method GetStoreOffset(pid: int, vpn: int) returns (store: int, offset: int)
      requires bsmap[..] == st.bsmap && Mapped(st, pid, vpn)
      ensures store == Store(st, pid, vpn) && offset == Offset(st, pid, vpn)
    {
      var i := 0;
      while i < bsmap.Length
        invariant 0 <= i <= bsmap.Length && FindStore(st.bsmap, pid, vpn, i) == FindStore(st.bsmap, pid, vpn, 0)
      {
        assert bsmap[..][i] == bsmap[i];
        if pid == bsmap[i].pid {
          if vpn >= bsmap[i].start && vpn - bsmap[i].start < bsmap[i].npages {
            return i, vpn - bsmap[i].start;
          }
        }
        i := i + 1;
      }
      store, offset := -1, 0;
    }

    /** write_bs of the page in frame f. */
    method WriteBs(f: int, bs: int, page: int) returns (ok: bool)
      requires 0 <= f < mem.Length && mem[f].Data? && Roomy(disk) && bstab.Length == MAX_BS
      requires Served(bstab[..], bs, page) ==> InStore(bs, page)
      modifies this`disk
      ensures ok <==> Served(bstab[..], bs, page)
      ensures disk == if ok then Written(old(disk), bs, page, mem[f].page, 8) else old(disk)
    {
      if bs >= MAX_BS || bs < 0 {
        return false;
      }
      assert bstab[..][bs] == bstab[bs];
      if !bstab[bs].isopen || page >= bstab[bs].npages || page < 0 {
        return false;
      }
      disk := WriteBlocks(disk, bs, page, mem[f].page);
      return true;
    }

    /** read_bs into frame f. */
    method ReadBs(f: int, bs: int, page: int) returns (ok: bool)
      requires 0 <= f < mem.Length && Roomy(disk) && bstab.Length == MAX_BS
      requires Served(bstab[..], bs, page) ==> InStore(bs, page)
      modifies mem
      ensures ok <==> Served(bstab[..], bs, page)
      ensures mem[..] == if ok then old(mem[..])[f := Data(StoredPage(disk, bs, page))] else old(mem[..])
    {
      if bs >= MAX_BS || bs < 0 {
        return false;
      }
      assert bstab[..][bs] == bstab[bs];
      if !bstab[bs].isopen || page >= bstab[bs].npages || page < 0 {
        return false;
      }
      var pg := ReadBlocks(disk, bs, page);
      mem[f] := Data(pg);
      return true;
    }

    /** The search for an unused frame in get_free_frame_number. */
    method FindFrame() returns (i: int)
      requires Shaped(-1)
      ensures i == FirstFree(st.own, 0) && mem.Length == |st.own|
    {
      i := 0;
      assert mem.Length == |st.own| == |mem[..]|;
      while i < mem.Length
        invariant 0 <= i <= mem.Length && FirstFree(st.own, i) == FirstFree(st.own, 0)
      {
        FrameKind(i);
        if ivptab[i].valid == NULL_PAGE {
          return;
        }
        i := i + 1;
      }
    }

    /** Link entry f in at the tail. */
    method LinkTail(f: int, tail: int)
      requires 0 <= f < links.Length && 0 <= tail < links.Length && 0 <= links[tail].next < links.Length && links[tail].next != tail && f != tail
      modifies links
      ensures links[..] == Inserted(old(links[..]), f, tail, old(links[tail].next))
    {
      var next := links[tail].next;
      links[f] := Link(next, tail);
      links[next] := links[next].(prev := f);
      links[tail] := links[tail].(next := f);
    }

    /** Frame f gets a new purpose; a page goes to the tail of the resident list. */
    method Claim(f: int, kind: int, pid: int, vpn: int)
      requires Shaped(f) && 0 <= f < mem.Length && |st.own| == mem.Length && st.own[f] == NoOne && f !in st.res
      requires f < ivptab.Length && ivptab[f].ref_count == 0 && ivptab[f].frame_number == f && pid > 0 && kind in {PAGE_DIR, PAGE_TAB, PAGE}
      modifies ivptab, links, this`st
      ensures Shaped(-1) && st == ClaimedBy(old(st), f, kind, pid, vpn)
    {
      ResidentFrames(st);
      ClaimShows(ivptab[..], links[..], mem[..], st, f, kind, pid, vpn);
      ClaimKeeps(st, f, kind, pid, vpn);
      TailApart(ivptab[..], links[..], mem[..], st, f);
      ivptab[f] := ivptab[f].(valid := kind, pid := pid);
      if kind == PAGE {
        ivptab[f] := ivptab[f].(vpage_num := vpn);
        LinkTail(f, mem.Length + 1);
      }
      assert ivptab[..] == old(ivptab[..])[f := ivptab[f]];
      st := ClaimedBy(st, f, kind, pid, vpn);
    }

    /** Take entry f out of the resident list. */
    method UnlinkFrame(f: int)
      requires 0 <= f < links.Length && 0 <= links[f].prev < links.Length && 0 <= links[f].next < links.Length
      requires links[f].prev != f && links[f].next != f
      modifies links
      ensures links[..] == Unlinked(old(links[..]), f)
    {
      links[links[f].prev] := links[links[f].prev].(next := links[f].next);
      links[links[f].next] := links[links[f].next].(prev := links[f].prev);
      links[f] := links[f].(next := NONE);
      links[f] := links[f].(prev := NONE);
    }

    /** Save the page of frame ret and take it out of its table, in frame pt, which directory pd has
        at place p. */
    method PageOut(ret: int) returns (pd: int, pt: int, p: int)
      requires Valid() && 0 <= ret < mem.Length && |st.own| == mem.Length && st.own[ret].PageOf?
      modifies ivptab, links, mem, this`disk, this`st
      ensures TablesStay()
      ensures |old(st).own| == mem.Length && Mapped(old(st), old(st).own[ret].pid, old(st).own[ret].vpn)
      ensures Shaped(ret) && st == PagedOut(old(st), ret) && ivptab.Length == mem.Length + 2
      ensures ivptab[ret] == old(ivptab[ret]) && ivptab[ret].ref_count == 0 && ivptab[ret].frame_number == ret
      ensures p == old(st).own[ret].vpn / 1024 && 4 <= p < 576
      ensures var pid := old(st).own[ret].pid;
        pid > 0 && pid in st.dir && pd == st.dir[pid] && (pid, p) in st.tab && pt == st.tab[(pid, p)] && pt != ret
    {
      hide Shows, VmInv;
      OutFacts(ivptab[..], links[..], mem[..], st, ret);
      ghost var s0 := st;
      UnlinkFrame(ret);
      var rPid, rVpn := ivptab[ret].pid, ivptab[ret].vpage_num;
      p := rVpn / 1024;
      var q := rVpn % 1024;
      pd := pdbr[rPid];
      pt := mem[pd].pdes[p].base - FRAME0;
      var bstore, pOffset := GetStoreOffset(rPid, rVpn);
      var _ := WriteBs(ret, bstore, pOffset);
      mem[pt] := Table(mem[pt].ptes[q := mem[pt].ptes[q].(pres := false)]);
      ivptab[pt] := ivptab[pt].(ref_count := ivptab[pt].ref_count - 1);
      st := PagedOut(st, ret);
      assert mem[..] == EntryGone(old(mem[..]), pt, q);
      assert ivptab[..] == RefDown(old(ivptab[..]), pt);
    }

    /** Free table pt of directory pd, at place p, if nothing is in it any more. */
    method DropTable(ghost pid: int, pd: int, pt: int, p: int, ghost ret: int)
      requires Shaped(ret) && 0 <= ret < mem.Length && |st.own| == mem.Length && st.own[ret] == NoOne && pid > 0 && 4 <= p < 576
      requires pid in st.dir && pd == st.dir[pid] && (pid, p) in st.tab && pt == st.tab[(pid, p)]
      modifies ivptab, mem, this`st
      ensures TablesStay()
      ensures Shaped(ret) && st == TableDropped(old(st), pid, p) && ivptab.Length == mem.Length + 2
      ensures pt != ret ==> ivptab[ret] == old(ivptab[ret])
    {
      TableDroppedShows(ivptab[..], links[..], mem[..], st, ret, pid, p, pd, pt);
      TableDroppedKeeps(st, pid, p);
      if ivptab[pt].ref_count == 0 {
        mem[pd] := Dir(mem[pd].pdes[p := mem[pd].pdes[p].(pres := false)]);
        ivptab[pt] := ivptab[pt].(valid := NULL_PAGE);
        assert mem[..] == old(mem[..])[pd := mem[pd]];
        assert ivptab[..] == old(ivptab[..])[pt := ivptab[pt]];
      }
      st := TableDropped(st, pid, p);
    }

    /** The hand leaves the head for the oldest page, if there is one. */
    method ToOldest()
      requires Valid()
      modifies this`fifoHand, this`st
      ensures Valid() && st == old(st).(hand := if old(st).res == [] then TailOf(old(st)) else old(st).res[|old(st).res| - 1]) && fifoHand == st.hand
    {
      hide Shows, VmInv;
      TablesSized();
      HandMoves(ivptab[..], links[..], mem[..], st, 0);
      fifoHand := links[mem.Length].prev;
      st := st.(hand := fifoHand);
    }

    /** The clock of get_free_frame_number. */
    method Sweep() returns (r: Outcome, ret: int)
      requires Valid() && (HandKnown(st))
      modifies mem, this`fifoHand, this`st
      ensures TablesStay()
      ensures |old(st).bits| == |old(st).own| && (old(st).res != [] ==> ClockOk(old(st).bits, old(st).res))
      ensures match Choose(old(st), GCA)
        case ChoicePanic => r == Panicked
        case ChoiceWild => r == Astray
        case Replace(f, bits, hand) => r == Fine && ret == f && Valid() && st == old(st).(bits := bits, hand := hand)
    {
      hide Agrees, VmInv, Shows, Quiet, ClockOk, Weight;
      var head, tail := mem.Length, mem.Length + 1;
      ghost var s0 := st;
      TablesSized();
      SweepFacts(s0);
      ghost var first := true;
      ghost var k := -1;
      while true
        invariant TablesStay()
        invariant Valid() && st == s0.(bits := st.bits, hand := st.hand) && |st.bits| == |s0.bits|
        invariant fifoHand == st.hand && (first ==> st == s0)
        invariant !first ==> s0.res != [] && ClockOk(st.bits, s0.res) && 0 <= k < |s0.res| && s0.res[k] == st.hand
        invariant !first ==> s0.hand != TailOf(s0) && 0 <= StartPlace(s0) < |s0.res| && SameEnd(s0, st.bits, k)
        decreases first, Weight(st.bits, s0.res)
      {
        if fifoHand == head {
          ToOldest();
          if fifoHand == tail {
            // no page at all: the code goes on with the dummy entry
            return Astray, -1;
          }
        } else if fifoHand == tail {
          return Panicked, -1;
        }
        if first {
          k := StartPlace(s0);
          SweepStarts(s0);
          first := false;
        }
        r, ret := Examine(s0, k);
        if r == Fine {
          return;
        }
        k := NextPlace(|s0.res|, k);
      }
    }

    /** One examination by the clock; Fine if the page is chosen, Astray if the clock goes on. */
    method Examine(ghost s0: Vm, ghost k: int) returns (r: Outcome, ret: int)
      requires Shaped(-1) && Quiet(st)
      requires st == s0.(bits := st.bits, hand := st.hand) && 0 <= k < |s0.res| && s0.res[k] == st.hand && ClockOk(st.bits, s0.res)
      requires |st.bits| == |s0.bits| && ClockOk(s0.bits, s0.res) && 0 <= StartPlace(s0) < |s0.res| && SameEnd(s0, st.bits, k)
      modifies mem, this`fifoHand, this`st
      ensures TablesStay()
      ensures r != Panicked && Shaped(-1) && Quiet(st) && fifoHand == st.hand && st == s0.(bits := st.bits, hand := st.hand) && |st.bits| == |s0.bits|
      ensures r == Fine ==> ret == s0.res[k] && k == VmSteps.Sweep(s0.bits, s0.res, StartPlace(s0)).0
      ensures r == Fine ==> st.bits == VmSteps.Sweep(s0.bits, s0.res, StartPlace(s0)).1 && st.hand == if k == 0 then TailOf(s0) else s0.res[k - 1]
      ensures r == Astray ==> ClockOk(st.bits, s0.res) && st.hand == s0.res[NextPlace(|s0.res|, k)] && SameEnd(s0, st.bits, NextPlace(|s0.res|, k))
      ensures r == Astray ==> Weight(st.bits, s0.res) < Weight(old(st).bits, s0.res)
    {
      hide Agrees, Shows, VmInv, Quiet;
      TablesSized();
      ClockHere(st, k);
      var pt, q, e := EntryAt(k);
      if !e.acc && !e.dirty {
        ret := ivptab[fifoHand].frame_number;
        Leave(k);
        return Fine, ret;
      } else if e.acc {
        ClearOne(k, pt, q, e);
      } else {
        return Panicked, -1;
      }
      r, ret := Astray, -1;
    }

    /** The table pt that has the page at place k, where in it, and its entry. */
    ghost predicate Entry(k: int, pt: int, q: int, e: Pte)
      reads this, ivptab, links, mem
    {
      && 0 <= k < |st.res| && fifoHand == st.res[k] && 0 <= fifoHand < |st.own| == |st.bits| == mem.Length && st.own[fifoHand].PageOf?
      && links.Length == ivptab.Length == mem.Length + 2 && ivptab[fifoHand].frame_number == fifoHand
      && var pid, vpn := st.own[fifoHand].pid, st.own[fifoHand].vpn;
         && (pid, vpn / 1024) in st.tab && pt == st.tab[(pid, vpn / 1024)] && q == vpn % 1024
         && 0 <= pt < mem.Length && mem[pt].Table? && |mem[pt].ptes| == 1024 && 0 <= q < 1024 && mem[pt].ptes[q] == e
         && e == Pte(true, st.bits[fifoHand].acc, st.bits[fifoHand].dirty, fifoHand + 1024)
    }

    /** The clock finds the entry of the page under its hand. */
    method EntryAt(ghost k: int) returns (pt: int, q: int, e: Pte)
      requires Valid() && 0 <= k < |st.res| && st.res[k] == st.hand
      ensures Entry(k, pt, q, e)
    {
      hide Shows, VmInv;
      TablesSized();
      ExamineFacts(ivptab[..], links[..], mem[..], st, k);
      q := ivptab[fifoHand].vpage_num % 1024;
      var pd := pdbr[ivptab[fifoHand].pid];
      pt := mem[pd].pdes[ivptab[fifoHand].vpage_num / 1024].base - FRAME0;
      e := mem[pt].ptes[q];
    }

    /** The hand moves on from a page that is selected. */
    method Leave(ghost k: int)
      requires Valid() && 0 <= k < |st.res| && st.res[k] == st.hand && ClockOk(st.bits, st.res)
      modifies this`fifoHand, this`st
      ensures Valid() && fifoHand == st.hand
      ensures st == old(st).(hand := if k == 0 then TailOf(old(st)) else old(st).res[k - 1])
    {
      hide Shows, VmInv;
      TablesSized();
      ExamineFacts(ivptab[..], links[..], mem[..], st, k);
      fifoHand := links[fifoHand].prev;
      VmInvBits(st, st.bits, fifoHand);
      HandShows(ivptab[..], links[..], mem[..], st, fifoHand);
      st := st.(hand := fifoHand);
    }

    /** One bit of the page under the hand is cleared, the dirty bit first, and the hand moves on. */
    method ClearOne(ghost k: int, pt: int, q: int, e: Pte)
      requires Valid() && Entry(k, pt, q, e) && st.res[k] == st.hand && ClockOk(st.bits, st.res) && e.acc
      modifies mem, this`fifoHand, this`st
      ensures TablesStay() && Valid() && fifoHand == st.hand
      ensures st == old(st).(bits := old(st).bits[old(fifoHand) := Aged(old(st).bits[old(fifoHand)])], hand := old(st).res[NextPlace(|old(st).res|, k)])
    {
      hide Shows, VmInv, Weight;
      ghost var f := fifoHand;
      ExamineFacts(ivptab[..], links[..], mem[..], st, k);
      AgeFacts(ivptab[..], links[..], mem[..], st, k, pt, q);
      mem[pt] := Table(mem[pt].ptes[q := if e.dirty then e.(dirty := false) else e.(acc := false)]);
      fifoHand := links[fifoHand].prev;
      if fifoHand == mem.Length + 1 {
        fifoHand := links[mem.Length].prev;
      }
      assert mem[..] == EntryBits(old(mem[..]), pt, q, Aged(st.bits[f]));
      st := st.(bits := st.bits[f := Aged(st.bits[f])], hand := fifoHand);
    }

    /** Frames that hold a table still hold one. */
    twostate predicate TablesStay()
      reads mem
    {
      forall b {:trigger mem[b]} {:trigger old(mem[b])} :: 0 <= b < mem.Length && old(mem[b].Table? && |mem[b].ptes| == 1024) ==> mem[b].Table? && |mem[b].ptes| == 1024
    }

    /** get_free_frame_number: an unused frame, or else the one of a page that is replaced. */
    method GetFreeFrame(pid: int, vpn: int, purpose: int) returns (r: Outcome, f: int)
      requires Valid() && pid > 0 && purpose in {PAGE_DIR, PAGE_TAB, PAGE}
      requires currpolicy == GCA ==> HandKnown(st)
      modifies ivptab, links, mem, this`disk, this`fifoHand, this`st
      ensures TablesStay()
      ensures match GetFrame(old(st), currpolicy, purpose, pid, vpn)
        case GotPanic => r == Panicked
        case GotWild => r == Astray
        case Got(s', frame) => r == Fine && f == frame && st == s' && Shaped(-1)
    {
      f := FindFrame();
      if f < mem.Length {
        FrameKind(f);
        SkipShows(ivptab[..], links[..], mem[..], st, f);
        Claim(f, purpose, pid, vpn);
        return Fine, f;
      }
      ChoiceIs(st, currpolicy);
      if currpolicy == FIFO {
        HandMoves(ivptab[..], links[..], mem[..], st, 0);
        f := links[mem.Length].prev;
        if f == mem.Length + 1 {
          // no page at all: the code goes on with the dummy entry
          ResidentFrames(st);
          return Astray, -1;
        }
      } else if currpolicy == GCA {
        r, f := Sweep();
        if r != Fine {
          return r, -1;
        }
      } else {
        return Panicked, -1;
      }
      ReplaceInto(f, purpose, pid, vpn);
      return Fine, f;
    }

    /** Evict the page in frame f and give the frame its new purpose. */
    method ReplaceInto(f: int, purpose: int, pid: int, vpn: int)
      requires Valid() && pid > 0 && purpose in {PAGE_DIR, PAGE_TAB, PAGE} && 0 <= f < |st.own| && st.own[f].PageOf?
      modifies ivptab, links, mem, this`disk, this`st
      ensures TablesStay()
      ensures 0 <= f < |old(st).own| && old(st).own[f].PageOf? && Sized(old(st)) && Mapped(old(st), old(st).own[f].pid, old(st).own[f].vpn)
      ensures Shaped(-1) && st == ClaimedBy(Evicted(old(st), f), f, purpose, pid, vpn)
    {
      ghost var s0 := st;
      assert mem.Length == |mem[..]| == |st.own|;
      PageAt(s0, f);
      EvictedFacts(s0, f);
      EvictKeeps(s0, f);
      ResidentFrames(s0);
      WithoutIs(s0.res, f);
      var pd, pt, p := PageOut(f);
      DropTable(s0.own[f].pid, pd, pt, p, f);
      assert st == Evicted(s0, f);
      Claim(f, purpose, pid, vpn);
    }

    /** create_pagetable for place p of directory pd. */
    method CreatePagetable(pid: int, pd: int, p: int) returns (r: Outcome)
      requires Valid() && pid > 0 && pid in st.dir && pd == st.dir[pid] && (pid, p) !in st.tab && 4 <= p < 576
      requires currpolicy == GCA ==> HandKnown(st)
      modifies ivptab, links, mem, this`disk, this`fifoHand, this`st
      ensures match TableFor(old(st), currpolicy, pid, p)
        case GotPanic => r == Panicked
        case GotWild => r == Astray
        case Got(s', _) => r == Fine && st == s' && Valid()
    {
      GetFrameKeeps(st, currpolicy, PAGE_TAB, pid, 0);
      var f;
      r, f := GetFreeFrame(pid, 0, PAGE_TAB);
      if r != Fine {
        return;
      }
      TabMappedShows(ivptab[..], links[..], mem[..], st, f, pid, p, pd);
      TabMappedKeeps(st, f, pid, p);
      ghost var m := mem[..];
      mem[pd] := Dir(mem[pd].pdes[p := Pde(true, f + FRAME0)]);
      var ptes: seq<Pte> := [];
      for i := 0 to 1024
        invariant |ptes| == i && forall j :: 0 <= j < i ==> ptes[j] == Pte(false, false, false, 0)
      {
        ptes := ptes + [Pte(true, false, false, 0).(pres := false)];
      }
      assert ptes == PagingTables.EmptyTable();
      mem[f] := Table(ptes);
      assert mem[..] == m[pd := Dir(m[pd].pdes[p := Pde(true, f + 1024)])][f := Table(PagingTables.EmptyTable())];
      st := TabMapped(st, f, pid, p);
    }

    /** The page is present as the processor finds it: through directory and table. */
    predicate PresentAt(pid: int, vpn: int)
      reads this, mem
    {
      && pid in pdbr && 0 <= pdbr[pid] < mem.Length && mem[pdbr[pid]].Dir? && 0 <= vpn / 1024 < |mem[pdbr[pid]].pdes|
      && var pde := mem[pdbr[pid]].pdes[vpn / 1024];
         && pde.pres && 0 <= pde.base - 1024 < mem.Length && mem[pde.base - 1024].Table? && |mem[pde.base - 1024].ptes| == 1024
         && mem[pde.base - 1024].ptes[vpn % 1024].pres
    }

    /** The second half of myPageFault: find a frame, read the page into it, enter it into table pt. */
    method LoadPage(pid: int, vpn: int, pd: int, pt: int) returns (r: Outcome)
      requires Valid() && pid > 0 && pid in st.dir && pd == st.dir[pid] && Mapped(st, pid, vpn) && (pid, vpn) !in st.at && 4 <= vpn / 1024 < 576
      requires (pid, vpn / 1024) in st.tab && pt == st.tab[(pid, vpn / 1024)]
      requires currpolicy == GCA ==> HandKnown(st)
      modifies ivptab, links, mem, this`disk, this`fifoHand, this`st
      ensures VmInv(old(st), -1) && Quiet(old(st)) && Mapped(old(st), pid, vpn)
      ensures match GetFrame(old(st), currpolicy, PAGE, pid, vpn)
        case GotPanic => r == Panicked
        case GotWild => r == Astray
        case Got(s1, f) => r == Fine && (if (pid, vpn / 1024) in s1.tab then Sized(s1) && 0 <= f < |s1.own| && Mapped(s1, pid, vpn) && st == PageMapped(s1, f, pid, vpn) && Valid() && PresentAt(pid, vpn)
                                         else !PresentAt(pid, vpn))
    {
      ghost var s0 := st;
      var p := vpn / 1024;
      MappedSlot(st, pid, vpn);
      var bstore, pOffset := GetStoreOffset(pid, vpn);
      GetFrameKeeps(st, currpolicy, PAGE, pid, vpn);
      TableAt(ivptab[..], links[..], mem[..], st, pid, p);
      FrameWas(s0, currpolicy, PAGE, pid, vpn);
      var f;
      r, f := GetFreeFrame(pid, vpn, PAGE);
      if r != Fine {
        return;
      }
      EnterPage(f, pid, vpn, pd, pt, bstore, pOffset);
    }

    /** The page is read into frame f and entered into table pt, which may have been freed meanwhile. */
    method EnterPage(f: int, pid: int, vpn: int, pd: int, pt: int, bstore: int, pOffset: int)
      requires Shaped(-1) && OnlyClaim(st, f) && 0 <= f < mem.Length == |st.own| && ivptab.Length == mem.Length + 2 && st.own[f] == Claimed(PAGE, pid, vpn)
      requires pid > 0 && pid in st.dir && pd == st.dir[pid] && Mapped(st, pid, vpn) && (pid, vpn) !in st.at && 4 <= vpn / 1024 < 576
      requires 0 <= pt < mem.Length && pt != pd && pt != f && mem[pt].Table? && |mem[pt].ptes| == 1024
      requires (pid, vpn / 1024) in st.tab ==> pt == st.tab[(pid, vpn / 1024)]
      requires bstore == Store(st, pid, vpn) && pOffset == Offset(st, pid, vpn)
      modifies ivptab, mem, this`st
      ensures Sized(old(st)) && Mapped(old(st), pid, vpn)
      ensures if (pid, vpn / 1024) in old(st).tab then 0 <= f < |old(st).own| && st == PageMapped(old(st), f, pid, vpn) && Valid() && PresentAt(pid, vpn)
              else !PresentAt(pid, vpn)
    {
      hide Shows;
      var p, q := vpn / 1024, vpn % 1024;
      ghost var s1 := st;
      MappedSlot(s1, pid, vpn);
      DirAt(ivptab[..], links[..], mem[..], s1, pid, p);
      FrameApart(s1, f, pid);
      ghost var m := mem[..];
      var _ := ReadBs(f, bstore, pOffset);
      mem[pt] := Table(mem[pt].ptes[q := Pte(true, false, false, f + FRAME0)]);
      ghost var was := ivptab[..];
      ivptab[pt] := ivptab[pt].(ref_count := ivptab[pt].ref_count + 1);
      assert mem[..] == m[f := Data(Saved(s1, pid, vpn))][pt := Table(m[pt].ptes[q := Pte(true, false, false, f + 1024)])];
      if (pid, p) in s1.tab {
        assert ivptab[..] == RefUp(was, pt);
        PageMappedShows(was, links[..], m, s1, f, pid, vpn, pt);
        PageMappedKeeps(s1, f, pid, vpn);
        st := PageMapped(s1, f, pid, vpn);
        Lookup(ivptab[..], links[..], mem[..], st, f);
      } else {
        assert mem[..][pd] == mem[pd] && m[pd] == mem[pd];
      }
    }

    /** myPageFault, for a page that is mapped. The page is present afterwards exactly if the fault did
        not replace the only page of the table it was to fill. */
    method PageFault(pid: int, vpn: int) returns (r: Outcome)
      requires Valid() && pid > 0 && pid in st.dir && Mapped(st, pid, vpn) && (pid, vpn) !in st.at && 4 <= vpn / 1024 < 576
      requires currpolicy == GCA ==> HandKnown(st)
      modifies ivptab, links, mem, this`disk, this`fifoHand, this`st
      ensures VmInv(old(st), -1) && Quiet(old(st)) && Mapped(old(st), pid, vpn)
      ensures match Fault(old(st), currpolicy, pid, vpn)
        case FaultPanic => r == Panicked
        case FaultWild => r == Astray
        case Loaded(s', _) => r == Fine && st == s' && Valid() && PresentAt(pid, vpn)
        case Lost(_, _) => r == Fine && !PresentAt(pid, vpn)
    {
      var pd, p := pdbr[pid], vpn / 1024;
      DirAt(ivptab[..], links[..], mem[..], st, pid, p);
      TableForKeeps(st, currpolicy, pid, p);
      HandStays(st, pid, p);
      if !mem[pd].pdes[p].pres {
        r := CreatePagetable(pid, pd, p);
        if r != Fine {
          return;
        }
      }
      DirAt(ivptab[..], links[..], mem[..], st, pid, p);
      var pt := mem[pd].pdes[p].base - FRAME0;
      assert Mapped(st, pid, vpn);
      r := LoadPage(pid, vpn, pd, pt);
    }

    /** An access by the process to a page that is present, with what the processor does to the bits. */
    method Access(pid: int, vpn: int, write: bool, pg: Page)
      requires Valid() && (pid, vpn) in st.at
      modifies mem, this`st
      ensures |old(st).data| == |old(st).bits| == |old(st).own| && 0 <= old(st).at[(pid, vpn)] < |old(st).own|
      ensures Valid() && st == Accessed(old(st), old(st).at[(pid, vpn)], write, pg)
    {
      ghost var f0 := st.at[(pid, vpn)];
      AccessChanges(st, pid, vpn, write, pg);
      Lookup(ivptab[..], links[..], mem[..], st, f0);
      var pt := mem[pdbr[pid]].pdes[vpn / 1024].base - FRAME0;
      var e := mem[pt].ptes[vpn % 1024];
      var f := e.base - FRAME0;
      ghost var data := if write then pg else st.data[f];
      BitsShow(ivptab[..], links[..], mem[..], st, f, pt, vpn % 1024, Bits(true, e.dirty || write), data);
      mem[pt] := Table(mem[pt].ptes[vpn % 1024 := e.(acc := true, dirty := e.dirty || write)]);
      if write {
        mem[f] := Data(pg);
      }
      assert mem[..] == EntryBits(old(mem[..]), pt, vpn % 1024, Bits(true, e.dirty || write))[f := Data(data)];
      st := Accessed(st, f, write, pg);
      assert st == old(st).(bits := old(st).bits[f := Bits(true, e.dirty || write)], data := old(st).data[f := data]);
    }

    /** deallocate_bs, and in it release_bs. */
    method DeallocateBs(store: int)
      requires 0 <= store < bstab.Length == MAX_BS
      modifies bstab
      ensures bstab[..] == old(bstab[..])[store := Released(old(bstab[store]))]
    {
      var b := bstab[store];
      if !b.isallocated || b.usecount > 0 {
        assert bstab[..] == bstab[..][store := Released(bstab[store])];
        return;
      }
      if b.isopen {
        bstab[store] := b.(isopen := false, npages := 0);
      }
      bstab[store] := bstab[store].(isallocated := false, usecount := 0);
    }

    /** The page of a dying process goes to its store, and off the resident list. */
    method SaveDying(pid: int, i: int)
      requires Agrees(pid, -1) && 0 <= i < mem.Length == |st.own| && st.own[i].PageOf? && st.own[i].pid == pid
      requires i < ivptab.Length && ivptab[i].vpage_num == st.own[i].vpn
      requires i < links.Length && 0 <= links[i].prev < links.Length && 0 <= links[i].next < links.Length
      modifies links, this`disk
      ensures links[..] == Unlinked(old(links[..]), i)
      ensures Sized(st) && Mapped(st, pid, st.own[i].vpn) && InStore(Store(st, pid, st.own[i].vpn), Offset(st, pid, st.own[i].vpn))
      ensures disk == Written(st.disk, Store(st, pid, st.own[i].vpn), Offset(st, pid, st.own[i].vpn), st.data[i], 8)
    {
      hide Shows, VmInv;
      DyingApart(ivptab[..], links[..], mem[..], st, pid, i);
      var bstore, pOffset := GetStoreOffset(pid, ivptab[i].vpage_num);
      var _ := WriteBs(i, bstore, pOffset);
      UnlinkFrame(i);
    }

    /** kill, for frame i. */
    method KillOne(pid: int, i: int)
      requires Agrees(pid, -1) && Quiet(st) && pid > 0 && 0 <= i < mem.Length && |st.own| == mem.Length
      modifies ivptab, links, this`disk, this`st
      ensures VmInv(old(st), pid) && Quiet(old(st)) && |old(st).own| == mem.Length
      ensures Agrees(pid, -1) && Quiet(st) && st == KillFrame(old(st), pid, i)
    {
      hide Shows, VmInv, KillFrame, Written, Unlinked, Mapped, Store, Offset, Quiet;
      OwnerAt(ivptab[..], links[..], mem[..], st, pid, i);
      KillFrameKeeps(st, pid, i);
      KillFrameParts(st, pid, i);
      if ivptab[i].pid == pid {
        if ivptab[i].valid == PAGE {
          KillShows(ivptab[..], links[..], mem[..], st, pid, i);
          SaveDying(pid, i);
        } else if ivptab[i].valid != NULL_PAGE {
          KillShows(ivptab[..], links[..], mem[..], st, pid, i);
        } else {
          StaleShows(ivptab[..], links[..], mem[..], st, pid, i);
        }
        ivptab[i] := Ivent(NULL_PAGE, i, 0, 0, 0);
        assert ivptab[..] == old(ivptab[..])[i := Reset(i)];
      }
      st := KillFrame(st, pid, i);
    }

    /** kill, as far as frames and stores go. */
    method Kill(pid: int)
      requires Valid() && pid > 0
      modifies ivptab, links, bsmap, bstab, this`disk, this`st
      ensures VmInv(old(st), pid) && Quiet(old(st))
      ensures Valid() && st == VmProcesses.Kill(old(st), pid)
    {
      Dying(st, pid);
      DyingShows(ivptab[..], links[..], mem[..], st, pid);
      ghost var s0 := st;
      assert mem.Length == |mem[..]|;
      var i := 0;
      while i < mem.Length
        invariant 0 <= i <= mem.Length == |s0.own| && Agrees(pid, -1) && Quiet(st) && st == KillFrames(s0, pid, i)
        modifies ivptab, links, this`disk, this`st
      {
        KillOne(pid, i);
        i := i + 1;
      }
      KillFreesAll(s0, pid);
      KillFramesKeeps(s0, pid, |s0.own|);
      DeadShows(ivptab[..], links[..], mem[..], st, VmProcesses.Kill(s0, pid), pid);
      KillBs(pid);
      st := VmProcesses.Kill(s0, pid);
    }

    /** The store loop of kill. */
    method KillBs(pid: int)
      requires bsmap.Length == bstab.Length == MAX_BS
      modifies bsmap, bstab
      ensures forall i :: 0 <= i < MAX_BS ==> bsmap[i] == if old(bsmap[i]).pid == pid then Bsent(false, 0, 0, 0) else old(bsmap[i])
      ensures forall i :: 0 <= i < MAX_BS ==> bstab[i] == if old(bsmap[i]).pid == pid then Released(old(bstab[i])) else old(bstab[i])
    {
      var i := 0;
      while i < MAX_BS
        invariant 0 <= i <= MAX_BS
        invariant forall j :: 0 <= j < i ==> bsmap[j] == if old(bsmap[j]).pid == pid then Bsent(false, 0, 0, 0) else old(bsmap[j])
        invariant forall j :: 0 <= j < i ==> bstab[j] == if old(bsmap[j]).pid == pid then Released(old(bstab[j])) else old(bstab[j])
        invariant forall j :: i <= j < MAX_BS ==> bsmap[j] == old(bsmap[j]) && bstab[j] == old(bstab[j])
      {
        if bsmap[i].pid == pid {
          label Before:
          DeallocateBs(i);
          assert forall j :: 0 <= j < MAX_BS ==> bstab[j] == bstab[..][j] && old@Before(bstab[j]) == old@Before(bstab[..])[j];
          bsmap[i] := Bsent(false, 0, 0, 0);
        }
        i := i + 1;
      }
    }

    /** allocate_bs, and in it get_bs. */
    method AllocateBs(npages: int) returns (store: int)
      requires bstab.Length == MAX_BS
      modifies bstab
      ensures store == FirstStore(old(bstab[..]), npages, 0)
      ensures bstab[..] == if store == -1 then old(bstab[..]) else old(bstab[..])[store := Bs(true, true, 0, npages)]
    {
      var i := 0;
      while i < MAX_BS
        invariant 0 <= i <= MAX_BS && bstab[..] == old(bstab[..])
        invariant FirstStore(bstab[..], npages, i) == FirstStore(bstab[..], npages, 0)
      {
        assert bstab[..][i] == bstab[i];
        if !bstab[i].isallocated {
          if npages > 0 && npages <= MAX_PAGES_PER_BS && !bstab[i].isopen {
            bstab[i] := bstab[i].(isopen := true, npages := npages);
            bstab[i] := bstab[i].(isallocated := true, usecount := 0);
            return i;
          }
        }
        i := i + 1;
      }
      store := -1;
    }

    /** bs_mapping, when a store is free. */
    method BsMapping(pid: int, npages: int, vpn: int)
      requires Valid() && pid > 0 && 0 <= npages <= MAX_PAGES_PER_BS && SpareUnmapped(st) && Fresh(st, pid) && (npages > 0 ==> FreeStores(st.bstab) > 0)
      modifies bsmap, bstab, this`st
      ensures |old(st).bsmap| == |old(st).bstab|
      ensures Valid() && st == MapStore(old(st), pid, npages, vpn)
    {
      if npages == 0 {
        return;
      }
      MapStoreKeeps(st, pid, npages, vpn);
      SomeFree(st.bstab);
      FreeStoreFound(st.bstab, npages, 0);
      ghost var s1 := MapStore(st, pid, npages, vpn);
      StoresShow(ivptab[..], links[..], mem[..], st, s1);
      assert bstab.Length == |bstab[..]| && bsmap.Length == |bsmap[..]|;
      var store := AllocateBs(npages);
      assert bsmap[..][store] == Bsent(false, 0, 0, 0);
      if !bsmap[store].ifMap {
        bsmap[store] := Bsent(true, pid, npages, vpn + 4096);
      }
      assert bsmap[..] == old(bsmap[..])[store := bsmap[store]];
      st := s1;
    }

    /** The part of vcreate that gives a new process its directory and its heap. */
    method Vcreate(pid: int, hsize: nat) returns (r: Outcome)
      requires Valid() && pid > 0 && pid !in st.dir && Fresh(st, pid) && SpareUnmapped(st) && hsize <= 200 * FreeStores(st.bstab)
      requires currpolicy == GCA ==> HandKnown(st)
      modifies this`pdbr, this`disk, this`fifoHand, this`st, ivptab, links, mem, bsmap, bstab
      ensures VmInv(old(st), -1) && Quiet(old(st))
      ensures match GetFrame(old(st), old(currpolicy), PAGE_DIR, pid, 0)
        case GotPanic => r == Panicked
        case GotWild => r == Astray
        case Got(s1, f) => r == Fine && Valid() && 0 <= f < |s1.own| && |s1.bsmap| == |s1.bstab| && st == MapHeap(DirMapped(s1, f, pid), pid, hsize, 0)
    {
      hide Shows, FreeStores, GetFrame, HandKnown, Mem;
      GetFrameKeeps(st, currpolicy, PAGE_DIR, pid, 0);
      StoresStay(st, currpolicy, PAGE_DIR, pid, 0);
      var f;
      r, f := GetFreeFrame(pid, 0, PAGE_DIR);
      if r != Fine {
        return;
      }
      MakeDir(f, pid);
      ghost var s0 := st;
      HeapMapped(s0, pid, hsize, 0);
      var remain, t := hsize, 0;
      while remain > MAX_PAGES_PER_BS
        invariant 0 <= remain && 0 <= t && Valid() && |st.bsmap| == |st.bstab| && MapHeap(st, pid, remain, t) == MapHeap(s0, pid, hsize, 0)
        invariant SpareUnmapped(st) && Fresh(st, pid) && remain <= 200 * FreeStores(st.bstab)
        modifies bsmap, bstab, this`st
      {
        MapStoreKeeps(st, pid, MAX_PAGES_PER_BS, t * 200);
        BsMapping(pid, MAX_PAGES_PER_BS, t * 200);
        remain := remain - MAX_PAGES_PER_BS;
        t := t + 1;
      }
      BsMapping(pid, remain, t * 200);
    }

    /** srpolicy. */
    method Srpolicy(policy: int) returns (ok: bool)
      modifies this`currpolicy
      ensures ok <==> policy == FIFO || policy == GCA
      ensures currpolicy == if ok then policy else old(currpolicy)
      ensures old(Valid()) ==> Valid()
    {
      ok := policy == FIFO || policy == GCA;
      if ok {
        currpolicy := policy;
      }
    }

    /** A new directory in the claimed frame f. */
    method MakeDir(f: int, pid: int)
      requires Shaped(-1) && OnlyClaim(st, f) && 0 <= f < |st.own| && st.own[f] == Claimed(PAGE_DIR, pid, 0) && pid > 0 && pid !in st.dir
      modifies mem, this`pdbr, this`st
      ensures Valid() && 0 <= f < |old(st).own| && st == DirMapped(old(st), f, pid)
    {
      pdbr := pdbr[pid := f];
      var pdes: seq<Pde> := [];
      for i := 0 to 1024
        invariant |pdes| == i && forall j :: 0 <= j < i ==> !pdes[j].pres
      {
        pdes := pdes + [Pde(false, 0)];
      }
      for i := 0 to 4
        invariant |pdes| == 1024 && forall j :: 4 <= j < 576 ==> !pdes[j].pres
      {
        pdes := pdes[i := Pde(true, i + 1 + FRAME0)];
      }
      pdes := pdes[576 := Pde(true, 5 + FRAME0)];
      DirMappedShows(ivptab[..], links[..], mem[..], st, f, pid, pdes);
      DirMappedKeeps(st, f, pid);
      assert mem.Length == |mem[..]|;
      ghost var m := mem[..];
      mem[f] := Dir(pdes);
      assert mem[..] == m[f := Dir(pdes)];
      st := DirMapped(st, f, pid);
    }

    /** initialize_paging, with n frames, for a disk that is large enough. */
    constructor (n: nat, disk: Disk)
      requires n >= 6 && Roomy(disk)
      ensures Valid() && st.dir == map[] && st.at == map[] && st.res == [] && HandOk(st) && SpareUnmapped(st) && FreeStores(st.bstab) == 8
      ensures forall f :: 0 <= f < |st.own| ==> st.own[f] == if f == 0 then Static(PAGE_DIR) else if f < 6 then Static(PAGE_TAB) else NoOne
      ensures fresh(ivptab) && fresh(links) && fresh(mem) && fresh(bsmap) && fresh(bstab) && |st.own| == n
    {
      ivptab := new Ivent[n + 2](i => Ivent(if i == 0 then PAGE_DIR else if i < 6 then PAGE_TAB else NULL_PAGE, i, 0, 0, 0));
      links := new Link[n + 2](i => if i == n then Link(NONE, n + 1) else if i == n + 1 then Link(n, NONE) else Link(NONE, NONE));
      mem := new Content[n](i => StaticFrame(i));
      bsmap := new Bsent[MAX_BS](i => Bsent(false, 0, 0, 0));
      bstab := new Bs[MAX_BS](i => Bs(false, false, 0, 0));
      this.disk := disk;
      pdbr := map[0 := 0];
      fifoHand := n;
      currpolicy := 0;
      st := InitVm(n, disk);
      new;
      InitOk(n, disk);
      InitShows(ivptab[..], links[..], mem[..], n, disk);
      assert bsmap[..] == st.bsmap && bstab[..] == st.bstab;
    }
  }

  lemma ResidentFrames(s: Vm)
    requires VmInv(s, -1)
    ensures Distinct(s.res) && forall j :: 0 <= j < |s.res| ==> 0 <= s.res[j] < |s.own|
  {
    assert VmInvSpelledOut(s);
  }

  /** The tail's neighbour is another entry. */
  lemma TailApart(ivt: seq<Ivent>, links: seq<Link>, mem: seq<Content>, s: Vm, skip: int)
    requires Shows(ivt, links, mem, s, -1, skip)
    ensures 0 <= links[TailOf(s)].next < |links| && links[TailOf(s)].next != TailOf(s)
  {
    assert ShowsSpelledOut(s);
    EndsAt(links, Chain(s));
    assert Chain(s)[0] != Chain(s)[1];
  }

  /** What page-out needs to know of the tables, and what it does to them. */
  lemma OutFacts(ivt: seq<Ivent>, links: seq<Link>, mem: seq<Content>, s: Vm, f: int)
    requires Shows(ivt, links, mem, s, -1, -1) && VmInv(s, -1) && 0 <= f < |s.own| && s.own[f].PageOf?
    ensures |ivt| == |links| == |mem| + 2 && |mem| == |s.own| && Sized(s)
    ensures 0 <= links[f].prev < |links| && 0 <= links[f].next < |links| && links[f].prev != f && links[f].next != f
    ensures var pid, idx, k := s.own[f].pid, s.own[f].vpn / 1024, s.own[f].vpn % 1024;
      && ivt[f].pid == pid && ivt[f].vpage_num == s.own[f].vpn && ivt[f].ref_count == 0 && ivt[f].frame_number == f && mem[f] == Data(s.data[f])
      && pid > 0 && pid in s.dir && (pid, idx) in s.tab && 4 <= idx < 576 && 0 <= k < 1024 && Mapped(s, pid, s.own[f].vpn)
      && Served(s.bstab, Store(s, pid, s.own[f].vpn), Offset(s, pid, s.own[f].vpn)) && InStore(Store(s, pid, s.own[f].vpn), Offset(s, pid, s.own[f].vpn))
      && var d, b := s.dir[pid], s.tab[(pid, idx)];
         && 0 <= d < |mem| && 0 <= b < |mem| && d != b && b != f && d != f
         && mem[d].Dir? && |mem[d].pdes| == 1024 && mem[d].pdes[idx] == Pde(true, b + 1024)
         && mem[b].Table? && |mem[b].ptes| == 1024 && mem[b].ptes[k] == Pte(true, s.bits[f].acc, s.bits[f].dirty, f + 1024)
         && VmInv(PagedOut(s, f), -1) && Shows(RefDown(ivt, b), Unlinked(links, f), EntryGone(mem, b, k), PagedOut(s, f), -1, f)
  {
    Lookup(ivt, links, mem, s, f);
    PageSlot(s, f, -1);
    MappedSlot(s, s.own[f].pid, s.own[f].vpn);
    PagedOutKeeps(s, f, -1);
    PagedOutShows(ivt, links, mem, s, f, s.tab[(s.own[f].pid, s.own[f].vpn / 1024)], s.own[f].vpn % 1024);
    Apart(ivt, links, mem, s, f);
  }

  lemma Apart(ivt: seq<Ivent>, links: seq<Link>, mem: seq<Content>, s: Vm, f: int)
    requires Shows(ivt, links, mem, s, -1, -1) && VmInv(s, -1) && 0 <= f < |s.own| && s.own[f].PageOf?
    ensures 0 <= links[f].prev < |links| && 0 <= links[f].next < |links| && links[f].prev != f && links[f].next != f
  {
    assert ShowsSpelledOut(s) && VmInvSpelledOut(s);
    var c, j := Chain(s), IndexOf(s.res, f);
    assert c[j + 1] == f;
    NeighboursAt(links, c, j + 1);
    assert c[j] != c[j + 1] && c[j + 2] != c[j + 1];
  }

  // ---- the clock

  /** From place k the clock ends where it would have ended from its start. */
  ghost predicate SameEnd(s0: Vm, bits: seq<Bits>, k: int)
    requires ClockOk(s0.bits, s0.res) && ClockOk(bits, s0.res) && 0 <= k < |s0.res| && 0 <= StartPlace(s0) < |s0.res|
  {
    var a, b := Sweep(s0.bits, s0.res, StartPlace(s0)), Sweep(bits, s0.res, k);
    a.0 == b.0 && a.1 == b.1
  }

  /** What one examination at place k means for the clock. */
  lemma ClockHere(s: Vm, k: int)
    requires 0 <= k < |s.res| && ClockOk(s.bits, s.res)
    ensures var f := s.res[k];
      && 0 <= f < |s.bits| && (s.bits[f].dirty ==> s.bits[f].acc)
      && var r := Sweep(s.bits, s.res, k);
         if !s.bits[f].acc then r.0 == k && r.1 == s.bits
         else
           var bits := s.bits[f := Aged(s.bits[f])];
           && ClockOk(bits, s.res) && Weight(bits, s.res) == Weight(s.bits, s.res) - 1
           && var r' := Sweep(bits, s.res, NextPlace(|s.res|, k)); r'.0 == r.0 && r'.1 == r.1
  {
    if s.bits[s.res[k]].acc {
      AgedKeeps(s.bits, s.res, k);
    }
  }

  lemma SweepStarts(s: Vm)
    requires ClockOk(s.bits, s.res) && 0 <= StartPlace(s) < |s.res|
    ensures SameEnd(s, s.bits, StartPlace(s))
  {
  }

  lemma SweepFacts(s: Vm)
    requires VmInv(s, -1) && Quiet(s)
    ensures |s.bits| == |s.own| && (s.res != [] ==> ClockOk(s.bits, s.res))
    ensures HandOk(s) && s.res != [] ==> 0 <= StartPlace(s) < |s.res| && (s.hand != HeadOf(s) ==> s.res[StartPlace(s)] == s.hand)
    ensures HeadOf(s) !in s.res && TailOf(s) !in s.res
  {
    Clock(s);
  }

  lemma HandShows(ivt: seq<Ivent>, links: seq<Link>, mem: seq<Content>, s: Vm, hand: int)
    requires Shows(ivt, links, mem, s, -1, -1)
    ensures Shows(ivt, links, mem, s.(hand := hand), -1, -1)
  {
    assert ShowsSpelledOut(s);
    var s' := s.(hand := hand);
    assert Chain(s') == Chain(s);
    forall g | 0 <= g < |s'.own|
      ensures FrameShows(ivt[g], mem[g], s', g, -1)
    {
      assert s.own[g] == s'.own[g];
      FrameSame(ivt[g], mem[g], s, s', g, -1);
    }
    assert ShowsAll(ivt, links, mem, s', -1, -1);
  }

  /** Where the links lead: from the head to the oldest page, from a page to the next newer. */
  lemma HandMoves(ivt: seq<Ivent>, links: seq<Link>, mem: seq<Content>, s: Vm, k: int)
    requires Shows(ivt, links, mem, s, -1, -1) && VmInv(s, -1)
    ensures links[HeadOf(s)].prev == if s.res == [] then TailOf(s) else s.res[|s.res| - 1]
    ensures 0 <= k < |s.res| ==> 0 <= s.res[k] < |links| && links[s.res[k]].prev == if k == 0 then TailOf(s) else s.res[k - 1]
    ensures Shows(ivt, links, mem, s.(hand := links[HeadOf(s)].prev), -1, -1) && VmInv(s.(hand := links[HeadOf(s)].prev), -1)
  {
    assert ShowsSpelledOut(s);
    var c := Chain(s);
    EndsAt(links, c);
    if 0 <= k < |s.res| {
      assert c[k + 1] == s.res[k];
      NeighboursAt(links, c, k + 1);
    }
    HandShows(ivt, links, mem, s, links[HeadOf(s)].prev);
    HandInv(s, links[HeadOf(s)].prev);
  }

  lemma HandInv(s: Vm, hand: int)
    requires VmInv(s, -1)
    ensures VmInv(s.(hand := hand), -1)
  {
    assert VmInvSpelledOut(s);
    var s' := s.(hand := hand);
    forall g | 0 <= g < |s'.own|
      ensures Owned(s', g)
    {
      assert Owned(s, g);
    }
    assert Frames(s');
    assert VmCore(s', -1);
  }

  lemma ExamineFacts(ivt: seq<Ivent>, links: seq<Link>, mem: seq<Content>, s: Vm, k: int)
    requires Shows(ivt, links, mem, s, -1, -1) && VmInv(s, -1) && Quiet(s) && 0 <= k < |s.res|
    ensures |ivt| == |links| == |mem| + 2 && |mem| == |s.own| == |s.data| == |s.bits|
    ensures 0 <= s.res[k] < |s.own| && s.own[s.res[k]].PageOf? && ivt[s.res[k]].frame_number == s.res[k]
    ensures var f := s.res[k];
      var pid, idx, q := s.own[f].pid, s.own[f].vpn / 1024, s.own[f].vpn % 1024;
      && ivt[f].pid == pid && ivt[f].vpage_num == s.own[f].vpn && pid in s.dir && (pid, idx) in s.tab && 0 <= idx < 1024 && 0 <= q < 1024
      && var d, b := s.dir[pid], s.tab[(pid, idx)];
         && 0 <= d < |mem| && 0 <= b < |mem| && mem[d].Dir? && |mem[d].pdes| == 1024 && mem[d].pdes[idx].base == b + 1024
         && mem[b].Table? && |mem[b].ptes| == 1024 && mem[b].ptes[q] == Pte(true, s.bits[f].acc, s.bits[f].dirty, f + 1024)
    ensures links[s.res[k]].prev == if k == 0 then TailOf(s) else s.res[k - 1]
    ensures links[|mem|].prev == s.res[|s.res| - 1]
  {
    Clock(s);
    Lookup(ivt, links, mem, s, s.res[k]);
    HandMoves(ivt, links, mem, s, k);
  }

  lemma AgeFacts(ivt: seq<Ivent>, links: seq<Link>, mem: seq<Content>, s: Vm, k: int, b: int, q: int)
    requires Shows(ivt, links, mem, s, -1, -1) && VmInv(s, -1) && Quiet(s) && 0 <= k < |s.res| && ClockOk(s.bits, s.res) && Weight1(s.bits[s.res[k]]) > 0
    requires 0 <= s.res[k] < |s.own| && s.own[s.res[k]].PageOf?
    requires var pid, vpn := s.own[s.res[k]].pid, s.own[s.res[k]].vpn;
      (pid, vpn / 1024) in s.tab && b == s.tab[(pid, vpn / 1024)] && q == vpn % 1024
    ensures 0 <= b < |mem| && mem[b].Table? && 0 <= q < |mem[b].ptes|
    ensures var f, bits := s.res[k], s.bits[s.res[k] := Aged(s.bits[s.res[k]])];
      && ClockOk(bits, s.res) && Weight(bits, s.res) == Weight(s.bits, s.res) - 1
      && forall hand :: VmInv(s.(bits := bits, hand := hand), -1) && Shows(ivt, links, EntryBits(mem, b, q, Aged(s.bits[f])), s.(bits := bits, hand := hand), -1, -1)
  {
    var f := s.res[k];
    var nb := Aged(s.bits[f]);
    var bits := s.bits[f := nb];
    Lookup(ivt, links, mem, s, f);
    AgedKeeps(s.bits, s.res, k);
    BitsShow(ivt, links, mem, s, f, b, q, nb, s.data[f]);
    assert EntryBits(mem, b, q, nb)[f := Data(s.data[f])] == EntryBits(mem, b, q, nb);
    var s1 := s.(bits := bits, data := s.data[f := s.data[f]]);
    assert s1 == s.(bits := bits);
    forall hand
      ensures VmInv(s.(bits := bits, hand := hand), -1) && Shows(ivt, links, EntryBits(mem, b, q, nb), s.(bits := bits, hand := hand), -1, -1)
    {
      VmInvBits(s, bits, hand);
      HandShows(ivt, links, EntryBits(mem, b, q, nb), s1, hand);
    }
  }

  lemma SkipShows(ivt: seq<Ivent>, links: seq<Link>, mem: seq<Content>, s: Vm, f: int)
    requires Shows(ivt, links, mem, s, -1, -1)
    ensures Shows(ivt, links, mem, s, -1, f)
  {
    assert ShowsSpelledOut(s);
    forall g | 0 <= g < |s.own| && g != f
      ensures FrameShows(ivt[g], mem[g], s, g, -1)
    {
      assert s.own[g] == NoOne || s.own[g] != NoOne;
    }
    assert ShowsAll(ivt, links, mem, s, -1, f);
  }

  /** A process's directory, and its entry for place p. */
  lemma DirAt(ivt: seq<Ivent>, links: seq<Link>, mem: seq<Content>, s: Vm, pid: int, p: int)
    requires Shows(ivt, links, mem, s, -1, -1) && VmInv(s, -1) && pid > 0 && pid in s.dir && 4 <= p < 576
    ensures var d := s.dir[pid];
      && 0 <= d < |mem| && mem[d].Dir? && |mem[d].pdes| == 1024
      && (mem[d].pdes[p].pres <==> (pid, p) in s.tab) && ((pid, p) in s.tab ==> mem[d].pdes[p].base == s.tab[(pid, p)] + 1024)
  {
    assert ShowsSpelledOut(s) && VmInvSpelledOut(s);
    assert InFrames(s, s.dir[pid], DirOf(pid));
    assert FrameShows(ivt[s.dir[pid]], mem[s.dir[pid]], s, s.dir[pid], -1);
    assert PdeShows(mem[s.dir[pid]].pdes[p], s, pid, p);
  }

  /** A process's table for place p. */
  lemma TableAt(ivt: seq<Ivent>, links: seq<Link>, mem: seq<Content>, s: Vm, pid: int, p: int)
    requires Shows(ivt, links, mem, s, -1, -1) && VmInv(s, -1) && pid > 0 && (pid, p) in s.tab && pid in s.dir
    ensures var b := s.tab[(pid, p)];
      0 <= b < |mem| == |s.own| && |ivt| == |mem| + 2 && mem[b].Table? && |mem[b].ptes| == 1024 && s.own[b] == TabOf(pid, p) && b != s.dir[pid]
  {
    assert ShowsSpelledOut(s) && VmInvSpelledOut(s);
    assert InFrames(s, s.dir[pid], DirOf(pid)) && InFrames(s, s.tab[(pid, p)], TabOf(pid, p));
    assert FrameShows(ivt[s.tab[(pid, p)]], mem[s.tab[(pid, p)]], s, s.tab[(pid, p)], -1);
  }

  /** The frame that get_free_frame_number hands out was unused or a page's. */
  lemma FrameWas(s: Vm, policy: int, kind: int, pid: int, vpn: int)
    requires VmInv(s, -1) && Quiet(s)
    ensures var g := GetFrame(s, policy, kind, pid, vpn); g.Got? ==> 0 <= g.frame < |s.own| && (s.own[g.frame] == NoOne || s.own[g.frame].PageOf?)
  {
    ChoiceIs(s, policy);
  }

  lemma FrameApart(s: Vm, f: int, pid: int)
    requires VmInv(s, -1) && 0 <= f < |s.own| && s.own[f].Claimed? && pid in s.dir
    ensures s.dir[pid] != f
  {
    assert VmInvSpelledOut(s);
    assert InFrames(s, s.dir[pid], DirOf(pid));
  }

  // ---- kill

  lemma OwnerAt(ivt: seq<Ivent>, links: seq<Link>, mem: seq<Content>, s: Vm, pid: int, i: int)
    requires Shows(ivt, links, mem, s, pid, -1) && VmInv(s, pid) && Quiet(s) && 0 <= i < |s.own| && pid > 0
    ensures |ivt| == |links| == |s.own| + 2 && |mem| == |s.own| && ivt[i].valid == Kind(s.own[i])
    ensures ivt[i].pid == pid ==> s.own[i] == NoOne || OwnerPid(s.own[i]) == pid
    ensures OwnerPid(s.own[i]) == pid ==> ivt[i].pid == pid && s.own[i] != NoOne
    ensures ivt[i].valid == PAGE ==> s.own[i].PageOf? && ivt[i].vpage_num == s.own[i].vpn && mem[i].Data? && |s.data| == |s.own| && mem[i].page == s.data[i]
    ensures ivt[i].valid == NULL_PAGE <==> s.own[i] == NoOne
  {
    assert ShowsSpelledOut(s);
    FrameOwned(s, i, pid);
    assert FrameShows(ivt[i], mem[i], s, i, pid);
  }

  /** What freeing one frame does to the parts that are not frames. */
  lemma KillFrameParts(s: Vm, pid: int, f: int)
    requires VmInv(s, pid) && Quiet(s) && 0 <= f < |s.own| && pid > 0
    ensures var s' := KillFrame(s, pid, f);
      && s'.bsmap == s.bsmap && s'.bstab == s.bstab && s'.hand == s.hand && (forall p :: p in s'.dir ==> p in s.dir && s'.dir[p] == s.dir[p])
      && (OwnerPid(s.own[f]) != pid ==> s' == s) && (!s.own[f].PageOf? ==> s'.disk == s.disk)
      && (s.own[f].PageOf? && s.own[f].pid == pid ==>
            && Mapped(s, pid, s.own[f].vpn) && InStore(Store(s, pid, s.own[f].vpn), Offset(s, pid, s.own[f].vpn)) && |s.data| == |s.own| && Roomy(s.disk)
            && s'.disk == Written(s.disk, Store(s, pid, s.own[f].vpn), Offset(s, pid, s.own[f].vpn), s.data[f], 8))
  {
    hide Written, Mapped;
    if s.own[f].PageOf? && s.own[f].pid == pid {
      PageSlot(s, f, pid);
    }
  }

  lemma DyingApart(ivt: seq<Ivent>, links: seq<Link>, mem: seq<Content>, s: Vm, pid: int, f: int)
    requires Shows(ivt, links, mem, s, pid, -1) && VmInv(s, pid) && 0 <= f < |s.own| && s.own[f].PageOf? && s.own[f].pid == pid
    ensures 0 <= links[f].prev < |links| && 0 <= links[f].next < |links| && links[f].prev != f && links[f].next != f
    ensures Mapped(s, pid, s.own[f].vpn) && Served(s.bstab, Store(s, pid, s.own[f].vpn), Offset(s, pid, s.own[f].vpn))
    ensures |mem| == |s.own| && Sized(s) && mem[f] == Data(s.data[f])
    ensures InStore(Store(s, pid, s.own[f].vpn), Offset(s, pid, s.own[f].vpn))
  {
    PageSlot(s, f, pid);
    MappedSlot(s, pid, s.own[f].vpn);
    assert ShowsSpelledOut(s) && VmInvSpelledOut(s);
    var c, j := Chain(s), IndexOf(s.res, f);
    assert c[j + 1] == f;
    NeighboursAt(links, c, j + 1);
    assert c[j] != c[j + 1] && c[j + 2] != c[j + 1];
  }

  /** An unused entry that still names the process is reset too. */
  lemma StaleShows(ivt: seq<Ivent>, links: seq<Link>, mem: seq<Content>, s: Vm, pid: int, i: int)
    requires Shows(ivt, links, mem, s, pid, -1) && 0 <= i < |s.own| && s.own[i] == NoOne
    ensures Shows(ivt[i := Reset(i)], links, mem, s, pid, -1)
  {
    assert ShowsSpelledOut(s);
    forall g | 0 <= g < |s.own|
      ensures FrameShows(ivt[i := Reset(i)][g], mem[g], s, g, pid)
    {
      assert s.own[g] == NoOne || s.own[g] != NoOne;
    }
    assert ShowsAll(ivt[i := Reset(i)], links, mem, s, pid, -1);
  }

  // ---- initialization and vcreate

  /** The directory and tables that map all of memory, and the device, to themselves. */
  function StaticFrame(i: int): Content {
    if i == 0 then Dir(NewDir())
    else if 1 <= i < 6 then Table(seq(1024, k => Pte(true, false, false, (if i == 5 then 576 else i - 1) * 1024 + k)))
    else Data(seq(4096, k => 0))
  }

  function InitVm(n: nat, disk: Disk): Vm {
    Vm(seq(n, f => if f == 0 then Static(PAGE_DIR) else if f < 6 then Static(PAGE_TAB) else NoOne), map[], map[], map[],
       [], seq(n, f => seq(4096, k => 0)), seq(n, f => Bits(false, false)), n, disk,
       seq(8, i => Bsent(false, 0, 0, 0)), seq(8, i => Bs(false, false, 0, 0)))
  }

  lemma InitOk(n: nat, disk: Disk)
    requires n >= 6 && Roomy(disk)
    ensures VmInv(InitVm(n, disk), -1) && Quiet(InitVm(n, disk)) && FreeStores(InitVm(n, disk).bstab) == 8
  {
    var s := InitVm(n, disk);
    forall i | 0 <= i < MAX_BS
      ensures StoreOk(s.bsmap[i], s.bstab[i])
    {
    }
    assert VmCore(s, -1);
    AllFree(s.bstab);
  }

  lemma {:induction false} AllFree(bstab: seq<Bs>)
    requires forall i :: 0 <= i < |bstab| ==> !bstab[i].isallocated && !bstab[i].isopen
    ensures FreeStores(bstab) == |bstab|
  {
    if bstab != [] {
      AllFree(bstab[..|bstab| - 1]);
    }
  }

  lemma InitShows(ivt: seq<Ivent>, links: seq<Link>, mem: seq<Content>, n: nat, disk: Disk)
    requires n >= 6 && |ivt| == |links| == n + 2 && |mem| == n
    requires forall i :: 0 <= i < n ==> ivt[i] == Ivent(if i == 0 then PAGE_DIR else if i < 6 then PAGE_TAB else NULL_PAGE, i, 0, 0, 0)
    requires links[n].prev == n + 1 && links[n + 1].next == n
    ensures Shows(ivt, links, mem, InitVm(n, disk), -1, -1)
  {
    var s := InitVm(n, disk);
    assert Chain(s) == [n + 1, n];
    assert Joined(links, Chain(s), 0);
    forall g | 0 <= g < n
      ensures FrameShows(ivt[g], mem[g], s, g, -1)
    {
      assert s.own[g] == if g == 0 then Static(PAGE_DIR) else if g < 6 then Static(PAGE_TAB) else NoOne;
    }
    assert ShowsAll(ivt, links, mem, s, -1, -1);
  }

  /** Only the stores differ. */
  lemma StoresShow(ivt: seq<Ivent>, links: seq<Link>, mem: seq<Content>, s: Vm, s': Vm)
    requires Shows(ivt, links, mem, s, -1, -1) && s' == s.(bsmap := s'.bsmap, bstab := s'.bstab)
    ensures Shows(ivt, links, mem, s', -1, -1)
  {
    assert ShowsSpelledOut(s);
    assert Chain(s') == Chain(s);
    forall g | 0 <= g < |s'.own|
      ensures FrameShows(ivt[g], mem[g], s', g, -1)
    {
      assert FrameShows(ivt[g], mem[g], s, g, -1);
      FrameSame(ivt[g], mem[g], s, s', g, -1);
    }
    assert ShowsAll(ivt, links, mem, s', -1, -1);
  }

  lemma StoresStay(s: Vm, policy: int, kind: int, pid: int, vpn: int)
    requires VmInv(s, -1) && Quiet(s)
    ensures var g := GetFrame(s, policy, kind, pid, vpn); g.Got? ==> g.s.bsmap == s.bsmap && g.s.bstab == s.bstab
  {
    ChoiceIs(s, policy);
  }
}
