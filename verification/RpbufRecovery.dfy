// How two ends of the rpbuf protocol come together again: after one of them has lost all it
// knew, and after one of them has freed a buffer that was available.
module RpbufRecovery {
  import opened RpbufView
  import opened RpbufProtocol

  // The message of an allocation tells what the allocating end has now, and whether it is
  // available there, which it is exactly when the other end's half was known.
  lemma AllocTells(role: Role, v: View, freeId: Option<nat>, name: Name, len: int, pa: nat, da: nat)
    ensures var (w, msg) := Alloc(role, v, freeId, name, len, pa, da);
            if msg.None? then w == v
            else
              && !Live(v, name) && Live(w, name) && w[name].buf.len == len
              && msg.value == Tell(w[name].buf, IsAvail(w, name)) && (IsAvail(w, name) <==> name in v)
  {
  }

  predicate Quiet(sys: Sys)
  {
    sys.m2s == [] && sys.s2m == []
  }

  predicate BothAvail(sys: Sys, n: Name)
  {
    IsAvail(sys.m, n) && IsAvail(sys.s, n)
  }

  predicate OneId(sys: Sys, n: Name)
    requires BothAvail(sys, n)
  {
    sys.m[n].buf.id == sys.s[n].buf.id
  }

  predicate OneLength(sys: Sys, n: Name)
    requires BothAvail(sys, n)
  {
    sys.m[n].buf.len == sys.s[n].buf.len
  }

  predicate OneAddress(sys: Sys, n: Name)
    requires BothAvail(sys, n)
  {
    sys.m[n].buf.pa == sys.s[n].buf.pa && sys.m[n].buf.da == sys.s[n].buf.da
  }

  predicate Agreed(sys: Sys, n: Name)
  {
    BothAvail(sys, n) && OneId(sys, n) && OneLength(sys, n) && OneAddress(sys, n)
  }

  lemma ThreeSteps(sys: Sys, a: Step, b: Step, c: Step)
    ensures Run(sys, [a, b, c]) == Next(Next(Next(sys, a), b), c)
  {
    hide Next;
    RunSteps(sys, a, [b, c]);
    RunSteps(Next(sys, a), b, [c]);
    RunSteps(Next(Next(sys, a), b), c, []);
  }

  lemma TwoSteps(sys: Sys, a: Step, b: Step)
    ensures Run(sys, [a, b]) == Next(Next(sys, a), b)
  {
    hide Next;
    RunSteps(sys, a, [b]);
    RunSteps(Next(sys, a), b, []);
  }

  // ----- one end has lost what it knew -----

  // A master that does not know a buffer the slave has available allocates it: the slave
  // answers, and the buffer is available again if the lengths agree and no other buffer is
  // in the slot. The slave keeps the old addresses, whatever memory the master now has.
  lemma MasterRecovers(sys: Sys, n: Name, len: int, pa: nat, da: nat)
    requires Quiet(sys) && ValidName(n) && n !in sys.m && IsAvail(sys.s, n) && Named(At(sys.s, n), n)
    ensures var end := Run(sys, [MasterAlloc(n, len, pa, da), ToSlave, ToMaster]);
            var b := sys.s[n].buf;
            && Quiet(end) && end.s == sys.s && Live(end.m, n)
            && (IsAvail(end.m, n) <==> len == b.len && SlotFree(sys.m, b.id))
            && (IsAvail(end.m, n) ==>
                  OneId(end, n) && OneLength(end, n) && (OneAddress(end, n) <==> pa == b.pa && da == b.da))
  {
    ThreeSteps(sys, MasterAlloc(n, len, pa, da), ToSlave, ToMaster);
    var b := sys.s[n].buf;
    var s1 := Next(sys, MasterAlloc(n, len, pa, da));
    assert s1.m == sys.m[n := Entry(Local, Buf(n, 0, len, pa, da, true))];
    assert s1.m2s == [Created(n, 0, len, pa, da, false)];
    var s2 := Next(s1, ToSlave);
    assert s2.s2m == [Tell(b, true)] && s2.m2s == [] && s2.s == sys.s;
    assert SlotFree(s1.m, b.id) <==> SlotFree(sys.m, b.id) by {
      if SlotFree(s1.m, b.id) {
        forall k | k in sys.m && sys.m[k].place.Avail? ensures sys.m[k].buf.id != b.id {
          assert s1.m[k] == sys.m[k];
        }
      }
    }
  }

  // A slave that does not know a buffer the master has available allocates it: it gets the
  // master's addresses, but keeps its own next id, which the master is not told.
  lemma SlaveRecovers(sys: Sys, n: Name, len: int)
    requires Quiet(sys) && ValidName(n) && n !in sys.s && IsAvail(sys.m, n) && Named(At(sys.m, n), n)
    requires IdsKept(Slave, sys.s, sys.marks) && FirstFree(sys.marks).Some?
    ensures var end := Run(sys, [SlaveAlloc(n, len), ToMaster, ToSlave]);
            var b := sys.m[n].buf;
            && Quiet(end) && end.m == sys.m && Live(end.s, n)
            && (IsAvail(end.s, n) <==> len == b.len)
            && (IsAvail(end.s, n) ==>
                  OneLength(end, n) && OneAddress(end, n) && (OneId(end, n) <==> FirstFree(sys.marks).value == b.id))
  {
    ThreeSteps(sys, SlaveAlloc(n, len), ToMaster, ToSlave);
    var b, id := sys.m[n].buf, FirstFree(sys.marks).value;
    var own := Buf(n, id, len, 0, 0, false);
    var s1 := Next(sys, SlaveAlloc(n, len));
    assert s1.s == sys.s[n := Entry(Local, own)] && s1.s2m == [Tell(own, false)];
    IdsNew(sys.s, sys.marks, own, Local);
    var s2 := Next(s1, ToMaster);
    assert s2.m2s == [Tell(b, true)] && s2.s2m == [] && s2.m == sys.m;
    SlaveSlot(s1.s, s1.marks, n);
  }

  // Either end restarts when a run has come to rest.
  function MasterLost(sys: Sys): Sys
  {
    sys.(m := map[])
  }

  function SlaveLost(sys: Sys): Sys
  {
    sys.(s := map[], marks := seq(SLOTS, _ => false))
  }

  lemma Restarts(steps: seq<Step>, n: Name, pa: nat, da: nat)
    requires var sys := Run(Start(), steps); Quiet(sys) && BothAvail(sys, n)
    ensures var sys := Run(Start(), steps);
            var end := Run(MasterLost(sys), [MasterAlloc(n, sys.s[n].buf.len, pa, da), ToSlave, ToMaster]);
            && Quiet(end) && BothAvail(end, n) && OneId(end, n) && OneLength(end, n)
            && (OneAddress(end, n) <==> pa == sys.m[n].buf.pa && da == sys.m[n].buf.da)
    ensures var sys := Run(Start(), steps);
            var end := Run(SlaveLost(sys), [SlaveAlloc(n, sys.m[n].buf.len), ToMaster, ToSlave]);
            && Quiet(end) && BothAvail(end, n) && OneLength(end, n) && OneAddress(end, n)
            && (OneId(end, n) <==> sys.m[n].buf.id == 0)
  {
    hide Run, Next;
    var sys := Run(Start(), steps);
    StartInv();
    RunInv(Start(), steps);
    assert FineAt(sys, n);
    MasterRecovers(MasterLost(sys), n, sys.s[n].buf.len, pa, da);
    NothingUsed();
    SlaveRecovers(SlaveLost(sys), n, sys.m[n].buf.len);
  }

  lemma NothingUsed()
    ensures var none := seq(SLOTS, _ => false); IdsKept(Slave, map[], none) && FirstFree(none) == Some(0)
  {
    StartInv();
    assert FirstFree(seq(SLOTS, _ => false)) == Some(0);
  }

  // ----- one end has freed the buffer -----

  // A destruction message means the available buffer with the id exactly when no kept one
  // has the id.
  lemma DestroysAvailable(v: View, w: View, n: Name, ok: bool, name: Name)
    requires IsAvail(v, n) && DestroysTo(v, w, v[n].buf.id, ok, name)
    requires forall k :: IsAvail(v, k) && v[k].buf.id == v[n].buf.id ==> k == n
    ensures ok && (name == n <==> NoneKept(v, v[n].buf.id))
    ensures name == n ==> w == v[n := Entry(Local, v[n].buf)]
  {
  }

  // What frees on the slave and on the master do to the two ends, with their messages
  // delivered.
  ghost predicate SlaveFreed(sys: Sys, n: Name, next: Sys)
    requires Live(sys.s, n) && sys.s[n].buf.id < |sys.marks|
  {
    var id := sys.s[n].buf.id;
    && next == sys.(s := Free(sys.s, n), marks := sys.marks[id := false], m := next.m)
    && exists ok, name :: DestroysTo(sys.m, next.m, id, ok, name)
  }

  ghost predicate MasterFreed(sys: Sys, n: Name, next: Sys)
    requires Live(sys.m, n)
  {
    && next == sys.(m := Free(sys.m, n), s := next.s)
    && exists ok, name :: DestroysTo(sys.s, next.s, sys.m[n].buf.id, ok, name)
  }

  lemma OneAvailable(sys: Sys, n: Name, k: Name)
    requires Inv(sys) && IsAvail(sys.m, n) && IsAvail(sys.m, k) && sys.m[n].buf.id == sys.m[k].buf.id
    ensures n == k
  {
    assert FineAt(sys, n) && FineAt(sys, k);
  }

  lemma NoneKeptThere(sys: Sys, n: Name)
    requires Inv(sys) && IsAvail(sys.m, n)
    ensures NoneKept(sys.m, sys.m[n].buf.id)
  {
    assert FineAt(sys, n);
    forall k | k in sys.m && sys.m[k].place.Remote? ensures sys.m[k].buf.id != sys.m[n].buf.id {
      assert FineAt(sys, k);
    }
  }

  // What the two ends have in between,
  lemma AfterSlaveFreed(sys: Sys, n: Name, next: Sys)
    requires Inv(sys) && Quiet(sys) && BothAvail(sys, n) && SlaveFreed(sys, n, next)
    ensures next.m == sys.m[n := Entry(Local, sys.m[n].buf)] && next.s == sys.s[n := Entry(Remote, sys.s[n].buf)]
    ensures |sys.marks| == SLOTS && next.marks == sys.marks[sys.s[n].buf.id := false]
    ensures Quiet(next) && IdsKept(Slave, next.s, next.marks)
    ensures Agreed(sys, n) && sys.m[n].buf.owned && sys.m[n].buf.id < SLOTS && ValidName(n) && sys.m[n].buf.name == n
  {
    assert FineAt(sys, n);
    var id := sys.s[n].buf.id;
    var ok, name :| DestroysTo(sys.m, next.m, id, ok, name);
    FreedIds(Slave, sys.s, sys.marks, n);
    hide IdsKept, Inv;
    NoneKeptThere(sys, n);
    forall k | IsAvail(sys.m, k) && sys.m[k].buf.id == id ensures k == n {
      OneAvailable(sys, n, k);
    }
    DestroysAvailable(sys.m, next.m, n, ok, name);
    IdsCount(Slave, next.s, next.marks);
  }

  // and what comes of allocating again.
  lemma AllocatedAgain(next: Sys, n: Name, mine: Buf, kept: Buf, id: nat)
    requires Quiet(next) && IdsKept(Slave, next.s, next.marks) && FirstFree(next.marks) == Some(id)
    requires At(next.s, n) == Some(Entry(Remote, kept)) && At(next.m, n) == Some(Entry(Local, mine))
    requires mine.owned && mine.name == n && ValidName(n)
    requires kept.len == mine.len && kept.pa == mine.pa && kept.da == mine.da && SlotFree(next.m, id)
    ensures var end := Run(next, [SlaveAlloc(n, mine.len), ToMaster]);
            Quiet(end) && Agreed(end, n) && end.m[n].buf == mine.(id := id)
  {
    var again := Buf(n, id, mine.len, mine.pa, mine.da, false);
    MarksCount(next.s, next.marks);
    IdsNew(next.s, next.marks, again, Avail);
    hide IdsKept;
    TwoSteps(next, SlaveAlloc(n, mine.len), ToMaster);
    var s1 := Next(next, SlaveAlloc(n, mine.len));
    assert s1 == next.(s := next.s[n := Entry(Avail, again)], s2m := [Tell(again, true)], marks := s1.marks);
    Completed(s1, n, mine, Tell(again, true));
  }

  // The master's half fits the slave's.
  lemma Completed(sys: Sys, n: Name, mine: Buf, msg: Msg)
    requires sys.m2s == [] && sys.s2m == [msg] && msg.name == n && msg.len == mine.len && msg.id < SLOTS
    requires At(sys.m, n) == Some(Entry(Local, mine)) && mine.owned && SlotFree(sys.m, msg.id)
    ensures Next(sys, ToMaster) == sys.(m := sys.m[n := Entry(Avail, mine.(id := msg.id))], s2m := [])
  {
  }

  // A slave that frees an available buffer and allocates it again gets it back as it was,
  // but for the id, on which the ends agree again.
  lemma SlaveReturns(sys: Sys, n: Name, next: Sys)
    requires Inv(sys) && Quiet(sys) && BothAvail(sys, n) && SlaveFreed(sys, n, next)
    ensures !IsAvail(next.m, n) && !Live(next.s, n)
    ensures var end := Run(next, [SlaveAlloc(n, sys.s[n].buf.len), ToMaster]);
            && Quiet(end) && Agreed(end, n)
            && end.m[n].buf == sys.m[n].buf.(id := end.m[n].buf.id)
            && Some(end.m[n].buf.id) == FirstFree(sys.marks[sys.s[n].buf.id := false])
  {
    hide Run, Next, IdsKept, Inv;
    AfterSlaveFreed(sys, n, next);
    assert !next.marks[sys.s[n].buf.id];
    var id := FirstFree(next.marks).value;
    OtherSlot(sys, n, id);
    AllocatedAgain(next, n, sys.m[n].buf, sys.s[n].buf, id);
  }

  // A slave's next id is in no slot of the master but, at most, that of the freed buffer.
  lemma OtherSlot(sys: Sys, n: Name, id: nat)
    requires Inv(sys) && BothAvail(sys, n) && id < SLOTS && |sys.marks| == SLOTS
    requires !sys.marks[id] || id == sys.s[n].buf.id
    ensures SlotFree(sys.m[n := Entry(Local, sys.m[n].buf)], id)
  {
    assert FineAt(sys, n);
    forall k | k != n && k in sys.m && sys.m[k].place.Avail? ensures sys.m[k].buf.id != id {
      assert FineAt(sys, k);
      assert Uses(sys.s, k, sys.m[k].buf.id) && Uses(sys.s, n, sys.s[n].buf.id);
    }
  }

  // A master takes over what it has kept, and the slave's half fits it.
  lemma TakenOver(next: Sys, n: Name, b: Buf, held: Buf, pa: nat, da: nat)
    requires Quiet(next) && ValidName(n) && b.name == n && b.owned && b.id < SLOTS
    requires At(next.m, n) == Some(Entry(Remote, b)) && At(next.s, n) == Some(Entry(Local, held))
    requires held.name == n && held.id == b.id && held.len == b.len && SlotFree(next.s, b.id)
    ensures var end := Run(next, [MasterAlloc(n, b.len, pa, da), ToSlave]);
            Quiet(end) && Agreed(end, n) && end.m[n].buf == b.(pa := 0)
  {
    TwoSteps(next, MasterAlloc(n, b.len, pa, da), ToSlave);
    var s1 := Next(next, MasterAlloc(n, b.len, pa, da));
    assert s1.m[n] == Entry(Avail, b.(pa := 0)) && s1.m2s == [Tell(b.(pa := 0), true)] && s1.s == next.s;
  }

  // A master's buffer comes back, too, exactly if the slave keeps no other buffer with the
  // id, but without its physical address on either end.
  lemma MasterReturns(sys: Sys, n: Name, pa: nat, da: nat, next: Sys)
    requires Inv(sys) && Quiet(sys) && BothAvail(sys, n) && MasterFreed(sys, n, next)
    ensures !Live(next.m, n) && (!IsAvail(next.s, n) <==> NoneKept(sys.s, sys.s[n].buf.id))
    ensures !IsAvail(next.s, n) ==>
              var end := Run(next, [MasterAlloc(n, sys.m[n].buf.len, pa, da), ToSlave]);
              Quiet(end) && Agreed(end, n) && end.m[n].buf == sys.m[n].buf.(pa := 0)
  {
    hide Run, Next;
    assert FineAt(sys, n);
    var b, id := sys.m[n].buf, sys.m[n].buf.id;
    var ok, name :| DestroysTo(sys.s, next.s, id, ok, name);
    DestroysAvailable(sys.s, next.s, n, ok, name);
    if name == n {
      forall k | k in next.s && next.s[k].place.Avail? ensures next.s[k].buf.id != id {
        assert Live(sys.s, k) && Live(sys.s, n);
      }
      TakenOver(next, n, b, sys.s[n].buf, pa, da);
    }
  }
}
