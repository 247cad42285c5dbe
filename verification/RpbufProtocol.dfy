// Two ends of the rpbuf protocol and the two channels between them. While buffers are only
// allocated, in any interleaving with the deliveries, the ends agree on what is available.
module RpbufProtocol {
  import opened Bytes
  import opened RpbufView

  // Messages are taken from the front of a channel.
  datatype Sys = Sys(m: View, s: View, marks: seq<bool>, m2s: seq<Msg>, s2m: seq<Msg>)

  datatype Step =
    | MasterAlloc(name: Name, len: int, pa: nat, da: nat)
    | SlaveAlloc(name: Name, len: int)
    | ToSlave
    | ToMaster

  function Start(): Sys
  {
    Sys(map[], map[], seq(SLOTS, _ => false), [], [])
  }

  function Send(q: seq<Msg>, msg: Option<Msg>): seq<Msg>
  {
    if msg.Some? then q + [msg.value] else q
  }

  function Next(sys: Sys, step: Step): Sys
  {
    match step
    case MasterAlloc(name, len, pa, da) =>
      var (m, msg) := Alloc(Master, sys.m, None, name, len, pa, da);
      sys.(m := m, m2s := Send(sys.m2s, msg))
    case SlaveAlloc(name, len) =>
      var (s, msg) := Alloc(Slave, sys.s, FirstFree(sys.marks), name, len, 0, 0);
      sys.(s := s, s2m := Send(sys.s2m, msg),
           marks := if msg.Some? && msg.value.id < |sys.marks| then sys.marks[msg.value.id := true] else sys.marks)
    case ToSlave =>
      if sys.m2s == [] then sys
      else
        var (s, reply) := Receive(Slave, sys.s, sys.m2s[0], 0, 0);
        sys.(s := s, m2s := sys.m2s[1..], s2m := Send(sys.s2m, reply))
    case ToMaster =>
      if sys.s2m == [] then sys
      else
        var (m, reply) := Receive(Master, sys.m, sys.s2m[0], 0, 0);
        sys.(m := m, s2m := sys.s2m[1..], m2s := Send(sys.m2s, reply))
  }

  function Run(sys: Sys, steps: seq<Step>): Sys
    decreases |steps|
  {
    if steps == [] then sys else Run(Next(sys, steps[0]), steps[1..])
  }

  // ----- what is true of each name -----

  function At(v: View, n: Name): Option<Entry>
  {
    if n in v then Some(v[n]) else None
  }

  // The message about a name that is on its way, if there is one.
  function Pending(q: seq<Msg>, n: Name): Option<Msg>
  {
    if q == [] then None else if q[0].name == n then Some(q[0]) else Pending(q[1..], n)
  }

  ghost predicate OncePerName(q: seq<Msg>)
  {
    forall i, j :: 0 <= i < j < |q| ==> q[i].name != q[j].name
  }

  predicate Has(e: Option<Entry>)
  {
    e.Some? && !e.value.place.Remote?
  }

  predicate Kept(e: Option<Entry>)
  {
    e.Some? && e.value.place.Remote?
  }

  predicate Ready(e: Option<Entry>)
  {
    e.Some? && e.value.place.Avail?
  }

  predicate Named(e: Option<Entry>, n: Name)
  {
    e.Some? ==> ValidName(n) && e.value.buf.name == n && e.value.buf.id < SLOTS
  }

  // The two ends' entries for a name, and the messages on their way to the slave and to
  // the master. What an end knows follows from who has allocated the name and which of
  // the two messages has arrived.
  predicate Fine(n: Name, m: Option<Entry>, s: Option<Entry>, toSlave: Option<Msg>, toMaster: Option<Msg>)
  {
    && Named(m, n) && Named(s, n)
    && (toSlave.Some? ==>
          Has(m) && toSlave.value
            == Created(n, toSlave.value.id, m.value.buf.len, m.value.buf.pa, m.value.buf.da, toSlave.value.avail)
                          && toSlave.value.id < SLOTS)
    && (toMaster.Some? ==>
          Has(s) && toMaster.value
            == Created(n, s.value.buf.id, s.value.buf.len, toMaster.value.pa, toMaster.value.da, toMaster.value.avail))
    && (Has(m) ==> m.value.buf.owned)
    && (Kept(s) <==> Has(m) && toSlave.None? && !Has(s))
    && (Kept(s) ==>
          s.value.buf.len == m.value.buf.len && s.value.buf.pa == m.value.buf.pa && s.value.buf.da == m.value.buf.da)
    && (Kept(m) <==> Has(s) && toMaster.None? && !Has(m))
    && (Kept(m) ==> m.value.buf.len == s.value.buf.len && m.value.buf.id == s.value.buf.id && !m.value.buf.owned)
    && (Ready(s) <==> Has(m) && Has(s) && toSlave.None? && m.value.buf.len == s.value.buf.len)
    && (Ready(s) ==> s.value.buf.pa == m.value.buf.pa && s.value.buf.da == m.value.buf.da)
    && (Ready(m) <==> Has(m) && Has(s) && toMaster.None? && m.value.buf.len == s.value.buf.len)
    && (Ready(m) ==> m.value.buf.id == s.value.buf.id)
  }

  ghost predicate FineAt(sys: Sys, n: Name)
  {
    Fine(n, At(sys.m, n), At(sys.s, n), Pending(sys.m2s, n), Pending(sys.s2m, n))
  }

  ghost predicate Inv(sys: Sys)
  {
    && OncePerName(sys.m2s) && OncePerName(sys.s2m)
    && IdsKept(Slave, sys.s, sys.marks)
    && forall n :: FineAt(sys, n)
  }

  // ----- channels -----

  lemma {:induction false} PendingSend(q: seq<Msg>, msg: Msg, n: Name)
    requires OncePerName(q) && Pending(q, msg.name).None?
    ensures Pending(q + [msg], n) == if n == msg.name then Some(msg) else Pending(q, n)
    ensures OncePerName(q + [msg])
  {
    if q != [] {
      PendingSend(q[1..], msg, n);
      assert (q + [msg])[1..] == q[1..] + [msg];
      NotPending(q, msg.name);
    }
  }

  lemma {:induction false} NotPending(q: seq<Msg>, n: Name)
    ensures Pending(q, n).None? <==> forall i :: 0 <= i < |q| ==> q[i].name != n
    ensures Pending(q, n).Some? ==> Pending(q, n).value.name == n
  {
    if q != [] {
      NotPending(q[1..], n);
      assert forall i :: 0 < i < |q| ==> q[i] == q[1..][i - 1];
    }
  }

  lemma PendingTake(q: seq<Msg>, n: Name)
    requires OncePerName(q) && q != []
    ensures Pending(q, q[0].name) == Some(q[0])
    ensures Pending(q[1..], n) == if n == q[0].name then None else Pending(q, n)
    ensures OncePerName(q[1..])
  {
    NotPending(q[1..], n);
  }

  // ----- slots -----

  lemma MasterSlot(sys: Sys, n: Name)
    requires Inv(sys) && Live(sys.s, n) && !IsAvail(sys.m, n)
    ensures SlotFree(sys.m, sys.s[n].buf.id) && Vacated(sys.m, sys.s[n].buf.id) == sys.m
  {
    forall k | k in sys.m && sys.m[k].place.Avail? ensures sys.m[k].buf.id != sys.s[n].buf.id {
      assert FineAt(sys, k);
    }
  }

  lemma SlaveSlot(s: View, marks: seq<bool>, n: Name)
    requires IdsKept(Slave, s, marks) && Live(s, n) && !IsAvail(s, n)
    ensures SlotFree(s, s[n].buf.id)
  {
  }

  lemma SlaveIdsStay(s: View, marks: seq<bool>, msg: Msg)
    requires IdsKept(Slave, s, marks) && (msg.name !in s ==> ValidName(msg.name))
    ensures IdsKept(Slave, Receive(Slave, s, msg, 0, 0).0, marks)
  {
    IdsSame(Slave, s, Receive(Slave, s, msg, 0, 0).0, marks);
  }

  // ----- the steps keep the invariant -----

  lemma StartInv()
    ensures Inv(Start())
  {
    assert forall v: View, n: Name, i: nat :: v == map[] ==> !Uses(v, n, i);
  }

  lemma MasterAllocInv(sys: Sys, name: Name, len: int, pa: nat, da: nat)
    requires Inv(sys)
    ensures Inv(Next(sys, MasterAlloc(name, len, pa, da)))
  {
    var next := Next(sys, MasterAlloc(name, len, pa, da));
    assert FineAt(sys, name);
    if name in sys.m && !Live(sys.m, name) {
      MasterSlot(sys, name);
    }
    var (m, msg) := Alloc(Master, sys.m, None, name, len, pa, da);
    forall n ensures FineAt(next, n) {
      assert FineAt(sys, n);
      if msg.Some? {
        PendingSend(sys.m2s, msg.value, n);
      }
    }
    if msg.Some? {
      PendingSend(sys.m2s, msg.value, name);
    }
  }

  lemma SlaveAllocInv(sys: Sys, name: Name, len: int)
    requires Inv(sys)
    ensures Inv(Next(sys, SlaveAlloc(name, len)))
  {
    var next := Next(sys, SlaveAlloc(name, len));
    assert FineAt(sys, name);
    var (s, msg) := Alloc(Slave, sys.s, FirstFree(sys.marks), name, len, 0, 0);
    if msg.Some? {
      IdsNew(sys.s, sys.marks, s[name].buf, s[name].place);
    }
    forall n ensures FineAt(next, n) {
      assert FineAt(sys, n);
      if msg.Some? {
        PendingSend(sys.s2m, msg.value, n);
      }
    }
    if msg.Some? {
      PendingSend(sys.s2m, msg.value, name);
    }
  }

  lemma ToSlaveInv(sys: Sys)
    requires Inv(sys)
    ensures Inv(Next(sys, ToSlave))
  {
    if sys.m2s != [] {
      var next, msg := Next(sys, ToSlave), sys.m2s[0];
      PendingTake(sys.m2s, msg.name);
      assert FineAt(sys, msg.name);
      if Live(sys.s, msg.name) {
        SlaveSlot(sys.s, sys.marks, msg.name);
      }
      SlaveIdsStay(sys.s, sys.marks, msg);
      hide IdsKept;
      forall n ensures FineAt(next, n) {
        assert FineAt(sys, n);
        PendingTake(sys.m2s, n);
      }
    }
  }

  lemma ToMasterInv(sys: Sys)
    requires Inv(sys)
    ensures Inv(Next(sys, ToMaster))
  {
    if sys.s2m != [] {
      var next, msg := Next(sys, ToMaster), sys.s2m[0];
      PendingTake(sys.s2m, msg.name);
      assert FineAt(sys, msg.name);
      MasterSlot(sys, msg.name);
      forall n ensures FineAt(next, n) {
        assert FineAt(sys, n);
        PendingTake(sys.s2m, n);
      }
    }
  }

  lemma {:induction false} RunInv(sys: Sys, steps: seq<Step>)
    requires Inv(sys)
    ensures Inv(Run(sys, steps))
    decreases |steps|
  {
    if steps != [] {
      hide Inv, Next;
      match steps[0] {
        case MasterAlloc(name, len, pa, da) => MasterAllocInv(sys, name, len, pa, da);
        case SlaveAlloc(name, len) => SlaveAllocInv(sys, name, len);
        case ToSlave => ToSlaveInv(sys);
        case ToMaster => ToMasterInv(sys);
      }
      RunInv(Next(sys, steps[0]), steps[1..]);
    }
  }

  // ----- agreement -----

  // A name that is available on both ends has the same id, length and addresses there.
  lemma Agreement(steps: seq<Step>, n: Name)
    ensures var sys := Run(Start(), steps);
            IsAvail(sys.m, n) && IsAvail(sys.s, n) ==>
              && sys.m[n].buf.id == sys.s[n].buf.id && sys.m[n].buf.len == sys.s[n].buf.len
              && sys.m[n].buf.pa == sys.s[n].buf.pa && sys.m[n].buf.da == sys.s[n].buf.da
  {
    StartInv();
    RunInv(Start(), steps);
    assert FineAt(Run(Start(), steps), n);
  }

  // Once nothing is on its way, a name is available on both ends exactly when both have
  // allocated it with one length.
  lemma Quiescence(steps: seq<Step>, n: Name)
    ensures var sys := Run(Start(), steps);
            sys.m2s == [] && sys.s2m == [] ==>
              (IsAvail(sys.m, n) && IsAvail(sys.s, n) <==>
                 Live(sys.m, n) && Live(sys.s, n) && sys.m[n].buf.len == sys.s[n].buf.len)
  {
    StartInv();
    RunInv(Start(), steps);
    assert FineAt(Run(Start(), steps), n);
  }

  // Deliveries are not answered, so that they empty the channels.
  lemma {:induction false} Drains(sys: Sys)
    requires Inv(sys)
    ensures var end := Run(sys, Repeat(ToSlave, |sys.m2s|) + Repeat(ToMaster, |sys.s2m|));
            Inv(end) && end.m2s == [] && end.s2m == []
    decreases |sys.m2s| + |sys.s2m|
  {
    hide Inv, Next, Run, Repeat;
    NotAnswered(sys);
    Deliveries(|sys.m2s|, |sys.s2m|);
    if sys.m2s != [] {
      ToSlaveInv(sys);
      Drains(Next(sys, ToSlave));
      RunSteps(sys, ToSlave, Repeat(ToSlave, |sys.m2s| - 1) + Repeat(ToMaster, |sys.s2m|));
    } else if sys.s2m != [] {
      ToMasterInv(sys);
      Drains(Next(sys, ToMaster));
      RunSteps(sys, ToMaster, Repeat(ToSlave, 0) + Repeat(ToMaster, |sys.s2m| - 1));
    } else {
      RunNothing(sys);
    }
  }

  lemma RunNothing(sys: Sys)
    ensures Run(sys, []) == sys
  {
  }

  lemma Deliveries(m: nat, n: nat)
    ensures m > 0 ==>
              Repeat(ToSlave, m) + Repeat(ToMaster, n) == [ToSlave] + (Repeat(ToSlave, m - 1) + Repeat(ToMaster, n))
    ensures m == 0 && n > 0 ==>
              Repeat(ToSlave, 0) + Repeat(ToMaster, n) == [ToMaster] + (Repeat(ToSlave, 0) + Repeat(ToMaster, n - 1))
    ensures Repeat(ToSlave, 0) + Repeat(ToMaster, 0) == []
  {
  }

  lemma NotAnswered(sys: Sys)
    requires Inv(sys)
    ensures sys.m2s != [] ==> Next(sys, ToSlave).m2s == sys.m2s[1..] && Next(sys, ToSlave).s2m == sys.s2m
    ensures sys.s2m != [] ==> Next(sys, ToMaster).s2m == sys.s2m[1..] && Next(sys, ToMaster).m2s == sys.m2s
  {
    if sys.m2s != [] {
      assert FineAt(sys, sys.m2s[0].name);
    }
    if sys.s2m != [] {
      assert FineAt(sys, sys.s2m[0].name);
    }
  }

  // A name available on one end has been allocated on both; two names never share a slot.
  lemma NoSharing(steps: seq<Step>, n: Name, k: Name)
    ensures var sys := Run(Start(), steps);
            && (IsAvail(sys.m, n) || IsAvail(sys.s, n) ==> Live(sys.m, n) && Live(sys.s, n))
            && (IsAvail(sys.m, n) && IsAvail(sys.m, k) && sys.m[n].buf.id == sys.m[k].buf.id ==> n == k)
  {
    StartInv();
    RunInv(Start(), steps);
    assert FineAt(Run(Start(), steps), n);
    assert FineAt(Run(Start(), steps), k);
  }

  // ----- once buffers are freed -----

  // A master can lose a buffer that is available by freeing another one that is not: the
  // slave's first id is 0, which is also what a master's buffer has before it is available.
  lemma MasterFreeExample()
    ensures var a, b := Name("a"), Name("b");
            var sys := Run(Start(),
                           [SlaveAlloc(a, 8), ToMaster, MasterAlloc(a, 8, 64, 64), ToSlave, MasterAlloc(b, 8, 72, 72)]);
            IsAvail(sys.m, a) && IsAvail(sys.s, a) && Live(sys.m, b) && a !in Free(sys.m, b)
  {
    var a, b := Name("a"), Name("b");
    var marks := seq(SLOTS, _ => false);
    assert a.text != b.text;
    var s0 := Start();
    assert FirstFree(marks) == Some(0);
    var s1 := Next(s0, SlaveAlloc(a, 8));
    assert s1.s2m == [Created(a, 0, 8, 0, 0, false)] && s1.m2s == [];
    var s2 := Next(s1, ToMaster);
    assert s2.m == map[a := Entry(Remote, Buf(a, 0, 8, 0, 0, false))];
    var s3 := Next(s2, MasterAlloc(a, 8, 64, 64));
    assert s3.m == map[a := Entry(Avail, Buf(a, 0, 8, 64, 64, true))];
    assert s3.m2s == [Created(a, 0, 8, 64, 64, true)];
    var s4 := Next(s3, ToSlave);
    assert s4.m == s3.m && IsAvail(s4.s, a);
    var s5 := Next(s4, MasterAlloc(b, 8, 72, 72));
    assert s5.m == s4.m[b := Entry(Local, Buf(b, 0, 8, 72, 72, true))];
    RunSteps(s0, SlaveAlloc(a, 8), [ToMaster, MasterAlloc(a, 8, 64, 64), ToSlave, MasterAlloc(b, 8, 72, 72)]);
    RunSteps(s1, ToMaster, [MasterAlloc(a, 8, 64, 64), ToSlave, MasterAlloc(b, 8, 72, 72)]);
    RunSteps(s2, MasterAlloc(a, 8, 64, 64), [ToSlave, MasterAlloc(b, 8, 72, 72)]);
    RunSteps(s3, ToSlave, [MasterAlloc(b, 8, 72, 72)]);
    RunSteps(s4, MasterAlloc(b, 8, 72, 72), []);
  }

  lemma RunSteps(sys: Sys, step: Step, rest: seq<Step>)
    ensures Run(sys, [step] + rest) == Run(Next(sys, step), rest)
    ensures rest == [] ==> Run(sys, [step]) == Next(sys, step)
  {
    assert ([step] + rest)[1..] == rest;
  }

  // The address that a master tells when it takes over memory it has kept is wrong unless
  // it happens to be 0, as only a buffer's new allocation sets the physical address.
  lemma TakenOverAddress(v: View, name: Name, len: int, pa: nat, da: nat)
    requires ValidName(name) && name in v && v[name].place.Remote? && v[name].buf.len == len
    ensures var (w, msg) := Alloc(Master, v, None, name, len, pa, da);
            && msg.Some? && IsAvail(w, name) && w[name].buf.owned && w[name].buf.id == v[name].buf.id
            && (msg.value.pa == (if v[name].buf.owned then v[name].buf.pa else pa) <==>
                  !v[name].buf.owned || v[name].buf.pa == 0)
  {
  }

  // A run that gets there: the master frees an available buffer and allocates it again.
  lemma TakenOverExample()
    ensures var a := Name("a");
            var sys := Run(Start(), [SlaveAlloc(a, 8), ToMaster, MasterAlloc(a, 8, 64, 64)]);
            && IsAvail(sys.m, a) && sys.m[a].buf.pa == 64
            && Alloc(Master, Free(sys.m, a), None, a, 8, 72, 72).1 == Some(Created(a, 0, 8, 0, 64, true))
  {
    var a := Name("a");
    var marks := seq(SLOTS, _ => false);
    var s0 := Start();
    assert FirstFree(marks) == Some(0);
    var s1 := Next(s0, SlaveAlloc(a, 8));
    assert s1.s2m == [Created(a, 0, 8, 0, 0, false)] && s1.m2s == [];
    var s2 := Next(s1, ToMaster);
    assert s2.m == map[a := Entry(Remote, Buf(a, 0, 8, 0, 0, false))];
    var s3 := Next(s2, MasterAlloc(a, 8, 64, 64));
    assert s3.m == map[a := Entry(Avail, Buf(a, 0, 8, 64, 64, true))];
    RunSteps(s0, SlaveAlloc(a, 8), [ToMaster, MasterAlloc(a, 8, 64, 64)]);
    RunSteps(s1, ToMaster, [MasterAlloc(a, 8, 64, 64)]);
    RunSteps(s2, MasterAlloc(a, 8, 64, 64), []);
    var kept := Free(s3.m, a);
    assert kept[a] == Entry(Remote, Buf(a, 0, 8, 64, 64, true));
  }
}
