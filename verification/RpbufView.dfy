// One end of the rpbuf protocol, seen by name: every buffer name is unknown, held in the
// list of buffers that only this end has allocated, in the list of those that only the
// other end has allocated, or available. The operations are specified on this view.
module RpbufView {
  const NAME_SIZE := 32
  const SLOTS := 32

  datatype Option<T> = None | Some(value: T)
  datatype Role = Master | Slave

  datatype Name = Name(text: string)

  // owned tells that the payload memory belongs to this end.
  datatype Buf = Buf(name: Name, id: nat, len: int, pa: nat, da: nat, owned: bool)

  datatype Place = Local | Remote | Avail
  datatype Entry = Entry(place: Place, buf: Buf)
  type View = map<Name, Entry>

  // The content of a BUFFER_CREATED message.
  datatype Msg = Created(name: Name, id: nat, len: int, pa: nat, da: nat, avail: bool)

  predicate ValidName(name: Name)
  {
    0 < |name.text| < NAME_SIZE
  }

  // This end has allocated the name.
  predicate Live(v: View, name: Name)
  {
    name in v && !v[name].place.Remote?
  }

  predicate IsAvail(v: View, name: Name)
  {
    name in v && v[name].place.Avail?
  }

  // Slot id of the table of available buffers is empty.
  predicate SlotFree(v: View, id: nat)
  {
    forall n :: n in v && v[n].place.Avail? ==> v[n].buf.id != id
  }

  // Whatever is in slot id gets lost.
  function Vacated(v: View, id: nat): View
  {
    map n | n in v && !(v[n].place.Avail? && v[n].buf.id == id) :: v[n]
  }

  function Tell(b: Buf, avail: bool): Msg
  {
    Created(b.name, b.id, b.len, b.pa, b.da, avail)
  }

  // What allocating a name does, and the message it sends. freeId is a slave's next free
  // id; pa and da is where a master's payload memory comes to lie. A master that takes
  // over memory it has kept does not take over its physical address.
  function Alloc(role: Role, v: View, freeId: Option<nat>, name: Name, len: int, pa: nat, da: nat): (View, Option<Msg>)
  {
    if !ValidName(name) || Live(v, name) then (v, None)
    else if name in v then
      var r := v[name].buf;
      if r.len != len then (v, None)
      else if role.Master? then
        var b := Buf(name, r.id, len, if r.owned then 0 else pa, if r.owned then r.da else da, true);
        (Vacated(v, r.id)[name := Entry(Avail, b)], Some(Tell(b, true)))
      else if freeId.None? || !SlotFree(v, freeId.value) then (v, None)
      else
        var b := Buf(name, freeId.value, len, r.pa, r.da, false);
        (v[name := Entry(Avail, b)], Some(Tell(b, true)))
    else if role.Slave? && freeId.None? then (v, None)
    else
      var b := if role.Master? then Buf(name, 0, len, pa, da, true) else Buf(name, freeId.value, len, 0, 0, false);
      (v[name := Entry(Local, b)], Some(Tell(b, false)))
  }

  // What a BUFFER_CREATED message does, and the answer it gets if any.
  function Receive(role: Role, v: View, m: Msg, pa: nat, da: nat): (View, Option<Msg>)
  {
    if m.id >= SLOTS then (v, None)
    else if IsAvail(v, m.name) then (v, if m.avail then None else Some(Tell(v[m.name].buf, true)))
    else if Live(v, m.name) then
      var b := v[m.name].buf;
      if b.len != m.len then (v, None)
      else
        var c := if role.Slave? then b.(pa := m.pa, da := m.da)
                 else if b.owned then b else b.(pa := pa, da := da, owned := true);
        var id := if role.Slave? then b.id else m.id;
        (v[m.name := if SlotFree(v, id) then Entry(Avail, c.(id := id)) else Entry(Local, c)], None)
    else if m.name in v then
      (v[m.name := Entry(Remote, Buf(m.name, m.id, m.len, m.pa, m.da, v[m.name].buf.owned))], None)
    else if ValidName(m.name) then (v[m.name := Entry(Remote, Buf(m.name, m.id, m.len, m.pa, m.da, false))], None)
    else (v, None)
  }

  // What freeing a name that this end has allocated does. A buffer that is not available
  // goes, and so does whatever is in the slot of its id.
  function Free(v: View, name: Name): View
    requires Live(v, name)
  {
    if v[name].place.Avail? then v[name := Entry(Remote, v[name].buf)]
    else Vacated(v - {name}, v[name].buf.id)
  }

  // The ends of a BUFFER_DESTROYED message for id: the name that it concerns is forgotten
  // if only the other end had it, and goes back to the local list if it was available.
  function Destroyed(v: View, name: Name): View
    requires name in v
  {
    if v[name].place.Remote? then v - {name} else v[name := Entry(Local, v[name].buf)]
  }

  // No name that only the other end has allocated has the id.
  ghost predicate NoneKept(v: View, id: nat)
  {
    forall n :: n in v && v[n].place.Remote? ==> v[n].buf.id != id
  }

  // The message means a kept name if there is one with the id, or else the available one.
  ghost predicate DestroysTo(v: View, w: View, id: nat, ok: bool, name: Name)
  {
    if ok then
      && name in v && !v[name].place.Local? && v[name].buf.id == id && w == Destroyed(v, name)
      && (v[name].place.Avail? ==> NoneKept(v, id))
    else w == v && NoneKept(v, id) && SlotFree(v, id)
  }

  // ----- lists and slots that show a view -----

  ghost predicate InList(l: seq<Buf>, name: Name)
  {
    exists i :: 0 <= i < |l| && l[i].name == name
  }

  ghost predicate DistinctNames(l: seq<Buf>)
  {
    forall i, j :: 0 <= i < j < |l| ==> l[i].name != l[j].name
  }

  ghost predicate ListShown(v: View, place: Place, l: seq<Buf>)
  {
    && DistinctNames(l)
    && (forall i :: 0 <= i < |l| ==> l[i].name in v && v[l[i].name] == Entry(place, l[i]))
    && (forall n :: n in v && v[n].place == place ==> InList(l, n))
  }

  ghost predicate SlotShown(v: View, b: Option<Buf>, id: nat)
  {
    b.Some? ==> b.value.name in v && v[b.value.name] == Entry(Avail, b.value) && b.value.id == id
  }

  ghost predicate SlotsShown(v: View, slots: seq<Option<Buf>>)
  {
    && |slots| == SLOTS
    && (forall i :: 0 <= i < SLOTS ==> SlotShown(v, slots[i], i))
    && (forall n :: n in v && v[n].place.Avail? ==>
          v[n].buf.id < SLOTS && v[n].buf.name == n && slots[v[n].buf.id] == Some(v[n].buf))
  }

  ghost predicate Shows(v: View, local: seq<Buf>, remote: seq<Buf>, slots: seq<Option<Buf>>)
  {
    ListShown(v, Local, local) && ListShown(v, Remote, remote) && SlotsShown(v, slots)
  }

  // The structure of one end: names are unique within the lists and the slots, no name is
  // in two of them, and a buffer in a slot has the slot's number as its id.
  lemma StructureHolds(v: View, local: seq<Buf>, remote: seq<Buf>, slots: seq<Option<Buf>>)
    requires Shows(v, local, remote, slots)
    ensures DistinctNames(local) && DistinctNames(remote)
    ensures forall i, j :: 0 <= i < |local| && 0 <= j < |remote| ==> local[i].name != remote[j].name
    ensures forall i, j :: 0 <= i < |local| && 0 <= j < SLOTS && slots[j].Some? ==> local[i].name != slots[j].value.name
    ensures forall i, j :: 0 <= i < |remote| && 0 <= j < SLOTS && slots[j].Some? ==>
              remote[i].name != slots[j].value.name
    ensures forall i, j :: 0 <= i < j < SLOTS && slots[i].Some? && slots[j].Some? ==>
              slots[i].value.name != slots[j].value.name
    ensures forall i :: 0 <= i < SLOTS && slots[i].Some? ==> slots[i].value.id == i
  {
    forall i, j | 0 <= i < |local| && 0 <= j < |remote| ensures local[i].name != remote[j].name {
      assert v[local[i].name].place == Local && v[remote[j].name].place == Remote;
    }
    forall j | 0 <= j < SLOTS && slots[j].Some?
      ensures v[slots[j].value.name].place == Avail && slots[j].value.id == j
    {
      assert SlotShown(v, slots[j], j);
    }
  }

  // ----- single changes -----

  function Dropped(l: seq<Buf>, i: nat): seq<Buf>
    requires i < |l|
  {
    l[..i] + l[i + 1..]
  }

  lemma ListAdd(v: View, place: Place, l: seq<Buf>, b: Buf)
    requires ListShown(v, place, l) && b.name !in v
    ensures ListShown(v[b.name := Entry(place, b)], place, l + [b])
  {
    var m := l + [b];
    forall n | n in v && v[n].place == place ensures InList(m, n) {
      var i :| 0 <= i < |l| && l[i].name == n;
      assert m[i].name == n;
    }
    assert m[|l|].name == b.name;
  }

  lemma ListDrop(v: View, place: Place, l: seq<Buf>, i: nat)
    requires ListShown(v, place, l) && i < |l|
    ensures ListShown(v - {l[i].name}, place, Dropped(l, i))
  {
    var m := Dropped(l, i);
    forall n | n in v && n != l[i].name && v[n].place == place ensures InList(m, n) {
      var j :| 0 <= j < |l| && l[j].name == n;
      assert m[if j < i then j else j - 1].name == n;
    }
  }

  lemma ListSet(v: View, place: Place, l: seq<Buf>, i: nat, b: Buf)
    requires ListShown(v, place, l) && i < |l| && b.name == l[i].name
    ensures ListShown(v[b.name := Entry(place, b)], place, l[i := b])
  {
    var m := l[i := b];
    forall n | n in v && v[n].place == place ensures InList(m, n) {
      var j :| 0 <= j < |l| && l[j].name == n;
      assert m[j].name == n;
    }
  }

  // A list does not notice changes elsewhere.
  lemma ListElsewhere(v: View, w: View, place: Place, l: seq<Buf>)
    requires ListShown(v, place, l)
    requires forall n :: n in v && v[n].place == place ==> n in w && w[n] == v[n]
    requires forall n :: n in w && w[n].place == place ==> n in v && v[n] == w[n]
    ensures ListShown(w, place, l)
  {
  }

  lemma SlotsElsewhere(v: View, w: View, slots: seq<Option<Buf>>)
    requires SlotsShown(v, slots)
    requires forall n :: n in v && v[n].place.Avail? ==> n in w && w[n] == v[n]
    requires forall n :: n in w && w[n].place.Avail? ==> n in v && v[n] == w[n]
    ensures SlotsShown(w, slots)
  {
    forall i | 0 <= i < SLOTS ensures SlotShown(w, slots[i], i) {
      assert SlotShown(v, slots[i], i);
    }
  }

  lemma SlotSet(v: View, slots: seq<Option<Buf>>, b: Buf)
    requires SlotsShown(v, slots) && b.name !in v && b.id < SLOTS
    ensures SlotsShown(Vacated(v, b.id)[b.name := Entry(Avail, b)], slots[b.id := Some(b)])
  {
    var w, t := Vacated(v, b.id)[b.name := Entry(Avail, b)], slots[b.id := Some(b)];
    forall i | 0 <= i < SLOTS ensures SlotShown(w, t[i], i) {
      assert SlotShown(v, slots[i], i);
    }
  }

  lemma SlotClear(v: View, slots: seq<Option<Buf>>, id: nat)
    requires SlotsShown(v, slots) && id < SLOTS
    ensures SlotsShown(Vacated(v, id), slots[id := None])
  {
    var w, t := Vacated(v, id), slots[id := None];
    forall i | 0 <= i < SLOTS ensures SlotShown(w, t[i], i) {
      assert SlotShown(v, slots[i], i);
    }
  }

  lemma SlotEmpty(v: View, slots: seq<Option<Buf>>, id: nat)
    requires SlotsShown(v, slots) && id < SLOTS
    ensures slots[id].None? <==> SlotFree(v, id)
    ensures slots[id].None? ==> Vacated(v, id) == v
  {
    assert SlotShown(v, slots[id], id);
  }

  // ----- moves between the lists and the slots -----

  // The name is left alone in the one place where it is not.
  lemma RemovedAdded(v: View, name: Name, e: Entry)
    ensures (v - {name})[name := e] == v[name := e]
  {
  }

  lemma NewLocal(v: View, local: seq<Buf>, remote: seq<Buf>, slots: seq<Option<Buf>>, b: Buf)
    requires Shows(v, local, remote, slots) && b.name !in v
    ensures Shows(v[b.name := Entry(Local, b)], local + [b], remote, slots)
  {
    hide ListShown, SlotsShown;
    var w := v[b.name := Entry(Local, b)];
    ListAdd(v, Local, local, b);
    ListElsewhere(v, w, Remote, remote);
    SlotsElsewhere(v, w, slots);
  }

  lemma NewRemote(v: View, local: seq<Buf>, remote: seq<Buf>, slots: seq<Option<Buf>>, b: Buf)
    requires Shows(v, local, remote, slots) && b.name !in v
    ensures Shows(v[b.name := Entry(Remote, b)], local, remote + [b], slots)
  {
    hide ListShown, SlotsShown;
    var w := v[b.name := Entry(Remote, b)];
    ListAdd(v, Remote, remote, b);
    ListElsewhere(v, w, Local, local);
    SlotsElsewhere(v, w, slots);
  }

  lemma SetLocal(v: View, local: seq<Buf>, remote: seq<Buf>, slots: seq<Option<Buf>>, i: nat, b: Buf)
    requires Shows(v, local, remote, slots) && i < |local| && b.name == local[i].name
    ensures b.name in v && v[b.name] == Entry(Local, local[i])
    ensures Shows(v[b.name := Entry(Local, b)], local[i := b], remote, slots)
  {
    assert v[b.name] == Entry(Local, local[i]);
    hide ListShown, SlotsShown;
    var w := v[b.name := Entry(Local, b)];
    ListSet(v, Local, local, i, b);
    ListElsewhere(v, w, Remote, remote);
    SlotsElsewhere(v, w, slots);
  }

  lemma SetRemote(v: View, local: seq<Buf>, remote: seq<Buf>, slots: seq<Option<Buf>>, i: nat, b: Buf)
    requires Shows(v, local, remote, slots) && i < |remote| && b.name == remote[i].name
    ensures b.name in v && v[b.name] == Entry(Remote, remote[i])
    ensures Shows(v[b.name := Entry(Remote, b)], local, remote[i := b], slots)
  {
    assert v[b.name] == Entry(Remote, remote[i]);
    hide ListShown, SlotsShown;
    var w := v[b.name := Entry(Remote, b)];
    ListSet(v, Remote, remote, i, b);
    ListElsewhere(v, w, Local, local);
    SlotsElsewhere(v, w, slots);
  }

  lemma DropLocal(v: View, local: seq<Buf>, remote: seq<Buf>, slots: seq<Option<Buf>>, i: nat)
    requires Shows(v, local, remote, slots) && i < |local|
    ensures local[i].name in v && v[local[i].name] == Entry(Local, local[i])
    ensures Shows(v - {local[i].name}, Dropped(local, i), remote, slots)
  {
    assert v[local[i].name] == Entry(Local, local[i]);
    hide ListShown, SlotsShown, Dropped;
    var w := v - {local[i].name};
    ListDrop(v, Local, local, i);
    ListElsewhere(v, w, Remote, remote);
    SlotsElsewhere(v, w, slots);
  }

  lemma DropRemote(v: View, local: seq<Buf>, remote: seq<Buf>, slots: seq<Option<Buf>>, i: nat)
    requires Shows(v, local, remote, slots) && i < |remote|
    ensures remote[i].name in v && v[remote[i].name] == Entry(Remote, remote[i])
    ensures Shows(v - {remote[i].name}, local, Dropped(remote, i), slots)
  {
    assert v[remote[i].name] == Entry(Remote, remote[i]);
    hide ListShown, SlotsShown, Dropped;
    var w := v - {remote[i].name};
    ListDrop(v, Remote, remote, i);
    ListElsewhere(v, w, Local, local);
    SlotsElsewhere(v, w, slots);
  }

  lemma NewAvailable(v: View, local: seq<Buf>, remote: seq<Buf>, slots: seq<Option<Buf>>, b: Buf)
    requires Shows(v, local, remote, slots) && b.name !in v && b.id < SLOTS
    ensures Shows(Vacated(v, b.id)[b.name := Entry(Avail, b)], local, remote, slots[b.id := Some(b)])
  {
    hide ListShown, SlotsShown;
    var w := Vacated(v, b.id)[b.name := Entry(Avail, b)];
    SlotSet(v, slots, b);
    ListElsewhere(v, w, Local, local);
    ListElsewhere(v, w, Remote, remote);
  }

  lemma DropAvailable(v: View, local: seq<Buf>, remote: seq<Buf>, slots: seq<Option<Buf>>, id: nat)
    requires Shows(v, local, remote, slots) && id < SLOTS
    ensures Shows(Vacated(v, id), local, remote, slots[id := None])
    ensures slots[id].Some? ==>
              var b := slots[id].value;
              b.name in v && v[b.name] == Entry(Avail, b) && b.id == id && Vacated(v, id) == v - {b.name}
  {
    SlotClear(v, slots, id);
    SlotEmpty(v, slots, id);
    if slots[id].Some? {
      OneInSlot(v, slots, id);
    }
    hide ListShown, SlotsShown;
    ListElsewhere(v, Vacated(v, id), Local, local);
    ListElsewhere(v, Vacated(v, id), Remote, remote);
  }

  // An available buffer moves to one of the lists.
  lemma AvailableToLocal(v: View, local: seq<Buf>, remote: seq<Buf>, slots: seq<Option<Buf>>, id: nat)
    requires Shows(v, local, remote, slots) && |slots| == SLOTS && id < SLOTS && slots[id].Some?
    ensures var b := slots[id].value;
            && b.name in v && v[b.name] == Entry(Avail, b) && b.id == id
            && Shows(v[b.name := Entry(Local, b)], local + [b], remote, slots[id := None])
  {
    hide ListShown, SlotsShown, Vacated;
    var b := slots[id].value;
    DropAvailable(v, local, remote, slots, id);
    NewLocal(v - {b.name}, local, remote, slots[id := None], b);
    RemovedAdded(v, b.name, Entry(Local, b));
  }

  lemma AvailableToRemote(v: View, local: seq<Buf>, remote: seq<Buf>, slots: seq<Option<Buf>>, id: nat)
    requires Shows(v, local, remote, slots) && |slots| == SLOTS && id < SLOTS && slots[id].Some?
    ensures var b := slots[id].value;
            && b.name in v && v[b.name] == Entry(Avail, b) && b.id == id
            && Shows(v[b.name := Entry(Remote, b)], local, remote + [b], slots[id := None])
  {
    hide ListShown, SlotsShown, Vacated;
    var b := slots[id].value;
    DropAvailable(v, local, remote, slots, id);
    NewRemote(v - {b.name}, local, remote, slots[id := None], b);
    RemovedAdded(v, b.name, Entry(Remote, b));
  }

  // A buffer that is not available goes, and takes with it what is in the slot of its id.
  lemma LocalGone(v: View, local: seq<Buf>, remote: seq<Buf>, slots: seq<Option<Buf>>, i: nat)
    requires Shows(v, local, remote, slots) && i < |local| && local[i].id < SLOTS
    ensures local[i].name in v && v[local[i].name] == Entry(Local, local[i])
    ensures Shows(Vacated(v - {local[i].name}, local[i].id), Dropped(local, i), remote, slots[local[i].id := None])
  {
    hide ListShown, SlotsShown, Vacated, Dropped;
    DropLocal(v, local, remote, slots, i);
    DropAvailable(v - {local[i].name}, Dropped(local, i), remote, slots, local[i].id);
  }

  lemma OneInSlot(v: View, slots: seq<Option<Buf>>, id: nat)
    requires SlotsShown(v, slots) && id < SLOTS && slots[id].Some?
    ensures var b := slots[id].value;
            b.name in v && v[b.name] == Entry(Avail, b) && b.id == id && Vacated(v, id) == v - {b.name}
  {
    var b := slots[id].value;
    assert SlotShown(v, slots[id], id);
    forall n | n in v && v[n].place.Avail? && v[n].buf.id == id ensures n == b.name {
      assert slots[v[n].buf.id] == Some(v[n].buf);
    }
  }

  // ----- a slave's ids -----

  function FirstFree(marks: seq<bool>): (id: Option<nat>)
    ensures id.Some? ==> id.value < |marks| && !marks[id.value] && forall i :: 0 <= i < id.value ==> marks[i]
    ensures id.None? ==> forall i :: 0 <= i < |marks| ==> marks[i]
  {
    FirstFreeFrom(marks, 0)
  }

  function FirstFreeFrom(marks: seq<bool>, k: nat): (id: Option<nat>)
    requires k <= |marks|
    ensures id.Some? ==> k <= id.value < |marks| && !marks[id.value] && forall i :: k <= i < id.value ==> marks[i]
    ensures id.None? ==> forall i :: k <= i < |marks| ==> marks[i]
    decreases |marks| - k
  {
    if k == |marks| then None else if !marks[k] then Some(k) else FirstFreeFrom(marks, k + 1)
  }

  ghost predicate Uses(v: View, name: Name, id: nat)
  {
    Live(v, name) && v[name].buf.id == id
  }

  // Every id belongs to a slot, and on a slave the marked ids are those of its buffers,
  // each of one buffer only.
  ghost predicate IdsKept(role: Role, v: View, marks: seq<bool>)
  {
    && |marks| == SLOTS
    && (forall n :: n in v ==> v[n].buf.id < SLOTS && v[n].buf.name == n && ValidName(n))
    && (role.Slave? ==> forall i :: 0 <= i < SLOTS ==> (marks[i] <==> exists n :: Uses(v, n, i)))
    && (role.Slave? ==> forall m, n :: Live(v, m) && Live(v, n) && v[m].buf.id == v[n].buf.id ==> m == n)
  }

  lemma IdsNew(v: View, marks: seq<bool>, b: Buf, place: Place)
    requires IdsKept(Slave, v, marks) && b.id < SLOTS && !marks[b.id] && ValidName(b.name) && !Live(v, b.name)
             && !place.Remote?
    ensures IdsKept(Slave, v[b.name := Entry(place, b)], marks[b.id := true]) && SlotFree(v, b.id)
  {
    var w, t := v[b.name := Entry(place, b)], marks[b.id := true];
    forall n | Live(v, n) ensures v[n].buf.id != b.id {
      assert Uses(v, n, v[n].buf.id);
    }
    forall i | 0 <= i < SLOTS ensures t[i] <==> exists n :: Uses(w, n, i) {
      if i == b.id {
        assert Uses(w, b.name, i);
      } else if marks[i] {
        var n :| Uses(v, n, i);
        assert Uses(w, n, i);
      }
      if n :| Uses(w, n, i) && i != b.id {
        assert Uses(v, n, i);
      }
    }
  }

  // Changes that keep the ids of the buffers this end has allocated.
  lemma IdsSame(role: Role, v: View, w: View, marks: seq<bool>)
    requires IdsKept(role, v, marks)
    requires forall n :: n in w ==> w[n].buf.id < SLOTS && w[n].buf.name == n && ValidName(n)
    requires role.Slave? ==> forall n :: Live(v, n) <==> Live(w, n)
    requires role.Slave? ==> forall n :: Live(v, n) && Live(w, n) ==> v[n].buf.id == w[n].buf.id
    ensures IdsKept(role, w, marks)
  {
    if role.Slave? {
      forall i | 0 <= i < SLOTS ensures marks[i] <==> exists n :: Uses(w, n, i) {
        if n :| Uses(v, n, i) {
          assert Uses(w, n, i);
        }
        if n :| Uses(w, n, i) {
          assert Uses(v, n, i);
        }
      }
    }
  }

  // A slave's id becomes free with its buffer.
  lemma IdsFreed(v: View, w: View, marks: seq<bool>, name: Name)
    requires IdsKept(Slave, v, marks) && Live(v, name) && !Live(w, name)
    requires forall n :: n in w ==> w[n].buf.id < SLOTS && w[n].buf.name == n && ValidName(n)
    requires forall n :: n != name ==> (Live(v, n) <==> Live(w, n))
    requires forall n :: Live(v, n) && Live(w, n) ==> v[n].buf.id == w[n].buf.id
    ensures IdsKept(Slave, w, marks[v[name].buf.id := false])
  {
    var t := marks[v[name].buf.id := false];
    forall i | 0 <= i < SLOTS ensures t[i] <==> exists n :: Uses(w, n, i) {
      if i != v[name].buf.id && marks[i] {
        var n :| Uses(v, n, i);
        assert Uses(w, n, i);
      }
      if n :| Uses(w, n, i) {
        assert Uses(v, n, i);
        assert Uses(v, name, v[name].buf.id);
      }
    }
  }

  // The names that this end has allocated, and the ids that are marked.
  ghost function LiveNames(v: View): set<Name>
  {
    set n | n in v && Live(v, n)
  }

  ghost function Marked(marks: seq<bool>): set<nat>
  {
    set i | 0 <= i < |marks| && marks[i]
  }

  // A slave has as many buffers as ids are marked, so that ids run out exactly with its
  // 32nd buffer.
  lemma SlaveCapacity(v: View, marks: seq<bool>)
    requires IdsKept(Slave, v, marks)
    ensures |LiveNames(v)| == |Marked(marks)| <= 32
    ensures FirstFree(marks).None? <==> |LiveNames(v)| == 32
  {
    NamesMarked(v, marks);
    MarksCount(v, marks);
    hide IdsKept;
    FullExactly(marks);
  }

  lemma NamesMarked(v: View, marks: seq<bool>)
    requires IdsKept(Slave, v, marks)
    ensures |LiveNames(v)| == |Marked(marks)|
  {
    var names, ids := LiveNames(v), Marked(marks);
    forall i | i in ids ensures exists n :: n in names && v[n].buf.id == i {
      var n :| Uses(v, n, i);
      assert n in names && v[n].buf.id == i;
    }
    forall n | n in names ensures v[n].buf.id in ids {
      assert Uses(v, n, v[n].buf.id);
    }
    OneEach(v, names, ids);
  }

  lemma FullExactly(marks: seq<bool>)
    requires |marks| == SLOTS
    ensures |Marked(marks)| <= 32 && (FirstFree(marks).None? <==> |Marked(marks)| == 32)
  {
    var ids, all := Marked(marks), Numbers(SLOTS);
    assert ids <= all;
    Subset(ids, all);
    if FirstFree(marks).None? {
      assert ids == all;
    } else {
      var id := FirstFree(marks).value;
      assert id in all && id !in ids;
    }
  }

  ghost function Numbers(n: nat): (s: set<nat>)
    ensures |s| == n && forall i :: i in s <==> 0 <= i < n
  {
    if n == 0 then {} else Numbers(n - 1) + {n - 1}
  }

  lemma {:induction false} Subset(a: set<nat>, b: set<nat>)
    requires a <= b
    ensures |a| <= |b| && (|a| == |b| ==> a == b)
  {
    if a != {} {
      var x :| x in a;
      Subset(a - {x}, b - {x});
    }
  }

  // Names with ids of their own are as many as their ids.
  lemma {:induction false} OneEach(v: View, names: set<Name>, ids: set<nat>)
    requires forall n :: n in names ==> n in v && v[n].buf.id in ids
    requires forall m, n :: m in names && n in names && v[m].buf.id == v[n].buf.id ==> m == n
    requires forall i :: i in ids ==> exists n :: n in names && v[n].buf.id == i
    ensures |names| == |ids|
    decreases names
  {
    if names == {} {
      assert ids == {};
    } else {
      var n :| n in names;
      var less, id := names - {n}, v[n].buf.id;
      forall i | i in ids - {id} ensures exists m :: m in less && v[m].buf.id == i {
        var m :| m in names && v[m].buf.id == i;
        assert m in less;
      }
      OneEach(v, less, ids - {id});
    }
  }

  lemma SlotCount(v: View, slots: seq<Option<Buf>>)
    requires SlotsShown(v, slots)
    ensures |slots| == SLOTS
  {
  }

  lemma MarksCount(v: View, marks: seq<bool>)
    requires IdsKept(Slave, v, marks)
    ensures |marks| == SLOTS
  {
  }

  lemma LocalAt(v: View, local: seq<Buf>, i: nat)
    requires ListShown(v, Local, local) && i < |local|
    ensures local[i].name in v && v[local[i].name] == Entry(Local, local[i])
  {
  }

  lemma NotLive(v: View, local: seq<Buf>, remote: seq<Buf>, slots: seq<Option<Buf>>, name: Name)
    requires Shows(v, local, remote, slots)
    requires !InList(local, name) && forall j :: 0 <= j < SLOTS && slots[j].Some? ==> slots[j].value.name != name
    ensures !Live(v, name)
  {
  }

  lemma NotKnown(v: View, local: seq<Buf>, remote: seq<Buf>, slots: seq<Option<Buf>>, name: Name)
    requires Shows(v, local, remote, slots) && !InList(remote, name) && !Live(v, name)
    ensures name !in v
  {
  }

  // A master has no marks to keep.
  lemma MasterIds(v: View, marks: seq<bool>, b: Buf, place: Place)
    requires IdsKept(Master, v, marks) && ValidName(b.name)
    requires b.id == 0 || exists n :: n in v && v[n].buf.id == b.id
    ensures b.id < SLOTS && IdsKept(Master, v[b.name := Entry(place, b)], marks)
    ensures IdsKept(Master, Vacated(v, b.id)[b.name := Entry(place, b)], marks)
  {
  }

  lemma ViewRemovedAdded(v: View, name: Name, b: Buf)
    requires name in v && v[name].place.Remote?
    ensures Vacated(v - {name}, b.id)[name := Entry(Avail, b)] == Vacated(v, b.id)[name := Entry(Avail, b)]
    ensures SlotFree(v, b.id) ==> Vacated(v, b.id)[name := Entry(Avail, b)] == v[name := Entry(Avail, b)]
  {
  }

  lemma KnownName(role: Role, v: View, marks: seq<bool>, name: Name)
    requires IdsKept(role, v, marks) && name in v
    ensures ValidName(name) && v[name].buf.id < SLOTS && v[name].buf.name == name
  {
  }

  lemma IdsCount(role: Role, v: View, marks: seq<bool>)
    requires IdsKept(role, v, marks)
    ensures |marks| == SLOTS
  {
  }

  lemma NoSuchId(role: Role, v: View, marks: seq<bool>, id: nat)
    requires IdsKept(role, v, marks) && id >= SLOTS
    ensures NoneKept(v, id) && SlotFree(v, id)
  {
  }

  lemma DestroyedIs(v: View, name: Name)
    requires name in v
    ensures Destroyed(v, name) == if v[name].place.Remote? then v - {name} else v[name := Entry(Local, v[name].buf)]
  {
  }

  lemma CompletedIds(role: Role, v: View, marks: seq<bool>, name: Name, c: Buf, id: nat)
    requires IdsKept(role, v, marks) && name in v && v[name].place.Local? && c.name == name && c.id == v[name].buf.id
    requires id < SLOTS && (role.Slave? ==> id == c.id)
    ensures IdsKept(role, v[name := Entry(Local, c)], marks)
    ensures IdsKept(role, v[name := Entry(Avail, c.(id := id))], marks)
  {
    IdsSame(role, v, v[name := Entry(Local, c)], marks);
    IdsSame(role, v, v[name := Entry(Avail, c.(id := id))], marks);
  }

  lemma CompletedView(v: View, name: Name, b: Buf)
    requires name in v && v[name].place.Local? && SlotFree(v, b.id)
    ensures Vacated(v - {name}, b.id)[name := Entry(Avail, b)] == v[name := Entry(Avail, b)]
  {
  }

  lemma KeptIds(role: Role, v: View, marks: seq<bool>, b: Buf)
    requires IdsKept(role, v, marks) && !Live(v, b.name) && b.id < SLOTS && ValidName(b.name)
    ensures IdsKept(role, v[b.name := Entry(Remote, b)], marks)
  {
    IdsSame(role, v, v[b.name := Entry(Remote, b)], marks);
  }

  lemma ForgottenIds(role: Role, v: View, marks: seq<bool>, name: Name)
    requires IdsKept(role, v, marks) && name in v && v[name].place.Remote?
    ensures IdsKept(role, v - {name}, marks)
  {
    IdsSame(role, v, v - {name}, marks);
  }

  lemma NoneWithId(v: View, remote: seq<Buf>, id: nat)
    requires ListShown(v, Remote, remote) && forall j :: 0 <= j < |remote| ==> remote[j].id != id
    ensures NoneKept(v, id)
  {
    forall n | n in v && v[n].place.Remote? ensures v[n].buf.id != id {
      var i :| 0 <= i < |remote| && remote[i].name == n;
    }
  }

  lemma MovedIds(role: Role, v: View, marks: seq<bool>, name: Name)
    requires IdsKept(role, v, marks) && IsAvail(v, name)
    ensures IdsKept(role, v[name := Entry(Local, v[name].buf)], marks)
  {
    IdsSame(role, v, v[name := Entry(Local, v[name].buf)], marks);
  }

  lemma FreeIs(v: View, name: Name)
    requires Live(v, name)
    ensures Free(v, name)
              == if v[name].place.Avail? then v[name := Entry(Remote, v[name].buf)]
              else Vacated(v - {name}, v[name].buf.id)
  {
  }

  lemma AvailableThen(v: View, local: seq<Buf>, slots: seq<Option<Buf>>, name: Name)
    requires ListShown(v, Local, local) && SlotsShown(v, slots) && Live(v, name) && !InList(local, name)
    ensures IsAvail(v, name) && v[name].buf.id < SLOTS && slots[v[name].buf.id] == Some(v[name].buf)
  {
  }

  lemma FreedIds(role: Role, v: View, marks: seq<bool>, name: Name)
    requires IdsKept(role, v, marks) && Live(v, name)
    ensures IdsKept(role, Free(v, name), if role.Slave? then marks[v[name].buf.id := false] else marks)
  {
    if role.Slave? {
      SlaveLosesNothing(v, marks, name);
      IdsFreed(v, Free(v, name), marks, name);
    }
  }

  // ----- what else freeing does -----

  // On a slave no other buffer has the freed buffer's id, so that nothing else is lost.
  lemma SlaveLosesNothing(v: View, marks: seq<bool>, name: Name)
    requires IdsKept(Slave, v, marks) && Live(v, name)
    ensures forall n :: n != name && n in v ==> n in Free(v, name) && Free(v, name)[n] == v[n]
    ensures !Live(Free(v, name), name)
  {
  }

  // On either end freeing leaves every other name as it is exactly when the freed buffer
  // is available or the slot of its id is empty.
  lemma FreeLosesExactly(v: View, name: Name)
    requires Live(v, name)
    ensures (forall n :: n != name && n in v ==> n in Free(v, name) && Free(v, name)[n] == v[n])
       <==> IsAvail(v, name) || SlotFree(v, v[name].buf.id)
  {
    if !IsAvail(v, name) && !SlotFree(v, v[name].buf.id) {
      var n :| n in v && v[n].place.Avail? && v[n].buf.id == v[name].buf.id;
      assert n != name && n !in Free(v, name);
    }
  }

  lemma SlotsOf(v: View, local: seq<Buf>, remote: seq<Buf>, slots: seq<Option<Buf>>, id: nat)
    requires Shows(v, local, remote, slots) && id < SLOTS && forall j :: 0 <= j < |remote| ==> remote[j].id != id
    ensures |slots| == SLOTS && NoneKept(v, id) && (slots[id].None? <==> SlotFree(v, id))
  {
    NoneWithId(v, remote, id);
    SlotEmpty(v, slots, id);
  }
}
