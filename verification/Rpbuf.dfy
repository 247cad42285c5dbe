// One end of the rpbuf protocol: two lists of buffers that only one side knows, a table of
// the available ones, and a slave's marks for the ids it has given away.
module Rpbuf {
  import opened RpbufView

  class Controller {
    const role: Role
    var localDummies: seq<Buf>
    var remoteDummies: seq<Buf>
    var buffers: seq<Option<Buf>>
    var localBuffers: seq<bool>
    ghost var view: View

    ghost predicate Valid()
      reads this
    {
      Shows(view, localDummies, remoteDummies, buffers) && IdsKept(role, view, localBuffers)
    }

    constructor (role: Role)
      ensures Valid() && this.role == role && view == map[] && localBuffers == seq(SLOTS, _ => false)
    {
      this.role := role;
      localDummies, remoteDummies, view := [], [], map[];
      buffers := seq(SLOTS, _ => None);
      localBuffers := seq(SLOTS, _ => false);
      new;
      forall i | 0 <= i < SLOTS ensures SlotShown(view, buffers[i], i) {
      }
    }

    method FindByName(l: seq<Buf>, name: Name) returns (i: int)
      ensures -1 <= i < |l| && (i >= 0 ==> l[i].name == name)
      ensures i < 0 <==> !InList(l, name)
    {
      i := 0;
      while i < |l|
        invariant 0 <= i <= |l| && forall j :: 0 <= j < i ==> l[j].name != name
      {
        if l[i].name == name {
          return;
        }
        i := i + 1;
      }
      i := -1;
    }

    // The first buffer in the list with the id.
    method FindById(l: seq<Buf>, id: nat) returns (i: int)
      ensures -1 <= i < |l| && (i >= 0 ==> l[i].id == id)
      ensures forall j :: 0 <= j < (if i >= 0 then i else |l|) ==> l[j].id != id
    {
      i := 0;
      while i < |l|
        invariant 0 <= i <= |l| && forall j :: 0 <= j < i ==> l[j].id != id
      {
        if l[i].id == id {
          return;
        }
        i := i + 1;
      }
      i := -1;
    }

    method FindAvailable(name: Name) returns (i: int)
      requires |buffers| == SLOTS
      ensures -1 <= i < SLOTS && (i >= 0 ==> buffers[i].Some? && buffers[i].value.name == name)
      ensures i < 0 ==> forall j :: 0 <= j < SLOTS && buffers[j].Some? ==> buffers[j].value.name != name
    {
      i := 0;
      while i < SLOTS
        invariant 0 <= i <= SLOTS && forall j :: 0 <= j < i && buffers[j].Some? ==> buffers[j].value.name != name
      {
        if buffers[i].Some? && buffers[i].value.name == name {
          return;
        }
        i := i + 1;
      }
      i := -1;
    }

    // Marks the first id that is free.
    method TakeId() returns (id: Option<nat>)
      requires |localBuffers| == SLOTS
      modifies `localBuffers
      ensures id == FirstFree(old(localBuffers))
      ensures localBuffers == if id.Some? then old(localBuffers)[id.value := true] else old(localBuffers)
    {
      var i := 0;
      while i < SLOTS
        invariant 0 <= i <= SLOTS && localBuffers == old(localBuffers)
        invariant forall j :: 0 <= j < i ==> localBuffers[j]
      {
        if !localBuffers[i] {
          localBuffers := localBuffers[i := true];
          return Some(i);
        }
        i := i + 1;
      }
      id := None;
    }

    // Allocates a name that the other end has allocated before.
    method AllocKnown(i: nat, name: Name, len: int, pa: nat, da: nat) returns (msg: Option<Msg>)
      requires Valid() && i < |remoteDummies| && remoteDummies[i].name == name
      modifies this
      ensures Valid()
      ensures (view, msg) == Alloc(role, old(view), FirstFree(old(localBuffers)), name, len, pa, da)
      ensures localBuffers
                == if role.Slave? && msg.Some? then old(localBuffers)[msg.value.id := true] else old(localBuffers)
    {
      hide ListShown, SlotsShown, IdsKept, Vacated, SlotFree;
      ghost var v := view;
      var dummy := remoteDummies[i];
      msg := None;
      DropRemote(v, localDummies, remoteDummies, buffers, i);
      KnownName(role, v, localBuffers, name);
      if len != dummy.len {
        return;
      }
      var b: Buf;
      if role.Slave? {
        MarksCount(v, localBuffers);
        var id := TakeId();
        if id.None? {
          return;
        }
        b := Buf(name, id.value, len, dummy.pa, dummy.da, false);
        IdsNew(v, old(localBuffers), b, Avail);
      } else {
        b := if dummy.owned
             then Buf(name, dummy.id, len, 0, dummy.da, true)
             else Buf(name, dummy.id, len, pa, da, true);
        MasterIds(v, localBuffers, b, Avail);
      }
      ViewRemovedAdded(v, name, b);
      SlotCount(v, buffers);
      NewAvailable(v - {name}, localDummies, Dropped(remoteDummies, i), buffers, b);
      buffers := buffers[b.id := Some(b)];
      remoteDummies := remoteDummies[..i] + remoteDummies[i + 1..];
      view := Vacated(v, b.id)[name := Entry(Avail, b)];
      msg := Some(Tell(b, true));
    }

    // Allocates a name that is new on both ends.
    method AllocNew(name: Name, len: int, pa: nat, da: nat) returns (msg: Option<Msg>)
      requires Valid() && name !in view && ValidName(name)
      modifies this
      ensures Valid()
      ensures (view, msg) == Alloc(role, old(view), FirstFree(old(localBuffers)), name, len, pa, da)
      ensures localBuffers
                == if role.Slave? && msg.Some? then old(localBuffers)[msg.value.id := true] else old(localBuffers)
    {
      hide ListShown, SlotsShown, IdsKept, Vacated, SlotFree;
      ghost var v := view;
      var b: Buf;
      if role.Slave? {
        MarksCount(v, localBuffers);
        var id := TakeId();
        if id.None? {
          return None;
        }
        b := Buf(name, id.value, len, 0, 0, false);
        IdsNew(v, old(localBuffers), b, Local);
      } else {
        b := Buf(name, 0, len, pa, da, true);
        MasterIds(v, localBuffers, b, Local);
      }
      NewLocal(v, localDummies, remoteDummies, buffers, b);
      localDummies := localDummies + [b];
      view := v[name := Entry(Local, b)];
      msg := Some(Tell(b, false));
    }

    // Allocates a name. The message for the other end is returned, or nothing when the
    // allocation fails. A slave's next id is free in the table of buffers, too.
    method AllocBuffer(name: Name, len: int, pa: nat, da: nat) returns (msg: Option<Msg>)
      requires Valid()
      modifies this
      ensures Valid()
      ensures (view, msg) == Alloc(role, old(view), FirstFree(old(localBuffers)), name, len, pa, da)
      ensures localBuffers
                == if role.Slave? && msg.Some? then old(localBuffers)[msg.value.id := true] else old(localBuffers)
    {
      hide ListShown, SlotsShown, IdsKept, Vacated, SlotFree;
      ghost var v := view;
      msg := None;
      if |name.text| == 0 || |name.text| >= NAME_SIZE {
        return;
      }
      var i := FindByName(localDummies, name);
      if i >= 0 {
        SetLocal(v, localDummies, remoteDummies, buffers, i, localDummies[i]);
        return;
      }
      SlotCount(v, buffers);
      i := FindAvailable(name);
      if i >= 0 {
        OneInSlot(v, buffers, i);
        return;
      }
      NotLive(v, localDummies, remoteDummies, buffers, name);
      i := FindByName(remoteDummies, name);
      if i >= 0 {
        msg := AllocKnown(i, name, len, pa, da);
      } else {
        NotKnown(v, localDummies, remoteDummies, buffers, name);
        msg := AllocNew(name, len, pa, da);
      }
    }

    // A BUFFER_CREATED message for a name in the local list: the two halves fit together
    // when the lengths agree and the slot is free.
    method Complete(i: nat, m: Msg, pa: nat, da: nat)
      requires Valid() && i < |localDummies| && localDummies[i].name == m.name && m.id < SLOTS
      modifies this
      ensures Valid() && localBuffers == old(localBuffers) && (view, None) == Receive(role, old(view), m, pa, da)
    {
      hide ListShown, SlotsShown, IdsKept, Vacated, SlotFree;
      ghost var v := view;
      var b := localDummies[i];
      SetLocal(v, localDummies, remoteDummies, buffers, i, b);
      KnownName(role, v, localBuffers, m.name);
      if b.len != m.len {
        return;
      }
      var c: Buf := if role.Slave? then b.(pa := m.pa, da := m.da)
                    else if b.owned then b else b.(pa := pa, da := da, owned := true);
      var id: nat := if role.Slave? then b.id else m.id;
      SlotCount(v, buffers);
      SlotEmpty(v, buffers, id);
      CompletedIds(role, v, localBuffers, m.name, c, id);
      if buffers[id].Some? {
        SetLocal(v, localDummies, remoteDummies, buffers, i, c);
        localDummies := localDummies[i := c];
        view := v[m.name := Entry(Local, c)];
        return;
      }
      DropLocal(v, localDummies, remoteDummies, buffers, i);
      CompletedView(v, m.name, c.(id := id));
      NewAvailable(v - {m.name}, Dropped(localDummies, i), remoteDummies, buffers, c.(id := id));
      buffers := buffers[id := Some(c.(id := id))];
      localDummies := localDummies[..i] + localDummies[i + 1..];
      view := v[m.name := Entry(Avail, c.(id := id))];
    }

    // A BUFFER_CREATED message for a name that this end has not allocated is kept.
    method Keep(m: Msg)
      requires Valid() && !Live(view, m.name) && m.id < SLOTS
      modifies this
      ensures Valid() && localBuffers == old(localBuffers)
      ensures (view, None) == Receive(role, old(view), m, 0, 0)
    {
      hide ListShown, SlotsShown, IdsKept, Vacated, SlotFree;
      ghost var v := view;
      var i := FindByName(remoteDummies, m.name);
      var b := Buf(m.name, m.id, m.len, m.pa, m.da, false);
      if i >= 0 {
        b := b.(owned := remoteDummies[i].owned);
        SetRemote(v, localDummies, remoteDummies, buffers, i, b);
        KnownName(role, v, localBuffers, m.name);
        KeptIds(role, v, localBuffers, b);
        remoteDummies := remoteDummies[i := b];
        view := v[m.name := Entry(Remote, b)];
      } else {
        NotKnown(v, localDummies, remoteDummies, buffers, m.name);
        if |m.name.text| == 0 || |m.name.text| >= NAME_SIZE {
          return;
        }
        KeptIds(role, v, localBuffers, b);
        NewRemote(v, localDummies, remoteDummies, buffers, b);
        remoteDummies := remoteDummies + [b];
        view := v[m.name := Entry(Remote, b)];
      }
    }

    // The handler of BUFFER_CREATED.
    method OnCreated(m: Msg, pa: nat, da: nat) returns (reply: Option<Msg>)
      requires Valid()
      modifies this
      ensures Valid() && localBuffers == old(localBuffers) && (view, reply) == Receive(role, old(view), m, pa, da)
    {
      hide ListShown, SlotsShown, IdsKept, Vacated, SlotFree;
      ghost var v := view;
      reply := None;
      if m.id >= SLOTS {
        return;
      }
      SlotCount(v, buffers);
      var i := FindAvailable(m.name);
      if i >= 0 {
        OneInSlot(v, buffers, i);
        return if m.avail then None else Some(Tell(buffers[i].value, true));
      }
      ghost var none := i;
      i := FindByName(localDummies, m.name);
      if i >= 0 {
        Complete(i, m, pa, da);
      } else {
        NotLive(v, localDummies, remoteDummies, buffers, m.name);
        Keep(m);
      }
    }

    // A name that only the other end had is forgotten.
    method Forget(i: nat, id: nat) returns (ghost name: Name)
      requires Valid() && i < |remoteDummies| && remoteDummies[i].id == id
      modifies this
      ensures Valid() && localBuffers == old(localBuffers) && DestroysTo(old(view), view, id, true, name)
    {
      hide ListShown, SlotsShown, IdsKept, NoneKept, Destroyed;
      name := remoteDummies[i].name;
      DropRemote(view, localDummies, remoteDummies, buffers, i);
      ForgottenIds(role, view, localBuffers, name);
      DestroyedIs(view, name);
      remoteDummies := remoteDummies[..i] + remoteDummies[i + 1..];
      view := view - {name};
    }

    // An available buffer goes back to the local list.
    method Withdraw(id: nat) returns (ghost name: Name)
      requires Valid() && |buffers| == SLOTS && id < SLOTS && buffers[id].Some? && NoneKept(view, id)
      modifies this
      ensures Valid() && localBuffers == old(localBuffers) && DestroysTo(old(view), view, id, true, name)
    {
      hide ListShown, SlotsShown, IdsKept, NoneKept, Destroyed;
      var b := buffers[id].value;
      name := b.name;
      AvailableToLocal(view, localDummies, remoteDummies, buffers, id);
      MovedIds(role, view, localBuffers, name);
      DestroyedIs(view, name);
      buffers := buffers[id := None];
      localDummies := localDummies + [b];
      view := view[name := Entry(Local, b)];
    }

    // The handler of BUFFER_DESTROYED. The message names an id only: the first kept buffer
    // with the id is meant, or else the available one.
    method OnDestroyed(id: nat) returns (ok: bool, ghost name: Name)
      requires Valid()
      modifies this
      ensures Valid() && localBuffers == old(localBuffers) && DestroysTo(old(view), view, id, ok, name)
    {
      hide ListShown, SlotsShown, IdsKept, SlotFree, NoneKept, Destroyed, Shows;
      ok, name := false, Name("");
      if id >= SLOTS {
        NoSuchId(role, view, localBuffers, id);
        return;
      }
      var i := FindById(remoteDummies, id);
      if i >= 0 {
        name := Forget(i, id);
        ok := true;
      } else {
        SlotsOf(view, localDummies, remoteDummies, buffers, id);
        if buffers[id].Some? {
          name := Withdraw(id);
          ok := true;
        }
      }
    }

    // Frees a buffer that this end has allocated. An available one is kept for as long as
    // the other end has it. One that is not available goes, and the slot of its id is
    // cleared, whatever is in it.
    method FreeBuffer(name: Name, id: nat)
      requires Valid() && Live(view, name) && view[name].buf.id == id
      modifies this
      ensures Valid() && view == Free(old(view), name)
      ensures localBuffers == if role.Slave? then old(localBuffers)[id := false] else old(localBuffers)
    {
      hide ListShown, SlotsShown, IdsKept, Vacated, SlotFree, Free;
      ghost var v := view;
      FreeIs(v, name);
      KnownName(role, v, localBuffers, name);
      SlotCount(v, buffers);
      IdsCount(role, v, localBuffers);
      FreedIds(role, v, localBuffers, name);
      var i := FindByName(localDummies, name);
      if i >= 0 {
        LocalAt(v, localDummies, i);
        LocalGone(v, localDummies, remoteDummies, buffers, i);
        localDummies := localDummies[..i] + localDummies[i + 1..];
        buffers := buffers[id := None];
        view := Vacated(v - {name}, id);
      } else {
        AvailableThen(v, localDummies, buffers, name);
        var b := buffers[id].value;
        AvailableToRemote(v, localDummies, remoteDummies, buffers, id);
        buffers := buffers[id := None];
        remoteDummies := remoteDummies + [b];
        view := v[name := Entry(Remote, b)];
      }
      if role.Slave? {
        localBuffers := localBuffers[id := false];
      }
    }
  }
}
