/** The handle table that the host lends to plugins (src/backend_ast/pscal_ext_api.c:86-174). */
module HandleTable {

  const UNUSED: int := 0
  const NULL: nat := 0

  datatype Slot = Slot(kind: int, payload: nat)

  /** What a handle in use stands for. */
  ghost function InUse(slots: seq<Slot>): map<nat, Slot> {
    map i: nat | i < |slots| && slots[i].kind != UNUSED :: slots[i]
  }

  ghost predicate Clean(slots: seq<Slot>) {
    forall i :: 0 <= i < |slots| && slots[i].kind == UNUSED ==> slots[i].payload == NULL
  }

  lemma InUseUpdate(slots: seq<Slot>, i: nat, s: Slot)
    requires i < |slots|
    ensures s.kind != UNUSED ==> InUse(slots[i := s]) == InUse(slots)[i := s]
    ensures s.kind == UNUSED ==> InUse(slots[i := s]) == InUse(slots) - {i}
  {
  }

  lemma InUseGrow(slots: seq<Slot>, more: seq<Slot>)
    requires forall i :: 0 <= i < |more| ==> more[i] == Slot(UNUSED, NULL)
    ensures InUse(slots + more) == InUse(slots) && (Clean(slots) ==> Clean(slots + more))
  {
    assert forall i :: |slots| <= i < |slots + more| ==> (slots + more)[i] == more[i - |slots|];
  }

  class HandleTable {
    var slots: array<Slot>

    constructor ()
      ensures Valid() && Contents() == map[] && fresh(slots)
    {
      slots := new Slot[0];
    }

    ghost predicate Valid()
      reads this, slots
    {
      Clean(slots[..])
    }

    ghost function Contents(): map<nat, Slot>
      reads this, slots
    {
      InUse(slots[..])
    }

    method FindUnused() returns (slot: nat)
      ensures slot <= slots.Length && forall j :: 0 <= j < slot ==> slots[j].kind != UNUSED
      ensures slot < slots.Length ==> slots[slot].kind == UNUSED
    {
      for i := 0 to slots.Length
        invariant forall j :: 0 <= j < i ==> slots[j].kind != UNUSED
      {
        if slots[i].kind == UNUSED {
          return i;
        }
      }
      return slots.Length;
    }

    method Grow()
      modifies `slots
      ensures fresh(slots) && slots.Length > old(slots.Length)
      ensures Contents() == old(Contents()) && (old(Valid()) ==> Valid())
      ensures forall i :: 0 <= i < old(slots.Length) ==> slots[i] == old(slots[i])
      ensures slots[old(slots.Length)].kind == UNUSED
    {
      var newCapacity := if slots.Length != 0 then slots.Length * 2 else 16;
      var newSlots := new Slot[newCapacity](_ => Slot(UNUSED, NULL));
      forall i | 0 <= i < slots.Length {
        newSlots[i] := slots[i];
      }
      ghost var more := newSlots[slots.Length..];
      assert newSlots[..] == slots[..] + more;
      InUseGrow(slots[..], more);
      slots := newSlots;
    }

    /** The lowest free handle is given out; the rest stays as it was. */
    method Alloc(kind: int, payload: nat) returns (handle: int)
      requires Valid()
      modifies this, slots
      ensures Valid() && (slots == old(slots) || fresh(slots))
      ensures kind == UNUSED <==> handle == -1
      ensures kind == UNUSED ==> Contents() == old(Contents())
      ensures kind != UNUSED ==> handle >= 0 && handle !in old(Contents()) &&
                                 (forall j: nat :: j < handle ==> j in old(Contents())) &&
                                 Contents() == old(Contents())[handle := Slot(kind, payload)]
    {
      if kind == UNUSED {
        return -1;
      }
      hide InUse;
      ghost var contents := Contents();
      var slot := FindUnused();
      TakenBelow(slot);
      if slot == slots.Length {
        Grow();
      }
      ghost var before := slots[..];
      InUseUpdate(before, slot, Slot(kind, payload));
      slots[slot] := Slot(kind, payload);
      assert slots[..] == before[slot := Slot(kind, payload)];
      return slot;
    }

    lemma TakenBelow(slot: nat)
      requires slot <= slots.Length && forall j :: 0 <= j < slot ==> slots[j].kind != UNUSED
      requires slot < slots.Length ==> slots[slot].kind == UNUSED
      ensures slot !in Contents() && forall j: nat :: j < slot ==> j in Contents()
    {
    }

    method Lookup(handle: int, kind: int) returns (found: bool, payload: nat)
      ensures found <==> handle >= 0 && handle in Contents() && Contents()[handle].kind == kind
      ensures payload == if found then Contents()[handle].payload else NULL
    {
      if 0 <= handle < slots.Length && slots[handle].kind == kind && kind != UNUSED {
        return true, slots[handle].payload;
      }
      return false, NULL;
    }

    /** Freeing a handle that is not in use does nothing and answers NULL. */
    method Free(handle: int) returns (payload: nat)
      requires Valid()
      modifies slots
      ensures Valid()
      ensures payload == if handle >= 0 && handle in old(Contents()) then old(Contents())[handle].payload else NULL
      ensures Contents() == if handle >= 0 then old(Contents()) - {handle} else old(Contents())
    {
      if handle < 0 || handle >= slots.Length {
        return NULL;
      }
      ghost var before := slots[..];
      payload := slots[handle].payload;
      slots[handle] := Slot(UNUSED, NULL);
      assert slots[..] == before[handle := Slot(UNUSED, NULL)];
      InUseUpdate(before, handle, Slot(UNUSED, NULL));
    }
  }
}
