/**
  `scoped_refptr` and the counted object as the source has them: a handle with one pointer field, an object
  with one counter. Every method takes, as ghosts, the program's objects and handles and the store of
  module RefPtrs that describes them, and leaves them described by the store's next state.
 */
module ScopedRefptrs {
  import opened Text
  import R = RefPtrs

  class RefCounted {
    const id: R.Object
    var count: nat
    var deleted: bool

    constructor (id: R.Object)
      ensures this.id == id && count == 0 && !deleted
    {
      this.id, count, deleted := id, 0, false;
    }

    method AddRef()
      requires !deleted
      modifies this
      ensures count == old(count) + 1 && !deleted
    {
      count := count + 1;
    }

    /** Tells whether this was the last reference; if so the object is gone. */
    method Release() returns (last: bool)
      requires !deleted && count > 0
      modifies this
      ensures count == old(count) - 1 && deleted == last == (old(count) == 1)
    {
      count := count - 1;
      last := count == 0;
      if last {
        deleted := true;
      }
    }
  }

  /** The program's objects and handles, by name. */
  datatype World = World(objects: map<R.Object, RefCounted>, handles: map<R.Handle, ScopedRefptr>)

  function Name(p: RefCounted?): Option<R.Object> { if p == null then None else Some(p.id) }

  ghost predicate Belongs(w: World, p: RefCounted?) {
    p != null ==> p.id in w.objects && w.objects[p.id] == p
  }

  ghost predicate ShowsObjects(w: World, s: R.Store)
    reads w.objects.Values
  {
    && w.objects.Keys == s.count.Keys
    && forall o :: o in w.objects ==>
        w.objects[o].id == o && w.objects[o].count == s.count[o] && w.objects[o].deleted == (o in s.deleted)
  }

  ghost predicate ShowsHandles(w: World, s: R.Store)
    reads w.handles.Values
  {
    && w.handles.Keys == s.ptr.Keys
    && forall h :: h in w.handles ==>
        w.handles[h].id == h && Name(w.handles[h].ptr) == s.ptr[h] && Belongs(w, w.handles[h].ptr)
  }

  /** The program's objects and handles are as the store says. */
  ghost predicate Shows(w: World, s: R.Store)
    reads w.objects.Values, w.handles.Values
  {
    ShowsObjects(w, s) && ShowsHandles(w, s)
  }

  lemma HandleAdded(w: World, s: R.Store, h: ScopedRefptr)
    requires Shows(w, s) && h.id !in s.ptr && Belongs(w, h.ptr)
    ensures Shows(w.(handles := w.handles[h.id := h]), s.(ptr := s.ptr[h.id := Name(h.ptr)]))
  {
  }

  lemma HandleDropped(w: World, s: R.Store, id: R.Handle)
    requires Shows(w, s)
    ensures Shows(w.(handles := w.handles - {id}), s.(ptr := s.ptr - {id}))
  {
  }

  /** `AddRef` on a pointer that may be null. */
  method AddRefIf(p: RefCounted?, ghost w: World, ghost s: R.Store)
    requires Shows(w, s) && Belongs(w, p) && R.Pointable(s, Name(p))
    modifies p
    ensures Shows(w, R.AddRefIf(s, Name(p)))
  {
    if p != null {
      p.AddRef();
    }
  }

  /** `Release` on a pointer that may be null. */
  method ReleaseIf(p: RefCounted?, ghost w: World, ghost s: R.Store)
    requires Shows(w, s) && Belongs(w, p)
    requires p != null ==> R.Usable(s, p.id) && s.count[p.id] > 0
    modifies p
    ensures Shows(w, R.ReleaseIf(s, Name(p)))
  {
    if p != null {
      var _ := p.Release();
    }
  }

  class ScopedRefptr {
    const id: R.Handle
    var ptr: RefCounted?

    /** From nothing, a raw pointer, or another handle's pointer. */
    constructor (id: R.Handle, p: RefCounted?, ghost w: World, ghost s: R.Store)
      requires Shows(w, s) && id !in s.ptr && Belongs(w, p) && R.Pointable(s, Name(p))
      modifies p
      ensures this.id == id && Shows(w.(handles := w.handles[id := this]), R.Construct(s, id, Name(p)))
    {
      this.id, ptr := id, p;
      new;
      AddRefIf(p, w, s);
      HandleAdded(w, R.AddRefIf(s, Name(p)), this);
    }

    /** The move constructor: what the other handle held, taken without touching the count. */
    constructor Move(id: R.Handle, from: ScopedRefptr, ghost w: World, ghost s: R.Store)
      requires Shows(w, s) && id !in s.ptr && from.id in w.handles && w.handles[from.id] == from
      modifies from
      ensures this.id == id && ptr == old(from.ptr) && from.ptr == null
      ensures Shows(w.(handles := w.handles[id := this]), R.Move(s, id, from.id))
    {
      this.id := id;
      ptr := null;
      new;
      var p := from.Release(w, s);
      ptr := p;
      HandleAdded(w, R.Emptied(s, from.id), this);
    }

    /** Hands the pointer out and keeps none. */
    method Release(ghost w: World, ghost s: R.Store) returns (p: RefCounted?)
      requires Shows(w, s) && id in w.handles && w.handles[id] == this
      modifies this
      ensures p == old(ptr) && ptr == null && Shows(w, R.Emptied(s, id))
    {
      p := ptr;
      ptr := null;
    }

    method Swap(r: ScopedRefptr, ghost w: World, ghost s: R.Store)
      requires Shows(w, s) && id in w.handles && w.handles[id] == this
      requires r.id in w.handles && w.handles[r.id] == r
      modifies this, r
      ensures ptr == old(r.ptr) && r.ptr == old(ptr) && Shows(w, R.Swap(s, id, r.id))
    {
      var p := ptr;
      ptr := r.ptr;
      r.ptr := p;
    }

    /** Adds the new reference before releasing the old one. */
    method Assign(p: RefCounted?, ghost w: World, ghost s: R.Store)
      requires R.Holding(s, id) && Shows(w, s) && id in w.handles && w.handles[id] == this
      requires Belongs(w, p) && R.Pointable(s, Name(p))
      modifies this, p, ptr
      ensures Shows(w, R.Assign(s, id, Name(p)))
    {
      ghost var s1 := R.AddRefIf(s, Name(p));
      AddRefIf(p, w, s);
      ReleaseIf(ptr, w, s1);
      Point(p, w, R.ReleaseIf(s1, s1.ptr[id]));
    }

    method Point(p: RefCounted?, ghost w: World, ghost s: R.Store)
      requires Shows(w, s) && id in w.handles && w.handles[id] == this && Belongs(w, p)
      modifies this
      ensures Shows(w, s.(ptr := s.ptr[id := Name(p)]))
    {
      ptr := p;
    }

    /** The destructor: the handle leaves the program. */
    method Destroy(ghost w: World, ghost s: R.Store)
      requires R.Holding(s, id) && Shows(w, s) && id in w.handles && w.handles[id] == this
      modifies ptr
      ensures Shows(w.(handles := w.handles - {id}), R.Destroy(s, id))
    {
      ReleaseIf(ptr, w, s);
      HandleDropped(w, R.ReleaseIf(s, Name(ptr)), id);
    }

    /** Move assignment: a temporary takes the pointer, is swapped with this handle and destroyed. The
        temporary's name is any that is not in use. */
    method AssignMove(r: ScopedRefptr, temp: R.Handle, ghost w: World, ghost s: R.Store)
      requires R.Inv(s) && Shows(w, s) && id in w.handles && w.handles[id] == this
      requires r.id in w.handles && w.handles[r.id] == r && temp !in s.ptr
      modifies this, r, ptr
      ensures Shows(w, R.AssignMove(s, id, r.id, temp))
    {
      R.AssignMoveSteps(s, id, r.id, temp);
      AssignByTemporary(r, temp, w, s);
    }

    method AssignByTemporary(r: ScopedRefptr, temp: R.Handle, ghost w: World, ghost s: R.Store)
      requires Shows(w, s) && id in w.handles && w.handles[id] == this
      requires r.id in w.handles && w.handles[r.id] == r && temp !in s.ptr
      requires R.Holding(R.Swap(R.Move(s, temp, r.id), temp, id), temp)
      modifies this, r, ptr
      ensures Shows(w, R.Destroy(R.Swap(R.Move(s, temp, r.id), temp, id), temp))
    {
      var t := MoveIntoTemporary(r, temp, w, s);
      ghost var w1 := w.(handles := w.handles[temp := t]);
      t.Destroy(w1, R.Swap(R.Move(s, temp, r.id), temp, id));
      assert w1.handles - {temp} == w.handles;
    }

    method MoveIntoTemporary(r: ScopedRefptr, temp: R.Handle, ghost w: World, ghost s: R.Store)
      returns (t: ScopedRefptr)
      requires Shows(w, s) && id in w.handles && w.handles[id] == this
      requires r.id in w.handles && w.handles[r.id] == r && temp !in s.ptr
      modifies this, r
      ensures fresh(t) && t.id == temp && t.ptr in {null, old(ptr)}
      ensures Shows(w.(handles := w.handles[temp := t]), R.Swap(R.Move(s, temp, r.id), temp, id))
    {
      t := new ScopedRefptr.Move(temp, r, w, s);
      t.Swap(this, w.(handles := w.handles[temp := t]), R.Move(s, temp, r.id));
    }
  }
}
