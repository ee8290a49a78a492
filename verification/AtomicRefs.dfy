/**
  Reference counting by several threads: the operations of `scoped_refptr` (api/scoped_refptr.h) cut at
  their reads of a handle and their atomic increments and decrements (rtc_base/ref_counter.h). Any number
  of threads, each at its own place in the code, take steps in any order. A handle is changed by one thread
  at a time, which may pass it on, and never while another reads it: that would be a data race. Any number
  of threads may copy one handle at once. An object's counter is shared by all.
 */
module AtomicRefs {
  import opened Text

  type Object = nat
  type Handle = nat
  type Thread = nat

  /** Where a thread is: between operations; past reading `p` from another handle, for a new handle `h` or to
      assign it to `h`; in an assignment past the increment, past the decrement that left other references,
      or past the one that left none and about to delete; or about to delete for a destructor. `p` is what
      the assignment will store. */
  datatype Place =
    | Idle
    | Reading(from: Handle, p: Option<Object>, h: Handle, assigns: bool)
    | Counted(h: Handle, p: Option<Object>)
    | Deleting(o: Object, next: Place)
    | Storing(h: Handle, p: Option<Object>)

  /** Who has a counted reference: a handle, or a thread in the middle of an assignment. */
  datatype Slot = OfHandle(h: Handle) | OfThread(t: Thread)

  /** `ptr` is what the handles' fields say, `refs` which references are counted. */
  datatype State = State(
    ptr: map<Handle, Option<Object>>, owner: map<Handle, Thread>, places: map<Thread, Place>,
    count: map<Object, nat>, deletions: map<Object, nat>, refs: map<Slot, Object>)

  const INITIAL := State(map[], map[], map[], map[], map[], map[])

  /** `Read` and `Increment` make a copy; `Read`, `Increment`, `Decrement`, `Store`, with `Delete` where the
      decrement left no reference, make a copy assignment. */
  datatype Step =
    | Enter(t: Thread)
    | Make(t: Thread, h: Handle, o: Object)
    | Move(t: Thread, h: Handle, from: Handle)
    | Swap(t: Thread, h: Handle, g: Handle)
    | Pass(t: Thread, u: Thread, h: Handle)
    | Read(t: Thread, from: Handle, h: Handle, assigns: bool)
    | Increment(t: Thread)
    | Decrement(t: Thread)
    | Delete(t: Thread)
    | Store(t: Thread)
    | Destroy(t: Thread, h: Handle)

  predicate At(s: State, t: Thread, p: Place) { t in s.places && s.places[t] == p }

  /** The handle an assignment is at work on. */
  function Target(p: Place): Option<Handle>
  {
    match p
    case Reading(_, _, h, assigns) => if assigns then Some(h) else None
    case Counted(h, _) => Some(h)
    case Storing(h, _) => Some(h)
    case Deleting(_, next) => Target(next)
    case Idle => None
  }

  /** Its thread is in the middle of assigning to the handle. */
  predicate Targeted(s: State, h: Handle) {
    h in s.owner && s.owner[h] in s.places && Target(s.places[s.owner[h]]) == Some(h)
  }

  /** No thread is copying the handle. */
  predicate Unread(s: State, h: Handle) {
    forall u :: u in s.places && s.places[u].Reading? ==> s.places[u].from != h
  }

  /** The thread is between operations and the handle is its own. */
  predicate Uses(s: State, t: Thread, h: Handle) { At(s, t, Idle) && h in s.ptr && h in s.owner && s.owner[h] == t }

  /** And no thread is copying it, so that the thread may change it. */
  predicate Changes(s: State, t: Thread, h: Handle) { Uses(s, t, h) && Unread(s, h) }

  /** A handle of any thread may be read unless that thread is assigning to it. */
  predicate Enabled(s: State, step: Step) {
    match step
    case Enter(t) => t !in s.places
    case Make(t, h, o) => At(s, t, Idle) && h !in s.ptr && o !in s.count
    case Move(t, h, from) => Changes(s, t, from) && h !in s.ptr
    case Swap(t, h, g) => Changes(s, t, h) && Changes(s, t, g)
    case Pass(t, u, h) => WorksOn(s, t, h) && t in s.places && u in s.places && !Targeted(s, h)
    case Read(t, from, h, assigns) =>
      && At(s, t, Idle) && from in s.ptr && !Targeted(s, from)
      && if assigns then Changes(s, t, h) else h !in s.ptr
    case Increment(t) => t in s.places && s.places[t].Reading? && (s.places[t].assigns || s.places[t].h !in s.ptr)
    case Decrement(t) => t in s.places && s.places[t].Counted?
    case Delete(t) => t in s.places && s.places[t].Deleting?
    case Store(t) => t in s.places && s.places[t].Storing?
    case Destroy(t, h) => Changes(s, t, h)
  }

  /** The object whose counter or body a step touches. */
  function Touched(s: State, step: Step): Option<Object>
    requires Enabled(s, step)
  {
    match step
    case Increment(t) => s.places[t].p
    case Decrement(t) => if s.places[t].h in s.ptr then s.ptr[s.places[t].h] else None
    case Delete(t) => Some(s.places[t].o)
    case Destroy(_, h) => s.ptr[h]
    case _ => None
  }

  /** A step on an object that was made. */
  predicate Defined(s: State, step: Step) {
    && Enabled(s, step)
    && (Touched(s, step).Some? ==> Touched(s, step).value in s.count && Touched(s, step).value in s.deletions)
    && ((step.Decrement? || step.Destroy?) && Touched(s, step).Some? ==> s.count[Touched(s, step).value] > 0)
  }

  function Increased(s: State, slot: Slot, p: Option<Object>): State
    requires p.Some? ==> p.value in s.count
  {
    if p.None? then s
    else s.(count := s.count[p.value := s.count[p.value] + 1], refs := s.refs[slot := p.value])
  }

  /** The decrement by the holder of `slot`, which goes on at `next` or first deletes the object. */
  function Decreased(s: State, slot: Slot, p: Option<Object>, t: Thread, next: Place): State
    requires p.Some? ==> p.value in s.count && s.count[p.value] > 0
  {
    if p.None? then s.(places := s.places[t := next])
    else
      var n := s.count[p.value] - 1;
      s.(count := s.count[p.value := n], refs := s.refs - {slot},
         places := s.places[t := if n == 0 then Deleting(p.value, next) else next])
  }

  function Take(s: State, step: Step): State
    requires Defined(s, step)
  {
    match step
    case Enter(t) => s.(places := s.places[t := Idle])
    case Make(t, h, o) =>
      s.(ptr := s.ptr[h := Some(o)], owner := s.owner[h := t], count := s.count[o := 1],
         deletions := s.deletions[o := 0], refs := s.refs[OfHandle(h) := o])
    case Move(t, h, from) =>
      s.(ptr := s.ptr[from := None][h := s.ptr[from]], owner := s.owner[h := t],
         refs := Moved(s.refs, OfHandle(from), OfHandle(h)))
    case Swap(t, h, g) =>
      s.(ptr := s.ptr[h := s.ptr[g]][g := s.ptr[h]], refs := Swapped(s.refs, OfHandle(h), OfHandle(g)))
    case Pass(t, u, h) => s.(owner := s.owner[h := u])
    case Read(t, from, h, assigns) => s.(places := s.places[t := Reading(from, s.ptr[from], h, assigns)])
    case Increment(t) =>
      var h, p := s.places[t].h, s.places[t].p;
      if s.places[t].assigns then Increased(s.(places := s.places[t := Counted(h, p)]), OfThread(t), p)
      else Increased(s.(ptr := s.ptr[h := p], owner := s.owner[h := t], places := s.places[t := Idle]),
                     OfHandle(h), p)
    case Decrement(t) =>
      var h := s.places[t].h;
      Decreased(s, OfHandle(h), Touched(s, step), t, Storing(h, s.places[t].p))
    case Delete(t) =>
      var o := s.places[t].o;
      s.(deletions := s.deletions[o := s.deletions[o] + 1], places := s.places[t := s.places[t].next])
    case Store(t) =>
      var h := s.places[t].h;
      s.(ptr := s.ptr[h := s.places[t].p], refs := Moved(s.refs, OfThread(t), OfHandle(h)),
         places := s.places[t := Idle])
    case Destroy(t, h) =>
      var s1 := Decreased(s, OfHandle(h), s.ptr[h], t, Idle);
      s1.(ptr := s1.ptr - {h}, owner := s1.owner - {h})
  }

  /** The reference of one slot, if it has one, goes to another. */
  function Moved(refs: map<Slot, Object>, from: Slot, to: Slot): map<Slot, Object>
  {
    if from in refs then (refs - {from})[to := refs[from]] else refs
  }

  /** The slot gets this reference in place of its own. */
  function Put(refs: map<Slot, Object>, slot: Slot, p: Option<Object>): map<Slot, Object>
  {
    if p.Some? then refs[slot := p.value] else refs - {slot}
  }

  function Swapped(refs: map<Slot, Object>, a: Slot, b: Slot): map<Slot, Object>
  {
    Put(Put(refs, a, Has(refs, b)), b, Has(refs, a))
  }

  // ----- the invariant ----------------------------------------------------------------------------

  /** What the thread will store, and counts until then. */
  function Temp(p: Place): Option<Object>
  {
    match p
    case Counted(_, q) => q
    case Storing(_, q) => q
    case Deleting(_, next) => Temp(next)
    case _ => None
  }

  /** The handle's field still names an object it has no counted reference to. */
  predicate Stale(s: State, h: Handle) {
    Targeted(s, h) && !s.places[s.owner[h]].Reading? && !s.places[s.owner[h]].Counted?
  }

  /** What a handle counts. */
  function Counts(s: State, h: Handle): Option<Object>
  {
    if h in s.ptr && !Stale(s, h) then s.ptr[h] else None
  }

  /** A thread deletes one object and then is idle or stores. */
  predicate Proper(p: Place) { p.Deleting? ==> p.next.Idle? || p.next.Storing? }

  /** The handle has a thread, and has a counted reference exactly as far as it is not stale. */
  predicate HandleOk(s: State, h: Handle) {
    && (h in s.ptr <==> h in s.owner) && (h in s.owner ==> s.owner[h] in s.places)
    && Counts(s, h) == Has(s.refs, OfHandle(h))
  }

  /** The thread is where the code can be, at work on a handle of its own if on any, and has a counted
      reference exactly as long as an assignment needs it. */
  predicate ThreadOk(s: State, t: Thread) { PlaceOk(s, t) && ReaderOk(s, t) }

  predicate PlaceOk(s: State, t: Thread) {
    if t in s.places then
      && Proper(s.places[t]) && (s.places[t].Deleting? ==> s.places[t].o in s.count)
      && (Target(s.places[t]).Some? ==> WorksOn(s, t, Target(s.places[t]).value))
      && Temp(s.places[t]) == Has(s.refs, OfThread(t))
    else Has(s.refs, OfThread(t)) == None
  }

  predicate ReaderOk(s: State, t: Thread) {
    t in s.places && s.places[t].Reading? ==> Held(s, t, s.places[t].from, s.places[t].p)
  }

  predicate WorksOn(s: State, t: Thread, h: Handle) { h in s.ptr && h in s.owner && s.owner[h] == t }

  /** What the thread has read is still there, and no other thread is assigning to it. */
  predicate Held(s: State, t: Thread, from: Handle, p: Option<Object>) {
    from in s.ptr && s.ptr[from] == p && (Targeted(s, from) ==> s.owner[from] == t)
  }

  function Has(refs: map<Slot, Object>, slot: Slot): Option<Object>
  {
    if slot in refs then Some(refs[slot]) else None
  }

  ghost function Owners(refs: map<Slot, Object>, o: Object): set<Slot>
  {
    set slot | slot in refs && refs[slot] == o
  }

  ghost function Deleters(places: map<Thread, Place>, o: Object): set<Thread>
  {
    set t | t in places && places[t].Deleting? && places[t].o == o
  }

  /** The counter is exact; an object has been deleted, or one thread is about to, exactly when no reference
      is left, and never more than once. */
  ghost predicate Fate(s: State, o: Object)
    requires o in s.count && o in s.deletions
  {
    && s.count[o] == |Owners(s.refs, o)|
    && s.deletions[o] + |Deleters(s.places, o)| == if s.count[o] == 0 then 1 else 0
  }

  ghost predicate ObjectOk(s: State, o: Object) {
    (o in s.count <==> o in s.deletions) && (o in s.count ==> Fate(s, o)) && (o !in s.count ==> Owners(s.refs, o) == {})
  }

  ghost predicate Inv(s: State) {
    (forall h :: HandleOk(s, h)) && (forall t :: ThreadOk(s, t)) && forall o :: ObjectOk(s, o)
  }

  // ----- counting -----------------------------------------------------------------------------------

  lemma OwnersAdded(refs: map<Slot, Object>, slot: Slot, p: Object, o: Object)
    requires slot !in refs
    ensures |Owners(refs[slot := p], o)| == |Owners(refs, o)| + if p == o then 1 else 0
  {
    if p == o {
      assert Owners(refs[slot := p], o) == Owners(refs, o) + {slot};
    } else {
      assert Owners(refs[slot := p], o) == Owners(refs, o);
    }
  }

  lemma OwnersRemoved(refs: map<Slot, Object>, slot: Slot, o: Object)
    requires slot in refs
    ensures |Owners(refs, o)| == |Owners(refs - {slot}, o)| + if refs[slot] == o then 1 else 0
  {
    OwnersAdded(refs - {slot}, slot, refs[slot], o);
    assert (refs - {slot})[slot := refs[slot]] == refs;
  }

  lemma OwnersMoved(refs: map<Slot, Object>, from: Slot, to: Slot, o: Object)
    requires to !in refs
    ensures |Owners(Moved(refs, from, to), o)| == |Owners(refs, o)|
  {
    if from in refs {
      OwnersRemoved(refs, from, o);
      OwnersAdded(refs - {from}, to, refs[from], o);
    }
  }

  lemma OwnersPut(refs: map<Slot, Object>, slot: Slot, p: Option<Object>, o: Object)
    ensures |Owners(Put(refs, slot, p), o)| + (if Has(refs, slot) == Some(o) then 1 else 0) ==
            |Owners(refs, o)| + if p == Some(o) then 1 else 0
  {
    var rest := refs - {slot};
    if slot in refs {
      OwnersRemoved(refs, slot, o);
    } else {
      assert rest == refs;
    }
    if p.Some? {
      OwnersAdded(rest, slot, p.value, o);
      assert rest[slot := p.value] == refs[slot := p.value];
    }
  }

  lemma OwnersSwapped(refs: map<Slot, Object>, a: Slot, b: Slot, o: Object)
    ensures |Owners(Swapped(refs, a, b), o)| == |Owners(refs, o)|
  {
    OwnersPut(refs, a, Has(refs, b), o);
    OwnersPut(Put(refs, a, Has(refs, b)), b, Has(refs, a), o);
  }

  predicate Deletes(p: Place, o: Object) { p.Deleting? && p.o == o }

  lemma DeletersSet(places: map<Thread, Place>, t: Thread, p: Place, o: Object)
    ensures |Deleters(places[t := p], o)| == |Deleters(places - {t}, o)| + if Deletes(p, o) then 1 else 0
  {
    if Deletes(p, o) {
      assert Deleters(places[t := p], o) == Deleters(places - {t}, o) + {t};
    } else {
      assert Deleters(places[t := p], o) == Deleters(places - {t}, o);
    }
  }

  /** How moving one thread on changes the number of those about to delete `o`. */
  lemma DeletersChange(places: map<Thread, Place>, t: Thread, p: Place, o: Object)
    requires t in places
    ensures |Deleters(places[t := p], o)| + (if Deletes(places[t], o) then 1 else 0) ==
            |Deleters(places, o)| + if Deletes(p, o) then 1 else 0
  {
    DeletersSet(places, t, p, o);
    DeletersSet(places, t, places[t], o);
    assert places[t := places[t]] == places;
  }

  /** An object somebody refers to has not been deleted and nobody is about to delete it. */
  lemma ReferredIsAlive(s: State, slot: Slot)
    requires Inv(s) && slot in s.refs
    ensures Alive(s, s.refs[slot])
  {
    assert slot in Owners(s.refs, s.refs[slot]);
    assert ObjectOk(s, s.refs[slot]);
  }

  ghost predicate Alive(s: State, o: Object) {
    o in s.count && o in s.deletions && s.count[o] > 0 && s.deletions[o] == 0 && Deleters(s.places, o) == {}
  }

  /** An object a thread is about to delete has not been deleted, nobody refers to it, and no other thread is
      about to delete it. */
  lemma DeletedOnce(s: State, t: Thread)
    requires Inv(s) && t in s.places && s.places[t].Deleting?
    ensures var o := s.places[t].o;
            o in s.count && o in s.deletions && s.count[o] == 0 && s.deletions[o] == 0 && Deleters(s.places, o) == {t}
  {
    var o := s.places[t].o;
    assert ThreadOk(s, t) && ObjectOk(s, o);
    assert t in Deleters(s.places, o);
    assert Deleters(s.places, o) == {t} + (Deleters(s.places, o) - {t});
  }

  /** The handle counts what its field says. */
  ghost predicate Sure(s: State, h: Handle) {
    && h in s.ptr && h in s.owner && !Stale(s, h) && s.ptr[h] == Has(s.refs, OfHandle(h))
    && (s.ptr[h].Some? ==> Alive(s, s.ptr[h].value))
  }

  /** So does a handle of a thread between operations. */
  lemma UsedIsSure(s: State, t: Thread, h: Handle)
    requires Inv(s) && Uses(s, t, h)
    ensures Sure(s, h) && OfThread(t) !in s.refs
  {
    assert HandleOk(s, h) && ThreadOk(s, t);
    if s.ptr[h].Some? {
      ReferredIsAlive(s, OfHandle(h));
    }
  }

  /** And the target of an assignment before its decrement. */
  lemma TargetIsSure(s: State, t: Thread)
    requires Inv(s) && t in s.places && s.places[t].Counted?
    ensures WorksOn(s, t, s.places[t].h) && Sure(s, s.places[t].h)
  {
    var h := s.places[t].h;
    assert ThreadOk(s, t) && HandleOk(s, h);
    assert Target(s.places[t]) == Some(h);
    if s.ptr[h].Some? {
      ReferredIsAlive(s, OfHandle(h));
    }
  }

  /** And what a thread has read. */
  lemma ReadIsSure(s: State, t: Thread)
    requires Inv(s) && t in s.places && s.places[t].Reading?
    ensures Held(s, t, s.places[t].from, s.places[t].p) && Sure(s, s.places[t].from) && OfThread(t) !in s.refs
  {
    var from := s.places[t].from;
    assert ThreadOk(s, t) && HandleOk(s, from);
    if s.ptr[from].Some? {
      ReferredIsAlive(s, OfHandle(from));
    }
  }

  /** And a handle that no thread is assigning to. */
  lemma SteadyIsSure(s: State, h: Handle)
    requires Inv(s) && h in s.ptr && !Targeted(s, h)
    ensures Sure(s, h)
  {
    assert HandleOk(s, h);
    if s.ptr[h].Some? {
      ReferredIsAlive(s, OfHandle(h));
    }
  }

  // ----- every step keeps the invariant -------------------------------------------------------------

  /** What a step relies on. */
  ghost predicate Ready(s: State, step: Step) {
    && Defined(s, step)
    && match step
       case Enter(t) => true
       case Make(t, h, o) => OfThread(t) !in s.refs && OfHandle(h) !in s.refs
       case Move(t, h, from) => Sure(s, from) && OfThread(t) !in s.refs && OfHandle(h) !in s.refs
       case Swap(t, h, g) => Sure(s, h) && Sure(s, g)
       case Pass(t, u, h) => Sure(s, h)
       case Read(t, from, h, assigns) => Sure(s, from)
       case Increment(t) =>
         && Sure(s, s.places[t].from) && Held(s, t, s.places[t].from, s.places[t].p) && OfThread(t) !in s.refs
         && if s.places[t].assigns then WorksOn(s, t, s.places[t].h) else OfHandle(s.places[t].h) !in s.refs
       case Decrement(t) => WorksOn(s, t, s.places[t].h) && Sure(s, s.places[t].h)
       case Delete(t) => Deleters(s.places, s.places[t].o) == {t}
       case Store(t) => WorksOn(s, t, s.places[t].h) && OfHandle(s.places[t].h) !in s.refs
       case Destroy(t, h) => Sure(s, h)
  }

  /** Every step that can be taken is on an object that was made and, for a decrement, is counted. */
  lemma EnabledIsReady(s: State, step: Step)
    requires Inv(s) && Enabled(s, step)
    ensures Ready(s, step)
  {
    match step
    case Enter(t) =>
    case Make(t, h, o) => assert HandleOk(s, h) && ThreadOk(s, t);
    case Move(t, h, from) => UsedIsSure(s, t, from); assert HandleOk(s, h);
    case Swap(t, h, g) => UsedIsSure(s, t, h); UsedIsSure(s, t, g);
    case Pass(t, u, h) => SteadyIsSure(s, h);
    case Read(t, from, h, assigns) => SteadyIsSure(s, from);
    case Increment(t) => ReadIsSure(s, t); assert ThreadOk(s, t) && HandleOk(s, s.places[t].h);
    case Decrement(t) => TargetIsSure(s, t);
    case Delete(t) => DeletedOnce(s, t);
    case Store(t) => assert ThreadOk(s, t) && HandleOk(s, s.places[t].h);
    case Destroy(t, h) => UsedIsSure(s, t, h);
  }

  /** Where a decrement leads. */
  lemma TargetStays(s: State, t: Thread)
    requires Defined(s, Decrement(t))
    ensures Target(Take(s, Decrement(t)).places[t]) == Target(s.places[t])
    ensures Temp(Take(s, Decrement(t)).places[t]) == Temp(s.places[t])
  {
    var h, p := s.places[t].h, s.places[t].p;
    if Touched(s, Decrement(t)).Some? {
      var o := Touched(s, Decrement(t)).value;
      assert Target(Deleting(o, Storing(h, p))) == Target(Storing(h, p));
      assert Temp(Deleting(o, Storing(h, p))) == Temp(Storing(h, p));
    }
  }

  /** The handles a step changes, or begins to assign to. */
  function Named(s: State, step: Step): set<Handle>
    requires Enabled(s, step)
  {
    match step
    case Make(_, h, _) => {h}
    case Move(_, h, from) => {h, from}
    case Swap(_, h, g) => {h, g}
    case Pass(_, _, h) => {h}
    case Read(_, _, h, assigns) => if assigns then {h} else {}
    case Increment(t) => {s.places[t].h}
    case Decrement(t) => {s.places[t].h}
    case Store(t) => {s.places[t].h}
    case Destroy(_, h) => {h}
    case _ => {}
  }

  lemma BystanderStays(s: State, step: Step, x: Handle)
    requires Defined(s, step) && x !in Named(s, step)
    ensures var s' := Take(s, step);
            && (x in s'.ptr <==> x in s.ptr) && (x in s.ptr ==> s'.ptr[x] == s.ptr[x])
            && (x in s'.owner <==> x in s.owner) && (x in s.owner ==> s'.owner[x] == s.owner[x])
  {
  }

  lemma BystanderKeepsReference(s: State, step: Step, x: Handle)
    requires Defined(s, step) && x !in Named(s, step)
    ensures Has(Take(s, step).refs, OfHandle(x)) == Has(s.refs, OfHandle(x))
  {
  }

  lemma TakeBystander(s: State, step: Step, x: Handle)
    requires Ready(s, step) && HandleOk(s, x) && PlaceOk(s, step.t) && x !in Named(s, step)
    ensures HandleOk(Take(s, step), x)
  {
    BystanderStays(s, step, x);
    BystanderKeepsReference(s, step, x);
    if step.Decrement? {
      TargetStays(s, step.t);
    }
    if x in s.owner && s.owner[x] != step.t {
      OthersStay(s, step, s.owner[x]);
    }
  }

  lemma TakeNamed(s: State, step: Step, x: Handle)
    requires Ready(s, step) && HandleOk(s, x) && PlaceOk(s, step.t) && (step.Pass? ==> PlaceOk(s, step.u))
    requires x in Named(s, step)
    ensures HandleOk(Take(s, step), x)
  {
    if step.Decrement? {
      TargetStays(s, step.t);
    }
  }

  lemma TakeHandle(s: State, step: Step, x: Handle)
    requires Ready(s, step) && HandleOk(s, x) && PlaceOk(s, step.t) && (step.Pass? ==> PlaceOk(s, step.u))
    ensures HandleOk(Take(s, step), x)
  {
    if x in Named(s, step) {
      TakeNamed(s, step, x);
    } else {
      TakeBystander(s, step, x);
    }
  }

  /** A step leaves the other threads where they are, with the references they have. */
  lemma OthersStay(s: State, step: Step, x: Thread)
    requires Defined(s, step) && x != step.t
    ensures var s' := Take(s, step);
            && (x in s'.places <==> x in s.places) && (x in s.places ==> s'.places[x] == s.places[x])
            && Has(s'.refs, OfThread(x)) == Has(s.refs, OfThread(x))
  {
    OthersKeepReferences(s, step, x);
  }

  lemma OthersKeepReferences(s: State, step: Step, x: Thread)
    requires Defined(s, step) && x != step.t
    ensures Has(Take(s, step).refs, OfThread(x)) == Has(s.refs, OfThread(x))
  {
  }

  /** It takes no handle from a thread that is assigning to it. */
  lemma WorkStays(s: State, step: Step, x: Thread, h: Handle)
    requires Defined(s, step) && x != step.t && x in s.places && Target(s.places[x]) == Some(h) && WorksOn(s, x, h)
    ensures WorksOn(Take(s, step), x, h)
  {
  }

  lemma TakeOther(s: State, step: Step, x: Thread)
    requires Ready(s, step) && PlaceOk(s, x) && x != step.t
    ensures PlaceOk(Take(s, step), x)
  {
    OthersStay(s, step, x);
    if x in s.places && Target(s.places[x]).Some? {
      WorkStays(s, step, x, Target(s.places[x]).value);
    }
  }

  lemma TakeOwn(s: State, step: Step)
    requires Ready(s, step) && PlaceOk(s, step.t)
    ensures PlaceOk(Take(s, step), step.t)
  {
    if step.Decrement? {
      TargetStays(s, step.t);
    }
  }

  lemma TakePlace(s: State, step: Step, x: Thread)
    requires Ready(s, step) && PlaceOk(s, x)
    ensures PlaceOk(Take(s, step), x)
  {
    if x == step.t {
      TakeOwn(s, step);
    } else {
      TakeOther(s, step, x);
    }
  }

  /** A step changes no handle that another thread has read, and starts no assignment to one. */
  lemma ReadIsLeftAlone(s: State, step: Step, x: Thread)
    requires Ready(s, step) && x in s.places && s.places[x].Reading? && ReaderOk(s, x) && x != step.t
    requires PlaceOk(s, step.t)
    ensures step.Pass? || s.places[x].from !in Named(s, step)
  {
  }

  lemma TakeOtherReader(s: State, step: Step, x: Thread)
    requires Ready(s, step) && ReaderOk(s, x) && x != step.t
    requires PlaceOk(s, step.t) && (step.Pass? ==> PlaceOk(s, step.u))
    ensures ReaderOk(Take(s, step), x)
  {
    OthersStay(s, step, x);
    if x in s.places && s.places[x].Reading? {
      ReadIsLeftAlone(s, step, x);
      if !step.Pass? {
        BystanderStays(s, step, s.places[x].from);
      }
      if step.Decrement? {
        TargetStays(s, step.t);
      }
    }
  }

  lemma TakeReader(s: State, step: Step, x: Thread)
    requires Ready(s, step) && ReaderOk(s, x)
    requires PlaceOk(s, step.t) && (step.Pass? ==> PlaceOk(s, step.u))
    ensures ReaderOk(Take(s, step), x)
  {
    if x == step.t {
      TakeOwnReader(s, step);
    } else {
      TakeOtherReader(s, step, x);
    }
  }

  lemma TakeOwnReader(s: State, step: Step)
    requires Ready(s, step) && ReaderOk(s, step.t)
    requires PlaceOk(s, step.t) && (step.Pass? ==> PlaceOk(s, step.u))
    ensures ReaderOk(Take(s, step), step.t)
  {
  }

  /** A decrement by a thread that is not deleting keeps every object's fate. */
  lemma DecreasedKeepsFate(s: State, slot: Slot, p: Option<Object>, t: Thread, next: Place, x: Object)
    requires t in s.places && !s.places[t].Deleting? && !next.Deleting? && p == Has(s.refs, slot)
    requires p.Some? ==> p.value in s.count && s.count[p.value] > 0
    requires ObjectOk(s, x)
    ensures ObjectOk(Decreased(s, slot, p, t, next), x)
  {
    DeletersChange(s.places, t, next, x);
    if p.Some? {
      DeletersChange(s.places, t, Deleting(p.value, next), x);
      OwnersRemoved(s.refs, slot, x);
    }
  }

  lemma IncreasedKeepsFate(s: State, slot: Slot, p: Option<Object>, x: Object)
    requires slot !in s.refs && (p.Some? ==> Alive(s, p.value)) && ObjectOk(s, x)
    ensures ObjectOk(Increased(s, slot, p), x)
  {
    if p.Some? {
      OwnersAdded(s.refs, slot, p.value, x);
    }
  }

  lemma MovedKeepsFate(s: State, s': State, from: Slot, to: Slot, x: Object)
    requires to !in s.refs && ObjectOk(s, x) && s'.refs == Moved(s.refs, from, to)
    requires s'.count == s.count && s'.deletions == s.deletions
    requires |Deleters(s'.places, x)| == |Deleters(s.places, x)|
    ensures ObjectOk(s', x)
  {
    OwnersMoved(s.refs, from, to, x);
  }

  lemma MakeKeepsFate(s: State, t: Thread, h: Handle, o: Object, x: Object)
    requires Ready(s, Make(t, h, o)) && ObjectOk(s, x) && ObjectOk(s, o) && forall u :: ThreadOk(s, u)
    ensures ObjectOk(Take(s, Make(t, h, o)), x)
  {
    OwnersAdded(s.refs, OfHandle(h), o, x);
    assert Deleters(s.places, o) == {} by {
      forall u | u in s.places ensures !Deletes(s.places[u], o) { assert ThreadOk(s, u); }
    }
  }

  lemma IncrementKeepsFate(s: State, t: Thread, x: Object)
    requires Ready(s, Increment(t)) && ObjectOk(s, x)
    ensures ObjectOk(Take(s, Increment(t)), x)
  {
    var h, p, assigns := s.places[t].h, s.places[t].p, s.places[t].assigns;
    var next := if assigns then Counted(h, p) else Idle;
    var s1 := s.(places := s.places[t := next]);
    DeletersChange(s.places, t, next, x);
    NotDeleting(s, t, next, p);
    if assigns {
      IncreasedKeepsFate(s1, OfThread(t), p, x);
    } else {
      var s2 := s1.(ptr := s.ptr[h := p], owner := s.owner[h := t]);
      assert ObjectOk(s2, x);
      IncreasedKeepsFate(s2, OfHandle(h), p, x);
    }
  }

  lemma TakeObject(s: State, step: Step, x: Object)
    requires Inv(s) && Ready(s, step)
    ensures ObjectOk(Take(s, step), x)
  {
    assert ObjectOk(s, x);
    var s' := Take(s, step);
    match step
    case Enter(t) => assert Deleters(s'.places, x) == Deleters(s.places, x);
    case Make(t, h, o) => assert ObjectOk(s, o); MakeKeepsFate(s, t, h, o, x);
    case Move(t, h, from) => MovedKeepsFate(s, s', OfHandle(from), OfHandle(h), x);
    case Swap(t, h, g) => OwnersSwapped(s.refs, OfHandle(h), OfHandle(g), x);
    case Pass(t, u, h) =>
    case Read(t, from, h, assigns) => DeletersChange(s.places, t, Reading(from, s.ptr[from], h, assigns), x);
    case Increment(t) => IncrementKeepsFate(s, t, x);
    case Decrement(t) =>
      var h := s.places[t].h;
      DecreasedKeepsFate(s, OfHandle(h), s.ptr[h], t, Storing(h, s.places[t].p), x);
    case Delete(t) => DeletersChange(s.places, t, s.places[t].next, x); assert ThreadOk(s, t);
    case Store(t) =>
      DeletersChange(s.places, t, Idle, x);
      MovedKeepsFate(s, s', OfThread(t), OfHandle(s.places[t].h), x);
    case Destroy(t, h) =>
      DecreasedKeepsFate(s, OfHandle(h), s.ptr[h], t, Idle, x);
      assert ObjectOk(Decreased(s, OfHandle(h), s.ptr[h], t, Idle), x);
  }

  /** An object stays alive when a thread that is not deleting moves on. */
  lemma NotDeleting(s: State, t: Thread, next: Place, p: Option<Object>)
    requires t in s.places && !s.places[t].Deleting? && !next.Deleting? && (p.Some? ==> Alive(s, p.value))
    ensures p.Some? ==> Alive(s.(places := s.places[t := next]), p.value)
  {
    if p.Some? {
      assert Deleters(s.places[t := next], p.value) == Deleters(s.places, p.value);
    }
  }

  lemma TakeKeeps(s: State, step: Step)
    requires Inv(s) && Enabled(s, step)
    ensures Defined(s, step) && Inv(Take(s, step))
  {
    EnabledIsReady(s, step);
    forall h ensures HandleOk(Take(s, step), h) {
      assert HandleOk(s, h) && ThreadOk(s, step.t);
      assert step.Pass? ==> ThreadOk(s, step.u);
      TakeHandle(s, step, h);
    }
    forall t ensures ThreadOk(Take(s, step), t) {
      assert ThreadOk(s, t) && ThreadOk(s, step.t) && (step.Pass? ==> ThreadOk(s, step.u));
      TakePlace(s, step, t);
      TakeReader(s, step, t);
    }
    forall o ensures ObjectOk(Take(s, step), o) {
      TakeObject(s, step, o);
    }
  }

  /** Move assignment, as the code has it: the pointer moves into a temporary, which is swapped with the
      target and destroyed. Its steps can be taken one after another; they leave the other handle empty and
      the target with its pointer, also when both are one. */
  lemma MoveAssigns(s: State, t: Thread, h: Handle, r: Handle, temp: Handle)
    requires Inv(s) && Changes(s, t, h) && Changes(s, t, r) && temp !in s.ptr
    ensures Defined(s, Move(t, temp, r))
    ensures var s1 := Take(s, Move(t, temp, r));
            && Defined(s1, Swap(t, temp, h))
            && var s2 := Take(s1, Swap(t, temp, h));
               && Defined(s2, Destroy(t, temp))
               && Take(s2, Destroy(t, temp)).ptr == s.ptr[r := None][h := s.ptr[r]]
  {
    TakeKeeps(s, Move(t, temp, r));
    var s1 := Take(s, Move(t, temp, r));
    forall u | u in s.places && s.places[u].Reading? ensures s.places[u].from != temp {
      assert ThreadOk(s, u);
    }
    TakeKeeps(s1, Swap(t, temp, h));
    var s2 := Take(s1, Swap(t, temp, h));
    TakeKeeps(s2, Destroy(t, temp));
    assert Take(s2, Destroy(t, temp)).ptr == s.ptr[r := None][h := s.ptr[r]];
  }

  // ----- runs -----------------------------------------------------------------------------------------

  /** A run: any enabled steps of any threads; that they are defined is proved. */
  ghost predicate Run(t: seq<State>, steps: seq<Step>) {
    && |t| == |steps| + 1 && t[0] == INITIAL
    && forall i :: 0 <= i < |steps| ==>
         Enabled(t[i], steps[i]) && (Defined(t[i], steps[i]) ==> t[i + 1] == Take(t[i], steps[i]))
  }

  lemma {:induction false} RunInv(t: seq<State>, steps: seq<Step>, i: nat)
    requires Run(t, steps) && i < |t|
    ensures Inv(t[i]) && (i < |steps| ==> Defined(t[i], steps[i]))
  {
    if i == 0 {
    } else {
      RunInv(t, steps, i - 1);
      TakeKeeps(t[i - 1], steps[i - 1]);
    }
    if i < |steps| {
      TakeKeeps(t[i], steps[i]);
    }
  }

  /** In every run no step touches the counter or the body of an object that has been deleted. Whoever
      increments or decrements finds the object counted and nobody about to delete it; whoever deletes is
      the only one to do so. */
  lemma NoUseAfterDelete(t: seq<State>, steps: seq<Step>, i: nat)
    requires Run(t, steps) && i < |steps| && Touched(t[i], steps[i]).Some?
    ensures var o := Touched(t[i], steps[i]).value;
            if steps[i].Delete? then
              && o in t[i].count && o in t[i].deletions && t[i].count[o] == 0 && t[i].deletions[o] == 0
              && Deleters(t[i].places, o) == {steps[i].t}
            else Alive(t[i], o)
  {
    RunInv(t, steps, i);
    EnabledIsReady(t[i], steps[i]);
    if steps[i].Delete? {
      DeletedOnce(t[i], steps[i].t);
    }
  }

  /** In every run an object is deleted at most once, and never while a reference to it is counted. When no
      thread is in the middle of an operation, it has been deleted exactly if no handle points to it. */
  lemma DeletedExactlyOnce(t: seq<State>, steps: seq<Step>, i: nat, o: Object)
    requires Run(t, steps) && i < |t| && o in t[i].count
    ensures o in t[i].deletions && t[i].deletions[o] <= 1
    ensures t[i].deletions[o] == 1 ==> Owners(t[i].refs, o) == {}
    ensures (forall u :: u in t[i].places ==> t[i].places[u] == Idle) ==>
              (t[i].deletions[o] == 1 <==> forall h :: h in t[i].ptr ==> t[i].ptr[h] != Some(o))
  {
    RunInv(t, steps, i);
    var s := t[i];
    assert ObjectOk(s, o);
    if forall u :: u in s.places ==> s.places[u] == Idle {
      assert Deleters(s.places, o) == {};
      AllIdle(s, o);
    }
  }

  lemma AllIdle(s: State, o: Object)
    requires Inv(s) && forall u :: u in s.places ==> s.places[u] == Idle
    ensures Owners(s.refs, o) == {} <==> forall h :: h in s.ptr ==> s.ptr[h] != Some(o)
  {
    forall u ensures OfThread(u) !in s.refs {
      assert ThreadOk(s, u);
    }
    forall h | OfHandle(h) in Owners(s.refs, o) ensures h in s.ptr && s.ptr[h] == Some(o) {
      assert HandleOk(s, h);
    }
    forall h | h in s.ptr && s.ptr[h] == Some(o) ensures OfHandle(h) in Owners(s.refs, o) {
      assert HandleOk(s, h);
    }
    if slot :| slot in Owners(s.refs, o) {
      assert slot.OfHandle? && OfHandle(slot.h) in Owners(s.refs, o);
    }
  }
}
