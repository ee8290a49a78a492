/**
  Reference counting: `scoped_refptr` (api/scoped_refptr.h) over `RefCountedBase`
  (api/ref_counted_base.h). Objects and handles are names; the state says what each handle points to and
  how often each object is counted.
 */
module RefPtrs {
  import opened Text

  type Object = nat
  type Handle = nat

  /** `count` has every object ever made; `loose` counts the references that `release()` or a direct
      `AddRef` handed to the program; `held` remembers which objects were ever referenced. */
  datatype Store = Store(
    ptr: map<Handle, Option<Object>>, count: map<Object, nat>, deleted: set<Object>,
    loose: map<Object, nat>, held: set<Object>)

  const EMPTY := Store(map[], map[], {}, map[], {})

  // ----- RefCountedBase -------------------------------------------------------------------------

  /** The object may be touched: it was made and not yet deleted. */
  predicate Usable(s: Store, o: Object) { o in s.count && o in s.loose && o !in s.deleted }

  function AddRef(s: Store, o: Object): Store
    requires Usable(s, o)
  {
    s.(count := s.count[o := s.count[o] + 1], held := s.held + {o})
  }

  /** Dropping the last reference deletes the object. */
  function ReleaseRef(s: Store, o: Object): Store
    requires Usable(s, o) && s.count[o] > 0
  {
    var n := s.count[o] - 1;
    s.(count := s.count[o := n], deleted := if n == 0 then s.deleted + {o} else s.deleted)
  }

  function AddRefIf(s: Store, p: Option<Object>): Store
    requires p.Some? ==> Usable(s, p.value)
  {
    if p.Some? then AddRef(s, p.value) else s
  }

  function ReleaseIf(s: Store, p: Option<Object>): Store
    requires p.Some? ==> Usable(s, p.value) && s.count[p.value] > 0
  {
    if p.Some? then ReleaseRef(s, p.value) else s
  }

  // ----- who refers to an object ------------------------------------------------------------------

  ghost function Holders(ptr: map<Handle, Option<Object>>, o: Object): set<Handle>
  {
    set h | h in ptr && ptr[h] == Some(o)
  }

  ghost function Owners(s: Store, o: Object): nat
    requires o in s.loose
  {
    |Holders(s.ptr, o)| + s.loose[o]
  }

  ghost predicate Exact(s: Store, o: Object)
    requires o in s.count && o in s.loose
  {
    && s.count[o] == Owners(s, o)
    && (s.count[o] > 0 ==> o in s.held)
    && (o in s.deleted <==> o in s.held && s.count[o] == 0)
  }

  ghost predicate Shaped(s: Store) {
    && s.count.Keys == s.loose.Keys && s.deleted <= s.count.Keys && s.held <= s.count.Keys
    && forall h :: h in s.ptr && s.ptr[h].Some? ==> s.ptr[h].value in s.count
  }

  /** Each live object is counted once for every handle on it and every loose reference; deleted objects
      have neither; an object is deleted exactly when it was referenced once and is no more. */
  ghost predicate Inv(s: Store) {
    Shaped(s) && forall o :: o in s.count ==> Exact(s, o)
  }

  lemma HoldersSet(ptr: map<Handle, Option<Object>>, h: Handle, v: Option<Object>, o: Object)
    ensures |Holders(ptr[h := v], o)| == |Holders(ptr - {h}, o)| + if v == Some(o) then 1 else 0
  {
    if v == Some(o) {
      HoldersAdded(ptr, h, o);
    } else {
      assert Holders(ptr[h := v], o) == Holders(ptr - {h}, o);
    }
  }

  lemma HoldersAdded(ptr: map<Handle, Option<Object>>, h: Handle, o: Object)
    ensures |Holders(ptr[h := Some(o)], o)| == |Holders(ptr - {h}, o)| + 1
  {
    var rest := Holders(ptr - {h}, o);
    assert h !in rest;
    assert Holders(ptr[h := Some(o)], o) == rest + {h};
  }

  lemma HoldersErase(ptr: map<Handle, Option<Object>>, h: Handle, o: Object)
    requires h in ptr
    ensures |Holders(ptr, o)| == |Holders(ptr - {h}, o)| + if ptr[h] == Some(o) then 1 else 0
  {
    HoldersSet(ptr, h, ptr[h], o);
    assert ptr[h := ptr[h]] == ptr;
  }

  /** The handle exists, and its object, if any, is alive and counted at least once. */
  predicate Holding(s: Store, h: Handle) {
    h in s.ptr && (s.ptr[h].Some? ==> Usable(s, s.ptr[h].value) && s.count[s.ptr[h].value] > 0)
  }

  lemma HandleHolds(s: Store, h: Handle)
    requires Inv(s) && h in s.ptr
    ensures Holding(s, h)
  {
    if s.ptr[h].Some? {
      assert h in Holders(s.ptr, s.ptr[h].value);
      assert Exact(s, s.ptr[h].value);
    }
  }

  // ----- scoped_refptr ----------------------------------------------------------------------------

  predicate Pointable(s: Store, p: Option<Object>) { p.Some? ==> Usable(s, p.value) }

  /** The constructors from nothing, from a raw pointer and from another handle. */
  function Construct(s: Store, h: Handle, p: Option<Object>): Store
    requires h !in s.ptr && Pointable(s, p)
  {
    AddRefIf(s.(ptr := s.ptr[h := p]), p)
  }

  /** `release()` without the reference it hands out being recorded. */
  function Emptied(s: Store, h: Handle): Store
    requires h in s.ptr
  {
    s.(ptr := s.ptr[h := None])
  }

  /** The move constructor: the new handle takes what `release()` returns. */
  function Move(s: Store, h: Handle, from: Handle): Store
    requires h !in s.ptr && from in s.ptr
  {
    var p := s.ptr[from];
    var s1 := Emptied(s, from);
    s1.(ptr := s1.ptr[h := p])
  }

  function Destroy(s: Store, h: Handle): Store
    requires Holding(s, h)
  {
    var s1 := ReleaseIf(s, s.ptr[h]);
    s1.(ptr := s1.ptr - {h})
  }

  function Swap(s: Store, h: Handle, g: Handle): Store
    requires h in s.ptr && g in s.ptr
  {
    s.(ptr := s.ptr[h := s.ptr[g]][g := s.ptr[h]])
  }

  /** Assignment of a raw pointer, also the copy assignment: add the new reference first, then release. */
  function Assign(s: Store, h: Handle, p: Option<Object>): Store
    requires Holding(s, h) && Pointable(s, p)
  {
    var s1 := AddRefIf(s, p);
    var s2 := ReleaseIf(s1, s1.ptr[h]);
    s2.(ptr := s2.ptr[h := p])
  }

  /** Move assignment: a temporary takes the pointer, is swapped with the target and destroyed. */
  function AssignMove(s: Store, h: Handle, from: Handle, temp: Handle): Store
    requires Inv(s) && h in s.ptr && from in s.ptr && temp !in s.ptr
  {
    MoveKeeps(s, temp, from);
    var s1 := Move(s, temp, from);
    SwapKeeps(s1, temp, h);
    var s2 := Swap(s1, temp, h);
    HandleHolds(s2, temp);
    Destroy(s2, temp)
  }

  // ----- every operation keeps the invariant --------------------------------------------------------

  lemma ConstructKeeps(s: Store, h: Handle, p: Option<Object>)
    requires Inv(s) && h !in s.ptr && Pointable(s, p)
    ensures Inv(Construct(s, h, p))
  {
    var t := Construct(s, h, p);
    assert s.ptr - {h} == s.ptr;
    forall o | o in t.count ensures Exact(t, o) {
      HoldersSet(s.ptr, h, p, o);
    }
  }

  lemma MoveKeeps(s: Store, h: Handle, from: Handle)
    requires Inv(s) && h !in s.ptr && from in s.ptr
    ensures Inv(Move(s, h, from))
  {
    var t := Move(s, h, from);
    var s1 := Emptied(s, from);
    assert s1.ptr - {h} == s1.ptr;
    forall o | o in t.count ensures Exact(t, o) {
      HoldersErase(s.ptr, from, o);
      HoldersSet(s.ptr, from, None, o);
      HoldersSet(s1.ptr, h, s.ptr[from], o);
    }
  }

  lemma DestroyKeeps(s: Store, h: Handle)
    requires Inv(s) && h in s.ptr
    ensures Holding(s, h)
    ensures Inv(Destroy(s, h))
  {
    HandleHolds(s, h);
    var t := Destroy(s, h);
    forall o | o in t.count ensures Exact(t, o) {
      HoldersErase(s.ptr, h, o);
    }
  }

  lemma SwapKeeps(s: Store, h: Handle, g: Handle)
    requires Inv(s) && h in s.ptr && g in s.ptr
    ensures Inv(Swap(s, h, g))
  {
    var t := Swap(s, h, g);
    var mid := s.ptr[h := s.ptr[g]];
    if h == g {
      assert t.ptr == s.ptr;
    } else {
      forall o | o in t.count ensures Exact(t, o) {
        HoldersErase(s.ptr, h, o);
        HoldersSet(s.ptr, h, s.ptr[g], o);
        HoldersErase(mid, g, o);
        HoldersSet(mid, g, s.ptr[h], o);
      }
    }
  }

  lemma AssignExact(s: Store, h: Handle, p: Option<Object>, o: Object)
    requires Holding(s, h) && Pointable(s, p) && o in s.count && o in s.loose && Exact(s, o)
    ensures Exact(Assign(s, h, p), o)
  {
    HoldersErase(s.ptr, h, o);
    HoldersSet(s.ptr, h, p, o);
  }

  lemma AssignKeeps(s: Store, h: Handle, p: Option<Object>)
    requires Inv(s) && h in s.ptr && Pointable(s, p)
    ensures Holding(s, h)
    ensures Inv(Assign(s, h, p))
  {
    HandleHolds(s, h);
    AssignShaped(s, h, p);
    forall o | o in s.count ensures Exact(Assign(s, h, p), o) {
      AssignExact(s, h, p, o);
    }
  }

  lemma AssignShaped(s: Store, h: Handle, p: Option<Object>)
    requires Shaped(s) && Holding(s, h) && Pointable(s, p)
    ensures Shaped(Assign(s, h, p)) && Assign(s, h, p).count.Keys == s.count.Keys
  {
  }

  lemma AssignMoveKeeps(s: Store, h: Handle, from: Handle, temp: Handle)
    requires Inv(s) && h in s.ptr && from in s.ptr && temp !in s.ptr
    ensures Inv(AssignMove(s, h, from, temp))
  {
    MoveKeeps(s, temp, from);
    var s1 := Move(s, temp, from);
    SwapKeeps(s1, temp, h);
    DestroyKeeps(Swap(s1, temp, h), temp);
  }

  lemma AssignMoveSteps(s: Store, h: Handle, from: Handle, temp: Handle)
    requires Inv(s) && h in s.ptr && from in s.ptr && temp !in s.ptr
    ensures
      var moved := Swap(Move(s, temp, from), temp, h);
      Holding(moved, temp) && AssignMove(s, h, from, temp) == Destroy(moved, temp)
  {
    MoveKeeps(s, temp, from);
    SwapKeeps(Move(s, temp, from), temp, h);
    HandleHolds(Swap(Move(s, temp, from), temp, h), temp);
  }

  /** Self-assignment by copy changes nothing. */
  lemma SelfAssignment(s: Store, h: Handle)
    requires Inv(s) && h in s.ptr
    ensures Holding(s, h) && Assign(s, h, s.ptr[h]) == s
  {
    HandleHolds(s, h);
    var a := Assign(s, h, s.ptr[h]);
    assert a.ptr == s.ptr;
    if s.ptr[h].Some? {
      assert Exact(s, s.ptr[h].value);
      assert s.held + {s.ptr[h].value} == s.held;
      assert a.count == s.count;
    }
  }

  /** So does self-assignment by move, although the handle is empty on the way. */
  lemma SelfMove(s: Store, h: Handle, temp: Handle)
    requires Inv(s) && h in s.ptr && temp !in s.ptr
    ensures AssignMove(s, h, h, temp) == s
  {
    assert AssignMove(s, h, h, temp).ptr == s.ptr;
  }

  /** Releasing first would not do: with one reference left, self-assignment would delete the object
      before counting it again. */
  lemma ReleasingFirstDeletes(s: Store, h: Handle)
    requires Inv(s) && h in s.ptr && s.ptr[h].Some? && s.count[s.ptr[h].value] == 1
    ensures Usable(s, s.ptr[h].value) && !Usable(ReleaseIf(s, s.ptr[h]), s.ptr[h].value)
  {
    HandleHolds(s, h);
  }

  // ----- runs ---------------------------------------------------------------------------------------

  datatype Op =
    | Make(o: Object)
    | Build(h: Handle, p: Option<Object>)
    | CopyFrom(h: Handle, from: Handle)
    | MoveFrom(h: Handle, from: Handle)
    | SetRaw(h: Handle, p: Option<Object>)
    | SetCopy(h: Handle, from: Handle)
    | SetMove(h: Handle, from: Handle, temp: Handle)
    | Exchange(h: Handle, g: Handle)
    | LetGo(h: Handle)
    | End(h: Handle)
    | RawAddRef(o: Object)
    | RawRelease(o: Object)

  /** What the program must respect: it uses handles that exist, raw pointers to objects that live, and
      releases only references it was given. */
  predicate Proper(s: Store, op: Op) {
    match op
    case Make(o) => o !in s.count
    case Build(h, p) => h !in s.ptr && Pointable(s, p)
    case CopyFrom(h, from) => h !in s.ptr && from in s.ptr
    case MoveFrom(h, from) => h !in s.ptr && from in s.ptr
    case SetRaw(h, p) => h in s.ptr && Pointable(s, p)
    case SetCopy(h, from) => h in s.ptr && from in s.ptr
    case SetMove(h, from, temp) => h in s.ptr && from in s.ptr && temp !in s.ptr
    case Exchange(h, g) => h in s.ptr && g in s.ptr
    case LetGo(h) => h in s.ptr
    case End(h) => h in s.ptr
    case RawAddRef(o) => Usable(s, o)
    case RawRelease(o) => o in s.loose && s.loose[o] > 0
  }

  /** Every `AddRef` and `Release` below is on an object that is not deleted: that is part of the
      preconditions of the functions used. */
  function Apply(s: Store, op: Op): Store
    requires Inv(s) && Proper(s, op)
  {
    match op
    case Make(o) => s.(count := s.count[o := 0], loose := s.loose[o := 0])
    case Build(h, p) => Construct(s, h, p)
    case CopyFrom(h, from) => HandleHolds(s, from); Construct(s, h, s.ptr[from])
    case MoveFrom(h, from) => Move(s, h, from)
    case SetRaw(h, p) => AssignKeeps(s, h, p); Assign(s, h, p)
    case SetCopy(h, from) => HandleHolds(s, from); AssignKeeps(s, h, s.ptr[from]); Assign(s, h, s.ptr[from])
    case SetMove(h, from, temp) => AssignMove(s, h, from, temp)
    case Exchange(h, g) => Swap(s, h, g)
    case LetGo(h) =>
      if s.ptr[h].None? then s
      else Emptied(s, h).(loose := s.loose[s.ptr[h].value := s.loose[s.ptr[h].value] + 1])
    case End(h) => DestroyKeeps(s, h); Destroy(s, h)
    case RawAddRef(o) => AddRef(s, o).(loose := s.loose[o := s.loose[o] + 1])
    case RawRelease(o) =>
      LooseIsLive(s, o);
      ReleaseRef(s, o).(loose := s.loose[o := s.loose[o] - 1])
  }

  lemma LooseIsLive(s: Store, o: Object)
    requires Inv(s) && o in s.loose && s.loose[o] > 0
    ensures Usable(s, o) && s.count[o] > 0
  {
    assert Exact(s, o);
  }

  lemma LetGoKeeps(s: Store, h: Handle)
    requires Inv(s) && h in s.ptr
    ensures Inv(Apply(s, LetGo(h)))
  {
    var t := Apply(s, LetGo(h));
    if s.ptr[h].Some? {
      HandleHolds(s, h);
      forall o | o in t.count ensures Exact(t, o) {
        HoldersErase(s.ptr, h, o);
        HoldersSet(s.ptr, h, None, o);
      }
    }
  }

  lemma MakeKeeps(s: Store, o: Object)
    requires Inv(s) && o !in s.count
    ensures Inv(Apply(s, Make(o)))
  {
    var t := Apply(s, Make(o));
    assert Holders(s.ptr, o) == {};
    forall x | x in t.count ensures Exact(t, x) {
    }
  }

  lemma RawKeeps(s: Store, op: Op)
    requires Inv(s) && Proper(s, op) && (op.RawAddRef? || op.RawRelease?)
    ensures Inv(Apply(s, op))
  {
    var t := Apply(s, op);
    forall x | x in t.count ensures Exact(t, x) {
      RawExact(s, op, x);
    }
  }

  lemma RawExact(s: Store, op: Op, x: Object)
    requires Inv(s) && Proper(s, op) && (op.RawAddRef? || op.RawRelease?) && x in s.count
    ensures Exact(Apply(s, op), x)
  {
    assert Exact(s, x);
  }

  /** Every proper operation keeps counts exact and deletes exactly the objects nobody refers to any more. */
  lemma ApplyKeeps(s: Store, op: Op)
    requires Inv(s) && Proper(s, op)
    ensures Inv(Apply(s, op))
  {
    match op
    case Make(o) => MakeKeeps(s, o);
    case Build(h, p) => ConstructKeeps(s, h, p);
    case CopyFrom(h, from) => HandleHolds(s, from); ConstructKeeps(s, h, s.ptr[from]);
    case MoveFrom(h, from) => MoveKeeps(s, h, from);
    case SetRaw(h, p) => AssignKeeps(s, h, p);
    case SetCopy(h, from) => HandleHolds(s, from); AssignKeeps(s, h, s.ptr[from]);
    case SetMove(h, from, temp) => AssignMoveKeeps(s, h, from, temp);
    case Exchange(h, g) => SwapKeeps(s, h, g);
    case LetGo(h) => LetGoKeeps(s, h);
    case End(h) => DestroyKeeps(s, h);
    case RawAddRef(o) => RawKeeps(s, op);
    case RawRelease(o) => RawKeeps(s, op);
  }

  /** A run: each step applies a proper operation. */
  ghost predicate Run(t: seq<Store>, ops: seq<Op>) {
    && |t| == |ops| + 1 && t[0] == EMPTY
    && forall i :: 0 <= i < |ops| && Inv(t[i]) ==> Proper(t[i], ops[i]) && t[i + 1] == Apply(t[i], ops[i])
  }

  lemma {:induction false} RunInv(t: seq<Store>, ops: seq<Op>, i: nat)
    requires Run(t, ops) && i < |t|
    ensures Inv(t[i])
  {
    if i == 0 {
    } else {
      RunInv(t, ops, i - 1);
      ApplyKeeps(t[i - 1], ops[i - 1]);
    }
  }

  /** In every run: an object's count is the number of handles on it plus the references handed out, it is
      deleted exactly when that has dropped to zero, and no handle points to a deleted object. */
  lemma RunIsSafe(t: seq<Store>, ops: seq<Op>, i: nat, o: Object, h: Handle)
    requires Run(t, ops) && i < |t|
    ensures o in t[i].count ==> o in t[i].loose && t[i].count[o] == Owners(t[i], o)
    ensures o in t[i].count ==> (o in t[i].deleted <==> o in t[i].held && Owners(t[i], o) == 0)
    ensures h in t[i].ptr && t[i].ptr[h].Some? ==> t[i].ptr[h].value !in t[i].deleted
  {
    RunInv(t, ops, i);
    assert o in t[i].count ==> Exact(t[i], o);
    if h in t[i].ptr {
      HandleHolds(t[i], h);
    }
  }
}
