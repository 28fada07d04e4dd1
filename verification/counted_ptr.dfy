/** The reference-counted pointer of include/counted_ptr.h.

`delete` is modelled by a count of how often it happened, on the object and on the counter, so that
freeing twice and touching freed memory can be expressed. `World` is bookkeeping: which handles
are alive and which counters were ever allocated. */
module CountedPtr {
  import opened Options

  /** Something that handles point to. */
  class Target {
    var deleted: nat

    constructor ()
      ensures deleted == 0
    {
      deleted := 0;
    }
  }

  class Counter {
    const ptr: Target
    var count: nat
    var deleted: nat

    constructor (p: Target)
      ensures ptr == p && count == 1 && deleted == 0
    {
      ptr := p;
      count := 1;
      deleted := 0;
    }
  }

  class World {
    var handles: set<Handle>
    ghost var counters: set<Counter>

    constructor ()
      ensures Valid() && handles == {} && counters == {}
    {
      handles := {};
      counters := {};
    }

    ghost function Owners(c: Counter): set<Handle>
      reads this, handles
    {
      set h | h in handles && h.itsCounter == c
    }

    ghost function Objects(): set<Target>
      reads this
    {
      set c | c in counters :: c.ptr
    }

    /** The count is the number of live handles; the counter and its object are freed once there is
        none, and never before; no two counters share an object. */
    ghost predicate Valid()
      reads this, handles, counters, Objects()
    {
      && (forall h | h in handles && h.itsCounter != null :: h.itsCounter in counters)
      && (forall c | c in counters ::
            && c.count == |Owners(c)|
            && c.deleted == (if c.count == 0 then 1 else 0)
            && c.ptr.deleted == c.deleted)
      && (forall c, d | c in counters && d in counters && c != d :: c.ptr != d.ptr)
    }

    /** All handles but `h` point where they did. */
    twostate predicate OthersUnchanged(new h: Handle)
      reads this, handles
    {
      forall g | g in old(handles) && g != h :: g in handles && g.itsCounter == old(g.itsCounter)
    }

    /** Objects are freed exactly when the last handle to them lets go. */
    twostate predicate FreesExactly(h: Handle, moved: bool)
      reads this, counters, Objects()
    {
      && old(counters) <= counters
      && forall c | c in old(counters) ::
           c.ptr.deleted == old(c.ptr.deleted) + if moved && old(Owners(c)) == {h} then 1 else 0
    }
  }

  lemma RemoveOne<T>(s: set<T>, x: T)
    ensures |s - {x}| == if x in s then |s| - 1 else |s|
    ensures |s + {x}| == if x in s then |s| else |s| + 1
  {
    if x !in s {
      assert s - {x} == s;
    } else {
      assert s + {x} == s;
    }
  }

  class Handle {
    var itsCounter: Counter?

    constructor Null(w: World)
      requires w.Valid()
      modifies w`handles
      ensures w.Valid() && fresh(this) && itsCounter == null
      ensures w.handles == old(w.handles) + {this} && w.OthersUnchanged(this)
    {
      itsCounter := null;
      new;
      w.handles := w.handles + {this};
      assert forall c | c in w.counters :: w.Owners(c) == old(w.Owners(c));
    }

    /** Takes over an object that no handle owns yet. */
    constructor (w: World, p: Target)
      requires w.Valid() && p.deleted == 0 && p !in w.Objects()
      modifies w`handles, w`counters
      ensures w.Valid() && fresh(this) && itsCounter != null && itsCounter.ptr == p && p.deleted == 0
      ensures fresh(itsCounter) && w.Owners(itsCounter) == {this}
      ensures w.handles == old(w.handles) + {this} && w.OthersUnchanged(this)
      ensures w.counters == old(w.counters) + {itsCounter} && w.Objects() == old(w.Objects()) + {p}
    {
      itsCounter := new Counter(p);
      new;
      w.handles := w.handles + {this};
      w.counters := w.counters + {itsCounter};
      assert w.Owners(itsCounter) == {this};
      assert forall c | c in old(w.counters) :: w.Owners(c) == old(w.Owners(c)) && c.ptr != p;
      assert w.Objects() == old(w.Objects()) + {p};
      hide World.Owners, World.Objects;
    }

    constructor Copy(w: World, r: Handle)
      requires w.Valid() && r in w.handles
      modifies w`handles, w.counters`count
      ensures w.Valid() && fresh(this) && itsCounter == r.itsCounter
      ensures w.handles == old(w.handles) + {this} && w.OthersUnchanged(this) && w.counters == old(w.counters)
    {
      itsCounter := null;
      new;
      w.handles := w.handles + {this};
      assert forall c | c in w.counters :: w.Owners(c) == old(w.Owners(c));
      Acquire(w, r.itsCounter);
    }

    method Acquire(w: World, c: Counter?)
      requires w.Valid() && this in w.handles && itsCounter == null
      requires c != null ==> c in w.counters && c.deleted == 0
      modifies this, w.counters`count
      ensures w.Valid() && itsCounter == c
    {
      itsCounter := c;
      if c != null {
        c.count := c.count + 1;
        RemoveOne(old(w.Owners(c)), this);
        assert w.Owners(c) == old(w.Owners(c)) + {this};
      }
      assert forall d | d in w.counters && d != c :: w.Owners(d) == old(w.Owners(d));
    }

    method Release(w: World)
      requires w.Valid() && this in w.handles
      modifies this, w.counters`count, w.counters`deleted, w.Objects()
      ensures w.Valid() && itsCounter == null
      ensures w.FreesExactly(this, old(itsCounter) != null)
    {
      if itsCounter != null {
        var c := itsCounter;
        RemoveOne(old(w.Owners(c)), this);
        c.count := c.count - 1;
        if c.count == 0 {
          c.ptr.deleted := c.ptr.deleted + 1;
          c.deleted := c.deleted + 1;
        }
        itsCounter := null;
        assert w.Owners(c) == old(w.Owners(c)) - {this};
        assert forall d | d in w.counters && d != c :: w.Owners(d) == old(w.Owners(d));
      }
    }

    /** operator= lets go of the old object before it takes the new one. That is safe: unless a handle
        is assigned to itself, the right-hand side keeps its own object alive. */
    method Assign(w: World, r: Handle)
      requires w.Valid() && this in w.handles && r in w.handles
      modifies this, w.counters`count, w.counters`deleted, w.Objects()
      ensures w.Valid() && itsCounter == r.itsCounter == old(r.itsCounter)
      ensures itsCounter != null ==> itsCounter.ptr.deleted == 0
      ensures w.FreesExactly(this, this != r && old(itsCounter) != null)
    {
      if this != r {
        Release(w);
        if r.itsCounter != null {
          KeptAlive(w, r);
        }
        hide World.Valid, World.Owners;
        Acquire(w, r.itsCounter);
      }
      if itsCounter != null {
        KeptAlive(w, this);
      }
    }

    /** An object that a live handle points to is alive. */
    static lemma KeptAlive(w: World, h: Handle)
      requires w.Valid() && h in w.handles && h.itsCounter != null
      ensures h.itsCounter in w.counters && h.itsCounter.deleted == 0 == h.itsCounter.ptr.deleted
    {
      assert h in w.Owners(h.itsCounter);
    }

    method SetNull(w: World)
      requires w.Valid() && this in w.handles
      modifies this, w.counters`count, w.counters`deleted, w.Objects()
      ensures w.Valid() && itsCounter == null
      ensures w.FreesExactly(this, old(itsCounter) != null)
    {
      Release(w);
    }

    /** The destructor. */
    method Destroy(w: World)
      requires w.Valid() && this in w.handles
      modifies this, w`handles, w.counters`count, w.counters`deleted, w.Objects()
      ensures w.Valid() && w.handles == old(w.handles) - {this} && w.OthersUnchanged(this)
      ensures w.FreesExactly(this, old(itsCounter) != null)
    {
      Release(w);
      label released:
      w.handles := w.handles - {this};
      assert forall c | c in w.counters :: w.Owners(c) == old@released(w.Owners(c));
    }

    method Unique(w: World) returns (u: bool)
      requires w.Valid() && this in w.handles
      ensures u <==> forall h | h in w.handles && h != this :: h.itsCounter == null || h.itsCounter != itsCounter
    {
      u := if itsCounter != null then itsCounter.count == 1 else true;
      if itsCounter != null {
        ghost var mine := w.Owners(itsCounter);
        assert this in mine;
        RemoveOne(mine, this);
        assert u <==> mine - {this} == {};
        assert forall h | h in w.handles && h != this && h.itsCounter == itsCounter :: h in mine - {this};
      }
    }
  }

  /* ---- Programs ---- */

  /** The reference: what every live handle points to, by name, and how many objects were made. The
      objects are numbered in the order in which they were made. */
  datatype Ref = Ref(points: map<nat, Option<nat>>, made: nat)

  datatype Op =
    | New(h: nat)
    | Null(h: nat)
    | Copy(h: nat, r: nat)
    | Assign(h: nat, r: nat)
    | SetNull(h: nat)
    | Destroy(h: nat)

  /** A constructor makes a handle that was not there, everything else takes handles that are. */
  predicate Enabled(s: Ref, op: Op) {
    match op
    case New(h) => h !in s.points
    case Null(h) => h !in s.points
    case Copy(h, r) => h !in s.points && r in s.points
    case Assign(h, r) => h in s.points && r in s.points
    case SetNull(h) => h in s.points
    case Destroy(h) => h in s.points
  }

  function Step(s: Ref, op: Op): Ref
    requires Enabled(s, op)
  {
    match op
    case New(h) => Ref(s.points[h := Some(s.made)], s.made + 1)
    case Null(h) => s.(points := s.points[h := None])
    case Copy(h, r) => s.(points := s.points[h := s.points[r]])
    case Assign(h, r) => s.(points := s.points[h := s.points[r]])
    case SetNull(h) => s.(points := s.points[h := None])
    case Destroy(h) => s.(points := s.points - {h})
  }

  const START := Ref(map[], 0)

  predicate IsProgram(s: Ref, program: seq<Op>)
    decreases |program|
  {
    program == [] || (Enabled(s, program[0]) && IsProgram(Step(s, program[0]), program[1..]))
  }

  function After(s: Ref, program: seq<Op>): Ref
    requires IsProgram(s, program)
    decreases |program|
  {
    if program == [] then s else After(Step(s, program[0]), program[1..])
  }

  /** The names of the handles on an object. */
  function Names(s: Ref, o: nat): set<nat> {
    set h | h in s.points && s.points[h] == Some(o)
  }

  function Made(program: seq<Op>): nat {
    if program == [] then 0 else (if program[0].New? then 1 else 0) + Made(program[1..])
  }

  lemma {:induction false} MadeByNew(s: Ref, program: seq<Op>)
    requires IsProgram(s, program)
    ensures After(s, program).made == s.made + Made(program)
    decreases |program|
  {
    if program != [] {
      MadeByNew(Step(s, program[0]), program[1..]);
    }
  }

  /** An object that nobody points to any more is never pointed to again. */
  lemma {:induction false} LostStaysLost(s: Ref, program: seq<Op>, o: nat)
    requires IsProgram(s, program) && o < s.made && Names(s, o) == {}
    ensures Names(After(s, program), o) == {}
    decreases |program|
  {
    if program != [] {
      var op := program[0];
      var t := Step(s, op);
      forall h | h in t.points
        ensures t.points[h] != Some(o)
      {
        assert h in s.points ==> h !in Names(s, o);
        assert op.Copy? || op.Assign? ==> op.r !in Names(s, o);
      }
      LostStaysLost(t, program[1..], o);
    }
  }

  lemma {:induction false} ImageSize(names: set<nat>, env: map<nat, Handle>, image: set<Handle>)
    requires names <= env.Keys
    requires forall g, h | g in env && h in env && g != h :: env[g] != env[h]
    requires forall x :: x in image <==> exists h :: h in names && env[h] == x
    ensures |image| == |names|
    decreases names
  {
    assert (forall h :: h !in names) ==> names == {};
    assert (forall x :: x !in image) ==> image == {};
    if h :| h in names {
      ImageSize(names - {h}, env, image - {env[h]});
      RemoveOne(image, env[h]);
      RemoveOne(names, h);
    }
  }

  /** Every live handle has one name. */
  ghost predicate Named(env: map<nat, Handle>, name: map<Handle, nat>, handles: set<Handle>, names: set<nat>) {
    && env.Keys == names && name.Keys == handles
    && (forall h | h in env :: env[h] in handles && name[env[h]] == h)
    && (forall x | x in handles :: name[x] in env && env[name[x]] == x)
  }

  /** Every object has one number. */
  ghost predicate Numbered(made: seq<Counter>, counters: set<Counter>, n: nat) {
    && |made| == n
    && (forall i, j | 0 <= i < j < |made| :: made[i] != made[j])
    && (forall c | c in counters :: c in made) && (forall c | c in made :: c in counters)
  }

  ghost predicate PointsTo(c: Counter?, o: Option<nat>, made: seq<Counter>) {
    match o
    case None => c == null
    case Some(o) => o < |made| && c == made[o]
  }

  lemma NameOneMore(
      env: map<nat, Handle>, name: map<Handle, nat>, handles: set<Handle>, names: set<nat>, h: nat, x: Handle)
    requires Named(env, name, handles, names) && h !in env && x !in handles
    ensures Named(env[h := x], name[x := h], handles + {x}, names + {h})
  {
    assert (env[h := x]).Keys == names + {h};
  }

  lemma NameOneLess(env: map<nat, Handle>, name: map<Handle, nat>, handles: set<Handle>, names: set<nat>, h: nat)
    requires Named(env, name, handles, names) && h in env
    ensures Named(env - {h}, name - {env[h]}, handles - {env[h]}, names - {h})
  {
  }

  lemma NumberOneMore(made: seq<Counter>, counters: set<Counter>, n: nat, c: Counter)
    requires Numbered(made, counters, n) && c !in counters
    ensures Numbered(made + [c], counters + {c}, n + 1)
  {
  }

  /** Accounts of a running program: the reference it should agree with, the name of every handle, and
      the counter of every object in the order in which they were made. */
  datatype Book = Book(ref: Ref, name: map<Handle, nat>, made: seq<Counter>)

  ghost predicate Agrees(w: World, env: map<nat, Handle>, b: Book)
    reads w, w.handles, w.counters, w.Objects()
  {
    && w.Valid()
    && Named(env, b.name, w.handles, b.ref.points.Keys)
    && Numbered(b.made, w.counters, b.ref.made)
    && forall h | h in env && env[h] in w.handles :: PointsTo(env[h].itsCounter, b.ref.points[h], b.made)
  }

  /** What is new in the world is new altogether. */
  twostate predicate Extended(w: World)
    reads w
  {
    && old(w.counters) <= w.counters && fresh(w.handles - old(w.handles)) && fresh(w.counters - old(w.counters))
    && fresh(w.Objects() - old(w.Objects()))
  }

  /** An object, and a handle that takes it over. */
  method Make(w: World) returns (x: Handle)
    requires w.Valid()
    modifies w
    ensures w.Valid() && fresh(x) && x.itsCounter != null && fresh(x.itsCounter) && Extended(w)
    ensures w.handles == old(w.handles) + {x} && w.counters == old(w.counters) + {x.itsCounter}
  {
    var t := new Target();
    x := new Handle(w, t);
  }

  /** The names are those before, with the first name of the operation or, if it is the last time, without it;
      every other name stands for the same handle. */
  predicate Renamed(env: map<nat, Handle>, e: map<nat, Handle>, op: Op) {
    && e.Keys == (if op.Destroy? then env.Keys - {op.h} else env.Keys + {op.h})
    && (forall g | g in env && g != op.h :: g in e && e[g] == env[g])
    && (op.Assign? || op.SetNull? ==> e == env)
  }

  method DoNew(w: World, env: map<nat, Handle>, h: nat, ghost b: Book) returns (e: map<nat, Handle>, ghost c: Book)
    requires Agrees(w, env, b) && h !in env
    modifies w
    ensures Agrees(w, e, c) && c.ref == Step(b.ref, New(h)) && b.made <= c.made
    ensures Renamed(env, e, New(h))
    ensures Extended(w)
  {
    hide World.Valid, Extended, Renamed;
    var x := Make(w);
    OneNameMore(env, h, x, New(h));
    NumberOneMore(b.made, old(w.counters), b.ref.made, x.itsCounter);
    e := env[h := x];
    c := Book(Step(b.ref, New(h)), b.name[x := h], b.made + [x.itsCounter]);
  }

  method DoNull(w: World, env: map<nat, Handle>, h: nat, ghost b: Book) returns (e: map<nat, Handle>, ghost c: Book)
    requires Agrees(w, env, b) && h !in env
    modifies w
    ensures Agrees(w, e, c) && c.ref == Step(b.ref, Null(h)) && b.made == c.made
    ensures Renamed(env, e, Null(h))
    ensures Extended(w)
  {
    HandlesAre(w, env, b);
    assert PointsTo(null, None, b.made);
    hide World.Valid, Numbered, Renamed, Named, Agrees, PointsTo;
    var x := new Handle.Null(w);
    OneNameMore(env, h, x, Null(h));
    OneMoreAgrees(w, env, h, x, None, b, old(w.handles));
    e := env[h := x];
    c := Book(Step(b.ref, Null(h)), b.name[x := h], b.made);
  }

  method MakeCopy(w: World, r: Handle) returns (x: Handle)
    requires w.Valid() && r in w.handles
    modifies w`handles, w.counters`count
    ensures w.Valid() && fresh(x) && x.itsCounter == r.itsCounter && Extended(w)
    ensures w.handles == old(w.handles) + {x} && w.counters == old(w.counters)
  {
    x := new Handle.Copy(w, r);
  }

  method DoCopy(w: World, env: map<nat, Handle>, h: nat, r: nat, ghost b: Book)
    returns (e: map<nat, Handle>, ghost c: Book)
    requires Agrees(w, env, b) && h !in env && r in env
    modifies w, w.counters
    ensures Agrees(w, e, c) && c.ref == Step(b.ref, Op.Copy(h, r)) && b.made == c.made
    ensures Renamed(env, e, Op.Copy(h, r))
    ensures Extended(w)
  {
    hide World.Valid, Numbered, Renamed, Extended, Named, Agrees, PointsTo, Step;
    HandlesAre(w, env, b);
    ghost var o := b.ref.points[r];
    CopyStep(b.ref, h, r);
    assert PointsTo(env[r].itsCounter, o, b.made);
    var x := MakeCopy(w, env[r]);
    OneNameMore(env, h, x, Op.Copy(h, r));
    OneMoreAgrees(w, env, h, x, o, b, old(w.handles));
    e := env[h := x];
    c := Book(Step(b.ref, Op.Copy(h, r)), b.name[x := h], b.made);
  }

  lemma CopyStep(s: Ref, h: nat, r: nat)
    requires h !in s.points && r in s.points
    ensures Step(s, Op.Copy(h, r)) == Ref(s.points[h := s.points[r]], s.made)
  {
  }

  lemma HandlesAre(w: World, env: map<nat, Handle>, b: Book)
    requires Agrees(w, env, b)
    ensures w.Valid() && Named(env, b.name, w.handles, b.ref.points.Keys) && Numbered(b.made, w.counters, b.ref.made)
    ensures env.Keys == b.ref.points.Keys
    ensures forall g | g in env :: env[g] in w.handles && PointsTo(env[g].itsCounter, b.ref.points[g], b.made)
  {
  }

  /** The accounts with one handle more. */
  lemma OneMoreAgrees(
      w: World, env: map<nat, Handle>, h: nat, x: Handle, o: Option<nat>, b: Book, handles: set<Handle>)
    requires w.Valid() && Named(env, b.name, handles, b.ref.points.Keys) && Numbered(b.made, w.counters, b.ref.made)
    requires h !in env && x !in handles && w.handles == handles + {x} && env.Keys == b.ref.points.Keys
    requires forall g | g in env :: PointsTo(env[g].itsCounter, b.ref.points[g], b.made)
    requires PointsTo(x.itsCounter, o, b.made)
    ensures Agrees(w, env[h := x], Book(Ref(b.ref.points[h := o], b.ref.made), b.name[x := h], b.made))
  {
    NameOneMore(env, b.name, handles, b.ref.points.Keys, h, x);
    hide World.Valid, Numbered, Named, PointsTo;
    assert (b.ref.points[h := o]).Keys == b.ref.points.Keys + {h};
  }

  method DoAssign(w: World, env: map<nat, Handle>, h: nat, r: nat, ghost b: Book) returns (ghost c: Book)
    requires Agrees(w, env, b) && h in env && r in env
    modifies w.handles, w.counters, w.Objects()
    ensures Agrees(w, env, c) && c.ref == Step(b.ref, Op.Assign(h, r)) && b.made == c.made && Extended(w)
  {
    hide World.Valid, World.FreesExactly;
    env[h].Assign(w, env[r]);
    c := Book(Step(b.ref, Op.Assign(h, r)), b.name, b.made);
  }

  method DoSetNull(w: World, env: map<nat, Handle>, h: nat, ghost b: Book) returns (ghost c: Book)
    requires Agrees(w, env, b) && h in env
    modifies w.handles, w.counters, w.Objects()
    ensures Agrees(w, env, c) && c.ref == Step(b.ref, Op.SetNull(h)) && b.made == c.made && Extended(w)
  {
    hide World.Valid, World.FreesExactly;
    env[h].SetNull(w);
    c := Book(Step(b.ref, Op.SetNull(h)), b.name, b.made);
  }

  method DoDestroy(w: World, env: map<nat, Handle>, h: nat, ghost b: Book) returns (e: map<nat, Handle>, ghost c: Book)
    requires Agrees(w, env, b) && h in env
    modifies w, w.handles, w.counters, w.Objects()
    ensures Agrees(w, e, c) && c.ref == Step(b.ref, Op.Destroy(h)) && b.made == c.made
    ensures Renamed(env, e, Op.Destroy(h))
    ensures Extended(w)
  {
    NameOneLess(env, b.name, w.handles, b.ref.points.Keys, h);
    ghost var rest := w.handles - {env[h]};
    hide World.Valid, World.FreesExactly, Named, Numbered;
    env[h].Destroy(w);
    e := env - {h};
    assert w.handles == rest && (b.ref.points - {h}).Keys == b.ref.points.Keys - {h};
    c := Book(Step(b.ref, Op.Destroy(h)), b.name - {env[h]}, b.made);
  }

  /** Counts and frees are those of the reference: every object has as many owners as names, and was
      freed once if it has none, else never. */
  ghost predicate Exact(b: Book)
    reads b.made, set c | c in b.made :: c.ptr
  {
    forall o | 0 <= o < |b.made| ::
      && b.made[o].count == |Names(b.ref, o)|
      && b.made[o].ptr.deleted == if Names(b.ref, o) == {} then 1 else 0
  }

  lemma AgreesIsExact(w: World, env: map<nat, Handle>, b: Book)
    requires Agrees(w, env, b)
    ensures Exact(b) && forall c | c in b.made :: c in w.counters
  {
    forall o | 0 <= o < |b.made|
      ensures b.made[o].count == |Names(b.ref, o)|
    {
      assert b.made[o] in w.counters;
      ImageSize(Names(b.ref, o), env, w.Owners(b.made[o]));
    }
  }

  /** What the operation makes of the handle that it names first; `made` are the objects there were before. */
  predicate FirstMoved(e: map<nat, Handle>, op: Op, made: seq<Counter>)
    reads e.Values
  {
    match op
    case New(h) => h in e && e[h].itsCounter != null && e[h].itsCounter !in made
    case Null(h) => h in e && e[h].itsCounter == null
    case Copy(h, r) => h in e && r in e && e[h].itsCounter == e[r].itsCounter
    case Assign(h, r) => h in e && r in e && e[h].itsCounter == e[r].itsCounter
    case SetNull(h) => h in e && e[h].itsCounter == null
    case Destroy(h) => h !in e
  }

  /** What a name points to by the book. */
  function At(b: Book, g: nat): Counter?
    requires g in b.ref.points
  {
    match b.ref.points[g]
    case None => null
    case Some(o) => if o < |b.made| then b.made[o] else null
  }

  lemma PointersAre(w: World, env: map<nat, Handle>, b: Book)
    requires Agrees(w, env, b)
    ensures env.Keys == b.ref.points.Keys
    ensures forall g | g in env :: env[g].itsCounter == At(b, g)
  {
  }

  /** Every number that a name points to is that of an object. */
  predicate Filled(b: Book) {
    |b.made| == b.ref.made && forall g | g in b.ref.points && b.ref.points[g].Some? :: b.ref.points[g].value < |b.made|
  }

  /** What a step does to the objects that the names point to. */
  lemma BookMoved(b: Book, c: Book, op: Op)
    requires Enabled(b.ref, op) && c.ref == Step(b.ref, op) && b.made <= c.made && Filled(b) && Filled(c)
    requires forall i, j | 0 <= i < j < |c.made| :: c.made[i] != c.made[j]
    ensures forall g | g in c.ref.points && g != op.h :: g in b.ref.points && At(c, g) == At(b, g)
    ensures op.New? ==> op.h in c.ref.points && At(c, op.h) != null && At(c, op.h) !in b.made
    ensures op.Null? || op.SetNull? ==> op.h in c.ref.points && At(c, op.h) == null
    ensures op.Copy? || op.Assign? ==>
              op.h in c.ref.points && op.r in c.ref.points && At(c, op.h) == At(c, op.r)
    ensures op.Destroy? ==> op.h !in c.ref.points
  {
  }

  lemma BookIsFilled(w: World, env: map<nat, Handle>, b: Book)
    requires Agrees(w, env, b)
    ensures Filled(b) && forall i, j | 0 <= i < j < |b.made| :: b.made[i] != b.made[j]
  {
  }

  lemma Moved(w: World, e: map<nat, Handle>, op: Op, b: Book, c: Book)
    requires Agrees(w, e, c) && Enabled(b.ref, op) && c.ref == Step(b.ref, op) && b.made <= c.made && Filled(b)
    ensures FirstMoved(e, op, b.made)
    ensures forall g | g in e && g != op.h :: g in b.ref.points && e[g].itsCounter == At(b, g)
  {
    hide Agrees, At, Filled, Step;
    BookIsFilled(w, e, c);
    BookMoved(b, c, op);
    PointersAre(w, e, c);
  }

  lemma OneNameMore(env: map<nat, Handle>, h: nat, x: Handle, op: Op)
    requires h !in env && op.h == h && (op.New? || op.Null? || op.Copy?)
    ensures Renamed(env, env[h := x], op)
  {
  }

  lemma NotRenamed(env: map<nat, Handle>, op: Op)
    requires op.Assign? || op.SetNull? ==> op.h in env
    ensures op.Assign? || op.SetNull? ==> Renamed(env, env, op)
  {
  }

  method Dispatch(w: World, env: map<nat, Handle>, op: Op, ghost b: Book)
    returns (e: map<nat, Handle>, ghost c: Book)
    requires Agrees(w, env, b) && Enabled(b.ref, op)
    modifies w, w.handles, w.counters, w.Objects()
    ensures Agrees(w, e, c) && c.ref == Step(b.ref, op) && b.made <= c.made && Extended(w)
    ensures Renamed(env, e, op)
  {
    assert env.Keys == b.ref.points.Keys;
    hide Agrees, Step, Extended, Renamed;
    NotRenamed(env, op);
    e := env;
    if op.New? {
      e, c := DoNew(w, env, op.h, b);
    } else if op.Null? {
      e, c := DoNull(w, env, op.h, b);
    } else if op.Copy? {
      e, c := DoCopy(w, env, op.h, op.r, b);
    } else if op.Assign? {
      c := DoAssign(w, env, op.h, op.r, b);
    } else if op.SetNull? {
      c := DoSetNull(w, env, op.h, b);
    } else {
      e, c := DoDestroy(w, env, op.h, b);
    }
  }

  /** Freed, once more than before, is exactly what had a name and has none. */
  twostate predicate FreesLast(b: Book, after: Ref)
    reads set c | c in b.made :: c.ptr
  {
    forall o | 0 <= o < |b.made| ::
      b.made[o].ptr.deleted == old(b.made[o].ptr.deleted)
                               + if Names(b.ref, o) != {} && Names(after, o) == {} then 1 else 0
  }

  method DoFreeing(w: World, env: map<nat, Handle>, op: Op, ghost b: Book)
    returns (e: map<nat, Handle>, ghost c: Book)
    requires Agrees(w, env, b) && Enabled(b.ref, op)
    modifies w, w.handles, w.counters, w.Objects()
    ensures Agrees(w, e, c) && c.ref == Step(b.ref, op) && b.made <= c.made && Extended(w)
    ensures FreesLast(b, c.ref) && Renamed(env, e, op)
  {
    AgreesIsExact(w, env, b);
    assert |b.made| == b.ref.made;
    LastNames(b.ref, op);
    hide Agrees, Names, Step, Extended, Renamed, Exact, FreesLast;
    e, c := Dispatch(w, env, op, b);
    AgreesIsExact(w, e, c);
    ExactFrees(b, c);
  }

  twostate lemma ExactFrees(b: Book, new c: Book)
    requires old(Exact(b)) && Exact(c) && b.made <= c.made
    requires forall o | 0 <= o < |b.made| && Names(b.ref, o) == {} :: Names(c.ref, o) == {}
    ensures FreesLast(b, c.ref)
  {
    hide Names;
    assert forall o | 0 <= o < |b.made| :: b.made[o] == c.made[o];
  }

  /** One operation follows the reference, and frees an object exactly when it takes its last name. All other
      handles stay on their objects; the one that it names first comes to where it should be. */
  method Do(w: World, env: map<nat, Handle>, op: Op, ghost b: Book) returns (e: map<nat, Handle>, ghost c: Book)
    requires Agrees(w, env, b) && Enabled(b.ref, op)
    modifies w, w.handles, w.counters, w.Objects()
    ensures Agrees(w, e, c) && c.ref == Step(b.ref, op) && b.made <= c.made && Extended(w)
    ensures FreesLast(b, c.ref)
    ensures Renamed(env, e, op) && FirstMoved(e, op, b.made)
    ensures forall g | g in e && g != op.h :: g in env && e[g].itsCounter == old(env[g].itsCounter)
  {
    hide Agrees, Step, Extended, Renamed, FirstMoved, FreesLast, At, Filled;
    PointersAre(w, env, b);
    BookIsFilled(w, env, b);
    e, c := DoFreeing(w, env, op, b);
    Moved(w, e, op, b, c);
  }

  /** A name that is lost is not found again in one step. */
  lemma LastNames(s: Ref, op: Op)
    requires Enabled(s, op)
    ensures forall o | 0 <= o < s.made && Names(s, o) == {} :: Names(Step(s, op), o) == {}
  {
    forall o | 0 <= o < s.made && Names(s, o) == {}
      ensures Names(Step(s, op), o) == {}
    {
      assert IsProgram(Step(s, op), []) && After(s, [op]) == After(Step(s, op), []);
      LostStaysLost(s, [op], o);
    }
  }

  /** As many objects as numbers. */
  lemma {:induction false} ObjectsOf(made: seq<Counter>, objects: set<Target>)
    requires forall i, j | 0 <= i < j < |made| :: made[i].ptr != made[j].ptr
    requires forall t :: t in objects <==> exists i :: 0 <= i < |made| && made[i].ptr == t
    ensures |objects| == |made|
  {
    if made == [] {
      assert (forall t :: t !in objects) ==> objects == {};
    } else {
      var n := |made| - 1;
      ObjectsOf(made[..n], objects - {made[n].ptr});
      RemoveOne(objects, made[n].ptr);
    }
  }

  /** Every program from nothing on. Since every beginning of a program is a program, this speaks of
      every moment of one: each object is owned by as many handles as the reference has names for it, and
      was freed exactly once if that is none, else never. */
  method Execute(program: seq<Op>) returns (w: World, env: map<nat, Handle>, ghost b: Book)
    requires IsProgram(START, program)
    ensures Agrees(w, env, b) && b.ref == After(START, program) && Exact(b)
    ensures |w.Objects()| == |b.made| == Made(program)
  {
    hide Agrees, Exact, Names, FirstMoved, Renamed, FreesLast, World.Valid;
    w := new World();
    env := map[];
    b := Book(START, map[], []);
    NothingAgrees(w);
    var more := program;
    while more != []
      invariant fresh(w) && fresh(w.handles) && fresh(w.counters) && fresh(w.Objects())
      invariant Agrees(w, env, b)
      invariant IsProgram(b.ref, more) && After(b.ref, more) == After(START, program)
      decreases |more|
    {
      env, b := Do(w, env, more[0], b);
      more := more[1..];
    }
    AgreesIsExact(w, env, b);
    MadeByNew(START, program);
    AreObjects(w, env, b);
  }

  lemma NothingAgrees(w: World)
    requires w.Valid() && w.handles == {} && w.counters == {}
    ensures Agrees(w, map[], Book(START, map[], []))
  {
  }

  lemma AreObjects(w: World, env: map<nat, Handle>, b: Book)
    requires Agrees(w, env, b)
    ensures |w.Objects()| == |b.made| == b.ref.made
  {
    ObjectsOf(b.made, w.Objects());
  }
}
