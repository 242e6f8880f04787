/** `Parameter` and `Component` of hyperspy/component.py.

    The source keeps two lists at class level, shared by every `Parameter`: `_twins` (the
    parameters that were ever twinned and not detached) and `connected_functions` (the
    observers called when a stored value changes). Every `Parameter` of the model points to one
    shared `Registry` that owns those two lists. The registry also keeps, as ghost state, every
    parameter it serves and a rank per parameter that decreases along `twin` links: the source
    reads a value by following the twin chain and has no cycle check, so the model demands that
    the chain ends. */
module Components {
  import opened Wrappers
  import opened Lists
  import opened Observers
  import opened Policy
  import opened PixelMaps
  import opened Packing

  /** A twin function or inverse twin function. The class attributes `twin_function` and
      `twin_inverse_function` are one-argument lambdas; read through an instance, Python binds
      them as methods, so calling one passes the parameter as an extra argument and raises
      `TypeError`. Only a function assigned to the instance is called as written. */
  datatype TwinFn = ClassDefault | Custom(f: seq<real> -> seq<real>)

  /** Where a write through the `value` setter lands: it raises `error` (a length mismatch,
      or the call of a class-default inverse), does nothing at a twin without an inverse
      function, or stores `value` in `target`. */
  datatype Write = Rejected(error: Error) | Ignored | Store(target: Parameter, value: seq<real>)

  /** What the setter returns for a write. */
  function OutcomeOf(w: Write): (r: Outcome)
    ensures r.Fail? <==> w.Rejected?
    ensures w.Rejected? ==> r.error == w.error
  {
    if w.Rejected? then Fail(w.error) else Pass
  }

  /** The stored values after a write. */
  function Apply(s: map<Parameter, seq<real>>, w: Write): (r: map<Parameter, seq<real>>)
    ensures r.Keys == s.Keys
  {
    if w.Store? && w.target in s then s[w.target := w.value] else s
  }

  /** The stored values after several writes, in order. */
  function Replay(s: map<Parameter, seq<real>>, ws: seq<Write>): (r: map<Parameter, seq<real>>)
    ensures r.Keys == s.Keys
  {
    if ws == [] then s else Apply(Replay(s, ws[..|ws| - 1]), ws[|ws| - 1])
  }

  lemma ReplayAppend(s: map<Parameter, seq<real>>, ws: seq<Write>, w: Write)
    ensures Replay(s, ws + [w]) == Apply(Replay(s, ws), w)
  {
    assert (ws + [w])[..|ws|] == ws;
  }

  lemma {:induction false} ReplayConcat(s: map<Parameter, seq<real>>, a: seq<Write>, b: seq<Write>)
    ensures Replay(s, a + b) == Replay(Replay(s, a), b)
  {
    if b == [] {
      assert a + b == a;
    } else {
      var c := b[..|b| - 1];
      ReplayConcat(s, a, c);
      assert (a + b)[..|a + b| - 1] == a + c;
    }
  }

  /** Whether a write changes a stored value (the source notifies only then). */
  predicate Changes(s: map<Parameter, seq<real>>, w: Write)
  {
    w.Store? && w.target in s && s[w.target] != w.value
  }

  /** Writes that change nothing leave the stored values as they were, however many. */
  lemma {:induction false} ReplayQuiet(s: map<Parameter, seq<real>>, ws: seq<Write>)
    requires forall k | 0 <= k < |ws| :: !Changes(s, ws[k])
    ensures Replay(s, ws) == s
  {
    if ws != [] {
      ReplayQuiet(s, ws[..|ws| - 1]);
    }
  }

  /** Stores into distinct parameters each leave their value, and nothing else moves. */
  lemma {:induction false} ReplayDistinct(s: map<Parameter, seq<real>>, ws: seq<Write>)
    requires forall k | 0 <= k < |ws| :: ws[k].Store? && ws[k].target in s
    requires forall j, k | 0 <= j < k < |ws| :: ws[j].target != ws[k].target
    ensures forall k | 0 <= k < |ws| :: Replay(s, ws)[ws[k].target] == ws[k].value
    ensures forall q | q in s && forall k | 0 <= k < |ws| :: ws[k].target != q :: Replay(s, ws)[q] == s[q]
  {
    if ws != [] {
      ReplayDistinct(s, ws[..|ws| - 1]);
    }
  }

  /** The observers that the writes `ws` call, in order, from the stored values `s` and the
      connected list `lst` on, and the list they leave: each write that changes a stored value
      walks the list once, as the `value` setter does. */
  function Notify(s: map<Parameter, seq<real>>, ws: seq<Write>, lst: seq<Observer>, failing: set<Observer>)
    : (seq<Observer>, seq<Observer>)
    decreases |ws|, 1
  {
    if ws == [] then ([], lst) else NotifyFirst(s, ws, lst, failing)
  }

  /** `Notify` from the first write of `ws` on. */
  function NotifyFirst(s: map<Parameter, seq<real>>, ws: seq<Write>, lst: seq<Observer>, failing: set<Observer>)
    : (seq<Observer>, seq<Observer>)
    requires ws != []
    decreases |ws|, 0
  {
    var sweep := if Changes(s, ws[0]) then LiveSweep(lst, failing) else ([], lst);
    var rest := Notify(Apply(s, ws[0]), ws[1..], sweep.1, failing);
    (sweep.0 + rest.0, rest.1)
  }

  /** The observers a step of `charge` calls and the list it leaves: a step makes at most one
      write, and the setter walks the list once when that write changes a stored value. */
  function HeadCalls(s: map<Parameter, seq<real>>, ws: seq<Write>, lst: seq<Observer>, failing: set<Observer>)
    : (seq<Observer>, seq<Observer>)
  {
    if ws != [] && Changes(s, ws[0]) then LiveSweep(lst, failing) else ([], lst)
  }

  /** Notifying for `a + b` is notifying for `a`, then for `b` from where `a` left the stored
      values and the list. */
  lemma {:induction false} NotifyConcat(s: map<Parameter, seq<real>>, a: seq<Write>, b: seq<Write>,
                                       lst: seq<Observer>, failing: set<Observer>)
    ensures var x := Notify(s, a, lst, failing);
      var y := Notify(Replay(s, a), b, x.1, failing);
      Notify(s, a + b, lst, failing) == (x.0 + y.0, y.1)
  {
    if a == [] {
      assert a + b == b && Replay(s, a) == s;
      var y := Notify(s, b, lst, failing);
      assert [] + y.0 == y.0;
    } else {
      var s1 := Apply(s, a[0]);
      var sweep := if Changes(s, a[0]) then LiveSweep(lst, failing) else ([], lst);
      assert (a + b)[0] == a[0] && (a + b)[1..] == a[1..] + b;
      NotifyConcat(s1, a[1..], b, sweep.1, failing);
      ReplayConcat(s, [a[0]], a[1..]);
      ReplayAppend(s, [], a[0]);
      assert [] + [a[0]] == [a[0]] && [a[0]] + a[1..] == a;
      assert Replay(s, a) == Replay(s1, a[1..]);
      var x := Notify(s1, a[1..], sweep.1, failing);
      var y := Notify(Replay(s1, a[1..]), b, x.1, failing);
      assert Notify(s, a, lst, failing) == (sweep.0 + x.0, x.1);
      assert Notify(s, a + b, lst, failing) == (sweep.0 + (x.0 + y.0), y.1);
      assert sweep.0 + (x.0 + y.0) == (sweep.0 + x.0) + y.0;
    }
  }

  /** After a step `a` of at most one write, which called `called`, left the list at `mid` and
      the stored values at `s1`, the notifications of `a + b` are those of the step followed by
      those of `b`. */
  lemma NotifySplit(s: map<Parameter, seq<real>>, a: seq<Write>, b: seq<Write>, lst: seq<Observer>,
                    failing: set<Observer>, called: seq<Observer>, mid: seq<Observer>,
                    s1: map<Parameter, seq<real>>, restOf: (seq<Observer>, seq<Observer>))
    requires |a| <= 1 && (called, mid) == HeadCalls(s, a, lst, failing) && s1 == Replay(s, a)
    requires restOf == Notify(s1, b, mid, failing)
    ensures Notify(s, a, lst, failing) == (called, mid)
    ensures Notify(s, a + b, lst, failing) == (called + restOf.0, restOf.1)
  {
    if a != [] {
      assert a == [a[0]] && a[1..] == [];
      assert called + [] == called;
      assert Notify(Apply(s, a[0]), [], mid, failing) == ([], mid);
    }
    NotifyConcat(s, a, b, lst, failing);
  }

  /** The state shared by every parameter. */
  class Registry {
    /** `Parameter._twins` */
    var twins: seq<Parameter>
    /** `Parameter.connected_functions` */
    var connected: seq<Observer>
    /** Every parameter that uses this registry. */
    ghost var all: set<Parameter>
    /** Decreases along every `twin` link: the twin graph has no cycle. */
    ghost var rank: map<Parameter, nat>

    constructor ()
      ensures twins == [] && connected == [] && all == {} && Valid()
    {
      twins := [];
      connected := [];
      all := {};
      rank := map[];
    }

    /** Every parameter belongs here, and following `twin` links always ends. */
    ghost predicate ValidGraph()
      reads this`all, this`rank, all`twin
    {
      (forall p | p in all :: p.registry == this && p in rank) &&
      (forall p | p in all && p.twin != null :: p.twin in all) &&
      (forall p {:trigger p.twin} | p in all && p.twin != null :: p.twin in rank && rank[p.twin] < rank[p])
    }

    /** The shared lists never hold an element twice: both are only appended to after a
        membership test. */
    ghost predicate Valid()
      reads this, all`twin
    {
      ValidGraph() && NoDup(twins) && NoDup(connected)
    }

    /** The stored value of every parameter. */
    ghost function Stored(): map<Parameter, seq<real>>
      reads this`all, all`stored
    {
      map p | p in all :: p.stored
    }

    /** What each parameter is set to, apart from its value and its deviation. */
    ghost function Settings(): map<Parameter, Setting>
      reads this`all, all`twin, all`twinInverse, all`numberOfElements, all`extBounded,
            all`extForcePositive, all`bmin, all`bmax
    {
      map p | p in all :: Setting(p.twin, p.twinInverse, p.numberOfElements, p.extBounded,
                                  p.extForcePositive, p.bmin, p.bmax)
    }
  }

  /** The fields of a parameter that `charge` reads but never writes. */
  datatype Setting = Setting(twin: Parameter?, twinInverse: Option<TwinFn>,
                             numberOfElements: nat, extBounded: bool, extForcePositive: bool,
                             bmin: Option<real>, bmax: Option<real>)

  class Parameter {
    const registry: Registry
    var name: string
    /** `__value`: a scalar is a one-element sequence. */
    var stored: seq<real>
    /** `__number_of_elements` */
    var numberOfElements: nat
    /** `_bounds`, one pair replicated over the elements in the source. */
    var bmin: Option<real>
    var bmax: Option<real>
    var twin: Parameter?
    var twinFunction: TwinFn
    /** `None` when the twin cannot be written through this parameter. */
    var twinInverse: Option<TwinFn>
    var extBounded: bool
    var extForcePositive: bool
    /** `__free` */
    var freeFlag: bool
    /** Outer `None` is Python's `None`; an inner `None` is a NaN entry. */
    var std: Option<seq<Option<real>>>
    /** `map`, laid out flat in row-major order, `null` before `create_array`. */
    var pixelMap: array?<Cell>
    var mapShape: seq<nat>
    /** The number of values per record of `pixelMap`. */
    var mapWidth: nat
    var component: Component?

    /** `Parameter()`: the class defaults, then `value = 0`, `std = None`, `free = True`. The
        value write stores 0 over the default 0, so no observer is called. Both twin functions
        are the class defaults, which raise when called. */
    constructor (registry: Registry)
      requires registry.Valid()
      modifies registry`all, registry`rank
      ensures registry.Valid() && registry.all == old(registry.all) + {this}
      ensures registry.twins == old(registry.twins) && registry.connected == old(registry.connected)
      ensures this.registry == registry && name == ""
      ensures stored == [0.0] && numberOfElements == 1 && bmin.None? && bmax.None?
      ensures twin == null && !extBounded && !extForcePositive
      ensures freeFlag && std.None? && pixelMap == null && component == null
      ensures twinFunction == ClassDefault && twinInverse == Some(ClassDefault)
      ensures Pristine()
    {
      this.registry := registry;
      name := "";
      stored := [0.0];
      numberOfElements := 1;
      bmin := None;
      bmax := None;
      twin := null;
      twinFunction := ClassDefault;
      twinInverse := Some(ClassDefault);
      extBounded := false;
      extForcePositive := false;
      freeFlag := true;
      std := None;
      pixelMap := null;
      mapShape := [];
      mapWidth := 0;
      component := null;
      new;
      registry.all := registry.all + {this};
      registry.rank := registry.rank[this := 0];
    }

    /** The state right after construction. */
    ghost predicate Pristine()
      reads this`stored, this`numberOfElements, this`twin, this`freeFlag, this`pixelMap
    {
      stored == [0.0] && numberOfElements == 1 && twin == null && freeFlag && pixelMap == null
    }

    /** The `value` getter: the stored value, or the twin function of the twin's value;
        `None` where it raises, because a twin function on the chain is the class default. */
    function Value(): (v: Option<seq<real>>)
      requires registry.ValidGraph() && this in registry.all
      reads registry`all, registry`rank, registry.all`twin, registry.all`stored, registry.all`twinFunction
      decreases registry.rank[this]
      ensures twin == null ==> v == Some(stored)
      ensures twin != null && twinFunction.ClassDefault? ==> v.None?
      ensures twin != null && twin.Value().None? ==> v.None?
    {
      if twin == null then Some(stored)
      else
        var t := twin.Value();
        if twinFunction.ClassDefault? || t.None? then None else Some(twinFunction.f(t.value))
    }

    /** What the setter stores in an untwinned parameter for an argument of the right length. */
    function Constrained(v: seq<real>): (r: seq<real>)
      reads this`extBounded, this`extForcePositive, this`bmin, this`bmax
      ensures |r| == |v|
    {
      Constrain(v, extBounded, extForcePositive, bmin, bmax)
    }

    /** Where writing `arg` through the `value` setter lands: after a length check at every
        parameter of the twin chain, in the first untwinned parameter, passed through each
        inverse twin function on the way, unless some parameter on the way has none (nothing
        happens) or has the class default (the call raises). */
    ghost function WriteTarget(arg: seq<real>): (w: Write)
      requires registry.ValidGraph() && this in registry.all
      reads registry`all, registry`rank, registry.all`twin, registry.all`twinInverse,
            registry.all`numberOfElements, registry.all`extBounded, registry.all`extForcePositive,
            registry.all`bmin, registry.all`bmax
      decreases registry.rank[this]
      ensures w.Store? ==> w.target in registry.all && w.target.twin == null
      ensures w.Store? ==> |w.value| == w.target.numberOfElements
      ensures w.Rejected? ==> w.error == LengthMismatch || w.error == TypeError
      ensures |arg| != numberOfElements ==> w == Rejected(LengthMismatch)
      ensures twin == null && |arg| == numberOfElements ==> w == Store(this, Constrained(arg))
      ensures twin != null && |arg| == numberOfElements && twinInverse == Some(ClassDefault) ==>
        w == Rejected(TypeError)
    {
      if |arg| != numberOfElements then Rejected(LengthMismatch)
      else if twin == null then Store(this, Constrained(arg))
      else if twinInverse.None? then Ignored
      else if twinInverse.value.ClassDefault? then Rejected(TypeError)
      else twin.WriteTarget(twinInverse.value.f(arg))
    }

    /** One iteration of `charge` at this parameter, which the running offset `i` has
        reached: a one-element parameter past the end of `p` (or of `pStd`) raises an index
        error; otherwise the setter receives the piece of `p`, and when it accepts, `std`
        receives the piece of `pStd`. */
    ghost function ChargeHead(p: seq<real>, pStd: Option<seq<real>>, i: nat): (r: Plan)
      requires registry.ValidGraph() && this in registry.all
      reads registry`all, registry`rank, registry.all`twin, registry.all`twinInverse,
            registry.all`numberOfElements, registry.all`extBounded, registry.all`extForcePositive,
            registry.all`bmin, registry.all`bmax
      ensures |r.stds| <= |r.writes| <= 1
      ensures r.outcome == Pass ==> |r.writes| == 1 && (pStd.Some? ==> |r.stds| == 1)
      ensures pStd.None? || r.outcome != Pass ==> r.stds == []
      ensures r.outcome == Pass || r.outcome == Fail(BadIndex) || r.outcome == Fail(LengthMismatch)
              || r.outcome == Fail(TypeError)
      ensures twin == null && r.outcome == Pass && i <= |p| ==> i + numberOfElements <= |p|
      ensures twin == null && pStd.None? && i + numberOfElements <= |p| ==>
        r == Plan([Store(this, Constrained(p[i..i + numberOfElements]))], [], Pass)
    {
      var n := numberOfElements;
      if n == 1 && i >= |p| then Plan([], [], Fail(BadIndex))
      else
        var w := WriteTarget(Piece(p, i, n));
        if w.Rejected? then Plan([w], [], Fail(w.error))
        else if pStd.Some? && n == 1 && i >= |pStd.value| then Plan([w], [], Fail(BadIndex))
        else Plan([w], if pStd.Some? then [Piece(pStd.value, i, n)] else [], Pass)
    }

    /** The loop body of `charge` at this parameter; `called` lists the observers the setter
        called. */
    method ChargeAt(p: seq<real>, pStd: Option<seq<real>>, i: nat, failing: set<Observer>, ghost head: Plan)
      returns (r: Outcome, called: seq<Observer>)
      requires registry.Valid() && this in registry.all
      requires head == ChargeHead(p, pStd, i)
      modifies registry`connected, registry.all`stored, this`std
      ensures registry.Valid()
      ensures r == head.outcome
        && registry.Stored() == Replay(old(registry.Stored()), head.writes)
        && std == if |head.stds| == 1 then Some(Known(head.stds[0])) else old(std)
      ensures (called, registry.connected) == HeadCalls(old(registry.Stored()), head.writes, old(registry.connected), failing)
    {
      var n := numberOfElements;
      if n == 1 && i >= |p| {
        r, called := Fail(BadIndex), [];
      } else {
        var v := Piece(p, i, n);
        ghost var w := WriteTarget(v);
        r, called := SetValue(v, failing);
        ReplayAppend(old(registry.Stored()), [], w);
        assert [] + [w] == [w];
        if r.Pass? && pStd.Some? {
          if n == 1 && i >= |pStd.value| {
            r := Fail(BadIndex);
          } else {
            std := Some(Known(Piece(pStd.value, i, n)));
          }
        }
      }
    }

    /** `connect`: appends `f` to the shared list unless it is there already; the call the
        source then makes on the twin finds `f` present and does nothing. */
    method Connect(f: Observer)
      requires registry.Valid() && this in registry.all
      modifies registry`connected
      decreases registry.rank[this]
      ensures registry.Valid()
      ensures registry.connected == if f in old(registry.connected) then old(registry.connected)
                                    else old(registry.connected) + [f]
    {
      if f !in registry.connected {
        NoDupSnoc(registry.connected, f);
        registry.connected := registry.connected + [f];
        if twin != null {
          twin.Connect(f);
        }
      }
    }

    /** `disconnect`: removes `f` from the shared list if it is there; the call the source then
        makes on the twin finds `f` gone and does nothing. */
    method Disconnect(f: Observer)
      requires registry.Valid() && this in registry.all
      modifies registry`connected
      decreases registry.rank[this]
      ensures registry.Valid()
      ensures registry.connected == RemoveFirst(old(registry.connected), f)
      ensures f !in registry.connected
    {
      if f in registry.connected {
        registry.connected := RemoveFirst(registry.connected, f);
        if twin != null {
          twin.Disconnect(f);
        }
      }
    }

    /** The notification loop of the setter: calls every observer of the shared list, walking
        the list while it shrinks, and disconnects each observer in `failing` (those whose call
        raises). */
    method NotifyConnected(failing: set<Observer>) returns (called: seq<Observer>)
      requires registry.Valid() && this in registry.all
      modifies registry`connected
      ensures registry.Valid()
      ensures (called, registry.connected) == LiveSweep(old(registry.connected), failing)
    {
      called := [];
      var i := 0;
      assert called + LiveFrom(registry.connected, i, failing).0 == LiveFrom(registry.connected, i, failing).0;
      while i < |registry.connected|
        invariant registry.Valid()
        invariant (called + LiveFrom(registry.connected, i, failing).0, LiveFrom(registry.connected, i, failing).1)
               == LiveSweep(old(registry.connected), failing)
        decreases |registry.connected| - i
      {
        var f := registry.connected[i];
        ghost var step := LiveFrom(registry.connected, i, failing);
        ghost var rest := LiveFrom(if f in failing then RemoveFirst(registry.connected, f) else registry.connected, i + 1, failing);
        assert step == ([f] + rest.0, rest.1);
        assert called + step.0 == (called + [f]) + rest.0;
        called := called + [f];
        if f in failing {
          Disconnect(f);
        }
        i := i + 1;
      }
      assert called + LiveFrom(registry.connected, i, failing).0 == called;
    }

    /** The `value` setter. A length mismatch raises and changes nothing. A twinned parameter
        writes through its twin (or does nothing without an inverse function) and never touches
        its own stored value. An untwinned one stores its constrained argument and, only if that
        differs from what it held, calls the observers. */
    method SetValue(arg: seq<real>, failing: set<Observer>) returns (r: Outcome, notified: seq<Observer>)
      requires registry.Valid() && this in registry.all
      modifies registry`connected, registry.all`stored
      decreases registry.rank[this]
      ensures registry.Valid()
      ensures WriteTarget(arg) == old(WriteTarget(arg))
      ensures r == OutcomeOf(old(WriteTarget(arg)))
      ensures registry.Stored() == Apply(old(registry.Stored()), old(WriteTarget(arg)))
      ensures if Changes(old(registry.Stored()), old(WriteTarget(arg)))
              then (notified, registry.connected) == LiveSweep(old(registry.connected), failing)
              else notified == [] && registry.connected == old(registry.connected)
    {
      if |arg| != numberOfElements {
        return Fail(LengthMismatch), [];
      }
      if twin != null {
        if twinInverse.None? {
          r, notified := Pass, [];
        } else if twinInverse.value.ClassDefault? {
          r, notified := Fail(TypeError), [];
        } else {
          r, notified := twin.SetValue(twinInverse.value.f(arg), failing);
        }
        return;
      }
      var previous := stored;
      stored := Constrained(arg);
      assert registry.Stored() == old(registry.Stored())[this := stored];
      notified := [];
      if previous != stored {
        notified := NotifyConnected(failing);
      }
      r := Pass;
    }
  
    /** The `free` getter: a twinned parameter is never free. */
    function Free(): (r: bool)
      reads this`twin, this`freeFlag
      ensures twin != null ==> !r
      ensures twin == null ==> r == freeFlag
    {
      if twin == null then freeFlag else false
    }

    /** The `free` setter: stores the flag and has the owning component recompute its free
        set. */
    method SetFree(arg: bool)
      requires component != null ==> component.Valid()
      modifies this`freeFlag, (if component == null then {} else {component})`freeParameters,
               (if component == null then {} else {component})`nFreeParam
      ensures freeFlag == arg
      ensures component != null ==> component.Valid() && component.FreeSetCurrent()
    {
      freeFlag := arg;
      if component != null {
        component.UpdateFreeParameters();
      }
    }

    /** The `twin` setter. Detaching (`None`) a twinned parameter stores the value it read just
        before; if the parameter is in the shared `_twins` list, it is removed from it and the
        old twin's `disconnect` is called for each observer of the shared list while that list
        shrinks, which removes every other observer. Attaching appends the parameter to
        `_twins` unless it is there (the `connect` calls that follow find every observer
        present). Both end by recomputing the owning component's free set. Reading the value
        before detaching raises when a twin function on the chain is the class default; then
        nothing changes. `newRank` witnesses that the new twin graph has no cycle, which the
        source assumes without checking. */
    method SetTwin(arg: Parameter?, ghost newRank: map<Parameter, nat>) returns (r: Outcome)
      requires registry.Valid() && this in registry.all
      requires arg != null ==> arg in registry.all
      requires registry.all <= newRank.Keys
      requires forall p | p in registry.all && p != this && p.twin != null ::
        p.twin in newRank && newRank[p.twin] < newRank[p]
      requires arg != null ==> newRank[arg] < newRank[this]
      requires component != null ==> component.Valid()
      modifies this`twin, this`stored, registry`twins, registry`connected, registry`rank,
               (if component == null then {} else {component})`freeParameters,
               (if component == null then {} else {component})`nFreeParam
      ensures registry.Valid() && registry.all == old(registry.all)
      ensures r.Fail? <==> arg == null && old(twin) != null && old(Value()).None?
      ensures r.Fail? ==>
        r == Fail(TypeError) && twin == old(twin) && stored == old(stored)
        && registry.twins == old(registry.twins) && registry.connected == old(registry.connected)
      ensures r.Fail? && component != null ==>
        component.freeParameters == old(component.freeParameters) && component.nFreeParam == old(component.nFreeParam)
      ensures r == Pass ==> twin == arg
      ensures r == Pass && arg == null && old(twin) != null ==> stored == old(Value()).value
      ensures !(arg == null && old(twin) != null) ==> stored == old(stored)
      ensures r == Pass && arg == null && old(twin) != null && this in old(registry.twins) ==>
        registry.twins == RemoveFirst(old(registry.twins), this)
        && registry.connected == Odds(old(registry.connected))
      ensures arg == null && !(old(twin) != null && this in old(registry.twins)) ==>
        registry.twins == old(registry.twins) && registry.connected == old(registry.connected)
      ensures arg != null ==>
        registry.twins == (if this in old(registry.twins) then old(registry.twins)
                           else old(registry.twins) + [this])
        && registry.connected == old(registry.connected)
      ensures r == Pass && component != null ==> component.Valid() && component.FreeSetCurrent()
    {
      if arg == null {
        r := Detach();
        if r.Fail? {
          return;
        }
      } else {
        Attach(arg);
        r := Pass;
      }
      twin := arg;
      registry.rank := newRank;
      if component != null {
        component.UpdateFreeParameters();
      }
    }

    /** The `None` branch of the `twin` setter, before the twin itself is cleared. It raises,
        changing nothing, when the value read first raises. */
    method Detach() returns (r: Outcome)
      requires registry.Valid() && this in registry.all
      modifies this`stored, registry`twins, registry`connected
      ensures registry.Valid()
      ensures r.Fail? <==> twin != null && old(Value()).None?
      ensures r.Fail? ==> r == Fail(TypeError)
      ensures twin != null && r == Pass ==> stored == old(Value()).value
      ensures r.Fail? || twin == null ==> stored == old(stored)
      ensures twin != null && r == Pass && this in old(registry.twins) ==>
        registry.twins == RemoveFirst(old(registry.twins), this)
        && registry.connected == Odds(old(registry.connected))
      ensures !(twin != null && r == Pass && this in old(registry.twins)) ==>
        registry.twins == old(registry.twins) && registry.connected == old(registry.connected)
    {
      r := Pass;
      if twin != null {
        var twinValue := Value();
        if twinValue.None? {
          return Fail(TypeError);
        }
        if this in registry.twins {
          registry.twins := RemoveFirst(registry.twins, this);
          DetachObservers(twin);
        }
        stored := twinValue.value;
      }
    }

    /** The other branch of the `twin` setter: registers this parameter in the shared `_twins`
        list unless it is there, then connects the new twin to every shared observer, which it
        already has. */
    method Attach(arg: Parameter)
      requires registry.Valid() && arg in registry.all
      modifies registry`twins, registry`connected
      ensures registry.Valid()
      ensures registry.twins == (if this in old(registry.twins) then old(registry.twins)
                                 else old(registry.twins) + [this])
      ensures registry.connected == old(registry.connected)
    {
      if this !in registry.twins {
        NoDupSnoc(registry.twins, this);
        registry.twins := registry.twins + [this];
        var i := 0;
        while i < |registry.connected|
          invariant registry.Valid()
          invariant registry.twins == old(registry.twins) + [this]
          invariant registry.connected == old(registry.connected)
        {
          arg.Connect(registry.connected[i]);
          i := i + 1;
        }
      }
    }

    /** The loop of the `twin` setter that calls the old twin's `disconnect` for each observer of
        the shared list, walking it while it shrinks: it removes the observers at positions 0, 2,
        4, ... and keeps the others. */
    method DetachObservers(oldTwin: Parameter)
      requires registry.Valid() && oldTwin in registry.all
      modifies registry`connected
      ensures registry.Valid()
      ensures registry.connected == Odds(old(registry.connected))
    {
      ghost var lst := registry.connected;
      ghost var drop := set x | x in lst;
      DropAllKeepsOdds(lst, 0, drop);
      assert lst[..0] + Odds(lst[0..]) == Odds(lst) by {
        assert lst[..0] == [] && lst[0..] == lst;
      }
      var i := 0;
      while i < |registry.connected|
        invariant registry.Valid()
        invariant LiveFrom(registry.connected, i, drop).1 == Odds(lst)
        invariant forall x | x in registry.connected :: x in lst
        decreases |registry.connected| - i
      {
        var f := registry.connected[i];
        assert f in drop;
        oldTwin.Disconnect(f);
        i := i + 1;
      }
    }

    /** The `bmin` setter: stores the new lower bound and writes the current value back through
        the `value` setter, so that the new bound applies. */
    method SetBmin(arg: Option<real>, failing: set<Observer>) returns (r: Outcome, notified: seq<Observer>)
      requires registry.Valid() && this in registry.all
      modifies this`bmin, registry`connected, registry.all`stored
      ensures registry.Valid() && bmin == arg
      ensures old(Value()).None? ==>
        r == Fail(TypeError) && notified == []
        && registry.Stored() == old(registry.Stored()) && registry.connected == old(registry.connected)
      ensures old(Value()).Some? ==>
        var w := WriteTarget(old(Value()).value);
        r == OutcomeOf(w)
        && registry.Stored() == Apply(old(registry.Stored()), w)
        && if Changes(old(registry.Stored()), w)
           then (notified, registry.connected) == LiveSweep(old(registry.connected), failing)
           else notified == [] && registry.connected == old(registry.connected)
    {
      bmin := arg;
      assert Value() == old(Value());
      r, notified := WriteBack(failing);
    }

    /** The `bmax` setter: the same with the upper bound. */
    method SetBmax(arg: Option<real>, failing: set<Observer>) returns (r: Outcome, notified: seq<Observer>)
      requires registry.Valid() && this in registry.all
      modifies this`bmax, registry`connected, registry.all`stored
      ensures registry.Valid() && bmax == arg
      ensures old(Value()).None? ==>
        r == Fail(TypeError) && notified == []
        && registry.Stored() == old(registry.Stored()) && registry.connected == old(registry.connected)
      ensures old(Value()).Some? ==>
        var w := WriteTarget(old(Value()).value);
        r == OutcomeOf(w)
        && registry.Stored() == Apply(old(registry.Stored()), w)
        && if Changes(old(registry.Stored()), w)
           then (notified, registry.connected) == LiveSweep(old(registry.connected), failing)
           else notified == [] && registry.connected == old(registry.connected)
    {
      bmax := arg;
      assert Value() == old(Value());
      r, notified := WriteBack(failing);
    }

    /** The `ext_bounded` setter: only a change of the flag stores it and writes the current
        value back. */
    method SetExtBounded(arg: bool, failing: set<Observer>) returns (r: Outcome, notified: seq<Observer>)
      requires registry.Valid() && this in registry.all
      modifies this`extBounded, registry`connected, registry.all`stored
      ensures registry.Valid() && extBounded == arg
      ensures arg == old(extBounded) ==>
        r == Pass && notified == [] && registry.Stored() == old(registry.Stored())
        && registry.connected == old(registry.connected)
      ensures arg != old(extBounded) && old(Value()).None? ==>
        r == Fail(TypeError) && notified == []
        && registry.Stored() == old(registry.Stored()) && registry.connected == old(registry.connected)
      ensures arg != old(extBounded) && old(Value()).Some? ==>
        var w := WriteTarget(old(Value()).value);
        r == OutcomeOf(w)
        && registry.Stored() == Apply(old(registry.Stored()), w)
        && if Changes(old(registry.Stored()), w)
           then (notified, registry.connected) == LiveSweep(old(registry.connected), failing)
           else notified == [] && registry.connected == old(registry.connected)
    {
      if arg != extBounded {
        extBounded := arg;
        assert Value() == old(Value());
        r, notified := WriteBack(failing);
      } else {
        r, notified := Pass, [];
      }
    }

    /** The `ext_force_positive` setter: the same with the force-positive flag. */
    method SetExtForcePositive(arg: bool, failing: set<Observer>) returns (r: Outcome, notified: seq<Observer>)
      requires registry.Valid() && this in registry.all
      modifies this`extForcePositive, registry`connected, registry.all`stored
      ensures registry.Valid() && extForcePositive == arg
      ensures arg == old(extForcePositive) ==>
        r == Pass && notified == [] && registry.Stored() == old(registry.Stored())
        && registry.connected == old(registry.connected)
      ensures arg != old(extForcePositive) && old(Value()).None? ==>
        r == Fail(TypeError) && notified == []
        && registry.Stored() == old(registry.Stored()) && registry.connected == old(registry.connected)
      ensures arg != old(extForcePositive) && old(Value()).Some? ==>
        var w := WriteTarget(old(Value()).value);
        r == OutcomeOf(w)
        && registry.Stored() == Apply(old(registry.Stored()), w)
        && if Changes(old(registry.Stored()), w)
           then (notified, registry.connected) == LiveSweep(old(registry.connected), failing)
           else notified == [] && registry.connected == old(registry.connected)
    {
      if arg != extForcePositive {
        extForcePositive := arg;
        assert Value() == old(Value());
        r, notified := WriteBack(failing);
      } else {
        r, notified := Pass, [];
      }
    }

    /** `self.value = self.value`, as the bound and flag setters end: the value read goes back
        through the `value` setter, under the settings as they now are; reading it may raise. */
    method WriteBack(failing: set<Observer>) returns (r: Outcome, notified: seq<Observer>)
      requires registry.Valid() && this in registry.all
      modifies registry`connected, registry.all`stored
      ensures registry.Valid()
      ensures old(Value()).None? ==>
        r == Fail(TypeError) && notified == []
        && registry.Stored() == old(registry.Stored()) && registry.connected == old(registry.connected)
      ensures old(Value()).Some? ==>
        var w := WriteTarget(old(Value()).value);
        r == OutcomeOf(w)
        && registry.Stored() == Apply(old(registry.Stored()), w)
        && if Changes(old(registry.Stored()), w)
           then (notified, registry.connected) == LiveSweep(old(registry.connected), failing)
           else notified == [] && registry.connected == old(registry.connected)
    {
      var current := Value();
      if current.None? {
        return Fail(TypeError), [];
      }
      ghost var w := WriteTarget(current.value);
      r, notified := SetValue(current.value, failing);
      assert WriteTarget(current.value) == w;
    }

    /** Writing back the value of an untwinned parameter whose stored value came out of the
        policy under the present settings changes nothing, so no observer is called: the
        re-application in the bound and flag setters is quiet unless the settings moved. */
    lemma WriteBackIsQuiet(v: seq<real>)
      requires registry.ValidGraph() && this in registry.all && twin == null
      requires |v| == numberOfElements && stored == Constrained(v)
      requires |v| == 1 ==> Ordered(bmin, bmax)
      ensures Value() == Some(stored)
      ensures WriteTarget(stored) == Store(this, stored)
      ensures !Changes(registry.Stored(), WriteTarget(stored))
    {
      Idempotent(v, extBounded, extForcePositive, bmin, bmax);
    }

    /** The `_number_of_elements` setter: nothing for the present number, an error for a number
        below 2, otherwise the new number with a zero value (bounds are kept, no observer is
        called). */
    method SetNumberOfElements(arg: int) returns (r: Outcome)
      modifies this`numberOfElements, this`stored
      ensures arg == old(numberOfElements) ==> r == Pass
      ensures arg != old(numberOfElements) && arg <= 1 ==> r == Fail(InvalidConfiguration)
      ensures r.Fail? || arg == old(numberOfElements) ==>
        numberOfElements == old(numberOfElements) && stored == old(stored)
      ensures arg != old(numberOfElements) && arg > 1 ==>
        r == Pass && numberOfElements == arg && |stored| == arg
        && forall i | 0 <= i < arg :: stored[i] == 0.0
    {
      if arg == numberOfElements {
        return Pass;
      }
      if arg <= 1 {
        return Fail(InvalidConfiguration);
      }
      numberOfElements := arg;
      stored := seq(arg, _ => 0.0);
      r := Pass;
    }

    /** The map has one record per position of its shape. */
    predicate MapShaped()
      reads this`pixelMap, this`mapShape
    {
      pixelMap != null ==> pixelMap.Length == Cells(mapShape)
    }

    /** `create_array` keeps the present map only when there is one, the shape came as a tuple
        that needed no normalising, and the map has that shape and the present number of
        elements per record. */
    predicate KeepsMap(shape: seq<nat>, givenAsTuple: bool)
      reads this`pixelMap, this`mapShape, this`mapWidth, this`numberOfElements
    {
      var s := NormalizeShape(shape);
      pixelMap != null && s == shape && givenAsTuple && mapShape == s && mapWidth == numberOfElements
    }

    /** The map and the fields `create_array` leaves: the earlier ones when it keeps the map,
        otherwise a map of the normalised shape whose records are all empty, with the present
        number of elements per record, and no `std`. */
    ghost predicate ArrayMade(shape: seq<nat>, keep: bool, map0: array?<Cell>, shape0: seq<nat>, width0: nat,
                              std0: Option<seq<Option<real>>>)
      reads this`pixelMap, pixelMap, this`mapShape, this`mapWidth, this`numberOfElements, this`std
    {
      if keep then pixelMap == map0 && mapShape == shape0 && mapWidth == width0 && std == std0
      else pixelMap != null && mapShape == NormalizeShape(shape) && mapWidth == numberOfElements && std.None?
           && forall i | 0 <= i < pixelMap.Length :: pixelMap[i] == EmptyCell(numberOfElements)
    }

    /** `create_array`: normalises the shape `(0,)` to the list `[1]`, then allocates a fresh
        map of zero values, NaN deviations and unset records, and forgets `std`, unless a map
        of that tuple shape and of the present number of elements exists already. A list never
        equals a tuple shape, so a shape passed as a list, and the normalised one, always
        reallocate. */
    method CreateArray(shape: seq<nat>, givenAsTuple: bool)
      requires MapShaped()
      modifies this`pixelMap, this`mapShape, this`mapWidth, this`std
      ensures MapShaped() && pixelMap != null
      ensures ArrayMade(shape, old(KeepsMap(shape, givenAsTuple)), old(pixelMap), old(mapShape), old(mapWidth), old(std))
      ensures !old(KeepsMap(shape, givenAsTuple)) ==> fresh(pixelMap)
    {
      var s := NormalizeShape(shape);
      if !KeepsMap(shape, givenAsTuple) {
        var width := numberOfElements;
        pixelMap := new Cell[Cells(s)](_ => EmptyCell(width));
        mapShape := s;
        mapWidth := numberOfElements;
        std := None;
      }
    }

    /** What `store_current_value_in_array` does to the records `cells` of the map at the
        index `idx`: the current value is read first, which may raise; then it and `is_set` go
        into the record `idx` names, then `std` when it is known; each assignment raises when
        its width does not fit, leaving the earlier ones done. */
    function StoreResult(idx: seq<int>, cells: seq<Cell>): (res: (Outcome, seq<Cell>))
      requires registry.ValidGraph() && this in registry.all && |cells| == Cells(mapShape)
      reads registry`all, registry`rank, registry.all`twin, registry.all`stored, registry.all`twinFunction,
            this`mapShape, this`mapWidth, this`std
      ensures |res.1| == |cells|
      ensures Value().None? ==> res == (Fail(TypeError), cells)
      ensures Value().Some? && !InRange(mapShape, idx) ==> res == (Fail(BadIndex), cells)
      ensures Value().Some? && InRange(mapShape, idx) ==>
        var k := Flat(mapShape, idx);
        var v := Value().value;
        (forall j | 0 <= j < |cells| && j != k :: res.1[j] == cells[j])
        && (res.0 == Pass <==> Fit(v, mapWidth).Some? && (std.None? || Fit(std.value, mapWidth).Some?))
        && (Fit(v, mapWidth).Some? ==> res.1[k].values == Fit(v, mapWidth).value && res.1[k].isSet)
        && (Fit(v, mapWidth).None? ==> res.1 == cells)
        && (std.None? ==> res.1[k].std == cells[k].std)
        && (res.0 == Pass && std.Some? ==> res.1[k].std == Fit(std.value, mapWidth).value)
    {
      var current := Value();
      if current.None? then (Fail(TypeError), cells)
      else if !InRange(mapShape, idx) then (Fail(BadIndex), cells)
      else
        var k := Flat(mapShape, idx);
        var fitted := Fit(current.value, mapWidth);
        if fitted.None? then (Fail(LengthMismatch), cells)
        else
          var written := cells[k := cells[k].(values := fitted.value, isSet := true)];
          if std.None? then (Pass, written)
          else
            var fittedStd := Fit(std.value, mapWidth);
            if fittedStd.None? then (Fail(LengthMismatch), written)
            else (Pass, written[k := written[k].(std := fittedStd.value)])
    }

    /** What `store_current_value_in_array` at `idx` does to the map in the present state:
        without a map it raises, on reading the value or else on the missing map, and otherwise
        it acts as `StoreResult` says. */
    ghost function StoreOutcome(idx: seq<int>): (r: (Outcome, seq<Cell>))
      requires registry.ValidGraph() && this in registry.all && MapShaped()
      reads registry`all, registry`rank, registry.all`twin, registry.all`stored, registry.all`twinFunction,
            this`pixelMap, pixelMap, this`mapShape, this`mapWidth, this`std
    {
      if pixelMap == null then (if Value().None? then Fail(TypeError) else Fail(NoMap), [])
      else StoreResult(idx, pixelMap[..])
    }

    /** `store_current_value_in_array` */
    method StoreCurrentValueInArray(idx: seq<int>) returns (r: Outcome)
      requires registry.ValidGraph() && this in registry.all && MapShaped()
      modifies pixelMap
      ensures pixelMap == null ==> r == if Value().None? then Fail(TypeError) else Fail(NoMap)
      ensures pixelMap != null ==> (r, pixelMap[..]) == StoreResult(idx, old(pixelMap[..]))
    {
      if pixelMap == null {
        return if Value().None? then Fail(TypeError) else Fail(NoMap);
      }
      var res := StoreResult(idx, pixelMap[..]);
      r := res.0;
      if InRange(mapShape, idx) {
        var k := Flat(mapShape, idx);
        pixelMap[k] := res.1[k];
        assert forall j | 0 <= j < pixelMap.Length :: pixelMap[j] == res.1[j];
        assert pixelMap[..] == res.1;
      }
    }

    /** `assign_current_value_to_all`: the current value and `is_set` go into every record whose
        mask entry is false (every record without a mask); `std` is never written. The mask is
        laid out like the map. Without a mask the map is read (and found missing) before the
        value; with one, the value is read first, and reading it may raise. */
    method AssignCurrentValueToAll(mask: Option<seq<bool>>) returns (r: Outcome)
      requires registry.ValidGraph() && this in registry.all
      modifies pixelMap
      ensures pixelMap == null ==> r == if mask.Some? && Value().None? then Fail(TypeError) else Fail(NoMap)
      ensures pixelMap != null && Value().None? ==> r == Fail(TypeError) && pixelMap[..] == old(pixelMap[..])
      ensures pixelMap != null && Value().Some? ==>
        var m := if mask.Some? then mask.value else seq(pixelMap.Length, _ => false);
        var fitted := Fit(Value().value, mapWidth);
        (|m| != pixelMap.Length ==> r == Fail(BadIndex) && pixelMap[..] == old(pixelMap[..]))
        && (|m| == pixelMap.Length && fitted.None? ==> r == Fail(LengthMismatch) && pixelMap[..] == old(pixelMap[..]))
        && (|m| == pixelMap.Length && fitted.Some? ==>
              r == Pass
              && forall i | 0 <= i < pixelMap.Length ::
                   pixelMap[i] == if m[i] then old(pixelMap[i])
                                  else old(pixelMap[i]).(values := fitted.value, isSet := true))
    {
      var current := Value();
      if pixelMap == null {
        return if mask.Some? && current.None? then Fail(TypeError) else Fail(NoMap);
      }
      if current.None? {
        return Fail(TypeError);
      }
      var m := if mask.Some? then mask.value else seq(pixelMap.Length, _ => false);
      if |m| != pixelMap.Length {
        return Fail(BadIndex);
      }
      var fitted := Fit(current.value, mapWidth);
      if fitted.None? {
        return Fail(LengthMismatch);
      }
      forall i | 0 <= i < pixelMap.Length && !m[i] {
        pixelMap[i] := pixelMap[i].(values := fitted.value, isSet := true);
      }
      r := Pass;
    }

    /** What `charge_value_from_map` finds for this parameter in the record at `idx`: an error
        without a map, for an index that does not fit it, or for set values of another width
        than the parameter's; otherwise the record to load, or nothing when it is not set. */
    function Load(idx: seq<int>): (r: (Outcome, Option<Cell>))
      requires MapShaped()
      reads this`pixelMap, pixelMap, this`mapShape, this`numberOfElements
      ensures r.1.Some? ==> r.0 == Pass
      ensures r.0 == Fail(NoMap) <==> pixelMap == null
      ensures pixelMap != null ==> (r.0 == Fail(BadIndex) <==> !InRange(mapShape, idx))
      ensures pixelMap != null && InRange(mapShape, idx) ==>
        var c := pixelMap[Flat(mapShape, idx)];
        (r.1.Some? <==> c.isSet && |c.values| == numberOfElements)
        && (r.1.Some? ==> r.1.value == c)
        && (r.0 == Fail(LengthMismatch) <==> c.isSet && |c.values| != numberOfElements)
    {
      if pixelMap == null then (Fail(NoMap), None)
      else if !InRange(mapShape, idx) then (Fail(BadIndex), None)
      else
        var c := pixelMap[Flat(mapShape, idx)];
        if !c.isSet then (Pass, None)
        else if |c.values| != numberOfElements then (Fail(LengthMismatch), None)
        else (Pass, Some(c))
    }

    /** The value and deviation this parameter holds once `charge_value_from_map` has
        reached it without error: a set record of the right width goes through the setter
        and gives its deviation; a twinned parameter, or an unset record, leaves both alone. */
    ghost function Charged(idx: seq<int>): (seq<real>, Option<seq<Option<real>>>)
      requires MapShaped()
      reads this`pixelMap, pixelMap, this`mapShape, this`numberOfElements, this`twin, this`stored,
            this`std, this`extBounded, this`extForcePositive, this`bmin, this`bmax
    {
      var l := Load(idx);
      if twin == null && l.1.Some? then (Constrained(l.1.value.values), Some(l.1.value.std))
      else (stored, std)
    }

    /** The loop body of `charge_value_from_map` at an untwinned parameter: when the record
        is set, its values go through the `value` setter and its deviation becomes `std`. */
    method LoadCell(idx: seq<int>, failing: set<Observer>) returns (r: Outcome)
      requires registry.Valid() && this in registry.all && twin == null && MapShaped()
      modifies registry`connected, registry.all`stored, this`std
      ensures registry.Valid()
      ensures r == Load(idx).0
      ensures stored == if Load(idx).1.Some? then Constrained(Load(idx).1.value.values) else old(stored)
      ensures std == if Load(idx).1.Some? then Some(Load(idx).1.value.std) else old(std)
      ensures forall q | q in registry.all && q != this :: q.stored == old(q.stored)
    {
      if pixelMap == null {
        return Fail(NoMap);
      }
      if !InRange(mapShape, idx) {
        return Fail(BadIndex);
      }
      var c := pixelMap[Flat(mapShape, idx)];
      if !c.isSet {
        return Pass;
      }
      var notified;
      r, notified := SetValue(c.values, failing);
      assert forall q | q in registry.all :: q.stored == registry.Stored()[q];
      if r == Pass {
        std := Some(c.std);
      }
    }
  }

  /** The map of a parameter, named so that statements about which parameters share a map
      are only drawn on where a proof asks for them. */
  ghost function MapOf(p: Parameter): array?<Cell>
    reads p`pixelMap
  {
    p.pixelMap
  }

  /** Total number of elements of a set of parameters (the source sums over a Python set). */
  ghost function SizeOf(s: set<Parameter>): nat
    reads s`numberOfElements
  {
    if s == {} then 0
    else
      var p :| p in s;
      p.numberOfElements + SizeOf(s - {p})
  }

  /** The sum over a set does not depend on which element is taken first. */
  lemma SizeOfRemove(s: set<Parameter>, p: Parameter)
    requires p in s
    ensures SizeOf(s) == p.numberOfElements + SizeOf(s - {p})
    decreases |s|
  {
    var q :| q in s && SizeOf(s) == q.numberOfElements + SizeOf(s - {q});
    if q != p {
      SizeOfRemove(s - {q}, p);
      SizeOfRemove(s - {p}, q);
      assert s - {q} - {p} == s - {p} - {q};
    }
  }

  /** Total number of elements of a list of parameters. */
  ghost function SizeOfSeq(ps: seq<Parameter>): nat
    reads ps`numberOfElements
  {
    if ps == [] then 0 else ps[0].numberOfElements + SizeOfSeq(ps[1..])
  }

  /** Total number of elements of the free parameters of a list. */
  ghost function FreeSizeOfSeq(ps: seq<Parameter>): nat
    reads ps`numberOfElements, ps`twin, ps`freeFlag
  {
    if ps == [] then 0
    else (if ps[0].Free() then ps[0].numberOfElements else 0) + FreeSizeOfSeq(ps[1..])
  }

  /** The free parameters of a list. */
  ghost function FreeSet(ps: seq<Parameter>): set<Parameter>
    reads ps`twin, ps`freeFlag
  {
    set p | p in ps && p.Free()
  }

  /** Over a list without repeats, the sum over its free set is the sum over the list of the free
      ones, and never more than the sum over the whole list: `_nfree_param` never exceeds
      `nparam`. */
  lemma {:induction false} FreeSizeOfSet(ps: seq<Parameter>)
    requires NoDup(ps)
    ensures SizeOf(FreeSet(ps)) == FreeSizeOfSeq(ps)
    ensures FreeSizeOfSeq(ps) <= SizeOfSeq(ps)
  {
    if ps != [] {
      var tail := ps[1..];
      FreeSizeOfSet(tail);
      if ps[0].Free() {
        assert FreeSet(ps) - {ps[0]} == FreeSet(tail);
        SizeOfRemove(FreeSet(ps), ps[0]);
      } else {
        assert FreeSet(ps) == FreeSet(tail);
      }
    } else {
      assert FreeSet(ps) == {};
    }
  }

  /** The parameters of a sequence, as a set. */
  ghost function Elements(ps: seq<Parameter>): set<Parameter>
  {
    set p | p in ps
  }

  /** The parameters freshly made for the given names, in order. */
  ghost predicate Built(ps: seq<Parameter>, names: seq<string>)
    reads ps`name, ps`stored, ps`numberOfElements, ps`twin, ps`freeFlag, ps`pixelMap
  {
    |ps| == |names| && forall k | 0 <= k < |ps| :: ps[k].name == names[k] && ps[k].Pristine()
  }

  lemma BuiltStep(ps: seq<Parameter>, names: seq<string>, k: nat, p: Parameter)
    requires k < |names| && Built(ps, names[..k]) && p.Pristine() && p.name == names[k]
    ensures Built(ps + [p], names[..k + 1])
  {
    assert names[..k + 1] == names[..k] + [names[k]];
  }

  /** The number of elements of each parameter of a list; they add up to the count
      `update_number_parameters` makes. */
  ghost function Sizes(ts: seq<Parameter>): (r: seq<nat>)
    reads ts`numberOfElements
    ensures |r| == |ts| && Total(r) == SizeOfSeq(ts)
  {
    if ts == [] then []
    else
      var r := [ts[0].numberOfElements] + Sizes(ts[1..]);
      assert r[1..] == Sizes(ts[1..]);
      r
  }

  lemma {:induction false} SizesOf(ts: seq<Parameter>)
    ensures forall k | 0 <= k < |ts| :: Sizes(ts)[k] == ts[k].numberOfElements
  {
    if ts != [] {
      SizesOf(ts[1..]);
      assert forall k | 1 <= k < |ts| :: Sizes(ts)[k] == Sizes(ts[1..])[k - 1];
    }
  }

  /** The stored value of each parameter of a list. */
  ghost function StoredOf(ts: seq<Parameter>): (r: seq<seq<real>>)
    reads ts`stored
    ensures |r| == |ts| && forall k | 0 <= k < |ts| :: r[k] == ts[k].stored
  {
    if ts == [] then [] else [ts[0].stored] + StoredOf(ts[1..])
  }

  /** A standard deviation given as numbers: no entry is unknown. */
  function Known(s: seq<real>): (r: seq<Option<real>>)
    ensures |r| == |s|
  {
    if s == [] then [] else [Some(s[0])] + Known(s[1..])
  }

  /** Every parameter of the list is served by the registry. */
  ghost predicate Members(registry: Registry, ts: seq<Parameter>)
    reads registry`all
  {
    ts == [] || (ts[0] in registry.all && Members(registry, ts[1..]))
  }

  /** No parameter of the list has a twin. */
  ghost predicate NoTwins(ts: seq<Parameter>)
    reads ts`twin
  {
    ts == [] || (ts[0].twin == null && NoTwins(ts[1..]))
  }

  lemma {:induction false} MembersAt(registry: Registry, ts: seq<Parameter>)
    ensures Members(registry, ts) <==> forall k | 0 <= k < |ts| :: ts[k] in registry.all
  {
    if ts != [] {
      assert forall k | 0 <= k < |ts| - 1 :: ts[1..][k] == ts[k + 1];
      MembersAt(registry, ts[1..]);
    }
  }

  lemma {:induction false} NoTwinsAt(ts: seq<Parameter>)
    ensures NoTwins(ts) <==> forall k | 0 <= k < |ts| :: ts[k].twin == null
  {
    if ts != [] {
      assert forall k | 0 <= k < |ts| - 1 :: ts[1..][k] == ts[k + 1];
      NoTwinsAt(ts[1..]);
    }
  }

  /** The part of the vector that `charge` hands a parameter of `n` elements at offset `i`: the
      entry itself for one element, a slice (cut short at the end of the vector) otherwise. */
  function Piece(p: seq<real>, i: nat, n: nat): (r: seq<real>)
    requires n == 1 ==> i < |p|
    ensures i + n <= |p| ==> r == p[i..i + n]
    ensures |r| == n <==> i + n <= |p| || n == 0
  {
    if n == 1 then [p[i]] else Slice(p, i, n)
  }

  /** What `charge` does, in order: the value writes it makes, the deviations it assigns, and
      how it ends. */
  datatype Plan = Plan(writes: seq<Write>, stds: seq<seq<real>>, outcome: Outcome)

  /** A step of `charge` followed by the rest of the loop: a step that fails ends it. */
  function Then(head: Plan, rest: Plan): (r: Plan)
    ensures r.outcome == if head.outcome.Fail? then head.outcome else rest.outcome
  {
    if head.outcome.Fail? then head
    else Plan(head.writes + rest.writes, head.stds + rest.stds, rest.outcome)
  }

  /** The plan of `charge` over the parameters `ts` from offset `i` of the vector `p`. A
      one-element parameter past the end of `p` (or of `pStd`) raises an index error; a write
      the setter rejects stops the loop after it; a deviation is assigned only after its value
      was written. */
  ghost function ChargePlan(registry: Registry, ts: seq<Parameter>, p: seq<real>, pStd: Option<seq<real>>,
                            i: nat): (r: Plan)
    requires registry.ValidGraph() && Members(registry, ts)
    reads registry`all, registry`rank, registry.all`twin, registry.all`twinInverse,
          registry.all`numberOfElements, registry.all`extBounded, registry.all`extForcePositive,
          registry.all`bmin, registry.all`bmax
    decreases |ts|, 1
    ensures |r.stds| <= |r.writes| <= |ts|
    ensures r.outcome == Pass ==> |r.writes| == |ts| && (pStd.Some? ==> |r.stds| == |ts|)
    ensures pStd.None? ==> r.stds == []
  {
    if ts == [] then Plan([], [], Pass) else ChargeFirst(registry, ts, p, pStd, i)
  }

  /** The plan of `charge` from the first parameter of `ts` on: its step and, when that passes,
      the plan of the parameters after it. */
  ghost function ChargeFirst(registry: Registry, ts: seq<Parameter>, p: seq<real>, pStd: Option<seq<real>>,
                             i: nat): (r: Plan)
    requires registry.ValidGraph() && ts != [] && Members(registry, ts)
    reads registry`all, registry`rank, registry.all`twin, registry.all`twinInverse,
          registry.all`numberOfElements, registry.all`extBounded, registry.all`extForcePositive,
          registry.all`bmin, registry.all`bmax
    decreases |ts|, 0
    ensures |r.stds| <= |r.writes| <= |ts|
    ensures r.outcome == Pass ==> |r.writes| == |ts| && (pStd.Some? ==> |r.stds| == |ts|)
    ensures pStd.None? ==> r.stds == []
  {
    Then(ts[0].ChargeHead(p, pStd, i), ChargePlan(registry, ts[1..], p, pStd, i + ts[0].numberOfElements))
  }

  /** Over a non-empty list, the plan is the first step and then the plan of the rest. */
  lemma ChargePlanCons(registry: Registry, ts: seq<Parameter>, p: seq<real>, pStd: Option<seq<real>>, i: nat)
    requires registry.ValidGraph() && ts != [] && Members(registry, ts)
    ensures ChargePlan(registry, ts, p, pStd, i)
            == Then(ts[0].ChargeHead(p, pStd, i), ChargePlan(registry, ts[1..], p, pStd, i + ts[0].numberOfElements))
  {
  }


  /** The stores that put each value of `vs`, through the value policy, into the parameter at
      the same position. */
  ghost function StoresOf(ts: seq<Parameter>, vs: seq<seq<real>>): (r: seq<Write>)
    requires |vs| == |ts|
    reads ts`extBounded, ts`extForcePositive, ts`bmin, ts`bmax
    ensures |r| == |ts|
  {
    if ts == [] then [] else [Store(ts[0], ts[0].Constrained(vs[0]))] + StoresOf(ts[1..], vs[1..])
  }

  /** Store `k` puts the `k`-th value, through its policy, into the `k`-th parameter. */
  lemma {:induction false} StoresOfAt(ts: seq<Parameter>, vs: seq<seq<real>>)
    requires |vs| == |ts|
    ensures forall k | 0 <= k < |ts| :: StoresOf(ts, vs)[k] == Store(ts[k], ts[k].Constrained(vs[k]))
  {
    if ts != [] {
      StoresOfAt(ts[1..], vs[1..]);
    }
  }

  /** Untwinned parameters with enough entries left: `charge` runs to the end. */
  lemma {:induction false} ChargePlanPasses(registry: Registry, ts: seq<Parameter>, p: seq<real>, i: nat)
    requires registry.ValidGraph() && Members(registry, ts) && NoTwins(ts)
    requires i + Total(Sizes(ts)) <= |p|
    ensures ChargePlan(registry, ts, p, None, i).outcome == Pass
  {
    if ts != [] {
      ChargePlanStep(registry, ts, p, i);
      ChargePlanPasses(registry, ts[1..], p, i + ts[0].numberOfElements);
    } else {
      assert ChargePlan(registry, ts, p, None, i) == Plan([], [], Pass);
    }
  }

  /** Untwinned parameters with enough entries left: every parameter gets, through the value
      policy, its own piece of the vector, cut at the running offsets. */
  lemma {:induction false} ChargePlanUnpacked(registry: Registry, ts: seq<Parameter>, p: seq<real>, i: nat)
    requires registry.ValidGraph() && Members(registry, ts) && NoTwins(ts)
    requires i + Total(Sizes(ts)) <= |p|
    ensures ChargePlan(registry, ts, p, None, i).writes == StoresOf(ts, Unpack(p[i..], Sizes(ts)))
  {
    if ts != [] {
      var n := ts[0].numberOfElements;
      ChargePlanStep(registry, ts, p, i);
      var rest := ChargePlan(registry, ts[1..], p, None, i + n);
      var us := Unpack(p[i + n..], Sizes(ts[1..]));
      ChargePlanUnpacked(registry, ts[1..], p, i + n);
      assert rest.writes == StoresOf(ts[1..], us);
      assert Sizes(ts)[0] == n && Sizes(ts)[1..] == Sizes(ts[1..]);
      UnpackFrom(p, i, Sizes(ts));
      assert Unpack(p[i..], Sizes(ts)) == [p[i..i + n]] + us;
      StoresOfCons(ts, p[i..i + n], us);
    } else {
      assert ChargePlan(registry, ts, p, None, i) == Plan([], [], Pass);
    }
  }

  lemma StoresOfCons(ts: seq<Parameter>, x: seq<real>, tail: seq<seq<real>>)
    requires ts != [] && |tail| == |ts| - 1
    ensures StoresOf(ts, [x] + tail) == [Store(ts[0], ts[0].Constrained(x))] + StoresOf(ts[1..], tail)
  {
    assert ([x] + tail)[1..] == tail;
  }

  /** One step of `charge` at an untwinned parameter with enough entries left. */
  lemma ChargePlanStep(registry: Registry, ts: seq<Parameter>, p: seq<real>, i: nat)
    requires registry.ValidGraph() && Members(registry, ts) && NoTwins(ts)
    requires ts != [] && i + Total(Sizes(ts)) <= |p|
    ensures Total(Sizes(ts)) == ts[0].numberOfElements + Total(Sizes(ts[1..]))
    ensures var n := ts[0].numberOfElements;
      var rest := ChargePlan(registry, ts[1..], p, None, i + n);
      ChargePlan(registry, ts, p, None, i)
      == Plan([Store(ts[0], ts[0].Constrained(p[i..i + n]))] + rest.writes, [], rest.outcome)
  {
    assert Sizes(ts)[1..] == Sizes(ts[1..]);
  }


  /** Untwinned parameters whose elements outrun the vector: the loop stops with an error. */
  lemma {:induction false} ChargePlanShort(registry: Registry, ts: seq<Parameter>, p: seq<real>,
                                           pStd: Option<seq<real>>, i: nat)
    requires registry.ValidGraph() && Members(registry, ts) && NoTwins(ts)
    requires i <= |p| < i + Total(Sizes(ts))
    ensures ChargePlan(registry, ts, p, pStd, i).outcome.Fail?
  {
    assert Sizes(ts)[1..] == Sizes(ts[1..]);
    ChargePlanCons(registry, ts, p, pStd, i);
    if ts[0].ChargeHead(p, pStd, i).outcome == Pass {
      ChargePlanShort(registry, ts[1..], p, pStd, i + ts[0].numberOfElements);
    }
  }


  /** Over untwinned parameters and without deviations, `charge` runs to the end exactly when
      the vector has at least as many entries as the parameters have elements. */
  lemma ChargeSucceedsIff(registry: Registry, ts: seq<Parameter>, p: seq<real>)
    requires registry.ValidGraph() && Members(registry, ts) && NoTwins(ts)
    ensures ChargePlan(registry, ts, p, None, 0).outcome == Pass <==> SizeOfSeq(ts) <= |p|
  {
    if SizeOfSeq(ts) <= |p| {
      ChargePlanPasses(registry, ts, p, 0);
    } else {
      ChargePlanShort(registry, ts, p, None, 0);
    }
  }

  /** `charge` over distinct untwinned parameters: each ends up holding its own piece of the
      vector, as the value policy stores it, and every other parameter keeps its value. */
  lemma ChargeDistributes(registry: Registry, ts: seq<Parameter>, p: seq<real>)
    requires registry.ValidGraph() && Members(registry, ts) && NoTwins(ts)
    requires NoDup(ts) && SizeOfSeq(ts) <= |p|
    ensures forall k | 0 <= k < |ts| :: ts[k] in registry.all
    ensures var after := Replay(registry.Stored(), ChargePlan(registry, ts, p, None, 0).writes);
      (forall k | 0 <= k < |ts| :: after[ts[k]] == ts[k].Constrained(Unpack(p, Sizes(ts))[k]))
      && forall q | q in registry.all && q !in ts :: after[q] == q.stored
  {
    MembersAt(registry, ts);
    ChargePlanUnpacked(registry, ts, p, 0);
    assert p[0..] == p;
    StoresOfAt(ts, Unpack(p, Sizes(ts)));
    var ws := ChargePlan(registry, ts, p, None, 0).writes;
    assert forall k | 0 <= k < |ws| :: ws[k].Store? && ws[k].target == ts[k];
    NoDupAt(ts);
    ReplayDistinct(registry.Stored(), ws);
  }

  /** Charging untwinned parameters with their own values laid end to end changes nothing, when
      each stored value is one the value policy keeps (as it is once the policy stored it, or
      whenever the parameter is not bounded). */
  lemma ChargeOwnValues(registry: Registry, ts: seq<Parameter>)
    requires registry.ValidGraph() && Members(registry, ts) && NoTwins(ts)
    requires forall t | t in ts :: |t.stored| == t.numberOfElements && t.Constrained(t.stored) == t.stored
    ensures var plan := ChargePlan(registry, ts, Flatten(StoredOf(ts)), None, 0);
      plan.outcome == Pass && Replay(registry.Stored(), plan.writes) == registry.Stored()
  {
    MembersAt(registry, ts);
    var cs := StoredOf(ts);
    var p := Flatten(cs);
    SizesOf(ts);
    assert Lengths(cs) == Sizes(ts);
    UnpackFlatten(cs);
    ChargePlanUnpacked(registry, ts, p, 0);
    ChargePlanPasses(registry, ts, p, 0);
    assert p[0..] == p;
    StoresOfAt(ts, cs);
    var ws := ChargePlan(registry, ts, p, None, 0).writes;
    assert forall k | 0 <= k < |ws| :: ws[k] == Store(ts[k], ts[k].stored);
    ReplayQuiet(registry.Stored(), ws);
  }

  /** Settings `w` and ranks `rank` as a registry keeps them: every twin has settings of its own
      and a lower rank. */
  ghost predicate Wired(w: map<Parameter, Setting>, rank: map<Parameter, nat>)
  {
    forall q | q in w ::
      q in rank && (w[q].twin != null ==> w[q].twin in w && w[q].twin in rank && rank[w[q].twin] < rank[q])
  }

  /** `WriteTarget` read off the settings `w` instead of the parameters themselves. This and
      `HeadIn`, `PlanIn` and `StepIn` restate `WriteTarget`, `ChargeHead` and `ChargePlan` over a
      map of values only to keep the proofs about `charge` cheap; `WriteTargetIn`,
      `ChargeHeadIn` and `ChargePlanIn` prove each equal to its original. */
  ghost function TargetIn(w: map<Parameter, Setting>, rank: map<Parameter, nat>, q: Parameter,
                          arg: seq<real>): Write
    requires Wired(w, rank) && q in w
    decreases rank[q]
  {
    var s := w[q];
    if |arg| != s.numberOfElements then Rejected(LengthMismatch)
    else if s.twin == null then Store(q, Constrain(arg, s.extBounded, s.extForcePositive, s.bmin, s.bmax))
    else if s.twinInverse.None? then Ignored
    else if s.twinInverse.value.ClassDefault? then Rejected(TypeError)
    else TargetIn(w, rank, s.twin, s.twinInverse.value.f(arg))
  }

  /** `ChargeHead` read off the settings `w` instead of the parameters themselves. */
  ghost function HeadIn(w: map<Parameter, Setting>, rank: map<Parameter, nat>, q: Parameter,
                        p: seq<real>, pStd: Option<seq<real>>, i: nat): Plan
    requires Wired(w, rank) && q in w
  {
    var n := w[q].numberOfElements;
    if n == 1 && i >= |p| then Plan([], [], Fail(BadIndex))
    else
      var t := TargetIn(w, rank, q, Piece(p, i, n));
      if t.Rejected? then Plan([t], [], Fail(t.error))
      else if pStd.Some? && n == 1 && i >= |pStd.value| then Plan([t], [], Fail(BadIndex))
      else Plan([t], if pStd.Some? then [Piece(pStd.value, i, n)] else [], Pass)
  }

  /** `ChargePlan` read off the settings `w`: no plan for no parameters, the plan from the
      first parameter on otherwise. */
  ghost function PlanIn(w: map<Parameter, Setting>, rank: map<Parameter, nat>, ts: seq<Parameter>,
                        p: seq<real>, pStd: Option<seq<real>>, i: nat): (r: Plan)
    requires Wired(w, rank) && forall t | t in ts :: t in w
    decreases |ts|, 1
    ensures pStd.None? ==> r.stds == []
  {
    if ts == [] then Plan([], [], Pass) else StepIn(w, rank, ts, p, pStd, i)
  }

  /** The plan from the first parameter of `ts` on: its step and, when that passes, the plan of
      the parameters after it. */
  ghost function StepIn(w: map<Parameter, Setting>, rank: map<Parameter, nat>, ts: seq<Parameter>,
                        p: seq<real>, pStd: Option<seq<real>>, i: nat): (r: Plan)
    requires ts != [] && Wired(w, rank) && forall t | t in ts :: t in w
    decreases |ts|, 0
    ensures pStd.None? ==> r.stds == []
  {
    Then(HeadIn(w, rank, ts[0], p, pStd, i), PlanIn(w, rank, ts[1..], p, pStd, i + w[ts[0]].numberOfElements))
  }

  /** The deviations of the parameters `ts`, in order. */
  ghost function StdsOf(ts: seq<Parameter>): (r: seq<Option<seq<Option<real>>>>)
    reads ts`std
    ensures |r| == |ts|
  {
    if ts == [] then [] else [ts[0].std] + StdsOf(ts[1..])
  }

  /** Entry `k` is the deviation of `ts[k]`. */
  lemma {:induction false} StdsOfAt(ts: seq<Parameter>)
    ensures forall k | 0 <= k < |ts| :: StdsOf(ts)[k] == ts[k].std
  {
    if ts != [] {
      StdsOfAt(ts[1..]);
    }
  }

  /** The deviations `s` once the pieces `ss` are assigned, in order, to the leading entries. */
  function Assigned(s: seq<Option<seq<Option<real>>>>, ss: seq<seq<real>>): (r: seq<Option<seq<Option<real>>>>)
    ensures |r| == |s|
  {
    if s == [] || ss == [] then s else [Some(Known(ss[0]))] + Assigned(s[1..], ss[1..])
  }

  /** Entry by entry, the first `|ss|` deviations are the pieces of `ss`, the others are kept. */
  lemma {:induction false} AssignedAt(s: seq<Option<seq<Option<real>>>>, ss: seq<seq<real>>)
    ensures forall k | 0 <= k < |s| :: Assigned(s, ss)[k] == if k < |ss| then Some(Known(ss[k])) else s[k]
  {
    if s != [] && ss != [] {
      AssignedAt(s[1..], ss[1..]);
    }
  }

  /** Assigning one piece to the first entry and then the rest to the others is assigning them
      all. */
  lemma AssignedCons(x: Option<seq<Option<real>>>, s: seq<Option<seq<Option<real>>>>, h: seq<seq<real>>,
                     ss: seq<seq<real>>)
    requires |h| == 1
    ensures [Some(Known(h[0]))] + Assigned(s, ss) == Assigned([x] + s, h + ss)
  {
    assert ([x] + s)[1..] == s;
    assert (h + ss)[1..] == ss;
  }

  /** `plan` is what `charge` does over `ts` from offset `i`, read off the settings `w`. */
  ghost predicate Planned(plan: Plan, w: map<Parameter, Setting>, rank: map<Parameter, nat>,
                          ts: seq<Parameter>, p: seq<real>, pStd: Option<seq<real>>, i: nat)
    requires Wired(w, rank) && forall t | t in ts :: t in w
  {
    plan == PlanIn(w, rank, ts, p, pStd, i)
  }

  /** The plan over a non-empty list: the first step, which assigns at most one deviation and
      none when it fails, and after a passing step the plan over the rest. */
  lemma PlanInCons(w: map<Parameter, Setting>, rank: map<Parameter, nat>, ts: seq<Parameter>,
                   p: seq<real>, pStd: Option<seq<real>>, i: nat)
    requires ts != [] && Wired(w, rank) && forall t | t in ts :: t in w
    ensures var head := HeadIn(w, rank, ts[0], p, pStd, i);
      var rest := PlanIn(w, rank, ts[1..], p, pStd, i + w[ts[0]].numberOfElements);
      var plan := PlanIn(w, rank, ts, p, pStd, i);
      |head.stds| <= 1
      && (if head.outcome.Fail? then plan == head && head.stds == []
          else (plan == Plan(head.writes + rest.writes, head.stds + rest.stds, rest.outcome)
                && (pStd.Some? ==> |head.stds| == 1) && (pStd.None? ==> head.stds == [] == rest.stds)))
  {
  }

  /** Over a non-empty list, the plan read off the settings is its first step and then the
      plan of the rest. */
  lemma PlanInThen(w: map<Parameter, Setting>, rank: map<Parameter, nat>, ts: seq<Parameter>,
                   p: seq<real>, pStd: Option<seq<real>>, i: nat)
    requires ts != [] && Wired(w, rank) && forall t | t in ts :: t in w
    ensures PlanIn(w, rank, ts, p, pStd, i)
            == Then(HeadIn(w, rank, ts[0], p, pStd, i), PlanIn(w, rank, ts[1..], p, pStd, i + w[ts[0]].numberOfElements))
  {
  }

  /** A plan read off the settings, taken apart at its first parameter: the step there and the
      plan of the parameters after it. */
  lemma PlanStep(w: map<Parameter, Setting>, rank: map<Parameter, nat>, ts: seq<Parameter>,
                 p: seq<real>, pStd: Option<seq<real>>, i: nat, plan: Plan) returns (head: Plan, rest: Plan)
    requires ts != [] && Wired(w, rank) && forall t | t in ts :: t in w
    requires Planned(plan, w, rank, ts, p, pStd, i)
    ensures head == HeadIn(w, rank, ts[0], p, pStd, i)
    ensures Planned(rest, w, rank, ts[1..], p, pStd, i + w[ts[0]].numberOfElements)
    ensures |head.stds| <= 1
    ensures if head.outcome.Fail? then plan == head && head.stds == []
      else (plan == Plan(head.writes + rest.writes, head.stds + rest.stds, rest.outcome)
            && (pStd.Some? ==> |head.stds| == 1) && (pStd.None? ==> head.stds == [] == rest.stds))
  {
    head := HeadIn(w, rank, ts[0], p, pStd, i);
    rest := PlanIn(w, rank, ts[1..], p, pStd, i + w[ts[0]].numberOfElements);
    PlanInCons(w, rank, ts, p, pStd, i);
  }

  /** A registry keeps its settings as `Wired` demands. */
  lemma SettingsWired(registry: Registry)
    requires registry.ValidGraph()
    ensures Wired(registry.Settings(), registry.rank)
    ensures forall q | q in registry.all :: q in registry.Settings()
  {
  }

  /** Read off the settings, the target of a write is the one `WriteTarget` names. */
  lemma {:induction false} WriteTargetIn(registry: Registry, q: Parameter, arg: seq<real>)
    requires registry.ValidGraph() && q in registry.all
    ensures Wired(registry.Settings(), registry.rank)
    ensures q.WriteTarget(arg) == TargetIn(registry.Settings(), registry.rank, q, arg)
    decreases registry.rank[q]
  {
    SettingsWired(registry);
    if |arg| == q.numberOfElements && q.twin != null && q.twinInverse.Some? && q.twinInverse.value.Custom? {
      WriteTargetIn(registry, q.twin, q.twinInverse.value.f(arg));
    }
  }

  /** Read off the settings, the step of `charge` at a parameter is its `ChargeHead`. */
  lemma ChargeHeadIn(registry: Registry, q: Parameter, p: seq<real>, pStd: Option<seq<real>>, i: nat)
    requires registry.ValidGraph() && q in registry.all
    ensures Wired(registry.Settings(), registry.rank)
    ensures q.ChargeHead(p, pStd, i) == HeadIn(registry.Settings(), registry.rank, q, p, pStd, i)
    ensures registry.Settings()[q].numberOfElements == q.numberOfElements
  {
    var n := q.numberOfElements;
    if !(n == 1 && i >= |p|) {
      WriteTargetIn(registry, q, Piece(p, i, n));
    }
  }

  /** Read off the settings, `ChargePlan` is `PlanIn`. */
  lemma {:induction false} ChargePlanIn(registry: Registry, ts: seq<Parameter>, p: seq<real>,
                                        pStd: Option<seq<real>>, i: nat)
    requires registry.ValidGraph() && Members(registry, ts)
    ensures Wired(registry.Settings(), registry.rank) && forall t | t in ts :: t in registry.Settings()
    ensures ChargePlan(registry, ts, p, pStd, i) == PlanIn(registry.Settings(), registry.rank, ts, p, pStd, i)
    decreases |ts|
  {
    SettingsWired(registry);
    MembersAt(registry, ts);
    if ts != [] {
      ChargePlanIn(registry, ts[1..], p, pStd, i + ts[0].numberOfElements);
      ChargePlanStepIn(registry, ts, p, pStd, i);
    }
  }

  /** The inductive step of `ChargePlanIn`: when the plans agree after the first parameter,
      they agree from it on. */
  lemma ChargePlanStepIn(registry: Registry, ts: seq<Parameter>, p: seq<real>, pStd: Option<seq<real>>, i: nat)
    requires registry.ValidGraph() && ts != [] && Members(registry, ts)
    requires Wired(registry.Settings(), registry.rank) && forall t | t in ts :: t in registry.Settings()
    requires ChargePlan(registry, ts[1..], p, pStd, i + ts[0].numberOfElements)
             == PlanIn(registry.Settings(), registry.rank, ts[1..], p, pStd, i + ts[0].numberOfElements)
    ensures ChargePlan(registry, ts, p, pStd, i) == PlanIn(registry.Settings(), registry.rank, ts, p, pStd, i)
  {
    ChargePlanCons(registry, ts, p, pStd, i);
    PlanInThen(registry.Settings(), registry.rank, ts, p, pStd, i);
    ChargeHeadIn(registry, ts[0], p, pStd, i);
  }

  /** The loop of `charge` from the parameter `ts[0]` on, with the running offset at `i`: it
      follows the plan read off the settings `w` before it starts (it changes no setting), and
      assigns the deviations of the steps it completes to the leading parameters of `ts`. The
      observers its setters call, and the list they leave, are `want`: what `Notify` finds for
      the writes of the plan before it starts. */
  method ChargeFrom(registry: Registry, ts: seq<Parameter>, i: nat, p: seq<real>, pStd: Option<seq<real>>,
                    failing: set<Observer>, ghost w: map<Parameter, Setting>, ghost rank: map<Parameter, nat>,
                    ghost plan: Plan, ghost want: (seq<Observer>, seq<Observer>)) returns (r: Outcome, called: seq<Observer>)
    requires registry.Valid() && w == registry.Settings() && rank == registry.rank && Wired(w, rank)
    requires Members(registry, ts) && NoDup(ts) && forall t | t in ts :: t in w
    requires Planned(plan, w, rank, ts, p, pStd, i)
    requires want == Notify(registry.Stored(), plan.writes, registry.connected, failing)
    modifies registry`connected, registry.all`stored, ts`std
    decreases |ts|
    ensures registry.Valid() && registry.Settings() == w && registry.rank == rank
    ensures r == plan.outcome
    ensures registry.Stored() == Replay(old(registry.Stored()), plan.writes)
    ensures StdsOf(ts) == Assigned(old(StdsOf(ts)), plan.stds)
    ensures (called, registry.connected) == want
  {
    if ts == [] {
      return Pass, [];
    }
    var t := ts[0];
    ghost var olds := StdsOf(ts[1..]);
    var out: Outcome;
    var first: seq<Observer>;
    ghost var head: Plan, rest: Plan, wantRest;
    out, first, head, rest, wantRest := ChargeStep(registry, ts, p, pStd, i, failing, w, rank, plan, want);
    assert StdsOf(ts[1..]) == olds;
    if out.Fail? {
      return out, first;
    }
    var n := t.numberOfElements;
    label Mid:
    var later;
    r, later := ChargeFrom(registry, ts[1..], i + n, p, pStd, failing, w, rank, rest, wantRest);
    called := first + later;
    ReplayConcat(old(registry.Stored()), head.writes, rest.writes);
    assert t.std == old@Mid(t.std);
    if pStd.Some? {
      AssignedCons(old(t.std), olds, head.stds, rest.stds);
    }
  }

  /** The loop body of `charge` at `ts[0]`: it takes the first step of `plan`, and changes no
      setting of any parameter. `rest` is what is left of the plan after it, and `wantRest`
      what is left of the notifications `want` the plan makes. */
  method ChargeStep(registry: Registry, ts: seq<Parameter>, p: seq<real>, pStd: Option<seq<real>>, i: nat,
                    failing: set<Observer>, ghost w: map<Parameter, Setting>, ghost rank: map<Parameter, nat>,
                    ghost plan: Plan, ghost want: (seq<Observer>, seq<Observer>))
      returns (r: Outcome, called: seq<Observer>, ghost head: Plan, ghost rest: Plan,
               ghost wantRest: (seq<Observer>, seq<Observer>))
    requires registry.Valid() && ts != [] && ts[0].registry == registry && ts[0] in registry.all
    requires w == registry.Settings() && rank == registry.rank && Wired(w, rank) && forall t | t in ts :: t in w
    requires Planned(plan, w, rank, ts, p, pStd, i)
    requires want == Notify(registry.Stored(), plan.writes, registry.connected, failing)
    modifies registry`connected, registry.all`stored, (ts[0] as Parameter)`std
    ensures registry.Valid() && registry.Settings() == w && registry.rank == rank
    ensures r == head.outcome && |head.stds| <= 1
      && registry.Stored() == Replay(old(registry.Stored()), head.writes)
      && ts[0].std == if |head.stds| == 1 then Some(Known(head.stds[0])) else old(ts[0].std)
    ensures r.Fail? ==> (called, registry.connected) == want
    ensures r.Pass? ==>
      wantRest == Notify(registry.Stored(), rest.writes, registry.connected, failing)
      && want == (called + wantRest.0, wantRest.1)
    ensures Planned(rest, w, rank, ts[1..], p, pStd, i + ts[0].numberOfElements)
    ensures if r.Fail? then plan == head && head.stds == []
      else (plan == Plan(head.writes + rest.writes, head.stds + rest.stds, rest.outcome)
            && (pStd.Some? ==> |head.stds| == 1) && (pStd.None? ==> head.stds == [] == rest.stds))
  {
    var t := ts[0];
    assert w[t].numberOfElements == t.numberOfElements;
    head, rest := PlanStep(w, rank, ts, p, pStd, i, plan);
    ghost var s0, c0 := registry.Stored(), registry.connected;
    r, called := ChargeAtIn(registry, t, p, pStd, i, failing, w, rank, head);
    wantRest := Notify(registry.Stored(), rest.writes, registry.connected, failing);
    NotifySplit(s0, head.writes, rest.writes, c0, failing, called, registry.connected, registry.Stored(), wantRest);
  }

  /** `ChargeAt` with its step read off the settings `w`, which it leaves as they are. */
  method ChargeAtIn(registry: Registry, t: Parameter, p: seq<real>, pStd: Option<seq<real>>, i: nat,
                    failing: set<Observer>, ghost w: map<Parameter, Setting>, ghost rank: map<Parameter, nat>,
                    ghost head: Plan) returns (r: Outcome, called: seq<Observer>)
    requires registry.Valid() && t.registry == registry && t in registry.all
    requires w == registry.Settings() && rank == registry.rank && Wired(w, rank) && t in w
    requires head == HeadIn(w, rank, t, p, pStd, i)
    modifies registry`connected, registry.all`stored, t`std
    ensures registry.Valid() && registry.Settings() == w && registry.rank == rank
    ensures r == head.outcome
      && registry.Stored() == Replay(old(registry.Stored()), head.writes)
      && t.std == if |head.stds| == 1 then Some(Known(head.stds[0])) else old(t.std)
    ensures |head.writes| <= 1
    ensures (called, registry.connected) == HeadCalls(old(registry.Stored()), head.writes, old(registry.connected), failing)
  {
    ChargeHeadIn(registry, t, p, pStd, i);
    r, called := t.ChargeAt(p, pStd, i, failing, head);
  }

  class Component {
    const registry: Registry
    /** The parameters, in the order of the names the component was built with; filled by
        `init_parameters` and frozen into a tuple, so no later operation reassigns it. */
    var parameters: seq<Parameter>
    /** `free_parameters` */
    var freeParameters: set<Parameter>
    /** `_nfree_param` */
    var nFreeParam: nat
    /** `nparam` */
    var nParam: nat
    /** `__active` */
    var active: bool
    /** The component's own `connected_functions` (one list per component). */
    var connected: seq<Observer>
    var name: string

    /** The parameters are distinct, belong to this component and to the registry, and the free
        set is drawn from them. */
    ghost predicate Valid()
      reads this`parameters, this`freeParameters, registry`all, parameters`component
    {
      NoDup(parameters)
      && (forall p | p in parameters :: p.component == this && p.registry == registry && p in registry.all)
      && (forall p | p in freeParameters :: p in parameters)
    }

    /** Each map has one record per position, and no two parameters share a map. */
    ghost predicate MapsValid()
      reads this`parameters, parameters`pixelMap, parameters`mapShape
    {
      (forall p | p in parameters :: p.MapShaped())
      && (forall i, j {:trigger MapOf(parameters[i]), MapOf(parameters[j])} | 0 <= i < j < |parameters| ::
            MapOf(parameters[i]) == null || MapOf(parameters[i]) != MapOf(parameters[j]))
    }

    /** The state `Component(parameter_name_list)` leaves: the component is valid, its
        parameters are pristine and carry the given names in order, all of them are free and
        each counts one element. */
    ghost predicate Initial(names: seq<string>)
      reads this`parameters, this`freeParameters, this`nFreeParam, registry`all, parameters`component
      reads parameters`pixelMap, parameters`mapShape, parameters`name, parameters`stored
      reads parameters`numberOfElements, parameters`twin, parameters`freeFlag
    {
      Valid() && MapsValid() && FreeSetCurrent() && Built(parameters, names)
      && (forall p | p in parameters :: p in freeParameters)
      && nFreeParam == |names|
    }

    /** `free_parameters` and `_nfree_param` agree with the present `free` flags. */
    ghost predicate FreeSetCurrent()
      reads this`parameters, this`freeParameters, this`nFreeParam
      reads parameters`twin, parameters`freeFlag, parameters`numberOfElements
    {
      freeParameters == FreeSet(parameters) && nFreeParam == FreeSizeOfSeq(parameters)
    }

    /** `Component(parameter_name_list)`: one fresh parameter per name, in order, each owned by
        the component; all are free, so the free set is all of them and counts one element
        each; the component is active and has no observers. */
    constructor (registry: Registry, names: seq<string>)
      requires registry.Valid()
      modifies registry`all, registry`rank
      ensures this.registry == registry && Initial(names)
      ensures forall k | 0 <= k < |parameters| :: fresh(parameters[k])
      ensures registry.Valid() && registry.all == old(registry.all) + Elements(parameters)
      ensures registry.twins == old(registry.twins) && registry.connected == old(registry.connected)
      ensures active && connected == [] && name == ""
    {
      this.registry := registry;
      parameters := [];
      freeParameters := {};
      nFreeParam := 0;
      nParam := 0;
      active := true;
      connected := [];
      name := "";
      new;
      InitParameters(names);
      FreeAll(names);
    }

    /** Computes the free set of a freshly built component: every parameter is free and
        counts one element. */
    method FreeAll(ghost names: seq<string>)
      requires Valid() && Built(parameters, names)
      modifies this`freeParameters, this`nFreeParam
      ensures Initial(names)
      ensures unchanged(this`active, this`connected, this`name)
    {
      BuiltIsFree(parameters, names);
      UpdateFreeParameters();
    }

    /** `init_parameters`: one fresh parameter per name, in order, each named and owned by
        this component as soon as it is made. */
    method InitParameters(names: seq<string>)
      requires registry.Valid() && parameters == [] && freeParameters == {}
      modifies this`parameters, registry`all, registry`rank
      ensures unchanged(this`active, this`connected, this`name)
      ensures Valid() && Built(parameters, names)
      ensures forall j | 0 <= j < |parameters| :: fresh(parameters[j])
      ensures registry.Valid() && registry.all == old(registry.all) + Elements(parameters)
      ensures registry.twins == old(registry.twins) && registry.connected == old(registry.connected)
    {
      var k := 0;
      while k < |names|
        invariant k <= |names| && |parameters| == k && NoDup(parameters)
        invariant registry.Valid() && registry.all == old(registry.all) + Elements(parameters)
        invariant registry.twins == old(registry.twins) && registry.connected == old(registry.connected)
        invariant Built(parameters, names[..k])
        invariant forall j | 0 <= j < k ::
          fresh(parameters[j]) && parameters[j].registry == registry && parameters[j] in registry.all
          && parameters[j].component == this
      {
        ghost var before := parameters;
        var p := AddParameter(names[k]);
        NoDupSnoc(before, p);
        BuiltStep(before, names, k, p);
        k := k + 1;
      }
    }

    /** One step of `init_parameters`: a fresh pristine parameter, named and owned by this
        component, appended to the parameters and registered. */
    method AddParameter(name: string) returns (p: Parameter)
      requires registry.Valid()
      modifies this`parameters, registry`all, registry`rank
      ensures fresh(p) && p.registry == registry && p.name == name && p.component == this && p.Pristine()
      ensures parameters == old(parameters) + [p]
      ensures registry.Valid() && registry.all == old(registry.all) + {p}
      ensures registry.twins == old(registry.twins) && registry.connected == old(registry.connected)
    {
      p := new Parameter(registry);
      p.name := name;
      p.component := this;
      parameters := parameters + [p];
    }

    static lemma FreeSetStep(ps: seq<Parameter>, k: nat)
      requires k < |ps|
      ensures FreeSet(ps[..k + 1]) == FreeSet(ps[..k]) + if ps[k].Free() then {ps[k]} else {}
    {
      assert ps[..k + 1] == ps[..k] + [ps[k]];
    }

    /** Freshly built parameters are all free, have one element each and have no map. */
    static lemma {:induction false} BuiltIsFree(ps: seq<Parameter>, names: seq<string>)
      requires Built(ps, names)
      ensures forall p | p in ps :: p in FreeSet(ps)
      ensures FreeSizeOfSeq(ps) == |ps|
      ensures forall p | p in ps :: p.MapShaped()
      ensures forall i | 0 <= i < |ps| :: ps[i].pixelMap == null
    {
      if ps != [] {
        BuiltIsFree(ps[1..], names[1..]);
      }
    }

    /** `_update_free_parameters`: collects the parameters whose `free` reads true, then sums
        their numbers of elements by walking that set. */
    method UpdateFreeParameters()
      requires Valid()
      modifies this`freeParameters, this`nFreeParam
      ensures Valid() && FreeSetCurrent()
    {
      var fs := CollectFree(parameters);
      freeParameters := fs;
      nFreeParam := SumElements(fs);
      FreeSizeOfSet(parameters);
    }

    /** The first loop of `_update_free_parameters`. */
    static method CollectFree(ps: seq<Parameter>) returns (fs: set<Parameter>)
      ensures fs == FreeSet(ps)
    {
      fs := {};
      var k := 0;
      while k < |ps|
        invariant k <= |ps|
        invariant fs == FreeSet(ps[..k])
      {
        FreeSetStep(ps, k);
        if ps[k].Free() {
          fs := fs + {ps[k]};
        }
        k := k + 1;
      }
      assert ps[..k] == ps;
    }

    /** The second loop of `_update_free_parameters`, over a set in whatever order it yields. */
    static method SumElements(fs: set<Parameter>) returns (i: nat)
      ensures i == SizeOf(fs)
    {
      i := 0;
      var rest := fs;
      while rest != {}
        invariant rest <= fs
        invariant i + SizeOf(rest) == SizeOf(fs)
        decreases |rest|
      {
        var p :| p in rest;
        SizeOfRemove(rest, p);
        i := i + p.numberOfElements;
        rest := rest - {p};
      }
    }

    /** `update_number_parameters`: the sum of the numbers of elements of all parameters. */
    method UpdateNumberParameters()
      requires Valid()
      modifies this`nParam
      ensures nParam == SizeOfSeq(parameters)
      ensures FreeSetCurrent() ==> nFreeParam <= nParam
    {
      var i := 0;
      var k := |parameters|;
      while k > 0
        invariant 0 <= k <= |parameters|
        invariant i == SizeOfSeq(parameters[k..])
      {
        k := k - 1;
        assert parameters[k..][1..] == parameters[k + 1..];
        i := i + parameters[k].numberOfElements;
      }
      nParam := i;
      FreeSizeOfSet(parameters);
    }

    /** `charge`: walks the parameters (the free ones, in the order `order` enumerates that
        set, when `onlyFree`), hands each its piece of `p` through the `value` setter and,
        when `pStd` is given, its piece of `pStd` as `std`, stopping at the first error.
        `called` lists the observers the setters called, in order. */
    method Charge(p: seq<real>, pStd: Option<seq<real>>, onlyFree: bool, order: seq<Parameter>,
                  failing: set<Observer>) returns (r: Outcome, called: seq<Observer>)
      requires Valid() && registry.Valid()
      requires onlyFree ==> NoDup(order) && forall t :: t in order <==> t in freeParameters
      modifies registry`connected, registry.all`stored, parameters`std
      ensures registry.Valid()
      ensures old(Members(registry, if onlyFree then order else parameters))
      ensures var ts := if onlyFree then order else parameters;
        var plan := old(ChargePlan(registry, ts, p, pStd, 0));
        r == plan.outcome
        && registry.Stored() == Replay(old(registry.Stored()), plan.writes)
        && StdsOf(ts) == Assigned(old(StdsOf(ts)), plan.stds)
        && (called, registry.connected) == Notify(old(registry.Stored()), plan.writes, old(registry.connected), failing)
        && forall q | q in parameters && q !in ts :: q.std == old(q.std)
    {
      var ts := if onlyFree then order else parameters;
      assert forall k | 0 <= k < |ts| :: ts[k] in parameters;
      MembersAt(registry, ts);
      ChargePlanIn(registry, ts, p, pStd, 0);
      ghost var plan := PlanIn(registry.Settings(), registry.rank, ts, p, pStd, 0);
      r, called := ChargeFrom(registry, ts, 0, p, pStd, failing, registry.Settings(), registry.rank, plan,
                              Notify(registry.Stored(), plan.writes, registry.connected, failing));
    }

    /** What `create_array` did at `q` since the earlier state. */
    static twostate predicate Created(q: Parameter, shape: seq<nat>, givenAsTuple: bool)
      reads q`pixelMap, q.pixelMap, q`mapShape, q`mapWidth, q`numberOfElements, q`std
    {
      q.pixelMap != null
      && q.ArrayMade(shape, old(q.KeepsMap(shape, givenAsTuple)), old(q.pixelMap), old(q.mapShape),
                     old(q.mapWidth), old(q.std))
      && (!old(q.KeepsMap(shape, givenAsTuple)) ==> fresh(q.pixelMap))
    }

    /** `create_array` has not yet reached `q`. */
    static twostate predicate Untouched(q: Parameter)
      reads q`pixelMap, q`mapShape, q`mapWidth, q`std
    {
      unchanged(q`pixelMap, q`mapShape, q`mapWidth, q`std)
    }

    /** `create_arrays`: `create_array` at every parameter, in order. */
    method CreateArrays(shape: seq<nat>, givenAsTuple: bool)
      requires Valid() && MapsValid()
      modifies parameters`pixelMap, parameters`mapShape, parameters`mapWidth, parameters`std
      ensures Valid() && MapsValid()
      ensures forall k | 0 <= k < |parameters| :: Created(parameters[k], shape, givenAsTuple)
    {
      var i := 0;
      while i < |parameters|
        invariant 0 <= i <= |parameters|
        invariant MapsValid()
        invariant forall k | 0 <= k < i :: Created(parameters[k], shape, givenAsTuple)
        invariant forall k | i <= k < |parameters| :: Untouched(parameters[k])
      {
        CreateArrayAt(i, shape, givenAsTuple);
        i := i + 1;
      }
    }

    /** One iteration of `create_arrays`: the map of the parameter at `i` is remade or kept,
        and no two parameters come to share a map. */
    method CreateArrayAt(i: nat, shape: seq<nat>, givenAsTuple: bool)
      requires i < |parameters| && MapsValid()
      requires NoDup(parameters)
      modifies (parameters[i] as Parameter)`pixelMap, (parameters[i] as Parameter)`mapShape, (parameters[i] as Parameter)`mapWidth, (parameters[i] as Parameter)`std
      ensures MapsValid() && Created(parameters[i], shape, givenAsTuple)
      ensures forall k | 0 <= k < |parameters| && k != i :: parameters[k] != parameters[i]
    {
      NoDupAt(parameters);
      parameters[i].CreateArray(shape, givenAsTuple);
    }

    /** A map that `store_current_value_in_array` left as `want` says, with the outcome `r`,
        or the error it raised for a missing map. */
    static twostate predicate StoreDid(q: Parameter, r: Outcome, new want: (Outcome, seq<Cell>))
      reads q`pixelMap, q.pixelMap
    {
      if q.pixelMap == null then r == want.0
      else old(q.pixelMap) == q.pixelMap && (r, q.pixelMap[..]) == want
    }

    /** `store_current_parameters_in_map`: the empty index of a single spectrum becomes `(0,)`;
        then `store_current_value_in_array` at every parameter in order, stopping at the first
        that raises, whose position is `n`. Each map it reaches ends as `StoreOutcome` said
        before the call. */
    method StoreCurrentParametersInMap(idx: seq<int>) returns (r: Outcome, ghost n: nat)
      requires Valid() && MapsValid() && registry.ValidGraph()
      modifies set q | q in parameters && q.pixelMap != null :: q.pixelMap
      ensures n <= |parameters| && (r == Pass <==> n == |parameters|)
      ensures forall k | 0 <= k < n :: StoreDid(parameters[k], Pass, old(parameters[k].StoreOutcome(NormalizeIndex(idx))))
      ensures n < |parameters| ==> StoreDid(parameters[n], r, old(parameters[n].StoreOutcome(NormalizeIndex(idx))))
      ensures forall k | n < k < |parameters| :: parameters[k].pixelMap == null || unchanged(parameters[k].pixelMap)
    {
      var ix := NormalizeIndex(idx);
      var i := 0;
      while i < |parameters|
        invariant 0 <= i <= |parameters|
        invariant forall k | 0 <= k < i :: StoreDid(parameters[k], Pass, old(parameters[k].StoreOutcome(ix)))
        invariant forall k | i <= k < |parameters| :: parameters[k].pixelMap == null || unchanged(parameters[k].pixelMap)
      {
        r := StoreAt(i, ix);
        if r.Fail? {
          n := i;
          return;
        }
        i := i + 1;
      }
      r, n := Pass, i;
    }

    /** One iteration of `store_current_parameters_in_map`; the map it writes is no other
        parameter's. */
    method StoreAt(i: nat, idx: seq<int>) returns (r: Outcome)
      requires i < |parameters| && Valid() && MapsValid() && registry.ValidGraph()
      modifies parameters[i].pixelMap
      ensures StoreDid(parameters[i], r, old(parameters[i].StoreOutcome(idx)))
      ensures forall k | 0 <= k < |parameters| && k != i ::
        parameters[k].pixelMap == null || parameters[k].pixelMap != parameters[i].pixelMap
    {
      var q := parameters[i];
      assert forall k | 0 <= k < |parameters| && k != i ::
        MapOf(parameters[k]) == null || MapOf(parameters[k]) != MapOf(q);
      r := q.StoreCurrentValueInArray(idx);
    }

    /** `charge_value_from_map`: the empty index of a single spectrum becomes `(0,)`; the
        parameters walked are all of them, or, when `onlyFixed`, those outside the free set in
        the order `order` enumerates them; twinned ones are skipped; each other one loads its
        record at the index, stopping at the first that raises, whose position is `n`. Every
        parameter before `n` holds what `Charged` gives; the rest keep value and deviation. */
    method ChargeValueFromMap(idx: seq<int>, onlyFixed: bool, order: seq<Parameter>, failing: set<Observer>)
      returns (r: Outcome, ghost n: nat)
      requires Valid() && MapsValid() && registry.Valid()
      requires onlyFixed ==> NoDup(order) && forall t :: t in order <==> t in parameters && t !in freeParameters
      modifies registry`connected, registry.all`stored, parameters`std
      ensures registry.Valid()
      ensures var ts := if onlyFixed then order else parameters;
        n <= |ts| && (r == Pass <==> n == |ts|)
        && (n < |ts| ==> ts[n].twin == null && r == old(ts[n].Load(NormalizeIndex(idx))).0)
        && (forall k | 0 <= k < n :: old(ts[k].twin == null ==> ts[k].Load(NormalizeIndex(idx)).0 == Pass))
        && (forall k | 0 <= k < n :: (ts[k].stored, ts[k].std) == old(ts[k].Charged(NormalizeIndex(idx))))
        && (forall k | n <= k < |ts| :: ts[k].stored == old(ts[k].stored) && ts[k].std == old(ts[k].std))
        && (forall q | q in registry.all && q !in ts :: q.stored == old(q.stored))
        && (forall q | q in parameters && q !in ts :: q.std == old(q.std))
    {
      var ts := if onlyFixed then order else parameters;
      assert forall q | q in ts :: q in parameters;
      assert forall q | q in ts :: q in registry.all && q.MapShaped();
      r, n := ChargeEach(registry, ts, NormalizeIndex(idx), failing);
    }

    /** The loop of `charge_value_from_map` over the parameters `ts` it walks. */
    static method ChargeEach(reg: Registry, ts: seq<Parameter>, ix: seq<int>, failing: set<Observer>) returns (r: Outcome, ghost n: nat)
      requires reg.Valid() && NoDup(ts)
      requires forall q | q in ts :: q in reg.all && q.MapShaped()
      modifies reg`connected, reg.all`stored
      modifies set q | q in ts :: q`std
      ensures reg.Valid()
      ensures n <= |ts| && (r == Pass <==> n == |ts|)
      ensures n < |ts| ==> ts[n].twin == null && r == old(ts[n].Load(ix)).0
      ensures forall k | 0 <= k < n :: old(ts[k].twin == null ==> ts[k].Load(ix).0 == Pass)
      ensures forall k | 0 <= k < n :: (ts[k].stored, ts[k].std) == old(ts[k].Charged(ix))
      ensures forall k | n <= k < |ts| :: ts[k].stored == old(ts[k].stored) && ts[k].std == old(ts[k].std)
      ensures forall q | q in reg.all && q !in ts :: q.stored == old(q.stored)
    {
      var i := 0;
      while i < |ts|
        invariant 0 <= i <= |ts| && reg.Valid()
        invariant forall k | 0 <= k < i :: old(ts[k].twin == null ==> ts[k].Load(ix).0 == Pass)
        invariant forall k | 0 <= k < i :: (ts[k].stored, ts[k].std) == old(ts[k].Charged(ix))
        invariant forall k | i <= k < |ts| :: ts[k].stored == old(ts[k].stored) && ts[k].std == old(ts[k].std)
        invariant forall q | q in reg.all && q !in ts :: q.stored == old(q.stored)
      {
        r := LoadAt(reg, ts, i, ix, failing, old(ts[i].Load(ix)), old(ts[i].Charged(ix)));
        if r.Fail? {
          n := i;
          return;
        }
        i := i + 1;
      }
      r, n := Pass, i;
    }

    /** One iteration of `charge_value_from_map`, at the `i`-th of `ts`: it passes at a
        twinned parameter and otherwise reports what `Load` found; on success the parameter
        holds what `Charged` gives, and on an error it keeps value and deviation. */
    static method LoadAt(reg: Registry, ts: seq<Parameter>, i: nat, idx: seq<int>, failing: set<Observer>,
                         ghost load0: (Outcome, Option<Cell>), ghost want: (seq<real>, Option<seq<Option<real>>>))
      returns (r: Outcome)
      requires i < |ts| && NoDup(ts) && reg.Valid()
      requires forall q | q in ts :: q in reg.all && q.MapShaped()
      requires load0 == ts[i].Load(idx) && want == ts[i].Charged(idx)
      modifies reg`connected, reg.all`stored, (ts[i] as Parameter)`std
      ensures reg.Valid()
      ensures ts[i].twin == null ==> r == load0.0
      ensures ts[i].twin != null ==> r == Pass
      ensures (ts[i].stored, ts[i].std) == if r == Pass then want else old((ts[i].stored, ts[i].std))
      ensures forall q | q in reg.all && q != ts[i] :: q.stored == old(q.stored)
      ensures forall k | 0 <= k < |ts| && k != i :: ts[k] != ts[i] && ts[k].stored == old(ts[k].stored)
    {
      NoDupAt(ts);
      var q := ts[i];
      if q.twin == null {
        r := q.LoadCell(idx, failing);
      } else {
        r := Pass;
      }
    }

    /** `connect` of the component's own list. */
    method Connect(f: Observer)
      modifies this`connected
      ensures connected == if f in old(connected) then old(connected) else old(connected) + [f]
    {
      if f !in connected {
        connected := connected + [f];
      }
    }

    /** `disconnect` of the component's own list. */
    method Disconnect(f: Observer)
      modifies this`connected
      ensures connected == RemoveFirst(old(connected), f)
    {
      if f in connected {
        connected := RemoveFirst(connected, f);
      }
    }

    /** The `active` setter: stores the flag, then calls every observer of the component's list,
        walking it while it shrinks and disconnecting each one in `failing`. */
    method SetActive(arg: bool, failing: set<Observer>) returns (called: seq<Observer>)
      modifies this`active, this`connected
      ensures active == arg
      ensures (called, connected) == LiveSweep(old(connected), failing)
    {
      active := arg;
      called := [];
      var i := 0;
      assert called + LiveFrom(connected, i, failing).0 == LiveFrom(connected, i, failing).0;
      while i < |connected|
        invariant active == arg
        invariant (called + LiveFrom(connected, i, failing).0, LiveFrom(connected, i, failing).1)
               == LiveSweep(old(connected), failing)
        decreases |connected| - i
      {
        var f := connected[i];
        ghost var step := LiveFrom(connected, i, failing);
        ghost var rest := LiveFrom(if f in failing then RemoveFirst(connected, f) else connected, i + 1, failing);
        assert step == ([f] + rest.0, rest.1);
        assert called + step.0 == (called + [f]) + rest.0;
        called := called + [f];
        if f in failing {
          Disconnect(f);
        }
        i := i + 1;
      }
      assert called + LiveFrom(connected, i, failing).0 == called;
    }
  }
}
