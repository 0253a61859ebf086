/** The scope-entry engine of src/lib.rs.  Every isolate has one `EffectiveScope`
    table: a `lastEntered` pointer, which with each header's `prior` forms an
    intrusive stack of entered scopes, and one current slot each for the context,
    the escape slot and the try-catch.  A scope is a header plus two aspects;
    entering it pushes the header and installs the aspects' values in the table,
    exiting it restores what they displaced.

    Pointers are object identities.  A Rust panic is the returned `Status`; the
    fields hold what they hold at the moment the Rust code panics.  The calls into
    V8 are entries of the ghost log `calls`. */
module ScopeEngine {
  import opened Outcomes

  /** The V8 objects the table points at, as identities only. */
  class Isolate {
    constructor () { }
  }

  class NativeContext {
    constructor () { }
  }

  /** A `Local` cell allocated by `v8__Local__New`, used as an escape slot. */
  class Slot {
    constructor () { }
  }

  /** The storage of a `v8::HandleScope` inside a HandleScope aspect. */
  class RawHandleScope {
    constructor () { }
  }

  /** The storage of a `v8::TryCatch` inside a TryCatch aspect. */
  class RawTryCatch {
    constructor () { }
  }

  /** A call into V8, in the order the engine makes them. */
  datatype NativeCall =
    | ContextEnter(context: NativeContext)
    | ContextExit(context: NativeContext)
    | HandleScopeConstruct(handleScope: RawHandleScope, isolate: Isolate)
    | HandleScopeDestruct(handleScope: RawHandleScope)
    | Undefined(isolate: Isolate)
    | LocalNew(isolate: Isolate)
    | TryCatchConstruct(tryCatch: RawTryCatch, isolate: Isolate)
    | TryCatchDestruct(tryCatch: RawTryCatch)

  /** Why the Rust code panics: a failed `assert_eq!`, an `unwrap()` of `None`,
      a failed `assert!(none.is_none())`, or "cannot use scope while it is shadowed". */
  datatype PanicReason = NotEqual | UnwrapNone | PriorNotEmpty | Shadowed

  datatype Status = Ok | Panic(reason: PanicReason)

  /** The four pointers of an `EffectiveScope`. */
  datatype Table = Table(lastEntered: Header?, context: NativeContext?, escapeSlot: Slot?, tryCatch: RawTryCatch?)

  /** `EffectiveScope`: the per-isolate table of what is currently entered. */
  class EffectiveScope {
    const isolate: Isolate
    var lastEntered: Header?
    var context: NativeContext?
    var escapeSlot: Slot?
    var tryCatch: RawTryCatch?
    ghost var calls: seq<NativeCall>

    constructor (isolate: Isolate)
      ensures this.isolate == isolate
      ensures Snapshot() == Table(null, null, null, null)
      ensures calls == []
    {
      this.isolate := isolate;
      lastEntered, context, escapeSlot, tryCatch := null, null, null, null;
      calls := [];
    }

    function Snapshot(): Table
      reads this
    {
      Table(lastEntered, context, escapeSlot, tryCatch)
    }
  }

  /** `data2::Header`: a scope's link into the stack of entered scopes. */
  class Header {
    const effectiveScope: EffectiveScope
    var prior: Header?

    constructor (effectiveScope: EffectiveScope)
      ensures this.effectiveScope == effectiveScope
      ensures prior == null
    {
      this.effectiveScope := effectiveScope;
      prior := null;
    }

    /** `enter`: makes this header `last_entered`.  The first time it stores the
        displaced value as `prior`; later it asserts the displaced value is `prior`. */
    method Enter() returns (s: Status)
      modifies effectiveScope, this
      ensures effectiveScope.Snapshot() == old(effectiveScope.Snapshot()).(lastEntered := this)
      ensures effectiveScope.calls == old(effectiveScope.calls)
      ensures prior == if old(prior) == null then old(effectiveScope.lastEntered) else old(prior)
      ensures s == if old(prior) == null || old(prior) == old(effectiveScope.lastEntered) then Ok else Panic(NotEqual)
    {
      var priorRef := effectiveScope.lastEntered;
      effectiveScope.lastEntered := this;
      if prior != null {
        if prior != priorRef {
          return Panic(NotEqual);
        }
      } else {
        prior := priorRef;
      }
      return Ok;
    }

    /** `exit`: puts `prior` back into `last_entered`; panics when nothing was
        entered, or when the header it took out is not this one. */
    method Exit() returns (s: Status)
      modifies effectiveScope
      ensures effectiveScope.Snapshot() == old(effectiveScope.Snapshot()).(lastEntered := prior)
      ensures effectiveScope.calls == old(effectiveScope.calls)
      ensures s == ExitOutcome(old(effectiveScope.lastEntered))
    {
      var exited := effectiveScope.lastEntered;
      effectiveScope.lastEntered := prior;
      if exited == null {
        return Panic(UnwrapNone);
      }
      if exited != this {
        return Panic(NotEqual);
      }
      return Ok;
    }

    /** What `exit` reports when `exited` is the header it takes off the table. */
    function ExitOutcome(exited: Header?): (s: Status)
      ensures s == Ok <==> exited == this
      ensures s == Panic(UnwrapNone) <==> exited == null
    {
      if exited == null then Panic(UnwrapNone)
      else if exited != this then Panic(NotEqual)
      else Ok
    }

    /** `has_scope_been_entered`: true when this header is on top, false when the
        top is still what it displaced (or would displace), a panic otherwise. */
    function HasScopeBeenEntered(): (r: Result<bool, PanicReason>)
      reads this, effectiveScope
      ensures r == Success(true) <==> effectiveScope.lastEntered == this
      ensures r == Success(false) <==> effectiveScope.lastEntered != this && effectiveScope.lastEntered == prior
      ensures r.Failure? <==> effectiveScope.lastEntered != this && effectiveScope.lastEntered != prior
      ensures r.Failure? ==> r.error == Shadowed
    {
      if effectiveScope.lastEntered == this then Success(true)
      else if effectiveScope.lastEntered == prior then Success(false)
      else Failure(Shadowed)
    }
  }

  /** `aspect::Context`: installs a context in the table's context slot. */
  class ContextAspect {
    const context: NativeContext
    var prior: NativeContext?

    constructor (context: NativeContext)
      ensures this.context == context && prior == null
    {
      this.context := context;
      prior := null;
    }

    method Enter(es: EffectiveScope) returns (s: Status)
      modifies es, this
      ensures es.Snapshot() == old(es.Snapshot()).(context := context)
      ensures prior == old(es.context)
      ensures s == if old(prior) == null then Ok else Panic(PriorNotEmpty)
      ensures es.calls == old(es.calls) + if s.Ok? then [ContextEnter(context)] else []
    {
      var displaced := es.context;
      es.context := context;
      var none := prior;
      prior := displaced;
      if none != null {
        return Panic(PriorNotEmpty);
      }
      es.calls := es.calls + [ContextEnter(context)];
      return Ok;
    }

    method Exit(es: EffectiveScope) returns (s: Status)
      modifies es, this
      ensures prior == null
      ensures es.Snapshot() == old(es.Snapshot()).(context := old(prior))
      ensures s == if old(es.context) == null then Panic(UnwrapNone)
                   else if old(es.context) != context then Panic(NotEqual)
                   else Ok
      ensures es.calls == old(es.calls) + if s.Ok? then [ContextExit(context)] else []
    {
      var saved := prior;
      prior := null;
      var current := es.context;
      es.context := saved;
      if current == null {
        return Panic(UnwrapNone);
      }
      if current != context {
        return Panic(NotEqual);
      }
      es.calls := es.calls + [ContextExit(context)];
      return Ok;
    }
  }

  /** `aspect::HandleScope`: constructs and destructs a V8 handle scope; it has
      no slot in the table. */
  class HandleScopeAspect {
    const raw: RawHandleScope

    constructor ()
      ensures fresh(raw)
    {
      raw := new RawHandleScope();
    }

    method Enter(es: EffectiveScope) returns (s: Status)
      modifies es
      ensures s == Ok
      ensures es.Snapshot() == old(es.Snapshot())
      ensures es.calls == old(es.calls) + [HandleScopeConstruct(raw, es.isolate)]
    {
      es.calls := es.calls + [HandleScopeConstruct(raw, es.isolate)];
      return Ok;
    }

    method Exit(es: EffectiveScope) returns (s: Status)
      modifies es
      ensures s == Ok
      ensures es.Snapshot() == old(es.Snapshot())
      ensures es.calls == old(es.calls) + [HandleScopeDestruct(raw)]
    {
      es.calls := es.calls + [HandleScopeDestruct(raw)];
      return Ok;
    }
  }

  /** `aspect::EscapeSlot`: installs a freshly allocated `Local` as the escape slot. */
  class EscapeSlotAspect {
    var prior: Slot?

    constructor ()
      ensures prior == null
    {
      prior := null;
    }

    method Enter(es: EffectiveScope) returns (s: Status)
      modifies es, this
      ensures fresh(es.escapeSlot)
      ensures es.Snapshot() == old(es.Snapshot()).(escapeSlot := es.escapeSlot)
      ensures prior == old(es.escapeSlot)
      ensures s == if old(prior) == null then Ok else Panic(PriorNotEmpty)
      ensures es.calls == old(es.calls) + [Undefined(es.isolate), LocalNew(es.isolate)]
    {
      es.calls := es.calls + [Undefined(es.isolate), LocalNew(es.isolate)];
      var slot := new Slot();
      var displaced := es.escapeSlot;
      es.escapeSlot := slot;
      var none := prior;
      prior := displaced;
      if none != null {
        return Panic(PriorNotEmpty);
      }
      return Ok;
    }

    /** Restores the saved slot; only checks that some slot was installed. */
    method Exit(es: EffectiveScope) returns (s: Status)
      modifies es, this
      ensures prior == null
      ensures es.Snapshot() == old(es.Snapshot()).(escapeSlot := old(prior))
      ensures s == if old(es.escapeSlot) == null then Panic(UnwrapNone) else Ok
      ensures es.calls == old(es.calls)
    {
      var saved := prior;
      prior := null;
      var current := es.escapeSlot;
      es.escapeSlot := saved;
      if current == null {
        return Panic(UnwrapNone);
      }
      return Ok;
    }
  }

  /** `aspect::TryCatch`: constructs a V8 try-catch in its own storage and
      installs it in the table's try-catch slot. */
  class TryCatchAspect {
    const raw: RawTryCatch
    var prior: RawTryCatch?

    constructor ()
      ensures fresh(raw) && prior == null
    {
      raw := new RawTryCatch();
      prior := null;
    }

    method Enter(es: EffectiveScope) returns (s: Status)
      modifies es, this
      ensures es.Snapshot() == old(es.Snapshot()).(tryCatch := raw)
      ensures prior == old(es.tryCatch)
      ensures s == if old(prior) == null then Ok else Panic(PriorNotEmpty)
      ensures es.calls == old(es.calls) + [TryCatchConstruct(raw, es.isolate)]
    {
      es.calls := es.calls + [TryCatchConstruct(raw, es.isolate)];
      var displaced := es.tryCatch;
      es.tryCatch := raw;
      var none := prior;
      prior := displaced;
      if none != null {
        return Panic(PriorNotEmpty);
      }
      return Ok;
    }

    method Exit(es: EffectiveScope) returns (s: Status)
      modifies es, this
      ensures prior == null
      ensures es.Snapshot() == old(es.Snapshot()).(tryCatch := old(prior))
      ensures s == if old(es.tryCatch) == null then Panic(UnwrapNone)
                   else if old(es.tryCatch) != raw then Panic(NotEqual)
                   else Ok
      ensures es.calls == old(es.calls) + if s.Ok? then [TryCatchDestruct(raw)] else []
    {
      var saved := prior;
      prior := null;
      var current := es.tryCatch;
      es.tryCatch := saved;
      if current == null {
        return Panic(UnwrapNone);
      }
      if current != raw {
        return Panic(NotEqual);
      }
      es.calls := es.calls + [TryCatchDestruct(raw)];
      return Ok;
    }
  }

  /** One of the two aspects of a scope: `()` or one of the four aspect types. */
  datatype Aspect =
    | NoAspect
    | ContextOf(context: ContextAspect)
    | HandleScopeOf(handleScope: HandleScopeAspect)
    | EscapeSlotOf(escapeSlot: EscapeSlotAspect)
    | TryCatchOf(tryCatch: TryCatchAspect)
  {
    ghost function Repr(): set<object> {
      match this
      case NoAspect => {}
      case ContextOf(a) => {a}
      case HandleScopeOf(a) => {a}
      case EscapeSlotOf(a) => {a}
      case TryCatchOf(a) => {a}
    }

    /** Nothing is saved: the aspect is not entered. */
    predicate Idle()
      reads Repr()
    {
      match this
      case ContextOf(a) => a.prior == null
      case EscapeSlotOf(a) => a.prior == null
      case TryCatchOf(a) => a.prior == null
      case _ => true
    }

    /** What the aspect saved is the slot it displaced from `t`. */
    predicate Saves(t: Table)
      reads Repr()
    {
      match this
      case ContextOf(a) => a.prior == t.context
      case EscapeSlotOf(a) => a.prior == t.escapeSlot
      case TryCatchOf(a) => a.prior == t.tryCatch
      case _ => true
    }

    /** The table once the aspect has installed its value (`slot` for an escape slot). */
    function Installed(t: Table, slot: Slot?): Table {
      match this
      case ContextOf(a) => t.(context := a.context)
      case EscapeSlotOf(_) => t.(escapeSlot := slot)
      case TryCatchOf(a) => t.(tryCatch := a.raw)
      case _ => t
    }

    /** The table once the aspect has put back what it saved. */
    function Restored(t: Table): Table
      reads Repr()
    {
      match this
      case ContextOf(a) => t.(context := a.prior)
      case EscapeSlotOf(a) => t.(escapeSlot := a.prior)
      case TryCatchOf(a) => t.(tryCatch := a.prior)
      case _ => t
    }

    /** What exiting the aspect reports when the table is `t`. */
    function ExitOutcome(t: Table): Status {
      match this
      case ContextOf(a) =>
        if t.context == null then Panic(UnwrapNone) else if t.context != a.context then Panic(NotEqual) else Ok
      case EscapeSlotOf(_) =>
        if t.escapeSlot == null then Panic(UnwrapNone) else Ok
      case TryCatchOf(a) =>
        if t.tryCatch == null then Panic(UnwrapNone) else if t.tryCatch != a.raw then Panic(NotEqual) else Ok
      case _ => Ok
    }

    /** The V8 calls of entering; a Context aspect calls only when it does not panic. */
    function EnterCalls(isolate: Isolate, s: Status): seq<NativeCall> {
      match this
      case NoAspect => []
      case ContextOf(a) => if s.Ok? then [ContextEnter(a.context)] else []
      case HandleScopeOf(a) => [HandleScopeConstruct(a.raw, isolate)]
      case EscapeSlotOf(_) => [Undefined(isolate), LocalNew(isolate)]
      case TryCatchOf(a) => [TryCatchConstruct(a.raw, isolate)]
    }

    /** The V8 calls of an exit that does not panic. */
    function ExitCalls(): seq<NativeCall> {
      match this
      case ContextOf(a) => [ContextExit(a.context)]
      case HandleScopeOf(a) => [HandleScopeDestruct(a.raw)]
      case TryCatchOf(a) => [TryCatchDestruct(a.raw)]
      case _ => []
    }

    /** `Aspect::enter`: saves the displaced slot and installs the aspect's value. */
    method Enter(es: EffectiveScope) returns (s: Status)
      modifies es, Repr()
      ensures this.EscapeSlotOf? ==> fresh(es.escapeSlot)
      ensures es.Snapshot() == Installed(old(es.Snapshot()), es.escapeSlot)
      ensures Saves(old(es.Snapshot()))
      ensures s == if old(Idle()) then Ok else Panic(PriorNotEmpty)
      ensures es.calls == old(es.calls) + EnterCalls(es.isolate, s)
    {
      match this
      case NoAspect => s := Ok;
      case ContextOf(a) => s := a.Enter(es);
      case HandleScopeOf(a) => s := a.Enter(es);
      case EscapeSlotOf(a) => s := a.Enter(es);
      case TryCatchOf(a) => s := a.Enter(es);
    }

    /** `Aspect::exit`: puts the saved slot back and forgets it. */
    method Exit(es: EffectiveScope) returns (s: Status)
      modifies es, Repr()
      ensures Idle()
      ensures es.Snapshot() == old(Restored(es.Snapshot()))
      ensures s == ExitOutcome(old(es.Snapshot()))
      ensures es.calls == old(es.calls) + if s.Ok? then ExitCalls() else []
    {
      match this
      case NoAspect => s := Ok;
      case ContextOf(a) => s := a.Exit(es);
      case HandleScopeOf(a) => s := a.Exit(es);
      case EscapeSlotOf(a) => s := a.Exit(es);
      case TryCatchOf(a) => s := a.Exit(es);
    }
  }

  /** `ScopeDataInner<A1, A2>`: a header and two aspects. */
  class ScopeData {
    const header: Header
    const aspect1: Aspect
    const aspect2: Aspect

    ghost function Repr(): set<object> {
      {header} + aspect1.Repr() + aspect2.Repr()
    }

    function Table(): EffectiveScope {
      header.effectiveScope
    }

    /** The pairs of aspects the library uses: a Context, HandleScope or
        TryCatch alone, or a Context or EscapeSlot with a HandleScope second. */
    predicate Valid() {
      match (aspect1, aspect2)
      case (ContextOf(_), NoAspect) => true
      case (HandleScopeOf(_), NoAspect) => true
      case (TryCatchOf(_), NoAspect) => true
      case (ContextOf(_), HandleScopeOf(_)) => true
      case (EscapeSlotOf(_), HandleScopeOf(_)) => true
      case _ => false
    }

    /** Entering cannot panic: the header was never entered or is re-entered on
        the same top, and neither aspect holds a saved value. */
    predicate Ready()
      reads header, header.effectiveScope, Repr()
    {
      && (header.prior == null || header.prior == header.effectiveScope.lastEntered)
      && aspect1.Idle() && aspect2.Idle()
    }

    /** Never entered. */
    predicate Unentered()
      reads Repr()
    {
      header.prior == null && aspect1.Idle() && aspect2.Idle()
    }

    /** `data2::ContextScope`: a Context aspect alone. */
    constructor ContextScope(es: EffectiveScope, context: NativeContext)
      ensures Valid() && Unentered() && fresh(Repr())
      ensures Table() == es && aspect1.ContextOf? && aspect1.context.context == context
    {
      header := new Header(es);
      var a := new ContextAspect(context);
      aspect1 := ContextOf(a);
      aspect2 := NoAspect;
    }

    /** `data2::HandleScope`: a HandleScope aspect alone. */
    constructor HandleScope(es: EffectiveScope)
      ensures Valid() && Unentered() && fresh(Repr())
      ensures Table() == es && aspect1.HandleScopeOf?
    {
      header := new Header(es);
      var a := new HandleScopeAspect();
      aspect1 := HandleScopeOf(a);
      aspect2 := NoAspect;
    }

    /** `data2::ContextAndHandleScope`: a Context, then a HandleScope. */
    constructor ContextAndHandleScope(es: EffectiveScope, context: NativeContext)
      ensures Valid() && Unentered() && fresh(Repr())
      ensures Table() == es && aspect1.ContextOf? && aspect1.context.context == context
      ensures aspect2.HandleScopeOf?
    {
      header := new Header(es);
      var a := new ContextAspect(context);
      var h := new HandleScopeAspect();
      aspect1 := ContextOf(a);
      aspect2 := HandleScopeOf(h);
    }

    /** `data2::EscapableHandleScope`: an EscapeSlot, then a HandleScope. */
    constructor EscapableHandleScope(es: EffectiveScope)
      ensures Valid() && Unentered() && fresh(Repr())
      ensures Table() == es && aspect1.EscapeSlotOf? && aspect2.HandleScopeOf?
    {
      header := new Header(es);
      var a := new EscapeSlotAspect();
      var h := new HandleScopeAspect();
      aspect1 := EscapeSlotOf(a);
      aspect2 := HandleScopeOf(h);
    }

    /** `data2::TryCatch`: a TryCatch aspect alone. */
    constructor TryCatch(es: EffectiveScope)
      ensures Valid() && Unentered() && fresh(Repr())
      ensures Table() == es && aspect1.TryCatchOf?
    {
      header := new Header(es);
      var a := new TryCatchAspect();
      aspect1 := TryCatchOf(a);
      aspect2 := NoAspect;
    }

    /** `enter`: the header, then aspect 1, then aspect 2, stopping at a panic. */
    method Enter() returns (s: Status)
      requires Valid()
      modifies Table(), Repr()
      ensures s.Ok? <==> old(Ready())
      ensures s.Ok? ==> Table().Snapshot() == aspect1.Installed(old(Table().Snapshot()).(lastEntered := header), Table().escapeSlot)
      ensures s.Ok? && aspect1.EscapeSlotOf? ==> fresh(Table().escapeSlot)
      ensures s.Ok? ==> header.prior == if old(header.prior) == null then old(Table().lastEntered) else old(header.prior)
      ensures s.Ok? ==> aspect1.Saves(old(Table().Snapshot())) && aspect2.Idle()
      ensures s.Ok? ==> Table().calls == old(Table().calls) + aspect1.EnterCalls(Table().isolate, Ok) + aspect2.EnterCalls(Table().isolate, Ok)
    {
      var es := header.effectiveScope;
      s := header.Enter();
      if s.Panic? {
        return;
      }
      s := aspect1.Enter(es);
      if s.Panic? {
        return;
      }
      s := aspect2.Enter(es);
    }

    /** Exiting cannot panic: the header is on top and aspect 1's slot holds its value. */
    predicate Exitable()
      reads header, header.effectiveScope, Repr()
    {
      header.effectiveScope.lastEntered == header && aspect1.ExitOutcome(header.effectiveScope.Snapshot()) == Ok
    }

    /** `exit`: the header, then aspect 2, then aspect 1: the reverse of `enter`. */
    method Exit() returns (s: Status)
      requires Valid()
      modifies Table(), Repr()
      ensures header.prior == old(header.prior)
      ensures s.Ok? <==> old(Exitable())
      ensures s.Ok? ==> Table().Snapshot() == old(aspect1.Restored(Table().Snapshot().(lastEntered := header.prior)))
      ensures s.Ok? ==> aspect1.Idle() && aspect2.Idle()
      ensures s.Ok? ==> Table().calls == old(Table().calls) + aspect2.ExitCalls() + aspect1.ExitCalls()
    {
      var es := header.effectiveScope;
      s := header.Exit();
      if s.Panic? {
        return;
      }
      s := aspect2.Exit(es);
      if s.Panic? {
        return;
      }
      s := aspect1.Exit(es);
    }

    /** `Drop`: exits only when the scope is on top; panics when it is shadowed. */
    method Drop() returns (s: Status)
      requires Valid()
      modifies Table(), Repr()
      ensures old(header.HasScopeBeenEntered()).Failure? ==> s == Panic(Shadowed)
      ensures !old(header.HasScopeBeenEntered()).Success? || !old(header.HasScopeBeenEntered()).value ==>
        Table().Snapshot() == old(Table().Snapshot()) && Table().calls == old(Table().calls)
      ensures old(header.HasScopeBeenEntered()) == Success(false) ==> s == Ok
      ensures old(Exitable()) ==> s == Ok
      ensures old(header.HasScopeBeenEntered()) == Success(true) ==> (s.Ok? <==> old(Exitable()))
      ensures old(header.HasScopeBeenEntered()) == Success(true) && s.Ok? ==>
        && Table().Snapshot() == old(aspect1.Restored(Table().Snapshot().(lastEntered := header.prior)))
        && aspect1.Idle() && aspect2.Idle()
        && Table().calls == old(Table().calls) + aspect2.ExitCalls() + aspect1.ExitCalls()
    {
      var entered := header.HasScopeBeenEntered();
      match entered
      case Failure(reason) =>
        s := Panic(reason);
      case Success(true) =>
        s := Exit();
      case Success(false) =>
        s := Ok;
    }
  }

  /** A scope that is entered and then dropped leaves the table as it found it, and
      its V8 calls are undone in reverse order. */
  method EnterThenDrop(d: ScopeData) returns (entered: Status, dropped: Status)
    requires d.Valid() && d.Ready()
    modifies d.Table(), d.Repr()
    ensures entered == Ok && dropped == Ok
    ensures d.Table().Snapshot() == old(d.Table().Snapshot())
    ensures d.aspect1.Idle() && d.aspect2.Idle()
    ensures d.Table().calls == old(d.Table().calls)
      + d.aspect1.EnterCalls(d.Table().isolate, Ok) + d.aspect2.EnterCalls(d.Table().isolate, Ok)
      + d.aspect2.ExitCalls() + d.aspect1.ExitCalls()
  {
    entered := d.Enter();
    dropped := d.Drop();
  }

  /** Entering a child scope over an entered parent shadows the parent. */
  method EnterChild(parent: ScopeData, child: ScopeData) returns (childEntered: Status, whileShadowed: Result<bool, PanicReason>)
    requires parent.Valid() && child.Valid() && parent.Table() == child.Table()
    requires child.Unentered() && parent.Repr() !! child.Repr()
    requires parent.Table().lastEntered == parent.header && parent.header.prior != child.header
    modifies child.Table(), child.Repr()
    ensures childEntered == Ok && whileShadowed == Failure(Shadowed)
    ensures child.header.prior == parent.header
    ensures child.Table().Snapshot() == child.aspect1.Installed(old(child.Table().Snapshot()).(lastEntered := child.header), child.Table().escapeSlot)
    ensures child.aspect1.Saves(old(child.Table().Snapshot())) && child.aspect2.Idle()
    ensures child.Exitable()
  {
    ghost var t := child.Table().Snapshot();
    childEntered := child.Enter();
    whileShadowed := parent.header.HasScopeBeenEntered();
    ExitUndoesEnter(child.aspect1, t.(lastEntered := child.header), child.Table().escapeSlot);
  }

  /** Dropping the child that shadows its parent puts the parent back on top. */
  method DropChild(parent: ScopeData, child: ScopeData) returns (childDropped: Status, afterChild: Result<bool, PanicReason>)
    requires parent.Valid() && child.Valid() && parent.Table() == child.Table()
    requires parent.Repr() !! child.Repr()
    requires child.Exitable() && child.header.prior == parent.header
    modifies child.Table(), child.Repr()
    ensures childDropped == Ok && afterChild == Success(true)
    ensures child.Table().Snapshot() == old(child.aspect1.Restored(child.Table().Snapshot().(lastEntered := parent.header)))
  {
    childDropped := child.Drop();
    afterChild := parent.header.HasScopeBeenEntered();
  }

  /** Entering a ready scope succeeds and leaves it on top, ready to exit. */
  method EnterReady(d: ScopeData) returns (entered: Status)
    requires d.Valid() && d.Ready()
    modifies d.Table(), d.Repr()
    ensures entered == Ok && d.Exitable()
    ensures d.header.prior == old(d.Table().lastEntered)
    ensures d.Table().Snapshot() == d.aspect1.Installed(old(d.Table().Snapshot()).(lastEntered := d.header), d.Table().escapeSlot)
    ensures d.aspect1.Saves(old(d.Table().Snapshot())) && d.aspect2.Idle()
  {
    ghost var t := d.Table().Snapshot();
    entered := d.Enter();
    ExitUndoesEnter(d.aspect1, t.(lastEntered := d.header), d.Table().escapeSlot);
  }

  /** Dropping a scope that is on top with its value installed exits it. */
  method DropOnTop(d: ScopeData) returns (dropped: Status)
    requires d.Valid() && d.Exitable()
    modifies d.Table(), d.Repr()
    ensures dropped == Ok
    ensures d.Table().Snapshot() == old(d.aspect1.Restored(d.Table().Snapshot().(lastEntered := d.header.prior)))
  {
    dropped := d.Drop();
  }

  /** A parent scope that a child shadows cannot be used until the child is gone;
      then it is on top again, and dropping both restores the table. */
  method NestedScopes(parent: ScopeData, child: ScopeData)
    returns (parentEntered: Status, childEntered: Status, whileShadowed: Result<bool, PanicReason>,
             childDropped: Status, afterChild: Result<bool, PanicReason>, parentDropped: Status)
    requires parent.Valid() && child.Valid() && parent.Table() == child.Table()
    requires parent.Ready() && child.Unentered()
    requires parent.Repr() !! child.Repr()
    requires child.header != parent.Table().lastEntered
    modifies parent.Table(), parent.Repr(), child.Repr()
    ensures parentEntered == Ok && childEntered == Ok
    ensures whileShadowed == Failure(Shadowed)
    ensures childDropped == Ok
    ensures afterChild == Success(true)
    ensures parentDropped == Ok
    ensures parent.Table().Snapshot() == old(parent.Table().Snapshot())
  {
    ghost var es := parent.Table();
    ghost var t0 := es.Snapshot();
    parentEntered := EnterReady(parent);
    ghost var t1 := es.Snapshot();
    childEntered, whileShadowed := EnterChild(parent, child);
    ExitUndoesEnter(child.aspect1, t1.(lastEntered := child.header), es.escapeSlot);
    childDropped, afterChild := DropChild(parent, child);
    assert es.Snapshot() == t1;
    ExitUndoesEnter(parent.aspect1, t0, t1.escapeSlot);
    assert t1.(lastEntered := t0.lastEntered) == parent.aspect1.Installed(t0, t1.escapeSlot);
    parentDropped := DropOnTop(parent);
  }

  /** Exiting an aspect undoes entering it: what it saved goes back, and the value
      it installed is the one its exit checks for. */
  lemma ExitUndoesEnter(a: Aspect, t: Table, slot: Slot?)
    requires a.Saves(t)
    ensures a.Restored(a.Installed(t, slot)) == t
    ensures slot != null ==> a.ExitOutcome(a.Installed(t, slot)) == Ok
  {
  }

  /** Dropping a scope that was never entered panics while another scope of the
      same table is entered: its `prior` is still empty, so the check in
      `has_scope_been_entered` cannot tell it from a shadowed scope. */
  method DropUnenteredWhileOtherEntered(entered: ScopeData, other: ScopeData)
    returns (s: Status, dropped: Status)
    requires entered.Valid() && other.Valid() && entered.Table() == other.Table()
    requires entered.Ready() && other.Unentered()
    requires entered.Repr() !! other.Repr()
    modifies entered.Table(), entered.Repr(), other.Repr()
    ensures s == Ok
    ensures dropped == Panic(Shadowed)
  {
    s := entered.Enter();
    dropped := other.Drop();
  }
}
