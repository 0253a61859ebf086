/** The scope-composition relation of src/lib.rs: which scope type results when a
    ContextScope, HandleScope, EscapableHandleScope or TryCatch is opened inside a
    scope of a given type (the `Add*` traits and their impls).  In Rust the relation
    lives in the type system; here it is a partial function over a datatype of scope
    types, with `None` where no impl exists. */
module ScopeComposition {
  import opened Outcomes

  /** A Rust lifetime, represented by the nesting depth of the scope that owns it:
      a larger depth is a more deeply nested, shorter-lived scope. */
  type Lifetime = int

  /** The bound `'long: 'short`, "long outlives short". */
  predicate Outlives(long: Lifetime, short: Lifetime) {
    long <= short
  }

  /** The `P` parameter of `HandleScope<'a, P>`: a root scope of an isolate, or a
      handle scope that has a context (the default, `P = Context`). */
  datatype Host = OnIsolate | OnContext

  /** The scope types of the `active` module.  `Unit` is Rust's `()`, the default
      parameter of `ContextScope` and `TryCatch`. */
  datatype Scope =
    | Unit
    | ContextScope(lt: Lifetime, inner: Scope)
    | HandleScope(lt: Lifetime, host: Host)
    | EscapableHandleScope(lt: Lifetime, escapeLt: Lifetime)
    | TryCatch(lt: Lifetime, inner: Scope)

  /** The lifetime of the handle scope that new locals are created in, if any. */
  function HandleLt(s: Scope): Option<Lifetime> {
    match s
    case Unit => None
    case ContextScope(_, inner) => HandleLt(inner)
    case HandleScope(b, _) => Some(b)
    case EscapableHandleScope(b, _) => Some(b)
    case TryCatch(_, inner) => HandleLt(inner)
  }

  /** The lifetime of the scope that a value escapes into, if the scope is escapable. */
  function EscapeTarget(s: Scope): Option<Lifetime> {
    match s
    case Unit => None
    case ContextScope(_, inner) => EscapeTarget(inner)
    case HandleScope(_, _) => None
    case EscapableHandleScope(_, c) => Some(c)
    case TryCatch(_, inner) => EscapeTarget(inner)
  }

  /** The scope types that the relation produces, with their lifetime bounds. */
  predicate Valid(s: Scope) {
    match s
    case Unit => false
    case HandleScope(_, _) => true
    case EscapableHandleScope(a, b) => Outlives(b, a)
    case ContextScope(a, inner) =>
      (match inner
       case Unit => true
       case HandleScope(b, host) => host == OnContext && Outlives(b, a)
       case EscapableHandleScope(b, c) => Outlives(b, a) && Outlives(c, b)
       case _ => false)
    case TryCatch(a, inner) =>
      (match inner
       case HandleScope(b, host) => host == OnContext && Outlives(b, a)
       case EscapableHandleScope(b, c) => Outlives(b, a) && Outlives(c, b)
       case _ => false)
  }

  /** The scopes a chain starts from: `HandleScope::root` on an isolate or a
      context, and `ContextScope::root`. */
  predicate IsRoot(s: Scope) {
    s.HandleScope? || (s.ContextScope? && s.inner == Unit)
  }

  /** `AddContextScope<'a>`: entering a context inside `p`. */
  function AddContextScope(p: Scope, a: Lifetime): (r: Option<Scope>)
    ensures r.Some? ==> p != Unit && Outlives(p.lt, a)
    ensures r.Some? ==> r.value.ContextScope? && r.value.lt == a && r.value.inner != Unit
    ensures r.Some? ==> HandleLt(r.value) == HandleLt(p) && EscapeTarget(r.value) == EscapeTarget(p)
    ensures r.Some? && Valid(p) ==> Valid(r.value)
    ensures p.ContextScope? || p == Unit ==> r.None?
    ensures p.HandleScope? ==> (r.Some? <==> Outlives(p.lt, a))
    ensures Valid(p) ==> (r.Some? <==> Outlives(p.lt, a) && !p.ContextScope?)
  {
    match p
    case HandleScope(b, _) =>
      if Outlives(b, a) then Some(ContextScope(a, HandleScope(b, OnContext))) else None
    case EscapableHandleScope(b, c) =>
      if Outlives(b, a) && Outlives(c, b) then Some(ContextScope(a, p)) else None
    case TryCatch(b, EscapableHandleScope(c, d)) =>
      if Outlives(b, a) && Outlives(c, b) && Outlives(d, c)
      then Some(ContextScope(a, EscapableHandleScope(c, d))) else None
    case TryCatch(b, HandleScope(c, OnContext)) =>
      if Outlives(b, a) && Outlives(c, b)
      then Some(ContextScope(a, HandleScope(c, OnContext))) else None
    case _ => None
  }

  /** `AddHandleScope<'a>`: opening a handle scope inside `p`. */
  function AddHandleScope(p: Scope, a: Lifetime): (r: Option<Scope>)
    ensures r.Some? ==> p != Unit && Outlives(p.lt, a)
    ensures r.Some? ==> (r.value.HandleScope? || r.value.EscapableHandleScope?) && r.value.lt == a
    ensures r.Some? ==> HandleLt(r.value) == Some(a) && EscapeTarget(r.value) == EscapeTarget(p)
    ensures r.Some? && r.value.HandleScope? ==> r.value.host == OnContext
    ensures r.Some? && Valid(p) ==> Valid(r.value)
    ensures (p.HandleScope? && p.host == OnIsolate) ==> r.None?
    ensures Valid(p) ==> (r.Some? <==> Outlives(p.lt, a) && !(p.HandleScope? && p.host == OnIsolate))
    decreases p
  {
    match p
    case ContextScope(b, Unit) =>
      if Outlives(b, a) then Some(HandleScope(a, OnContext)) else None
    case ContextScope(b, inner) =>
      if Outlives(b, a) then AddHandleScope(inner, a) else None
    case HandleScope(b, OnContext) =>
      if Outlives(b, a) then Some(HandleScope(a, OnContext)) else None
    case EscapableHandleScope(b, c) =>
      if Outlives(b, a) && Outlives(c, b) then Some(EscapableHandleScope(a, c)) else None
    case TryCatch(b, EscapableHandleScope(c, d)) =>
      if Outlives(b, a) && Outlives(c, b) && Outlives(d, c)
      then Some(EscapableHandleScope(a, d)) else None
    case TryCatch(b, HandleScope(c, OnContext)) =>
      if Outlives(b, a) && Outlives(c, b) then Some(HandleScope(a, OnContext)) else None
    case _ => None
  }

  /** `AddEscapableHandleScope<'a>`: opening an escapable handle scope inside `p`.
      The value it escapes lands in the handle scope that was current in `p`. */
  function AddEscapableHandleScope(p: Scope, a: Lifetime): (r: Option<Scope>)
    ensures r.Some? ==> p != Unit && Outlives(p.lt, a)
    ensures r.Some? ==> HandleLt(p).Some? && r.value == EscapableHandleScope(a, HandleLt(p).value)
    ensures r.Some? && Valid(p) ==> Valid(r.value)
    ensures (p.HandleScope? && p.host == OnIsolate) || p == Unit ==> r.None?
    ensures Valid(p) ==>
      (r.Some? <==> Outlives(p.lt, a) && HandleLt(p).Some? && !(p.HandleScope? && p.host == OnIsolate))
    decreases p
  {
    match p
    case ContextScope(b, inner) =>
      if Outlives(b, a) then AddEscapableHandleScope(inner, a) else None
    case HandleScope(b, OnContext) =>
      if Outlives(b, a) then Some(EscapableHandleScope(a, b)) else None
    case EscapableHandleScope(b, c) =>
      if Outlives(b, a) && Outlives(c, b) then Some(EscapableHandleScope(a, b)) else None
    case TryCatch(b, EscapableHandleScope(c, d)) =>
      if Outlives(b, a) && Outlives(c, b) && Outlives(d, c)
      then Some(EscapableHandleScope(a, c)) else None
    case TryCatch(b, HandleScope(c, OnContext)) =>
      if Outlives(b, a) && Outlives(c, b) then Some(EscapableHandleScope(a, c)) else None
    case _ => None
  }

  /** `AddTryCatch<'a>`: opening a try/catch inside `p`.  It changes neither where
      locals are created nor where a value escapes to. */
  function AddTryCatch(p: Scope, a: Lifetime): (r: Option<Scope>)
    ensures r.Some? ==> p != Unit && Outlives(p.lt, a)
    ensures r.Some? ==> r.value.TryCatch? && r.value.lt == a && !r.value.inner.TryCatch?
    ensures r.Some? ==> HandleLt(r.value) == HandleLt(p) && EscapeTarget(r.value) == EscapeTarget(p)
    ensures r.Some? && Valid(p) ==> Valid(r.value)
    ensures p.TryCatch? || p == Unit || (p.HandleScope? && p.host == OnIsolate) ==> r.None?
    ensures Valid(p) ==>
      (r.Some? <==> Outlives(p.lt, a) && HandleLt(p).Some? && !p.TryCatch? && !(p.HandleScope? && p.host == OnIsolate))
    decreases p
  {
    match p
    case ContextScope(b, inner) =>
      if Outlives(b, a) then AddTryCatch(inner, a) else None
    case HandleScope(b, OnContext) =>
      if Outlives(b, a) then Some(TryCatch(a, HandleScope(b, OnContext))) else None
    case EscapableHandleScope(b, c) =>
      if Outlives(b, a) && Outlives(c, b) then Some(TryCatch(a, p)) else None
    case _ => None
  }

  /** A `ContextScope<'b, P>` over a scope `P` offers exactly the handle-scope,
      escapable-handle-scope and try/catch additions that `P` offers, for scopes
      nested inside it; over `()` it offers a plain handle scope only. */
  lemma ContextScopeForwards(b: Lifetime, inner: Scope, a: Lifetime)
    ensures inner != Unit ==>
      AddHandleScope(ContextScope(b, inner), a) == (if Outlives(b, a) then AddHandleScope(inner, a) else None)
    ensures AddEscapableHandleScope(ContextScope(b, inner), a)
      == (if Outlives(b, a) then AddEscapableHandleScope(inner, a) else None)
    ensures AddTryCatch(ContextScope(b, inner), a) == (if Outlives(b, a) then AddTryCatch(inner, a) else None)
    ensures AddHandleScope(ContextScope(b, Unit), a) == (if Outlives(b, a) then Some(HandleScope(a, OnContext)) else None)
    ensures AddEscapableHandleScope(ContextScope(b, Unit), a).None? && AddTryCatch(ContextScope(b, Unit), a).None?
  {
  }

  /** The rules that fix the escape lifetime: a handle scope opened inside an
      escapable scope (directly or under its try/catch) keeps the escape target;
      an escapable scope opened inside a handle scope escapes into that scope. */
  lemma EscapeLifetimeRules(a: Lifetime, b: Lifetime, c: Lifetime, d: Lifetime)
    requires Outlives(b, a) && Outlives(c, b) && Outlives(d, c)
    ensures AddHandleScope(EscapableHandleScope(b, c), a) == Some(EscapableHandleScope(a, c))
    ensures AddHandleScope(TryCatch(b, EscapableHandleScope(c, d)), a) == Some(EscapableHandleScope(a, d))
    ensures AddEscapableHandleScope(HandleScope(b, OnContext), a) == Some(EscapableHandleScope(a, b))
    ensures AddEscapableHandleScope(EscapableHandleScope(b, c), a) == Some(EscapableHandleScope(a, b))
  {
  }

  /** One step of scope composition. */
  datatype Step =
    | EnterContext(lt: Lifetime)
    | OpenHandleScope(lt: Lifetime)
    | OpenEscapableHandleScope(lt: Lifetime)
    | OpenTryCatch(lt: Lifetime)

  function Apply(s: Scope, step: Step): Option<Scope> {
    match step
    case EnterContext(a) => AddContextScope(s, a)
    case OpenHandleScope(a) => AddHandleScope(s, a)
    case OpenEscapableHandleScope(a) => AddEscapableHandleScope(s, a)
    case OpenTryCatch(a) => AddTryCatch(s, a)
  }

  /** The scope reached from `s` by the steps, or `None` if one of them has no impl. */
  function ApplyAll(s: Scope, steps: seq<Step>): Option<Scope>
    decreases |steps|
  {
    if steps == [] then Some(s)
    else match Apply(s, steps[0])
      case None => None
      case Some(s') => ApplyAll(s', steps[1..])
  }

  /** In a valid scope the escape target outlives the current handle scope: a
      value that escapes always moves to an enclosing scope. */
  lemma EscapeOutlivesHandle(s: Scope)
    requires Valid(s) && EscapeTarget(s).Some?
    ensures HandleLt(s).Some? && Outlives(EscapeTarget(s).value, HandleLt(s).value)
  {
  }

  /** Every scope type reachable from a root by any sequence of additions is one
      of the valid types, every addition nests inside its parent, and its escape
      target (if any) outlives its handle scope. */
  lemma {:induction false} ReachableScopesAreValid(root: Scope, steps: seq<Step>)
    requires IsRoot(root)
    ensures ApplyAll(root, steps).Some? ==> Valid(ApplyAll(root, steps).value)
    ensures ApplyAll(root, steps).Some? ==> Outlives(root.lt, ApplyAll(root, steps).value.lt)
    ensures ApplyAll(root, steps).Some? && EscapeTarget(ApplyAll(root, steps).value).Some? ==>
      var s := ApplyAll(root, steps).value;
      HandleLt(s).Some? && Outlives(EscapeTarget(s).value, HandleLt(s).value)
  {
    ValidStepsStayValid(root, steps);
  }

  lemma {:induction false} ValidStepsStayValid(s: Scope, steps: seq<Step>)
    requires Valid(s)
    ensures ApplyAll(s, steps).Some? ==> Valid(ApplyAll(s, steps).value)
    ensures ApplyAll(s, steps).Some? ==> Outlives(s.lt, ApplyAll(s, steps).value.lt)
    ensures ApplyAll(s, steps).Some? && EscapeTarget(ApplyAll(s, steps).value).Some? ==>
      var t := ApplyAll(s, steps).value;
      HandleLt(t).Some? && Outlives(EscapeTarget(t).value, HandleLt(t).value)
    decreases |steps|
  {
    if steps == [] {
      if EscapeTarget(s).Some? {
        EscapeOutlivesHandle(s);
      }
    } else {
      match Apply(s, steps[0])
      case None =>
      case Some(s') =>
        ValidStepsStayValid(s', steps[1..]);
    }
  }
}
